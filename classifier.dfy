/**
 * The per-trade tagger: the insider's role from the relationship text, the
 * company-size band from the market cap, the trade-size band from the
 * ownership fraction, and the tag list assembled from the three.
 */
module Classifier {
  import opened Wrappers
  import opened Text
  import opened Market

  const CEO := "👑 CEO"
  const CFO := "💼 CFO"
  const COO := "⚙️ COO"
  const CRO := "💰 CRO"
  const CIO := "📈 CIO"
  const CBO := "🧠 CBO"
  const CHAIRMAN := "🪑 Chairman"
  const PRESIDENT := "🎖️ President"
  const EVP := "🧍 EVP"
  const PORTFOLIO_MANAGER := "📊 Portfolio Manager"
  const TEN_PERCENT_OWNER := "🔟 10% Owner"
  const DIRECTOR := "📋 Director"
  const OTHER := "🕵️ Other"

  const UNKNOWN_SIZE := "❓ UNKNOWN SIZE"

  const MICRO_CAP := "🐣 MICRO CAP"
  const SMALL_CAP := "🌱 SMALL CAP"
  const MID_CAP := "🌿 MID CAP"
  const LARGE_CAP := "🌳 LARGE CAP"
  const MEGA_CAP := "🏔️ MEGA CAP"

  const VERY_LARGE_TRADE := "🔥 VERY LARGE TRADE"
  const LARGE_TRADE := "💰 LARGE TRADE"
  const SMALL_TRADE := "🟢 SMALL TRADE"
  /** The "no size tag" marker of a trade below 0.01% of the company. */
  const NO_SIZE := "—"

  const ROLE_TAGS := [CEO, CFO, COO, CRO, CIO, CBO, CHAIRMAN, PRESIDENT, EVP, PORTFOLIO_MANAGER, TEN_PERCENT_OWNER, DIRECTOR, OTHER]
  const CAP_TAGS := [UNKNOWN_SIZE, MICRO_CAP, SMALL_CAP, MID_CAP, LARGE_CAP, MEGA_CAP]
  const SIZE_TAGS := [UNKNOWN_SIZE, VERY_LARGE_TRADE, LARGE_TRADE, SMALL_TRADE]

  /** The text the role keywords are searched in: lower-cased, with "&" spelled "and". */
  function NormalizedRelationship(relationship: string): string
  {
    ReplaceChar(Lower(relationship), '&', "and")
  }

  /** `classify_insider_role`: the first role whose keyword occurs in the relationship text. */
  function ClassifyInsiderRole(relationship: string): (role: string)
    ensures role == "" <==> relationship == ""
    ensures role == "" || (role in ROLE_TAGS && |role| >= 2)
  {
    if relationship == "" then "" else RoleOfText(NormalizedRelationship(relationship))
  }

  /** The keyword chain of `classify_insider_role` on the normalized text. */
  function RoleOfText(rel: string): (role: string)
    ensures role in ROLE_TAGS && |role| >= 2
  {
    if Contains(rel, "ceo") || Contains(rel, "chief executive") then CEO
    else if Contains(rel, "cfo") || Contains(rel, "chief financial") then CFO
    else if Contains(rel, "coo") || Contains(rel, "chief operating") then COO
    else if Contains(rel, "cro") || Contains(rel, "chief revenue") then CRO
    else if Contains(rel, "cio") || Contains(rel, "chief investment") then CIO
    else if Contains(rel, "cbo") || Contains(rel, "chief business") then CBO
    else if Contains(rel, "chairman") then CHAIRMAN
    else if Contains(rel, "president") then PRESIDENT
    else if Contains(rel, "evp") then EVP
    else if Contains(rel, "portfolio manager") then PORTFOLIO_MANAGER
    else if Contains(rel, "10% owner") || Contains(rel, "10 percent") then TEN_PERCENT_OWNER
    else if Contains(rel, "director") then DIRECTOR
    else OTHER
  }

  /** One line of the role table: any of the keywords selects the tag. */
  datatype RoleRule = RoleRule(keywords: seq<string>, tag: string)

  /** The role table in the order it is consulted. */
  const ROLE_RULES: seq<RoleRule> := [
    RoleRule(["ceo", "chief executive"], CEO),
    RoleRule(["cfo", "chief financial"], CFO),
    RoleRule(["coo", "chief operating"], COO),
    RoleRule(["cro", "chief revenue"], CRO),
    RoleRule(["cio", "chief investment"], CIO),
    RoleRule(["cbo", "chief business"], CBO),
    RoleRule(["chairman"], CHAIRMAN),
    RoleRule(["president"], PRESIDENT),
    RoleRule(["evp"], EVP),
    RoleRule(["portfolio manager"], PORTFOLIO_MANAGER),
    RoleRule(["10% owner", "10 percent"], TEN_PERCENT_OWNER),
    RoleRule(["director"], DIRECTOR)
  ]

  predicate MentionsAny(text: string, keywords: seq<string>)
  {
    exists j | 0 <= j < |keywords| :: Contains(text, keywords[j])
  }

  /** A reference reading of the role table: the tag of the first rule that matches, else "Other". */
  function FirstMatchingRole(text: string, rules: seq<RoleRule>): (tag: string)
    ensures tag == OTHER || exists k | 0 <= k < |rules| :: tag == rules[k].tag
  {
    if rules == [] then OTHER
    else if MentionsAny(text, rules[0].keywords) then rules[0].tag
    else
      var tag := FirstMatchingRole(text, rules[1..]);
      assert forall k | 1 <= k <= |rules[1..]| :: rules[1..][k - 1] == rules[k];
      tag
  }

  /**
   * The reference reading picks the first matching rule, and "Other" only
   * when no rule matches: `k` is the index of the rule that decides.
   */
  lemma {:induction false} FirstMatchingRoleIsFirst(text: string, rules: seq<RoleRule>) returns (k: nat)
    ensures k <= |rules|
    ensures forall j | 0 <= j < k :: !MentionsAny(text, rules[j].keywords)
    ensures k < |rules| ==> MentionsAny(text, rules[k].keywords) && FirstMatchingRole(text, rules) == rules[k].tag
    ensures k == |rules| ==> FirstMatchingRole(text, rules) == OTHER
  {
    if rules == [] {
      k := 0;
    } else if MentionsAny(text, rules[0].keywords) {
      k := 0;
    } else {
      var rest := rules[1..];
      var k' := FirstMatchingRoleIsFirst(text, rest);
      k := k' + 1;
      forall j | 0 <= j < k ensures !MentionsAny(text, rules[j].keywords) {
        if j > 0 { assert rules[j] == rest[j - 1]; }
      }
      if k' < |rest| { assert rules[k] == rest[k']; }
    }
  }

  lemma MentionsTwo(text: string, rule: RoleRule, a: string, b: string)
    requires rule.keywords == [a, b]
    ensures MentionsAny(text, rule.keywords) <==> Contains(text, a) || Contains(text, b)
  {
    if Contains(text, a) { assert rule.keywords[0] == a; }
    if Contains(text, b) { assert rule.keywords[1] == b; }
  }

  lemma MentionsOne(text: string, rule: RoleRule, a: string)
    requires rule.keywords == [a]
    ensures MentionsAny(text, rule.keywords) <==> Contains(text, a)
  {
    if Contains(text, a) { assert rule.keywords[0] == a; }
  }

  /** `classify_insider_role` is the first-match reading of the role table. */
  lemma FirstMatchingRoleAt(text: string, rules: seq<RoleRule>, k: int)
    requires 0 <= k < |rules|
    ensures FirstMatchingRole(text, rules[k..]) ==
      if MentionsAny(text, rules[k].keywords) then rules[k].tag else FirstMatchingRole(text, rules[k + 1..])
  {
    assert rules[k..][0] == rules[k];
    assert rules[k..][1..] == rules[k + 1..];
  }

  lemma RoleOfTextFollowsTable(t: string)
    ensures RoleOfText(t) == FirstMatchingRole(t, ROLE_RULES)
  {
    var r := ROLE_RULES;
    assert r == r[0..];
    MentionsTwo(t, r[0], "ceo", "chief executive"); FirstMatchingRoleAt(t, r, 0);
    MentionsTwo(t, r[1], "cfo", "chief financial"); FirstMatchingRoleAt(t, r, 1);
    MentionsTwo(t, r[2], "coo", "chief operating"); FirstMatchingRoleAt(t, r, 2);
    MentionsTwo(t, r[3], "cro", "chief revenue"); FirstMatchingRoleAt(t, r, 3);
    MentionsTwo(t, r[4], "cio", "chief investment"); FirstMatchingRoleAt(t, r, 4);
    MentionsTwo(t, r[5], "cbo", "chief business"); FirstMatchingRoleAt(t, r, 5);
    LaterRolesFollowTable(t);
  }

  /** The last six rules of the table read as the tail of the keyword chain. */
  lemma LaterRolesFollowTable(t: string)
    ensures FirstMatchingRole(t, ROLE_RULES[6..]) ==
      if Contains(t, "chairman") then CHAIRMAN
      else if Contains(t, "president") then PRESIDENT
      else if Contains(t, "evp") then EVP
      else if Contains(t, "portfolio manager") then PORTFOLIO_MANAGER
      else if Contains(t, "10% owner") || Contains(t, "10 percent") then TEN_PERCENT_OWNER
      else if Contains(t, "director") then DIRECTOR
      else OTHER
  {
    var r := ROLE_RULES;
    assert r[12..] == [];
    MentionsOne(t, r[6], "chairman"); FirstMatchingRoleAt(t, r, 6);
    MentionsOne(t, r[7], "president"); FirstMatchingRoleAt(t, r, 7);
    MentionsOne(t, r[8], "evp"); FirstMatchingRoleAt(t, r, 8);
    MentionsOne(t, r[9], "portfolio manager"); FirstMatchingRoleAt(t, r, 9);
    MentionsTwo(t, r[10], "10% owner", "10 percent"); FirstMatchingRoleAt(t, r, 10);
    MentionsOne(t, r[11], "director"); FirstMatchingRoleAt(t, r, 11);
  }

  /** Role matching ignores letter case. */
  lemma RoleIgnoresCase(a: string, b: string)
    requires Lower(a) == Lower(b)
    ensures ClassifyInsiderRole(a) == ClassifyInsiderRole(b)
  {
  }

  /** "&" in the relationship is read as "and": "Chief Executive & Director" and "Chief Executive and Director" get the same role. */
  lemma RoleReadsAmpersandAsAnd(relationship: string)
    ensures ClassifyInsiderRole(ReplaceChar(relationship, '&', "and")) == ClassifyInsiderRole(relationship)
  {
    var spelled := ReplaceChar(relationship, '&', "and");
    LowerReplaceChar(relationship, '&', "and");
    assert Lower("and") == "and";
    assert '&' !in Lower(spelled);
    assert NormalizedRelationship(spelled) == Lower(spelled);
  }

  /** The first keyword in table order wins: a CEO who is also a director is tagged CEO. */
  lemma CeoBeatsDirector(relationship: string)
    requires relationship == "CEO, Director"
    ensures ClassifyInsiderRole(relationship) == CEO
  {
    var lowered := Lower(relationship);
    assert lowered == "ceo, director";
    assert NormalizedRelationship(relationship) == lowered;
    assert OccursAt(lowered, "ceo", 0);
  }

  /** A non-empty relationship that names no role keyword is "Other". */
  lemma NoKeywordIsOther(relationship: string)
    requires relationship != ""
    requires forall k | 0 <= k < |ROLE_RULES| :: !MentionsAny(NormalizedRelationship(relationship), ROLE_RULES[k].keywords)
    ensures ClassifyInsiderRole(relationship) == OTHER
  {
    var t := NormalizedRelationship(relationship);
    RoleOfTextFollowsTable(t);
    var k := FirstMatchingRoleIsFirst(t, ROLE_RULES);
  }

  /** A chain input naming none of the role keywords falls through to "Other". */
  lemma RoleOfTextNoKeyword(t: string)
    requires !Contains(t, "ceo") && !Contains(t, "chief executive") && !Contains(t, "cfo") && !Contains(t, "chief financial")
    requires !Contains(t, "coo") && !Contains(t, "chief operating") && !Contains(t, "cro") && !Contains(t, "chief revenue")
    requires !Contains(t, "cio") && !Contains(t, "chief investment") && !Contains(t, "cbo") && !Contains(t, "chief business")
    requires !Contains(t, "chairman") && !Contains(t, "president") && !Contains(t, "evp") && !Contains(t, "portfolio manager")
    requires !Contains(t, "10% owner") && !Contains(t, "10 percent") && !Contains(t, "director")
    ensures RoleOfText(t) == OTHER
  {
  }

  /** The relationship cell as text: `str()` of a missing cell is "nan". */
  function RelationshipText(relationship: Option<string>): string
  {
    match relationship
    case Some(s) => s
    case None => "nan"
  }

  /** The role tagged for a trade row: its relationship as `str(...).strip().lower()`. */
  function TradeRole(relationship: Option<string>): (role: string)
    ensures role == "" || (role in ROLE_TAGS && |role| >= 2)
  {
    ClassifyInsiderRole(Lower(Strip(RelationshipText(relationship))))
  }

  /** "nan" names no role keyword. */
  lemma NanNamesNoRole(t: string)
    requires t == "nan"
    ensures RoleOfText(t) == OTHER
  {
    NotContainsChar(t, "ceo", 0);
    NotContainsChar(t, "chief executive", 0);
    NotContainsChar(t, "cfo", 0);
    NotContainsChar(t, "chief financial", 0);
    NotContainsChar(t, "coo", 0);
    NotContainsChar(t, "chief operating", 0);
    NotContainsChar(t, "cro", 0);
    NotContainsChar(t, "chief revenue", 0);
    NotContainsChar(t, "cio", 0);
    NotContainsChar(t, "chief investment", 0);
    NotContainsChar(t, "cbo", 0);
    NotContainsChar(t, "chief business", 0);
    NotContainsChar(t, "chairman", 0);
    NotContainsChar(t, "president", 0);
    NotContainsChar(t, "evp", 0);
    NotContainsChar(t, "portfolio manager", 0);
    NotContainsChar(t, "10% owner", 0);
    NotContainsChar(t, "10 percent", 0);
    NotContainsChar(t, "director", 0);
    RoleOfTextNoKeyword(t);
  }

  /** "nan" is unchanged by strip, lower-casing and the "&" rewrite. */
  lemma NanIsNormal(t: string)
    requires t == "nan"
    ensures Lower(Strip(t)) == t && NormalizedRelationship(t) == t
  {
    assert |t| == 3 && t[0] == 'n' && t[1] == 'a' && t[2] == 'n';
    NormalTextUnchanged(t);
  }

  /** Text that is trimmed, lower case and free of "&" is left as it is by the normalisation. */
  lemma NormalTextUnchanged(t: string)
    requires t == [] || (!IsSpace(t[0]) && !IsSpace(t[|t| - 1]))
    requires forall i :: 0 <= i < |t| ==> !('A' <= t[i] <= 'Z') && t[i] != '&'
    ensures Lower(Strip(t)) == t && NormalizedRelationship(t) == t
  {
    StripTrimmed(t);
    var low := Lower(t);
    forall i | 0 <= i < |t| ensures low[i] == t[i] {
      assert LowerChar(t[i]) == t[i];
    }
    assert low == t;
    assert NormalizedRelationship(t) == ReplaceChar(low, '&', "and");
    assert '&' !in low;
  }

  /** A row whose relationship is missing gets the "Other" role, not an empty one. */
  lemma MissingRelationshipIsOther(relationship: Option<string>)
    requires relationship.None?
    ensures TradeRole(relationship) == OTHER
  {
    var t := RelationshipText(relationship);
    NanIsNormal(t);
    NanNamesNoRole(t);
  }

  /** A relationship made only of whitespace gives no role tag. */
  lemma BlankRelationshipHasNoRole(relationship: string)
    requires forall i :: 0 <= i < |relationship| ==> IsSpace(relationship[i])
    ensures TradeRole(Some(relationship)) == ""
  {
  }

  /**
   * `classify_company_cap`: fixed market-cap bands in dollars.  The snapshot
   * cap is a float cell: every `<` test fails on NaN, so a NaN cap falls
   * through to the mega band.
   */
  function ClassifyCompanyCap(marketCap: Option<Float>): (tag: string)
    ensures tag in CAP_TAGS && |tag| >= 2
    ensures tag == UNKNOWN_SIZE <==> marketCap.None?
    ensures marketCap == Some(NaN) ==> tag == MEGA_CAP
    ensures marketCap.Some? && marketCap.value.Fin? ==> var cap := marketCap.value.x;
      (tag == MICRO_CAP <==> cap < 300_000_000.0) &&
      (tag == SMALL_CAP <==> 300_000_000.0 <= cap < 2_000_000_000.0) &&
      (tag == MID_CAP <==> 2_000_000_000.0 <= cap < 10_000_000_000.0) &&
      (tag == LARGE_CAP <==> 10_000_000_000.0 <= cap < 200_000_000_000.0) &&
      (tag == MEGA_CAP <==> 200_000_000_000.0 <= cap)
  {
    match marketCap
    case None => UNKNOWN_SIZE
    case Some(cap) =>
      if Below(cap, 300_000_000.0) then MICRO_CAP
      else if Below(cap, 2_000_000_000.0) then SMALL_CAP
      else if Below(cap, 10_000_000_000.0) then MID_CAP
      else if Below(cap, 200_000_000_000.0) then LARGE_CAP
      else MEGA_CAP
  }

  /** The position of a known cap band, from micro (0) to mega (4). */
  function CapRank(tag: string): int
  {
    if tag == MICRO_CAP then 0
    else if tag == SMALL_CAP then 1
    else if tag == MID_CAP then 2
    else if tag == LARGE_CAP then 3
    else 4
  }

  /** A larger company never lands in a smaller band. */
  lemma CapBandMonotone(a: real, b: real)
    requires a <= b
    ensures CapRank(ClassifyCompanyCap(Some(Fin(a)))) <= CapRank(ClassifyCompanyCap(Some(Fin(b))))
  {
  }

  /** `classify_trade_size`: bands of the fraction of the company the insider bought. */
  function ClassifyTradeSize(ownershipPct: Option<real>): (tag: string)
    ensures tag in SIZE_TAGS || tag == NO_SIZE
    ensures tag == UNKNOWN_SIZE <==> ownershipPct.None?
    ensures ownershipPct.Some? ==> var p := ownershipPct.value;
      (tag == VERY_LARGE_TRADE <==> 0.005 <= p) &&
      (tag == LARGE_TRADE <==> 0.001 <= p < 0.005) &&
      (tag == SMALL_TRADE <==> 0.0001 <= p < 0.001) &&
      (tag == NO_SIZE <==> p < 0.0001)
  {
    match ownershipPct
    case None => UNKNOWN_SIZE
    case Some(p) =>
      if p >= 0.005 then VERY_LARGE_TRADE
      else if p >= 0.001 then LARGE_TRADE
      else if p >= 0.0001 then SMALL_TRADE
      else NO_SIZE
  }

  /** The tag list from its three parts: the role and cap when not empty, the size unless it is a marker. */
  function AssembleTags(role: string, size: string, cap: string): seq<string>
  {
    (if role != "" then [role] else []) + (if size != NO_SIZE && size != "Unknown" then [size] else []) + (if cap != "" then [cap] else [])
  }

  /**
   * `tag_trade`: the role tag when there is one, the size tag unless the
   * trade is too small to size, and the cap tag, appended in that order.
   * The ownership fraction and the market cap are inputs.
   */
  method TagTrade(relationship: Option<string>, ownershipPct: Option<real>, marketCap: Option<Float>) returns (tags: seq<string>)
    ensures tags == AssembleTags(TradeRole(relationship), ClassifyTradeSize(ownershipPct), ClassifyCompanyCap(marketCap))
  {
    var roleTag := TradeRole(relationship);
    var sizeTag := ClassifyTradeSize(ownershipPct);
    var capTag := ClassifyCompanyCap(marketCap);
    tags := AppendTags(roleTag, sizeTag, capTag);
  }

  /** The appends of `tag_trade`: each part in turn, unless it is empty or a size marker. */
  method AppendTags(roleTag: string, sizeTag: string, capTag: string) returns (tags: seq<string>)
    ensures tags == AssembleTags(roleTag, sizeTag, capTag)
  {
    tags := [];
    if roleTag != "" {
      tags := tags + [roleTag];
    }
    if sizeTag != NO_SIZE && sizeTag != "Unknown" {
      tags := tags + [sizeTag];
    }
    if capTag != "" {
      tags := tags + [capTag];
    }
  }

  /** With parts that are not markers, the list holds the role if any, the size unless it is too small, and the cap last. */
  lemma AssembleTagsShape(role: string, size: string, cap: string)
    requires role != NO_SIZE && size != "Unknown" && cap != "" && cap != NO_SIZE
    ensures var tags := AssembleTags(role, size, cap);
      |tags| == (if role == "" then 0 else 1) + (if size == NO_SIZE then 0 else 1) + 1 &&
      (role != "" ==> tags[0] == role) &&
      (size != NO_SIZE ==> tags[|tags| - 2] == size) &&
      tags[|tags| - 1] == cap &&
      NO_SIZE !in tags
  {
  }

  /**
   * Every trade gets one to three tags: its role tag when the relationship
   * names one, its size tag unless the stake is below 0.01% of the company,
   * and always its cap tag, last; the no-size marker never appears, and a
   * trade with neither ownership nor cap data is tagged unknown twice.
   */
  lemma TagTradeShape(relationship: Option<string>, ownershipPct: Option<real>, marketCap: Option<Float>)
    ensures var role := TradeRole(relationship); var size := ClassifyTradeSize(ownershipPct);
      var tags := AssembleTags(role, size, ClassifyCompanyCap(marketCap));
      |tags| == (if role == "" then 0 else 1) + (if size == NO_SIZE then 0 else 1) + 1 &&
      1 <= |tags| <= 3 &&
      (role != "" ==> tags[0] == role) &&
      (size != NO_SIZE ==> tags[|tags| - 2] == size) &&
      tags[|tags| - 1] == ClassifyCompanyCap(marketCap) &&
      NO_SIZE !in tags &&
      (ownershipPct.None? && marketCap.None? ==> tags[|tags| - 2] == UNKNOWN_SIZE && tags[|tags| - 1] == UNKNOWN_SIZE)
  {
    TagsAreNotMarkers(relationship, ownershipPct, marketCap);
    AssembleTagsShape(TradeRole(relationship), ClassifyTradeSize(ownershipPct), ClassifyCompanyCap(marketCap));
  }

  /** No role, size or cap tag is one of the markers `tag_trade` filters out. */
  lemma TagsAreNotMarkers(relationship: Option<string>, ownershipPct: Option<real>, marketCap: Option<Float>)
    ensures TradeRole(relationship) != NO_SIZE
    ensures ClassifyTradeSize(ownershipPct) != "Unknown"
    ensures ownershipPct.None? ==> ClassifyTradeSize(ownershipPct) != NO_SIZE
    ensures ClassifyCompanyCap(marketCap) != "" && ClassifyCompanyCap(marketCap) != NO_SIZE
  {
    assert |NO_SIZE| == 1;
    var sizeTag := ClassifyTradeSize(ownershipPct);
    assert sizeTag in SIZE_TAGS || sizeTag == NO_SIZE;
    assert |"Unknown"| == 7 && "Unknown"[0] == 'U';
  }
}
