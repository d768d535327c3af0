/**
 * The footnote motive classifier: each Form 4 footnote is matched, lower-cased,
 * against an ordered list of substring rules; the first rule that matches
 * gives the footnote one motive tag and an explanatory note.  A footnote no
 * rule matches contributes nothing, and a filing with no matched footnote is
 * read as a conviction buy.
 */
module Embedding {
  import opened Wrappers
  import opened Text

  const AUTOMATIC := "Automatic/Scheduled"
  const COMPENSATION := "Compensation/Accounting"
  const OWNERSHIP := "Ownership Disclaimer/Indirect"
  const CONVICTION := "Conviction Buy"

  /** The four motive categories. */
  const CATEGORIES: set<string> := {AUTOMATIC, COMPENSATION, OWNERSHIP, CONVICTION}

  /** The note that goes with the default tag when no footnote matched. */
  const DEFAULT_NOTE := "No footnotes detected → treated as conviction buy."

  /** A motive tag and the note explaining it. */
  datatype Motive = Motive(tag: string, note: string)

  /** The rules in the order they are tried, on the lower-cased footnote text. */
  function MotiveOf(text: string): (m: Option<Motive>)
    ensures m.Some? ==> m.value.tag in CATEGORIES
  {
    if Contains(text, "dividend reinvestment") then
      Some(Motive(AUTOMATIC, "Dividend Reinvestment Plan → automatic buy."))
    else if Contains(text, "10b5-1") then
      Some(Motive(AUTOMATIC, "10b5-1 prearranged plan."))
    else if Contains(text, "option") && Contains(text, "exercise") then
      Some(Motive(COMPENSATION, "Option exercise, not pure conviction."))
    else if Contains(text, "grant") || Contains(text, "award") then
      Some(Motive(COMPENSATION, "Stock grant/award."))
    else if Contains(text, "equity compensation") || Contains(text, "debt conversion") then
      Some(Motive(COMPENSATION, "Equity comp / debt conversion, non-cash."))
    else if Contains(text, "disclaims beneficial ownership") || Contains(text, "may be deemed to beneficially own") then
      Some(Motive(OWNERSHIP, "Beneficial ownership disclaimer or indirect fund/trust structure."))
    else if Contains(text, "held for the account of") || Contains(text, "serves as general partner") then
      Some(Motive(OWNERSHIP, "Indirect ownership via funds, LP/LLC, or trusts."))
    else if Contains(text, "weighted average") || Contains(text, "multiple transactions") then
      Some(Motive(CONVICTION, "Weighted average / multiple transactions → open-market conviction."))
    else if Contains(text, "401(k)") then
      Some(Motive(CONVICTION, "401(k) purchases treated as conviction buy (employee-directed contributions)."))
    else
      None
  }

  /**
   * One footnote rule: it fires when, for every clause, the text contains
   * one of the clause's phrases; a firing rule gives its motive.
   */
  datatype MotiveRule = MotiveRule(clauses: seq<seq<string>>, motive: Motive)

  /** The footnote rules in the order they are tried. */
  const MOTIVE_RULES: seq<MotiveRule> := [
    MotiveRule([["dividend reinvestment"]], Motive(AUTOMATIC, "Dividend Reinvestment Plan → automatic buy.")),
    MotiveRule([["10b5-1"]], Motive(AUTOMATIC, "10b5-1 prearranged plan.")),
    MotiveRule([["option"], ["exercise"]], Motive(COMPENSATION, "Option exercise, not pure conviction.")),
    MotiveRule([["grant", "award"]], Motive(COMPENSATION, "Stock grant/award.")),
    MotiveRule([["equity compensation", "debt conversion"]], Motive(COMPENSATION, "Equity comp / debt conversion, non-cash.")),
    MotiveRule([["disclaims beneficial ownership", "may be deemed to beneficially own"]],
      Motive(OWNERSHIP, "Beneficial ownership disclaimer or indirect fund/trust structure.")),
    MotiveRule([["held for the account of", "serves as general partner"]],
      Motive(OWNERSHIP, "Indirect ownership via funds, LP/LLC, or trusts.")),
    MotiveRule([["weighted average", "multiple transactions"]],
      Motive(CONVICTION, "Weighted average / multiple transactions → open-market conviction.")),
    MotiveRule([["401(k)"]], Motive(CONVICTION, "401(k) purchases treated as conviction buy (employee-directed contributions)."))
  ]

  predicate ContainsOneOf(text: string, phrases: seq<string>)
  {
    exists j | 0 <= j < |phrases| :: Contains(text, phrases[j])
  }

  predicate Fires(text: string, rule: MotiveRule)
  {
    forall c | 0 <= c < |rule.clauses| :: ContainsOneOf(text, rule.clauses[c])
  }

  /** A reference reading of the rule table: the motive of the first rule that fires, if any. */
  function FirstFiring(text: string, rules: seq<MotiveRule>): (m: Option<Motive>)
    ensures m.Some? ==> exists k | 0 <= k < |rules| :: m.value == rules[k].motive
  {
    if rules == [] then None
    else if Fires(text, rules[0]) then Some(rules[0].motive)
    else
      var m := FirstFiring(text, rules[1..]);
      assert forall k | 1 <= k <= |rules[1..]| :: rules[1..][k - 1] == rules[k];
      m
  }

  /**
   * The reference reading picks the first rule that fires, and nothing only
   * when no rule fires: `k` is the index of the rule that decides.
   */
  lemma {:induction false} FirstFiringIsFirst(text: string, rules: seq<MotiveRule>) returns (k: nat)
    ensures k <= |rules|
    ensures forall j | 0 <= j < k :: !Fires(text, rules[j])
    ensures k < |rules| ==> Fires(text, rules[k]) && FirstFiring(text, rules) == Some(rules[k].motive)
    ensures k == |rules| ==> FirstFiring(text, rules) == None
  {
    if rules == [] || Fires(text, rules[0]) {
      k := 0;
    } else {
      var rest := rules[1..];
      var k' := FirstFiringIsFirst(text, rest);
      k := k' + 1;
      forall j | 0 <= j < k ensures !Fires(text, rules[j]) {
        if j > 0 { assert rules[j] == rest[j - 1]; }
      }
      if k' < |rest| { assert rules[k] == rest[k']; }
    }
  }

  /** One step of the reference reading at rule `k`. */
  lemma FirstFiringAt(text: string, rules: seq<MotiveRule>, k: int)
    requires 0 <= k < |rules|
    ensures FirstFiring(text, rules[k..]) ==
      if Fires(text, rules[k]) then Some(rules[k].motive) else FirstFiring(text, rules[k + 1..])
  {
    assert rules[k..][0] == rules[k];
    assert rules[k..][1..] == rules[k + 1..];
  }

  lemma FiresOne(text: string, rule: MotiveRule, a: string)
    requires rule.clauses == [[a]]
    ensures Fires(text, rule) <==> Contains(text, a)
  {
    assert rule.clauses[0] == [a];
    if Contains(text, a) { assert [a][0] == a; }
  }

  lemma FiresEither(text: string, rule: MotiveRule, a: string, b: string)
    requires rule.clauses == [[a, b]]
    ensures Fires(text, rule) <==> Contains(text, a) || Contains(text, b)
  {
    assert rule.clauses[0] == [a, b];
    if Contains(text, a) { assert [a, b][0] == a; }
    if Contains(text, b) { assert [a, b][1] == b; }
  }

  lemma FiresBoth(text: string, rule: MotiveRule, a: string, b: string)
    requires rule.clauses == [[a], [b]]
    ensures Fires(text, rule) <==> Contains(text, a) && Contains(text, b)
  {
    assert rule.clauses[0] == [a] && rule.clauses[1] == [b];
    if Contains(text, a) { assert [a][0] == a; }
    if Contains(text, b) { assert [b][0] == b; }
  }

  /** `classify_footnotes`' chain of tests is the first-firing reading of the rule table. */
  lemma MotiveOfFollowsTable(t: string)
    ensures MotiveOf(t) == FirstFiring(t, MOTIVE_RULES)
  {
    var r := MOTIVE_RULES;
    assert r == r[0..];
    FiresOne(t, r[0], "dividend reinvestment"); FirstFiringAt(t, r, 0);
    FiresOne(t, r[1], "10b5-1"); FirstFiringAt(t, r, 1);
    FiresBoth(t, r[2], "option", "exercise"); FirstFiringAt(t, r, 2);
    FiresEither(t, r[3], "grant", "award"); FirstFiringAt(t, r, 3);
    LaterMotivesFollowTable(t);
  }

  /** The last five rules of the table read as the tail of the chain. */
  lemma LaterMotivesFollowTable(t: string)
    ensures FirstFiring(t, MOTIVE_RULES[4..]) ==
      if Contains(t, "equity compensation") || Contains(t, "debt conversion") then Some(MOTIVE_RULES[4].motive)
      else if Contains(t, "disclaims beneficial ownership") || Contains(t, "may be deemed to beneficially own") then Some(MOTIVE_RULES[5].motive)
      else if Contains(t, "held for the account of") || Contains(t, "serves as general partner") then Some(MOTIVE_RULES[6].motive)
      else if Contains(t, "weighted average") || Contains(t, "multiple transactions") then Some(MOTIVE_RULES[7].motive)
      else if Contains(t, "401(k)") then Some(MOTIVE_RULES[8].motive)
      else None
  {
    var r := MOTIVE_RULES;
    assert r[9..] == [];
    FiresEither(t, r[4], "equity compensation", "debt conversion"); FirstFiringAt(t, r, 4);
    FiresEither(t, r[5], "disclaims beneficial ownership", "may be deemed to beneficially own"); FirstFiringAt(t, r, 5);
    FiresEither(t, r[6], "held for the account of", "serves as general partner"); FirstFiringAt(t, r, 6);
    FiresEither(t, r[7], "weighted average", "multiple transactions"); FirstFiringAt(t, r, 7);
    FiresOne(t, r[8], "401(k)"); FirstFiringAt(t, r, 8);
  }

  /**
   * A footnote gets the motive of rule `k` exactly when rule `k` fires and no
   * earlier rule does, and no motive exactly when no rule fires.
   */
  lemma MotiveIsFirstFiring(t: string)
    ensures MotiveOf(t).None? <==> forall k | 0 <= k < |MOTIVE_RULES| :: !Fires(t, MOTIVE_RULES[k])
    ensures forall k | 0 <= k < |MOTIVE_RULES| :: Fires(t, MOTIVE_RULES[k]) && (forall j | 0 <= j < k :: !Fires(t, MOTIVE_RULES[j])) ==>
      MotiveOf(t) == Some(MOTIVE_RULES[k].motive)
  {
    MotiveOfFollowsTable(t);
    var k := FirstFiringIsFirst(t, MOTIVE_RULES);
  }

  /** The motives of the footnotes some rule matches, in footnote order. */
  function Matched(footnotes: seq<string>): (ms: seq<Motive>)
    ensures |ms| <= |footnotes|
    ensures forall i :: 0 <= i < |ms| ==> ms[i].tag in CATEGORIES
  {
    if footnotes == [] then []
    else
      var last := MotiveOf(Lower(footnotes[|footnotes| - 1]));
      Matched(footnotes[..|footnotes| - 1]) + (if last.Some? then [last.value] else [])
  }

  function Tags(ms: seq<Motive>): (tags: seq<string>)
    ensures |tags| == |ms|
    ensures forall i :: 0 <= i < |ms| ==> tags[i] == ms[i].tag
  {
    seq(|ms|, i requires 0 <= i < |ms| => ms[i].tag)
  }

  function Notes(ms: seq<Motive>): (notes: seq<string>)
    ensures |notes| == |ms|
    ensures forall i :: 0 <= i < |ms| ==> notes[i] == ms[i].note
  {
    seq(|ms|, i requires 0 <= i < |ms| => ms[i].note)
  }

  /**
   * `classify_footnotes`: one pass over the footnotes appending the first
   * matching rule's tag and note, then the conviction default if nothing matched.
   */
  method ClassifyFootnotes(footnotes: seq<string>) returns (tags: seq<string>, notes: seq<string>)
    ensures |tags| == |notes| >= 1
    ensures forall i :: 0 <= i < |tags| ==> tags[i] in CATEGORIES
    ensures Matched(footnotes) != [] ==> tags == Tags(Matched(footnotes)) && notes == Notes(Matched(footnotes))
    ensures Matched(footnotes) == [] ==> tags == [CONVICTION] && notes == [DEFAULT_NOTE]
  {
    tags, notes := [], [];
    for i := 0 to |footnotes|
      invariant tags == Tags(Matched(footnotes[..i]))
      invariant notes == Notes(Matched(footnotes[..i]))
    {
      MatchedStep(footnotes, i);
      var motive := MotiveOf(Lower(footnotes[i]));
      if motive.Some? {
        tags := tags + [motive.value.tag];
        notes := notes + [motive.value.note];
      }
    }
    assert footnotes[..|footnotes|] == footnotes;
    if tags == [] {
      tags := tags + [CONVICTION];
      notes := notes + [DEFAULT_NOTE];
    }
  }

  /** One more footnote adds its motive, if any, at the end. */
  lemma MatchedStep(footnotes: seq<string>, i: int)
    requires 0 <= i < |footnotes|
    ensures var m := MotiveOf(Lower(footnotes[i]));
      Tags(Matched(footnotes[..i + 1])) == Tags(Matched(footnotes[..i])) + (if m.Some? then [m.value.tag] else []) &&
      Notes(Matched(footnotes[..i + 1])) == Notes(Matched(footnotes[..i])) + (if m.Some? then [m.value.note] else [])
  {
    assert footnotes[..i + 1][..i] == footnotes[..i];
  }

  /** Matching distributes over batches of footnotes: the motives keep the footnotes' order. */
  lemma {:induction false} MatchedConcat(a: seq<string>, b: seq<string>)
    ensures Matched(a + b) == Matched(a) + Matched(b)
    decreases |b|
  {
    if b == [] {
      assert a + b == a;
    } else {
      var init := b[..|b| - 1];
      assert (a + b)[..|a + b| - 1] == a + init;
      assert (a + b)[|a + b| - 1] == b[|b| - 1];
      MatchedConcat(a, init);
    }
  }

  /** A single footnote is matched exactly when some rule applies to its lower-cased text. */
  lemma MatchedOne(fn: string)
    ensures Matched([fn]) == if MotiveOf(Lower(fn)).Some? then [MotiveOf(Lower(fn)).value] else []
  {
    assert [fn][..0] == [];
  }

  /** "option" without "exercise" is not read as an option exercise. */
  lemma OptionAloneIsNotExercise(text: string)
    requires Contains(text, "option") && !Contains(text, "exercise")
    ensures MotiveOf(text) != Some(Motive(COMPENSATION, "Option exercise, not pure conviction."))
  {
  }

  /** "grant" or "award" alone is compensation, unless a plan rule matched first. */
  lemma GrantOrAwardIsCompensation(text: string)
    requires Contains(text, "grant") || Contains(text, "award")
    requires !Contains(text, "dividend reinvestment") && !Contains(text, "10b5-1")
    ensures MotiveOf(text).Some? && MotiveOf(text).value.tag == COMPENSATION
  {
  }
}
