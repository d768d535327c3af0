/**
 * Preparation of the unlabeled trades for prediction: tag lists are parsed
 * and de-duplicated, merged with the footnote tags, the trades that have no
 * outcome yet are kept, every known tag becomes a 0/1 column, brackets in
 * column names become underscores, and only the tag and identifier columns
 * are kept.
 */
module PreparePredict {
  import opened Wrappers
  import opened Text
  import opened Seqs
  import opened Frames
  import Predict

  const KNIFE_7D := "🧨 CAUGHT THE KNIFE [7d]"
  const KNIFE_14D := "🧨 CAUGHT THE KNIFE [14d]"

  /** The role tags of the master tag list. */
  const ROLE_TAGS: seq<string> := [
    "👑 CEO", "💼 CFO", "⚙️ COO", "💰 CRO", "📈 CIO", "🧠 CBO", "🪑 Chairman",
    "🎖️ President", "🧍 EVP", "📊 Portfolio Manager", "🔟 10% Owner", "📋 Director"
  ]
  /** The trade-size tags. */
  const SIZE_TAGS: seq<string> := ["🔥 VERY LARGE TRADE", "💰 LARGE TRADE", "🟢 SMALL TRADE", "❓ UNKNOWN SIZE"]
  /** The company-size tags. */
  const CAP_TAGS: seq<string> := ["🐣 MICRO CAP", "🌱 SMALL CAP", "🌿 MID CAP", "🌳 LARGE CAP", "🏔️ MEGA CAP"]
  /** The sector tags. */
  const SECTOR_TAGS: seq<string> := [
    "📡 Tech", "🏥 Healthcare", "🛍️ Consumer Cyclical", "⚡ Energy",
    "🏗️ Industrial", "🔌 Utilities", "🏘️ Real Estate", "⚙️ Materials",
    "📞 Communication", "🧰 Other"
  ]
  /** The price-action tags. */
  const PRICE_TAGS: seq<string> := ["📉 DIP BUY", KNIFE_7D, KNIFE_14D, "🚀 BUYING INTO STRENGTH"]
  /** The insider-behaviour tags. */
  const BEHAVIOUR_TAGS: seq<string> := ["🔁 CLUSTER BUY", "🧠 SMART INSIDER", "🧩 MULTIPLE BUYS", "📅 NEAR EARNINGS"]
  /** The four footnote motives. */
  const MOTIVE_TAGS: seq<string> := ["Automatic/Scheduled", "Compensation/Accounting", "Ownership Disclaimer/Indirect", "Conviction Buy"]

  /** The master tag list, in the order of its definition: the training list plus the four footnote motives. */
  const POSSIBLE_TAGS: seq<string> := ROLE_TAGS + SIZE_TAGS + CAP_TAGS + SECTOR_TAGS + PRICE_TAGS + BEHAVIOUR_TAGS + MOTIVE_TAGS

  /** The identifier columns saved next to the tag features. */
  const ID_COLUMNS: seq<string> := ["ticker", "insider_name", "transaction_date", "price"]

  /** The columns the preparation overwrites or adds before one-hot encoding. */
  const TAG_COLUMNS: seq<string> := ["tags", "footnote_tags", "all_tags"]

  /**
   * `normalize_tags`: a list gives its distinct elements; a string is parsed
   * (`parse` stands for `ast.literal_eval`, `None` for a parse error) and a
   * parsed list gives its distinct elements; everything else gives `[]`.
   */
  function NormalizeTags(v: Value, parse: string -> Option<Value>): (tags: seq<string>)
    ensures NoDuplicates(tags)
    ensures v.List? ==> forall t :: t in tags <==> t in v.items
    ensures v.Str? && parse(v.s).Some? && parse(v.s).value.List? ==> forall t :: t in tags <==> t in parse(v.s).value.items
    ensures v.Str? && (parse(v.s).None? || !parse(v.s).value.List?) ==> tags == []
    ensures !v.Str? && !v.List? ==> tags == []
  {
    match v
    case List(items) => Distinct(items)
    case Str(s) =>
      (match parse(s)
       case Some(List(items)) => Distinct(items)
       case _ => [])
    case _ => []
  }

  /** `list(set(row["tags"] + row["footnote_tags"]))` over the normalised lists. */
  function AllTags(r: Row, parse: string -> Option<Value>): (tags: seq<string>)
    ensures NoDuplicates(tags)
    ensures forall t :: t in tags <==> t in NormalizeTags(Cell(r, "tags"), parse) || t in NormalizeTags(Cell(r, "footnote_tags"), parse)
  {
    Distinct(NormalizeTags(Cell(r, "tags"), parse) + NormalizeTags(Cell(r, "footnote_tags"), parse))
  }

  /** A row after the three tag columns have been overwritten. */
  function Augment(r: Row, parse: string -> Option<Value>): Row
  {
    r["tags" := List(NormalizeTags(Cell(r, "tags"), parse))]
     ["footnote_tags" := List(NormalizeTags(Cell(r, "footnote_tags"), parse))]
     ["all_tags" := List(AllTags(r, parse))]
  }

  /** The prediction set: neither outcome is known. */
  predicate NoOutcome(r: Row)
  {
    Cell(r, "outcome_case_1") == NA && Cell(r, "outcome_case_2") == NA
  }

  /** The predicate `tag in tags` of the one-hot lambda: list membership, or a substring test on a string. */
  predicate Member(tag: string, v: Value)
  {
    match v
    case List(items) => tag in items
    case Str(s) => Contains(s, tag)
    case _ => false
  }

  /** The column list after `df[c] = ...` for each `c` of `added` in turn: new names are appended. */
  function WithColumns(cols: seq<string>, added: seq<string>): (r: seq<string>)
    ensures forall c :: c in r <==> c in cols || c in added
    ensures |cols| <= |r| && r[..|cols|] == cols
  {
    if added == [] then cols
    else
      var prev := WithColumns(cols, added[..|added| - 1]);
      var c := added[|added| - 1];
      assert forall d :: d in added <==> d in added[..|added| - 1] || d == c by {
        assert added == added[..|added| - 1] + [c];
      }
      if c in prev then prev else prev + [c]
  }

  /** The 0/1 column of `tag` over the rows of `f`. */
  function HotColumn(f: Frame, tagCol: string, tag: string): (values: seq<Value>)
    ensures |values| == |f.rows|
    ensures forall i :: 0 <= i < |f.rows| ==> values[i] == Int(if Member(tag, Cell(f.rows[i], tagCol)) then 1 else 0)
  {
    seq(|f.rows|, i requires 0 <= i < |f.rows| => Int(if Member(tag, Cell(f.rows[i], tagCol)) then 1 else 0))
  }

  /** The frame `f` encodes the tags `done` of `f0`, leaving every other column as in `f0`. */
  ghost predicate Encoded(f0: Frame, f: Frame, tagCol: string, done: seq<string>)
  {
    |f.rows| == |f0.rows| &&
    (forall i, t :: 0 <= i < |f.rows| && t in done ==>
      Cell(f.rows[i], t) == Int(if Member(t, Cell(f0.rows[i], tagCol)) then 1 else 0)) &&
    (forall i, d :: 0 <= i < |f.rows| && d !in done ==> Cell(f.rows[i], d) == Cell(f0.rows[i], d))
  }

  lemma OneHotStep(f0: Frame, f: Frame, tagCol: string, done: seq<string>, tag: string)
    requires tagCol !in done && tagCol != tag
    requires Encoded(f0, f, tagCol, done)
    ensures Encoded(f0, SetColumn(f, tag, HotColumn(f, tagCol, tag)), tagCol, done + [tag])
  {
    var g := SetColumn(f, tag, HotColumn(f, tagCol, tag));
    forall i, t | 0 <= i < |g.rows| && t in done + [tag]
      ensures Cell(g.rows[i], t) == Int(if Member(t, Cell(f0.rows[i], tagCol)) then 1 else 0)
    {
      assert Cell(f.rows[i], tagCol) == Cell(f0.rows[i], tagCol);
    }
  }

  /**
   * `one_hot_tags`: for each tag of `tagList` in turn, the column named by
   * the tag is set to 1 on rows whose `tagCol` holds the tag and 0 on the others.
   */
  method OneHotTags(f: Frame, tagCol: string, tagList: seq<string>) returns (g: Frame)
    requires tagCol !in tagList
    ensures g.columns == WithColumns(f.columns, tagList)
    ensures |g.rows| == |f.rows|
    ensures forall i, t :: 0 <= i < |g.rows| && t in tagList ==>
      Cell(g.rows[i], t) == Int(if Member(t, Cell(f.rows[i], tagCol)) then 1 else 0)
    ensures forall i, d :: 0 <= i < |g.rows| && d !in tagList ==> Cell(g.rows[i], d) == Cell(f.rows[i], d)
  {
    g := f;
    for k := 0 to |tagList|
      invariant g.columns == WithColumns(f.columns, tagList[..k])
      invariant Encoded(f, g, tagCol, tagList[..k])
    {
      var tag := tagList[k];
      assert tagList[..k + 1] == tagList[..k] + [tag];
      OneHotStep(f, g, tagCol, tagList[..k], tag);
      g := SetColumn(g, tag, HotColumn(g, tagCol, tag));
    }
    assert tagList[..|tagList|] == tagList;
  }

  /** Keep the wanted columns that are present, in the wanted order. */
  function KeepExisting(wanted: seq<string>, present: seq<string>): (cols: seq<string>)
    ensures forall c :: c in cols <==> c in wanted && c in present
  {
    Filter(wanted, c => c in present)
  }

  /** The column names after the tag columns, the one-hot columns and the bracket renaming. */
  function PredictColumns(columns: seq<string>): seq<string>
  {
    MapNames(WithColumns(WithColumns(columns, TAG_COLUMNS), POSSIBLE_TAGS), Predict.SanitizeColumn)
  }

  /** No input column name contains a bracket. */
  predicate PlainColumns(columns: seq<string>)
  {
    forall c :: c in columns ==> '[' !in c && ']' !in c
  }

  /** `list.apply(normalize_tags)` on column `c`. */
  function NormalizedColumn(f: Frame, c: string, parse: string -> Option<Value>): (values: seq<Value>)
    ensures |values| == |f.rows|
    ensures forall i :: 0 <= i < |f.rows| ==> values[i] == List(NormalizeTags(Cell(f.rows[i], c), parse))
  {
    seq(|f.rows|, i requires 0 <= i < |f.rows| => List(NormalizeTags(Cell(f.rows[i], c), parse)))
  }

  /** The items of a list cell. */
  function Items(v: Value): seq<string>
  {
    if v.List? then v.items else []
  }

  /** The `all_tags` column: the distinct tags of both normalised lists. */
  function MergedColumn(f: Frame): (values: seq<Value>)
    ensures |values| == |f.rows|
    ensures forall i :: 0 <= i < |f.rows| ==> values[i] == List(Distinct(Items(Cell(f.rows[i], "tags")) + Items(Cell(f.rows[i], "footnote_tags"))))
  {
    seq(|f.rows|, i requires 0 <= i < |f.rows| => List(Distinct(Items(Cell(f.rows[i], "tags")) + Items(Cell(f.rows[i], "footnote_tags")))))
  }

  function AugmentWith(parse: string -> Option<Value>): Row -> Row
  {
    r => Augment(r, parse)
  }

  /** Every name in `tags` is non-empty and starts with none of `t`, `i`, `p`, `a`, `[` and `]`. */
  ghost predicate TagInitialsOk(tags: seq<string>)
  {
    forall i :: 0 <= i < |tags| ==>
      |tags[i]| > 0 && tags[i][0] != 't' && tags[i][0] != 'i' &&
      tags[i][0] != 'p' && tags[i][0] != 'a' && tags[i][0] != '[' && tags[i][0] != ']'
  }

  /** No possible tag starts with the first letter of an identifier or tag column, or with a bracket. */
  lemma TagInitials()
    ensures TagInitialsOk(POSSIBLE_TAGS)
  {
    PeopleTagInitials();
    CompanyTagInitials();
    SignalTagInitials();
    TagInitialsOfGroups(ROLE_TAGS, SIZE_TAGS, CAP_TAGS, SECTOR_TAGS, PRICE_TAGS, BEHAVIOUR_TAGS, MOTIVE_TAGS);
  }

  lemma PeopleTagInitials()
    ensures TagInitialsOk(ROLE_TAGS) && TagInitialsOk(SIZE_TAGS)
  {
  }

  lemma CompanyTagInitials()
    ensures TagInitialsOk(CAP_TAGS) && TagInitialsOk(SECTOR_TAGS)
  {
  }

  lemma SignalTagInitials()
    ensures TagInitialsOk(PRICE_TAGS) && TagInitialsOk(BEHAVIOUR_TAGS) && TagInitialsOk(MOTIVE_TAGS)
  {
  }

  lemma TagInitialsOfGroups(a: seq<string>, b: seq<string>, c: seq<string>, d: seq<string>, e: seq<string>, f: seq<string>, g: seq<string>)
    requires TagInitialsOk(a) && TagInitialsOk(b) && TagInitialsOk(c) && TagInitialsOk(d)
    requires TagInitialsOk(e) && TagInitialsOk(f) && TagInitialsOk(g)
    ensures TagInitialsOk(a + b + c + d + e + f + g)
  {
    TagInitialsConcat(a, b);
    TagInitialsConcat(a + b, c);
    TagInitialsConcat(a + b + c, d);
    TagInitialsConcat(a + b + c + d, e);
    TagInitialsConcat(a + b + c + d + e, f);
    TagInitialsConcat(a + b + c + d + e + f, g);
  }

  lemma TagInitialsConcat(a: seq<string>, b: seq<string>)
    requires TagInitialsOk(a) && TagInitialsOk(b)
    ensures TagInitialsOk(a + b)
  {
    forall i | 0 <= i < |a + b| ensures |(a + b)[i]| > 0 {
      if i >= |a| {
        assert (a + b)[i] == b[i - |a|];
      }
    }
  }

  /** A tag column read through the bracket renaming: a name free of brackets and underscores keeps its values. */
  lemma RenameKeepsPlainName(hot: Frame, i: int, t: string)
    requires t in hot.columns && 0 <= i < |hot.rows|
    requires '_' !in t && '[' !in t && ']' !in t
    ensures t in Rename(hot, Predict.SanitizeColumn).columns
    ensures Cell(Rename(hot, Predict.SanitizeColumn).rows[i], t) == Cell(hot.rows[i], t)
  {
    Predict.SanitizePlain(t);
    var j :| 0 <= j < |hot.columns| && hot.columns[j] == t;
    assert Rename(hot, Predict.SanitizeColumn).columns[j] == t;
    var first := FirstWithKey(hot.columns, Predict.SanitizeColumn, t);
    Predict.SanitizeOnlyFrom(first, t);
  }

  /** The identifier names hold no bracket and start with `t`, `i` or `p`. */
  lemma IdInitials()
    ensures forall c :: c in ID_COLUMNS ==>
      '[' !in c && ']' !in c && |c| > 0 && (c[0] == 't' || c[0] == 'i' || c[0] == 'p')
  {
  }

  /** No tag is sanitised onto an identifier name. */
  lemma TagNotRenamedToIdentifier(tags: seq<string>, tag: string, c: string)
    requires TagInitialsOk(tags) && tag in tags && c in ID_COLUMNS
    ensures Predict.SanitizeColumn(tag) != c
  {
    var k :| 0 <= k < |tags| && tags[k] == tag;
    assert |c| > 0 && (c[0] == 't' || c[0] == 'i' || c[0] == 'p') by {
      IdInitials();
    }
    var renamed := Predict.SanitizeColumn(tag);
    Predict.SanitizeFirstChar(tag);
    assert renamed[0] != c[0];
  }

  /**
   * An identifier column read through the bracket renaming: when no other
   * column can be renamed onto it, it keeps its values.
   */
  lemma RenameKeepsIdentifier(tags: seq<string>, hot: Frame, i: int, c: string)
    requires TagInitialsOk(tags)
    requires c in hot.columns && 0 <= i < |hot.rows| && c in ID_COLUMNS
    requires forall d :: d in hot.columns ==> ('[' !in d && ']' !in d) || d in tags
    ensures c in Rename(hot, Predict.SanitizeColumn).columns
    ensures Cell(Rename(hot, Predict.SanitizeColumn).rows[i], c) == Cell(hot.rows[i], c)
  {
    IdInitials();
    Predict.SanitizePlain(c);
    var j :| 0 <= j < |hot.columns| && hot.columns[j] == c;
    assert Rename(hot, Predict.SanitizeColumn).columns[j] == c;
    var first := FirstWithKey(hot.columns, Predict.SanitizeColumn, c);
    if first in tags {
      TagNotRenamedToIdentifier(tags, first, c);
    } else {
      Predict.SanitizePlain(first);
    }
  }

  /** Overwriting the tag columns does not change whether a row has an outcome. */
  lemma AugmentKeepsOutcome(parse: string -> Option<Value>)
    ensures forall r :: NoOutcome(AugmentWith(parse)(r)) == NoOutcome(r)
  {
  }

  /** One row through the three tag-column assignments. */
  lemma TagColumnsRow(df: Frame, parse: string -> Option<Value>, i: int)
    requires 0 <= i < |df.rows|
    ensures var f1 := SetColumn(df, "tags", NormalizedColumn(df, "tags", parse));
      var f2 := SetColumn(f1, "footnote_tags", NormalizedColumn(f1, "footnote_tags", parse));
      SetColumn(f2, "all_tags", MergedColumn(f2)).rows[i] == AugmentWith(parse)(df.rows[i])
  {
    var r := df.rows[i];
    var f1 := SetColumn(df, "tags", NormalizedColumn(df, "tags", parse));
    SetColumnRow(df, "tags", NormalizedColumn(df, "tags", parse), i);
    var f2 := SetColumn(f1, "footnote_tags", NormalizedColumn(f1, "footnote_tags", parse));
    SetColumnRow(f1, "footnote_tags", NormalizedColumn(f1, "footnote_tags", parse), i);
    assert Cell(f1.rows[i], "footnote_tags") == Cell(r, "footnote_tags");
    SetColumnRow(f2, "all_tags", MergedColumn(f2), i);
    assert Items(Cell(f2.rows[i], "tags")) == NormalizeTags(Cell(r, "tags"), parse);
    assert Items(Cell(f2.rows[i], "footnote_tags")) == NormalizeTags(Cell(r, "footnote_tags"), parse);
  }

  /** The column list after the three tag-column assignments. */
  lemma TagColumnsNames(cols: seq<string>)
    ensures var c1 := if "tags" in cols then cols else cols + ["tags"];
      var c2 := if "footnote_tags" in c1 then c1 else c1 + ["footnote_tags"];
      WithColumns(cols, TAG_COLUMNS) == if "all_tags" in c2 then c2 else c2 + ["all_tags"]
  {
    var c1 := if "tags" in cols then cols else cols + ["tags"];
    var c2 := if "footnote_tags" in c1 then c1 else c1 + ["footnote_tags"];
    assert ["tags"][..0] == [];
    assert WithColumns(cols, ["tags"]) == c1;
    assert ["tags", "footnote_tags"][..1] == ["tags"];
    assert WithColumns(cols, ["tags", "footnote_tags"]) == c2;
    assert TAG_COLUMNS[..2] == ["tags", "footnote_tags"];
  }

  /** The three tag-column assignments turn every row into its augmented form. */
  lemma TagColumnsAugment(df: Frame, parse: string -> Option<Value>)
    ensures var f1 := SetColumn(df, "tags", NormalizedColumn(df, "tags", parse));
      var f2 := SetColumn(f1, "footnote_tags", NormalizedColumn(f1, "footnote_tags", parse));
      var f3 := SetColumn(f2, "all_tags", MergedColumn(f2));
      f3.rows == Map(df.rows, AugmentWith(parse)) && f3.columns == WithColumns(df.columns, TAG_COLUMNS)
  {
    var f1 := SetColumn(df, "tags", NormalizedColumn(df, "tags", parse));
    var f2 := SetColumn(f1, "footnote_tags", NormalizedColumn(f1, "footnote_tags", parse));
    var f3 := SetColumn(f2, "all_tags", MergedColumn(f2));
    forall i | 0 <= i < |df.rows| ensures f3.rows[i] == AugmentWith(parse)(df.rows[i]) {
      TagColumnsRow(df, parse, i);
    }
    TagColumnsNames(df.columns);
  }

  /** The saved frame's tag cells are the one-hot flags of the merged tag list of the kept rows. */
  lemma OutputTagCells(tags: seq<string>, hot: Frame, predictDf: Frame, kept: seq<Row>, parse: string -> Option<Value>)
    requires predictDf.rows == Map(kept, AugmentWith(parse))
    requires |hot.rows| == |predictDf.rows|
    requires forall i, t :: 0 <= i < |hot.rows| && t in tags ==>
      Cell(hot.rows[i], t) == Int(if Member(t, Cell(predictDf.rows[i], "all_tags")) then 1 else 0)
    requires forall t :: t in tags ==> t in hot.columns
    ensures var renamed := Rename(hot, Predict.SanitizeColumn);
      var out := Select(renamed, KeepExisting(tags + ID_COLUMNS, renamed.columns));
      forall i, t :: 0 <= i < |out.rows| && t in tags && '_' !in t && '[' !in t && ']' !in t ==>
        Cell(out.rows[i], t) == Int(if t in AllTags(kept[i], parse) then 1 else 0)
  {
    var renamed := Rename(hot, Predict.SanitizeColumn);
    var out := Select(renamed, KeepExisting(tags + ID_COLUMNS, renamed.columns));
    forall i, t | 0 <= i < |out.rows| && t in tags && '_' !in t && '[' !in t && ']' !in t
      ensures Cell(out.rows[i], t) == Int(if t in AllTags(kept[i], parse) then 1 else 0)
    {
      RenameKeepsPlainName(hot, i, t);
      assert Cell(predictDf.rows[i], "all_tags") == List(AllTags(kept[i], parse));
    }
  }

  /** Without bracketed input names, a bracket in a one-hot frame's column name can only come from a tag. */
  lemma HotColumnsPlainOrTag(tags: seq<string>, cols: seq<string>)
    requires PlainColumns(cols)
    ensures forall d :: d in WithColumns(WithColumns(cols, TAG_COLUMNS), tags) ==> ('[' !in d && ']' !in d) || d in tags
  {
    assert forall d :: d in TAG_COLUMNS ==> '[' !in d && ']' !in d;
  }

  /** An identifier name is not a tag. */
  lemma IdentifierNotATag(tags: seq<string>, c: string)
    requires TagInitialsOk(tags) && c in ID_COLUMNS
    ensures c !in tags && c !in TAG_COLUMNS
  {
    IdInitials();
    if c in tags {
      TagNotRenamedToIdentifier(tags, c, c);
      Predict.SanitizePlain(c);
    }
  }

  /** Without bracketed input names, the saved identifier cells are those of the kept rows. */
  lemma OutputIdentifierCells(tags: seq<string>, df: Frame, hot: Frame, predictDf: Frame, kept: seq<Row>, parse: string -> Option<Value>)
    requires TagInitialsOk(tags)
    requires PlainColumns(df.columns)
    requires predictDf.rows == Map(kept, AugmentWith(parse))
    requires predictDf.columns == WithColumns(df.columns, TAG_COLUMNS)
    requires hot.columns == WithColumns(predictDf.columns, tags)
    requires |hot.rows| == |predictDf.rows|
    requires forall i, d :: 0 <= i < |hot.rows| && d !in tags ==> Cell(hot.rows[i], d) == Cell(predictDf.rows[i], d)
    ensures var renamed := Rename(hot, Predict.SanitizeColumn);
      var out := Select(renamed, KeepExisting(tags + ID_COLUMNS, renamed.columns));
      forall i, c :: 0 <= i < |out.rows| && c in ID_COLUMNS && c in df.columns ==> Cell(out.rows[i], c) == Cell(kept[i], c)
  {
    var renamed := Rename(hot, Predict.SanitizeColumn);
    var out := Select(renamed, KeepExisting(tags + ID_COLUMNS, renamed.columns));
    HotColumnsPlainOrTag(tags, df.columns);
    forall i, c | 0 <= i < |out.rows| && c in ID_COLUMNS && c in df.columns
      ensures Cell(out.rows[i], c) == Cell(kept[i], c)
    {
      IdentifierNotATag(tags, c);
      RenameKeepsIdentifier(tags, hot, i, c);
      assert Cell(hot.rows[i], c) == Cell(predictDf.rows[i], c);
      assert predictDf.rows[i] == AugmentWith(parse)(kept[i]);
      AugmentKeepsCell(kept[i], parse, c);
    }
  }

  /** Overwriting the tag columns leaves every other cell as it was. */
  lemma AugmentKeepsCell(r: Row, parse: string -> Option<Value>, c: string)
    requires c !in TAG_COLUMNS
    ensures Cell(AugmentWith(parse)(r), c) == Cell(r, c)
  {
  }

  /**
   * `prepare_predict_data` up to the saved frame: normalise and merge the
   * tag lists, keep the rows with no outcome, one-hot encode every possible
   * tag from `all_tags`, replace brackets in column names, and keep the tag
   * and identifier columns that exist.
   */
  method PreparePredictData(df: Frame, parse: string -> Option<Value>) returns (out: Frame)
    ensures out.columns == KeepExisting(POSSIBLE_TAGS + ID_COLUMNS, PredictColumns(df.columns))
    ensures |out.rows| == |Filter(df.rows, NoOutcome)|
    ensures forall i, t :: 0 <= i < |out.rows| && t in POSSIBLE_TAGS && '_' !in t && '[' !in t && ']' !in t ==>
      Cell(out.rows[i], t) == Int(if t in AllTags(Filter(df.rows, NoOutcome)[i], parse) then 1 else 0)
    ensures PlainColumns(df.columns) ==> forall i, c :: 0 <= i < |out.rows| && c in ID_COLUMNS && c in df.columns ==>
      Cell(out.rows[i], c) == Cell(Filter(df.rows, NoOutcome)[i], c)
  {
    var f := SetColumn(df, "tags", NormalizedColumn(df, "tags", parse));
    f := SetColumn(f, "footnote_tags", NormalizedColumn(f, "footnote_tags", parse));
    f := SetColumn(f, "all_tags", MergedColumn(f));
    TagColumnsAugment(df, parse);
    var predictDf := Where(f, NoOutcome);
    AugmentKeepsOutcome(parse);
    FilterMap(df.rows, AugmentWith(parse), NoOutcome, NoOutcome);
    ghost var kept := Filter(df.rows, NoOutcome);
    TagInitials();
    AllTagsNotATag(POSSIBLE_TAGS);
    var hot := OneHotTags(predictDf, "all_tags", POSSIBLE_TAGS);
    var renamed := Rename(hot, Predict.SanitizeColumn);
    var cols := KeepExisting(POSSIBLE_TAGS + ID_COLUMNS, renamed.columns);
    out := Select(renamed, cols);
    OutputTagCells(POSSIBLE_TAGS, hot, predictDf, kept, parse);
    if PlainColumns(df.columns) {
      OutputIdentifierCells(POSSIBLE_TAGS, df, hot, predictDf, kept, parse);
    }
  }

  lemma AllTagsNotATag(tags: seq<string>)
    requires TagInitialsOk(tags)
    ensures "all_tags" !in tags
  {
  }

  /** Every saved column name is free of brackets. */
  lemma OutputColumnsHaveNoBrackets(columns: seq<string>)
    ensures forall c :: c in KeepExisting(POSSIBLE_TAGS + ID_COLUMNS, PredictColumns(columns)) ==> '[' !in c && ']' !in c
  {
    var names := PredictColumns(columns);
    forall c | c in names ensures '[' !in c && ']' !in c {
      var j :| 0 <= j < |names| && names[j] == c;
      Predict.SanitizeRemovesBrackets(WithColumns(WithColumns(columns, TAG_COLUMNS), POSSIBLE_TAGS)[j]);
    }
  }

  /** The two bracketed knife tags never reach the saved frame: their renamed columns no longer match the tag list. */
  lemma KnifeTagsDropped(columns: seq<string>)
    ensures KNIFE_7D !in KeepExisting(POSSIBLE_TAGS + ID_COLUMNS, PredictColumns(columns))
    ensures KNIFE_14D !in KeepExisting(POSSIBLE_TAGS + ID_COLUMNS, PredictColumns(columns))
  {
    OutputColumnsHaveNoBrackets(columns);
    assert KNIFE_7D[19] == '[';
    assert KNIFE_14D[19] == '[';
  }

  /** A wanted name that some column keeps through the renaming is saved. */
  lemma KeptWhenRenamedToItself(wanted: seq<string>, hot: seq<string>, c: string)
    requires c in wanted && c in hot && '[' !in c && ']' !in c
    ensures c in KeepExisting(wanted, MapNames(hot, Predict.SanitizeColumn))
  {
    var j :| 0 <= j < |hot| && hot[j] == c;
    Predict.SanitizePlain(c);
    assert MapNames(hot, Predict.SanitizeColumn)[j] == c;
  }

  /** Every tag without brackets is saved, whatever the input columns. */
  lemma PlainTagKept(columns: seq<string>, t: string)
    requires t in POSSIBLE_TAGS && '[' !in t && ']' !in t
    ensures t in KeepExisting(POSSIBLE_TAGS + ID_COLUMNS, PredictColumns(columns))
  {
    KeptWhenRenamedToItself(POSSIBLE_TAGS + ID_COLUMNS, WithColumns(WithColumns(columns, TAG_COLUMNS), POSSIBLE_TAGS), t);
  }

  /** An identifier column is saved when the input has it and no name is bracketed. */
  lemma IdentifierKept(columns: seq<string>, c: string)
    requires PlainColumns(columns) && c in ID_COLUMNS && c in columns
    ensures c in KeepExisting(POSSIBLE_TAGS + ID_COLUMNS, PredictColumns(columns))
  {
    var k :| 0 <= k < |ID_COLUMNS| && ID_COLUMNS[k] == c;
    assert (POSSIBLE_TAGS + ID_COLUMNS)[|POSSIBLE_TAGS| + k] == c;
    KeptWhenRenamedToItself(POSSIBLE_TAGS + ID_COLUMNS, WithColumns(WithColumns(columns, TAG_COLUMNS), POSSIBLE_TAGS), c);
  }

  /** The saved columns are the existing tags in tag-list order, then the existing identifiers. */
  lemma OutputColumnOrder(columns: seq<string>)
    ensures KeepExisting(POSSIBLE_TAGS + ID_COLUMNS, PredictColumns(columns)) ==
      KeepExisting(POSSIBLE_TAGS, PredictColumns(columns)) + KeepExisting(ID_COLUMNS, PredictColumns(columns))
  {
    var names := PredictColumns(columns);
    FilterConcat(POSSIBLE_TAGS, ID_COLUMNS, c => c in names);
  }
}
