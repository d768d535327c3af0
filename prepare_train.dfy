/**
 * Preparation of the two labelled training sets: each trade's outcome is
 * mapped to a binary label (case 1: the three-way C1 outcome, case 2: the
 * simplified outcome with neutral trades left out), the trades with a label
 * are kept, every known tag becomes a 0/1 column, and the set is cut down to
 * the tag columns followed by the label.
 */
module PrepareTrain {
  import opened Wrappers
  import opened Seqs
  import opened Frames
  import opened PreparePredict
  import Backtest
  import Embedding

  /** The master tag list of training: the prediction list without the footnote motives. */
  const TRAIN_TAGS: seq<string> := [
    "👑 CEO", "💼 CFO", "⚙️ COO", "💰 CRO", "📈 CIO", "🧠 CBO", "🪑 Chairman",
    "🎖️ President", "🧍 EVP", "📊 Portfolio Manager", "🔟 10% Owner", "📋 Director",
    "🔥 VERY LARGE TRADE", "💰 LARGE TRADE", "🟢 SMALL TRADE", "❓ UNKNOWN SIZE",
    "🐣 MICRO CAP", "🌱 SMALL CAP", "🌿 MID CAP", "🌳 LARGE CAP", "🏔️ MEGA CAP",
    "📡 Tech", "🏥 Healthcare", "🛍️ Consumer Cyclical", "⚡ Energy",
    "🏗️ Industrial", "🔌 Utilities", "🏘️ Real Estate", "⚙️ Materials",
    "📞 Communication", "🧰 Other",
    "📉 DIP BUY",
    KNIFE_7D, KNIFE_14D,
    "🚀 BUYING INTO STRENGTH",
    "🔁 CLUSTER BUY", "🧠 SMART INSIDER", "🧩 MULTIPLE BUYS", "📅 NEAR EARNINGS"
  ]

  const TARGET_1 := "outcome_case1_binary"
  const TARGET_2 := "outcome_case2_binary"

  /** `mapping_case1`: successful is 1, neutral and unsuccessful are 0, anything else has no label. */
  function Mapping1(v: Value): (binary: Option<int>)
    ensures binary == Some(1) <==> v == Str(Backtest.SUCCESSFUL_C1)
    ensures binary == Some(0) <==> v == Str(Backtest.NEUTRAL_C1) || v == Str(Backtest.UNSUCCESSFUL_C1)
    ensures binary.None? <==> v !in {Str(Backtest.SUCCESSFUL_C1), Str(Backtest.NEUTRAL_C1), Str(Backtest.UNSUCCESSFUL_C1)}
  {
    if v == Str(Backtest.SUCCESSFUL_C1) then Some(1)
    else if v == Str(Backtest.NEUTRAL_C1) then Some(0)
    else if v == Str(Backtest.UNSUCCESSFUL_C1) then Some(0)
    else None
  }

  /** `mapping_case2`: successful is 1, unsuccessful is 0; neutral and anything else have no label. */
  function Mapping2(v: Value): (binary: Option<int>)
    ensures binary == Some(1) <==> v == Str(Backtest.SUCCESSFUL_C2)
    ensures binary == Some(0) <==> v == Str(Backtest.UNSUCCESSFUL_C2)
    ensures binary.None? <==> v != Str(Backtest.SUCCESSFUL_C2) && v != Str(Backtest.UNSUCCESSFUL_C2)
  {
    if v == Str(Backtest.SUCCESSFUL_C2) then Some(1)
    else if v == Str(Backtest.UNSUCCESSFUL_C2) then Some(0)
    else None
  }

  /** A neutral simplified outcome never labels a case-2 row. */
  lemma NeutralNotInCase2()
    ensures Mapping2(Str(Backtest.NEUTRAL_C2)) == None
  {
  }

  /** Every simplified outcome but the neutral one is labelled in case 2. */
  lemma SimplifiedOutcomesLabelled(text: Option<string>)
    requires Backtest.SimplifyCase2Outcome(text).Some?
    ensures var o := Backtest.SimplifyCase2Outcome(text).value;
      Mapping2(Str(o)).Some? <==> o != Backtest.NEUTRAL_C2
  {
  }

  /** Every case-1 outcome tag the backtest extracts has a case-1 label. */
  lemma Case1OutcomesLabelled(tags: seq<string>)
    requires Backtest.OutcomeCase1(tags).Some?
    ensures Mapping1(Str(Backtest.OutcomeCase1(tags).value)).Some?
  {
    Backtest.OutcomeCase1Found(tags);
  }

  /** `series.map(mapping)`: the label, or NaN for an unmapped value. */
  function LabelValue(binary: Option<int>): Value
  {
    if binary.Some? then Int(binary.value) else NA
  }

  /** `ast.literal_eval(x) if isinstance(x, str) else x` on a tags cell; `parse` stands for `ast.literal_eval`. */
  function ParsedTags(v: Value, parse: string -> Value): Value
  {
    if v.Str? then parse(v.s) else v
  }

  /** A row after the tags are parsed and both labels are added. */
  function Labelled(r: Row, parse: string -> Value): Row
  {
    r["tags" := ParsedTags(Cell(r, "tags"), parse)]
     [TARGET_1 := LabelValue(Mapping1(Cell(r, "outcome_case_1")))]
     [TARGET_2 := LabelValue(Mapping2(Cell(r, "outcome_case_2")))]
  }

  function LabelledWith(parse: string -> Value): Row -> Row
  {
    r => Labelled(r, parse)
  }

  predicate HasLabel1(r: Row) { Mapping1(Cell(r, "outcome_case_1")).Some? }
  predicate HasLabel2(r: Row) { Mapping2(Cell(r, "outcome_case_2")).Some? }
  predicate HasTarget1(r: Row) { Cell(r, TARGET_1) != NA }
  predicate HasTarget2(r: Row) { Cell(r, TARGET_2) != NA }

  /** The parsed-tags column. */
  function ParsedColumn(f: Frame, parse: string -> Value): (values: seq<Value>)
    ensures |values| == |f.rows|
    ensures forall i :: 0 <= i < |f.rows| ==> values[i] == ParsedTags(Cell(f.rows[i], "tags"), parse)
  {
    seq(|f.rows|, i requires 0 <= i < |f.rows| => ParsedTags(Cell(f.rows[i], "tags"), parse))
  }

  /** `df["outcome_case_1"].map(mapping_case1)`. */
  function Label1Column(f: Frame): (values: seq<Value>)
    ensures |values| == |f.rows|
    ensures forall i :: 0 <= i < |f.rows| ==> values[i] == LabelValue(Mapping1(Cell(f.rows[i], "outcome_case_1")))
  {
    seq(|f.rows|, i requires 0 <= i < |f.rows| => LabelValue(Mapping1(Cell(f.rows[i], "outcome_case_1"))))
  }

  /** `df["outcome_case_2"].map(mapping_case2)`. */
  function Label2Column(f: Frame): (values: seq<Value>)
    ensures |values| == |f.rows|
    ensures forall i :: 0 <= i < |f.rows| ==> values[i] == LabelValue(Mapping2(Cell(f.rows[i], "outcome_case_2")))
  {
    seq(|f.rows|, i requires 0 <= i < |f.rows| => LabelValue(Mapping2(Cell(f.rows[i], "outcome_case_2"))))
  }

  /** One row through the three column assignments. */
  lemma LabelRow(df: Frame, parse: string -> Value, i: int)
    requires 0 <= i < |df.rows|
    ensures var f1 := SetColumn(df, "tags", ParsedColumn(df, parse));
      var f2 := SetColumn(f1, TARGET_1, Label1Column(f1));
      SetColumn(f2, TARGET_2, Label2Column(f2)).rows[i] == LabelledWith(parse)(df.rows[i])
  {
    var r := df.rows[i];
    var f1 := SetColumn(df, "tags", ParsedColumn(df, parse));
    SetColumnRow(df, "tags", ParsedColumn(df, parse), i);
    var f2 := SetColumn(f1, TARGET_1, Label1Column(f1));
    SetColumnRow(f1, TARGET_1, Label1Column(f1), i);
    assert Cell(f1.rows[i], "outcome_case_1") == Cell(r, "outcome_case_1");
    SetColumnRow(f2, TARGET_2, Label2Column(f2), i);
    assert Cell(f2.rows[i], "outcome_case_2") == Cell(r, "outcome_case_2");
  }

  /** The three column assignments turn every row into its labelled form. */
  lemma LabelRows(df: Frame, parse: string -> Value)
    ensures var f1 := SetColumn(df, "tags", ParsedColumn(df, parse));
      var f2 := SetColumn(f1, TARGET_1, Label1Column(f1));
      var f3 := SetColumn(f2, TARGET_2, Label2Column(f2));
      f3.rows == Map(df.rows, LabelledWith(parse)) && TARGET_1 in f3.columns && TARGET_2 in f3.columns
  {
    var f1 := SetColumn(df, "tags", ParsedColumn(df, parse));
    var f2 := SetColumn(f1, TARGET_1, Label1Column(f1));
    var f3 := SetColumn(f2, TARGET_2, Label2Column(f2));
    forall i | 0 <= i < |df.rows| ensures f3.rows[i] == LabelledWith(parse)(df.rows[i]) {
      LabelRow(df, parse, i);
    }
  }

  /** A labelled row keeps its label, so the mask can be read on the input rows. */
  lemma TargetsMatchLabels(parse: string -> Value)
    ensures forall r :: HasTarget1(LabelledWith(parse)(r)) == HasLabel1(r)
    ensures forall r :: HasTarget2(LabelledWith(parse)(r)) == HasLabel2(r)
  {
  }

  /** Every name in `tags` is non-empty and starts with neither `t` nor `o`. */
  ghost predicate TrainInitialsOk(tags: seq<string>)
  {
    forall i :: 0 <= i < |tags| ==> |tags[i]| > 0 && tags[i][0] != 't' && tags[i][0] != 'o'
  }

  lemma TrainInitials()
    ensures TrainInitialsOk(TRAIN_TAGS)
  {
  }

  lemma NotATrainTag(tags: seq<string>, c: string)
    requires TrainInitialsOk(tags) && |c| > 0 && (c[0] == 't' || c[0] == 'o')
    ensures c !in tags
  {
  }

  /**
   * One training set: the rows passing `mask`, one-hot encoded on their
   * `tags`, cut down to the training tags followed by `target`.
   */
  method TrainingSet(f: Frame, mask: Row -> bool, target: string) returns (ds: Frame)
    requires TrainInitialsOk(TRAIN_TAGS)
    requires target in f.columns && target !in TRAIN_TAGS
    ensures ds.columns == TRAIN_TAGS + [target]
    ensures |ds.rows| == |Filter(f.rows, mask)|
    ensures forall i, t :: 0 <= i < |ds.rows| && t in TRAIN_TAGS ==>
      Cell(ds.rows[i], t) == Int(if Member(t, Cell(Filter(f.rows, mask)[i], "tags")) then 1 else 0)
    ensures forall i :: 0 <= i < |ds.rows| ==> Cell(ds.rows[i], target) == Cell(Filter(f.rows, mask)[i], target)
  {
    var kept := Where(f, mask);
    NotATrainTag(TRAIN_TAGS, "tags");
    var hot := OneHotTags(kept, "tags", TRAIN_TAGS);
    ds := Select(hot, TRAIN_TAGS + [target]);
  }

  /** Reading a labelled row's tags and label back on the input row. */
  lemma LabelledCells(r: Row, parse: string -> Value)
    ensures Cell(LabelledWith(parse)(r), "tags") == ParsedTags(Cell(r, "tags"), parse)
    ensures Cell(LabelledWith(parse)(r), TARGET_1) == LabelValue(Mapping1(Cell(r, "outcome_case_1")))
    ensures Cell(LabelledWith(parse)(r), TARGET_2) == LabelValue(Mapping2(Cell(r, "outcome_case_2")))
  {
  }

  /** The case-1 set read back on the input rows that have a case-1 label. */
  lemma Case1ReadBack(rows: seq<Row>, parse: string -> Value, ds: Frame)
    requires |ds.rows| == |Filter(Map(rows, LabelledWith(parse)), HasTarget1)|
    requires forall i, t :: 0 <= i < |ds.rows| && t in TRAIN_TAGS ==>
      Cell(ds.rows[i], t) == Int(if Member(t, Cell(Filter(Map(rows, LabelledWith(parse)), HasTarget1)[i], "tags")) then 1 else 0)
    requires forall i :: 0 <= i < |ds.rows| ==> Cell(ds.rows[i], TARGET_1) == Cell(Filter(Map(rows, LabelledWith(parse)), HasTarget1)[i], TARGET_1)
    ensures |ds.rows| == |Filter(rows, HasLabel1)|
    ensures forall i, t :: 0 <= i < |ds.rows| && t in TRAIN_TAGS ==>
      Cell(ds.rows[i], t) == Int(if Member(t, ParsedTags(Cell(Filter(rows, HasLabel1)[i], "tags"), parse)) then 1 else 0)
    ensures forall i :: 0 <= i < |ds.rows| ==>
      Cell(ds.rows[i], TARGET_1) == Int(Mapping1(Cell(Filter(rows, HasLabel1)[i], "outcome_case_1")).value)
  {
    TargetsMatchLabels(parse);
    FilterMap(rows, LabelledWith(parse), HasTarget1, HasLabel1);
    var kept := Filter(rows, HasLabel1);
    var labelled := Filter(Map(rows, LabelledWith(parse)), HasTarget1);
    assert labelled == Map(kept, LabelledWith(parse));
    forall i | 0 <= i < |kept|
      ensures Cell(labelled[i], "tags") == ParsedTags(Cell(kept[i], "tags"), parse)
      ensures Cell(labelled[i], TARGET_1) == Int(Mapping1(Cell(kept[i], "outcome_case_1")).value)
    {
      assert HasLabel1(kept[i]);
      LabelledCells(kept[i], parse);
    }
  }

  /** The case-2 set read back on the input rows that have a case-2 label. */
  lemma Case2ReadBack(rows: seq<Row>, parse: string -> Value, ds: Frame)
    requires |ds.rows| == |Filter(Map(rows, LabelledWith(parse)), HasTarget2)|
    requires forall i, t :: 0 <= i < |ds.rows| && t in TRAIN_TAGS ==>
      Cell(ds.rows[i], t) == Int(if Member(t, Cell(Filter(Map(rows, LabelledWith(parse)), HasTarget2)[i], "tags")) then 1 else 0)
    requires forall i :: 0 <= i < |ds.rows| ==> Cell(ds.rows[i], TARGET_2) == Cell(Filter(Map(rows, LabelledWith(parse)), HasTarget2)[i], TARGET_2)
    ensures |ds.rows| == |Filter(rows, HasLabel2)|
    ensures forall i, t :: 0 <= i < |ds.rows| && t in TRAIN_TAGS ==>
      Cell(ds.rows[i], t) == Int(if Member(t, ParsedTags(Cell(Filter(rows, HasLabel2)[i], "tags"), parse)) then 1 else 0)
    ensures forall i :: 0 <= i < |ds.rows| ==>
      Cell(ds.rows[i], TARGET_2) == Int(Mapping2(Cell(Filter(rows, HasLabel2)[i], "outcome_case_2")).value)
  {
    TargetsMatchLabels(parse);
    FilterMap(rows, LabelledWith(parse), HasTarget2, HasLabel2);
    var kept := Filter(rows, HasLabel2);
    var labelled := Filter(Map(rows, LabelledWith(parse)), HasTarget2);
    assert labelled == Map(kept, LabelledWith(parse));
    forall i | 0 <= i < |kept|
      ensures Cell(labelled[i], "tags") == ParsedTags(Cell(kept[i], "tags"), parse)
      ensures Cell(labelled[i], TARGET_2) == Int(Mapping2(Cell(kept[i], "outcome_case_2")).value)
    {
      assert HasLabel2(kept[i]);
      LabelledCells(kept[i], parse);
    }
  }

  /**
   * `prepare_training_data` up to the two saved frames: parse the tags,
   * label both outcomes, and build the case-1 and case-2 training sets from
   * the rows that have the respective label.
   */
  method PrepareTrainingData(df: Frame, parse: string -> Value) returns (case1: Frame, case2: Frame)
    ensures case1.columns == TRAIN_TAGS + [TARGET_1]
    ensures case2.columns == TRAIN_TAGS + [TARGET_2]
    ensures |case1.rows| == |Filter(df.rows, HasLabel1)|
    ensures |case2.rows| == |Filter(df.rows, HasLabel2)|
    ensures forall i, t :: 0 <= i < |case1.rows| && t in TRAIN_TAGS ==>
      Cell(case1.rows[i], t) == Int(if Member(t, ParsedTags(Cell(Filter(df.rows, HasLabel1)[i], "tags"), parse)) then 1 else 0)
    ensures forall i, t :: 0 <= i < |case2.rows| && t in TRAIN_TAGS ==>
      Cell(case2.rows[i], t) == Int(if Member(t, ParsedTags(Cell(Filter(df.rows, HasLabel2)[i], "tags"), parse)) then 1 else 0)
    ensures forall i :: 0 <= i < |case1.rows| ==>
      Cell(case1.rows[i], TARGET_1) == Int(Mapping1(Cell(Filter(df.rows, HasLabel1)[i], "outcome_case_1")).value)
    ensures forall i :: 0 <= i < |case2.rows| ==>
      Cell(case2.rows[i], TARGET_2) == Int(Mapping2(Cell(Filter(df.rows, HasLabel2)[i], "outcome_case_2")).value)
  {
    var f := SetColumn(df, "tags", ParsedColumn(df, parse));
    f := SetColumn(f, TARGET_1, Label1Column(f));
    f := SetColumn(f, TARGET_2, Label2Column(f));
    LabelRows(df, parse);
    TrainInitials();
    NotATrainTag(TRAIN_TAGS, TARGET_1);
    NotATrainTag(TRAIN_TAGS, TARGET_2);
    case1 := TrainingSet(f, HasTarget1, TARGET_1);
    Case1ReadBack(df.rows, parse, case1);
    case2 := TrainingSet(f, HasTarget2, TARGET_2);
    Case2ReadBack(df.rows, parse, case2);
  }

  /** The prediction tag list is the training list followed by the four footnote motives. */
  lemma PredictTagsExtendTrainTags()
    ensures POSSIBLE_TAGS == TRAIN_TAGS + [Embedding.AUTOMATIC, Embedding.COMPENSATION, Embedding.OWNERSHIP, Embedding.CONVICTION]
  {
  }
}
