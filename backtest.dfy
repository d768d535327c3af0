/**
 * The conviction scorer and the backtest: the weight table and the score of a
 * tag list, the bucket of a score, the selection of trades that carry an
 * outcome tag, the two outcome axes, and the bucket x outcome counts behind
 * the backtest tables.
 */
module Backtest {
  import opened Wrappers
  import opened Text
  import opened Seqs

  const SUCCESSFUL_C1 := "🟢 SUCCESSFUL TRADE C1"
  const NEUTRAL_C1 := "⚪ NEUTRAL TRADE C1"
  const UNSUCCESSFUL_C1 := "🔴 UNSUCCESSFUL TRADE C1"

  /** The outcome tags of the first axis, as they appear in a trade's tag list. */
  const OUTCOME_TAGS: set<string> := {SUCCESSFUL_C1, NEUTRAL_C1, UNSUCCESSFUL_C1}

  /** The vocabulary of the second axis. */
  const SUCCESSFUL_C2 := "🟢 SUCCESSFUL TRADE"
  const NEUTRAL_C2 := "⚪ NEUTRAL TRADE"
  const UNSUCCESSFUL_C2 := "🔴 UNSUCCESSFUL TRADE"

  /** The weight of each scored tag; every other tag weighs nothing. */
  const TAG_WEIGHTS: map<string, nat> := map[
    "👑 CEO" := 3,
    "💼 CFO" := 3,
    "🪑 Chairman" := 3,
    "🔟 10% Owner" := 2,
    "🎖️ President" := 2,
    "📋 Director" := 1,
    "🧍 EVP" := 1,
    "🔥 VERY LARGE TRADE" := 3,
    "💰 LARGE TRADE" := 2,
    "🟢 SMALL TRADE" := 1,
    "🐣 MICRO CAP" := 3,
    "🌱 SMALL CAP" := 2,
    "🌿 MID CAP" := 1,
    "🧨 CAUGHT THE KNIFE [7d]" := 3,
    "🧨 CAUGHT THE KNIFE [14d]" := 3,
    "📉 DIP BUY" := 2,
    "📉 BELOW CLOSE" := 1,
    "🚀 BUYING INTO STRENGTH" := 1,
    "⚡️ SMA SUPPORT RECLAIMED" := 2,
    "📉 DIP SETUP" := 2,
    "🔻 OVERSOLD (RSI < 30)" := 2,
    "📈 ABOVE SMA20" := 1,
    "💪 STRONG TREND" := 1,
    "🔁 CLUSTER BUY" := 3,
    "🧠 SMART INSIDER" := 4,
    "🧩 MULTIPLE BUYS" := 2
  ]

  /** The largest weight in the table. */
  const MAX_WEIGHT := 4

  /** `TAG_WEIGHTS.get(tag, 0)`. */
  function Weight(tag: string): (w: nat)
    ensures w <= MAX_WEIGHT
    ensures tag !in TAG_WEIGHTS ==> w == 0
  {
    if tag in TAG_WEIGHTS then TAG_WEIGHTS[tag] else 0
  }

  /** `score_trade`: the sum of the weights of the tags, a repeated tag counting each time. */
  function ScoreTrade(tags: seq<string>): (score: nat)
    ensures score <= MAX_WEIGHT * |tags|
    ensures (forall i :: 0 <= i < |tags| ==> tags[i] !in TAG_WEIGHTS) ==> score == 0
  {
    if tags == [] then 0 else Weight(tags[0]) + ScoreTrade(tags[1..])
  }

  /** The score of a concatenation is the sum of the scores. */
  lemma {:induction false} ScoreConcat(a: seq<string>, b: seq<string>)
    ensures ScoreTrade(a + b) == ScoreTrade(a) + ScoreTrade(b)
  {
    if a == [] {
      assert a + b == b;
    } else {
      assert (a + b)[0] == a[0];
      assert (a + b)[1..] == a[1..] + b;
      ScoreConcat(a[1..], b);
    }
  }

  /** Appending a tag that is already present adds its weight once more. */
  lemma DuplicateCountsTwice(tags: seq<string>, t: string)
    requires t in tags
    ensures ScoreTrade(tags + [t]) == ScoreTrade(tags) + Weight(t)
  {
    ScoreConcat(tags, [t]);
  }

  /** Taking one tag out of the list removes exactly its weight. */
  lemma ScoreRemove(tags: seq<string>, i: int)
    requires 0 <= i < |tags|
    ensures ScoreTrade(tags) == Weight(tags[i]) + ScoreTrade(tags[..i] + tags[i + 1..])
  {
    assert tags == tags[..i] + ([tags[i]] + tags[i + 1..]);
    ScoreConcat(tags[..i], [tags[i]] + tags[i + 1..]);
    ScoreConcat([tags[i]], tags[i + 1..]);
    ScoreConcat(tags[..i], tags[i + 1..]);
  }

  /** The score does not depend on the order of the tags. */
  lemma {:induction false} ScorePermutation(a: seq<string>, b: seq<string>)
    requires multiset(a) == multiset(b)
    ensures ScoreTrade(a) == ScoreTrade(b)
    decreases |a|
  {
    if a != [] {
      var i := PermutationRemoveHead(a, b);
      ScorePermutation(a[1..], b[..i] + b[i + 1..]);
      ScoreRemove(b, i);
    } else {
      assert |b| == |multiset(b)| == 0;
    }
  }

  /** A bucket: a closed range of scores, open above when `high` is `None` (`float("inf")`). */
  datatype Bucket = Bucket(name: string, low: int, high: Option<int>)

  predicate InBucket(score: int, b: Bucket)
  {
    b.low <= score && (b.high.None? || score <= b.high.value)
  }

  const LOW := "Low Conviction (0 - 4)"
  const MEDIUM := "Medium (5 - 8)"
  const HIGH := "High (9 - 12)"
  const ULTRA := "Ultra Conviction (13+)"
  const UNCATEGORIZED := "Uncategorized"

  /** `BUCKETS`, in the order the dictionary is scanned. */
  const BUCKETS: seq<Bucket> := [
    Bucket(LOW, 0, Some(4)),
    Bucket(MEDIUM, 5, Some(8)),
    Bucket(HIGH, 9, Some(12)),
    Bucket(ULTRA, 13, None)
  ]

  /** The name of the first bucket whose range holds the score, else "Uncategorized". */
  function FirstBucket(buckets: seq<Bucket>, score: int): (name: string)
    ensures name == UNCATEGORIZED || exists k | 0 <= k < |buckets| :: name == buckets[k].name && InBucket(score, buckets[k])
    ensures (forall k | 0 <= k < |buckets| :: !InBucket(score, buckets[k])) ==> name == UNCATEGORIZED
  {
    if buckets == [] then UNCATEGORIZED
    else if InBucket(score, buckets[0]) then buckets[0].name
    else
      var name := FirstBucket(buckets[1..], score);
      assert forall k | 1 <= k < |buckets| :: buckets[1..][k - 1] == buckets[k];
      name
  }

  /** The first bucket that holds the score is the one chosen. */
  lemma {:induction false} FirstBucketPicksFirst(buckets: seq<Bucket>, score: int, k: int)
    requires 0 <= k < |buckets| && InBucket(score, buckets[k])
    requires forall j | 0 <= j < k :: !InBucket(score, buckets[j])
    ensures FirstBucket(buckets, score) == buckets[k].name
  {
    if k > 0 {
      assert forall j | 0 <= j < k - 1 :: buckets[1..][j] == buckets[j + 1];
      FirstBucketPicksFirst(buckets[1..], score, k - 1);
    }
  }

  /** The ranges follow each other without gap, the last one open above. */
  predicate Contiguous(buckets: seq<Bucket>)
  {
    |buckets| > 0 && buckets[|buckets| - 1].high.None? &&
    forall k | 0 <= k < |buckets| - 1 :: buckets[k].high.Some? && buckets[k + 1].low == buckets[k].high.value + 1
  }

  /** With contiguous ranges, every score from the first lower bound up lands in a named bucket. */
  lemma {:induction false} ContiguousCovers(buckets: seq<Bucket>, score: int)
    requires Contiguous(buckets) && buckets[0].low <= score
    ensures FirstBucket(buckets, score) != UNCATEGORIZED || exists k | 0 <= k < |buckets| :: buckets[k].name == UNCATEGORIZED
    decreases |buckets|
  {
    if !InBucket(score, buckets[0]) {
      assert |buckets| > 1;
      var rest := buckets[1..];
      assert rest[0].low == buckets[0].high.value + 1;
      assert Contiguous(rest) by {
        forall k | 0 <= k < |rest| - 1 ensures rest[k].high.Some? && rest[k + 1].low == rest[k].high.value + 1 {
          assert rest[k] == buckets[k + 1] && rest[k + 1] == buckets[k + 2];
        }
      }
      ContiguousCovers(rest, score);
      if exists k | 0 <= k < |rest| :: rest[k].name == UNCATEGORIZED {
        var k :| 0 <= k < |rest| && rest[k].name == UNCATEGORIZED;
        assert buckets[k + 1].name == UNCATEGORIZED;
      }
    }
  }

  /** `assign_bucket`: a non-negative score always gets one of the four named buckets. */
  function AssignBucket(score: int): (name: string)
    ensures 0 <= score <= 4 <==> name == LOW
    ensures 5 <= score <= 8 <==> name == MEDIUM
    ensures 9 <= score <= 12 <==> name == HIGH
    ensures 13 <= score <==> name == ULTRA
    ensures score < 0 <==> name == UNCATEGORIZED
  {
    BucketTableReading(score);
    FirstBucket(BUCKETS, score)
  }

  /** The first-match scan over `BUCKETS`, read out range by range. */
  lemma BucketTableReading(score: int)
    ensures FirstBucket(BUCKETS, score) ==
      if score < 0 then UNCATEGORIZED
      else if score <= 4 then LOW
      else if score <= 8 then MEDIUM
      else if score <= 12 then HIGH
      else ULTRA
  {
    if 0 <= score <= 4 {
      FirstBucketPicksFirst(BUCKETS, score, 0);
    } else if 5 <= score <= 8 {
      FirstBucketPicksFirst(BUCKETS, score, 1);
    } else if 9 <= score <= 12 {
      FirstBucketPicksFirst(BUCKETS, score, 2);
    } else if 13 <= score {
      FirstBucketPicksFirst(BUCKETS, score, 3);
    }
  }

  /** The bucket table has no gap, so a computed score is never "Uncategorized". */
  lemma ScoreNeverUncategorized(tags: seq<string>)
    ensures AssignBucket(ScoreTrade(tags)) != UNCATEGORIZED
  {
    assert Contiguous(BUCKETS);
    ContiguousCovers(BUCKETS, ScoreTrade(tags));
  }

  /** A tag, stripped, is one of the first-axis outcome tags. */
  predicate IsOutcomeTag(tag: string)
  {
    Strip(tag) in OUTCOME_TAGS
  }

  /** Some tag of the list is an outcome tag. */
  predicate HasOutcomeTag(tags: seq<string>)
  {
    HasKey(tags, IsOutcomeTag, true)
  }

  /** A trade row as the backtest reads it: its parsed tag list and its free-text second-axis outcome. */
  datatype TradeRow = TradeRow(tags: seq<string>, case2Outcome: Option<string>)

  /** `filter_outcome_trades`: the rows with at least one outcome tag, in their order. */
  function FilterOutcomeTrades(rows: seq<TradeRow>): (kept: seq<TradeRow>)
    ensures |kept| <= |rows|
    ensures forall i :: 0 <= i < |kept| ==> HasOutcomeTag(kept[i].tags)
    ensures forall r :: r in kept <==> r in rows && HasOutcomeTag(r.tags)
  {
    Filter(rows, (r: TradeRow) => HasOutcomeTag(r.tags))
  }

  /** Filtering two batches one after the other is filtering them together: the kept rows keep their order. */
  lemma FilterOutcomeTradesConcat(a: seq<TradeRow>, b: seq<TradeRow>)
    ensures FilterOutcomeTrades(a + b) == FilterOutcomeTrades(a) + FilterOutcomeTrades(b)
  {
    FilterConcat(a, b, (r: TradeRow) => HasOutcomeTag(r.tags));
  }

  /** `get_outcome_case_1`: the first outcome tag of the list, stripped. */
  function OutcomeCase1(tags: seq<string>): Option<string>
  {
    if tags == [] then None
    else if IsOutcomeTag(tags[0]) then Some(Strip(tags[0]))
    else OutcomeCase1(tags[1..])
  }

  /** There is an outcome exactly when some tag is an outcome tag, and it is one of the three outcomes. */
  lemma {:induction false} OutcomeCase1Found(tags: seq<string>)
    ensures OutcomeCase1(tags).Some? <==> HasOutcomeTag(tags)
    ensures OutcomeCase1(tags).Some? ==> OutcomeCase1(tags).value in OUTCOME_TAGS
  {
    if tags != [] {
      assert tags == [tags[0]] + tags[1..];
      HasKeyPrepend(tags[0], tags[1..], IsOutcomeTag, true);
      if !IsOutcomeTag(tags[0]) {
        OutcomeCase1Found(tags[1..]);
      }
    }
  }

  /** A leading tag that is not an outcome tag is passed over. */
  lemma OutcomeCase1Skip(tags: seq<string>)
    requires tags != [] && !IsOutcomeTag(tags[0])
    ensures OutcomeCase1(tags) == OutcomeCase1(tags[1..])
  {
  }

  /** The outcome read is that of the first outcome tag in list order. */
  lemma {:induction false} OutcomeCase1IsFirst(tags: seq<string>, i: int)
    requires 0 <= i < |tags| && IsOutcomeTag(tags[i])
    requires forall j | 0 <= j < i :: !IsOutcomeTag(tags[j])
    ensures OutcomeCase1(tags) == Some(Strip(tags[i]))
  {
    var rest := tags[1..];
    if i > 0 {
      OutcomeCase1Skip(tags);
      assert rest[i - 1] == tags[i];
      forall j | 0 <= j < i - 1 ensures !IsOutcomeTag(rest[j]) {
        assert rest[j] == tags[j + 1];
      }
      OutcomeCase1IsFirst(rest, i - 1);
    }
  }

  /** `simplify_case_2_outcome`: the second axis, by substring, "SUCCESSFUL" checked first. */
  function SimplifyCase2Outcome(text: Option<string>): (outcome: Option<string>)
    ensures text.None? ==> outcome.None?
    ensures outcome.Some? ==> outcome.value in {SUCCESSFUL_C2, NEUTRAL_C2, UNSUCCESSFUL_C2}
    ensures outcome == Some(SUCCESSFUL_C2) <==> text.Some? && Contains(text.value, "SUCCESSFUL")
    ensures outcome == Some(NEUTRAL_C2) <==> text.Some? && !Contains(text.value, "SUCCESSFUL") && Contains(text.value, "NEUTRAL")
    ensures outcome == Some(UNSUCCESSFUL_C2) <==>
      text.Some? && !Contains(text.value, "SUCCESSFUL") && !Contains(text.value, "NEUTRAL") && Contains(text.value, "BAD")
    ensures outcome.None? <==>
      text.None? || (!Contains(text.value, "SUCCESSFUL") && !Contains(text.value, "NEUTRAL") && !Contains(text.value, "BAD"))
  {
    match text
    case None => None
    case Some(t) =>
      if Contains(t, "SUCCESSFUL") then Some(SUCCESSFUL_C2)
      else if Contains(t, "NEUTRAL") then Some(NEUTRAL_C2)
      else if Contains(t, "BAD") then Some(UNSUCCESSFUL_C2)
      else None
  }

  /** "UNSUCCESSFUL" contains "SUCCESSFUL", so a text saying unsuccessful is read as a success. */
  lemma UnsuccessfulReadsAsSuccess(t: string)
    requires Contains(t, "UNSUCCESSFUL")
    ensures SimplifyCase2Outcome(Some(t)) == Some(SUCCESSFUL_C2)
  {
    assert OccursAt("UNSUCCESSFUL", "SUCCESSFUL", 2);
    ContainsAt("UNSUCCESSFUL", "SUCCESSFUL", 2);
    ContainsTransitive(t, "UNSUCCESSFUL", "SUCCESSFUL");
  }

  /** A filtered trade after scoring, bucketing and the two outcome mappings. */
  datatype ScoredTrade = ScoredTrade(row: TradeRow, score: nat, bucket: string, outcome1: Option<string>, outcome2: Option<string>)

  function Score(row: TradeRow): ScoredTrade
  {
    ScoredTrade(row, ScoreTrade(row.tags), AssignBucket(ScoreTrade(row.tags)), OutcomeCase1(row.tags), SimplifyCase2Outcome(row.case2Outcome))
  }

  /** The scored table of `run_backtest_pipeline`: every kept row scored, bucketed and given both outcomes. */
  function ScoreTrades(rows: seq<TradeRow>): (scored: seq<ScoredTrade>)
    ensures |scored| == |FilterOutcomeTrades(rows)|
    ensures forall i :: 0 <= i < |scored| ==> scored[i].row == FilterOutcomeTrades(rows)[i]
    ensures forall i :: 0 <= i < |scored| ==> scored[i].outcome1.Some? && scored[i].outcome1.value in OUTCOME_TAGS
    ensures forall i :: 0 <= i < |scored| ==> scored[i].bucket in {LOW, MEDIUM, HIGH, ULTRA}
    ensures forall i :: 0 <= i < |scored| ==>
      scored[i].score == ScoreTrade(scored[i].row.tags) && scored[i].bucket == AssignBucket(scored[i].score) &&
      scored[i].outcome1 == OutcomeCase1(scored[i].row.tags) && scored[i].outcome2 == SimplifyCase2Outcome(scored[i].row.case2Outcome)
  {
    var kept := FilterOutcomeTrades(rows);
    KeptTradesHaveOutcome(kept);
    seq(|kept|, i requires 0 <= i < |kept| => Score(kept[i]))
  }

  /** Scoring works row by row: two batches scored apart give the scored concatenation. */
  lemma ScoreTradesConcat(a: seq<TradeRow>, b: seq<TradeRow>)
    ensures ScoreTrades(a + b) == ScoreTrades(a) + ScoreTrades(b)
  {
    FilterOutcomeTradesConcat(a, b);
    var fa, fb := FilterOutcomeTrades(a), FilterOutcomeTrades(b);
    var sa, sb, l := ScoreTrades(a), ScoreTrades(b), ScoreTrades(a + b);
    var r := sa + sb;
    assert |l| == |r|;
    forall i | 0 <= i < |l| ensures l[i] == r[i] {
      assert l[i].row == (fa + fb)[i];
      if i < |sa| {
        assert r[i] == sa[i] && sa[i].row == fa[i] == (fa + fb)[i];
      } else {
        assert r[i] == sb[i - |sa|] && sb[i - |sa|].row == fb[i - |fa|] == (fa + fb)[i];
      }
    }
  }

  /** Every row that has an outcome tag reads an outcome on the first axis. */
  lemma KeptTradesHaveOutcome(kept: seq<TradeRow>)
    requires forall i :: 0 <= i < |kept| ==> HasOutcomeTag(kept[i].tags)
    ensures forall i :: 0 <= i < |kept| ==> OutcomeCase1(kept[i].tags).Some? && OutcomeCase1(kept[i].tags).value in OUTCOME_TAGS
  {
    forall i | 0 <= i < |kept| ensures OutcomeCase1(kept[i].tags).Some? && OutcomeCase1(kept[i].tags).value in OUTCOME_TAGS {
      OutcomeCase1Found(kept[i].tags);
    }
  }

  /** The two outcome axes of the backtest. */
  datatype Axis = Case1 | Case2

  function OutcomeOn(t: ScoredTrade, axis: Axis): Option<string>
  {
    if axis == Case1 then t.outcome1 else t.outcome2
  }

  /** The number of rows of a bucket whose outcome on the axis is `outcome`. */
  function CountOutcome(rows: seq<ScoredTrade>, axis: Axis, bucket: string, outcome: string): (n: nat)
    ensures n <= |rows|
  {
    if rows == [] then 0
    else (if rows[0].bucket == bucket && OutcomeOn(rows[0], axis) == Some(outcome) then 1 else 0) + CountOutcome(rows[1..], axis, bucket, outcome)
  }

  /** The number of rows of a bucket that have an outcome on the axis (`df[df[col].notna()]`). */
  function CountLabelled(rows: seq<ScoredTrade>, axis: Axis, bucket: string): (n: nat)
    ensures n <= |rows|
  {
    if rows == [] then 0
    else (if rows[0].bucket == bucket && OutcomeOn(rows[0], axis).Some? then 1 else 0) + CountLabelled(rows[1..], axis, bucket)
  }

  /** The outcomes an axis can take. */
  function AxisOutcomes(axis: Axis): set<string>
  {
    if axis == Case1 then OUTCOME_TAGS else {SUCCESSFUL_C2, NEUTRAL_C2, UNSUCCESSFUL_C2}
  }

  predicate OutcomesWithin(rows: seq<ScoredTrade>, axis: Axis)
  {
    forall i | 0 <= i < |rows| :: OutcomeOn(rows[i], axis).Some? ==> OutcomeOn(rows[i], axis).value in AxisOutcomes(axis)
  }

  /** Every scored row's outcomes lie in its axis's vocabulary. */
  lemma ScoredOutcomesWithin(rows: seq<TradeRow>, axis: Axis)
    ensures OutcomesWithin(ScoreTrades(rows), axis)
  {
  }

  function Outcomes3(axis: Axis): (r: (string, string, string))
    ensures {r.0, r.1, r.2} == AxisOutcomes(axis) && r.0 != r.1 && r.0 != r.2 && r.1 != r.2
  {
    if axis == Case1 then (SUCCESSFUL_C1, NEUTRAL_C1, UNSUCCESSFUL_C1) else (SUCCESSFUL_C2, NEUTRAL_C2, UNSUCCESSFUL_C2)
  }

  /** Within a bucket, the three outcome counts add up to the labelled rows. */
  lemma {:induction false} CountsPartition(rows: seq<ScoredTrade>, axis: Axis, bucket: string)
    requires OutcomesWithin(rows, axis)
    ensures var o := Outcomes3(axis);
      CountOutcome(rows, axis, bucket, o.0) + CountOutcome(rows, axis, bucket, o.1) + CountOutcome(rows, axis, bucket, o.2)
        == CountLabelled(rows, axis, bucket)
  {
    if rows != [] {
      assert OutcomesWithin(rows[1..], axis) by {
        forall i | 0 <= i < |rows[1..]| ensures OutcomeOn(rows[1..][i], axis).Some? ==> OutcomeOn(rows[1..][i], axis).value in AxisOutcomes(axis) {
          assert rows[1..][i] == rows[i + 1];
        }
      }
      CountsPartition(rows[1..], axis, bucket);
    }
  }

  /**
   * One cell of the backtest table (`value_counts(normalize=True)`): the share of
   * a bucket's labelled rows that have the outcome; `None` when the bucket has
   * no labelled row and so no line in the table.
   */
  function OutcomeShare(rows: seq<ScoredTrade>, axis: Axis, bucket: string, outcome: string): (share: Option<real>)
    ensures share.Some? <==> CountLabelled(rows, axis, bucket) > 0
    ensures share.Some? ==> 0.0 <= share.value
  {
    var n := CountLabelled(rows, axis, bucket);
    if n == 0 then None else Some(CountOutcome(rows, axis, bucket, outcome) as real / n as real)
  }

  /** Each line of the backtest table sums to 1. */
  lemma SharesSumToOne(rows: seq<ScoredTrade>, axis: Axis, bucket: string)
    requires OutcomesWithin(rows, axis) && CountLabelled(rows, axis, bucket) > 0
    ensures var o := Outcomes3(axis);
      OutcomeShare(rows, axis, bucket, o.0).value + OutcomeShare(rows, axis, bucket, o.1).value + OutcomeShare(rows, axis, bucket, o.2).value == 1.0
  {
    var o := Outcomes3(axis);
    CountsPartition(rows, axis, bucket);
    var n := CountLabelled(rows, axis, bucket);
    var a, b, c := CountOutcome(rows, axis, bucket, o.0), CountOutcome(rows, axis, bucket, o.1), CountOutcome(rows, axis, bucket, o.2);
    assert OutcomeShare(rows, axis, bucket, o.0).value == a as real / n as real;
    assert OutcomeShare(rows, axis, bucket, o.1).value == b as real / n as real;
    assert OutcomeShare(rows, axis, bucket, o.2).value == c as real / n as real;
    DivideSum(a as real, b as real, c as real, n as real);
  }

  lemma DivideSum(a: real, b: real, c: real, n: real)
    requires n > 0.0 && a + b + c == n
    ensures a / n + b / n + c / n == 1.0
  {
    assert a / n + b / n + c / n == (a + b + c) / n;
  }
}
