/**
 * The per-ticker OHLC cache: one CSV of daily bars per upper-cased ticker.
 * Loading sorts the bars by date and, for a file written before the
 * `price_prev` column existed, derives that column from the previous bar's
 * close and writes the file back.  Saving keeps the first bar of each date
 * and writes the bars in ascending date order.
 */
module CacheManager {
  import opened Wrappers
  import opened Text
  import opened Seqs
  import opened Market

  /** One cached file: its bars in file order, and whether it has a `price_prev` column. */
  datatype Series = Series(bars: seq<Bar>, hasPrev: bool)

  /** What loading a ticker with no file gives: no bars, with the full schema (so `price_prev` too). */
  const EMPTY: Series := Series([], true)

  function DayOf(b: Bar): int { b.day }

  /** Sorting on the negated day puts earlier days first. */
  function AscendingRank(b: Bar): Option<int> { Some(-b.day) }

  ghost predicate Ascending(bars: seq<Bar>)
  {
    forall i, j :: 0 <= i < j < |bars| ==> bars[i].day <= bars[j].day
  }

  /** Ascending with no two bars on the same day. */
  ghost predicate StrictlyAscending(bars: seq<Bar>)
  {
    forall i, j :: 0 <= i < j < |bars| ==> bars[i].day < bars[j].day
  }

  /** `sort_values("date")`: ascending by day, a permutation of the input. */
  function SortAscending(bars: seq<Bar>): (r: seq<Bar>)
    ensures Ascending(r)
    ensures multiset(r) == multiset(bars)
    ensures |r| == |bars|
  {
    var r := SortByRank(bars, AscendingRank);
    assert forall i, j :: 0 <= i < j < |r| ==> RankGeq(AscendingRank(r[i]), AscendingRank(r[j]));
    r
  }

  /** A series already in strictly ascending order (one bar per day) is left as it is by the sort. */
  lemma SortAscendingSorted(bars: seq<Bar>)
    requires StrictlyAscending(bars)
    ensures SortAscending(bars) == bars
  {
    assert SortedByRank(bars, AscendingRank) by {
      forall i, j | 0 <= i < j < |bars| ensures RankGeq(AscendingRank(bars[i]), AscendingRank(bars[j])) {
        assert bars[i].day <= bars[j].day;
      }
    }
    assert forall i, j :: 0 <= i < j < |bars| ==> AscendingRank(bars[i]) != AscendingRank(bars[j]);
    SortSorted(bars, AscendingRank);
  }

  /**
   * `df["price_prev"] = df["close"].shift(1)`: every bar keeps its own
   * fields, the first bar gets no previous close and each later bar gets
   * the close of the bar before it.
   */
  function WithPrev(bars: seq<Bar>): (r: seq<Bar>)
    ensures |r| == |bars|
    ensures forall i :: 0 <= i < |r| ==> r[i].(prev := bars[i].prev) == bars[i]
    ensures |r| > 0 ==> r[0].prev == NaN
    ensures forall i :: 0 < i < |r| ==> r[i].prev == Fin(r[i - 1].close)
  {
    seq(|bars|, i requires 0 <= i < |bars| => bars[i].(prev := if i == 0 then NaN else Fin(bars[i - 1].close)))
  }

  /**
   * The bars `save_ohlc_cache` writes: the first bar of each day (in the
   * given order), sorted ascending, so no day appears twice.
   */
  function SaveForm(bars: seq<Bar>): (r: seq<Bar>)
    ensures StrictlyAscending(r)
    ensures forall d :: HasKey(r, DayOf, d) <==> HasKey(bars, DayOf, d)
    ensures forall i :: 0 <= i < |r| ==> HasKey(bars, DayOf, r[i].day) && r[i] == FirstWithKey(bars, DayOf, r[i].day)
  {
    var unique := DedupeFirst(bars, DayOf);
    var r := SortAscending(unique);
    PermutationKeysDistinct(unique, r, DayOf);
    PermutationHasKey(unique, r, DayOf);
    DistinctAscending(r);
    r
  }

  /** The bar saved for a day is the first bar of that day in what was given to save. */
  lemma SaveFormFirst(bars: seq<Bar>, day: int)
    requires HasKey(bars, DayOf, day)
    ensures HasKey(SaveForm(bars), DayOf, day) && FirstWithKey(SaveForm(bars), DayOf, day) == FirstWithKey(bars, DayOf, day)
  {
    var r := SaveForm(bars);
    var x := FirstWithKey(r, DayOf, day);
    var i :| 0 <= i < |r| && r[i] == x;
  }

  /** Ascending with distinct days is strictly ascending. */
  lemma DistinctAscending(bars: seq<Bar>)
    requires Ascending(bars) && KeysDistinct(bars, DayOf)
    ensures StrictlyAscending(bars)
  {
    forall i, j | 0 <= i < j < |bars| ensures bars[i].day < bars[j].day {
      assert DayOf(bars[i]) != DayOf(bars[j]);
    }
  }

  /** Saving what was saved writes the same bars again. */
  lemma SaveFormIdempotent(bars: seq<Bar>)
    ensures SaveForm(SaveForm(bars)) == SaveForm(bars)
  {
    var r := SaveForm(bars);
    assert KeysDistinct(r, DayOf);
    DedupeFirstDistinct(r, DayOf);
    SortAscendingSorted(r);
  }

  /** What `load_ohlc_cache` returns for a ticker, given the files as they stand. */
  function Loaded(files: map<string, Series>, ticker: string): Series
  {
    var key := Upper(ticker);
    if key !in files then EMPTY
    else if files[key].bars == [] then files[key]
    else if files[key].hasPrev then Series(SortAscending(files[key].bars), true)
    else Series(WithPrev(SortAscending(files[key].bars)), true)
  }

  /** The files after `load_ohlc_cache`: only a non-empty file without `price_prev` is written back. */
  function AfterLoad(files: map<string, Series>, ticker: string): map<string, Series>
  {
    var key := Upper(ticker);
    if key in files && files[key].bars != [] && !files[key].hasPrev then
      files[key := Series(SaveForm(Loaded(files, ticker).bars), true)]
    else files
  }

  /**
   * A loaded series is in ascending date order, holds as many bars as the
   * file, and has a `price_prev` column unless it is an empty file written
   * without one; a missing file loads as the empty series.
   */
  lemma LoadedShape(files: map<string, Series>, ticker: string)
    ensures Ascending(Loaded(files, ticker).bars)
    ensures Upper(ticker) !in files ==> Loaded(files, ticker) == EMPTY
    ensures Upper(ticker) in files ==> |Loaded(files, ticker).bars| == |files[Upper(ticker)].bars|
    ensures Loaded(files, ticker).hasPrev <==>
              Upper(ticker) !in files || files[Upper(ticker)].bars != [] || files[Upper(ticker)].hasPrev
  {
    var key := Upper(ticker);
    if key in files && files[key].bars != [] && !files[key].hasPrev {
      var sorted := SortAscending(files[key].bars);
      var r := WithPrev(sorted);
      forall i, j | 0 <= i < j < |r| ensures r[i].day <= r[j].day {
        assert r[i].day == sorted[i].day && r[j].day == sorted[j].day;
      }
    }
  }

  /**
   * A file that already has `price_prev` loads as its own bars in date
   * order, with their `price_prev` values untouched, and nothing is written.
   */
  lemma LoadKeepsExistingPrev(files: map<string, Series>, ticker: string)
    requires Upper(ticker) in files && files[Upper(ticker)].hasPrev
    ensures multiset(Loaded(files, ticker).bars) == multiset(files[Upper(ticker)].bars)
    ensures AfterLoad(files, ticker) == files
  {
  }

  /**
   * A non-empty file without `price_prev` loads with the column derived in
   * date order (nothing for the first bar, the previous close for every
   * other bar), and exactly that series is written back.
   */
  lemma LoadDerivesPrev(files: map<string, Series>, ticker: string)
    requires Upper(ticker) in files && files[Upper(ticker)].bars != [] && !files[Upper(ticker)].hasPrev
    ensures var s := Loaded(files, ticker).bars;
      s[0].prev == NaN && (forall i :: 0 < i < |s| ==> s[i].prev == Fin(s[i - 1].close))
    ensures AfterLoad(files, ticker) == files[Upper(ticker) := Series(SaveForm(Loaded(files, ticker).bars), true)]
  {
  }

  /** The file name ignores case: a ticker and its upper-cased form load the same series. */
  lemma LoadIgnoresCase(files: map<string, Series>, ticker: string)
    ensures Loaded(files, ticker) == Loaded(files, Upper(ticker))
    ensures AfterLoad(files, ticker) == AfterLoad(files, Upper(ticker))
  {
    UpperIdempotent(ticker);
  }

  /** Loading right after saving a series with `price_prev` gives back exactly the bars written. */
  lemma LoadAfterSave(files: map<string, Series>, ticker: string, bars: seq<Bar>)
    ensures var saved := files[Upper(ticker) := Series(SaveForm(bars), true)];
      Loaded(saved, ticker) == Series(SaveForm(bars), true) && AfterLoad(saved, ticker) == saved
  {
    if SaveForm(bars) != [] {
      SortAscendingSorted(SaveForm(bars));
    }
  }

  /** The cache directory: every file is keyed by its upper-cased ticker. */
  class OhlcCache {
    var files: map<string, Series>

    constructor(initial: map<string, Series>)
      ensures files == initial
    {
      files := initial;
    }

    /** `save_ohlc_cache`: overwrite the ticker's file with its deduplicated, sorted bars. */
    method Save(ticker: string, s: Series)
      modifies this
      ensures files == old(files)[Upper(ticker) := Series(SaveForm(s.bars), s.hasPrev)]
    {
      var unique := DedupeFirst(s.bars, DayOf);
      var sorted := SortAscending(unique);
      files := files[Upper(ticker) := Series(sorted, s.hasPrev)];
    }

    /**
     * `load_ohlc_cache`: read the ticker's file (or the empty series), sort
     * it by date and, when `price_prev` is missing from a non-empty file,
     * derive it and save the file back.
     */
    method Load(ticker: string) returns (s: Series)
      modifies this
      ensures s == Loaded(old(files), ticker)
      ensures files == AfterLoad(old(files), ticker)
    {
      var key := Upper(ticker);
      if key !in files {
        return EMPTY;
      }
      s := files[key];
      if s.bars != [] {
        s := Series(SortAscending(s.bars), s.hasPrev);
        var updated := false;
        if !s.hasPrev {
          s := Series(WithPrev(s.bars), true);
          updated := true;
        }
        if updated {
          Save(ticker, s);
        }
      }
    }
  }
}
