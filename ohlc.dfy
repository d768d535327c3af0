/**
 * The OHLC refresh: the range of days to fetch is worked out from the
 * trades (a week before each ticker's first trade up to sixty days after
 * its last, but never past yesterday), and every fetched series is merged
 * into the ticker's cached file, cached bars first, one bar per day.
 */
module Ohlc {
  import opened Wrappers
  import opened Text
  import opened Seqs
  import opened Market
  import opened CacheManager

  /** Days fetched before a ticker's first trade. */
  const LOOKBACK_DAYS := 7
  /** Days fetched after a ticker's last trade. */
  const LOOKAHEAD_DAYS := 60

  /** A closed range of days. */
  datatype Window = Window(start: int, end: int)

  /** The last day that may be fetched: the day before the current one. */
  function Today(now: int): (today: int)
    ensures today < now
  {
    now - 1
  }

  function TickerOf(t: Trade): string { t.ticker }
  function DayOfTrade(t: Trade): int { t.day }

  function MinOf(xs: seq<int>): (m: int)
    requires |xs| > 0
    ensures m in xs && forall i :: 0 <= i < |xs| ==> m <= xs[i]
  {
    if |xs| == 1 then xs[0]
    else
      var rest := MinOf(xs[..|xs| - 1]);
      if xs[|xs| - 1] < rest then xs[|xs| - 1] else rest
  }

  function MaxOf(xs: seq<int>): (m: int)
    requires |xs| > 0
    ensures m in xs && forall i :: 0 <= i < |xs| ==> xs[i] <= m
  {
    if |xs| == 1 then xs[0]
    else
      var rest := MaxOf(xs[..|xs| - 1]);
      if xs[|xs| - 1] > rest then xs[|xs| - 1] else rest
  }

  /** The trade days of one ticker, in trade order. */
  function DaysOf(trades: seq<Trade>, ticker: string): (days: seq<int>)
    ensures forall d :: d in days <==> exists i :: 0 <= i < |trades| && trades[i].ticker == ticker && trades[i].day == d
    ensures ticker in Map(trades, TickerOf) ==> |days| > 0
  {
    var mine := Filter(trades, (t: Trade) => t.ticker == ticker);
    var days := Map(mine, DayOfTrade);
    assert forall d :: d in days ==> exists i :: 0 <= i < |trades| && trades[i].ticker == ticker && trades[i].day == d by {
      forall d | d in days ensures exists i :: 0 <= i < |trades| && trades[i].ticker == ticker && trades[i].day == d {
        var j :| 0 <= j < |days| && days[j] == d;
        assert mine[j] in trades;
        var i :| 0 <= i < |trades| && trades[i] == mine[j];
      }
    }
    assert forall i :: 0 <= i < |trades| && trades[i].ticker == ticker ==> trades[i].day in days by {
      forall i | 0 <= i < |trades| && trades[i].ticker == ticker ensures trades[i].day in days {
        assert trades[i] in mine;
        var j :| 0 <= j < |mine| && mine[j] == trades[i];
        assert days[j] == trades[i].day;
      }
    }
    assert ticker in Map(trades, TickerOf) ==> |days| > 0 by {
      if ticker in Map(trades, TickerOf) {
        var i :| 0 <= i < |trades| && Map(trades, TickerOf)[i] == ticker;
        assert trades[i].day in days;
      }
    }
    days
  }

  /**
   * The range fetched for one ticker: a week before its first trade, and
   * sixty days after its last trade or yesterday, whichever is earlier.
   */
  function TickerRange(trades: seq<Trade>, ticker: string, today: int): Window
    requires ticker in Map(trades, TickerOf)
  {
    var days := DaysOf(trades, ticker);
    Window(MinOf(days) - LOOKBACK_DAYS, Min(MaxOf(days) + LOOKAHEAD_DAYS, today))
  }

  function Min(a: int, b: int): int { if a <= b then a else b }

  lemma MinMonotone(a: int, b: int, c: int)
    requires a <= b
    ensures Min(a, c) <= Min(b, c)
  {
  }

  /** The distinct tickers of the trades, one range each. */
  function Tickers(trades: seq<Trade>): (tickers: seq<string>)
    ensures forall k :: k in tickers <==> k in Map(trades, TickerOf)
    ensures |trades| > 0 ==> |tickers| > 0
  {
    var tickers := Distinct(Map(trades, TickerOf));
    assert |trades| > 0 ==> Map(trades, TickerOf)[0] in tickers;
    tickers
  }

  /** One range per distinct ticker, in the order of `Tickers`. */
  function Ranges(trades: seq<Trade>, today: int): (rs: seq<Window>)
    ensures |rs| == |Tickers(trades)|
    ensures forall j :: 0 <= j < |rs| ==> rs[j] == TickerRange(trades, Tickers(trades)[j], today)
  {
    var tickers := Tickers(trades);
    seq(|tickers|, j requires 0 <= j < |tickers| => TickerRange(trades, tickers[j], today))
  }

  function Starts(rs: seq<Window>): (xs: seq<int>)
    ensures |xs| == |rs| && forall j :: 0 <= j < |rs| ==> xs[j] == rs[j].start
  {
    seq(|rs|, j requires 0 <= j < |rs| => rs[j].start)
  }

  function Ends(rs: seq<Window>): (xs: seq<int>)
    ensures |xs| == |rs| && forall j :: 0 <= j < |rs| ==> xs[j] == rs[j].end
  {
    seq(|rs|, j requires 0 <= j < |rs| => rs[j].end)
  }

  /**
   * The window handed to the bulk fetch: the earliest range start and the
   * latest range end over all tickers; `None` when there are no trades.
   */
  function FetchWindow(trades: seq<Trade>, today: int): (w: Option<Window>)
    ensures w.None? <==> trades == []
  {
    if trades == [] then None
    else Some(Window(MinOf(Starts(Ranges(trades, today))), MaxOf(Ends(Ranges(trades, today)))))
  }

  /** A ticker's range starts a week before its earliest trade. */
  lemma TickerRangeStart(trades: seq<Trade>, ticker: string, today: int) returns (k: nat)
    requires ticker in Map(trades, TickerOf)
    ensures var start := TickerRange(trades, ticker, today).start;
      forall i :: 0 <= i < |trades| && trades[i].ticker == ticker ==> start + LOOKBACK_DAYS <= trades[i].day
    ensures k < |trades| && trades[k].ticker == ticker && trades[k].day == TickerRange(trades, ticker, today).start + LOOKBACK_DAYS
  {
    var days := DaysOf(trades, ticker);
    var m := MinOf(days);
    forall i | 0 <= i < |trades| && trades[i].ticker == ticker
      ensures m <= trades[i].day
    {
      assert trades[i].day in days;
      var j :| 0 <= j < |days| && days[j] == trades[i].day;
    }
    assert m in days;
    k :| 0 <= k < |trades| && trades[k].ticker == ticker && trades[k].day == m;
  }

  /**
   * A ticker's range ends at the earlier of sixty days after its latest
   * trade and yesterday.
   */
  lemma TickerRangeEnd(trades: seq<Trade>, ticker: string, today: int) returns (k: nat)
    requires ticker in Map(trades, TickerOf)
    ensures var end := TickerRange(trades, ticker, today).end;
      end <= today &&
      forall i :: 0 <= i < |trades| && trades[i].ticker == ticker ==> end == today || trades[i].day + LOOKAHEAD_DAYS <= end
    ensures k < |trades| && trades[k].ticker == ticker &&
      TickerRange(trades, ticker, today).end == Min(trades[k].day + LOOKAHEAD_DAYS, today)
  {
    var days := DaysOf(trades, ticker);
    var m := MaxOf(days);
    forall i | 0 <= i < |trades| && trades[i].ticker == ticker
      ensures trades[i].day <= m
    {
      assert trades[i].day in days;
      var j :| 0 <= j < |days| && days[j] == trades[i].day;
    }
    assert m in days;
    k :| 0 <= k < |trades| && trades[k].ticker == ticker && trades[k].day == m;
  }

  /** The fetch window contains the range of every ticker with a trade. */
  lemma FetchWindowCoversRanges(trades: seq<Trade>, today: int, w: Window, ticker: string)
    requires FetchWindow(trades, today) == Some(w) && ticker in Map(trades, TickerOf)
    ensures w.start <= TickerRange(trades, ticker, today).start && TickerRange(trades, ticker, today).end <= w.end
  {
    var rs := Ranges(trades, today);
    var j :| 0 <= j < |Tickers(trades)| && Tickers(trades)[j] == ticker;
    assert Starts(rs)[j] == TickerRange(trades, ticker, today).start;
    assert Ends(rs)[j] == TickerRange(trades, ticker, today).end;
  }

  /** The trade with the earliest day, and the one with the latest, belong to tickers with a range. */
  lemma ExtremeTrades(trades: seq<Trade>) returns (lo: nat, hi: nat)
    requires trades != []
    ensures lo < |trades| && trades[lo].day == MinOf(Map(trades, DayOfTrade)) && trades[lo].ticker in Map(trades, TickerOf)
    ensures hi < |trades| && trades[hi].day == MaxOf(Map(trades, DayOfTrade)) && trades[hi].ticker in Map(trades, TickerOf)
  {
    var days := Map(trades, DayOfTrade);
    lo :| 0 <= lo < |trades| && days[lo] == MinOf(days);
    hi :| 0 <= hi < |trades| && days[hi] == MaxOf(days);
    assert Map(trades, TickerOf)[lo] == trades[lo].ticker;
    assert Map(trades, TickerOf)[hi] == trades[hi].ticker;
  }

  /** The fetch window starts a week before the earliest trade of all. */
  lemma FetchWindowStart(trades: seq<Trade>, today: int, w: Window)
    requires FetchWindow(trades, today) == Some(w)
    ensures w.start == MinOf(Map(trades, DayOfTrade)) - LOOKBACK_DAYS
  {
    var days := Map(trades, DayOfTrade);
    var starts := Starts(Ranges(trades, today));
    var lo, _ := ExtremeTrades(trades);
    FetchWindowCoversRanges(trades, today, w, trades[lo].ticker);
    var _ := TickerRangeStart(trades, trades[lo].ticker, today);
    var j :| 0 <= j < |starts| && starts[j] == MinOf(starts);
    var i := TickerRangeStart(trades, Tickers(trades)[j], today);
    assert days[i] == trades[i].day;
  }

  /** The fetch window ends sixty days after the latest trade of all, or yesterday if that is earlier. */
  lemma FetchWindowEnd(trades: seq<Trade>, today: int, w: Window)
    requires FetchWindow(trades, today) == Some(w)
    ensures w.end == Min(MaxOf(Map(trades, DayOfTrade)) + LOOKAHEAD_DAYS, today)
  {
    FetchWindowEndAbove(trades, today, w);
    FetchWindowEndBelow(trades, today, w);
  }

  lemma FetchWindowEndAbove(trades: seq<Trade>, today: int, w: Window)
    requires FetchWindow(trades, today) == Some(w)
    ensures w.end >= Min(MaxOf(Map(trades, DayOfTrade)) + LOOKAHEAD_DAYS, today)
  {
    var _, hi := ExtremeTrades(trades);
    var ticker := trades[hi].ticker;
    var _ := TickerRangeEnd(trades, ticker, today);
    FetchWindowCoversRanges(trades, today, w, ticker);
    EndAtLeast(trades, today, w, TickerRange(trades, ticker, today).end, trades[hi].day);
  }

  lemma EndAtLeast(trades: seq<Trade>, today: int, w: Window, end: int, last: int)
    requires trades != [] && last == MaxOf(Map(trades, DayOfTrade))
    requires w.end >= end && (end == today || last + LOOKAHEAD_DAYS <= end)
    ensures w.end >= Min(MaxOf(Map(trades, DayOfTrade)) + LOOKAHEAD_DAYS, today)
  {
  }

  lemma FetchWindowEndBelow(trades: seq<Trade>, today: int, w: Window)
    requires FetchWindow(trades, today) == Some(w)
    ensures w.end <= Min(MaxOf(Map(trades, DayOfTrade)) + LOOKAHEAD_DAYS, today)
  {
    var ends := Ends(Ranges(trades, today));
    assert w.end == MaxOf(ends);
    var j :| 0 <= j < |ends| && ends[j] == MaxOf(ends);
    TickerEndBelow(trades, Tickers(trades)[j], today);
  }

  /** No ticker's range ends later than sixty days after the latest trade of all. */
  lemma TickerEndBelow(trades: seq<Trade>, ticker: string, today: int)
    requires ticker in Map(trades, TickerOf)
    ensures TickerRange(trades, ticker, today).end <= Min(MaxOf(Map(trades, DayOfTrade)) + LOOKAHEAD_DAYS, today)
  {
    var days := Map(trades, DayOfTrade);
    var i := TickerRangeEnd(trades, ticker, today);
    assert days[i] == trades[i].day && days[i] <= MaxOf(days);
    MinMonotone(trades[i].day + LOOKAHEAD_DAYS, MaxOf(days) + LOOKAHEAD_DAYS, today);
  }

  /**
   * The fetch window is the range of all the trades taken together: a week
   * before the earliest trade, up to sixty days after the latest or
   * yesterday, whichever is earlier.
   */
  lemma FetchWindowOfAllTrades(trades: seq<Trade>, today: int)
    requires trades != []
    ensures var days := Map(trades, DayOfTrade);
      FetchWindow(trades, today) == Some(Window(MinOf(days) - LOOKBACK_DAYS, Min(MaxOf(days) + LOOKAHEAD_DAYS, today)))
  {
    var w := FetchWindow(trades, today).value;
    FetchWindowStart(trades, today, w);
    FetchWindowEnd(trades, today, w);
  }

  /** A fetched bar as it enters the merge: the fetched frame has no `price_prev`, so the concatenation leaves it missing. */
  function Fresh(bars: seq<Bar>): (r: seq<Bar>)
    ensures |r| == |bars|
    ensures forall i :: 0 <= i < |bars| ==> r[i] == bars[i].(prev := NaN)
  {
    seq(|bars|, i requires 0 <= i < |bars| => bars[i].(prev := NaN))
  }

  /**
   * The file of one ticker after the merge of `update_ohlc`: the cached
   * series (as loading leaves it) followed by the fetched bars, the first
   * bar of each day kept, saved.  A `price_prev` column is kept when the
   * cached series had one.
   */
  function MergedSeries(files: map<string, Series>, ticker: string, bars: seq<Bar>): Series
  {
    var cached := Loaded(files, ticker);
    Series(SaveForm(DedupeFirst(cached.bars + Fresh(bars), DayOf)), cached.hasPrev)
  }

  /** The cache after one fetched frame: an empty frame changes nothing, otherwise the ticker's file is the merge. */
  function Merged(files: map<string, Series>, ticker: string, bars: seq<Bar>): map<string, Series>
  {
    if bars == [] then files else files[Upper(ticker) := MergedSeries(files, ticker, bars)]
  }

  /** The cache after the fetched frames, taken in order. */
  function MergeAll(files: map<string, Series>, fetched: seq<(string, seq<Bar>)>): map<string, Series>
  {
    if fetched == [] then files
    else
      var last := fetched[|fetched| - 1];
      Merged(MergeAll(files, fetched[..|fetched| - 1]), last.0, last.1)
  }

  /**
   * The saving loop of `update_ohlc` over the fetched frames: each
   * non-empty frame is concatenated after the cached series, deduplicated
   * on the date and saved.  The fetch itself is the input `fetched`.
   */
  method UpdateOhlc(cache: OhlcCache, fetched: seq<(string, seq<Bar>)>)
    modifies cache
    ensures cache.files == MergeAll(old(cache.files), fetched)
  {
    for i := 0 to |fetched|
      invariant cache.files == MergeAll(old(cache.files), fetched[..i])
    {
      var (ticker, bars) := fetched[i];
      MergeFetched(cache, ticker, bars);
      MergeAllStep(old(cache.files), fetched, i);
    }
    assert fetched[..|fetched|] == fetched;
  }

  /** One pass of the saving loop: a non-empty fetched frame merged into the ticker's file and saved. */
  method MergeFetched(cache: OhlcCache, ticker: string, bars: seq<Bar>)
    modifies cache
    ensures cache.files == Merged(old(cache.files), ticker, bars)
  {
    if bars != [] {
      var cached := cache.Load(ticker);
      var combined := DedupeFirst(cached.bars + Fresh(bars), DayOf);
      cache.Save(ticker, Series(combined, cached.hasPrev));
      SaveAfterLoad(old(cache.files), ticker, Series(SaveForm(combined), cached.hasPrev));
    }
  }

  /** Saving a ticker's file right after loading it overwrites whatever the load wrote back. */
  lemma SaveAfterLoad(files: map<string, Series>, ticker: string, s: Series)
    ensures AfterLoad(files, ticker)[Upper(ticker) := s] == files[Upper(ticker) := s]
  {
  }

  /** Taking one more fetched frame is one more merge. */
  lemma MergeAllStep(files: map<string, Series>, fetched: seq<(string, seq<Bar>)>, i: int)
    requires 0 <= i < |fetched|
    ensures MergeAll(files, fetched[..i + 1]) == Merged(MergeAll(files, fetched[..i]), fetched[i].0, fetched[i].1)
  {
    assert fetched[..i + 1][..i] == fetched[..i];
  }

  /** The merge touches the ticker's own file and no other. */
  lemma MergedTouchesOnlyTicker(files: map<string, Series>, ticker: string, bars: seq<Bar>, key: string)
    requires key != Upper(ticker)
    ensures key in Merged(files, ticker, bars) <==> key in files
    ensures key in files ==> Merged(files, ticker, bars)[key] == files[key]
  {
  }

  /**
   * An existing cached bar wins over a fetched bar of the same day: the
   * merged file's bar for a cached day is the cached bar.
   */
  lemma CachedBarWins(files: map<string, Series>, ticker: string, bars: seq<Bar>, day: int)
    requires bars != []
    requires HasKey(Loaded(files, ticker).bars, DayOf, day)
    ensures var merged := Merged(files, ticker, bars)[Upper(ticker)].bars;
      HasKey(merged, DayOf, day) && FirstWithKey(merged, DayOf, day) == FirstWithKey(Loaded(files, ticker).bars, DayOf, day)
  {
    var cached := Loaded(files, ticker).bars;
    var combined := cached + Fresh(bars);
    FirstWithKeyConcat(cached, Fresh(bars), DayOf, day);
    FirstWithKeyDedupe(combined, DayOf, day);
    SaveFormFirst(DedupeFirst(combined, DayOf), day);
  }

  /**
   * A fetched day the cache did not have is added: the merged file's bar for
   * it is the first fetched bar of that day, with no previous close.
   */
  lemma FetchedDayAdded(files: map<string, Series>, ticker: string, bars: seq<Bar>, day: int)
    requires HasKey(bars, DayOf, day) && !HasKey(Loaded(files, ticker).bars, DayOf, day)
    ensures var merged := Merged(files, ticker, bars)[Upper(ticker)].bars;
      HasKey(merged, DayOf, day) && FirstWithKey(merged, DayOf, day) == FirstWithKey(bars, DayOf, day).(prev := NaN)
  {
    var cached := Loaded(files, ticker).bars;
    var combined := cached + Fresh(bars);
    FreshFirst(bars, day);
    FirstWithKeySkip(cached, Fresh(bars), DayOf, day);
    FirstWithKeyDedupe(combined, DayOf, day);
    SaveFormFirst(DedupeFirst(combined, DayOf), day);
  }

  /** Blanking the previous close leaves days alone, so the first fetched bar of a day is found in the same place. */
  lemma {:induction false} FreshFirst(bars: seq<Bar>, day: int)
    requires HasKey(bars, DayOf, day)
    ensures HasKey(Fresh(bars), DayOf, day) && FirstWithKey(Fresh(bars), DayOf, day) == FirstWithKey(bars, DayOf, day).(prev := NaN)
  {
    var i :| 0 <= i < |bars| && DayOf(bars[i]) == day;
    assert DayOf(Fresh(bars)[i]) == day;
    if bars[0].day != day {
      assert Fresh(bars)[1..] == Fresh(bars[1..]);
      assert DayOf(bars[1..][i - 1]) == day;
      FreshFirst(bars[1..], day);
    }
  }

  /**
   * After the merge no two bars share a day, the bars are in date order, and
   * the days are exactly the cached days and the fetched days.
   */
  lemma MergedDays(files: map<string, Series>, ticker: string, bars: seq<Bar>)
    requires bars != []
    ensures var merged := Merged(files, ticker, bars)[Upper(ticker)].bars;
      StrictlyAscending(merged) &&
      forall day :: HasKey(merged, DayOf, day) <==> HasKey(Loaded(files, ticker).bars, DayOf, day) || HasKey(bars, DayOf, day)
  {
    var cached := Loaded(files, ticker).bars;
    forall day
      ensures HasKey(cached + Fresh(bars), DayOf, day) <==> HasKey(cached, DayOf, day) || HasKey(bars, DayOf, day)
    {
      FreshDays(bars, day);
      HasKeyConcat(cached, Fresh(bars), DayOf, day);
    }
  }

  lemma FreshDays(bars: seq<Bar>, day: int)
    ensures HasKey(Fresh(bars), DayOf, day) <==> HasKey(bars, DayOf, day)
  {
    if HasKey(bars, DayOf, day) {
      var i :| 0 <= i < |bars| && DayOf(bars[i]) == day;
      assert DayOf(Fresh(bars)[i]) == day;
    }
    if HasKey(Fresh(bars), DayOf, day) {
      var i :| 0 <= i < |Fresh(bars)| && DayOf(Fresh(bars)[i]) == day;
      assert DayOf(bars[i]) == day;
    }
  }

  /** The merged file keeps a `price_prev` column whenever the cached series had one. */
  lemma MergedKeepsPrevColumn(files: map<string, Series>, ticker: string, bars: seq<Bar>)
    requires bars != []
    ensures Merged(files, ticker, bars)[Upper(ticker)].hasPrev == Loaded(files, ticker).hasPrev
    ensures Upper(ticker) !in files || files[Upper(ticker)].bars != [] || files[Upper(ticker)].hasPrev ==>
              Merged(files, ticker, bars)[Upper(ticker)].hasPrev
  {
    LoadedShape(files, ticker);
  }

  /** Frames that came back empty leave the cache as it was. */
  lemma {:induction false} MergeAllSkipsEmpty(files: map<string, Series>, fetched: seq<(string, seq<Bar>)>)
    requires forall i :: 0 <= i < |fetched| ==> fetched[i].1 == []
    ensures MergeAll(files, fetched) == files
  {
    if fetched != [] {
      MergeAllSkipsEmpty(files, fetched[..|fetched| - 1]);
    }
  }

  /** A file whose ticker was not fetched is left as it was. */
  lemma {:induction false} MergeAllUntouched(files: map<string, Series>, fetched: seq<(string, seq<Bar>)>, key: string)
    requires forall i :: 0 <= i < |fetched| ==> Upper(fetched[i].0) != key
    ensures key in MergeAll(files, fetched) <==> key in files
    ensures key in files ==> MergeAll(files, fetched)[key] == files[key]
  {
    if fetched != [] {
      var init := fetched[..|fetched| - 1];
      MergeAllUntouched(files, init, key);
      var last := fetched[|fetched| - 1];
      MergedTouchesOnlyTicker(MergeAll(files, init), last.0, last.1, key);
    }
  }
}
