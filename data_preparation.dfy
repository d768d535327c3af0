/**
 * Schema normalisation of the trade master table, and the per-trade ATR
 * enrichment: for each trade, the true ranges of the `window` bars up to the
 * trade day of the ticker's daily series are averaged, and that average is
 * also given as a fraction of the day's close.
 */
module DataPreparation {
  import opened Wrappers
  import opened Seqs
  import opened Frames
  import opened Market
  import opened CacheManager

  /** The columns of the trade master table, in order. */
  const REQUIRED_COLS: seq<string> := [
    "ticker", "insider_name", "relationship", "transaction_date", "transaction_type",
    "price", "shares", "value", "shares_total", "sec_form4",
    "market_open_at_trade", "market_close_at_trade", "high_at_trade", "low_at_trade",
    "atr_14", "atr_14_pct", "price_prev",
    "high_plus_7d", "low_plus_7d", "max_gain_7d", "max_drawdown_7d",
    "high_plus_14d", "low_plus_14d", "max_gain_14d", "max_drawdown_14d",
    "high_plus_30d", "low_plus_30d", "max_gain_30d", "max_drawdown_30d",
    "final_gain_30d",
    "outcome_case1", "outcome_case2",
    "tags", "footnote_notes", "last_updated"
  ]

  /** The default look-back of `add_atr`. */
  const ATR_WINDOW := 14

  /**
   * `normalize_schema`: add every missing required column as NA, then keep
   * exactly the required columns in their order.  Present columns keep
   * their values; the result is the frame reindexed on the required columns.
   */
  method NormalizeSchema(df: Frame, required: seq<string>) returns (out: Frame)
    ensures out.columns == required
    ensures |out.rows| == |df.rows|
    ensures forall i, c :: 0 <= i < |out.rows| && c in required ==>
              Cell(out.rows[i], c) == if c in df.columns then Cell(df.rows[i], c) else NA
    ensures out == Reindex(df, required, NA)
  {
    var f := df;
    for k := 0 to |required|
      invariant forall c :: c in f.columns <==> c in df.columns || c in required[..k]
      invariant |f.rows| == |df.rows|
      invariant forall i, c :: 0 <= i < |f.rows| ==>
                  Cell(f.rows[i], c) == if c !in df.columns && c in required[..k] then NA else Cell(df.rows[i], c)
    {
      assert required[..k + 1] == required[..k] + [required[k]];
      var col := required[k];
      if col !in f.columns {
        f := SetColumn(f, col, seq(|f.rows|, _ => NA));
      }
    }
    assert required[..|required|] == required;
    out := Select(f, required);
    SelectFilledIsReindex(df, required, f);
  }

  /** Once every required column is present, with the missing ones filled with NA, selecting them is reindexing. */
  lemma SelectFilledIsReindex(df: Frame, required: seq<string>, f: Frame)
    requires forall c :: c in f.columns <==> c in df.columns || c in required
    requires |f.rows| == |df.rows|
    requires forall i, c :: 0 <= i < |f.rows| ==>
      Cell(f.rows[i], c) == if c !in df.columns && c in required then NA else Cell(df.rows[i], c)
    ensures Select(f, required) == Reindex(df, required, NA)
  {
    var out := Select(f, required);
    forall i | 0 <= i < |out.rows|
      ensures out.rows[i] == Reindex(df, required, NA).rows[i]
    {
      var r, s := out.rows[i], Reindex(df, required, NA).rows[i];
      assert r.Keys == s.Keys;
      forall c | c in r.Keys ensures r[c] == s[c] {
        assert Cell(r, c) == Cell(s, c);
      }
    }
  }

  /** Normalising a normalised table changes nothing. */
  lemma ReindexIdempotent(df: Frame, required: seq<string>)
    ensures Reindex(Reindex(df, required, NA), required, NA) == Reindex(df, required, NA)
  {
    var once := Reindex(df, required, NA);
    var twice := Reindex(once, required, NA);
    forall i | 0 <= i < |twice.rows| ensures twice.rows[i] == once.rows[i] {
      forall c | c in required ensures twice.rows[i][c] == once.rows[i][c] {
        assert Cell(twice.rows[i], c) == Cell(once.rows[i], c);
      }
    }
  }

  function Abs(x: real): real { if x >= 0.0 then x else -x }

  /** The true range of bar `k`: the largest of its own range and its two gaps to the previous close. */
  function TrueRange(bars: seq<Bar>, k: int): (tr: real)
    requires 1 <= k < |bars|
    ensures tr >= bars[k].high - bars[k].low
    ensures tr >= Abs(bars[k].high - bars[k - 1].close) && tr >= Abs(bars[k].low - bars[k - 1].close)
    ensures tr == bars[k].high - bars[k].low || tr == Abs(bars[k].high - bars[k - 1].close) ||
            tr == Abs(bars[k].low - bars[k - 1].close)
    ensures tr >= 0.0
  {
    var (tr1, tr2, tr3) := (bars[k].high - bars[k].low, Abs(bars[k].high - bars[k - 1].close), Abs(bars[k].low - bars[k - 1].close));
    if tr1 >= tr2 && tr1 >= tr3 then tr1 else if tr2 >= tr3 then tr2 else tr3
  }

  /**
   * The `true_range` column of a window: the first row has no previous
   * close, and the row-wise max skips the missing gaps, leaving its own range.
   */
  function WindowTrueRanges(w: seq<Bar>): (trs: seq<real>)
    ensures |trs| == |w|
    ensures |w| > 0 ==> trs[0] == w[0].high - w[0].low
    ensures forall k :: 1 <= k < |w| ==> trs[k] == TrueRange(w, k)
  {
    seq(|w|, k requires 0 <= k < |w| => if k == 0 then w[0].high - w[0].low else TrueRange(w, k))
  }

  function Sum(xs: seq<real>): real
  {
    if xs == [] then 0.0 else Sum(xs[..|xs| - 1]) + xs[|xs| - 1]
  }

  /** The arithmetic mean of a non-empty column. */
  function Mean(xs: seq<real>): real
    requires |xs| >= 1
  {
    Sum(xs) / |xs| as real
  }

  /** `rolling(window, min_periods=1).mean().iloc[-1]`: the mean of the last `window` values, or of all when fewer. */
  function LastMean(xs: seq<real>, window: int): real
    requires window >= 1 && |xs| >= 1
  {
    var n := if window <= |xs| then window else |xs|;
    Mean(xs[|xs| - n..])
  }

  /**
   * `ohlc.index.get_loc(day)` when `day` is in the index: the position of
   * the first bar of that day; `None` when no bar has that day.
   */
  function IndexOfDay(bars: seq<Bar>, day: int): (k: Option<nat>)
    ensures k.Some? ==> k.value < |bars| && bars[k.value].day == day && forall j :: 0 <= j < k.value ==> bars[j].day != day
    ensures k.None? ==> forall j :: 0 <= j < |bars| ==> bars[j].day != day
  {
    if bars == [] then None
    else if bars[0].day == day then Some(0)
    else match IndexOfDay(bars[1..], day)
      case None => None
      case Some(k) => Some(k + 1)
  }

  /**
   * The ATR of a window of `window + 1` bars: the last `window` entries of
   * its true-range column, averaged.  Never negative.
   */
  function WindowAtr(w: seq<Bar>, window: int): (atr: real)
    requires window >= 1 && |w| == window + 1
    ensures atr >= 0.0
  {
    var trs := WindowTrueRanges(w);
    assert trs[|trs| - window..] == trs[1..];
    MeanNonNegative(trs[1..]);
    LastMean(trs, window)
  }

  /**
   * The ATR and ATR% on `day` of a series in date order: `None` when the day
   * has no bar or fewer than `window` bars come before it; otherwise the ATR
   * of the `window + 1` bars ending on the day, and that ATR over the day's
   * close.
   */
  function AtrOnDay(bars: seq<Bar>, day: int, window: int): (r: Option<(real, Float)>)
    requires window >= 1
    ensures r.None? <==> IndexOfDay(bars, day).None? || IndexOfDay(bars, day).value < window
    ensures r.Some? ==> r.value.0 >= 0.0 && r.value.1 == Divide(r.value.0, bars[IndexOfDay(bars, day).value].close)
  {
    match IndexOfDay(bars, day)
    case None => None
    case Some(idx) =>
      if idx - window < 0 then None
      else
        Some(WindowCells(bars[idx - window..idx + 1], window))
  }

  /** The ATR of a window of `window + 1` bars, and that ATR over the close of its last bar. */
  function WindowCells(w: seq<Bar>, window: int): (r: (real, Float))
    requires window >= 1 && |w| == window + 1
    ensures r.0 >= 0.0 && r.1 == Divide(r.0, w[window].close)
  {
    var atr := WindowAtr(w, window);
    (atr, Divide(atr, w[|w| - 1].close))
  }

  /**
   * The ATR and ATR% cells `add_atr` gives one trade; NaN where it appends
   * `None`.  The series is taken in date order, as the cache loads it.
   */
  function AtrCells(t: Trade, series: map<string, seq<Bar>>, window: int): (Float, Float)
    requires window >= 1
  {
    var bars := if t.ticker in series then series[t.ticker] else [];
    match AtrOnDay(bars, t.day, window)
    case None => (NaN, NaN)
    case Some((atr, pct)) => (Fin(atr), pct)
  }

  /** The trades with their ATR cells filled in, one pair per trade; nothing else changes. */
  function WithAtr(trades: seq<Trade>, series: map<string, seq<Bar>>, window: int): (r: seq<Trade>)
    requires window >= 1
    ensures |r| == |trades|
    ensures forall i :: 0 <= i < |r| ==> r[i].(atr := trades[i].atr, atrPct := trades[i].atrPct) == trades[i]
    ensures forall i :: 0 <= i < |r| ==> (r[i].atr, r[i].atrPct) == AtrCells(trades[i], series, window)
  {
    seq(|trades|, i requires 0 <= i < |trades| =>
      trades[i].(atr := AtrCells(trades[i], series, window).0, atrPct := AtrCells(trades[i], series, window).1))
  }

  /**
   * `add_atr`: one pass over the trades appending an ATR and an ATR% value
   * (or `None`) per trade, then both lists written as columns.  `series`
   * holds what the OHLC cache loads for each ticker, already in date order.
   */
  method AddAtr(trades: seq<Trade>, series: map<string, seq<Bar>>, window: int) returns (out: seq<Trade>)
    requires window >= 1
    ensures out == WithAtr(trades, series, window)
  {
    var atrValues: seq<Float> := [];
    var atrPctValues: seq<Float> := [];
    for i := 0 to |trades|
      invariant |atrValues| == |atrPctValues| == i
      invariant forall j :: 0 <= j < i ==> atrValues[j] == AtrCells(trades[j], series, window).0
      invariant forall j :: 0 <= j < i ==> atrPctValues[j] == AtrCells(trades[j], series, window).1
    {
      atrValues, atrPctValues := AppendTradeAtr(trades[i], series, window, atrValues, atrPctValues);
    }
    out := WriteAtrColumns(trades, atrValues, atrPctValues);
    ColumnsAreWithAtr(trades, series, window, atrValues, atrPctValues, out);
  }

  /** One iteration of the `add_atr` loop: the trade's two values appended to the lists. */
  method AppendTradeAtr(t: Trade, series: map<string, seq<Bar>>, window: int, atrValues: seq<Float>, atrPctValues: seq<Float>)
    returns (atrValues': seq<Float>, atrPctValues': seq<Float>)
    requires window >= 1
    ensures atrValues' == atrValues + [AtrCells(t, series, window).0]
    ensures atrPctValues' == atrPctValues + [AtrCells(t, series, window).1]
  {
    var atr, atrPct := TradeAtr(t, series, window);
    atrValues', atrPctValues' := atrValues + [atr], atrPctValues + [atrPct];
  }

  /** `df["atr_14"] = atr_values; df["atr_14_pct"] = atr_pct_values`: row `i` gets the `i`-th value of each list. */
  function WriteAtrColumns(trades: seq<Trade>, atrValues: seq<Float>, atrPctValues: seq<Float>): (r: seq<Trade>)
    requires |atrValues| == |atrPctValues| == |trades|
    ensures |r| == |trades|
    ensures forall j :: 0 <= j < |trades| ==> r[j] == trades[j].(atr := atrValues[j], atrPct := atrPctValues[j])
  {
    seq(|trades|, i requires 0 <= i < |trades| => trades[i].(atr := atrValues[i], atrPct := atrPctValues[i]))
  }

  /** Writing per-trade ATR cells as the two columns gives the trades with their cells filled in. */
  lemma ColumnsAreWithAtr(trades: seq<Trade>, series: map<string, seq<Bar>>, window: int,
                          atrValues: seq<Float>, atrPctValues: seq<Float>, out: seq<Trade>)
    requires window >= 1
    requires |atrValues| == |atrPctValues| == |trades| == |out|
    requires forall j :: 0 <= j < |trades| ==> atrValues[j] == AtrCells(trades[j], series, window).0
    requires forall j :: 0 <= j < |trades| ==> atrPctValues[j] == AtrCells(trades[j], series, window).1
    requires forall j :: 0 <= j < |trades| ==> out[j] == trades[j].(atr := atrValues[j], atrPct := atrPctValues[j])
    ensures out == WithAtr(trades, series, window)
  {
  }

  /**
   * The loop body of `add_atr` for one trade: no series, no bar on the
   * trade day, or too short a history each give `None`; otherwise the
   * window's mean true range and that mean over the day's close.  The
   * re-sort by date is left out: the loaded series is already in date order,
   * which that sort leaves as it is.
   */
  method TradeAtr(t: Trade, series: map<string, seq<Bar>>, window: int) returns (atr: Float, atrPct: Float)
    requires window >= 1
    ensures (atr, atrPct) == AtrCells(t, series, window)
  {
    var ohlc := if t.ticker in series then series[t.ticker] else [];
    if ohlc == [] {
      assert AtrOnDay(ohlc, t.day, window).None?;
      return NaN, NaN;
    }
    var loc := IndexOfDay(ohlc, t.day);
    if loc.None? {
      assert AtrOnDay(ohlc, t.day, window).None?;
      return NaN, NaN;
    }
    var startIdx := loc.value - window;
    var endIdx := loc.value;
    if startIdx < 0 {
      assert AtrOnDay(ohlc, t.day, window).None?;
      return NaN, NaN;
    }
    var windowData := ohlc[startIdx..endIdx + 1];
    var cells := WindowCells(windowData, window);
    atr, atrPct := Fin(cells.0), cells.1;
    assert AtrOnDay(ohlc, t.day, window) == Some(cells);
  }

  /** The true ranges of bars `lo` .. `hi - 1`, each against the close of the bar before it. */
  function RangesBetween(bars: seq<Bar>, lo: int, hi: int): (trs: seq<real>)
    requires 1 <= lo <= hi <= |bars|
    ensures |trs| == hi - lo
    ensures forall k :: 0 <= k < hi - lo ==> trs[k] == TrueRange(bars, lo + k)
  {
    seq(hi - lo, k requires 0 <= k < hi - lo => TrueRange(bars, lo + k))
  }

  lemma {:induction false} SumNonNegative(xs: seq<real>)
    requires forall k :: 0 <= k < |xs| ==> xs[k] >= 0.0
    ensures Sum(xs) >= 0.0
    decreases |xs|
  {
    if xs != [] {
      SumNonNegative(xs[..|xs| - 1]);
    }
  }

  lemma MeanNonNegative(xs: seq<real>)
    requires |xs| >= 1 && forall k :: 0 <= k < |xs| ==> xs[k] >= 0.0
    ensures Mean(xs) >= 0.0
  {
    SumNonNegative(xs);
  }

  /** A window's ATR is the mean of the true ranges of all its bars but the first. */
  lemma WindowAtrIsMean(w: seq<Bar>, window: int)
    requires window >= 1 && |w| == window + 1
    ensures WindowAtr(w, window) == Mean(RangesBetween(w, 1, |w|))
  {
    var trs := WindowTrueRanges(w);
    assert trs[|trs| - window..] == trs[1..];
    assert trs[1..] == RangesBetween(w, 1, |w|);
  }

  /** The true ranges inside a slice are those of the whole series at the same bars. */
  lemma RangesOfSlice(bars: seq<Bar>, lo: int, hi: int)
    requires 0 <= lo < hi <= |bars|
    ensures RangesBetween(bars[lo..hi], 1, hi - lo) == RangesBetween(bars, lo + 1, hi)
  {
    var w := bars[lo..hi];
    forall k | 1 <= k < hi - lo ensures TrueRange(w, k) == TrueRange(bars, lo + k) {
      assert w[k] == bars[lo + k] && w[k - 1] == bars[lo + k - 1];
    }
  }

  /**
   * When the trade day is bar `idx` and at least `window` bars come before
   * it, the ATR is the mean of the true ranges of the `window` bars ending on
   * the trade day, each measured against the close of the bar before it: the
   * first bar of the slice only lends its close.
   */
  lemma AtrIsMeanTrueRange(bars: seq<Bar>, day: int, window: int, idx: nat)
    requires window >= 1 && IndexOfDay(bars, day) == Some(idx) && idx >= window
    ensures AtrOnDay(bars, day, window).Some?
    ensures AtrOnDay(bars, day, window).value.0 == Mean(RangesBetween(bars, idx - window + 1, idx + 1))
  {
    AtrOfWindow(bars, day, window, idx);
    SliceAtrIsMean(bars, idx, window);
  }

  /** The ATR of the `window + 1` bars ending at `idx` is the mean of the true ranges of all of them but the first. */
  lemma SliceAtrIsMean(bars: seq<Bar>, idx: int, window: int)
    requires 1 <= window <= idx < |bars|
    ensures WindowAtr(bars[idx - window..idx + 1], window) == Mean(RangesBetween(bars, idx - window + 1, idx + 1))
  {
    WindowAtrIsMean(bars[idx - window..idx + 1], window);
    RangesOfSlice(bars, idx - window, idx + 1);
  }

  lemma {:induction false} SumBounds(xs: seq<real>, lo: real, hi: real)
    requires forall k :: 0 <= k < |xs| ==> lo <= xs[k] <= hi
    ensures |xs| as real * lo <= Sum(xs) <= |xs| as real * hi
    decreases |xs|
  {
    if xs != [] {
      SumBounds(xs[..|xs| - 1], lo, hi);
      assert |xs| as real * lo == (|xs| - 1) as real * lo + lo;
      assert |xs| as real * hi == (|xs| - 1) as real * hi + hi;
    }
  }

  /** A mean lies between any lower and upper bound of its values. */
  lemma MeanBetween(xs: seq<real>, lo: real, hi: real)
    requires |xs| >= 1 && forall k :: 0 <= k < |xs| ==> lo <= xs[k] <= hi
    ensures lo <= Mean(xs) <= hi
  {
    SumBounds(xs, lo, hi);
    var n := |xs| as real;
    var q := Sum(xs) / n;
    assert q * n == Sum(xs);
    assert (q - lo) * n == Sum(xs) - n * lo;
    assert (hi - q) * n == n * hi - Sum(xs);
  }

  /**
   * The ATR lies between the smallest and the largest true range of its
   * window; in particular a window whose true ranges are all `c` has ATR `c`.
   */
  lemma AtrBetweenRanges(bars: seq<Bar>, day: int, window: int, idx: nat, lo: real, hi: real)
    requires window >= 1 && IndexOfDay(bars, day) == Some(idx) && idx >= window
    requires forall k :: idx - window < k <= idx ==> lo <= TrueRange(bars, k) <= hi
    ensures AtrOnDay(bars, day, window).Some?
    ensures lo <= AtrOnDay(bars, day, window).value.0 <= hi
  {
    AtrIsMeanTrueRange(bars, day, window, idx);
    var xs := RangesBetween(bars, idx - window + 1, idx + 1);
    forall k | 0 <= k < |xs| ensures lo <= xs[k] <= hi {
      assert xs[k] == TrueRange(bars, idx - window + 1 + k);
    }
    MeanBetween(xs, lo, hi);
  }

  /**
   * No look-ahead: bars after the trade day do not change its ATR, so
   * appending later bars to a series leaves every earlier trade's ATR alone.
   */
  lemma AtrIgnoresLaterBars(bars: seq<Bar>, later: seq<Bar>, day: int, window: int)
    requires window >= 1
    requires IndexOfDay(bars, day).Some?
    ensures AtrOnDay(bars + later, day, window) == AtrOnDay(bars, day, window)
  {
    IndexOfDayPrefix(bars, later, day);
    var idx := IndexOfDay(bars, day).value;
    if idx >= window {
      assert (bars + later)[idx - window..idx + 1] == bars[idx - window..idx + 1];
      SameWindowSameAtr(bars, bars + later, day, window, idx);
    }
  }

  /** Two series with the trade day at the same bar and the same window up to it give the same ATR cells. */
  lemma SameWindowSameAtr(a: seq<Bar>, b: seq<Bar>, day: int, window: int, idx: nat)
    requires window >= 1 && IndexOfDay(a, day) == Some(idx) && IndexOfDay(b, day) == Some(idx) && idx >= window
    requires a[idx - window..idx + 1] == b[idx - window..idx + 1]
    ensures AtrOnDay(a, day, window) == AtrOnDay(b, day, window)
  {
    AtrOfWindow(a, day, window, idx);
    AtrOfWindow(b, day, window, idx);
  }

  lemma {:induction false} IndexOfDayPrefix(bars: seq<Bar>, later: seq<Bar>, day: int)
    requires IndexOfDay(bars, day).Some?
    ensures IndexOfDay(bars + later, day) == IndexOfDay(bars, day)
  {
    if bars[0].day != day {
      assert (bars + later)[1..] == bars[1..] + later;
      IndexOfDayPrefix(bars[1..], later, day);
    }
  }

  /** On a positive close the ATR% is finite and non-negative: the ATR divided by that close. */
  lemma AtrPctOnPositiveClose(bars: seq<Bar>, day: int, window: int, idx: nat)
    requires window >= 1 && IndexOfDay(bars, day) == Some(idx) && idx >= window
    requires bars[idx].close > 0.0
    ensures AtrOnDay(bars, day, window).Some?
    ensures AtrOnDay(bars, day, window).value.1.Fin?
    ensures AtrOnDay(bars, day, window).value.1.x >= 0.0
  {
    var atr := WindowAtr(bars[idx - window..idx + 1], window);
    AtrOfWindow(bars, day, window, idx);
    DivideByPositive(atr, bars[idx].close);
  }

  /** With enough history, the ATR cells are those of the `window + 1` bars ending on the day. */
  lemma AtrOfWindow(bars: seq<Bar>, day: int, window: int, idx: nat)
    requires window >= 1 && IndexOfDay(bars, day) == Some(idx) && idx >= window
    ensures var atr := WindowAtr(bars[idx - window..idx + 1], window);
      AtrOnDay(bars, day, window) == Some((atr, Divide(atr, bars[idx].close)))
  {
  }

  /** A trade whose ticker has no cached series gets no ATR. */
  lemma NoSeriesNoAtr(t: Trade, series: map<string, seq<Bar>>, window: int)
    requires window >= 1 && (t.ticker !in series || series[t.ticker] == [])
    ensures AtrCells(t, series, window) == (NaN, NaN)
  {
  }
}
