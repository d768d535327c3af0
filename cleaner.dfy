/**
 * The noise filters of the trade pipeline: a ticker pre-filter on an
 * exclusion list and a market-cap floor, run before any price series is
 * fetched, and two row filters run after the ATR columns exist — one on ATR%
 * and one on the ratio between the insider's price and the day's market open.
 */
module Cleaner {
  import opened Wrappers
  import opened Seqs
  import opened Market

  /** The default market-cap floor of `pre_ohlc_noise_reduction`. */
  const MIN_MARKET_CAP: real := 150000000.0
  /** The default ATR% floor of `drop_low_atr_trades` (2%). */
  const MIN_ATR_PCT: real := 0.02
  /** The default ratio cut-off of `drop_split_merger_anomalies`. */
  const SPLIT_THRESHOLD: real := 1.70

  /** Why a ticker was dropped; the cap is kept for the report line. */
  datatype DropReason = ExcludedList | NoMarketCap | CapBelow(cap: real)

  /**
   * The `market_cap` a snapshot cache holds for a ticker: `None` when the
   * ticker has no snapshot or its snapshot has no (or a null) market cap.
   */
  function CapOf(snapshots: map<string, Option<Float>>, t: string): Option<Float>
  {
    if t in snapshots then snapshots[t] else None
  }

  /**
   * The reason a ticker is dropped, checked in the loop's order (exclusion
   * list, missing cap, cap under the floor); `None` keeps the ticker.  A NaN
   * cap is not `< min`, so it is kept.
   */
  function DropReasonOf(snapshots: map<string, Option<Float>>, exclude: set<string>, minCap: real, t: string): (r: Option<DropReason>)
    ensures r.None? <==> t !in exclude && CapOf(snapshots, t).Some? &&
                         (AtLeast(CapOf(snapshots, t).value, minCap) || CapOf(snapshots, t).value == NaN)
    ensures r == Some(ExcludedList) <==> t in exclude
    ensures r == Some(NoMarketCap) <==> t !in exclude && CapOf(snapshots, t).None?
    ensures r.Some? && r.value.CapBelow? ==> r.value.cap < minCap && CapOf(snapshots, t) == Some(Fin(r.value.cap))
  {
    if t in exclude then Some(ExcludedList)
    else match CapOf(snapshots, t)
      case None => Some(NoMarketCap)
      case Some(cap) => if Below(cap, minCap) then Some(CapBelow(cap.x)) else None
  }

  /** The tickers that pass, in input order. */
  function ValidTickers(tickers: seq<string>, snapshots: map<string, Option<Float>>, exclude: set<string>, minCap: real): seq<string>
  {
    Filter(tickers, (t: string) => DropReasonOf(snapshots, exclude, minCap, t).None?)
  }

  /** The dropped tickers with their reasons, in input order. */
  function Dropped(tickers: seq<string>, snapshots: map<string, Option<Float>>, exclude: set<string>, minCap: real): (d: seq<(string, DropReason)>)
    ensures |d| <= |tickers|
    ensures forall j :: 0 <= j < |d| ==> d[j].0 in tickers && DropReasonOf(snapshots, exclude, minCap, d[j].0) == Some(d[j].1)
  {
    if tickers == [] then []
    else
      var t := tickers[|tickers| - 1];
      var rest := Dropped(tickers[..|tickers| - 1], snapshots, exclude, minCap);
      match DropReasonOf(snapshots, exclude, minCap, t)
      case None => rest
      case Some(reason) => rest + [(t, reason)]
  }

  /**
   * `pre_ohlc_noise_reduction`: one pass over the tickers, appending each
   * to `dropped` with the first reason that applies, or to `valid`.  The
   * exclusion list is the union of the IPO and no-market-cap lists.
   */
  method PreOhlcNoiseReduction(tickers: seq<string>, snapshots: map<string, Option<Float>>,
                               ipoTickers: set<string>, noCapTickers: set<string>, minCap: real)
    returns (valid: seq<string>, dropped: seq<(string, DropReason)>)
    ensures valid == ValidTickers(tickers, snapshots, ipoTickers + noCapTickers, minCap)
    ensures dropped == Dropped(tickers, snapshots, ipoTickers + noCapTickers, minCap)
  {
    var exclude := ipoTickers + noCapTickers;
    valid, dropped := [], [];
    for i := 0 to |tickers|
      invariant valid == ValidTickers(tickers[..i], snapshots, exclude, minCap)
      invariant dropped == Dropped(tickers[..i], snapshots, exclude, minCap)
    {
      var t := tickers[i];
      assert tickers[..i + 1] == tickers[..i] + [t];
      assert tickers[..i + 1][..i] == tickers[..i];
      FilterConcat(tickers[..i], [t], (u: string) => DropReasonOf(snapshots, exclude, minCap, u).None?);
      var cap := CapOf(snapshots, t);
      if t in exclude {
        dropped := dropped + [(t, ExcludedList)];
        continue;
      }
      if cap.None? {
        dropped := dropped + [(t, NoMarketCap)];
        continue;
      }
      if Below(cap.value, minCap) {
        dropped := dropped + [(t, CapBelow(cap.value.x))];
        continue;
      }
      valid := valid + [t];
    }
    assert tickers[..|tickers|] == tickers;
  }

  /** The names in a list of dropped entries. */
  function Names(d: seq<(string, DropReason)>): (names: seq<string>)
    ensures |names| == |d|
    ensures forall j :: 0 <= j < |d| ==> names[j] == d[j].0
  {
    seq(|d|, j requires 0 <= j < |d| => d[j].0)
  }

  /**
   * Every input ticker ends up on exactly one side: it is valid exactly when
   * no reason applies and dropped exactly when one does, and the two lists
   * together are as long as the input.
   */
  lemma {:induction false} EveryTickerOnce(tickers: seq<string>, snapshots: map<string, Option<Float>>, exclude: set<string>, minCap: real)
    ensures |ValidTickers(tickers, snapshots, exclude, minCap)| + |Dropped(tickers, snapshots, exclude, minCap)| == |tickers|
    ensures forall t :: t in Names(Dropped(tickers, snapshots, exclude, minCap)) <==>
                        t in tickers && DropReasonOf(snapshots, exclude, minCap, t).Some?
    decreases |tickers|
  {
    if tickers != [] {
      var init, t := tickers[..|tickers| - 1], tickers[|tickers| - 1];
      assert tickers == init + [t];
      EveryTickerOnce(init, snapshots, exclude, minCap);
      FilterConcat(init, [t], (u: string) => DropReasonOf(snapshots, exclude, minCap, u).None?);
      var d := Dropped(tickers, snapshots, exclude, minCap);
      var dInit := Dropped(init, snapshots, exclude, minCap);
      assert Names(d) == Names(dInit) + (if DropReasonOf(snapshots, exclude, minCap, t).Some? then [t] else []);
    }
  }

  /** The valid tickers of two batches are those of each batch, in order. */
  lemma ValidTickersConcat(a: seq<string>, b: seq<string>, snapshots: map<string, Option<Float>>, exclude: set<string>, minCap: real)
    ensures ValidTickers(a + b, snapshots, exclude, minCap) ==
            ValidTickers(a, snapshots, exclude, minCap) + ValidTickers(b, snapshots, exclude, minCap)
  {
    FilterConcat(a, b, (t: string) => DropReasonOf(snapshots, exclude, minCap, t).None?);
  }

  /** A cap exactly at the floor is kept: the floor is inclusive. */
  lemma CapAtFloorKept(snapshots: map<string, Option<Float>>, exclude: set<string>, minCap: real, t: string)
    requires t in snapshots && snapshots[t] == Some(Fin(minCap)) && t !in exclude
    ensures t in ValidTickers([t], snapshots, exclude, minCap)
  {
  }

  /** `drop_low_atr_trades`: the rows whose ATR% is at least the floor (`>=`, so NaN rows go). */
  function DropLowAtrTrades(trades: seq<Trade>, minAtrPct: real): seq<Trade>
  {
    Filter(trades, (t: Trade) => AtLeast(t.atrPct, minAtrPct))
  }

  /** The rows the ATR filter reports as dropped: those with ATR% `<` the floor. */
  function LowAtrReported(trades: seq<Trade>, minAtrPct: real): seq<Trade>
  {
    Filter(trades, (t: Trade) => Below(t.atrPct, minAtrPct))
  }

  /**
   * The ATR filter keeps a row exactly when its ATR% is known and at least
   * the floor; the kept rows, the reported rows and the rows with a NaN ATR%
   * account for every input row, so NaN rows vanish without being reported.
   */
  lemma LowAtrAccounting(trades: seq<Trade>, minAtrPct: real)
    ensures forall t :: t in DropLowAtrTrades(trades, minAtrPct) <==> t in trades && t.atrPct != NaN && !Below(t.atrPct, minAtrPct)
    ensures |DropLowAtrTrades(trades, minAtrPct)| + |LowAtrReported(trades, minAtrPct)| + |Filter(trades, (t: Trade) => t.atrPct == NaN)| == |trades|
  {
    FilterThreeWay(trades, (t: Trade) => AtLeast(t.atrPct, minAtrPct), (t: Trade) => Below(t.atrPct, minAtrPct), (t: Trade) => t.atrPct == NaN);
  }

  /** Python truthiness of a float cell: zero is false, NaN is true. */
  predicate Truthy(v: Option<real>)
  {
    v != Some(0.0)
  }

  /** Python's `max(a, b)`: `b` wins only when `b > a`, which no comparison with NaN is. */
  function PyMax(a: Option<real>, b: Option<real>): Option<real>
  {
    if a.Some? && b.Some? && b.value > a.value then b else a
  }

  /** Python's `min(a, b)`: `b` wins only when `b < a`, which no comparison with NaN is. */
  function PyMin(a: Option<real>, b: Option<real>): Option<real>
  {
    if a.Some? && b.Some? && b.value < a.value then b else a
  }

  /** Float division of two cells, neither of them zero; NaN on either side gives NaN. */
  function Quotient(a: Option<real>, b: Option<real>): Float
    requires b != Some(0.0)
  {
    if a.Some? && b.Some? then Fin(a.value / b.value) else NaN
  }

  /** Larger over smaller of two positive values is at least 1. */
  lemma QuotientAtLeastOne(hi: real, lo: real)
    requires 0.0 < lo <= hi
    ensures hi / lo >= 1.0
  {
    var q := hi / lo;
    assert q * lo == hi;
    assert (q - 1.0) * lo == hi - lo;
  }

  function Max(a: real, b: real): real { if a >= b then a else b }
  function Min(a: real, b: real): real { if a <= b then a else b }

  /**
   * The split/merger ratio of one row: larger over smaller of insider price
   * and market open when both are truthy, else 1.  NaN is truthy, so a
   * missing price makes the ratio NaN while a missing open makes it 1.
   */
  function SplitRatio(price: Option<real>, open: Option<real>): (r: Float)
    ensures r != Inf
    ensures price == Some(0.0) || open == Some(0.0) ==> r == Fin(1.0)
    ensures price.None? && open != Some(0.0) ==> r == NaN
    ensures price.Some? && price != Some(0.0) && open.None? ==> r == Fin(1.0)
    ensures price.Some? && open.Some? && price.value != 0.0 && open.value != 0.0 ==>
              r == Fin(Max(price.value, open.value) / Min(price.value, open.value))
    ensures price.Some? && open.Some? && price.value > 0.0 && open.value > 0.0 ==> r.Fin? && r.x >= 1.0
  {
    if Truthy(open) && Truthy(price) then
      assert price.Some? && open.None? ==> price.value / price.value == 1.0;
      var r := Quotient(PyMax(price, open), PyMin(price, open));
      if price.Some? && open.Some? && price.value > 0.0 && open.value > 0.0 then
        QuotientAtLeastOne(Max(price.value, open.value), Min(price.value, open.value));
        r
      else
        r
    else
      Fin(1.0)
  }

  /** `drop_split_merger_anomalies`: the rows whose ratio is `<=` the threshold (so NaN rows go). */
  function DropSplitMergerAnomalies(trades: seq<Trade>, threshold: real): seq<Trade>
  {
    Filter(trades, (t: Trade) => AtMost(SplitRatio(t.price, t.marketOpen), threshold))
  }

  /** The rows the split filter reports as anomalies: ratio `>` the threshold. */
  function SplitAnomalies(trades: seq<Trade>, threshold: real): seq<Trade>
  {
    Filter(trades, (t: Trade) => Above(SplitRatio(t.price, t.marketOpen), threshold))
  }

  /**
   * A row survives the split filter exactly when its ratio is at most the
   * threshold; the kept rows, the reported anomalies and the rows with a NaN
   * ratio (a missing insider price) account for every input row.
   */
  lemma SplitAccounting(trades: seq<Trade>, threshold: real)
    ensures forall t :: t in DropSplitMergerAnomalies(trades, threshold) <==>
                        t in trades && SplitRatio(t.price, t.marketOpen).Fin? && SplitRatio(t.price, t.marketOpen).x <= threshold
    ensures |DropSplitMergerAnomalies(trades, threshold)| + |SplitAnomalies(trades, threshold)| +
            |Filter(trades, (t: Trade) => SplitRatio(t.price, t.marketOpen) == NaN)| == |trades|
  {
    FilterThreeWay(trades, (t: Trade) => AtMost(SplitRatio(t.price, t.marketOpen), threshold),
                   (t: Trade) => Above(SplitRatio(t.price, t.marketOpen), threshold),
                   (t: Trade) => SplitRatio(t.price, t.marketOpen) == NaN);
  }

  /** With a threshold of at least 1, a row lacking its market open (or with a zero price or open) survives. */
  lemma MissingOpenSurvives(t: Trade, threshold: real)
    requires threshold >= 1.0
    requires t.price.Some? && (t.marketOpen.None? || t.marketOpen == Some(0.0) || t.price == Some(0.0))
    ensures DropSplitMergerAnomalies([t], threshold) == [t]
  {
  }

  /** A row lacking its insider price (and with a non-zero open) is dropped whatever the threshold. */
  lemma MissingPriceDropped(t: Trade, threshold: real)
    requires t.price.None? && t.marketOpen != Some(0.0)
    ensures DropSplitMergerAnomalies([t], threshold) == []
  {
  }

  /** The ratio does not depend on which of the two prices is the insider's. */
  lemma SplitRatioSymmetric(p: real, o: real)
    ensures SplitRatio(Some(p), Some(o)) == SplitRatio(Some(o), Some(p))
  {
  }
}
