/**
 * The two noise-reduction stages of the pipeline, as compositions of the
 * cleaner's filters: before OHLC enrichment, trades are kept by ticker;
 * after it, every trade gets its ATR and the split/merger and low-ATR
 * filters run in turn.
 */
module NoiseHandler {
  import opened Wrappers
  import opened Seqs
  import opened Market
  import opened Cleaner
  import opened DataPreparation

  function Ticker(t: Trade): string { t.ticker }

  /**
   * `pre_ohlc_filter`: the distinct tickers of the trades go through the
   * ticker prefilter, and the trades whose ticker passed are kept, in order.
   */
  function PreOhlcFilter(trades: seq<Trade>, snapshots: map<string, Option<Float>>,
                         ipoTickers: set<string>, noCapTickers: set<string>, minCap: real): seq<Trade>
  {
    var valid := ValidTickers(Distinct(Map(trades, Ticker)), snapshots, ipoTickers + noCapTickers, minCap);
    Filter(trades, (t: Trade) => t.ticker in valid)
  }

  /** The per-ticker test of the prefilter: no reason to drop the ticker. */
  predicate TickerPasses(snapshots: map<string, Option<Float>>, exclude: set<string>, minCap: real, t: Trade)
  {
    DropReasonOf(snapshots, exclude, minCap, t.ticker).None?
  }

  /**
   * The prefilter keeps exactly the trades whose own ticker passes, in input
   * order: the detour through the distinct tickers changes nothing.
   */
  lemma PreOhlcFilterByTicker(trades: seq<Trade>, snapshots: map<string, Option<Float>>,
                              ipoTickers: set<string>, noCapTickers: set<string>, minCap: real)
    ensures PreOhlcFilter(trades, snapshots, ipoTickers, noCapTickers, minCap) ==
            Filter(trades, (t: Trade) => TickerPasses(snapshots, ipoTickers + noCapTickers, minCap, t))
  {
    var exclude := ipoTickers + noCapTickers;
    var tickers := Distinct(Map(trades, Ticker));
    var valid := ValidTickers(tickers, snapshots, exclude, minCap);
    forall i | 0 <= i < |trades|
      ensures (trades[i].ticker in valid) == TickerPasses(snapshots, exclude, minCap, trades[i])
    {
      assert Map(trades, Ticker)[i] == trades[i].ticker;
      assert trades[i].ticker in tickers;
    }
    FilterExtOn(trades, (t: Trade) => t.ticker in valid, (t: Trade) => TickerPasses(snapshots, exclude, minCap, t));
  }

  /** All trades of one ticker are kept or dropped together. */
  lemma PreOhlcFilterSameTickerSameFate(trades: seq<Trade>, snapshots: map<string, Option<Float>>,
                                        ipoTickers: set<string>, noCapTickers: set<string>, minCap: real,
                                        a: Trade, b: Trade)
    requires a in trades && b in trades && a.ticker == b.ticker
    ensures a in PreOhlcFilter(trades, snapshots, ipoTickers, noCapTickers, minCap) <==>
            b in PreOhlcFilter(trades, snapshots, ipoTickers, noCapTickers, minCap)
  {
    PreOhlcFilterByTicker(trades, snapshots, ipoTickers, noCapTickers, minCap);
  }

  /**
   * The prefilter works batch by batch: filtering two batches together gives
   * the two filtered batches one after the other, so the order of the kept
   * trades is their input order.
   */
  lemma PreOhlcFilterConcat(a: seq<Trade>, b: seq<Trade>, snapshots: map<string, Option<Float>>,
                            ipoTickers: set<string>, noCapTickers: set<string>, minCap: real)
    ensures PreOhlcFilter(a + b, snapshots, ipoTickers, noCapTickers, minCap) ==
            PreOhlcFilter(a, snapshots, ipoTickers, noCapTickers, minCap) + PreOhlcFilter(b, snapshots, ipoTickers, noCapTickers, minCap)
  {
    PreOhlcFilterByTicker(a + b, snapshots, ipoTickers, noCapTickers, minCap);
    PreOhlcFilterByTicker(a, snapshots, ipoTickers, noCapTickers, minCap);
    PreOhlcFilterByTicker(b, snapshots, ipoTickers, noCapTickers, minCap);
    FilterConcat(a, b, (t: Trade) => TickerPasses(snapshots, ipoTickers + noCapTickers, minCap, t));
  }

  /**
   * `post_ohlc_filter`: ATR over 14 days, then the split/merger filter, then
   * the ATR% floor.
   */
  function PostOhlcFilter(trades: seq<Trade>, series: map<string, seq<Bar>>, splitThreshold: real, minAtrPct: real): seq<Trade>
  {
    DropLowAtrTrades(DropSplitMergerAnomalies(WithAtr(trades, series, ATR_WINDOW), splitThreshold), minAtrPct)
  }

  /** The two row tests the post-OHLC stage applies. */
  predicate PassesPostFilters(t: Trade, splitThreshold: real, minAtrPct: real)
  {
    AtMost(SplitRatio(t.price, t.marketOpen), splitThreshold) && AtLeast(t.atrPct, minAtrPct)
  }

  /**
   * The post-OHLC stage is a single filter by the conjunction of the two
   * tests over the ATR-enriched trades, and the two filters commute.
   */
  lemma PostOhlcFilterIsConjunction(trades: seq<Trade>, series: map<string, seq<Bar>>, splitThreshold: real, minAtrPct: real)
    ensures PostOhlcFilter(trades, series, splitThreshold, minAtrPct) ==
            Filter(WithAtr(trades, series, ATR_WINDOW), (t: Trade) => PassesPostFilters(t, splitThreshold, minAtrPct))
    ensures PostOhlcFilter(trades, series, splitThreshold, minAtrPct) ==
            DropSplitMergerAnomalies(DropLowAtrTrades(WithAtr(trades, series, ATR_WINDOW), minAtrPct), splitThreshold)
  {
    var enriched := WithAtr(trades, series, ATR_WINDOW);
    var split := (t: Trade) => AtMost(SplitRatio(t.price, t.marketOpen), splitThreshold);
    var atr := (t: Trade) => AtLeast(t.atrPct, minAtrPct);
    FilterFilter(enriched, split, atr, (t: Trade) => PassesPostFilters(t, splitThreshold, minAtrPct));
  }

  /**
   * A trade survives the post-OHLC stage exactly when its ATR-enriched row
   * has a split ratio at most the threshold and an ATR% at least the floor.
   */
  lemma PostOhlcFilterRows(trades: seq<Trade>, series: map<string, seq<Bar>>, splitThreshold: real, minAtrPct: real)
    ensures forall t :: t in PostOhlcFilter(trades, series, splitThreshold, minAtrPct) <==>
              t in WithAtr(trades, series, ATR_WINDOW) &&
              SplitRatio(t.price, t.marketOpen).Fin? && SplitRatio(t.price, t.marketOpen).x <= splitThreshold &&
              AtLeast(t.atrPct, minAtrPct)
  {
    PostOhlcFilterIsConjunction(trades, series, splitThreshold, minAtrPct);
  }

  /** A trade with no ATR (no series, no bar on its day, too short a history) never survives. */
  lemma PostOhlcFilterNeedsAtr(trades: seq<Trade>, series: map<string, seq<Bar>>, splitThreshold: real, minAtrPct: real, i: int)
    requires 0 <= i < |trades|
    requires AtrCells(trades[i], series, ATR_WINDOW).1 == NaN
    ensures WithAtr(trades, series, ATR_WINDOW)[i] !in PostOhlcFilter(trades, series, splitThreshold, minAtrPct)
  {
    PostOhlcFilterRows(trades, series, splitThreshold, minAtrPct);
  }
}
