/**
 * The numbers of the price filters as pandas holds them, and the two record
 * shapes they read: a trade row (ticker, trade day, insider price, market open,
 * ATR columns) and a daily price bar of the OHLC cache.
 */
module Market {
  import opened Wrappers

  /** A float cell: NaN (pandas' missing value), +infinity, or a finite value. */
  datatype Float = NaN | Inf | Fin(x: real)

  /** `v >= bound` on a float cell: NaN compares false, +infinity true. */
  predicate AtLeast(v: Float, bound: real)
  {
    v.Inf? || (v.Fin? && v.x >= bound)
  }

  /** `v < bound` on a float cell: NaN and +infinity compare false. */
  predicate Below(v: Float, bound: real)
  {
    v.Fin? && v.x < bound
  }

  /** `v <= bound` on a float cell: NaN and +infinity compare false. */
  predicate AtMost(v: Float, bound: real)
  {
    v.Fin? && v.x <= bound
  }

  /** `v > bound` on a float cell: NaN compares false, +infinity true. */
  predicate Above(v: Float, bound: real)
  {
    v.Inf? || (v.Fin? && v.x > bound)
  }

  /** Float division of a non-negative value: by zero it is +infinity, or NaN for 0 / 0. */
  function Divide(a: real, b: real): (q: Float)
    requires a >= 0.0
    ensures b != 0.0 <==> q.Fin?
    ensures b != 0.0 ==> q == Fin(a / b)
    ensures b == 0.0 ==> (q == Inf <==> a > 0.0)
  {
    if b != 0.0 then Fin(a / b) else if a > 0.0 then Inf else NaN
  }

  /** A non-negative value over a positive one is a finite, non-negative quotient that multiplies back. */
  lemma DivideByPositive(a: real, b: real)
    requires a >= 0.0 && b > 0.0
    ensures Divide(a, b).Fin? && Divide(a, b).x >= 0.0 && Divide(a, b).x * b == a
  {
    var q := a / b;
    assert q * b == a;
  }

  /** One trade row as the price filters see it; `None` is a missing (NaN) price. */
  datatype Trade = Trade(ticker: string, day: int, price: Option<real>, marketOpen: Option<real>, atr: Float, atrPct: Float)

  /** One daily bar of a ticker's OHLC series; `prev` is the `price_prev` column. */
  datatype Bar = Bar(day: int, open: real, high: real, low: real, close: real, volume: real, prev: Float)
}
