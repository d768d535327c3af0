/**
 * The risk-to-reward arithmetic of the trade summary: for each profit target
 * the reward of reaching it is divided by the risk of being stopped out; no
 * risk makes every ratio infinite and a target at or below the entry gives 0.
 */
module Summary {
  import opened Wrappers

  /** A ratio is a finite real or `float("inf")`. */
  datatype Ratio = Finite(r: real) | Infinity

  /** Risk of a position: what is lost between entry and stop on every share. */
  function Risk(entry: real, stop: real, numStocks: int): real
  {
    (entry - stop) * numStocks as real
  }

  /** Reward of a position: what is gained between entry and target on every share. */
  function Reward(target: real, entry: real, numStocks: int): real
  {
    (target - entry) * numStocks as real
  }

  /** The ratio `calculate_rrr` reports for one target. */
  function RatioFor(target: real, entry: real, stop: real, numStocks: int): (ratio: Ratio)
    ensures ratio == Infinity <==> Risk(entry, stop, numStocks) <= 0.0
    ensures ratio.Finite? ==> ratio.r >= 0.0
    ensures ratio.Finite? ==> (ratio.r > 0.0 <==> Reward(target, entry, numStocks) > 0.0)
    ensures ratio.Finite? ==> ratio.r * Risk(entry, stop, numStocks) == if Reward(target, entry, numStocks) > 0.0 then Reward(target, entry, numStocks) else 0.0
  {
    var risk := Risk(entry, stop, numStocks);
    if risk <= 0.0 then Infinity
    else
      var reward := Reward(target, entry, numStocks);
      if reward > 0.0 then Finite(reward / risk) else Finite(0.0)
  }

  /**
   * `calculate_rrr`: one ratio per target percentage, all infinite when the
   * risk is not positive.
   */
  method CalculateRrr(targets: map<int, real>, entry: real, stop: real, numStocks: int) returns (ratios: map<int, Ratio>)
    ensures ratios.Keys == targets.Keys
    ensures forall pct :: pct in targets ==> ratios[pct] == RatioFor(targets[pct], entry, stop, numStocks)
    ensures Risk(entry, stop, numStocks) <= 0.0 ==> forall pct :: pct in ratios ==> ratios[pct] == Infinity
  {
    var risk := (entry - stop) * numStocks as real;
    if risk <= 0.0 {
      return map pct | pct in targets :: Infinity;
    }
    ratios := map[];
    var todo := targets.Keys;
    while todo != {}
      invariant todo <= targets.Keys
      invariant ratios.Keys == targets.Keys - todo
      invariant forall pct :: pct in ratios ==> ratios[pct] == RatioFor(targets[pct], entry, stop, numStocks)
      decreases |todo|
    {
      NonEmptyHasElement(todo);
      var pct :| pct in todo;
      var reward := (targets[pct] - entry) * numStocks as real;
      ratios := ratios[pct := if reward > 0.0 then Finite(reward / risk) else Finite(0.0)];
      todo := todo - {pct};
    }
  }

  /** A non-empty set of target percentages has an element to pick. */
  lemma NonEmptyHasElement(s: set<int>)
    requires s != {}
    ensures exists x :: x in s
  {
    if forall x :: x !in s {
    }
  }

  /** The three profit targets of the summary, keyed by their percentage: +15%, +17% and +20%. */
  function Targets(price: real): (targets: map<int, real>)
    ensures targets.Keys == {15, 17, 20}
    ensures forall pct :: pct in targets ==> targets[pct] == price * (1.0 + pct as real / 100.0)
  {
    map[15 := price * 1.15, 17 := price * 1.17, 20 := price * 1.20]
  }

  /** The stop-loss sits 10% under the insider's price. */
  function StopTarget(price: real): (stop: real)
    ensures price > 0.0 ==> stop < price
    ensures stop == price - price / 10.0
  {
    price * 0.90
  }

  /** Net gain after tax of selling at `target`: `(target - entry) * num_stocks * (1 - tax_rate)`. */
  function NetGain(target: real, entry: real, numStocks: int, taxRate: real): (net: real)
    ensures 0.0 <= taxRate <= 1.0 && Reward(target, entry, numStocks) >= 0.0 ==> 0.0 <= net <= Reward(target, entry, numStocks)
    ensures taxRate < 1.0 ==> (net > 0.0 <==> Reward(target, entry, numStocks) > 0.0)
  {
    var gross := Reward(target, entry, numStocks);
    assert taxRate < 1.0 ==> (gross * (1.0 - taxRate) > 0.0 <==> gross > 0.0) by {
      if taxRate < 1.0 { PositiveFactor(gross, 1.0 - taxRate); }
    }
    assert 0.0 <= taxRate <= 1.0 && gross >= 0.0 ==> gross * (1.0 - taxRate) <= gross by {
      if 0.0 <= taxRate <= 1.0 && gross >= 0.0 { assert gross - gross * (1.0 - taxRate) == gross * taxRate; }
    }
    gross * (1.0 - taxRate)
  }

  lemma PositiveFactor(x: real, y: real)
    requires y > 0.0
    ensures x * y > 0.0 <==> x > 0.0
  {
    if x > 0.0 { assert x * y > 0.0; }
    else { assert x * y <= 0.0 by { assert (-x) * y >= 0.0; } }
  }

  /**
   * The gains loop of one setup (insider or trader): for each target the
   * target price and the net gain of reaching it.
   */
  method SetupGains(targets: map<int, real>, entry: real, numStocks: int, taxRate: real) returns (gains: map<int, (real, real)>)
    ensures gains.Keys == targets.Keys
    ensures forall pct :: pct in targets ==> gains[pct] == (targets[pct], NetGain(targets[pct], entry, numStocks, taxRate))
  {
    gains := map[];
    var todo := targets.Keys;
    while todo != {}
      invariant todo <= targets.Keys
      invariant gains.Keys == targets.Keys - todo
      invariant forall pct :: pct in gains ==> gains[pct] == (targets[pct], NetGain(targets[pct], entry, numStocks, taxRate))
      decreases |todo|
    {
      NonEmptyHasElement(todo);
      var pct :| pct in todo;
      var gross := (targets[pct] - entry) * numStocks as real;
      var net := gross * (1.0 - taxRate);
      assert net == NetGain(targets[pct], entry, numStocks, taxRate);
      gains := gains[pct := (targets[pct], net)];
      todo := todo - {pct};
    }
  }

  /** `pct_change_insider`: percentage move of the current price over the insider's; undefined for a zero insider price. */
  function PctChange(insiderPrice: real, currentPrice: real): (change: Option<real>)
    ensures change.None? <==> insiderPrice == 0.0
    ensures change.Some? ==> change.value * insiderPrice == (currentPrice - insiderPrice) * 100.0
    ensures change.Some? && insiderPrice > 0.0 ==> (change.value > 0.0 <==> currentPrice > insiderPrice)
  {
    if insiderPrice == 0.0 then None
    else
      var c := ((currentPrice - insiderPrice) / insiderPrice) * 100.0;
      assert insiderPrice > 0.0 ==> (c > 0.0 <==> currentPrice > insiderPrice) by {
        if insiderPrice > 0.0 {
          assert c * insiderPrice == (currentPrice - insiderPrice) * 100.0;
          PositiveFactor(c, insiderPrice);
        }
      }
      Some(c)
  }

  /** With a positive size and the entry strictly between stop and target, the ratio is the per-share gain over the per-share loss. */
  lemma RatioPerShare(target: real, entry: real, stop: real, numStocks: int)
    requires numStocks > 0 && stop < entry < target
    ensures RatioFor(target, entry, stop, numStocks) == Finite((target - entry) / (entry - stop))
  {
    var n := numStocks as real;
    PositiveFactor(entry - stop, n);
    PositiveFactor(target - entry, n);
    CancelFactor(target - entry, entry - stop, n);
  }

  /**
   * At the insider's own entry, with the +15/+17/+20% targets and the 10%
   * stop, the ratios are exactly 1.5, 1.7 and 2.0 whatever the price and the
   * size, as long as both are positive.
   */
  lemma InsiderRatios(price: real, numStocks: int)
    requires price > 0.0 && numStocks > 0
    ensures RatioFor(Targets(price)[15], price, StopTarget(price), numStocks) == Finite(1.5)
    ensures RatioFor(Targets(price)[17], price, StopTarget(price), numStocks) == Finite(1.7)
    ensures RatioFor(Targets(price)[20], price, StopTarget(price), numStocks) == Finite(2.0)
  {
    var stop := StopTarget(price);
    assert price - stop == price / 10.0;
    var t := Targets(price);
    assert t[15] == price * 1.15 && t[17] == price * 1.17 && t[20] == price * 1.20;
    RatioPerShare(t[15], price, stop, numStocks);
    RatioPerShare(t[17], price, stop, numStocks);
    RatioPerShare(t[20], price, stop, numStocks);
    assert (t[15] - price) / (price / 10.0) == 1.5 by { assert t[15] - price == 1.5 * (price / 10.0); }
    assert (t[17] - price) / (price / 10.0) == 1.7 by { assert t[17] - price == 1.7 * (price / 10.0); }
    assert (t[20] - price) / (price / 10.0) == 2.0 by { assert t[20] - price == 2.0 * (price / 10.0); }
  }

  /** Without shares there is no risk: every ratio is infinite. */
  lemma NoSharesIsInfinite(target: real, entry: real, stop: real)
    ensures RatioFor(target, entry, stop, 0) == Infinity
  {
  }

  /**
   * A trader entering later, at a higher price than an earlier entry but
   * still above the stop, never gets a better ratio for the same target.
   */
  lemma LaterEntryNoBetter(target: real, early: real, late: real, stop: real, numStocks: int)
    requires numStocks > 0 && stop < early <= late
    ensures RatioFor(target, late, stop, numStocks).Finite? && RatioFor(target, early, stop, numStocks).Finite?
    ensures RatioFor(target, late, stop, numStocks).r <= RatioFor(target, early, stop, numStocks).r
  {
    var n := numStocks as real;
    PositiveFactor(early - stop, n);
    PositiveFactor(late - stop, n);
    if target > late {
      RatioPerShare(target, late, stop, numStocks);
      RatioPerShare(target, early, stop, numStocks);
      ShrinkingRatio(target, early, late, stop);
    } else {
      PositiveFactor(target - late, n);
    }
  }

  lemma ShrinkingRatio(t: real, e: real, l: real, s: real)
    requires s < e <= l < t
    ensures (t - l) / (l - s) <= (t - e) / (e - s)
  {
    var a := (t - l) / (l - s);
    var b := (t - e) / (e - s);
    assert (t - e) * (l - s) - (t - l) * (e - s) == (l - e) * (t - s);
    assert (l - e) * (t - s) >= 0.0;
    assert a * (l - s) == t - l;
    assert b * (e - s) == t - e;
    assert a * ((l - s) * (e - s)) <= b * ((e - s) * (l - s));
    DivideOut(a, b, (l - s) * (e - s));
  }

  lemma CancelFactor(x: real, y: real, n: real)
    requires y > 0.0 && n > 0.0
    ensures (x * n) / (y * n) == x / y
  {
    assert (x / y) * (y * n) == x * n;
  }

  lemma DivideOut(a: real, b: real, c: real)
    requires c > 0.0 && a * c <= b * c
    ensures a <= b
  {
    assert (b - a) * c >= 0.0;
  }
}
