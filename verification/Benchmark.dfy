/** The equal-weight benchmark's loop and the drawdown scan (src/quant/research/etf/benchmark.py). */
module Benchmark {
  import opened Wrappers
  import opened Sums
  import opened Costs
  import opened Engines

  datatype PanelError = NoLegs | Misaligned | DivisionByZero

  /** Some leg has no price to grow from. */
  ghost predicate ZeroPriceBefore(p: Panel, t: nat)
    requires Aligned(p) && 0 < t < |p.dates|
  {
    exists s :: 0 <= s < |p.prices| && p.prices[s][t - 1] == 0.0
  }

  /** The drift loop: every leg moves with its own price. */
  method DriftLegs(p: Panel, before: seq<real>, t: nat) returns (r: Result<seq<real>, PanelError>)
    requires Aligned(p) && |before| == |p.prices| && 0 < t < |p.dates|
    ensures if ZeroPriceBefore(p, t) then r == Err(DivisionByZero) else r == Ok(Drift(p, before, t))
  {
    var legs := before;
    for s := 0 to |before|
      invariant |legs| == |before| && forall k :: 0 <= k < s ==> p.prices[k][t - 1] != 0.0
      invariant forall k :: 0 <= k < s ==> legs[k] == Drift(p, before, t)[k]
      invariant forall k :: s <= k < |legs| ==> legs[k] == before[k]
    {
      if p.prices[s][t - 1] == 0.0 {
        return Err(DivisionByZero);
      }
      legs := legs[s := legs[s] * (p.prices[s][t] / p.prices[s][t - 1])];
    }
    assert legs == Drift(p, before, t);
    return Ok(legs);
  }

  method Total(legs: seq<real>) returns (total: real)
    ensures total == Sum(legs)
  {
    total := 0.0;
    for s := 0 to |legs|
      invariant total == SumTo(legs, s)
    {
      total := total + legs[s];
    }
  }

  /** Trade every leg to the same target, one after the other, adding up what the trades cost. */
  method TradeAll(m: CostModel, before: seq<real>, target: real) returns (legs: seq<real>, cost: real)
    requires |before| == |m.legs|
    ensures legs == Repeat(target, |before|) && cost == Sum(AllCosts(m, before, legs))
  {
    ghost var costs := AllCosts(m, before, Repeat(target, |before|));
    legs, cost := before, 0.0;
    for s := 0 to |before|
      invariant |legs| == |before| && cost == SumTo(costs, s)
      invariant forall k :: 0 <= k < s ==> legs[k] == target
      invariant forall k :: s <= k < |legs| ==> legs[k] == before[k]
    {
      var delta := target - legs[s];
      var side := if delta > 0.0 then Buy else Sell;
      cost := cost + TradeCostOf(m, s, Abs(delta), side).Total();
      legs := legs[s := target];
    }
    assert legs == Repeat(target, |before|);
  }

  /** One month end: trade to the equal target, then take the cost out of all legs alike. */
  method Rebalance(m: CostModel, h: Holding) returns (after: Holding)
    requires |h.legs| == |m.legs| > 0 && h.value != 0.0
    ensures after == EwRebalance(m, h)
  {
    var n := |h.legs|;
    var target := h.value / n as real;
    var legs, cost := TradeAll(m, h.legs, target);
    var value, total := h.value - cost, target * n as real;
    EqualTargetSums(h.value, n);
    assert total == h.value;
    var scale := value / total;
    after := Holding(TimesEach(legs, scale), value);
    BothSettle(m, h);
    assert after == Settle(legs, h.value, value);
  }

  /** Session t divides by zero: a price before it is zero, or a portfolio to be rebalanced is worth nothing. */
  ghost predicate DividesByZero(p: Panel, m: CostModel, capital: real, t: nat)
    requires Setup(p, m) && |m.legs| > 0 && 0 < t < |p.dates|
  {
    ZeroPriceBefore(p, t) || (IsMonthEnd(p.dates, t) && EwDrift(p, EwRun(p, m, capital, t - 1), t).value == 0.0)
  }

  /** One session: drift, and rebalance at a month end. */
  method Session(p: Panel, m: CostModel, ghost capital: real, h: Holding, t: nat)
    returns (r: Result<Holding, PanelError>)
    requires Setup(p, m) && |m.legs| > 0 && 0 < t < |p.dates| && h == EwRun(p, m, capital, t - 1)
    ensures if DividesByZero(p, m, capital, t) then r == Err(DivisionByZero) else r == Ok(EwRun(p, m, capital, t))
  {
    var legs := DriftLegs(p, h.legs, t);
    if legs.Err? {
      return Err(legs.error);
    }
    var portfolio := Total(legs.value);
    var after := Holding(legs.value, portfolio);
    if IsMonthEnd(p.dates, t) {
      if portfolio == 0.0 {
        return Err(DivisionByZero);
      }
      after := Rebalance(m, after);
    }
    return Ok(after);
  }

  ghost predicate CleanThrough(p: Panel, m: CostModel, capital: real, n: nat)
    requires Setup(p, m) && |m.legs| > 0 && (n > 1 ==> n <= |p.dates|)
  {
    forall t: nat :: 0 < t < n ==> !DividesByZero(p, m, capital, t)
  }

  /** The points of the curve: no dates at all still give one, where the backtest gives none. */
  ghost function Points(p: Panel): nat {
    if |p.dates| == 0 then 1 else |p.dates|
  }

  /** The benchmark equity curve, or a division by zero at the first session that meets one. */
  method EqualWeightRebalanced(p: Panel, m: CostModel, capital: real) returns (r: Result<seq<real>, PanelError>)
    requires |p.prices| == |m.legs|
    ensures r == Err(NoLegs) <==> |p.prices| == 0
    ensures r == Err(Misaligned) <==> |p.prices| > 0 && !Aligned(p)
    ensures r == Err(DivisionByZero) <==> |p.prices| > 0 && Aligned(p) && !CleanThrough(p, m, capital, Points(p))
    ensures r.Ok? ==> r.value == EwCurve(p, m, capital, Points(p))
  {
    var n := |p.prices|;
    if n == 0 {
      return Err(NoLegs);
    }
    if s :| 0 <= s < n && |p.prices[s]| != |p.dates| {
      return Err(Misaligned);
    }
    var initCosts := BuyCosts(m, capital / n as real, n);
    var initCost := Total(initCosts);
    var value := capital - initCost;
    var h := Holding(Repeat(value / n as real, n), value);
    var equity := [h.value];
    var t := 1;
    while t < |p.dates|
      invariant 1 <= t && (t == 1 || t <= |p.dates|)
      invariant h == EwRun(p, m, capital, t - 1) && CleanThrough(p, m, capital, t)
      invariant equity == EwCurve(p, m, capital, t)
    {
      var next := Session(p, m, capital, h, t);
      if next.Err? {
        return Err(next.error);
      }
      h := next.value;
      equity := equity + [h.value];
      t := t + 1;
    }
    return Ok(equity);
  }

  /** A solvent benchmark divides by nothing that is zero. */
  lemma SolventIsClean(p: Panel, m: CostModel, capital: real)
    requires Setup(p, m) && |m.legs| > 0 && |p.dates| > 0 && Solvent(p, m, capital)
    ensures CleanThrough(p, m, capital, Points(p))
  {
    forall t: nat | 0 < t < |p.dates| ensures !DividesByZero(p, m, capital, t) {
      EwPositive(p, m, capital, t - 1);
    }
  }

  // ---- drawdown ----

  datatype DrawdownError = NoPoints | ZeroPeak

  /** The highest value up to bar k. */
  ghost function Peak(v: seq<real>, k: nat): (r: real)
    requires k < |v|
    ensures forall i :: 0 <= i <= k ==> v[i] <= r
    ensures exists i :: 0 <= i <= k && v[i] == r
  {
    if k == 0 then v[0] else Max(Peak(v, k - 1), v[k])
  }

  ghost function FromPeak(v: seq<real>, k: nat): real
    requires k < |v| && Peak(v, k) != 0.0
  {
    v[k] / Peak(v, k) - 1.0
  }

  ghost predicate PeaksNonZero(v: seq<real>, n: nat)
    requires n <= |v|
  {
    forall k: nat :: k < n ==> Peak(v, k) != 0.0
  }

  /** The worst change from the running peak over the first n bars, 0 when none is below it. */
  ghost predicate IsWorst(v: seq<real>, n: nat, worst: real)
    requires n <= |v| && PeaksNonZero(v, n)
  {
    && worst <= 0.0 && (forall k: nat :: k < n ==> worst <= FromPeak(v, k))
    && (worst == 0.0 || exists k: nat :: k < n && worst == FromPeak(v, k))
  }

  /** The running maximum is the peak, and the change from it is the change from the peak. */
  lemma NextPeak(v: seq<real>, k: nat, peak: real)
    requires k < |v| && PeaksNonZero(v, k) && peak != 0.0
    requires peak == if k == 0 then v[0] else Max(Peak(v, k - 1), v[k])
    ensures PeaksNonZero(v, k + 1) && Peak(v, k) == peak && FromPeak(v, k) == v[k] / peak - 1.0
  {
  }

  lemma WorstNext(v: seq<real>, k: nat, worst: real)
    requires k < |v| && PeaksNonZero(v, k + 1) && IsWorst(v, k, worst)
    ensures IsWorst(v, k + 1, Min(worst, FromPeak(v, k)))
  {
    if worst != 0.0 {
      var i: nat :| i < k && worst == FromPeak(v, i);
      assert i < k + 1 && worst == FromPeak(v, i);
    }
  }

  method MaxDrawdown(v: seq<real>) returns (r: Result<real, DrawdownError>)
    ensures r == Err(NoPoints) <==> |v| == 0
    ensures r == Err(ZeroPeak) <==> |v| > 0 && !PeaksNonZero(v, |v|)
    ensures r.Ok? ==> PeaksNonZero(v, |v|) && IsWorst(v, |v|, r.value)
  {
    if |v| == 0 {
      return Err(NoPoints);
    }
    var peak := v[0];
    var worst := 0.0;
    for k := 0 to |v|
      invariant peak == if k == 0 then v[0] else Peak(v, k - 1)
      invariant PeaksNonZero(v, k) && IsWorst(v, k, worst)
    {
      peak := Max(peak, v[k]);
      if peak == 0.0 {
        assert Peak(v, k) == 0.0;
        return Err(ZeroPeak);
      }
      NextPeak(v, k, peak);
      WorstNext(v, k, worst);
      worst := Min(worst, v[k] / peak - 1.0);
    }
    return Ok(worst);
  }

  /** A path that starts above zero and never falls below it: it may fall all the way. */
  ghost predicate EquityPath(v: seq<real>) {
    |v| > 0 && v[0] > 0.0 && forall i :: 0 <= i < |v| ==> v[i] >= 0.0
  }

  /** The change from bar i to a later bar j, as a fraction. */
  ghost function Decline(v: seq<real>, i: nat, j: nat): real
    requires i <= j < |v| && v[i] != 0.0
  {
    v[j] / v[i] - 1.0
  }

  /** From a higher start the same end is a worse change. */
  lemma HigherStartIsWorse(low: real, high: real, end: real)
    requires 0.0 < low <= high && end >= 0.0
    ensures end / high - 1.0 <= end / low - 1.0
  {
    var a, b := end / low, end / high;
    Quotient(end, high);
    Quotient(end, low);
    FactorNonNegative(b, high);
    ProductNonNegative(b, high - low);
    assert (a - b) * low == b * (high - low);
    FactorNonNegative(a - b, low);
  }

  /** A change of a non-negative end from a start that is at least it lies in [-1, 0]. */
  lemma FallRange(start: real, end: real)
    requires start > 0.0 && 0.0 <= end
    ensures -1.0 <= end / start - 1.0 && (end / start - 1.0 < 0.0 <==> end < start)
    ensures (end / start - 1.0 == -1.0 <==> end == 0.0)
  {
    var r := end / start;
    Quotient(end, start);
    FactorNonNegative(r, start);
    if r < 1.0 {
      ProductPositive(1.0 - r, start, (1.0 - r) * start);
    } else {
      ProductNonNegative(r - 1.0, start);
    }
  }

  lemma WorstAt(v: seq<real>, i: nat, j: nat)
    requires EquityPath(v) && i <= j < |v| && v[i] > 0.0
    ensures Peak(v, j) > 0.0 && FromPeak(v, j) <= Decline(v, i, j)
  {
    HigherStartIsWorse(v[i], Peak(v, j), v[j]);
  }

  lemma NoChange(x: real)
    requires x != 0.0
    ensures x / x - 1.0 == 0.0
  {
    Quotient(x, x);
    CancelFactor(x / x, 1.0, x);
  }

  lemma WorstPair(v: seq<real>, worst: real) returns (from: nat, to: nat)
    requires EquityPath(v) && PeaksNonZero(v, |v|) && IsWorst(v, |v|, worst)
    ensures from <= to < |v| && v[from] > 0.0 && worst == Decline(v, from, to)
  {
    if worst == 0.0 {
      from, to := 0, 0;
      NoChange(v[0]);
    } else {
      to :| to < |v| && worst == FromPeak(v, to);
      from :| from <= to && v[from] == Peak(v, to);
      WorstAt(v, 0, to);
    }
  }

  /** On an equity path the running peak finds the worst change over every pair of bars. */
  lemma DrawdownOverPairs(v: seq<real>, worst: real)
    requires EquityPath(v) && PeaksNonZero(v, |v|) && IsWorst(v, |v|, worst)
    ensures forall i: nat, j: nat :: i <= j < |v| && v[i] > 0.0 ==> worst <= Decline(v, i, j)
    ensures exists i: nat, j: nat :: i <= j < |v| && v[i] > 0.0 && worst == Decline(v, i, j)
    ensures -1.0 <= worst <= 0.0 && (worst == -1.0 <==> exists i :: 0 <= i < |v| && v[i] == 0.0)
    ensures worst == 0.0 <==> forall i, j :: 0 <= i <= j < |v| ==> v[i] <= v[j]
  {
    forall i: nat, j: nat | i <= j < |v| && v[i] > 0.0
      ensures worst <= Decline(v, i, j) && -1.0 <= Decline(v, i, j)
      ensures (Decline(v, i, j) < 0.0 <==> v[j] < v[i]) && (Decline(v, i, j) == -1.0 <==> v[j] == 0.0)
    {
      WorstAt(v, i, j);
      FallRange(v[i], v[j]);
    }
    var from, to := WorstPair(v, worst);
    assert worst == Decline(v, from, to);
    if i :| 0 <= i < |v| && v[i] == 0.0 {
      assert worst <= Decline(v, 0, i);
    }
  }

  lemma BelowPeak(value: real, peak: real)
    requires value <= peak && peak != 0.0
    ensures value / peak - 1.0 < 0.0 <==> value != peak && peak > 0.0
  {
    var r := value / peak;
    Quotient(value, peak);
    if r < 1.0 && peak < 0.0 {
      ProductPositive(1.0 - r, -peak, (1.0 - r) * -peak);
    } else if r >= 1.0 && peak > 0.0 {
      ProductNonNegative(r - 1.0, peak);
    }
  }

  /** In general no drawdown is reported exactly where no bar is below its peak, or the peak is itself negative. */
  lemma NoDrawdownIff(v: seq<real>, worst: real)
    requires PeaksNonZero(v, |v|) && IsWorst(v, |v|, worst)
    ensures worst == 0.0 <==> forall k: nat :: k < |v| ==> v[k] == Peak(v, k) || Peak(v, k) < 0.0
  {
    forall k: nat | k < |v| ensures FromPeak(v, k) < 0.0 <==> v[k] != Peak(v, k) && Peak(v, k) > 0.0 {
      BelowPeak(v[k], Peak(v, k));
    }
  }

  /** For one, a path that doubles its debt shows no drawdown. */
  lemma FallBelowZeroUnseen()
    ensures PeaksNonZero([-1.0, -2.0], 2) && IsWorst([-1.0, -2.0], 2, 0.0)
    ensures forall worst :: IsWorst([-1.0, -2.0], 2, worst) ==> worst == 0.0
  {
    var v := [-1.0, -2.0];
    assert Peak(v, 0) == -1.0 && Peak(v, 1) == -1.0;
    assert FromPeak(v, 0) == 0.0 && FromPeak(v, 1) == 1.0;
    forall worst | IsWorst(v, 2, worst) ensures worst == 0.0 {
      NoDrawdownIff(v, worst);
    }
  }
}
