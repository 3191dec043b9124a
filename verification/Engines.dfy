/**
 * The two ETF rebalancing engines: the equal-weight benchmark (src/quant/research/etf/benchmark.py) and
 * the weighted backtest (src/quant/research/etf/rotation.py). Symbols are numbered in the panel's order.
 */
module Engines {
  import opened Wrappers
  import opened Sums
  import opened Costs

  /** What is held in each leg, and the portfolio value. */
  datatype Holding = Holding(legs: seq<real>, value: real)

  datatype Date = Date(year: int, month: int, day: int)

  datatype Panel = Panel(dates: seq<Date>, prices: seq<seq<real>>)

  ghost predicate Aligned(p: Panel) {
    forall s :: 0 <= s < |p.prices| ==> |p.prices[s]| == |p.dates|
  }

  ghost predicate PositivePrices(p: Panel)
    requires Aligned(p)
  {
    forall s, t :: 0 <= s < |p.prices| && 0 <= t < |p.dates| ==> p.prices[s][t] > 0.0
  }

  // ---- month ends ----

  predicate IsMonthEnd(dates: seq<Date>, i: nat)
    requires i < |dates|
  {
    i + 1 == |dates| || dates[i + 1].year != dates[i].year || dates[i + 1].month != dates[i].month
  }

  ghost predicate SameMonth(a: Date, b: Date) {
    (a.year, a.month) == (b.year, b.month)
  }

  ghost predicate NoLater(a: Date, b: Date) {
    a.year < b.year || (a.year == b.year && (a.month < b.month || (a.month == b.month && a.day <= b.day)))
  }

  ghost predicate Chronological(dates: seq<Date>) {
    forall i, j :: 0 <= i < j < |dates| ==> NoLater(dates[i], dates[j])
  }

  /** On ascending dates a month end is a session after which no other session of its month comes. */
  lemma MonthEndIsLast(dates: seq<Date>, i: nat)
    requires Chronological(dates) && i < |dates|
    ensures IsMonthEnd(dates, i) <==> forall j :: i < j < |dates| ==> !SameMonth(dates[i], dates[j])
  {
    if i + 1 < |dates| && !SameMonth(dates[i], dates[i + 1]) {
      forall j | i < j < |dates| ensures !SameMonth(dates[i], dates[j]) {
        assert NoLater(dates[i], dates[i + 1]) && (j > i + 1 ==> NoLater(dates[i + 1], dates[j]));
      }
    }
  }

  method MonthEndIndices(dates: seq<Date>) returns (out: seq<nat>)
    ensures forall i: nat :: i in out <==> i < |dates| && IsMonthEnd(dates, i)
    ensures forall a, b :: 0 <= a < b < |out| ==> out[a] < out[b]
  {
    out := [];
    for i := 0 to |dates|
      invariant forall j: nat :: j in out <==> j < i && IsMonthEnd(dates, j)
      invariant forall a :: 0 <= a < |out| ==> out[a] < i
      invariant forall a, b :: 0 <= a < b < |out| ==> out[a] < out[b]
    {
      if IsMonthEnd(dates, i) {
        out := out + [i];
      }
    }
  }

  // ---- one session's drift, and one rebalance ----

  /** Quotient, with the value the code never reaches given as 1: see `Solvent`. */
  function Over(a: real, b: real): real {
    if b == 0.0 then 1.0 else a / b
  }

  function Growth(p: Panel, s: nat, t: nat): real
    requires Aligned(p) && s < |p.prices| && 0 < t < |p.dates|
  {
    Over(p.prices[s][t], p.prices[s][t - 1])
  }

  function Drift(p: Panel, legs: seq<real>, t: nat): (r: seq<real>)
    requires Aligned(p) && |legs| == |p.prices| && 0 < t < |p.dates|
    ensures |r| == |legs| && forall s :: 0 <= s < |r| ==> r[s] == Prod(legs[s], Growth(p, s, t))
  {
    seq(|legs|, s requires 0 <= s < |legs| => Prod(legs[s], Growth(p, s, t)))
  }

  /** Cost of moving one leg by delta: buying when positive, otherwise selling. */
  function LegCost(m: CostModel, s: nat, delta: real): real
    requires s < |m.legs|
  {
    TradeCostOf(m, s, Abs(delta), if delta > 0.0 then Buy else Sell).Total()
  }

  function Negligible(delta: real): bool {
    Abs(delta) < 0.000000001
  }

  /** What the benchmark pays per leg. */
  function AllCosts(m: CostModel, legs: seq<real>, target: seq<real>): (r: seq<real>)
    requires |legs| == |target| == |m.legs|
    ensures |r| == |legs| && forall s :: 0 <= s < |r| ==> r[s] == LegCost(m, s, target[s] - legs[s])
  {
    seq(|legs|, s requires 0 <= s < |legs| => LegCost(m, s, target[s] - legs[s]))
  }

  /** What the backtest pays per leg: nothing for a negligible move. */
  function PaidCosts(m: CostModel, legs: seq<real>, target: seq<real>): (r: seq<real>)
    requires |legs| == |target| == |m.legs|
    ensures |r| == |legs|
    ensures forall s :: 0 <= s < |r| ==>
      r[s] == if Negligible(target[s] - legs[s]) then 0.0 else LegCost(m, s, target[s] - legs[s])
  {
    seq(|legs|, s requires 0 <= s < |legs| =>
      if Negligible(target[s] - legs[s]) then 0.0 else LegCost(m, s, target[s] - legs[s]))
  }

  /** The cost of the moves the backtest skips. */
  function SkippedCosts(m: CostModel, legs: seq<real>, target: seq<real>): (r: seq<real>)
    requires |legs| == |target| == |m.legs|
    ensures |r| == |legs|
    ensures forall s :: 0 <= s < |r| ==>
      r[s] == if Negligible(target[s] - legs[s]) then LegCost(m, s, target[s] - legs[s]) else 0.0
  {
    seq(|legs|, s requires 0 <= s < |legs| =>
      if Negligible(target[s] - legs[s]) then LegCost(m, s, target[s] - legs[s]) else 0.0)
  }

  lemma CostsSplit(m: CostModel, legs: seq<real>, target: seq<real>)
    requires |legs| == |target| == |m.legs|
    ensures Sum(AllCosts(m, legs, target)) == Sum(PaidCosts(m, legs, target)) + Sum(SkippedCosts(m, legs, target))
  {
    SumToAdd(PaidCosts(m, legs, target), SkippedCosts(m, legs, target), AllCosts(m, legs, target), |legs|);
  }

  function TimesEach(v: seq<real>, x: real): (r: seq<real>)
    ensures |r| == |v| && forall s :: 0 <= s < |r| ==> r[s] == Prod(v[s], x)
  {
    seq(|v|, s requires 0 <= s < |v| => Prod(v[s], x))
  }

  /** Pay the costs, then hold the targets scaled to what is left. */
  function Settle(target: seq<real>, total: real, value: real): Holding {
    Holding(TimesEach(target, Over(value, total)), value)
  }

  function EqualTarget(value: real, n: nat): seq<real>
    requires n > 0
  {
    Repeat(value / n as real, n)
  }

  function EwRebalance(m: CostModel, h: Holding): Holding
    requires |h.legs| == |m.legs| > 0
  {
    var n := |h.legs|;
    var target := EqualTarget(h.value, n);
    Settle(target, h.value / n as real * n as real, h.value - Sum(AllCosts(m, h.legs, target)))
  }

  function BtRebalance(m: CostModel, h: Holding, w: seq<real>): Holding
    requires |h.legs| == |m.legs| == |w|
  {
    var target := TimesEach(w, h.value);
    Settle(target, Sum(target), h.value - Sum(PaidCosts(m, h.legs, target)))
  }

  // ---- the runs ----

  ghost predicate Setup(p: Panel, m: CostModel) {
    Aligned(p) && |p.prices| == |m.legs|
  }

  function BuyCosts(m: CostModel, value: real, n: nat): (r: seq<real>)
    requires n <= |m.legs|
    ensures |r| == n && forall s :: 0 <= s < n ==> r[s] == TradeCostOf(m, s, value, Buy).Total()
  {
    seq(n, s requires 0 <= s < n => TradeCostOf(m, s, value, Buy).Total())
  }

  function EwStart(m: CostModel, capital: real): Holding
    requires |m.legs| > 0
  {
    var n := |m.legs|;
    var value := capital - Sum(BuyCosts(m, capital / n as real, n));
    Holding(Repeat(value / n as real, n), value)
  }

  function EwDrift(p: Panel, h: Holding, t: nat): Holding
    requires Aligned(p) && |h.legs| == |p.prices| && 0 < t < |p.dates|
  {
    var legs := Drift(p, h.legs, t);
    Holding(legs, Sum(legs))
  }

  /** The benchmark after session t. */
  function EwRun(p: Panel, m: CostModel, capital: real, t: nat): (h: Holding)
    requires Setup(p, m) && |m.legs| > 0 && (t > 0 ==> t < |p.dates|)
    ensures |h.legs| == |m.legs|
  {
    if t == 0 then EwStart(m, capital)
    else
      var h := EwDrift(p, EwRun(p, m, capital, t - 1), t);
      if IsMonthEnd(p.dates, t) then EwRebalance(m, h) else h
  }

  function BtDrift(p: Panel, h: Holding, t: nat): Holding
    requires Aligned(p) && |h.legs| == |p.prices| && 0 < t < |p.dates|
  {
    var legs := Drift(p, h.legs, t);
    Holding(legs, if Sum(legs) != 0.0 then Sum(legs) else h.value)
  }

  ghost predicate Schedule(schedule: map<nat, seq<real>>, n: nat) {
    forall t :: t in schedule ==> |schedule[t]| == n
  }

  function BtStep(m: CostModel, h: Holding, schedule: map<nat, seq<real>>, t: nat): Holding
    requires |h.legs| == |m.legs| && Schedule(schedule, |m.legs|)
  {
    if t in schedule then BtRebalance(m, h, schedule[t]) else h
  }

  /** The backtest after session t. */
  function BtRun(p: Panel, m: CostModel, capital: real, schedule: map<nat, seq<real>>, t: nat): (h: Holding)
    requires Setup(p, m) && t < |p.dates| && Schedule(schedule, |m.legs|)
    ensures |h.legs| == |m.legs|
  {
    var h := if t == 0 then Holding(Repeat(0.0, |m.legs|), capital)
             else BtDrift(p, BtRun(p, m, capital, schedule, t - 1), t);
    BtStep(m, h, schedule, t)
  }

  /** The benchmark's first n portfolio values. */
  function EwCurve(p: Panel, m: CostModel, capital: real, n: nat): (r: seq<real>)
    requires Setup(p, m) && |m.legs| > 0 && (n > 1 ==> n <= |p.dates|)
    ensures |r| == n && forall t: nat :: t < n ==> r[t] == EwRun(p, m, capital, t).value
  {
    if n == 0 then [] else EwCurve(p, m, capital, n - 1) + [EwRun(p, m, capital, n - 1).value]
  }

  /** The backtest's first n portfolio values. */
  function BtCurve(p: Panel, m: CostModel, capital: real, schedule: map<nat, seq<real>>, n: nat): (r: seq<real>)
    requires Setup(p, m) && n <= |p.dates| && Schedule(schedule, |m.legs|)
    ensures |r| == n && forall t: nat :: t < n ==> r[t] == BtRun(p, m, capital, schedule, t).value
  {
    if n == 0 then [] else BtCurve(p, m, capital, schedule, n - 1) + [BtRun(p, m, capital, schedule, n - 1).value]
  }

  // ---- between rebalances a leg follows its price ----

  /** The leg has moved as its price has, from the one session to the other. */
  ghost predicate Follows(p: Panel, s: nat, from: nat, to: nat, before: real, after: real)
    requires Aligned(p) && s < |p.prices| && from < |p.dates| && to < |p.dates|
  {
    after * p.prices[s][from] == before * p.prices[s][to]
  }

  lemma DriftFollows(p: Panel, legs: seq<real>, t: nat, s: nat)
    requires Aligned(p) && |legs| == |p.prices| && 0 < t < |p.dates| && s < |legs| && p.prices[s][t - 1] != 0.0
    ensures Follows(p, s, t - 1, t, legs[s], Drift(p, legs, t)[s])
  {
    Quotient(p.prices[s][t], p.prices[s][t - 1]);
    assert legs[s] * (p.prices[s][t] / p.prices[s][t - 1]) * p.prices[s][t - 1] == legs[s] * p.prices[s][t];
  }

  lemma FollowsOn(p: Panel, s: nat, a: nat, b: nat, c: nat, x: real, y: real, z: real)
    requires Aligned(p) && s < |p.prices| && a < |p.dates| && b < |p.dates| && c < |p.dates|
    requires Follows(p, s, a, b, x, y) && Follows(p, s, b, c, y, z) && p.prices[s][b] != 0.0
    ensures Follows(p, s, a, c, x, z)
  {
    var pa, pb, pc := p.prices[s][a], p.prices[s][b], p.prices[s][c];
    assert (z * pa) * pb == (z * pb) * pa;
    assert (y * pc) * pa == (y * pa) * pc;
    assert (x * pb) * pc == (x * pc) * pb;
    CancelFactor(z * pa, x * pc, pb);
  }

  ghost predicate PricesNonZero(p: Panel, s: nat, from: nat, to: nat)
    requires Aligned(p) && s < |p.prices| && to < |p.dates|
  {
    forall t :: from <= t < to ==> p.prices[s][t] != 0.0
  }

  lemma BtUnscheduled(p: Panel, m: CostModel, capital: real, schedule: map<nat, seq<real>>, t: nat)
    requires Setup(p, m) && Schedule(schedule, |m.legs|) && 0 < t < |p.dates| && t !in schedule
    ensures BtRun(p, m, capital, schedule, t).legs == Drift(p, BtRun(p, m, capital, schedule, t - 1).legs, t)
  {
  }

  lemma EwOffMonthEnd(p: Panel, m: CostModel, capital: real, t: nat)
    requires Setup(p, m) && |m.legs| > 0 && 0 < t < |p.dates| && !IsMonthEnd(p.dates, t)
    ensures EwRun(p, m, capital, t).legs == Drift(p, EwRun(p, m, capital, t - 1).legs, t)
  {
  }

  /** A leg that only drifts follows its price; legs(t) is what is held at session t. */
  lemma {:induction false} DriftingFollows(p: Panel, legs: nat -> seq<real>, s: nat, from: nat, to: nat)
    requires Aligned(p) && s < |p.prices| && from <= to < |p.dates| && PricesNonZero(p, s, from, to)
    requires forall t: nat :: from <= t <= to ==> |legs(t)| == |p.prices|
    requires forall t: nat :: from < t <= to ==> legs(t) == Drift(p, legs(t - 1), t)
    ensures Follows(p, s, from, to, legs(from)[s], legs(to)[s])
  {
    if from < to {
      DriftingFollows(p, legs, s, from, to - 1);
      DriftFollows(p, legs(to - 1), to, s);
      FollowsOn(p, s, from, to - 1, to, legs(from)[s], legs(to - 1)[s], legs(to)[s]);
    }
  }

  ghost function BtLegs(p: Panel, m: CostModel, capital: real, schedule: map<nat, seq<real>>): (legs: nat -> seq<real>)
    requires Setup(p, m) && Schedule(schedule, |m.legs|)
    ensures forall t: nat :: t < |p.dates| ==> legs(t) == BtRun(p, m, capital, schedule, t).legs
  {
    (t: nat) => if t < |p.dates| then BtRun(p, m, capital, schedule, t).legs else []
  }

  ghost function EwLegs(p: Panel, m: CostModel, capital: real): (legs: nat -> seq<real>)
    requires Setup(p, m) && |m.legs| > 0
    ensures forall t: nat :: t < |p.dates| ==> legs(t) == EwRun(p, m, capital, t).legs
  {
    (t: nat) => if t < |p.dates| then EwRun(p, m, capital, t).legs else []
  }

  /** Held over sessions without a scheduled rebalance, a leg of the backtest follows its price. */
  lemma BacktestFollowsPrices(p: Panel, m: CostModel, capital: real, schedule: map<nat, seq<real>>,
                              s: nat, from: nat, to: nat)
    requires Setup(p, m) && Schedule(schedule, |m.legs|) && s < |m.legs| && from <= to < |p.dates|
    requires (forall t :: from < t <= to ==> t !in schedule) && PricesNonZero(p, s, from, to)
    ensures var before, after := BtRun(p, m, capital, schedule, from), BtRun(p, m, capital, schedule, to);
      Follows(p, s, from, to, before.legs[s], after.legs[s])
  {
    var legs := BtLegs(p, m, capital, schedule);
    forall t: nat | from < t <= to ensures legs(t) == Drift(p, legs(t - 1), t) {
      BtUnscheduled(p, m, capital, schedule, t);
    }
    DriftingFollows(p, legs, s, from, to);
  }

  /** Between month ends so does a leg of the benchmark. */
  lemma BenchmarkFollowsPrices(p: Panel, m: CostModel, capital: real, s: nat, from: nat, to: nat)
    requires Setup(p, m) && s < |m.legs| && from <= to < |p.dates|
    requires (forall t :: from < t <= to ==> !IsMonthEnd(p.dates, t)) && PricesNonZero(p, s, from, to)
    ensures Follows(p, s, from, to, EwRun(p, m, capital, from).legs[s], EwRun(p, m, capital, to).legs[s])
  {
    var legs := EwLegs(p, m, capital);
    forall t: nat | from < t <= to ensures legs(t) == Drift(p, legs(t - 1), t) {
      EwOffMonthEnd(p, m, capital, t);
    }
    DriftingFollows(p, legs, s, from, to);
  }

  // ---- conservation: what is held adds up to the portfolio ----

  lemma OverTimes(a: real, b: real)
    requires b != 0.0
    ensures b * Over(a, b) == a
  {
    Quotient(a, b);
  }

  lemma {:induction false} SumTimesEach(v: seq<real>, x: real, n: nat)
    requires n <= |v|
    ensures SumTo(TimesEach(v, x), n) == Prod(SumTo(v, n), x)
  {
    if n > 0 {
      SumTimesEach(v, x, n - 1);
      assert SumTo(v, n) * x == SumTo(v, n - 1) * x + v[n - 1] * x;
    }
  }

  lemma SettleConserves(target: seq<real>, value: real)
    requires Sum(target) != 0.0
    ensures Sum(Settle(target, Sum(target), value).legs) == value
  {
    SumTimesEach(target, Over(value, Sum(target)), |target|);
    OverTimes(value, Sum(target));
  }

  lemma EqualTargetSums(value: real, n: nat)
    requires n > 0
    ensures Sum(EqualTarget(value, n)) == value == value / n as real * n as real
  {
    SumToConst(EqualTarget(value, n), 0, n, value / n as real);
    Quotient(value, n as real);
  }

  lemma ScaledTarget(before: real, after: real, n: real)
    requires before != 0.0 && n != 0.0
    ensures before / n * n == before
    ensures before / n * Over(after, before) == after / n
  {
    Quotient(before, n);
    Quotient(after, before);
    Quotient(after, n);
    var leg := before / n * Over(after, before);
    assert leg * n == (before / n * n) * Over(after, before);
    CancelFactor(leg, after / n, n);
  }

  /** A rebalance takes exactly the traded costs out of the value, and what is left is all held. */
  lemma EwRebalanceConserves(m: CostModel, h: Holding)
    requires |h.legs| == |m.legs| > 0 && h.value != 0.0
    ensures var r := EwRebalance(m, h);
      && r.value == h.value - Sum(AllCosts(m, h.legs, EqualTarget(h.value, |h.legs|)))
      && Sum(r.legs) == r.value
      && forall s :: 0 <= s < |r.legs| ==> r.legs[s] == r.value / |h.legs| as real
  {
    var n := |h.legs|;
    var target, r := EqualTarget(h.value, n), EwRebalance(m, h);
    EqualTargetSums(h.value, n);
    SettleConserves(target, r.value);
    ScaledTarget(h.value, r.value, n as real);
  }

  /** The leg is the fraction w / total of the value. */
  ghost predicate OnTarget(leg: real, value: real, w: real, total: real) {
    leg * total == w * value
  }

  lemma TargetFraction(w: real, before: real, total: real, after: real)
    requires before != 0.0 && total != 0.0 && total * before != 0.0
    ensures OnTarget(Prod(Prod(w, before), Over(after, Prod(total, before))), after, w, total)
  {
    var scale := Over(after, total * before);
    OverTimes(after, total * before);
    assert (w * before * scale) * total == w * ((total * before) * scale);
  }

  lemma SettleOnTarget(w: seq<real>, before: real, after: real)
    requires before != 0.0 && Sum(w) != 0.0 && Sum(TimesEach(w, before)) == Prod(Sum(w), before) != 0.0
    ensures var r := Settle(TimesEach(w, before), Sum(TimesEach(w, before)), after);
      forall s :: 0 <= s < |w| ==> OnTarget(r.legs[s], r.value, w[s], Sum(w))
  {
    var r := Settle(TimesEach(w, before), Sum(TimesEach(w, before)), after);
    forall s | 0 <= s < |w| ensures OnTarget(r.legs[s], r.value, w[s], Sum(w)) {
      TargetFraction(w[s], before, Sum(w), after);
    }
  }

  lemma SettleUnscaled(target: seq<real>, total: real, value: real, s: nat)
    requires total == 0.0 && s < |target|
    ensures Settle(target, total, value).legs[s] == target[s]
  {
    assert Prod(target[s], 1.0) == target[s];
  }

  /** Targets that add up to nothing cannot be scaled: they are held as they are. */
  lemma UnscalableTargets(m: CostModel, h: Holding, w: seq<real>, s: nat)
    requires |h.legs| == |m.legs| == |w| && Sum(TimesEach(w, h.value)) == 0.0 && s < |w|
    ensures BtRebalance(m, h, w).legs[s] == Prod(w[s], h.value)
  {
    var target := TimesEach(w, h.value);
    SettleUnscaled(target, Sum(target), h.value - Sum(PaidCosts(m, h.legs, target)), s);
  }

  /** A move of less than a billionth is free; any other is bought or sold at its full cost. */
  lemma PaidOrFree(m: CostModel, legs: seq<real>, target: seq<real>, s: nat)
    requires s < |legs| == |target| == |m.legs|
    ensures var move, paid := target[s] - legs[s], PaidCosts(m, legs, target)[s];
      if -0.000000001 < move < 0.000000001 then paid == 0.0
      else if move > 0.0 then paid == TradeCostOf(m, s, move, Buy).Total()
      else paid == TradeCostOf(m, s, -move, Sell).Total()
  {
  }

  /** Likewise for any target weights; each leg ends at its exact fraction of what is left. */
  lemma BtRebalanceConserves(m: CostModel, h: Holding, w: seq<real>)
    requires |h.legs| == |m.legs| == |w| && h.value != 0.0 && Sum(w) != 0.0
    ensures var r := BtRebalance(m, h, w);
      && r.value == h.value - Sum(PaidCosts(m, h.legs, TimesEach(w, h.value)))
      && Sum(r.legs) == r.value
      && forall s :: 0 <= s < |w| ==> OnTarget(r.legs[s], r.value, w[s], Sum(w))
  {
    var target := TimesEach(w, h.value);
    SumTimesEach(w, h.value, |w|);
    NonZeroProduct(Sum(w), h.value, Sum(w) * h.value);
    SettleConserves(target, BtRebalance(m, h, w).value);
    SettleOnTarget(w, h.value, BtRebalance(m, h, w).value);
  }

  lemma SettleAddsUp(target: seq<real>, value: real)
    ensures var h := Settle(target, Sum(target), value); Sum(h.legs) == h.value || Sum(h.legs) == 0.0
  {
    SumTimesEach(target, Over(value, Sum(target)), |target|);
    if Sum(target) != 0.0 {
      OverTimes(value, Sum(target));
    }
  }

  /** After every session of any schedule the legs add up to the portfolio, or nothing is invested. */
  lemma {:induction false} BtHoldingsAddUp(p: Panel, m: CostModel, capital: real, schedule: map<nat, seq<real>>, t: nat)
    requires Setup(p, m) && t < |p.dates| && Schedule(schedule, |m.legs|)
    ensures var h := BtRun(p, m, capital, schedule, t); Sum(h.legs) == h.value || Sum(h.legs) == 0.0
  {
    var start := Holding(Repeat(0.0, |m.legs|), capital);
    if t > 0 {
      BtHoldingsAddUp(p, m, capital, schedule, t - 1);
    } else {
      SumToConst(start.legs, 0, |m.legs|, 0.0);
    }
    if t in schedule {
      var h := if t == 0 then start else BtDrift(p, BtRun(p, m, capital, schedule, t - 1), t);
      var target := TimesEach(schedule[t], h.value);
      SettleAddsUp(target, h.value - Sum(PaidCosts(m, h.legs, target)));
    }
  }

  // ---- the two engines on the equal-weight schedule ----

  function EqualWeights(n: nat): (r: seq<real>)
    requires n > 0
    ensures |r| == n
  {
    Repeat(1.0 / n as real, n)
  }

  /** Equal weights at inception and at every month end. */
  ghost function EqualSchedule(p: Panel, n: nat): (r: map<nat, seq<real>>)
    requires n > 0
    ensures forall t: nat :: t in r <==> t < |p.dates| && (t == 0 || IsMonthEnd(p.dates, t))
    ensures forall t :: t in r ==> r[t] == EqualWeights(n)
    ensures Schedule(r, n)
  {
    map t: nat | t < |p.dates| && (t == 0 || IsMonthEnd(p.dates, t)) :: EqualWeights(n)
  }

  /** Both engines' portfolio stays positive; then no division in either is by zero. */
  ghost predicate Solvent(p: Panel, m: CostModel, capital: real)
    requires Setup(p, m) && |m.legs| > 0
  {
    && capital > 0.0 && PositivePrices(p) && |p.dates| > 0
    && forall t: nat :: t < |p.dates| ==> EwRun(p, m, capital, t).value > 0.0
  }

  /** What the benchmark pays at session t for moves too small for the backtest to make. */
  ghost function Skipped(p: Panel, m: CostModel, capital: real, t: nat): real
    requires Setup(p, m) && |m.legs| > 0 && t < |p.dates|
  {
    var n := |m.legs|;
    if t == 0 then Sum(SkippedCosts(m, Repeat(0.0, n), EqualTarget(capital, n)))
    else if IsMonthEnd(p.dates, t) then
      var h := EwDrift(p, EwRun(p, m, capital, t - 1), t);
      Sum(SkippedCosts(m, h.legs, EqualTarget(h.value, n)))
    else 0.0
  }

  lemma UnitShare(value: real, n: real)
    requires n != 0.0
    ensures Prod(1.0 / n, value) == value / n
  {
    Quotient(1.0, n);
    Quotient(value, n);
    var a := 1.0 / n * value;
    assert a * n == (1.0 / n * n) * value;
    CancelFactor(a, value / n, n);
  }

  lemma SameTarget(value: real, n: nat)
    requires n > 0
    ensures TimesEach(EqualWeights(n), value) == EqualTarget(value, n)
  {
    UnitShare(value, n as real);
  }

  lemma SettleDiffers(target: seq<real>, total: real, v: real, v': real, d: real)
    requires v' == v + d
    ensures Settle(target, total, v').value == Settle(target, total, v).value + d
    ensures d == 0.0 ==> Settle(target, total, v') == Settle(target, total, v)
  {
  }

  lemma BothSettle(m: CostModel, h: Holding)
    requires |h.legs| == |m.legs| > 0
    ensures var target := EqualTarget(h.value, |h.legs|);
      && EwRebalance(m, h) == Settle(target, h.value, h.value - Sum(AllCosts(m, h.legs, target)))
      && BtRebalance(m, h, EqualWeights(|h.legs|))
         == Settle(target, h.value, h.value - Sum(PaidCosts(m, h.legs, target)))
  {
    SameTarget(h.value, |h.legs|);
    EqualTargetSums(h.value, |h.legs|);
  }

  /** One rebalance from the same holding: the backtest ends with exactly the skipped costs more. */
  lemma RebalancesCompare(m: CostModel, h: Holding)
    requires |h.legs| == |m.legs| > 0
    ensures var n := |h.legs|;
      var skipped := Sum(SkippedCosts(m, h.legs, EqualTarget(h.value, n)));
      var ew, bt := EwRebalance(m, h), BtRebalance(m, h, EqualWeights(n));
      bt.value == ew.value + skipped && (skipped == 0.0 ==> bt == ew)
  {
    var target := EqualTarget(h.value, |h.legs|);
    var all, paid := Sum(AllCosts(m, h.legs, target)), Sum(PaidCosts(m, h.legs, target));
    var skipped := Sum(SkippedCosts(m, h.legs, target));
    BothSettle(m, h);
    CostsSplit(m, h.legs, target);
    SettleDiffers(target, h.value, h.value - all, h.value - paid, skipped);
  }

  lemma FirstBuys(m: CostModel, target: real)
    requires target > 0.0
    ensures AllCosts(m, Repeat(0.0, |m.legs|), Repeat(target, |m.legs|)) == BuyCosts(m, target, |m.legs|)
  {
  }

  lemma EvenHolding(h: Holding, leg: real, n: nat)
    requires |h.legs| == n && forall s :: 0 <= s < n ==> h.legs[s] == leg
    ensures h == Holding(Repeat(leg, n), h.value)
  {
  }

  lemma StartValue(m: CostModel, capital: real)
    requires |m.legs| > 0 && capital > 0.0
    ensures EwStart(m, capital).value == EwRebalance(m, Holding(Repeat(0.0, |m.legs|), capital)).value
  {
    PositiveQuotient(capital, |m.legs| as real);
    FirstBuys(m, capital / |m.legs| as real);
  }

  /** Inception is a rebalance out of an empty holding. */
  lemma StartIsRebalance(m: CostModel, capital: real)
    requires |m.legs| > 0 && capital > 0.0
    ensures EwStart(m, capital) == EwRebalance(m, Holding(Repeat(0.0, |m.legs|), capital))
  {
    var n := |m.legs|;
    var r := EwRebalance(m, Holding(Repeat(0.0, n), capital));
    EwRebalanceConserves(m, Holding(Repeat(0.0, n), capital));
    EvenHolding(r, r.value / n as real, n);
    StartValue(m, capital);
  }

  ghost predicate Positive(v: seq<real>) {
    forall s :: 0 <= s < |v| ==> v[s] > 0.0
  }

  lemma DriftPositive(p: Panel, legs: seq<real>, t: nat)
    requires Aligned(p) && PositivePrices(p) && |legs| == |p.prices| > 0 && 0 < t < |p.dates| && Positive(legs)
    ensures Positive(Drift(p, legs, t)) && Sum(Drift(p, legs, t)) > 0.0
  {
    var r := Drift(p, legs, t);
    forall s | 0 <= s < |r| ensures r[s] > 0.0 {
      PositiveQuotient(p.prices[s][t], p.prices[s][t - 1]);
      ProductPositive(legs[s], Growth(p, s, t), r[s]);
    }
    SumToAtLeastTerm(r, |r|, 0);
  }

  lemma RebalancePositive(m: CostModel, h: Holding)
    requires |h.legs| == |m.legs| > 0 && h.value > 0.0 && EwRebalance(m, h).value > 0.0
    ensures Positive(EwRebalance(m, h).legs)
  {
    EwRebalanceConserves(m, h);
    PositiveQuotient(EwRebalance(m, h).value, |h.legs| as real);
  }

  lemma {:induction false} EwPositive(p: Panel, m: CostModel, capital: real, t: nat)
    requires Setup(p, m) && |m.legs| > 0 && t < |p.dates| && Solvent(p, m, capital)
    ensures Positive(EwRun(p, m, capital, t).legs) && Sum(EwRun(p, m, capital, t).legs) == EwRun(p, m, capital, t).value
    ensures t + 1 < |p.dates| ==> EwDrift(p, EwRun(p, m, capital, t), t + 1).value > 0.0
  {
    var h := EwRun(p, m, capital, t);
    assert h.value > 0.0;
    if t == 0 {
      StartIsRebalance(m, capital);
      RebalancePositive(m, Holding(Repeat(0.0, |m.legs|), capital));
      EwRebalanceConserves(m, Holding(Repeat(0.0, |m.legs|), capital));
    } else {
      EwPositive(p, m, capital, t - 1);
      var d := EwDrift(p, EwRun(p, m, capital, t - 1), t);
      DriftPositive(p, EwRun(p, m, capital, t - 1).legs, t);
      if IsMonthEnd(p.dates, t) {
        RebalancePositive(m, d);
        EwRebalanceConserves(m, d);
      }
    }
    if t + 1 < |p.dates| {
      DriftPositive(p, h.legs, t + 1);
    }
  }

  ghost predicate SameValue(p: Panel, m: CostModel, capital: real, t: nat)
    requires Setup(p, m) && |m.legs| > 0 && t < |p.dates|
  {
    EwRun(p, m, capital, t).value == BtRun(p, m, capital, EqualSchedule(p, |m.legs|), t).value
  }

  /** The backtest's session step on the equal-weight schedule. */
  lemma EqualStep(p: Panel, m: CostModel, h: Holding, t: nat)
    requires |h.legs| == |m.legs| > 0 && t < |p.dates|
    ensures BtStep(m, h, EqualSchedule(p, |m.legs|), t)
      == if t == 0 || IsMonthEnd(p.dates, t) then BtRebalance(m, h, EqualWeights(|m.legs|)) else h
  {
  }

  lemma SameDrift(p: Panel, m: CostModel, capital: real, t: nat)
    requires Setup(p, m) && |m.legs| > 0 && 0 < t < |p.dates| && Solvent(p, m, capital)
    ensures BtDrift(p, EwRun(p, m, capital, t - 1), t) == EwDrift(p, EwRun(p, m, capital, t - 1), t)
  {
    EwPositive(p, m, capital, t - 1);
  }

  /** The backtest's session from the benchmark's own holding. */
  lemma SessionFromSame(p: Panel, m: CostModel, capital: real, t: nat)
    requires Setup(p, m) && |m.legs| > 0 && t < |p.dates| && Solvent(p, m, capital)
    requires t > 0 ==> EwRun(p, m, capital, t - 1) == BtRun(p, m, capital, EqualSchedule(p, |m.legs|), t - 1)
    ensures var bt := BtRun(p, m, capital, EqualSchedule(p, |m.legs|), t);
      if t == 0 then bt == BtRebalance(m, Holding(Repeat(0.0, |m.legs|), capital), EqualWeights(|m.legs|))
      else
        var d := EwDrift(p, EwRun(p, m, capital, t - 1), t);
        bt == if IsMonthEnd(p.dates, t) then BtRebalance(m, d, EqualWeights(|m.legs|)) else d
  {
    var schedule := EqualSchedule(p, |m.legs|);
    if t > 0 {
      SameDrift(p, m, capital, t);
      var d := EwDrift(p, EwRun(p, m, capital, t - 1), t);
      assert BtRun(p, m, capital, schedule, t) == BtStep(m, d, schedule, t);
      EqualStep(p, m, d, t);
    } else {
      EqualStep(p, m, Holding(Repeat(0.0, |m.legs|), capital), 0);
    }
  }

  /** From equal holdings, a session keeps the engines equal exactly when nothing paid for is skipped. */
  lemma SessionCompare(p: Panel, m: CostModel, capital: real, t: nat)
    requires Setup(p, m) && |m.legs| > 0 && t < |p.dates| && Solvent(p, m, capital)
    requires t > 0 ==> EwRun(p, m, capital, t - 1) == BtRun(p, m, capital, EqualSchedule(p, |m.legs|), t - 1)
    ensures SameValue(p, m, capital, t) <==> Skipped(p, m, capital, t) == 0.0
    ensures SameValue(p, m, capital, t) ==>
      EwRun(p, m, capital, t) == BtRun(p, m, capital, EqualSchedule(p, |m.legs|), t)
  {
    SessionFromSame(p, m, capital, t);
    if t == 0 {
      StartIsRebalance(m, capital);
      RebalancesCompare(m, Holding(Repeat(0.0, |m.legs|), capital));
    } else if IsMonthEnd(p.dates, t) {
      RebalancesCompare(m, EwDrift(p, EwRun(p, m, capital, t - 1), t));
    }
  }

  ghost function SameAt(p: Panel, m: CostModel, capital: real): nat -> bool
    requires Setup(p, m) && |m.legs| > 0
  {
    (t: nat) => t < |p.dates| ==> SameValue(p, m, capital, t)
  }

  ghost function NothingSkippedAt(p: Panel, m: CostModel, capital: real): nat -> bool
    requires Setup(p, m) && |m.legs| > 0
  {
    (t: nat) => t < |p.dates| ==> Skipped(p, m, capital, t) == 0.0
  }

  lemma {:induction false} AgreeUpTo(p: Panel, m: CostModel, capital: real, t: nat)
    requires Setup(p, m) && |m.legs| > 0 && t < |p.dates| && Solvent(p, m, capital)
    ensures UpTo(SameAt(p, m, capital), t) <==> UpTo(NothingSkippedAt(p, m, capital), t)
    ensures UpTo(SameAt(p, m, capital), t) ==>
      EwRun(p, m, capital, t) == BtRun(p, m, capital, EqualSchedule(p, |m.legs|), t)
  {
    if t > 0 {
      AgreeUpTo(p, m, capital, t - 1);
    }
    if t == 0 || UpTo(SameAt(p, m, capital), t - 1) {
      SessionCompare(p, m, capital, t);
    }
  }

  /**
   * On the equal-weight month-end schedule the two engines draw the same equity curve if and only if the
   * moves the backtest skips as negligible would have cost the benchmark nothing.
   */
  lemma EnginesAgreeIff(p: Panel, m: CostModel, capital: real)
    requires Setup(p, m) && |m.legs| > 0 && Solvent(p, m, capital)
    ensures (forall t: nat :: t < |p.dates| ==> SameValue(p, m, capital, t)) <==>
            (forall t: nat :: t < |p.dates| ==> Skipped(p, m, capital, t) == 0.0)
  {
    AgreeUpTo(p, m, capital, |p.dates| - 1);
    UpToMeansAll(SameAt(p, m, capital), |p.dates| - 1);
    UpToMeansAll(NothingSkippedAt(p, m, capital), |p.dates| - 1);
    assert forall t: nat :: t < |p.dates| ==> SameAt(p, m, capital)(t) == SameValue(p, m, capital, t);
    assert forall t: nat :: t < |p.dates| ==> NothingSkippedAt(p, m, capital)(t) == (Skipped(p, m, capital, t) == 0.0);
  }

  /** The benchmark's move in leg s at rebalance t. */
  ghost function Move(p: Panel, m: CostModel, capital: real, t: nat, s: nat): real
    requires Setup(p, m) && 0 < t < |p.dates| && s < |m.legs|
  {
    var h := EwDrift(p, EwRun(p, m, capital, t - 1), t);
    EqualTarget(h.value, |m.legs|)[s] - h.legs[s]
  }

  /** In particular they agree when no rebalance move is within the tolerance of zero. */
  lemma EnginesAgreeOnRealMoves(p: Panel, m: CostModel, capital: real)
    requires Setup(p, m) && |m.legs| > 0 && Solvent(p, m, capital)
    requires !Negligible(capital / |m.legs| as real)
    requires forall t: nat, s: nat :: 0 < t < |p.dates| && IsMonthEnd(p.dates, t) && s < |m.legs| ==>
      !Negligible(Move(p, m, capital, t, s))
    ensures forall t: nat :: t < |p.dates| ==> SameValue(p, m, capital, t)
  {
    var n := |m.legs|;
    forall t: nat | t < |p.dates| ensures Skipped(p, m, capital, t) == 0.0 {
      if t == 0 {
        SumToConst(SkippedCosts(m, Repeat(0.0, n), EqualTarget(capital, n)), 0, n, 0.0);
      } else if IsMonthEnd(p.dates, t) {
        var h := EwDrift(p, EwRun(p, m, capital, t - 1), t);
        var skipped := SkippedCosts(m, h.legs, EqualTarget(h.value, n));
        forall s | 0 <= s < n ensures skipped[s] == 0.0 {
          assert !Negligible(Move(p, m, capital, t, s));
        }
        SumToConst(skipped, 0, n, 0.0);
      }
    }
    EnginesAgreeIff(p, m, capital);
  }

  /** A one-leg basket never moves, yet the benchmark pays the flat sell charge at every month end: the curves part. */
  lemma OneLegDisagrees(p: Panel, m: CostModel, capital: real)
    requires Setup(p, m) && |m.legs| == 1 && Solvent(p, m, capital) && |p.dates| > 1
    requires Flat(m, Sell) > 0.0
    ensures exists t: nat :: t < |p.dates| && !SameValue(p, m, capital, t)
  {
    var t := |p.dates| - 1;
    EwPositive(p, m, capital, t - 1);
    var h := EwDrift(p, EwRun(p, m, capital, t - 1), t);
    var target := EqualTarget(h.value, 1);
    assert h.value == SumTo(h.legs, 0) + h.legs[0];
    assert target[0] - h.legs[0] == 0.0;
    TotalIsAffine(m, 0, 0.0, Sell);
    var skipped := SkippedCosts(m, h.legs, target);
    assert skipped[0] == Flat(m, Sell);
    assert Sum(skipped) == SumTo(skipped, 0) + skipped[0];
    assert Skipped(p, m, capital, t) != 0.0;
    EnginesAgreeIff(p, m, capital);
  }
}
