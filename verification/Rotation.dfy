/** The weighted backtest's loop (src/quant/research/etf/rotation.py). */
module Rotation {
  import opened Wrappers
  import opened Sums
  import opened Costs
  import opened Engines
  import Benchmark

  datatype BacktestError = DivisionByZero

  /** Some leg that is held has no price to grow from. */
  ghost predicate ZeroPriceHeld(p: Panel, legs: seq<real>, t: nat)
    requires Aligned(p) && |legs| == |p.prices| && 0 < t < |p.dates|
  {
    exists s :: 0 <= s < |legs| && legs[s] != 0.0 && p.prices[s][t - 1] == 0.0
  }

  /** The drift loop, which leaves an empty leg alone. */
  method DriftHeld(p: Panel, before: seq<real>, t: nat) returns (r: Result<seq<real>, BacktestError>)
    requires Aligned(p) && |before| == |p.prices| && 0 < t < |p.dates|
    ensures if ZeroPriceHeld(p, before, t) then r == Err(DivisionByZero) else r == Ok(Drift(p, before, t))
  {
    var legs := before;
    for s := 0 to |before|
      invariant |legs| == |before| && forall k :: 0 <= k < s ==> before[k] == 0.0 || p.prices[k][t - 1] != 0.0
      invariant forall k :: 0 <= k < s ==> legs[k] == Drift(p, before, t)[k]
      invariant forall k :: s <= k < |legs| ==> legs[k] == before[k]
    {
      if legs[s] != 0.0 {
        if p.prices[s][t - 1] == 0.0 {
          return Err(DivisionByZero);
        }
        legs := legs[s := legs[s] * (p.prices[s][t] / p.prices[s][t - 1])];
      }
    }
    assert legs == Drift(p, before, t);
    return Ok(legs);
  }

  /** Drift the legs; the portfolio is their sum, unless that is zero. */
  method DriftPortfolio(p: Panel, h: Holding, t: nat) returns (r: Result<Holding, BacktestError>)
    requires Aligned(p) && |h.legs| == |p.prices| && 0 < t < |p.dates|
    ensures if ZeroPriceHeld(p, h.legs, t) then r == Err(DivisionByZero) else r == Ok(BtDrift(p, h, t))
  {
    var legs := DriftHeld(p, h.legs, t);
    if legs.Err? {
      return Err(legs.error);
    }
    var total := Benchmark.Total(legs.value);
    return Ok(Holding(legs.value, if total != 0.0 then total else h.value));
  }

  /** One scheduled session: pay for every move that is not negligible, then hold the scaled targets. */
  method Rebalance(m: CostModel, h: Holding, w: seq<real>) returns (after: Holding)
    requires |h.legs| == |m.legs| == |w|
    ensures after == BtRebalance(m, h, w)
  {
    var target := TimesEach(w, h.value);
    ghost var costs := PaidCosts(m, h.legs, target);
    var cost := 0.0;
    for s := 0 to |w|
      invariant cost == SumTo(costs, s)
    {
      var delta := target[s] - h.legs[s];
      if Abs(delta) < 0.000000001 {
        continue;
      }
      var side := if delta > 0.0 then Buy else Sell;
      cost := cost + TradeCostOf(m, s, Abs(delta), side).Total();
    }
    var value := h.value - cost;
    var total := Benchmark.Total(target);
    var scale := if total != 0.0 then value / total else 1.0;
    after := Holding(TimesEach(target, scale), value);
  }

  /** The earliest scheduled session, or 0. */
  method First(schedule: map<nat, seq<real>>) returns (first: nat)
    ensures schedule.Keys == {} ==> first == 0
    ensures schedule.Keys != {} ==> first in schedule
    ensures forall t :: t in schedule ==> first <= t
  {
    if schedule.Keys == {} {
      return 0;
    }
    var seen: set<nat>, rest := {}, schedule.Keys;
    first :| first in rest;
    while rest != {}
      invariant seen + rest == schedule.Keys && first in schedule
      invariant forall t :: t in seen ==> first <= t
      decreases |rest|
    {
      var t :| t in rest;
      if t < first {
        first := t;
      }
      seen, rest := seen + {t}, rest - {t};
    }
  }

  /** Nothing happens before the first scheduled session. */
  lemma {:induction false} IdleBeforeFirst(p: Panel, m: CostModel, capital: real, schedule: map<nat, seq<real>>, t: nat)
    requires Setup(p, m) && t < |p.dates| && Schedule(schedule, |m.legs|)
    requires forall u :: u in schedule ==> t < u
    ensures var h := BtRun(p, m, capital, schedule, t); h.value == capital && h.legs == Repeat(0.0, |m.legs|)
  {
    if t > 0 {
      IdleBeforeFirst(p, m, capital, schedule, t - 1);
      var legs := Drift(p, Repeat(0.0, |m.legs|), t);
      assert legs == Repeat(0.0, |m.legs|);
      SumToConst(legs, 0, |legs|, 0.0);
    }
  }

  /** Before session t some held leg has a zero price. */
  ghost predicate DividesByZero(p: Panel, m: CostModel, capital: real, schedule: map<nat, seq<real>>, t: nat)
    requires Setup(p, m) && 0 < t < |p.dates| && Schedule(schedule, |m.legs|)
  {
    ZeroPriceHeld(p, BtRun(p, m, capital, schedule, t - 1).legs, t)
  }

  ghost predicate CleanThrough(p: Panel, m: CostModel, capital: real, schedule: map<nat, seq<real>>, n: nat)
    requires Setup(p, m) && n <= |p.dates| && Schedule(schedule, |m.legs|)
  {
    forall t: nat :: 0 < t < n ==> !DividesByZero(p, m, capital, schedule, t)
  }

  /** One session of the backtest. */
  method Session(p: Panel, m: CostModel, ghost capital: real, schedule: map<nat, seq<real>>, first: nat,
                 h: Holding, t: nat)
    returns (r: Result<Holding, BacktestError>)
    requires Setup(p, m) && t < |p.dates| && Schedule(schedule, |m.legs|)
    requires forall u :: u in schedule ==> first <= u
    requires h == if t == 0 then Holding(Repeat(0.0, |m.legs|), capital) else BtRun(p, m, capital, schedule, t - 1)
    ensures if t > 0 && DividesByZero(p, m, capital, schedule, t) then r == Err(DivisionByZero)
      else r == Ok(BtRun(p, m, capital, schedule, t))
  {
    var after := h;
    if t > 0 {
      var drifted := DriftPortfolio(p, after, t);
      if drifted.Err? {
        return drifted;
      }
      after := drifted.value;
    }
    if t in schedule && t >= first {
      after := Rebalance(m, after, schedule[t]);
    }
    return Ok(after);
  }

  /** The backtest's equity curve, empty for no dates, or a division by zero at the first session that meets one. */
  method BacktestWeights(p: Panel, m: CostModel, capital: real, schedule: map<nat, seq<real>>)
    returns (r: Result<seq<real>, BacktestError>)
    requires Setup(p, m) && Schedule(schedule, |m.legs|)
    ensures r.Err? <==> !CleanThrough(p, m, capital, schedule, |p.dates|)
    ensures r.Ok? ==> r.value == BtCurve(p, m, capital, schedule, |p.dates|)
  {
    var h := Holding(Repeat(0.0, |m.legs|), capital);
    var first := First(schedule);
    var equity: seq<real> := [];
    for t := 0 to |p.dates|
      invariant h == if t == 0 then Holding(Repeat(0.0, |m.legs|), capital) else BtRun(p, m, capital, schedule, t - 1)
      invariant CleanThrough(p, m, capital, schedule, t) && equity == BtCurve(p, m, capital, schedule, t)
    {
      var next := Session(p, m, capital, schedule, first, h, t);
      if next.Err? {
        return Err(next.error);
      }
      h := next.value;
      if t < first {
        IdleBeforeFirst(p, m, capital, schedule, t);
      }
      equity := equity + [if t >= first then h.value else capital];
    }
    return Ok(equity);
  }
}
