/** Back-adjustment of a symbol's bars for corporate actions (src/quant/data/hygiene/corporate_actions.py). */
module CorporateActions {
  import opened Wrappers
  import opened Sums
  import opened Bars

  datatype Kind = Split | Bonus | Dividend

  datatype Action = Action(symbol: string, exDate: int, kind: Kind, ratio: real, amount: real)

  datatype ActionError = AmountNotPositive | RatioNotPositive | DividendNotBelowClose

  /** The check made when an action is built. */
  function Checked(a: Action): (r: Result<Action, ActionError>)
    ensures r.Ok? ==> r.value == a
    ensures r == Err(AmountNotPositive) <==> a.kind == Dividend && !(a.amount > 0.0)
    ensures r == Err(RatioNotPositive) <==> a.kind != Dividend && !(a.ratio > 0.0)
    ensures r != Err(DividendNotBelowClose)
  {
    if a.kind == Dividend then if a.amount <= 0.0 then Err(AmountNotPositive) else Ok(a)
    else if a.ratio <= 0.0 then Err(RatioNotPositive)
    else Ok(a)
  }

  ghost predicate WellFormed(actions: seq<Action>) {
    forall i :: 0 <= i < |actions| ==> Checked(actions[i]).Ok?
  }

  function PriceFactor(a: Action, reference: real): Result<real, ActionError>
    requires Checked(a).Ok?
  {
    if a.kind == Dividend then
      if a.amount >= reference then Err(DividendNotBelowClose) else Ok((reference - a.amount) / reference)
    else Ok(1.0 / a.ratio)
  }

  function VolumeFactor(a: Action): real {
    if a.kind == Dividend then 1.0 else a.ratio
  }

  /** How many bars of a sorted frame fall strictly before a date. */
  function Before(f: Frame, date: int): (n: nat)
    ensures n <= |f|
    ensures Sorted(f) ==> forall i :: 0 <= i < |f| ==> (Day(f[i].timestamp) < date <==> i < n)
  {
    if |f| == 0 then 0
    else if Day(f[|f| - 1].timestamp) < date then |f|
    else Before(f[..|f| - 1], date)
  }

  /** The raw close of the last bar before the ex-date. */
  function Reference(f: Frame, a: Action): real
    requires Before(f, a.exDate) > 0
  {
    f[Before(f, a.exDate) - 1].close
  }

  /** A dividend at least as large as the close it is taken from. */
  predicate Rejected(f: Frame, a: Action)
    requires Checked(a).Ok?
  {
    Before(f, a.exDate) > 0 && PriceFactor(a, Reference(f, a)).Err?
  }

  /** What one action does to the price and volume of bar i. */
  function PriceScale(f: Frame, a: Action, i: nat): real
    requires Checked(a).Ok?
  {
    if i < Before(f, a.exDate) && !Rejected(f, a) then PriceFactor(a, Reference(f, a)).value else 1.0
  }

  function VolumeScale(f: Frame, a: Action, i: nat): real {
    if i < Before(f, a.exDate) then VolumeFactor(a) else 1.0
  }

  /** The compounded factors of a list of actions at bar i. */
  function CumPrice(f: Frame, actions: seq<Action>, i: nat): real
    requires WellFormed(actions)
  {
    if |actions| == 0 then 1.0
    else Prod(CumPrice(f, actions[..|actions| - 1], i), PriceScale(f, actions[|actions| - 1], i))
  }

  function CumVolume(f: Frame, actions: seq<Action>, i: nat): real {
    if |actions| == 0 then 1.0
    else Prod(CumVolume(f, actions[..|actions| - 1], i), VolumeScale(f, actions[|actions| - 1], i))
  }

  /** To the nearest whole number, a tie to the even one. */
  function Round(x: real): (r: int)
    ensures x - 0.5 <= r as real <= x + 0.5
    ensures x == x.Floor as real ==> r == x.Floor
    ensures r as real == x - 0.5 || r as real == x + 0.5 ==> r % 2 == 0
  {
    var low := x.Floor;
    var rest := x - low as real;
    if rest < 0.5 || (rest == 0.5 && low % 2 == 0) then low else low + 1
  }

  function AdjustBar(b: Bar, price: real, volume: real): Bar {
    Bar(b.timestamp, Prod(b.open, price), Prod(b.high, price), Prod(b.low, price), Prod(b.close, price),
      Round(Prod(b.volume as real, volume)))
  }

  /** Every bar scaled by the compounded factors of the actions it precedes. */
  function Adjusted(f: Frame, actions: seq<Action>): (r: Frame)
    requires WellFormed(actions)
    ensures |r| == |f|
    ensures forall i: nat :: i < |r| ==> r[i] == AdjustBar(f[i], CumPrice(f, actions, i), CumVolume(f, actions, i))
  {
    seq(|f|, i requires 0 <= i < |f| => AdjustBar(f[i], CumPrice(f, actions, i), CumVolume(f, actions, i)))
  }

  ghost predicate NoneRejected(f: Frame, actions: seq<Action>)
    requires WellFormed(actions)
  {
    forall k :: 0 <= k < |actions| ==> !Rejected(f, actions[k])
  }

  // ---- the adjuster ----

  function OfSymbol(actions: seq<Action>, symbol: string): (r: seq<Action>)
    ensures WellFormed(actions) ==> WellFormed(r)
    ensures forall k :: 0 <= k < |r| ==> r[k].symbol == symbol && r[k] in actions
  {
    if |actions| == 0 then []
    else
      OfSymbol(actions[..|actions| - 1], symbol)
      + if actions[|actions| - 1].symbol == symbol then [actions[|actions| - 1]] else []
  }

  function InsertByDate(actions: seq<Action>, a: Action): (r: seq<Action>)
    ensures multiset(r) == multiset(actions) + multiset{a}
  {
    if |actions| == 0 || actions[|actions| - 1].exDate <= a.exDate then actions + [a]
    else
      assert actions == actions[..|actions| - 1] + [actions[|actions| - 1]];
      InsertByDate(actions[..|actions| - 1], a) + [actions[|actions| - 1]]
  }

  /** Stably by ex-date. */
  function SortByDate(actions: seq<Action>): (r: seq<Action>)
    ensures multiset(r) == multiset(actions)
  {
    if |actions| == 0 then []
    else
      assert actions == actions[..|actions| - 1] + [actions[|actions| - 1]];
      InsertByDate(SortByDate(actions[..|actions| - 1]), actions[|actions| - 1])
  }

  function ScaleFront(v: seq<real>, n: nat, c: real): (r: seq<real>)
    requires n <= |v|
    ensures |r| == |v| && forall i :: 0 <= i < |r| ==> r[i] == if i < n then Prod(v[i], c) else v[i]
  {
    seq(|v|, i requires 0 <= i < |v| => if i < n then Prod(v[i], c) else v[i])
  }

  /** The two running columns hold the compounded factors of these actions. */
  ghost predicate Compounded(f: Frame, actions: seq<Action>, price: seq<real>, volume: seq<real>)
    requires WellFormed(actions)
  {
    && |price| == |volume| == |f|
    && forall i: nat :: i < |f| ==> price[i] == CumPrice(f, actions, i) && volume[i] == CumVolume(f, actions, i)
  }

  lemma CompoundedStep(f: Frame, actions: seq<Action>, a: Action, price: seq<real>, volume: seq<real>)
    requires WellFormed(actions + [a]) && WellFormed(actions) && Checked(a).Ok? && !Rejected(f, a)
    requires Compounded(f, actions, price, volume)
    ensures var n := Before(f, a.exDate);
      Compounded(f, actions + [a],
        if n == 0 then price else ScaleFront(price, n, PriceFactor(a, Reference(f, a)).value),
        if n == 0 then volume else ScaleFront(volume, n, VolumeFactor(a)))
  {
    assert (actions + [a])[..|actions|] == actions;
  }

  /** One action multiplied into the two running columns. */
  method ApplyAction(f: Frame, ghost done: seq<Action>, action: Action, price: seq<real>, volume: seq<real>)
    returns (r: Result<(seq<real>, seq<real>), ActionError>)
    requires WellFormed(done) && Checked(action).Ok? && Compounded(f, done, price, volume)
    ensures r.Err? <==> Rejected(f, action)
    ensures r.Ok? ==> WellFormed(done + [action]) && Compounded(f, done + [action], r.value.0, r.value.1)
  {
    var before := Before(f, action.exDate);
    if before == 0 {
      CompoundedStep(f, done, action, price, volume);
      return Ok((price, volume));
    }
    var factor := PriceFactor(action, Reference(f, action));
    if factor.Err? {
      return Err(factor.error);
    }
    CompoundedStep(f, done, action, price, volume);
    return Ok((ScaleFront(price, before, factor.value), ScaleFront(volume, before, VolumeFactor(action))));
  }

  /** Every ex-date predates the frame. */
  ghost predicate Untouched(f: Frame, actions: seq<Action>) {
    forall k :: 0 <= k < |actions| ==> Before(f, actions[k].exDate) == 0
  }

  function Rebuild(f: Frame, price: seq<real>, volume: seq<real>): (r: Frame)
    requires |price| == |volume| == |f|
    ensures |r| == |f| && forall i :: 0 <= i < |r| ==> r[i] == AdjustBar(f[i], price[i], volume[i])
  {
    seq(|f|, i requires 0 <= i < |f| => AdjustBar(f[i], price[i], volume[i]))
  }

  lemma {:induction false} UntouchedFactors(f: Frame, actions: seq<Action>, i: nat)
    requires WellFormed(actions) && forall k :: 0 <= k < |actions| ==> Before(f, actions[k].exDate) <= i
    ensures CumPrice(f, actions, i) == 1.0 && CumVolume(f, actions, i) == 1.0
  {
    if |actions| > 0 {
      UntouchedFactors(f, actions[..|actions| - 1], i);
    }
  }

  lemma UnitBar(b: Bar)
    ensures AdjustBar(b, 1.0, 1.0) == b
  {
    assert Prod(b.volume as real, 1.0) == b.volume as real;
  }

  lemma NothingApplied(f: Frame, actions: seq<Action>)
    requires WellFormed(actions) && Untouched(f, actions)
    ensures Adjusted(f, actions) == f
  {
    forall i: nat | i < |f| ensures Adjusted(f, actions)[i] == f[i] {
      UntouchedFactors(f, actions, i);
      UnitBar(f[i]);
    }
  }

  class CorporateActionAdjuster {
    const actions: seq<Action>

    constructor (actions: seq<Action>)
      ensures this.actions == SortByDate(actions)
    {
      this.actions := SortByDate(actions);
    }

    /** Fails on a dividend not below its close; otherwise every bar is scaled by the actions it precedes. */
    method Adjust(symbol: string, raw: Frame) returns (r: Result<Frame, ActionError>)
      requires WellFormed(actions)
      ensures r.Ok? <==> NoneRejected(SortBars(raw), OfSymbol(actions, symbol))
      ensures r.Ok? ==> r.value == Adjusted(SortBars(raw), OfSymbol(actions, symbol))
    {
      var frame, chosen := SortBars(raw), OfSymbol(actions, symbol);
      var price, volume, applied := Repeat(1.0, |frame|), Repeat(1.0, |frame|), false;
      for n := 0 to |chosen|
        invariant NoneRejected(frame, chosen[..n])
        invariant Compounded(frame, chosen[..n], price, volume)
        invariant !applied ==> Untouched(frame, chosen[..n])
      {
        assert chosen[..n + 1] == chosen[..n] + [chosen[n]];
        var next := ApplyAction(frame, chosen[..n], chosen[n], price, volume);
        if next.Err? {
          assert Rejected(frame, chosen[n]);
          return Err(next.error);
        }
        price, volume := next.value.0, next.value.1;
        applied := applied || Before(frame, chosen[n].exDate) > 0;
      }
      assert chosen[..|chosen|] == chosen;
      if !applied {
        NothingApplied(frame, chosen);
        return Ok(frame);
      }
      return Ok(Rebuild(frame, price, volume));
    }
  }

  // ---- what the adjustment keeps ----

  /** A bar on or after every ex-date is unchanged. */
  lemma LatestBarsUnchanged(f: Frame, actions: seq<Action>, i: nat)
    requires WellFormed(actions) && Sorted(f) && i < |f|
    requires forall k :: 0 <= k < |actions| ==> actions[k].exDate <= Day(f[i].timestamp)
    ensures Adjusted(f, actions)[i] == f[i]
  {
    UntouchedFactors(f, actions, i);
    UnitBar(f[i]);
  }

  lemma RatioPositive(q: real, y: real, x: real)
    requires x == q * y && x > 0.0 && y > 0.0
    ensures q > 0.0
  {
    if q <= 0.0 {
      ProductNonNegative(-q, y);
    }
  }

  lemma RatioBetween(q: real, y: real, x: real)
    requires x == q * y && 0.0 < x < y
    ensures 0.0 < q < 1.0
  {
    RatioPositive(q, y, x);
    if q >= 1.0 {
      ProductNonNegative(q - 1.0, y);
    }
  }

  lemma DividendFactor(a: Action, reference: real)
    requires Checked(a).Ok? && PriceFactor(a, reference).Ok?
    ensures PriceFactor(a, reference).value > 0.0 && (a.kind == Dividend ==> PriceFactor(a, reference).value < 1.0)
    ensures a.kind != Dividend ==> Prod(PriceFactor(a, reference).value, a.ratio) == 1.0
    ensures a.kind == Dividend ==> Prod(reference, PriceFactor(a, reference).value) == reference - a.amount
  {
    if a.kind == Dividend {
      var kept := reference - a.amount;
      Quotient(kept, reference);
      RatioBetween(kept / reference, reference, kept);
    } else {
      Quotient(1.0, a.ratio);
      RatioPositive(1.0 / a.ratio, a.ratio, 1.0);
    }
  }

  lemma PriceScalePositive(f: Frame, a: Action, i: nat)
    requires Checked(a).Ok?
    ensures PriceScale(f, a, i) > 0.0
  {
    if i < Before(f, a.exDate) && !Rejected(f, a) {
      DividendFactor(a, Reference(f, a));
    }
  }

  /** Every price factor is positive. */
  lemma {:induction false} CumPricePositive(f: Frame, actions: seq<Action>, i: nat)
    requires WellFormed(actions)
    ensures CumPrice(f, actions, i) > 0.0
  {
    if |actions| > 0 {
      var a := actions[|actions| - 1];
      CumPricePositive(f, actions[..|actions| - 1], i);
      PriceScalePositive(f, a, i);
      ProductPositive(CumPrice(f, actions[..|actions| - 1], i), PriceScale(f, a, i), CumPrice(f, actions, i));
    }
  }

  ghost predicate ShareCountOnly(actions: seq<Action>) {
    forall k :: 0 <= k < |actions| ==> actions[k].kind != Dividend
  }

  lemma PairUp(p: real, v: real, x: real, y: real)
    requires Prod(p, v) == 1.0 && Prod(x, y) == 1.0
    ensures Prod(Prod(p, x), Prod(v, y)) == 1.0
  {
    assert (p * x) * (v * y) == (p * v) * (x * y);
  }

  lemma {:induction false} FactorsCancel(f: Frame, actions: seq<Action>, i: nat)
    requires WellFormed(actions) && ShareCountOnly(actions)
    ensures Prod(CumPrice(f, actions, i), CumVolume(f, actions, i)) == 1.0
  {
    if |actions| > 0 {
      var front, a := actions[..|actions| - 1], actions[|actions| - 1];
      FactorsCancel(f, front, i);
      if i < Before(f, a.exDate) {
        DividendFactor(a, Reference(f, a));
      }
      PairUp(CumPrice(f, front, i), CumVolume(f, front, i), PriceScale(f, a, i), VolumeScale(f, a, i));
    }
  }

  function TradedValue(b: Bar): real {
    Prod(b.close, b.volume as real)
  }

  lemma PairUp4(c: real, p: real, n: real, v: real)
    requires Prod(p, v) == 1.0
    ensures Prod(Prod(c, p), Prod(n, v)) == Prod(c, n)
  {
    assert (c * p) * (n * v) == (c * n) * (p * v);
  }

  lemma ProdMinus(p: real, a: real, b: real)
    ensures Prod(p, a) - Prod(p, b) == Prod(p, a - b)
  {
  }

  lemma ErrorBound(price: real, error: real)
    requires -0.5 <= error <= 0.5
    ensures Abs(Prod(price, error)) <= Abs(price) / 2.0
  {
    if price >= 0.0 {
      ProductNonNegative(price, 0.5 - error);
      ProductNonNegative(price, 0.5 + error);
    } else {
      ProductNonNegative(-price, 0.5 - error);
      ProductNonNegative(-price, 0.5 + error);
    }
  }

  lemma RoundedProduct(price: real, exact: real, rounded: real)
    requires exact - 0.5 <= rounded <= exact + 0.5
    ensures Abs(Prod(price, rounded) - Prod(price, exact)) <= Abs(price) / 2.0
  {
    ErrorBound(price, rounded - exact);
    ProdMinus(price, rounded, exact);
  }

  lemma HalfShare(b: Bar, p: real, v: real)
    requires Prod(p, v) == 1.0
    ensures var a := AdjustBar(b, p, v); Abs(TradedValue(a) - TradedValue(b)) <= Abs(a.close) / 2.0
  {
    var exact := Prod(b.volume as real, v);
    RoundedProduct(Prod(b.close, p), exact, Round(exact) as real);
    PairUp4(b.close, p, b.volume as real, v);
  }

  /** Splits and bonuses keep the traded value of every bar, up to half a share at the adjusted price. */
  lemma TradedValueKept(f: Frame, actions: seq<Action>, i: nat)
    requires WellFormed(actions) && ShareCountOnly(actions) && i < |f|
    ensures var adjusted := Adjusted(f, actions)[i];
      Abs(TradedValue(adjusted) - TradedValue(f[i])) <= Abs(adjusted.close) / 2.0
  {
    FactorsCancel(f, actions, i);
    HalfShare(f[i], CumPrice(f, actions, i), CumVolume(f, actions, i));
  }

  // ---- what one action does ----

  lemma OneAction(f: Frame, a: Action, i: nat)
    requires Checked(a).Ok? && WellFormed([a]) && i < |f|
    ensures CumPrice(f, [a], i) == PriceScale(f, a, i) && CumVolume(f, [a], i) == VolumeScale(f, a, i)
  {
    assert [a][..0] == [];
    assert CumPrice(f, [a], i) == Prod(CumPrice(f, [], i), PriceScale(f, a, i));
    assert CumVolume(f, [a], i) == Prod(CumVolume(f, [], i), VolumeScale(f, a, i));
  }

  /** A dividend lowers the last close before its ex-date by exactly its amount, and leaves every volume alone. */
  lemma DividendLowersByAmount(f: Frame, a: Action, i: nat)
    requires Sorted(f) && Checked(a).Ok? && WellFormed([a]) && a.kind == Dividend && !Rejected(f, a)
    requires i < |f| && Day(f[i].timestamp) < a.exDate && (i + 1 < |f| ==> Day(f[i + 1].timestamp) >= a.exDate)
    ensures Adjusted(f, [a])[i].close == f[i].close - a.amount
    ensures forall j: nat :: j < |f| ==> Adjusted(f, [a])[j].volume == f[j].volume
  {
    assert Before(f, a.exDate) == i + 1;
    OneAction(f, a, i);
    DividendFactor(a, f[i].close);
    forall j: nat | j < |f| ensures Adjusted(f, [a])[j].volume == f[j].volume {
      OneAction(f, a, j);
      assert Prod(f[j].volume as real, 1.0) == f[j].volume as real;
    }
  }

  lemma DividedThenTimes(close: real, factor: real, ratio: real)
    requires Prod(factor, ratio) == 1.0
    ensures Prod(Prod(close, factor), ratio) == close
  {
    assert close * factor * ratio == close * (factor * ratio);
  }

  /** A split or bonus divides every earlier price by its ratio, and multiplies every earlier volume by it. */
  lemma SplitDividesPrices(f: Frame, a: Action, i: nat)
    requires Sorted(f) && Checked(a).Ok? && WellFormed([a])
    requires a.kind != Dividend && i < |f| && Day(f[i].timestamp) < a.exDate
    ensures var adjusted := Adjusted(f, [a])[i];
      && Prod(adjusted.close, a.ratio) == f[i].close
      && adjusted.volume as real - 0.5 <= Prod(f[i].volume as real, a.ratio) <= adjusted.volume as real + 0.5
  {
    assert i < Before(f, a.exDate);
    OneAction(f, a, i);
    DividendFactor(a, Reference(f, a));
    DividedThenTimes(f[i].close, PriceFactor(a, Reference(f, a)).value, a.ratio);
  }

  lemma Alike(x: real, y: real, factor: real)
    ensures Prod(Prod(x, factor), y) == Prod(x, Prod(y, factor))
  {
  }

  /** All four prices of a bar are scaled alike, so their proportions stay, and its time does. */
  lemma BarShapeKept(f: Frame, actions: seq<Action>, i: nat)
    requires WellFormed(actions) && i < |f|
    ensures var b, adjusted := f[i], Adjusted(f, actions)[i];
      && adjusted.timestamp == b.timestamp
      && Prod(adjusted.open, b.close) == Prod(b.open, adjusted.close)
      && Prod(adjusted.high, b.close) == Prod(b.high, adjusted.close)
      && Prod(adjusted.low, b.close) == Prod(b.low, adjusted.close)
  {
    var factor := CumPrice(f, actions, i);
    Alike(f[i].open, f[i].close, factor);
    Alike(f[i].high, f[i].close, factor);
    Alike(f[i].low, f[i].close, factor);
  }

  // ---- the order of actions does not matter ----

  lemma Exchange(p: real, x: real, y: real)
    ensures Prod(Prod(p, x), y) == Prod(Prod(p, y), x)
  {
  }

  lemma {:induction false} FactorOut(f: Frame, xs: seq<Action>, a: Action, ys: seq<Action>, i: nat)
    requires WellFormed(xs) && WellFormed(ys) && Checked(a).Ok?
    ensures WellFormed(xs + [a] + ys) && WellFormed(xs + ys)
    ensures CumPrice(f, xs + [a] + ys, i) == Prod(CumPrice(f, xs + ys, i), PriceScale(f, a, i))
    ensures CumVolume(f, xs + [a] + ys, i) == Prod(CumVolume(f, xs + ys, i), VolumeScale(f, a, i))
  {
    var all := xs + [a] + ys;
    if |ys| == 0 {
      assert all == xs + [a] && all[..|xs|] == xs && xs + ys == xs;
    } else {
      var front, last := ys[..|ys| - 1], ys[|ys| - 1];
      FactorOut(f, xs, a, front, i);
      assert all[..|all| - 1] == xs + [a] + front && (xs + ys)[..|xs + ys| - 1] == xs + front;
      Exchange(CumPrice(f, xs + front, i), PriceScale(f, a, i), PriceScale(f, last, i));
      Exchange(CumVolume(f, xs + front, i), VolumeScale(f, a, i), VolumeScale(f, last, i));
    }
  }

  lemma Locate(actions: seq<Action>, a: Action) returns (k: nat)
    requires a in multiset(actions)
    ensures k < |actions| && actions[k] == a
    ensures actions == actions[..k] + [a] + actions[k + 1..]
    ensures multiset(actions[..k] + actions[k + 1..]) == multiset(actions) - multiset{a}
  {
    k :| 0 <= k < |actions| && actions[k] == a;
    assert actions == actions[..k] + [a] + actions[k + 1..];
  }

  /** The same actions in any order compound to the same factors. */
  lemma {:induction false} OrderIndependent(f: Frame, a: seq<Action>, b: seq<Action>, i: nat)
    requires WellFormed(a) && WellFormed(b) && multiset(a) == multiset(b)
    ensures CumPrice(f, a, i) == CumPrice(f, b, i) && CumVolume(f, a, i) == CumVolume(f, b, i)
  {
    if |a| == 0 {
      assert |multiset(b)| == 0;
    } else {
      var front, last := a[..|a| - 1], a[|a| - 1];
      assert a == front + [last];
      var k := Locate(b, last);
      OrderIndependent(f, front, b[..k] + b[k + 1..], i);
      FactorOut(f, b[..k], last, b[k + 1..], i);
    }
  }

  /** The scale a bar gets is the factor of exactly the actions with a later ex-date. */
  lemma ScaledByLaterActions(f: Frame, a: Action, i: nat)
    requires Sorted(f) && i < |f| && Checked(a).Ok? && !Rejected(f, a)
    ensures PriceScale(f, a, i) ==
      if Day(f[i].timestamp) < a.exDate then PriceFactor(a, Reference(f, a)).value else 1.0
  {
  }
}
