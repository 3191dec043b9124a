/** Split and bonus back-adjustment of a daily panel (src/quant/research/factors/corporate_actions.py). */
module Splits {
  import opened Wrappers
  import opened Sums

  function Power(x: real, n: nat): real {
    if n == 0 then 1.0 else Prod(Power(x, n - 1), x)
  }

  /** The observed overnight ratio at a session. */
  function Factor(raw: seq<real>, pos: nat): real
    requires 0 < pos < |raw| && raw[pos - 1] != 0.0
  {
    raw[pos] / raw[pos - 1]
  }

  /** The session is in the panel and its ratio is a real drop. */
  predicate Accepted(raw: seq<real>, pos: int, maxFactor: real) {
    && 0 < pos < |raw| && raw[pos - 1] > 0.0 && raw[pos] > 0.0
    && 0.0 < Factor(raw, pos) < maxFactor
  }

  /** A date is adjusted for exactly when both closes are positive and the later below the factor times the earlier. */
  lemma AcceptedIsDrop(raw: seq<real>, pos: int, maxFactor: real)
    ensures Accepted(raw, pos, maxFactor) <==>
      0 < pos < |raw| && raw[pos - 1] > 0.0 && 0.0 < raw[pos] < Prod(maxFactor, raw[pos - 1])
  {
    if 0 < pos < |raw| && raw[pos - 1] > 0.0 && raw[pos] > 0.0 {
      var q := raw[pos] / raw[pos - 1];
      Quotient(raw[pos], raw[pos - 1]);
      PositiveQuotient(raw[pos], raw[pos - 1]);
      if q < maxFactor {
        ProductPositive(maxFactor - q, raw[pos - 1], (maxFactor - q) * raw[pos - 1]);
      } else {
        ProductNonNegative(q - maxFactor, raw[pos - 1]);
      }
    }
  }

  /** What one ex-date does to bar t: everything strictly before an accepted one is scaled. */
  function Scale(raw: seq<real>, pos: int, maxFactor: real, t: nat): real {
    if Accepted(raw, pos, maxFactor) && t < pos then Factor(raw, pos) else 1.0
  }

  /** What the first n ex-dates do to bar t together. */
  function Multiplier(raw: seq<real>, ex: seq<int>, maxFactor: real, t: nat, n: nat): (r: real)
    requires n <= |ex|
  {
    if n == 0 then 1.0 else Prod(Multiplier(raw, ex, maxFactor, t, n - 1), Scale(raw, ex[n - 1], maxFactor, t))
  }

  /** c and v are bar t's close and volume after the first n ex-dates. */
  ghost predicate IsAdjusted(raw: seq<real>, volume: seq<real>, ex: seq<int>, maxFactor: real, n: nat, t: nat, c: real,
                             v: real)
    requires n <= |ex| && t < |raw| == |volume|
  {
    var m := Multiplier(raw, ex, maxFactor, t, n);
    c == Prod(raw[t], m) && Prod(v, m) == volume[t]
  }

  lemma ScaledBar(price: real, v: real, multiplier: real, factor: real)
    requires factor != 0.0
    ensures Prod(price, multiplier) * factor == Prod(price, Prod(multiplier, factor))
    ensures Prod(v / factor, Prod(multiplier, factor)) == Prod(v, multiplier)
  {
    Quotient(v, factor);
    assert (v / factor) * (multiplier * factor) == (v / factor * factor) * multiplier;
  }

  lemma StepBar(raw: seq<real>, volume: seq<real>, ex: seq<int>, maxFactor: real, n: nat, t: nat, c: real, v: real)
    requires n < |ex| && t < |raw| == |volume| && IsAdjusted(raw, volume, ex, maxFactor, n, t, c, v)
    ensures if Accepted(raw, ex[n], maxFactor) && t < ex[n]
      then IsAdjusted(raw, volume, ex, maxFactor, n + 1, t, c * Factor(raw, ex[n]), v / Factor(raw, ex[n]))
      else IsAdjusted(raw, volume, ex, maxFactor, n + 1, t, c, v)
  {
    if Accepted(raw, ex[n], maxFactor) && t < ex[n] {
      ScaledBar(raw[t], v, Multiplier(raw, ex, maxFactor, t, n), Factor(raw, ex[n]));
    }
  }

  ghost predicate AllAdjusted(raw: seq<real>, volume: seq<real>, ex: seq<int>, maxFactor: real, n: nat, col: seq<real>,
                              vol: seq<real>)
    requires n <= |ex| && |volume| == |raw| == |col| == |vol|
  {
    forall t: nat :: t < |raw| ==> IsAdjusted(raw, volume, ex, maxFactor, n, t, col[t], vol[t])
  }

  lemma Skipped(raw: seq<real>, volume: seq<real>, ex: seq<int>, maxFactor: real, n: nat, col: seq<real>,
                vol: seq<real>)
    requires n < |ex| && |volume| == |raw| == |col| == |vol|
    requires !Accepted(raw, ex[n], maxFactor) && AllAdjusted(raw, volume, ex, maxFactor, n, col, vol)
    ensures AllAdjusted(raw, volume, ex, maxFactor, n + 1, col, vol)
  {
    forall t: nat | t < |raw| ensures IsAdjusted(raw, volume, ex, maxFactor, n + 1, t, col[t], vol[t]) {
      StepBar(raw, volume, ex, maxFactor, n, t, col[t], vol[t]);
    }
  }

  function Divided(v: real, factor: real): real
    requires factor != 0.0
  {
    v / factor
  }

  lemma StepScaled(raw: seq<real>, volume: seq<real>, ex: seq<int>, maxFactor: real, n: nat, t: nat, c: real, v: real,
                   factor: real)
    requires n < |ex| && t < |raw| == |volume| && IsAdjusted(raw, volume, ex, maxFactor, n, t, c, v)
    requires Accepted(raw, ex[n], maxFactor) && t < ex[n] && factor == Factor(raw, ex[n])
    ensures IsAdjusted(raw, volume, ex, maxFactor, n + 1, t, Prod(c, factor), Divided(v, factor))
  {
    StepBar(raw, volume, ex, maxFactor, n, t, c, v);
  }

  /** The in-place scaling of every bar before one accepted ex-date. */
  method ScaleBefore(raw: seq<real>, volume: seq<real>, ex: seq<int>, maxFactor: real, n: nat, col: array<real>,
                     vol: array<real>)
    requires |volume| == |raw| == col.Length == vol.Length && col != vol && n < |ex| && Accepted(raw, ex[n], maxFactor)
    requires AllAdjusted(raw, volume, ex, maxFactor, n, col[..], vol[..])
    modifies col, vol
    ensures AllAdjusted(raw, volume, ex, maxFactor, n + 1, col[..], vol[..])
  {
    var pos: nat := ex[n];
    var factor := Factor(raw, pos);
    for i := 0 to pos
      invariant forall t: nat :: t < i ==> IsAdjusted(raw, volume, ex, maxFactor, n + 1, t, col[t], vol[t])
      invariant forall t: nat :: i <= t < |raw| ==> IsAdjusted(raw, volume, ex, maxFactor, n, t, col[t], vol[t])
    {
      StepScaled(raw, volume, ex, maxFactor, n, i, col[i], vol[i], factor);
      col[i] := Prod(col[i], factor);
      vol[i] := Divided(vol[i], factor);
    }
    forall t: nat | pos <= t < |raw| ensures IsAdjusted(raw, volume, ex, maxFactor, n + 1, t, col[t], vol[t]) {
      StepBar(raw, volume, ex, maxFactor, n, t, col[t], vol[t]);
    }
  }

  /**
   * One symbol. `ex` holds the ex-dates' positions in the panel, repeats and all; a date the panel lacks has a negative
   * one.
   */
  method BackAdjust(raw: seq<real>, volume: seq<real>, ex: seq<int>, maxFactor: real)
    returns (col: array<real>, vol: array<real>)
    requires |volume| == |raw|
    ensures fresh(col) && fresh(vol) && col.Length == vol.Length == |raw|
    ensures AllAdjusted(raw, volume, ex, maxFactor, |ex|, col[..], vol[..])
  {
    col := new real[|raw|](t requires 0 <= t < |raw| => raw[t]);
    vol := new real[|raw|](t requires 0 <= t < |raw| => volume[t]);
    for n := 0 to |ex|
      invariant AllAdjusted(raw, volume, ex, maxFactor, n, col[..], vol[..])
    {
      var pos := ex[n];
      if pos <= 0 || pos >= |raw| {
        Skipped(raw, volume, ex, maxFactor, n, col[..], vol[..]);
        continue;
      }
      var prev, cur := raw[pos - 1], raw[pos];
      if !(prev > 0.0 && cur > 0.0) {
        Skipped(raw, volume, ex, maxFactor, n, col[..], vol[..]);
        continue;
      }
      var factor := cur / prev;
      if !(0.0 < factor < maxFactor) {
        Skipped(raw, volume, ex, maxFactor, n, col[..], vol[..]);
        continue;
      }
      ScaleBefore(raw, volume, ex, maxFactor, n, col, vol);
    }
  }

  // ---- what the adjusted column is ----

  /** The adjusted close of bar t. */
  ghost function Close(raw: seq<real>, ex: seq<int>, maxFactor: real, t: nat): real
    requires t < |raw|
  {
    Prod(raw[t], Multiplier(raw, ex, maxFactor, t, |ex|))
  }

  /** Close times volume does not change at any bar. */
  lemma TradedValueKept(raw: seq<real>, volume: seq<real>, ex: seq<int>, maxFactor: real, t: nat, c: real, v: real)
    requires t < |raw| == |volume| && IsAdjusted(raw, volume, ex, maxFactor, |ex|, t, c, v)
    ensures c * v == raw[t] * volume[t]
  {
    var m := Multiplier(raw, ex, maxFactor, t, |ex|);
    assert (raw[t] * m) * v == raw[t] * (v * m);
  }

  ghost function Count(ex: seq<int>, pos: int, n: nat): nat
    requires n <= |ex|
  {
    if n == 0 then 0 else Count(ex, pos, n - 1) + if ex[n - 1] == pos then 1 else 0
  }

  /** What the ex-dates at session p contribute to every bar before it. */
  ghost function Jump(raw: seq<real>, ex: seq<int>, maxFactor: real, p: nat, n: nat): real
    requires n <= |ex|
  {
    if Accepted(raw, p, maxFactor) then Power(Factor(raw, p), Count(ex, p, n)) else 1.0
  }

  lemma SwapFactors(a: real, b: real, c: real)
    ensures Prod(Prod(a, b), c) == Prod(Prod(a, c), b)
  {
  }

  lemma StepExact(later: real, jump: real, factor: real)
    ensures Prod(Prod(later, jump), factor) == Prod(Prod(later, 1.0), Prod(jump, factor))
  {
  }

  /** One bar earlier, the multiplier has one more session's factors in it. */
  lemma {:induction false} StepBack(raw: seq<real>, ex: seq<int>, maxFactor: real, t: nat, n: nat)
    requires n <= |ex|
    ensures Multiplier(raw, ex, maxFactor, t, n)
      == Prod(Multiplier(raw, ex, maxFactor, t + 1, n), Jump(raw, ex, maxFactor, t + 1, n))
  {
    if n > 0 {
      StepBack(raw, ex, maxFactor, t, n - 1);
      var later, jump := Multiplier(raw, ex, maxFactor, t + 1, n - 1), Jump(raw, ex, maxFactor, t + 1, n - 1);
      var pos := ex[n - 1];
      if Accepted(raw, pos, maxFactor) {
        if pos == t + 1 {
          StepExact(later, jump, Factor(raw, t + 1));
        } else if t + 1 < pos {
          SwapFactors(later, jump, Factor(raw, pos));
        }
      }
    }
  }

  lemma {:induction false} PowerPositive(x: real, n: nat)
    requires x > 0.0
    ensures Power(x, n) > 0.0
  {
    if n > 0 {
      PowerPositive(x, n - 1);
      ProductPositive(Power(x, n - 1), x, Power(x, n));
    }
  }

  lemma {:induction false} PowerBelow(x: real, n: nat)
    requires 0.0 < x < 1.0 && n > 0
    ensures Power(x, n) <= x && (n > 1 ==> Power(x, n) < x)
  {
    if n > 1 {
      PowerBelow(x, n - 1);
      PowerPositive(x, n - 1);
      ProductPositive(Power(x, n - 1), 1.0 - x, Power(x, n - 1) * (1.0 - x));
    }
  }

  lemma {:induction false} MultiplierPositive(raw: seq<real>, ex: seq<int>, maxFactor: real, t: nat, n: nat)
    requires n <= |ex|
    ensures Multiplier(raw, ex, maxFactor, t, n) > 0.0
  {
    if n > 0 {
      MultiplierPositive(raw, ex, maxFactor, t, n - 1);
      var before, scale := Multiplier(raw, ex, maxFactor, t, n - 1), Scale(raw, ex[n - 1], maxFactor, t);
      ProductPositive(before, scale, Multiplier(raw, ex, maxFactor, t, n));
    }
  }

  /** Across a session that is not an accepted ex-date the price ratio is the raw one. */
  lemma OtherRatiosKept(raw: seq<real>, ex: seq<int>, maxFactor: real, t: nat)
    requires 0 < t < |raw| && (!Accepted(raw, t, maxFactor) || Count(ex, t, |ex|) == 0)
    ensures Prod(Close(raw, ex, maxFactor, t), raw[t - 1]) == Prod(Close(raw, ex, maxFactor, t - 1), raw[t])
  {
    StepBack(raw, ex, maxFactor, t - 1, |ex|);
    SwapFactors(raw[t], Multiplier(raw, ex, maxFactor, t, |ex|), raw[t - 1]);
    SwapFactors(raw[t - 1], Multiplier(raw, ex, maxFactor, t, |ex|), raw[t]);
  }

  lemma {:induction false} PowerAbove(x: real, n: nat)
    requires 1.0 < x && n > 0
    ensures Power(x, n) >= x && (n > 1 ==> Power(x, n) > x)
  {
    if n > 1 {
      PowerAbove(x, n - 1);
      ProductPositive(Power(x, n - 1), x - 1.0, Power(x, n - 1) * (x - 1.0));
    }
  }

  lemma {:induction false} PowerOfOne(n: nat)
    ensures Power(1.0, n) == 1.0
  {
    if n > 0 {
      PowerOfOne(n - 1);
    }
  }

  /** A positive ratio is a power of itself for the exponent 1 only, unless it is 1. */
  lemma PowerIsBase(x: real, n: nat)
    requires x > 0.0
    ensures Power(x, n) == x <==> n == 1 || x == 1.0
  {
    if n > 0 && x < 1.0 {
      PowerBelow(x, n);
    } else if n > 0 && x > 1.0 {
      PowerAbove(x, n);
    } else if n > 0 {
      PowerOfOne(n);
    }
    assert n == 1 ==> Power(x, n) == Prod(Power(x, 0), x);
  }

  lemma Continuity(prev: real, cur: real, m: real, f: real, power: real)
    requires prev > 0.0 && m > 0.0 && cur == f * prev
    ensures Prod(cur, m) == Prod(prev, Prod(m, power)) <==> power == f
  {
    var d, base := f - power, prev * m;
    ProductPositive(prev, m, base);
    assert cur * m - prev * (m * power) == d * base;
    if d != 0.0 && d * base == 0.0 {
      CancelFactor(d, 0.0, base);
    }
  }

  /**
   * Across a session whose ratio is accepted the adjusted close is continuous if and only if that ex-date was given
   * once, or nothing jumped: a repeated date is multiplied in again for every repeat.
   */
  lemma ContinuousIffOnce(raw: seq<real>, ex: seq<int>, maxFactor: real, t: nat)
    requires 0 < t < |raw| && Accepted(raw, t, maxFactor)
    ensures Close(raw, ex, maxFactor, t) == Close(raw, ex, maxFactor, t - 1)
      <==> Count(ex, t, |ex|) == 1 || Factor(raw, t) == 1.0
  {
    var m, f, k := Multiplier(raw, ex, maxFactor, t, |ex|), Factor(raw, t), Count(ex, t, |ex|);
    StepBack(raw, ex, maxFactor, t - 1, |ex|);
    MultiplierPositive(raw, ex, maxFactor, t, |ex|);
    PowerIsBase(f, k);
    Quotient(raw[t], raw[t - 1]);
    Continuity(raw[t - 1], raw[t], m, f, Power(f, k));
  }

  // ---- the order of events does not matter ----

  /** The factors of sessions t + 1, t + 2, ... in the panel's own order. */
  ghost function ByCounts(raw: seq<real>, ex: seq<int>, maxFactor: real, t: nat): real
    decreases |raw| - t
  {
    if t >= |raw| then 1.0 else Prod(ByCounts(raw, ex, maxFactor, t + 1), Jump(raw, ex, maxFactor, t + 1, |ex|))
  }

  lemma {:induction false} NothingAfterEnd(raw: seq<real>, ex: seq<int>, maxFactor: real, t: nat, n: nat)
    requires n <= |ex| && t >= |raw|
    ensures Multiplier(raw, ex, maxFactor, t, n) == 1.0
  {
    if n > 0 {
      NothingAfterEnd(raw, ex, maxFactor, t, n - 1);
    }
  }

  lemma {:induction false} MultiplierByCounts(raw: seq<real>, ex: seq<int>, maxFactor: real, t: nat)
    ensures Multiplier(raw, ex, maxFactor, t, |ex|) == ByCounts(raw, ex, maxFactor, t)
    decreases |raw| - t
  {
    if t >= |raw| {
      NothingAfterEnd(raw, ex, maxFactor, t, |ex|);
    } else {
      MultiplierByCounts(raw, ex, maxFactor, t + 1);
      StepBack(raw, ex, maxFactor, t, |ex|);
    }
  }

  ghost predicate SameEvents(a: seq<int>, b: seq<int>) {
    forall p :: Count(a, p, |a|) == Count(b, p, |b|)
  }

  lemma {:induction false} SameByCounts(raw: seq<real>, a: seq<int>, b: seq<int>, maxFactor: real, t: nat)
    requires SameEvents(a, b)
    ensures ByCounts(raw, a, maxFactor, t) == ByCounts(raw, b, maxFactor, t)
    decreases |raw| - t
  {
    if t < |raw| {
      SameByCounts(raw, a, b, maxFactor, t + 1);
      assert Count(a, t + 1, |a|) == Count(b, t + 1, |b|);
    }
  }

  /** The same ex-dates in any order give the same column. */
  lemma OrderIndependent(raw: seq<real>, a: seq<int>, b: seq<int>, maxFactor: real, t: nat)
    requires t < |raw| && SameEvents(a, b)
    ensures Close(raw, a, maxFactor, t) == Close(raw, b, maxFactor, t)
  {
    MultiplierByCounts(raw, a, maxFactor, t);
    MultiplierByCounts(raw, b, maxFactor, t);
    SameByCounts(raw, a, b, maxFactor, t);
  }

  // ---- the panel ----

  /** Sessions by calendar day, and one column of values per symbol. */
  datatype Panel = Panel(days: seq<int>, symbols: seq<string>, columns: seq<seq<real>>)

  datatype FactorError = Misaligned

  ghost predicate Shaped(p: Panel) {
    |p.columns| == |p.symbols| && forall j :: 0 <= j < |p.columns| ==> |p.columns[j]| == |p.days|
  }

  /** A confirmed split or bonus. */
  datatype Event = Event(symbol: string, day: int)

  /** The ex-dates of one symbol, in the order they were given. */
  function DaysOf(events: seq<Event>, symbol: string): seq<int> {
    if |events| == 0 then []
    else
      var last := events[|events| - 1];
      DaysOf(events[..|events| - 1], symbol) + if last.symbol == symbol then [last.day] else []
  }

  ghost function TimesGiven(events: seq<Event>, e: Event): nat {
    if |events| == 0 then 0 else TimesGiven(events[..|events| - 1], e) + if events[|events| - 1] == e then 1 else 0
  }

  lemma {:induction false} CountPrefix(a: seq<int>, b: seq<int>, p: int, n: nat)
    requires n <= |a| && n <= |b| && forall i :: 0 <= i < n ==> a[i] == b[i]
    ensures Count(a, p, n) == Count(b, p, n)
  {
    if n > 0 {
      CountPrefix(a, b, p, n - 1);
    }
  }

  /** A symbol gets its own ex-dates, each as often as it was given. */
  lemma {:induction false} OwnDays(events: seq<Event>, symbol: string, day: int)
    ensures Count(DaysOf(events, symbol), day, |DaysOf(events, symbol)|) == TimesGiven(events, Event(symbol, day))
  {
    if |events| > 0 {
      var front, last := events[..|events| - 1], events[|events| - 1];
      OwnDays(front, symbol, day);
      assert last == Event(symbol, day) <==> last.symbol == symbol && last.day == day;
      if last.symbol == symbol {
        assert DaysOf(events, symbol) == DaysOf(front, symbol) + [last.day];
        CountPrefix(DaysOf(events, symbol), DaysOf(front, symbol), day, |DaysOf(front, symbol)|);
      } else {
        assert DaysOf(events, symbol) == DaysOf(front, symbol);
      }
    }
  }

  function InsertDay(days: seq<int>, day: int): (r: seq<int>) {
    if |days| == 0 || days[|days| - 1] <= day then days + [day]
    else InsertDay(days[..|days| - 1], day) + [days[|days| - 1]]
  }

  function SortDays(days: seq<int>): seq<int> {
    if |days| == 0 then [] else InsertDay(SortDays(days[..|days| - 1]), days[|days| - 1])
  }

  /** The session of a calendar day, the last one if it is there twice, or -1. */
  function SessionOf(days: seq<int>, day: int): (r: int)
    ensures -1 <= r < |days| && (r >= 0 ==> days[r] == day)
    ensures forall i :: r < i < |days| ==> days[i] != day
  {
    if |days| == 0 then -1 else if days[|days| - 1] == day then |days| - 1 else SessionOf(days[..|days| - 1], day)
  }

  function Sessions(days: seq<int>, exDays: seq<int>): (r: seq<int>)
    ensures |r| == |exDays| && forall i :: 0 <= i < |r| ==> r[i] == SessionOf(days, exDays[i])
  {
    seq(|exDays|, i requires 0 <= i < |exDays| => SessionOf(days, exDays[i]))
  }

  /** The sessions a symbol's ex-dates fall on, earliest date first. */
  function ExSessions(days: seq<int>, events: seq<Event>, symbol: string): seq<int> {
    Sessions(days, SortDays(DaysOf(events, symbol)))
  }

  /** Every column of both panels is adjusted for its own symbol's events; one without events is as it was. */
  ghost predicate PanelAdjusted(close: Panel, volume: Panel, events: seq<Event>, maxFactor: real, n: nat,
                                adjustedClose: seq<seq<real>>, adjustedVolume: seq<seq<real>>)
    requires Shaped(close) && Shaped(volume) && close.days == volume.days
    requires close.symbols == volume.symbols && n <= |close.symbols|
  {
    && |adjustedClose| == |adjustedVolume| == n
    && forall j :: 0 <= j < n ==>
        && |adjustedClose[j]| == |adjustedVolume[j]| == |close.days|
        && var ex := ExSessions(close.days, events, close.symbols[j]);
           AllAdjusted(close.columns[j], volume.columns[j], ex, maxFactor, |ex|, adjustedClose[j], adjustedVolume[j])
  }

  method BackAdjustPanel(close: Panel, volume: Panel, events: seq<Event>, maxFactor: real)
    returns (r: Result<(Panel, Panel), FactorError>)
    requires Shaped(close) && Shaped(volume)
    ensures r.Err? <==> close.symbols != volume.symbols || close.days != volume.days
    ensures r.Ok? ==>
      var (c, v) := r.value;
      && c.days == v.days == close.days && c.symbols == v.symbols == close.symbols
      && PanelAdjusted(close, volume, events, maxFactor, |close.symbols|, c.columns, v.columns)
  {
    if close.symbols != volume.symbols || close.days != volume.days {
      return Err(Misaligned);
    }
    var closes, volumes := [], [];
    for j := 0 to |close.symbols|
      invariant PanelAdjusted(close, volume, events, maxFactor, j, closes, volumes)
    {
      var ex := ExSessions(close.days, events, close.symbols[j]);
      var col, vol := BackAdjust(close.columns[j], volume.columns[j], ex, maxFactor);
      closes, volumes := closes + [col[..]], volumes + [vol[..]];
    }
    return Ok((close.(columns := closes), volume.(columns := volumes)));
  }

  lemma CountAppend(days: seq<int>, exDays: seq<int>, day: int, p: int)
    ensures Count(Sessions(days, exDays + [day]), p, |exDays| + 1)
         == Count(Sessions(days, exDays), p, |exDays|) + if SessionOf(days, day) == p then 1 else 0
  {
    CountPrefix(Sessions(days, exDays + [day]), Sessions(days, exDays), p, |exDays|);
  }

  lemma {:induction false} InsertCounts(days: seq<int>, exDays: seq<int>, day: int, p: int)
    ensures Count(Sessions(days, InsertDay(exDays, day)), p, |InsertDay(exDays, day)|)
         == Count(Sessions(days, exDays), p, |exDays|) + if SessionOf(days, day) == p then 1 else 0
  {
    if |exDays| == 0 || exDays[|exDays| - 1] <= day {
      CountAppend(days, exDays, day, p);
    } else {
      var front, last := exDays[..|exDays| - 1], exDays[|exDays| - 1];
      InsertCounts(days, front, day, p);
      CountAppend(days, InsertDay(front, day), last, p);
      CountAppend(days, front, last, p);
      assert exDays == front + [last];
    }
  }

  lemma {:induction false} InsertLength(days: seq<int>, day: int)
    ensures |InsertDay(days, day)| == |days| + 1
  {
    if |days| > 0 {
      InsertLength(days[..|days| - 1], day);
    }
  }

  lemma {:induction false} SortCounts(days: seq<int>, exDays: seq<int>, p: int)
    ensures |SortDays(exDays)| == |exDays|
    ensures Count(Sessions(days, SortDays(exDays)), p, |exDays|) == Count(Sessions(days, exDays), p, |exDays|)
  {
    if |exDays| > 0 {
      var front, last := exDays[..|exDays| - 1], exDays[|exDays| - 1];
      SortCounts(days, front, p);
      InsertCounts(days, SortDays(front), last, p);
      InsertLength(SortDays(front), last);
      CountAppend(days, front, last, p);
      assert exDays == front + [last];
    }
  }

  /** Sorting a symbol's ex-dates first changes nothing: its adjusted closes are those of the dates as given. */
  lemma SortingIsHarmless(raw: seq<real>, days: seq<int>, events: seq<Event>, symbol: string, maxFactor: real, t: nat)
    requires t < |raw| == |days|
    ensures Close(raw, ExSessions(days, events, symbol), maxFactor, t)
      == Close(raw, Sessions(days, DaysOf(events, symbol)), maxFactor, t)
  {
    var given := DaysOf(events, symbol);
    forall p
      ensures Count(Sessions(days, SortDays(given)), p, |SortDays(given)|) == Count(Sessions(days, given), p, |given|)
    {
      SortCounts(days, given, p);
    }
    OrderIndependent(raw, Sessions(days, SortDays(given)), Sessions(days, given), maxFactor, t);
  }
}
