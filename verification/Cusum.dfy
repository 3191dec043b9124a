/** The symmetric CUSUM event filter (src/quant/research/labeling/cusum.py), on log prices. */
module Cusum {
  import opened Wrappers
  import opened Sums

  datatype Acc = Acc(up: real, down: real)

  datatype CusumError = IndexNotSorted | IndexNotUnique | PriceNotPositive | ThresholdMisaligned | ThresholdNotPositive

  /** A value per instant. */
  datatype Series = Series(index: seq<int>, values: seq<real>)

  /** One threshold for every bar, or one per bar. */
  datatype Threshold = Scalar(h: real) | PerBar(series: Series)

  ghost predicate Limits(logs: seq<real>, limits: seq<real>) {
    |limits| == |logs| && forall i :: 0 <= i < |limits| ==> limits[i] > 0.0
  }

  function Moved(a: Acc, r: real): Acc {
    Acc(Max(0.0, a.up + r), Min(0.0, a.down + r))
  }

  /** A side that reaches its limit is reset; the down side is only looked at when the up side is quiet. */
  function Settled(a: Acc, limit: real): Acc {
    if a.up >= limit then a.(up := 0.0) else if a.down <= -limit then a.(down := 0.0) else a
  }

  /** The accumulators at bar n before any reset. */
  function Reached(logs: seq<real>, limits: seq<real>, n: nat): Acc
    requires |limits| == |logs| && 0 < n < |logs|
    decreases n, 0
  {
    Moved(After(logs, limits, n - 1), logs[n] - logs[n - 1])
  }

  /** The accumulators after bar n; the first bar has no return. */
  function After(logs: seq<real>, limits: seq<real>, n: nat): Acc
    requires |limits| == |logs| && n < |logs|
    decreases n, 1
  {
    if n == 0 then Acc(0.0, 0.0) else Settled(Reached(logs, limits, n), limits[n])
  }

  predicate UpEvent(logs: seq<real>, limits: seq<real>, n: nat)
    requires |limits| == |logs| && n < |logs|
  {
    n > 0 && Reached(logs, limits, n).up >= limits[n]
  }

  predicate DownEvent(logs: seq<real>, limits: seq<real>, n: nat)
    requires |limits| == |logs| && n < |logs|
  {
    n > 0 && !UpEvent(logs, limits, n) && Reached(logs, limits, n).down <= -limits[n]
  }

  predicate IsEvent(logs: seq<real>, limits: seq<real>, n: nat)
    requires |limits| == |logs| && n < |logs|
  {
    UpEvent(logs, limits, n) || DownEvent(logs, limits, n)
  }

  function Logs(prices: seq<real>, log: real -> real): (r: seq<real>)
    ensures |r| == |prices| && forall i :: 0 <= i < |r| ==> r[i] == log(prices[i])
  {
    seq(|prices|, i requires 0 <= i < |prices| => log(prices[i]))
  }

  ghost predicate IsSeries(s: Series) {
    |s.index| == |s.values|
  }

  ghost predicate NonDecreasing(index: seq<int>) {
    forall i, j :: 0 <= i < j < |index| ==> index[i] <= index[j]
  }

  ghost predicate Strict(index: seq<int>) {
    forall i, j :: 0 <= i < j < |index| ==> index[i] < index[j]
  }

  ghost predicate AllPositive(v: seq<real>) {
    forall i :: 0 <= i < |v| ==> v[i] > 0.0
  }

  /** The threshold at every bar. */
  ghost function LimitsOf(threshold: Threshold, n: nat): seq<real> {
    match threshold
    case Scalar(h) => Repeat(h, n)
    case PerBar(series) => series.values
  }

  ghost predicate Usable(prices: Series, threshold: Threshold) {
    && Strict(prices.index) && AllPositive(prices.values) && AllPositive(LimitsOf(threshold, |prices.index|))
    && (threshold.PerBar? ==> threshold.series.index == prices.index)
  }

  method ThresholdSeries(threshold: Threshold, prices: Series) returns (r: Result<seq<real>, CusumError>)
    requires IsSeries(prices) && |prices.index| > 0 && (threshold.PerBar? ==> IsSeries(threshold.series))
    ensures r.Err? ==> r.error == ThresholdMisaligned || r.error == ThresholdNotPositive
    ensures r == Err(ThresholdMisaligned) <==> threshold.PerBar? && threshold.series.index != prices.index
    ensures r.Ok? <==>
      && AllPositive(LimitsOf(threshold, |prices.index|))
      && (threshold.PerBar? ==> threshold.series.index == prices.index)
    ensures r.Ok? ==> r.value == LimitsOf(threshold, |prices.index|) && |r.value| == |prices.index|
  {
    match threshold
    case PerBar(series) =>
      if series.index != prices.index {
        return Err(ThresholdMisaligned);
      }
      if i :| 0 <= i < |series.values| && series.values[i] <= 0.0 {
        return Err(ThresholdNotPositive);
      }
      return Ok(series.values);
    case Scalar(h) =>
      assert h <= 0.0 ==> Repeat(h, |prices.index|)[0] <= 0.0;
      return if h <= 0.0 then Err(ThresholdNotPositive) else Ok(Repeat(h, |prices.index|));
  }

  /** These are the times of the first n bars' events, in order. */
  ghost predicate EventTimes(index: seq<int>, logs: seq<real>, limits: seq<real>, n: nat, events: seq<int>)
    requires |limits| == |logs| == |index| && n <= |logs|
  {
    && (forall t :: t in events ==> exists m: nat :: m < n && index[m] == t && IsEvent(logs, limits, m))
    && (forall m: nat :: m < n && IsEvent(logs, limits, m) ==> index[m] in events)
    && Strict(events)
  }

  lemma NextEvent(index: seq<int>, logs: seq<real>, limits: seq<real>, n: nat, events: seq<int>)
    requires |limits| == |logs| == |index| && n < |logs| && Strict(index) && EventTimes(index, logs, limits, n, events)
    ensures EventTimes(index, logs, limits, n + 1, if IsEvent(logs, limits, n) then events + [index[n]] else events)
  {
    forall a | 0 <= a < |events| ensures events[a] < index[n] {
      assert events[a] in events;
    }
    if IsEvent(logs, limits, n) {
      forall t | t in events + [index[n]]
        ensures exists m: nat :: m < n + 1 && index[m] == t && IsEvent(logs, limits, m)
      {
        if t in events {
          var m: nat :| m < n && index[m] == t && IsEvent(logs, limits, m);
        }
      }
    }
  }

  /** The single pass over the bars. */
  method SampleEvents(index: seq<int>, logs: seq<real>, limits: seq<real>) returns (events: seq<int>)
    requires |index| == |logs| == |limits| > 0 && Strict(index)
    ensures EventTimes(index, logs, limits, |logs|, events)
  {
    var up, down := 0.0, 0.0;
    events := [];
    for n := 1 to |logs|
      invariant After(logs, limits, n - 1) == Acc(up, down)
      invariant EventTimes(index, logs, limits, n, events)
    {
      var increment, limit := logs[n] - logs[n - 1], limits[n];
      up := Max(0.0, up + increment);
      down := Min(0.0, down + increment);
      assert Reached(logs, limits, n) == Acc(up, down);
      NextEvent(index, logs, limits, n, events);
      if up >= limit {
        up := 0.0;
        events := events + [index[n]];
      } else if down <= -limit {
        down := 0.0;
        events := events + [index[n]];
      }
    }
  }

  /** The checks of the index, the prices and the threshold, and the pass. */
  method CusumEvents(prices: Series, log: real -> real, threshold: Threshold) returns (r: Result<seq<int>, CusumError>)
    requires IsSeries(prices) && (threshold.PerBar? ==> IsSeries(threshold.series))
    ensures |prices.index| == 0 ==> r == Ok([])
    ensures r == Err(IndexNotSorted) <==> !NonDecreasing(prices.index)
    ensures r == Err(IndexNotUnique) <==> NonDecreasing(prices.index) && !Strict(prices.index)
    ensures r == Err(PriceNotPositive) <==> Strict(prices.index) && !AllPositive(prices.values)
    ensures |prices.index| > 0 ==> (r.Ok? <==> Usable(prices, threshold))
    ensures r.Ok? && |prices.index| > 0 ==>
      var n := |prices.index|;
      Limits(prices.values, LimitsOf(threshold, n))
      && EventTimes(prices.index, Logs(prices.values, log), LimitsOf(threshold, n), n, r.value)
  {
    if |prices.index| == 0 {
      return Ok([]);
    }
    if i, j :| 0 <= i < j < |prices.index| && prices.index[i] > prices.index[j] {
      return Err(IndexNotSorted);
    }
    if i, j :| 0 <= i < j < |prices.index| && prices.index[i] == prices.index[j] {
      return Err(IndexNotUnique);
    }
    if i :| 0 <= i < |prices.values| && prices.values[i] <= 0.0 {
      return Err(PriceNotPositive);
    }
    var threshold' := ThresholdSeries(threshold, prices);
    if threshold'.Err? {
      return Err(threshold'.error);
    }
    var events := SampleEvents(prices.index, Logs(prices.values, log), threshold'.value);
    return Ok(events);
  }

  // ---- each accumulator is the move since the extreme after its own last reset ----

  ghost function UpReset(logs: seq<real>, limits: seq<real>, n: nat): (r: nat)
    requires |limits| == |logs| && n < |logs|
    ensures r <= n
  {
    if n == 0 || UpEvent(logs, limits, n) then n else UpReset(logs, limits, n - 1)
  }

  ghost function DownReset(logs: seq<real>, limits: seq<real>, n: nat): (r: nat)
    requires |limits| == |logs| && n < |logs|
    ensures r <= n
  {
    if n == 0 || DownEvent(logs, limits, n) then n else DownReset(logs, limits, n - 1)
  }

  /** x is how far logs[n] lies above the lowest bar in [from, n], reached at `at`. */
  ghost predicate RiseSince(logs: seq<real>, from: nat, n: nat, at: nat, x: real)
    requires n < |logs|
  {
    from <= at <= n && x == logs[n] - logs[at] && forall j :: from <= j <= n ==> x >= logs[n] - logs[j]
  }

  ghost predicate FallSince(logs: seq<real>, from: nat, n: nat, at: nat, x: real)
    requires n < |logs|
  {
    from <= at <= n && x == logs[n] - logs[at] && forall j :: from <= j <= n ==> x <= logs[n] - logs[j]
  }

  lemma {:induction false} UpIsRise(logs: seq<real>, limits: seq<real>, n: nat) returns (at: nat)
    requires |limits| == |logs| && n < |logs|
    ensures RiseSince(logs, UpReset(logs, limits, n), n, at, After(logs, limits, n).up)
  {
    at := n;
    if n > 0 && !UpEvent(logs, limits, n) {
      var before := UpIsRise(logs, limits, n - 1);
      if After(logs, limits, n - 1).up + (logs[n] - logs[n - 1]) > 0.0 {
        at := before;
      }
    }
  }

  lemma {:induction false} DownIsFall(logs: seq<real>, limits: seq<real>, n: nat) returns (at: nat)
    requires |limits| == |logs| && n < |logs|
    ensures FallSince(logs, DownReset(logs, limits, n), n, at, After(logs, limits, n).down)
  {
    at := n;
    if n > 0 && !DownEvent(logs, limits, n) {
      var before := DownIsFall(logs, limits, n - 1);
      if After(logs, limits, n - 1).down + (logs[n] - logs[n - 1]) < 0.0 {
        at := before;
      }
    }
  }

  // ---- when the down side can be masked ----

  /** Both sides reach the limit at bar n, so the down side is not looked at. */
  ghost predicate Masked(logs: seq<real>, limits: seq<real>, n: nat)
    requires |limits| == |logs| && n < |logs|
  {
    UpEvent(logs, limits, n) && Reached(logs, limits, n).down <= -limits[n]
  }

  /** A limit more than twice a later one, with every limit between them above that later one. */
  ghost predicate Drop(limits: seq<real>, k: nat, j: nat) {
    0 < k < j < |limits| && limits[k] > 2.0 * limits[j] && forall m :: k < m < j ==> limits[m] > limits[j]
  }

  ghost predicate Inside(logs: seq<real>, limits: seq<real>, n: nat)
    requires |limits| == |logs| && n < |logs|
  {
    -limits[n] < After(logs, limits, n).down <= 0.0 <= After(logs, limits, n).up < limits[n]
  }

  lemma {:induction false} InsideUnlessMasked(logs: seq<real>, limits: seq<real>, n: nat)
    requires Limits(logs, limits) && n < |logs| && !Masked(logs, limits, n)
    ensures Inside(logs, limits, n)
  {
  }

  lemma {:induction false} UpResetMonotone(logs: seq<real>, limits: seq<real>, m: nat, n: nat)
    requires |limits| == |logs| && m <= n < |logs|
    ensures UpReset(logs, limits, m) <= UpReset(logs, limits, n)
  {
    if m < n {
      UpResetMonotone(logs, limits, m, n - 1);
    }
  }

  lemma {:induction false} DownResetMonotone(logs: seq<real>, limits: seq<real>, m: nat, n: nat)
    requires |limits| == |logs| && m <= n < |logs|
    ensures DownReset(logs, limits, m) <= DownReset(logs, limits, n)
  {
    if m < n {
      DownResetMonotone(logs, limits, m, n - 1);
    }
  }

  /** While inside, the bars since both resets lie within the limit of the current one. */
  lemma WithinLimit(logs: seq<real>, limits: seq<real>, last: nat, m: nat, low: nat, high: nat)
    requires |limits| == |logs| && m <= last < |logs| && Inside(logs, limits, m)
    requires UpReset(logs, limits, last) <= low && DownReset(logs, limits, last) <= high
    ensures low <= m ==> logs[m] - logs[low] < limits[m]
    ensures high <= m ==> logs[high] - logs[m] < limits[m]
  {
    UpResetMonotone(logs, limits, m, last);
    DownResetMonotone(logs, limits, m, last);
    var a := UpIsRise(logs, limits, m);
    var b := DownIsFall(logs, limits, m);
  }

  lemma MaskingNeedsDrop(logs: seq<real>, limits: seq<real>, n: nat)
    requires Limits(logs, limits) && n < |logs| && Masked(logs, limits, n)
    requires forall m :: 0 <= m < n ==> Inside(logs, limits, m)
    ensures exists k :: Drop(limits, k, n)
  {
    var low := UpIsRise(logs, limits, n - 1);
    var high := DownIsFall(logs, limits, n - 1);
    assert logs[high] - logs[low] >= 2.0 * limits[n];
    var k := if low < high then high else low;
    WithinLimit(logs, limits, n - 1, k, low, high);
    forall m | k < m < n ensures limits[m] > limits[n] {
      WithinLimit(logs, limits, n - 1, m, low, high);
    }
    assert Drop(limits, k, n);
  }

  lemma {:induction false} NoDropNoMasking(logs: seq<real>, limits: seq<real>, n: nat)
    requires Limits(logs, limits) && n < |logs| && forall k, j :: !Drop(limits, k, j)
    ensures forall m :: 0 <= m <= n ==> !Masked(logs, limits, m) && Inside(logs, limits, m)
  {
    if n > 0 {
      NoDropNoMasking(logs, limits, n - 1);
    }
    if Masked(logs, limits, n) {
      MaskingNeedsDrop(logs, limits, n);
    }
    InsideUnlessMasked(logs, limits, n);
  }

  /** Rise at bar k by twice the later limit, fall back half way and stay. */
  ghost function Trap(k: nat, height: real, n: nat): (r: seq<real>)
    ensures |r| == n
    ensures forall i :: 0 <= i < n ==> r[i] == if i < k then 0.0 else if i == k then 2.0 * height else height
  {
    seq(n, i => if i < k then 0.0 else if i == k then 2.0 * height else height)
  }

  lemma {:induction false} TrapHolds(limits: seq<real>, k: nat, j: nat, n: nat)
    requires Drop(limits, k, j) && n < j && forall i :: 0 <= i < |limits| ==> limits[i] > 0.0
    ensures var h := limits[j];
      After(Trap(k, h, |limits|), limits, n)
        == if n < k then Acc(0.0, 0.0) else if n == k then Acc(2.0 * h, 0.0) else Acc(h, -h)
  {
    if n > 0 {
      TrapHolds(limits, k, j, n - 1);
    }
  }

  /** A down event can be masked on some price path if and only if the limits have such a drop. */
  lemma MaskingIffDrop(limits: seq<real>)
    requires forall i :: 0 <= i < |limits| ==> limits[i] > 0.0
    ensures (exists logs: seq<real>, n: nat :: |logs| == |limits| && n < |logs| && Masked(logs, limits, n))
       <==> (exists k, j :: Drop(limits, k, j))
  {
    if k: nat, j: nat :| Drop(limits, k, j) {
      var logs := Trap(k, limits[j], |limits|);
      TrapHolds(limits, k, j, j - 1);
      assert Masked(logs, limits, j);
    } else {
      forall logs: seq<real>, n: nat | |logs| == |limits| && n < |logs| ensures !Masked(logs, limits, n) {
        NoDropNoMasking(logs, limits, n);
      }
    }
  }

  /** With one threshold for all bars the accumulators stay strictly inside it and no event is masked. */
  lemma ConstantThreshold(logs: seq<real>, limits: seq<real>, h: real, n: nat)
    requires Limits(logs, limits) && n < |logs| && forall i :: 0 <= i < |limits| ==> limits[i] == h
    ensures -h < After(logs, limits, n).down <= 0.0 <= After(logs, limits, n).up < h && !Masked(logs, limits, n)
  {
    assert forall k: nat, j: nat :: k < |limits| && j < |limits| ==> limits[k] == limits[j];
    NoDropNoMasking(logs, limits, n);
    assert Inside(logs, limits, n) && limits[n] == h;
  }

  // ---- how many events there can be ----

  /** Total absolute log return over the first n + 1 bars, and the thresholds its events reached. */
  ghost function Travel(logs: seq<real>, n: nat): real
    requires n < |logs|
  {
    if n == 0 then 0.0 else Travel(logs, n - 1) + Abs(logs[n] - logs[n - 1])
  }

  ghost function Paid(logs: seq<real>, limits: seq<real>, n: nat): real
    requires |limits| == |logs| && n < |logs|
  {
    if n == 0 then 0.0 else Paid(logs, limits, n - 1) + if IsEvent(logs, limits, n) then limits[n] else 0.0
  }

  /** Every event uses up its threshold's worth of travel: the thresholds at events sum to at most the travel. */
  lemma {:induction false} EventsCostTravel(logs: seq<real>, limits: seq<real>, n: nat)
    requires Limits(logs, limits) && n < |logs|
    ensures var a := After(logs, limits, n);
      a.down <= 0.0 <= a.up && Paid(logs, limits, n) + a.up - a.down <= Travel(logs, n)
  {
    if n > 0 {
      EventsCostTravel(logs, limits, n - 1);
    }
  }

  // ---- the filter is causal ----

  lemma {:induction false} PrefixSameState(logs: seq<real>, limits: seq<real>, m: nat, n: nat)
    requires |limits| == |logs| && n < m <= |logs|
    ensures After(logs[..m], limits[..m], n) == After(logs, limits, n)
  {
    if n > 0 {
      PrefixSameState(logs, limits, m, n - 1);
    }
  }

  /** The events of the first m bars are the events of the whole series before bar m. */
  lemma EventsOfPrefix(logs: seq<real>, limits: seq<real>, m: nat, n: nat)
    requires |limits| == |logs| && n < m <= |logs|
    ensures IsEvent(logs[..m], limits[..m], n) <==> IsEvent(logs, limits, n)
  {
    if n > 0 {
      PrefixSameState(logs, limits, m, n - 1);
    }
  }
}
