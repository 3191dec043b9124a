/** The scans both labelers share (src/quant/research/labeling/barriers.py). */
module Barriers {
  import opened Wrappers
  import opened Bars

  datatype Touch = TouchHigh | TouchLow | TouchVertical

  /** The bar arrays of one symbol's sorted frame. */
  datatype Path = Path(times: seq<int>, high: seq<real>, low: seq<real>, close: seq<real>)

  datatype LabelingError = UnknownHoldingMode | EventNotABar | RepeatedTimestamps | ZeroReference

  ghost predicate Square(p: Path) {
    |p.high| == |p.low| == |p.close| == |p.times|
  }

  /** What bar i reaches, the stop side winning a bar that reaches both. */
  function Reached(p: Path, i: nat, high: real, low: real, tieToLow: bool): (r: Touch)
    requires Square(p) && i < |p.times|
    ensures r == TouchVertical <==> p.high[i] < high && p.low[i] > low
    ensures r == TouchHigh ==> p.high[i] >= high && (tieToLow ==> p.low[i] > low)
    ensures r == TouchLow ==> p.low[i] <= low && (!tieToLow ==> p.high[i] < high)
  {
    var hitHigh, hitLow := p.high[i] >= high, p.low[i] <= low;
    if hitHigh && hitLow then if tieToLow then TouchLow else TouchHigh
    else if hitHigh then TouchHigh
    else if hitLow then TouchLow
    else TouchVertical
  }

  /** The exit is the first bar after the event to reach a barrier, or the vertical one if none does. */
  ghost predicate IsFirstTouch(p: Path, position: nat, vertical: nat, high: real, low: real, tieToLow: bool,
                               touched: Touch, exit: nat)
    requires Square(p) && position < vertical < |p.times|
  {
    && position < exit <= vertical
    && touched == Reached(p, exit, high, low, tieToLow)
    && (touched == TouchVertical ==> exit == vertical)
    && forall i: nat :: position < i < exit ==> Reached(p, i, high, low, tieToLow) == TouchVertical
  }

  /** The same scan as a function of the first bar still to look at. */
  function Scan(p: Path, from: nat, vertical: nat, high: real, low: real, tieToLow: bool): (r: (Touch, nat))
    requires Square(p) && 0 < from <= vertical < |p.times|
    ensures IsFirstTouch(p, from - 1, vertical, high, low, tieToLow, r.0, r.1)
    decreases vertical - from
  {
    var here := Reached(p, from, high, low, tieToLow);
    if here != TouchVertical || from == vertical then (here, from)
    else Scan(p, from + 1, vertical, high, low, tieToLow)
  }

  method FirstTouch(p: Path, position: nat, vertical: nat, high: real, low: real, tieToLow: bool)
    returns (touched: Touch, exit: nat)
    requires Square(p) && position < vertical < |p.times|
    ensures IsFirstTouch(p, position, vertical, high, low, tieToLow, touched, exit)
    ensures (touched, exit) == Scan(p, position + 1, vertical, high, low, tieToLow)
  {
    for pos := position + 1 to vertical + 1
      invariant forall i: nat :: position < i < pos ==> Reached(p, i, high, low, tieToLow) == TouchVertical
    {
      var hitHigh, hitLow := p.high[pos] >= high, p.low[pos] <= low;
      if hitHigh && hitLow {
        return if tieToLow then TouchLow else TouchHigh, pos;
      }
      if hitHigh {
        return TouchHigh, pos;
      }
      if hitLow {
        return TouchLow, pos;
      }
    }
    return TouchVertical, vertical;
  }

  /** There is one answer. */
  lemma FirstTouchUnique(p: Path, position: nat, vertical: nat, high: real, low: real, tieToLow: bool,
                         a: Touch, i: nat, b: Touch, j: nat)
    requires Square(p) && position < vertical < |p.times|
    requires IsFirstTouch(p, position, vertical, high, low, tieToLow, a, i)
    requires IsFirstTouch(p, position, vertical, high, low, tieToLow, b, j)
    ensures a == b && i == j
  {
  }

  function VerticalPosition(position: nat, anchor: nat, maxHold: int): nat {
    if maxHold > 0 && position + maxHold < anchor then position + maxHold else anchor
  }

  // ---- what bounds the hold ----

  ghost predicate Ascending(times: seq<int>) {
    forall i, j :: 0 <= i < j < |times| ==> times[i] < times[j]
  }

  /** The bars from i on that share its session are exactly those up to last. */
  ghost predicate IsSessionLast(times: seq<int>, i: nat, last: nat) {
    i <= last < |times| && forall j :: i <= j < |times| ==> (Day(times[j]) == Day(times[i]) <==> j <= last)
  }

  lemma DaysAscend(times: seq<int>)
    requires Ascending(times)
    ensures forall i, j :: 0 <= i < j < |times| ==> Day(times[i]) <= Day(times[j])
  {
  }

  /** The last bar of each bar's IST session, filled backwards. */
  method SessionLastPosition(times: seq<int>) returns (last: array<nat>)
    requires Ascending(times)
    ensures fresh(last) && last.Length == |times|
    ensures forall i :: 0 <= i < |times| ==> IsSessionLast(times, i, last[i])
  {
    var n := |times|;
    last := new nat[n];
    if n == 0 {
      return;
    }
    var boundary := n - 1;
    for i := n downto 0
      invariant boundary < n && (i < n ==> IsSessionLast(times, i, boundary))
      invariant forall k :: i <= k < n ==> IsSessionLast(times, k, last[k])
    {
      if i == n - 1 || Day(times[i]) != Day(times[i + 1]) {
        boundary := i;
      }
      DaysAscend(times);
      last[i] := boundary;
    }
  }

  ghost predicate IsAnchors(times: seq<int>, mode: string, anchors: seq<nat>) {
    && |anchors| == |times|
    && forall i :: 0 <= i < |times| ==>
        if mode == "mis" then IsSessionLast(times, i, anchors[i]) else anchors[i] == |times| - 1
  }

  /** Per-bar anchors: the session's end when intraday, the end of the series for delivery. */
  method VerticalAnchorPositions(times: seq<int>, mode: string) returns (r: Result<seq<nat>, LabelingError>)
    requires Ascending(times)
    ensures r.Err? <==> mode != "mis" && mode != "cnc"
    ensures r.Err? ==> r.error == UnknownHoldingMode
    ensures r.Ok? ==> IsAnchors(times, mode, r.value)
  {
    if mode == "mis" {
      var last := SessionLastPosition(times);
      return Ok(last[..]);
    }
    if mode == "cnc" {
      return Ok(seq(|times|, _ => if |times| > 0 then |times| - 1 else 0));
    }
    return Err(UnknownHoldingMode);
  }

  // ---- events ----

  /** The bars carrying an event's timestamp, ascending and without repeats. */
  function Matching(times: seq<int>, events: seq<int>, n: nat): (r: seq<nat>)
    requires n <= |times|
    ensures forall i: nat :: i in r <==> i < n && times[i] in events
    ensures forall a :: 0 <= a < |r| ==> r[a] < n
    ensures forall a, b :: 0 <= a < b < |r| ==> r[a] < r[b]
  {
    if n == 0 then [] else Matching(times, events, n - 1) + if times[n - 1] in events then [n - 1] else []
  }

  /** Every event is a bar, or the call fails; events may come in any order and repeat. */
  function EventPositions(events: seq<int>, times: seq<int>): (r: Result<seq<nat>, LabelingError>)
    ensures r.Err? <==> exists e :: e in events && e !in times
    ensures r.Err? ==> r.error == EventNotABar
    ensures r.Ok? ==> forall i: nat :: i in r.value <==> i < |times| && times[i] in events
    ensures r.Ok? ==> forall a, b :: 0 <= a < b < |r.value| ==> r.value[a] < r.value[b]
  {
    if exists e :: e in events && e !in times then Err(EventNotABar)
    else Ok(Matching(times, events, |times|))
  }
}
