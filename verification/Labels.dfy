/** The primary and meta labelers (src/quant/research/labeling/triple_barrier.py and meta.py). */
module Labels {
  import opened Wrappers
  import opened Sums
  import opened Bars
  import opened Barriers

  datatype Config = Config(upper: real, lower: real, minReturn: real, maxHold: int, mode: string)

  datatype Barrier = Upper | Lower | Vertical

  datatype TripleRow = TripleRow(exitTime: int, outcome: int, barrier: Barrier, ret: real, target: real)

  datatype MetaBarrier = Profit | Stop | MetaVertical

  datatype MetaRow = MetaRow(side: int, bet: int, barrier: MetaBarrier, ret: real, exitTime: int)

  /** An event is left out, gets its row, or makes the call fail on the zero close it would be measured from. */
  datatype Outcome<+Row> = Skipped | Resolved(row: Row) | ZeroDivision

  datatype Labeled<Row> = Labeled(index: seq<int>, rows: seq<Row>, skipped: nat)

  function Sign(x: real): int {
    if x > 0.0 then 1 else if x < 0.0 then -1 else 0
  }

  function Change(p: Path, position: nat, exit: nat): real
    requires Square(p) && position < |p.times| && exit < |p.times| && p.close[position] != 0.0
  {
    p.close[exit] / p.close[position] - 1.0
  }

  function Width(multiple: real, vol: real, floor: real): real {
    Max(multiple * vol, floor)
  }

  function Above(reference: real, width: real): real {
    reference * (1.0 + width)
  }

  function Below(reference: real, width: real): real {
    reference * (1.0 - width)
  }

  /** One event's primary label, or none: no volatility yet, or no bar left to hold. */
  function TripleOne(c: Config, p: Path, vol: Option<real>, anchor: nat, position: nat): Outcome<TripleRow>
    requires Square(p) && position <= anchor < |p.times|
  {
    match vol
    case None => Skipped
    case Some(v) =>
      var upper, lower, reference := Width(c.upper, v, c.minReturn), Width(c.lower, v, c.minReturn), p.close[position];
      var vertical := VerticalPosition(position, anchor, c.maxHold);
      if vertical <= position then Skipped
      else
        var (touched, exit) := Scan(p, position + 1, vertical, Above(reference, upper), Below(reference, lower), true);
        match touched
        case TouchHigh => Resolved(TripleRow(p.times[exit], 1, Upper, upper, upper))
        case TouchLow => Resolved(TripleRow(p.times[exit], -1, Lower, -lower, upper))
        case TouchVertical =>
          if reference == 0.0 then ZeroDivision
          else
            var change := Change(p, position, vertical);
            Resolved(TripleRow(p.times[vertical], Sign(change), Vertical, change, upper))
  }

  /** The barrier levels for a side: its stop is the adverse one, and wins a bar that reaches both. */
  function HighBarrier(c: Config, vol: real, reference: real, side: int): real {
    Above(reference, Width(if side > 0 then c.upper else c.lower, vol, c.minReturn))
  }

  function LowBarrier(c: Config, vol: real, reference: real, side: int): real {
    Below(reference, Width(if side > 0 then c.lower else c.upper, vol, c.minReturn))
  }

  function MetaScan(c: Config, p: Path, vol: real, vertical: nat, position: nat, side: int): (Touch, nat)
    requires Square(p) && position < vertical < |p.times|
  {
    Scan(p, position + 1, vertical,
      HighBarrier(c, vol, p.close[position], side), LowBarrier(c, vol, p.close[position], side), side > 0)
  }

  /** One event's bet label for the primary's side, or none when the side is flat too. */
  function MetaOne(c: Config, p: Path, vol: Option<real>, anchor: nat, position: nat, side: int): Outcome<MetaRow>
    requires Square(p) && position <= anchor < |p.times|
  {
    if side == 0 || vol.None? then Skipped
    else
      var profit, stop := Width(c.upper, vol.value, c.minReturn), Width(c.lower, vol.value, c.minReturn);
      var vertical := VerticalPosition(position, anchor, c.maxHold);
      if vertical <= position then Skipped
      else
        var (touched, exit) := MetaScan(c, p, vol.value, vertical, position, side);
        if touched == TouchVertical then
          if p.close[position] == 0.0 then ZeroDivision
          else
            var won := side as real * Change(p, position, vertical);
            Resolved(MetaRow(side, if won > 0.0 then 1 else 0, MetaVertical, won, p.times[vertical]))
        else if (touched == TouchHigh) == (side > 0) then Resolved(MetaRow(side, 1, Profit, profit, p.times[exit]))
        else Resolved(MetaRow(side, 0, Stop, -stop, p.times[exit]))
  }

  // ---- a short is a long on the reflected path ----

  function Mirror(v: seq<real>, about: real): (r: seq<real>)
    ensures |r| == |v| && forall i :: 0 <= i < |v| ==> r[i] == 2.0 * about - v[i]
  {
    seq(|v|, i requires 0 <= i < |v| => 2.0 * about - v[i])
  }

  function Reflect(p: Path, about: real): Path {
    Path(p.times, Mirror(p.low, about), Mirror(p.high, about), Mirror(p.close, about))
  }

  function Opposite(t: Touch): Touch {
    match t
    case TouchHigh => TouchLow
    case TouchLow => TouchHigh
    case TouchVertical => TouchVertical
  }

  lemma {:induction false} ScanReflected(p: Path, about: real, from: nat, vertical: nat, high: real, low: real,
                                         tieToLow: bool)
    requires Square(p) && 0 < from <= vertical < |p.times|
    ensures var (a, i) := Scan(p, from, vertical, high, low, tieToLow);
      Scan(Reflect(p, about), from, vertical, 2.0 * about - low, 2.0 * about - high, !tieToLow) == (Opposite(a), i)
    decreases vertical - from
  {
    assert Reached(Reflect(p, about), from, 2.0 * about - low, 2.0 * about - high, !tieToLow)
        == Opposite(Reached(p, from, high, low, tieToLow));
    if from < vertical {
      ScanReflected(p, about, from + 1, vertical, high, low, tieToLow);
    }
  }

  /** Reflecting the path about the reference swaps the two sides' barriers. */
  lemma BarriersSwap(c: Config, vol: real, reference: real)
    ensures HighBarrier(c, vol, reference, -1) == 2.0 * reference - LowBarrier(c, vol, reference, 1)
    ensures LowBarrier(c, vol, reference, -1) == 2.0 * reference - HighBarrier(c, vol, reference, 1)
  {
  }

  lemma ChangeReflected(p: Path, position: nat, exit: nat)
    requires Square(p) && position < |p.times| && exit < |p.times| && p.close[position] != 0.0
    ensures Change(Reflect(p, p.close[position]), position, exit) == -Change(p, position, exit)
  {
    var ref, end := p.close[position], p.close[exit];
    Quotient(end, ref);
    Quotient(2.0 * ref - end, ref);
    CancelFactor((2.0 * ref - end) / ref, 2.0 - end / ref, ref);
  }

  /** Same exit bar, same bet label, same barrier, same side-adjusted return. */
  lemma ShortIsMirroredLong(c: Config, p: Path, vol: Option<real>, anchor: nat, position: nat)
    requires Square(p) && position <= anchor < |p.times|
    ensures var long := MetaOne(c, p, vol, anchor, position, 1);
      MetaOne(c, Reflect(p, p.close[position]), vol, anchor, position, -1)
        == if long.Resolved? then Resolved(long.row.(side := -1)) else long
  {
    var vertical := VerticalPosition(position, anchor, c.maxHold);
    if vol.Some? && position < vertical {
      var ref := p.close[position];
      BarriersSwap(c, vol.value, ref);
      ScanReflected(p, ref, position + 1, vertical,
        HighBarrier(c, vol.value, ref, 1), LowBarrier(c, vol.value, ref, 1), true);
      if ref != 0.0 {
        ChangeReflected(p, position, vertical);
      }
    }
  }

  // ---- the two labelers agree on a long ----

  function AsMeta(b: Barrier): MetaBarrier {
    match b
    case Upper => Profit
    case Lower => Stop
    case Vertical => MetaVertical
  }

  lemma LabelersAgreeOnLong(c: Config, p: Path, vol: Option<real>, anchor: nat, position: nat)
    requires Square(p) && position <= anchor < |p.times|
    ensures var primary, meta := TripleOne(c, p, vol, anchor, position), MetaOne(c, p, vol, anchor, position, 1);
      match (primary, meta)
      case (Resolved(a), Resolved(b)) =>
        a.exitTime == b.exitTime && a.ret == b.ret && AsMeta(a.barrier) == b.barrier && (a.outcome > 0 <==> b.bet == 1)
      case (Skipped, Skipped) => true
      case (ZeroDivision, ZeroDivision) => true
      case _ => false
  {
    var vertical := VerticalPosition(position, anchor, c.maxHold);
    if vol.Some? && position < vertical {
      var primary, meta := TripleOne(c, p, vol, anchor, position), MetaOne(c, p, vol, anchor, position, 1);
      var r := MetaScan(c, p, vol.value, vertical, position, 1);
      if primary.Resolved? {
        assert primary.row.exitTime == p.times[r.1] == meta.row.exitTime;
        assert AsMeta(primary.row.barrier) == meta.row.barrier;
        assert primary.row.ret == meta.row.ret;
      }
    }
  }

  // ---- what a label says about the path ----

  ghost predicate Reaches(p: Path, i: nat, level: real, above: bool)
    requires Square(p) && i < |p.times|
  {
    if above then p.high[i] >= level else p.low[i] <= level
  }

  ghost function ProfitLevel(c: Config, vol: real, reference: real, side: int): real {
    if side > 0 then HighBarrier(c, vol, reference, side) else LowBarrier(c, vol, reference, side)
  }

  ghost function StopLevel(c: Config, vol: real, reference: real, side: int): real {
    if side > 0 then LowBarrier(c, vol, reference, side) else HighBarrier(c, vol, reference, side)
  }

  ghost predicate ReachesEither(c: Config, p: Path, vol: real, position: nat, side: int, i: nat)
    requires Square(p) && position < |p.times| && i < |p.times|
  {
    || Reaches(p, i, ProfitLevel(c, vol, p.close[position], side), side > 0)
    || Reaches(p, i, StopLevel(c, vol, p.close[position], side), side < 0)
  }

  /** No bar strictly between the event and the exit reaches either barrier, and the hold is within its bounds. */
  ghost predicate EarliestExit(c: Config, p: Path, vol: real, anchor: nat, position: nat, side: int, exit: nat)
    requires Square(p) && position < |p.times|
  {
    && position < exit <= anchor && exit < |p.times| && (c.maxHold > 0 ==> exit <= position + c.maxHold)
    && forall i: nat :: position < i < exit ==> !ReachesEither(c, p, vol, position, side, i)
  }

  ghost predicate IsVertical(c: Config, anchor: nat, position: nat, exit: nat) {
    exit == anchor || (c.maxHold > 0 && exit == position + c.maxHold)
  }

  /** What the row says of its exit bar: a stop reached there makes it a loss whatever else was reached. */
  ghost predicate RowMeans(c: Config, p: Path, vol: real, anchor: nat, position: nat, side: int, exit: nat,
                           row: MetaRow)
    requires Square(p) && position < |p.times| && exit < |p.times|
  {
    var profit := Reaches(p, exit, ProfitLevel(c, vol, p.close[position], side), side > 0);
    var stop := Reaches(p, exit, StopLevel(c, vol, p.close[position], side), side < 0);
    && row.side == side && row.exitTime == p.times[exit]
    && (row.barrier == Stop <==> stop) && (row.barrier == Profit <==> profit && !stop)
    && match row.barrier
       case Profit => row.bet == 1 && row.ret == Width(c.upper, vol, c.minReturn)
       case Stop => row.bet == 0 && row.ret == -Width(c.lower, vol, c.minReturn)
       case MetaVertical =>
         && IsVertical(c, anchor, position, exit) && p.close[position] != 0.0
         && row.ret == side as real * Change(p, position, exit) && row.bet == (if row.ret > 0.0 then 1 else 0)
  }

  /** The bet exits at the first bar to reach a barrier, and its row says which and what it earned. */
  lemma BetMeaning(c: Config, p: Path, vol: real, anchor: nat, position: nat, side: int) returns (exit: nat)
    requires Square(p) && position <= anchor < |p.times| && side != 0
    requires position < VerticalPosition(position, anchor, c.maxHold)
    ensures EarliestExit(c, p, vol, anchor, position, side, exit)
    ensures var bet := MetaOne(c, p, Some(vol), anchor, position, side);
      if bet.Resolved? then RowMeans(c, p, vol, anchor, position, side, exit, bet.row)
      else
        && bet == ZeroDivision && p.close[position] == 0.0
        && IsVertical(c, anchor, position, exit) && !ReachesEither(c, p, vol, position, side, exit)
  {
    var vertical := VerticalPosition(position, anchor, c.maxHold);
    var r := MetaScan(c, p, vol, vertical, position, side);
    exit := r.1;
    var high, low := HighBarrier(c, vol, p.close[position], side), LowBarrier(c, vol, p.close[position], side);
    assert Reached(p, exit, high, low, side > 0) == r.0;
    forall i: nat | position < i < exit ensures !ReachesEither(c, p, vol, position, side, i) {
      assert Reached(p, i, high, low, side > 0) == TouchVertical;
    }
  }

  /** There is a label exactly when there is a side, a volatility and a later bar to hold to. */
  lemma LabeledIff(c: Config, p: Path, vol: Option<real>, anchor: nat, position: nat, side: int)
    requires Square(p) && position <= anchor < |p.times|
    ensures !MetaOne(c, p, vol, anchor, position, side).Skipped? <==> side != 0 && vol.Some? && position < anchor
    ensures !TripleOne(c, p, vol, anchor, position).Skipped? <==> vol.Some? && position < anchor
  {
  }

  /** The primary label's row says the same of its exit bar, the implied position being long. */
  ghost predicate TripleMeans(c: Config, p: Path, vol: real, anchor: nat, position: nat, exit: nat, row: TripleRow)
    requires Square(p) && position < |p.times| && exit < |p.times|
  {
    var upper := p.high[exit] >= Above(p.close[position], Width(c.upper, vol, c.minReturn));
    var lower := p.low[exit] <= Below(p.close[position], Width(c.lower, vol, c.minReturn));
    && row.exitTime == p.times[exit] && row.target == Width(c.upper, vol, c.minReturn)
    && (row.barrier == Lower <==> lower) && (row.barrier == Upper <==> upper && !lower)
    && match row.barrier
       case Upper => row.outcome == 1 && row.ret == Width(c.upper, vol, c.minReturn)
       case Lower => row.outcome == -1 && row.ret == -Width(c.lower, vol, c.minReturn)
       case Vertical =>
         && IsVertical(c, anchor, position, exit) && p.close[position] != 0.0
         && row.ret == Change(p, position, exit) && row.outcome == Sign(row.ret)
  }

  /** The primary label exits at the first bar to reach a barrier; the lower one wins a bar that reaches both. */
  lemma TripleMeaning(c: Config, p: Path, vol: real, anchor: nat, position: nat) returns (exit: nat)
    requires Square(p) && position <= anchor < |p.times|
    requires position < VerticalPosition(position, anchor, c.maxHold)
    ensures EarliestExit(c, p, vol, anchor, position, 1, exit)
    ensures var primary := TripleOne(c, p, Some(vol), anchor, position);
      if primary.Resolved? then TripleMeans(c, p, vol, anchor, position, exit, primary.row)
      else
        && primary == ZeroDivision && p.close[position] == 0.0
        && IsVertical(c, anchor, position, exit) && !ReachesEither(c, p, vol, position, 1, exit)
  {
    exit := BetMeaning(c, p, vol, anchor, position, 1);
    LabelersAgreeOnLong(c, p, Some(vol), anchor, position);
  }

  /** Both barriers of a zero close lie at zero, so only a bar with its low above its high passes between them. */
  lemma SoundBarsNeverDivideByZero(c: Config, p: Path, vol: Option<real>, anchor: nat, position: nat, side: int)
    requires Square(p) && position <= anchor < |p.times|
    requires forall i :: 0 <= i < |p.times| ==> p.low[i] <= p.high[i]
    ensures MetaOne(c, p, vol, anchor, position, side) != ZeroDivision
    ensures TripleOne(c, p, vol, anchor, position) != ZeroDivision
  {
    if vol.Some? && position < anchor {
      var first := TripleMeaning(c, p, vol.value, anchor, position);
      assert p.low[first] <= p.high[first];
      if side != 0 {
        var exit := BetMeaning(c, p, vol.value, anchor, position, side);
        assert p.low[exit] <= p.high[exit];
      }
    }
  }

  /** In the intraday mode the exit is a later bar of the event's own session. */
  lemma IntradayExitStaysInSession(c: Config, p: Path, vol: real, anchors: seq<nat>, position: nat, side: int)
    requires Square(p) && position < |p.times| && Ascending(p.times)
    requires IsAnchors(p.times, "mis", anchors)
    ensures var bet := MetaOne(c, p, Some(vol), anchors[position], position, side);
      bet.Resolved? ==> bet.row.exitTime > p.times[position] && Day(bet.row.exitTime) == Day(p.times[position])
  {
    if side != 0 && position < VerticalPosition(position, anchors[position], c.maxHold) {
      var exit := BetMeaning(c, p, vol, anchors[position], position, side);
    }
  }

  // ---- what a label depends on ----

  function BarAt(p: Path, i: nat): (int, real, real, real)
    requires Square(p) && i < |p.times|
  {
    (p.times[i], p.high[i], p.low[i], p.close[i])
  }

  /** Two paths with the same bars up to and including bar n; after it they may differ in anything. */
  ghost predicate SameThrough(p: Path, q: Path, n: nat)
    requires Square(p) && Square(q)
  {
    n < |p.times| && n < |q.times| && forall i: nat :: i <= n ==> BarAt(p, i) == BarAt(q, i)
  }

  /** The vertical barrier is at this bar whatever may follow it: the hold or the session ends there, or the data. */
  ghost predicate Expires(c: Config, times: seq<int>, position: nat, exit: nat)
    requires position <= exit < |times|
  {
    || |times| == exit + 1
    || (c.maxHold > 0 && exit == position + c.maxHold)
    || (c.mode == "mis" && Day(times[exit + 1]) != Day(times[position]))
  }

  lemma VerticalsAgree(c: Config, p: Path, q: Path, a: seq<nat>, b: seq<nat>, position: nat, exit: nat)
    requires Square(p) && Square(q) && IsAnchors(p.times, c.mode, a) && IsAnchors(q.times, c.mode, b)
    requires Ascending(q.times) && SameThrough(p, q, exit)
    requires position < exit <= VerticalPosition(position, a[position], c.maxHold)
    ensures position <= b[position] < |q.times|
    ensures var vertical := VerticalPosition(position, b[position], c.maxHold);
      exit <= vertical && (exit == VerticalPosition(position, a[position], c.maxHold) ==>
        (vertical == exit <==> Expires(c, q.times, position, exit)))
  {
    assert BarAt(p, position) == BarAt(q, position) && BarAt(p, exit) == BarAt(q, exit);
    DaysAscend(q.times);
    if c.mode == "mis" {
      assert IsSessionLast(p.times, position, a[position]) && IsSessionLast(q.times, position, b[position]);
      assert Day(q.times[exit]) == Day(q.times[position]);
    }
  }

  lemma {:induction false} ScansAgree(p: Path, q: Path, from: nat, m: nat, n: nat, high: real, low: real,
                                      tieToLow: bool)
    requires Square(p) && Square(q) && 0 < from <= m < |p.times| && n < |q.times|
    requires var (_, exit) := Scan(p, from, m, high, low, tieToLow); exit <= n && SameThrough(p, q, exit)
    ensures var (touched, exit) := Scan(p, from, m, high, low, tieToLow);
      if touched != TouchVertical || n == exit then Scan(q, from, n, high, low, tieToLow) == (touched, exit)
      else Scan(q, from, n, high, low, tieToLow).1 > exit
    decreases m - from
  {
    assert BarAt(p, from) == BarAt(q, from);
    assert Reached(p, from, high, low, tieToLow) == Reached(q, from, high, low, tieToLow);
    if Reached(p, from, high, low, tieToLow) == TouchVertical && from < m {
      ScansAgree(p, q, from + 1, m, n, high, low, tieToLow);
    }
  }

  /** A bet is read off its scan. */
  lemma SameOutcome(c: Config, p: Path, q: Path, vol: real, a: nat, b: nat, position: nat, side: int)
    requires Square(p) && Square(q) && position < |p.times| && position < |q.times|
    requires position <= a < |p.times| && position <= b < |q.times| && p.close[position] == q.close[position]
    requires var m, n := VerticalPosition(position, a, c.maxHold), VerticalPosition(position, b, c.maxHold);
      && position < m && position < n
      && var (touched, exit) := MetaScan(c, p, vol, m, position, side);
        && MetaScan(c, q, vol, n, position, side) == (touched, exit)
        && p.times[exit] == q.times[exit] && p.close[exit] == q.close[exit]
    ensures MetaOne(c, q, Some(vol), b, position, side) == MetaOne(c, p, Some(vol), a, position, side)
  {
    var m, n := VerticalPosition(position, a, c.maxHold), VerticalPosition(position, b, c.maxHold);
    var (touched, exit) := MetaScan(c, p, vol, m, position, side);
    if touched == TouchVertical {
      assert m == exit == n;
      if p.close[position] != 0.0 && side != 0 {
        var before, after := MetaOne(c, p, Some(vol), a, position, side), MetaOne(c, q, Some(vol), b, position, side);
        assert Change(q, position, n) == Change(p, position, m);
        assert after.row.ret == before.row.ret;
      }
    }
  }

  /**
   * The exact condition under which a bet depends on no bar after its exit: it was resolved by a horizontal barrier,
   * or its hold, its session or the other path ends where it exits.
   */
  lemma BetIsCausalIff(c: Config, p: Path, q: Path, vol: Option<real>, a: seq<nat>, b: seq<nat>, position: nat,
                       side: int, exit: nat)
    requires Square(p) && Square(q) && IsAnchors(p.times, c.mode, a) && IsAnchors(q.times, c.mode, b)
    requires Ascending(p.times) && Ascending(q.times) && position <= exit && SameThrough(p, q, exit)
    requires position <= a[position] < |p.times| && MetaOne(c, p, vol, a[position], position, side).Resolved?
    requires MetaOne(c, p, vol, a[position], position, side).row.exitTime == p.times[exit]
    ensures position <= b[position] < |q.times|
    ensures MetaOne(c, q, vol, b[position], position, side) == MetaOne(c, p, vol, a[position], position, side)
      <==>
      || MetaOne(c, p, vol, a[position], position, side).row.barrier != MetaVertical
      || Expires(c, q.times, position, exit)
  {
    var m := VerticalPosition(position, a[position], c.maxHold);
    var (touched, end) := MetaScan(c, p, vol.value, m, position, side);
    assert p.times[end] == p.times[exit];
    assert end == exit;
    VerticalsAgree(c, p, q, a, b, position, exit);
    var n := VerticalPosition(position, b[position], c.maxHold);
    assert BarAt(p, position) == BarAt(q, position) && BarAt(p, exit) == BarAt(q, exit);
    ScansAgree(p, q, position + 1, m, n,
      HighBarrier(c, vol.value, p.close[position], side), LowBarrier(c, vol.value, p.close[position], side), side > 0);
    var after := MetaScan(c, q, vol.value, n, position, side);
    if touched == TouchVertical && n != exit {
      assert q.times[after.1] > q.times[exit];
    } else {
      assert after == (touched, exit);
      SameOutcome(c, p, q, vol.value, a[position], b[position], position, side);
    }
  }

  /** The same of the primary label. */
  lemma PrimaryIsCausalIff(c: Config, p: Path, q: Path, vol: Option<real>, a: seq<nat>, b: seq<nat>, position: nat,
                           exit: nat)
    requires Square(p) && Square(q) && IsAnchors(p.times, c.mode, a) && IsAnchors(q.times, c.mode, b)
    requires Ascending(p.times) && Ascending(q.times) && position <= exit && SameThrough(p, q, exit)
    requires position <= a[position] < |p.times| && TripleOne(c, p, vol, a[position], position).Resolved?
    requires TripleOne(c, p, vol, a[position], position).row.exitTime == p.times[exit]
    ensures position <= b[position] < |q.times|
    ensures TripleOne(c, q, vol, b[position], position) == TripleOne(c, p, vol, a[position], position)
      <==> TripleOne(c, p, vol, a[position], position).row.barrier != Vertical || Expires(c, q.times, position, exit)
  {
    var m := VerticalPosition(position, a[position], c.maxHold);
    var high := Above(p.close[position], Width(c.upper, vol.value, c.minReturn));
    var low := Below(p.close[position], Width(c.lower, vol.value, c.minReturn));
    var (touched, end) := Scan(p, position + 1, m, high, low, true);
    assert p.times[end] == p.times[exit];
    assert end == exit;
    VerticalsAgree(c, p, q, a, b, position, exit);
    var n := VerticalPosition(position, b[position], c.maxHold);
    assert BarAt(p, position) == BarAt(q, position) && BarAt(p, exit) == BarAt(q, exit);
    ScansAgree(p, q, position + 1, m, n, high, low, true);
  }

  /** On one timeline, whatever the later prices, a label never depends on a bar after its exit. */
  lemma LabelIsCausal(c: Config, p: Path, q: Path, vol: Option<real>, anchors: seq<nat>, position: nat, side: int,
                      exit: nat)
    requires Square(p) && Square(q) && p.times == q.times && Ascending(p.times) && IsAnchors(p.times, c.mode, anchors)
    requires position <= exit && SameThrough(p, q, exit)
    requires position <= anchors[position] < |p.times|
    requires MetaOne(c, p, vol, anchors[position], position, side).Resolved?
    requires MetaOne(c, p, vol, anchors[position], position, side).row.exitTime == p.times[exit]
    ensures MetaOne(c, q, vol, anchors[position], position, side)
      == MetaOne(c, p, vol, anchors[position], position, side)
  {
    BetIsCausalIff(c, p, q, vol, anchors, anchors, position, side, exit);
    BetIsCausalIff(c, p, p, vol, anchors, anchors, position, side, exit);
  }

  ghost predicate Extends(q: Path, p: Path)
    requires Square(p) && Square(q)
  {
    |p.times| <= |q.times| && forall i: nat :: i < |p.times| ==> BarAt(p, i) == BarAt(q, i)
  }

  lemma ExtensionAscends(p: Path, q: Path)
    requires Square(p) && Square(q) && Ascending(q.times) && Extends(q, p)
    ensures Ascending(p.times)
  {
    forall i, j | 0 <= i < j < |p.times| ensures p.times[i] < p.times[j] {
      assert BarAt(p, i) == BarAt(q, i) && BarAt(p, j) == BarAt(q, j);
    }
  }

  /** Later bars leave a bet alone unless it ran to the end of the data with its hold and its session still open. */
  lemma AppendedBarsIff(c: Config, p: Path, q: Path, vol: Option<real>, a: seq<nat>, b: seq<nat>, position: nat,
                        side: int)
    requires Square(p) && Square(q) && IsAnchors(p.times, c.mode, a) && IsAnchors(q.times, c.mode, b)
    requires Ascending(q.times) && Extends(q, p) && position < |p.times| && position <= a[position] < |p.times|
    requires MetaOne(c, p, vol, a[position], position, side).Resolved?
    ensures position <= b[position] < |q.times|
    ensures MetaOne(c, q, vol, b[position], position, side) == MetaOne(c, p, vol, a[position], position, side)
      <==>
      || MetaOne(c, p, vol, a[position], position, side).row.barrier != MetaVertical
      || |q.times| == |p.times|
      || a[position] < |p.times| - 1
      || (c.maxHold > 0 && position + c.maxHold <= |p.times| - 1)
      || (c.mode == "mis" && Day(q.times[|p.times|]) != Day(p.times[position]))
  {
    ExtensionAscends(p, q);
    var exit := BetMeaning(c, p, vol.value, a[position], position, side);
    BetIsCausalIff(c, p, q, vol, a, b, position, side, exit);
    assert BarAt(p, position) == BarAt(q, position);
    if MetaOne(c, p, vol, a[position], position, side).row.barrier == MetaVertical {
      assert IsVertical(c, a[position], position, exit);
      if c.mode == "mis" && exit + 1 < |p.times| {
        assert BarAt(p, exit + 1) == BarAt(q, exit + 1);
        assert IsSessionLast(p.times, position, a[position]);
      }
    }
  }

  /** Two bars close at 1 and 1.1, a third at 0.9, with barriers too wide to touch. */
  function Rally(): Path {
    Path([0, 1], [1.0, 1.1], [1.0, 1.1], [1.0, 1.1])
  }

  function RallyThenFall(): Path {
    Path([0, 1, 2], [1.0, 1.1, 0.9], [1.0, 1.1, 0.9], [1.0, 1.1, 0.9])
  }

  /** One more bar of data turns a won bet that ended with the data into a lost one. */
  lemma AppendedBarFlipsBet()
    ensures var c := Config(0.0, 0.0, 9.0, 5, "cnc");
      && Square(Rally()) && Square(RallyThenFall()) && Extends(RallyThenFall(), Rally())
      && MetaOne(c, Rally(), Some(0.0), 1, 0, 1) == Resolved(MetaRow(1, 1, MetaVertical, 1.1 / 1.0 - 1.0, 1))
      && MetaOne(c, RallyThenFall(), Some(0.0), 2, 0, 1) == Resolved(MetaRow(1, 0, MetaVertical, 0.9 / 1.0 - 1.0, 2))
  {
    var c, p, q := Config(0.0, 0.0, 9.0, 5, "cnc"), Rally(), RallyThenFall();
    var high, low := HighBarrier(c, 0.0, 1.0, 1), LowBarrier(c, 0.0, 1.0, 1);
    assert high == 10.0 && low == -8.0;
    assert Scan(p, 1, 1, high, low, true) == (TouchVertical, 1);
    assert Scan(q, 2, 2, high, low, true) == (TouchVertical, 2);
    assert Scan(q, 1, 2, high, low, true) == (TouchVertical, 2);
  }
}
