/** Labelling whole frames of bars (src/quant/research/labeling/triple_barrier.py and meta.py). */
module LabelFrames {
  import opened Wrappers
  import opened Sums
  import opened Bars
  import opened Barriers
  import opened Labels

  function Times(f: Frame): (r: seq<int>)
    ensures |r| == |f| && forall i :: 0 <= i < |f| ==> r[i] == f[i].timestamp
  {
    seq(|f|, i requires 0 <= i < |f| => f[i].timestamp)
  }

  function PathOf(f: Frame): (p: Path)
    ensures Square(p) && p.times == Times(f)
    ensures forall i :: 0 <= i < |f| ==> p.high[i] == f[i].high && p.low[i] == f[i].low && p.close[i] == f[i].close
  {
    Path(Times(f),
      seq(|f|, i requires 0 <= i < |f| => f[i].high),
      seq(|f|, i requires 0 <= i < |f| => f[i].low),
      seq(|f|, i requires 0 <= i < |f| => f[i].close))
  }

  function Lookup<T>(m: map<int, T>, t: int): Option<T> {
    if t in m then Some(m[t]) else None
  }

  function SideAt(sides: map<int, int>, t: int): int {
    if t in sides then sides[t] else 0
  }

  ghost predicate Anchored(p: Path, anchors: seq<nat>)
    requires Square(p)
  {
    |anchors| == |p.times| && forall i :: 0 <= i < |p.times| ==> i <= anchors[i] < |p.times|
  }

  lemma AnchorsAnchor(p: Path, mode: string, anchors: seq<nat>)
    requires Square(p) && IsAnchors(p.times, mode, anchors)
    ensures Anchored(p, anchors)
  {
  }

  /** Each bar has one anchor. */
  lemma AnchorsUnique(times: seq<int>, mode: string, a: seq<nat>, b: seq<nat>)
    requires IsAnchors(times, mode, a) && IsAnchors(times, mode, b)
    ensures a == b
  {
    forall i | 0 <= i < |times| ensures a[i] == b[i] {
      if mode == "mis" {
        assert IsSessionLast(times, i, a[i]) && IsSessionLast(times, i, b[i]);
        assert Day(times[a[i]]) == Day(times[i]) && Day(times[b[i]]) == Day(times[i]);
      }
    }
  }

  ghost predicate Rising(positions: seq<nat>, bound: nat) {
    && (forall a :: 0 <= a < |positions| ==> positions[a] < bound)
    && forall a, b :: 0 <= a < b < |positions| ==> positions[a] < positions[b]
  }

  /** The first n events that have a label, in their order. */
  ghost function Kept<Row>(one: nat -> Outcome<Row>, positions: seq<nat>, n: nat): (r: seq<nat>)
    requires n <= |positions|
    ensures forall i :: i in r <==> i in positions[..n] && one(i).Resolved?
  {
    if n == 0 then []
    else
      var before := Kept(one, positions, n - 1);
      assert positions[..n] == positions[..n - 1] + [positions[n - 1]];
      if one(positions[n - 1]).Resolved? then before + [positions[n - 1]] else before
  }

  lemma {:induction false} KeptRises<Row>(one: nat -> Outcome<Row>, positions: seq<nat>, bound: nat, n: nat)
    requires Rising(positions, bound) && n <= |positions|
    ensures Rising(Kept(one, positions, n), bound)
  {
    if n > 0 {
      KeptRises(one, positions, bound, n - 1);
      var before := Kept(one, positions, n - 1);
      forall a | 0 <= a < |before| ensures before[a] < positions[n - 1] {
        assert before[a] in positions[..n - 1];
      }
    }
  }

  /** The label frame holds, in time order, the label of every event that has one, and counts the rest. */
  ghost predicate Collected<Row>(times: seq<int>, positions: seq<nat>, n: nat, one: nat -> Outcome<Row>,
                                 out: Labeled<Row>)
    requires n <= |positions|
  {
    var kept := Kept(one, positions, n);
    && |out.index| == |out.rows| == |kept| && |kept| + out.skipped == n
    && forall k :: 0 <= k < |kept| ==>
        kept[k] < |times| && out.index[k] == times[kept[k]] && one(kept[k]) == Resolved(out.rows[k])
  }

  /** The label index strictly ascends. */
  lemma IndexAscends<Row>(times: seq<int>, positions: seq<nat>, n: nat, one: nat -> Outcome<Row>, out: Labeled<Row>)
    requires n <= |positions| && Ascending(times) && Rising(positions, |times|)
    requires Collected(times, positions, n, one, out)
    ensures Ascending(out.index)
  {
    KeptRises(one, positions, |times|, n);
    var kept := Kept(one, positions, n);
    forall i, j | 0 <= i < j < |out.index| ensures out.index[i] < out.index[j] {
      assert kept[i] < kept[j];
    }
  }

  function TripleAt(c: Config, p: Path, volatility: map<int, real>, anchors: seq<nat>): nat -> Outcome<TripleRow>
    requires Square(p) && Anchored(p, anchors)
  {
    (i: nat) => if i < |p.times| then TripleOne(c, p, Lookup(volatility, p.times[i]), anchors[i], i) else Skipped
  }

  function MetaAt(c: Config, p: Path, sides: map<int, int>, volatility: map<int, real>,
                  anchors: seq<nat>): nat -> Outcome<MetaRow>
    requires Square(p) && Anchored(p, anchors)
  {
    (i: nat) =>
      if i < |p.times| then
        MetaOne(c, p, Lookup(volatility, p.times[i]), anchors[i], i, SideAt(sides, p.times[i]))
      else Skipped
  }

  ghost predicate Divides<Row>(positions: seq<nat>, n: nat, one: nat -> Outcome<Row>)
    requires n <= |positions|
  {
    exists k :: 0 <= k < n && one(positions[k]).ZeroDivision?
  }

  /** The row loop: append a label where there is one, count a skip where there is none. */
  method CollectRows<Row>(times: seq<int>, positions: seq<nat>, one: nat -> Outcome<Row>)
    returns (r: Result<Labeled<Row>, LabelingError>)
    requires Rising(positions, |times|) && Ascending(times)
    ensures r.Err? ==> r.error == ZeroReference
    ensures r.Ok? ==> Ascending(r.value.index)
    ensures r.Err? <==> Divides(positions, |positions|, one)
    ensures r.Ok? ==> Collected(times, positions, |positions|, one, r.value)
  {
    var out := Labeled([], [], 0);
    for n := 0 to |positions|
      invariant Collected(times, positions, n, one, out) && !Divides(positions, n, one)
    {
      var position := positions[n];
      match one(position)
      case ZeroDivision => return Err(ZeroReference);
      case Skipped => out := out.(skipped := out.skipped + 1);
      case Resolved(row) => out := out.(index := out.index + [times[position]], rows := out.rows + [row]);
    }
    IndexAscends(times, positions, |positions|, one, out);
    return Ok(out);
  }

  ghost predicate Labelable(c: Config, bars: Frame, events: seq<int>) {
    && Ascending(Times(SortBars(bars)))
    && (forall e :: e in events ==> e in Times(SortBars(bars)))
    && (c.mode == "mis" || c.mode == "cnc")
  }

  lemma UniqueIsAscending(f: Frame)
    requires Sorted(f)
    ensures Ascending(Times(f)) <==> forall i, j :: 0 <= i < j < |f| ==> f[i].timestamp != f[j].timestamp
  {
    if Ascending(Times(f)) {
      forall i, j | 0 <= i < j < |f| ensures f[i].timestamp != f[j].timestamp {
        assert Times(f)[i] < Times(f)[j];
      }
    }
  }

  predicate IsUnique(f: Frame) {
    forall i, j :: 0 <= i < j < |f| ==> f[i].timestamp != f[j].timestamp
  }

  /** The sort and the checks both labelers make before their row loop. */
  method Prepare(c: Config, bars: Frame, events: seq<int>)
    returns (r: Result<(Path, seq<nat>, seq<nat>), LabelingError>)
    ensures r.Ok? <==> Labelable(c, bars, events)
    ensures r.Err? ==> r.error != ZeroReference
    ensures r.Ok? ==> var (p, positions, anchors) := r.value;
      && p == PathOf(SortBars(bars)) && Ascending(p.times)
      && Anchored(p, anchors) && IsAnchors(p.times, c.mode, anchors)
      && EventPositions(events, p.times) == Ok(positions) && Rising(positions, |p.times|)
  {
    var frame := SortBars(bars);
    SortBarsSorted(bars);
    SortBarsAddsNothing(bars);
    UniqueIsAscending(frame);
    var p := PathOf(frame);
    if !IsUnique(frame) {
      return Err(RepeatedTimestamps);
    }
    var positions := EventPositions(events, p.times);
    if positions.Err? {
      return Err(positions.error);
    }
    var anchors := VerticalAnchorPositions(p.times, c.mode);
    if anchors.Err? {
      return Err(anchors.error);
    }
    AnchorsAnchor(p, c.mode, anchors.value);
    return Ok((p, positions.value, anchors.value));
  }

  // ---- what the rows say of the bars ----

  /** A position taken at bar i may still be held at bar j. */
  ghost predicate MayHold(c: Config, f: Frame, i: nat, j: nat) {
    && i < j < |f| && (c.maxHold > 0 ==> j <= i + c.maxHold)
    && (c.mode == "mis" ==> Day(f[j].timestamp) == Day(f[i].timestamp))
  }

  ghost predicate LastHeld(c: Config, f: Frame, i: nat, j: nat) {
    MayHold(c, f, i, j) && !MayHold(c, f, i, j + 1)
  }

  ghost function Wider(a: real, b: real): real {
    if a > b then a else b
  }

  /** What a long sees of a bar: its upper level reached by the high, its lower one by the low. */
  ghost predicate HighReaches(f: Frame, i: nat, j: nat, width: real)
    requires i < |f| && j < |f|
  {
    f[j].high >= f[i].close * (1.0 + width)
  }

  ghost predicate LowReaches(f: Frame, i: nat, j: nat, width: real)
    requires i < |f| && j < |f|
  {
    f[j].low <= f[i].close * (1.0 - width)
  }

  /** What a bet resolved with these levels reached earns, from a start to an end close. */
  ghost predicate BetCase(row: MetaRow, stop: bool, profit: bool, stopWidth: real, profitWidth: real, last: bool,
                          side: int, start: real, end: real) {
    if stop then row.bet == 0 && row.barrier == Stop && row.ret == -stopWidth
    else if profit then row.bet == 1 && row.barrier == Profit && row.ret == profitWidth
    else
      && row.barrier == MetaVertical && last && start != 0.0 && row.ret * start == side as real * (end - start)
      && row.bet == (if row.ret > 0.0 then 1 else 0)
  }

  /** The same of a primary label, whose implied position is long. */
  ghost predicate PrimaryCase(row: TripleRow, lower: bool, upper: bool, lowerWidth: real, upperWidth: real, last: bool,
                              start: real, end: real) {
    && row.target == upperWidth
    && if lower then row.outcome == -1 && row.barrier == Lower && row.ret == -lowerWidth
       else if upper then row.outcome == 1 && row.barrier == Upper && row.ret == upperWidth
       else
         && row.barrier == Vertical && last && start != 0.0 && (row.ret + 1.0) * start == end
         && row.outcome == (if row.ret > 0.0 then 1 else if row.ret < 0.0 then -1 else 0)
  }

  ghost predicate ProfitReached(c: Config, f: Frame, vol: real, side: int, i: nat, j: nat)
    requires i < |f| && j < |f|
  {
    var width := Wider(c.upper * vol, c.minReturn);
    if side > 0 then HighReaches(f, i, j, width) else LowReaches(f, i, j, width)
  }

  ghost predicate StopReached(c: Config, f: Frame, vol: real, side: int, i: nat, j: nat)
    requires i < |f| && j < |f|
  {
    var width := Wider(c.lower * vol, c.minReturn);
    if side > 0 then LowReaches(f, i, j, width) else HighReaches(f, i, j, width)
  }

  /** Bars before the exit reach neither level, and it may be held to. */
  ghost predicate FirstReach(c: Config, f: Frame, vol: real, side: int, i: nat, j: nat) {
    && MayHold(c, f, i, j)
    && forall b: nat :: i < b < j ==> !ProfitReached(c, f, vol, side, i, b) && !StopReached(c, f, vol, side, i, b)
  }

  /** The bet row of the event at bar i for a side, resolved at bar j. */
  ghost predicate BetRow(c: Config, f: Frame, vol: real, side: int, i: nat, j: nat, row: MetaRow) {
    && FirstReach(c, f, vol, side, i, j) && row.exitTime == f[j].timestamp && row.side == side
    && BetCase(row, StopReached(c, f, vol, side, i, j), ProfitReached(c, f, vol, side, i, j),
         Wider(c.lower * vol, c.minReturn), Wider(c.upper * vol, c.minReturn), LastHeld(c, f, i, j),
         side, f[i].close, f[j].close)
  }

  /** The primary row of the event at bar i, resolved at bar j. */
  ghost predicate PrimaryRow(c: Config, f: Frame, vol: real, i: nat, j: nat, row: TripleRow) {
    && FirstReach(c, f, vol, 1, i, j) && row.exitTime == f[j].timestamp
    && PrimaryCase(row, StopReached(c, f, vol, 1, i, j), ProfitReached(c, f, vol, 1, i, j),
         Wider(c.lower * vol, c.minReturn), Wider(c.upper * vol, c.minReturn), LastHeld(c, f, i, j),
         f[i].close, f[j].close)
  }

  /** The event's return would be measured from a zero close: no held bar reaches either of its two zero levels. */
  ghost predicate Unmeasured(c: Config, f: Frame, i: nat) {
    && i < |f| && f[i].close == 0.0 && MayHold(c, f, i, i + 1)
    && forall j: nat :: MayHold(c, f, i, j) ==> f[j].high < 0.0 && f[j].low > 0.0
  }

  /** The bars a position may be held at are those up to the vertical barrier. */
  lemma HoldIs(c: Config, f: Frame, anchors: seq<nat>, i: nat, j: nat)
    requires i < |f| && IsAnchors(Times(f), c.mode, anchors)
    ensures i <= anchors[i] < |f|
    ensures MayHold(c, f, i, j) <==> i < j <= VerticalPosition(i, anchors[i], c.maxHold)
  {
    if c.mode == "mis" {
      assert IsSessionLast(Times(f), i, anchors[i]);
    }
  }

  lemma WidthIs(multiple: real, vol: real, floor: real)
    ensures Width(multiple, vol, floor) == Wider(multiple * vol, floor)
  {
  }

  lemma LongLevels(c: Config, f: Frame, vol: real, side: int, i: nat, j: nat)
    requires i < |f| && j < |f| && side > 0
    ensures var p := PathOf(f);
      && (Reaches(p, j, ProfitLevel(c, vol, p.close[i], side), true) <==> ProfitReached(c, f, vol, side, i, j))
      && (Reaches(p, j, StopLevel(c, vol, p.close[i], side), false) <==> StopReached(c, f, vol, side, i, j))
  {
    WidthIs(c.upper, vol, c.minReturn);
    WidthIs(c.lower, vol, c.minReturn);
  }

  lemma ShortLevels(c: Config, f: Frame, vol: real, side: int, i: nat, j: nat)
    requires i < |f| && j < |f| && side < 0
    ensures var p := PathOf(f);
      && (Reaches(p, j, ProfitLevel(c, vol, p.close[i], side), false) <==> ProfitReached(c, f, vol, side, i, j))
      && (Reaches(p, j, StopLevel(c, vol, p.close[i], side), true) <==> StopReached(c, f, vol, side, i, j))
  {
    WidthIs(c.upper, vol, c.minReturn);
    WidthIs(c.lower, vol, c.minReturn);
  }

  lemma LevelsAre(c: Config, f: Frame, vol: real, side: int, i: nat, j: nat)
    requires i < |f| && j < |f| && side != 0
    ensures var p := PathOf(f);
      && (Reaches(p, j, ProfitLevel(c, vol, p.close[i], side), side > 0) <==> ProfitReached(c, f, vol, side, i, j))
      && (Reaches(p, j, StopLevel(c, vol, p.close[i], side), side < 0) <==> StopReached(c, f, vol, side, i, j))
  {
    if side > 0 {
      LongLevels(c, f, vol, side, i, j);
    } else {
      ShortLevels(c, f, vol, side, i, j);
    }
  }

  lemma ChangeIs(f: Frame, i: nat, j: nat)
    requires i < |f| && j < |f| && f[i].close != 0.0
    ensures (Change(PathOf(f), i, j) + 1.0) * f[i].close == f[j].close
    ensures Change(PathOf(f), i, j) * f[i].close == f[j].close - f[i].close
  {
    Quotient(f[j].close, f[i].close);
  }

  lemma SidedChange(side: int, change: real, close: real, move: real)
    requires change * close == move
    ensures (side as real * change) * close == side as real * move
  {
    assert (side as real * change) * close == side as real * (change * close);
  }

  lemma VerticalIsLast(c: Config, f: Frame, anchors: seq<nat>, i: nat, j: nat)
    requires i < |f| && IsAnchors(Times(f), c.mode, anchors) && IsVertical(c, anchors[i], i, j)
    requires i < j <= anchors[i] && (c.maxHold > 0 ==> j <= i + c.maxHold)
    ensures LastHeld(c, f, i, j)
  {
    HoldIs(c, f, anchors, i, j);
    HoldIs(c, f, anchors, i, j + 1);
  }

  lemma ExitIsFirstReach(c: Config, f: Frame, vol: real, anchors: seq<nat>, side: int, i: nat, j: nat)
    requires i < |f| && IsAnchors(Times(f), c.mode, anchors) && i <= anchors[i] < |f| && side != 0
    requires EarliestExit(c, PathOf(f), vol, anchors[i], i, side, j)
    ensures FirstReach(c, f, vol, side, i, j)
  {
    HoldIs(c, f, anchors, i, j);
    forall b: nat | i < b < j ensures !ProfitReached(c, f, vol, side, i, b) && !StopReached(c, f, vol, side, i, b) {
      LevelsAre(c, f, vol, side, i, b);
      assert !ReachesEither(c, PathOf(f), vol, i, side, b);
    }
  }

  /** At the vertical barrier the return is measured from the event's close. */
  lemma VerticalRow(c: Config, f: Frame, vol: real, anchors: seq<nat>, side: int, i: nat, j: nat, row: MetaRow)
    requires i < |f| && IsAnchors(Times(f), c.mode, anchors) && i <= anchors[i] < |f|
    requires FirstReach(c, f, vol, side, i, j) && RowMeans(c, PathOf(f), vol, anchors[i], i, side, j, row)
    requires row.barrier == MetaVertical
    ensures LastHeld(c, f, i, j) && f[i].close != 0.0
    ensures row.ret * f[i].close == side as real * (f[j].close - f[i].close)
  {
    HoldIs(c, f, anchors, i, j);
    VerticalIsLast(c, f, anchors, i, j);
    ChangeIs(f, i, j);
    SidedChange(side, Change(PathOf(f), i, j), f[i].close, f[j].close - f[i].close);
  }

  /** A barrier hit earns its width. */
  lemma WidthRow(c: Config, f: Frame, vol: real, anchors: seq<nat>, side: int, i: nat, j: nat, row: MetaRow)
    requires i < |f| && j < |f| && i < |anchors| && RowMeans(c, PathOf(f), vol, anchors[i], i, side, j, row)
    ensures row.barrier == Stop ==> row.bet == 0 && row.ret == -Wider(c.lower * vol, c.minReturn)
    ensures row.barrier == Profit ==> row.bet == 1 && row.ret == Wider(c.upper * vol, c.minReturn)
    ensures row.barrier == MetaVertical ==> row.bet == (if row.ret > 0.0 then 1 else 0)
  {
    WidthIs(c.upper, vol, c.minReturn);
    WidthIs(c.lower, vol, c.minReturn);
  }

  lemma BarrierRow(c: Config, f: Frame, vol: real, anchors: seq<nat>, side: int, i: nat, j: nat, row: MetaRow)
    requires i < |f| && j < |f| && i < |anchors| && side != 0
    requires RowMeans(c, PathOf(f), vol, anchors[i], i, side, j, row)
    ensures row.barrier == Stop <==> StopReached(c, f, vol, side, i, j)
    ensures row.barrier == Profit <==> ProfitReached(c, f, vol, side, i, j) && !StopReached(c, f, vol, side, i, j)
  {
    LevelsAre(c, f, vol, side, i, j);
  }

  lemma RowOnBars(c: Config, f: Frame, vol: real, anchors: seq<nat>, side: int, i: nat, j: nat, row: MetaRow)
    requires i < |f| && IsAnchors(Times(f), c.mode, anchors) && i <= anchors[i] < |f| && side != 0
    requires FirstReach(c, f, vol, side, i, j) && RowMeans(c, PathOf(f), vol, anchors[i], i, side, j, row)
    ensures BetRow(c, f, vol, side, i, j, row)
  {
    WidthRow(c, f, vol, anchors, side, i, j, row);
    BarrierRow(c, f, vol, anchors, side, i, j, row);
    if row.barrier == MetaVertical {
      VerticalRow(c, f, vol, anchors, side, i, j, row);
    }
  }

  lemma ZeroIsReached(c: Config, f: Frame, vol: real, side: int, i: nat, j: nat, row: MetaRow)
    requires side != 0 && BetRow(c, f, vol, side, i, j, row)
    ensures !Unmeasured(c, f, i)
  {
    if f[i].close == 0.0 {
      assert ProfitReached(c, f, vol, side, i, j) || StopReached(c, f, vol, side, i, j);
      assert f[j].high >= 0.0 || f[j].low <= 0.0;
    }
  }

  /** With a zero close both levels are zero. */
  lemma ZeroLevels(c: Config, f: Frame, vol: real, anchors: seq<nat>, side: int, i: nat, j: nat)
    requires i < |f| && IsAnchors(Times(f), c.mode, anchors) && f[i].close == 0.0 && LastHeld(c, f, i, j) && side != 0
    requires forall b: nat :: i < b <= j ==>
      !ProfitReached(c, f, vol, side, i, b) && !StopReached(c, f, vol, side, i, b)
    ensures Unmeasured(c, f, i)
  {
    HoldIs(c, f, anchors, i, j);
    HoldIs(c, f, anchors, i, j + 1);
    HoldIs(c, f, anchors, i, i + 1);
    forall b: nat | MayHold(c, f, i, b) ensures f[b].high < 0.0 && f[b].low > 0.0 {
      HoldIs(c, f, anchors, i, b);
      assert !ProfitReached(c, f, vol, side, i, b) && !StopReached(c, f, vol, side, i, b);
    }
  }

  ghost predicate BetOnBars(c: Config, f: Frame, vol: real, side: int, i: nat, j: nat, bet: Outcome<MetaRow>) {
    if bet.Resolved? then BetRow(c, f, vol, side, i, j, bet.row) && !Unmeasured(c, f, i)
    else bet == ZeroDivision && Unmeasured(c, f, i)
  }

  /** A bet label, read on the bars. */
  lemma BetRowMeans(c: Config, f: Frame, vol: real, anchors: seq<nat>, side: int, i: nat) returns (j: nat)
    requires i < |f| && IsAnchors(Times(f), c.mode, anchors) && i <= anchors[i] < |f| && side != 0
    requires i < VerticalPosition(i, anchors[i], c.maxHold)
    ensures BetOnBars(c, f, vol, side, i, j, MetaOne(c, PathOf(f), Some(vol), anchors[i], i, side))
  {
    j := BetMeaning(c, PathOf(f), vol, anchors[i], i, side);
    ExitIsFirstReach(c, f, vol, anchors, side, i, j);
    var bet := MetaOne(c, PathOf(f), Some(vol), anchors[i], i, side);
    if bet.Resolved? {
      RowOnBars(c, f, vol, anchors, side, i, j, bet.row);
      ZeroIsReached(c, f, vol, side, i, j, bet.row);
    } else {
      LevelsAre(c, f, vol, side, i, j);
      HoldIs(c, f, anchors, i, j);
      VerticalIsLast(c, f, anchors, i, j);
      ZeroLevels(c, f, vol, anchors, side, i, j);
    }
  }

  /** A primary row and the bet row of a long on the same bars. */
  ghost predicate Alike(c: Config, vol: real, row: TripleRow, bet: MetaRow) {
    && row.exitTime == bet.exitTime && row.ret == bet.ret && AsMeta(row.barrier) == bet.barrier
    && row.target == Wider(c.upper * vol, c.minReturn)
    && row.outcome == match row.barrier case Upper => 1 case Lower => -1 case Vertical => Sign(row.ret)
  }

  lemma TripleOutcome(c: Config, p: Path, vol: real, anchor: nat, position: nat)
    requires Square(p) && position <= anchor < |p.times|
    requires TripleOne(c, p, Some(vol), anchor, position).Resolved?
    ensures var row := TripleOne(c, p, Some(vol), anchor, position).row;
      && row.target == Width(c.upper, vol, c.minReturn)
      && row.outcome == match row.barrier case Upper => 1 case Lower => -1 case Vertical => Sign(row.ret)
  {
  }

  lemma PrimaryAndBet(c: Config, p: Path, vol: real, anchor: nat, position: nat, primary: Outcome<TripleRow>,
                      bet: Outcome<MetaRow>)
    requires Square(p) && position <= anchor < |p.times|
    requires primary == TripleOne(c, p, Some(vol), anchor, position)
    requires bet == MetaOne(c, p, Some(vol), anchor, position, 1)
    ensures primary.Resolved? <==> bet.Resolved?
    ensures primary.ZeroDivision? <==> bet.ZeroDivision?
    ensures primary.Resolved? ==> Alike(c, vol, primary.row, bet.row)
  {
    LabelersAgreeOnLong(c, p, Some(vol), anchor, position);
    if primary.Resolved? {
      TripleOutcome(c, p, vol, anchor, position);
      WidthIs(c.upper, vol, c.minReturn);
    }
  }

  lemma LongMove(ret: real, start: real, end: real)
    requires ret * start == 1 as real * (end - start)
    ensures (ret + 1.0) * start == end
  {
  }

  lemma PrimaryFromBet(c: Config, f: Frame, vol: real, i: nat, j: nat, row: TripleRow, bet: MetaRow)
    requires BetRow(c, f, vol, 1, i, j, bet) && Alike(c, vol, row, bet)
    ensures PrimaryRow(c, f, vol, i, j, row)
  {
    if bet.barrier == MetaVertical {
      LongMove(row.ret, f[i].close, f[j].close);
    }
  }

  ghost predicate PrimaryOnBars(c: Config, f: Frame, vol: real, i: nat, j: nat, primary: Outcome<TripleRow>) {
    if primary.Resolved? then PrimaryRow(c, f, vol, i, j, primary.row) && !Unmeasured(c, f, i)
    else primary == ZeroDivision && Unmeasured(c, f, i)
  }

  lemma PrimaryFromBetOnBars(c: Config, f: Frame, vol: real, i: nat, j: nat, primary: Outcome<TripleRow>,
                             bet: Outcome<MetaRow>)
    requires BetOnBars(c, f, vol, 1, i, j, bet)
    requires (primary.Resolved? <==> bet.Resolved?) && (primary.ZeroDivision? <==> bet.ZeroDivision?)
    requires primary.Resolved? ==> Alike(c, vol, primary.row, bet.row)
    ensures PrimaryOnBars(c, f, vol, i, j, primary)
  {
    if primary.Resolved? {
      PrimaryFromBet(c, f, vol, i, j, primary.row, bet.row);
    }
  }

  /** A primary label, read on the bars: the long bet's exit, with its own outcome. */
  lemma PrimaryRowMeans(c: Config, f: Frame, vol: real, anchors: seq<nat>, i: nat) returns (j: nat)
    requires i < |f| && IsAnchors(Times(f), c.mode, anchors) && i <= anchors[i] < |f|
    requires i < VerticalPosition(i, anchors[i], c.maxHold)
    ensures PrimaryOnBars(c, f, vol, i, j, TripleOne(c, PathOf(f), Some(vol), anchors[i], i))
  {
    j := BetRowMeans(c, f, vol, anchors, 1, i);
    var primary := TripleOne(c, PathOf(f), Some(vol), anchors[i], i);
    var bet := MetaOne(c, PathOf(f), Some(vol), anchors[i], i, 1);
    PrimaryAndBet(c, PathOf(f), vol, anchors[i], i, primary, bet);
    PrimaryFromBetOnBars(c, f, vol, i, j, primary, bet);
  }

  // ---- the frames ----

  /** The event at this bar has what a label needs: a volatility and a bar to hold to. */
  ghost predicate Ready(c: Config, f: Frame, events: seq<int>, volatility: map<int, real>, i: nat)
    requires i < |f|
  {
    f[i].timestamp in events && f[i].timestamp in volatility && MayHold(c, f, i, i + 1)
  }

  ghost predicate PrimaryEntry(c: Config, f: Frame, events: seq<int>, volatility: map<int, real>, t: int,
                               row: TripleRow) {
    exists i: nat, j: nat :: i < |f| && f[i].timestamp == t && Ready(c, f, events, volatility, i)
      && PrimaryRow(c, f, volatility[t], i, j, row)
  }

  ghost function Elements(s: seq<int>): set<int> {
    set e | e in s
  }

  /** A row for exactly the ready events, each saying what its bars say; every other event is counted as skipped. */
  ghost predicate PrimaryFrame(c: Config, f: Frame, events: seq<int>, volatility: map<int, real>,
                               out: Labeled<TripleRow>) {
    && |out.index| == |out.rows| && |out.index| + out.skipped == |Elements(events)| && Ascending(out.index)
    && (forall i: nat :: i < |f| && Ready(c, f, events, volatility, i) ==> f[i].timestamp in out.index)
    && forall k :: 0 <= k < |out.index| ==> PrimaryEntry(c, f, events, volatility, out.index[k], out.rows[k])
  }

  ghost predicate Sided(f: Frame, sides: map<int, int>, i: nat)
    requires i < |f|
  {
    f[i].timestamp in sides && sides[f[i].timestamp] != 0
  }

  ghost predicate BetEntry(c: Config, f: Frame, events: seq<int>, sides: map<int, int>, volatility: map<int, real>,
                           t: int, row: MetaRow) {
    exists i: nat, j: nat :: i < |f| && f[i].timestamp == t && Ready(c, f, events, volatility, i)
      && Sided(f, sides, i) && BetRow(c, f, volatility[t], sides[t], i, j, row)
  }

  ghost predicate BetFrame(c: Config, f: Frame, events: seq<int>, sides: map<int, int>, volatility: map<int, real>,
                           out: Labeled<MetaRow>) {
    && |out.index| == |out.rows| && |out.index| + out.skipped == |Elements(events)| && Ascending(out.index)
    && (forall i: nat :: i < |f| && Ready(c, f, events, volatility, i) && Sided(f, sides, i) ==>
          f[i].timestamp in out.index)
    && forall k :: 0 <= k < |out.index| ==> BetEntry(c, f, events, sides, volatility, out.index[k], out.rows[k])
  }

  /** What one event comes to: no row, the row its bars give, or a division by its zero close. */
  lemma PrimaryAtEvent(c: Config, f: Frame, events: seq<int>, volatility: map<int, real>, anchors: seq<nat>, i: nat)
    requires i < |f| && f[i].timestamp in events && IsAnchors(Times(f), c.mode, anchors) && Anchored(PathOf(f), anchors)
    ensures match TripleAt(c, PathOf(f), volatility, anchors)(i)
      case Skipped => !Ready(c, f, events, volatility, i)
      case ZeroDivision => Ready(c, f, events, volatility, i) && Unmeasured(c, f, i)
      case Resolved(row) => !Unmeasured(c, f, i) && PrimaryEntry(c, f, events, volatility, f[i].timestamp, row)
  {
    HoldIs(c, f, anchors, i, i + 1);
    if Ready(c, f, events, volatility, i) {
      var j := PrimaryRowMeans(c, f, volatility[f[i].timestamp], anchors, i);
    }
  }

  lemma BetAtEvent(c: Config, f: Frame, events: seq<int>, sides: map<int, int>, volatility: map<int, real>,
                   anchors: seq<nat>, i: nat)
    requires i < |f| && f[i].timestamp in events && IsAnchors(Times(f), c.mode, anchors) && Anchored(PathOf(f), anchors)
    ensures match MetaAt(c, PathOf(f), sides, volatility, anchors)(i)
      case Skipped => !(Ready(c, f, events, volatility, i) && Sided(f, sides, i))
      case ZeroDivision => Ready(c, f, events, volatility, i) && Sided(f, sides, i) && Unmeasured(c, f, i)
      case Resolved(row) => !Unmeasured(c, f, i) && BetEntry(c, f, events, sides, volatility, f[i].timestamp, row)
  {
    HoldIs(c, f, anchors, i, i + 1);
    if Ready(c, f, events, volatility, i) && Sided(f, sides, i) {
      var j := BetRowMeans(c, f, volatility[f[i].timestamp], anchors, sides[f[i].timestamp], i);
    }
  }

  lemma {:induction false} CountDistinct(times: seq<int>)
    requires Ascending(times)
    ensures |Elements(times)| == |times|
  {
    if |times| > 0 {
      var front, last := times[..|times| - 1], times[|times| - 1];
      CountDistinct(front);
      assert times == front + [last];
      assert Elements(times) == Elements(front) + {last};
    }
  }

  function TimesAt(f: Frame, positions: seq<nat>): (r: seq<int>)
    requires forall k :: 0 <= k < |positions| ==> positions[k] < |f|
    ensures |r| == |positions| && forall k :: 0 <= k < |r| ==> r[k] == f[positions[k]].timestamp
  {
    seq(|positions|, k requires 0 <= k < |positions| => f[positions[k]].timestamp)
  }

  lemma EventTimes(f: Frame, events: seq<int>, positions: seq<nat>)
    requires EventPositions(events, Times(f)) == Ok(positions)
    ensures forall k :: 0 <= k < |positions| ==> positions[k] < |f|
    ensures Elements(TimesAt(f, positions)) == Elements(events)
  {
    forall k | 0 <= k < |positions| ensures positions[k] < |f| && f[positions[k]].timestamp in events {
      assert positions[k] in positions;
      assert Times(f)[positions[k]] in events;
    }
    forall e | e in events ensures e in TimesAt(f, positions) {
      var i: nat :| i < |f| && Times(f)[i] == e;
      assert i in positions;
      var k :| 0 <= k < |positions| && positions[k] == i;
      assert TimesAt(f, positions)[k] == e;
    }
  }

  /** There are as many event bars as distinct events. */
  lemma EventCount(f: Frame, events: seq<int>, positions: seq<nat>)
    requires Ascending(Times(f)) && EventPositions(events, Times(f)) == Ok(positions)
    ensures |positions| == |Elements(events)|
  {
    EventTimes(f, events, positions);
    var at := TimesAt(f, positions);
    forall a, b | 0 <= a < b < |at| ensures at[a] < at[b] {
      assert Times(f)[positions[a]] < Times(f)[positions[b]];
    }
    CountDistinct(at);
  }

  /** The row is that of the event at this time. */
  ghost predicate EventGives<Row>(f: Frame, events: seq<int>, one: nat -> Outcome<Row>, t: int, row: Row) {
    t in events && exists i: nat :: i < |f| && f[i].timestamp == t && one(i) == Resolved(row)
  }

  /** The rows that were collected, by what one event comes to. */
  lemma RowsOf<Row>(f: Frame, events: seq<int>, positions: seq<nat>, one: nat -> Outcome<Row>, out: Labeled<Row>)
    requires Ascending(Times(f)) && EventPositions(events, Times(f)) == Ok(positions)
    requires Collected(Times(f), positions, |positions|, one, out)
    ensures |out.index| == |out.rows| && |out.index| + out.skipped == |Elements(events)|
    ensures forall k :: 0 <= k < |out.index| ==>
      EventGives(f, events, one, out.index[k], out.rows[k])
    ensures forall i: nat :: i < |f| && f[i].timestamp in events && one(i).Resolved? ==> f[i].timestamp in out.index
  {
    EventCount(f, events, positions);
    var kept := Kept(one, positions, |positions|);
    assert positions[..|positions|] == positions;
    forall k | 0 <= k < |out.index|
      ensures EventGives(f, events, one, out.index[k], out.rows[k])
    {
      assert kept[k] in kept;
      assert Times(f)[kept[k]] in events;
    }
    forall i: nat | i < |f| && f[i].timestamp in events && one(i).Resolved? ensures f[i].timestamp in out.index {
      assert Times(f)[i] in events;
      assert i in kept;
      var k :| 0 <= k < |kept| && kept[k] == i;
      assert out.index[k] == Times(f)[i];
    }
  }

  /** Some event's bars would be measured from a zero close. */
  ghost predicate SomeUnmeasured(c: Config, f: Frame, events: seq<int>, volatility: map<int, real>) {
    exists i: nat :: i < |f| && Ready(c, f, events, volatility, i) && Unmeasured(c, f, i)
  }

  ghost predicate SomeBetUnmeasured(c: Config, f: Frame, events: seq<int>, sides: map<int, int>,
                                    volatility: map<int, real>) {
    exists i: nat :: i < |f| && Ready(c, f, events, volatility, i) && Sided(f, sides, i) && Unmeasured(c, f, i)
  }

  lemma DividesIs<Row>(f: Frame, events: seq<int>, positions: seq<nat>, one: nat -> Outcome<Row>)
    requires Ascending(Times(f)) && EventPositions(events, Times(f)) == Ok(positions)
    ensures Divides(positions, |positions|, one)
      <==> exists i: nat :: i < |f| && f[i].timestamp in events && one(i).ZeroDivision?
  {
    if k :| 0 <= k < |positions| && one(positions[k]).ZeroDivision? {
      assert positions[k] in positions;
      assert Times(f)[positions[k]] in events;
    }
    if i: nat :| i < |f| && f[i].timestamp in events && one(i).ZeroDivision? {
      assert Times(f)[i] in events;
      assert i in positions;
      var k :| 0 <= k < |positions| && positions[k] == i;
      assert one(positions[k]).ZeroDivision?;
    }
  }

  lemma PrimaryFrameMeans(c: Config, f: Frame, events: seq<int>, volatility: map<int, real>, positions: seq<nat>,
                          anchors: seq<nat>, r: Result<Labeled<TripleRow>, LabelingError>)
    requires Ascending(Times(f)) && EventPositions(events, Times(f)) == Ok(positions)
    requires IsAnchors(Times(f), c.mode, anchors) && Anchored(PathOf(f), anchors)
    requires var one := TripleAt(c, PathOf(f), volatility, anchors);
      && (r.Err? <==> Divides(positions, |positions|, one))
      && (r.Ok? ==> Ascending(r.value.index) && Collected(Times(f), positions, |positions|, one, r.value))
    ensures r.Err? <==> SomeUnmeasured(c, f, events, volatility)
    ensures r.Ok? ==> PrimaryFrame(c, f, events, volatility, r.value)
  {
    var one := TripleAt(c, PathOf(f), volatility, anchors);
    forall i: nat | i < |f| && f[i].timestamp in events
      ensures one(i).Skipped? <==> !Ready(c, f, events, volatility, i)
      ensures one(i).ZeroDivision? <==> Ready(c, f, events, volatility, i) && Unmeasured(c, f, i)
      ensures one(i).Resolved? ==> PrimaryEntry(c, f, events, volatility, f[i].timestamp, one(i).row)
    {
      PrimaryAtEvent(c, f, events, volatility, anchors, i);
    }
    DividesIs(f, events, positions, one);
    if r.Ok? {
      RowsOf(f, events, positions, one, r.value);
    }
  }

  lemma BetFrameMeans(c: Config, f: Frame, events: seq<int>, sides: map<int, int>, volatility: map<int, real>,
                      positions: seq<nat>, anchors: seq<nat>, r: Result<Labeled<MetaRow>, LabelingError>)
    requires Ascending(Times(f)) && EventPositions(events, Times(f)) == Ok(positions)
    requires IsAnchors(Times(f), c.mode, anchors) && Anchored(PathOf(f), anchors)
    requires var one := MetaAt(c, PathOf(f), sides, volatility, anchors);
      && (r.Err? <==> Divides(positions, |positions|, one))
      && (r.Ok? ==> Ascending(r.value.index) && Collected(Times(f), positions, |positions|, one, r.value))
    ensures r.Err? <==> SomeBetUnmeasured(c, f, events, sides, volatility)
    ensures r.Ok? ==> BetFrame(c, f, events, sides, volatility, r.value)
  {
    var one := MetaAt(c, PathOf(f), sides, volatility, anchors);
    forall i: nat | i < |f| && f[i].timestamp in events
      ensures one(i).Skipped? <==> !(Ready(c, f, events, volatility, i) && Sided(f, sides, i))
      ensures one(i).ZeroDivision? <==> Ready(c, f, events, volatility, i) && Sided(f, sides, i) && Unmeasured(c, f, i)
      ensures one(i).Resolved? ==> BetEntry(c, f, events, sides, volatility, f[i].timestamp, one(i).row)
    {
      BetAtEvent(c, f, events, sides, volatility, anchors, i);
    }
    DividesIs(f, events, positions, one);
    if r.Ok? {
      RowsOf(f, events, positions, one, r.value);
    }
  }

  /** The labels of a frame whose checks pass, or the division by a zero close. */
  ghost predicate LabelFrame<Row>(positions: seq<nat>, times: seq<int>, one: nat -> Outcome<Row>,
                                  r: Result<Labeled<Row>, LabelingError>) {
    match r
    case Err(e) => e == ZeroReference && Divides(positions, |positions|, one)
    case Ok(out) => !Divides(positions, |positions|, one) && Collected(times, positions, |positions|, one, out)
  }

  /** The primary label frame. */
  method LabelTriple(c: Config, bars: Frame, events: seq<int>, volatility: map<int, real>)
    returns (r: Result<Labeled<TripleRow>, LabelingError>)
    ensures |bars| == 0 || |events| == 0 ==> r == Ok(Labeled([], [], 0))
    ensures r.Ok? ==> Ascending(r.value.index)
    ensures |bars| > 0 && |events| > 0 ==> (Labelable(c, bars, events) <==> r.Ok? || r.error == ZeroReference)
    ensures |bars| > 0 && |events| > 0 ==>
      (r == Err(ZeroReference) <==> Labelable(c, bars, events) && SomeUnmeasured(c, SortBars(bars), events, volatility))
    ensures |bars| > 0 && |events| > 0 && Labelable(c, bars, events) ==>
      var p := PathOf(SortBars(bars));
      var positions := EventPositions(events, p.times).value;
      exists anchors :: IsAnchors(p.times, c.mode, anchors) && Anchored(p, anchors)
        && LabelFrame(positions, p.times, TripleAt(c, p, volatility, anchors), r)
    ensures |bars| > 0 && |events| > 0 && r.Ok? ==> PrimaryFrame(c, SortBars(bars), events, volatility, r.value)
  {
    if |bars| == 0 || |events| == 0 {
      return Ok(Labeled([], [], 0));
    }
    var ready := Prepare(c, bars, events);
    match ready
    case Err(e) => return Err(e);
    case Ok((p, positions, anchors)) =>
      r := CollectRows(p.times, positions, TripleAt(c, p, volatility, anchors));
      PrimaryFrameMeans(c, SortBars(bars), events, volatility, positions, anchors, r);
  }

  /** The bet label frame; a bar the sides do not cover is flat. */
  method LabelMeta(c: Config, bars: Frame, events: seq<int>, sides: map<int, int>, volatility: map<int, real>)
    returns (r: Result<Labeled<MetaRow>, LabelingError>)
    ensures |bars| == 0 || |events| == 0 ==> r == Ok(Labeled([], [], 0))
    ensures r.Ok? ==> Ascending(r.value.index)
    ensures |bars| > 0 && |events| > 0 ==> (Labelable(c, bars, events) <==> r.Ok? || r.error == ZeroReference)
    ensures |bars| > 0 && |events| > 0 ==>
      (r == Err(ZeroReference) <==>
        Labelable(c, bars, events) && SomeBetUnmeasured(c, SortBars(bars), events, sides, volatility))
    ensures |bars| > 0 && |events| > 0 && Labelable(c, bars, events) ==>
      var p := PathOf(SortBars(bars));
      var positions := EventPositions(events, p.times).value;
      exists anchors :: IsAnchors(p.times, c.mode, anchors) && Anchored(p, anchors)
        && LabelFrame(positions, p.times, MetaAt(c, p, sides, volatility, anchors), r)
    ensures |bars| > 0 && |events| > 0 && r.Ok? ==> BetFrame(c, SortBars(bars), events, sides, volatility, r.value)
  {
    if |bars| == 0 || |events| == 0 {
      return Ok(Labeled([], [], 0));
    }
    var ready := Prepare(c, bars, events);
    match ready
    case Err(e) => return Err(e);
    case Ok((p, positions, anchors)) =>
      r := CollectRows(p.times, positions, MetaAt(c, p, sides, volatility, anchors));
      BetFrameMeans(c, SortBars(bars), events, sides, volatility, positions, anchors, r);
  }
}
