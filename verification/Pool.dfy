/** Pooling every symbol's labels onto one synthetic clock (scripts/run_complete_pipeline.py, _pool). */
module Pool {
  import opened Wrappers

  /** What an event is learned from; a missing number is none. */
  datatype Row = Row(features: seq<Option<real>>, regime: seq<Option<real>>, target: int, ret: Option<real>)

  /** One event of one symbol, and when its label resolves. */
  datatype Event = Event(start: int, end: Option<int>, row: Row)

  datatype SymbolRows = SymbolRows(symbol: string, events: seq<Event>)

  /** An event placed on the synthetic clock, in nanoseconds; symbols are numbered in name order. */
  datatype Placed = Placed(symbol: nat, event: Event, t0: int, t1: int)

  datatype PoolError = NoPoolableRows

  /** Symbols are kept this many nanoseconds apart: the larger of 10 and 4 * 5 synthetic seconds. */
  function Gap(): int {
    20 * 1_000_000_000
  }

  /** 2020-01-01 in nanoseconds. */
  function FirstEpoch(): int {
    1577836800 * 1_000_000_000
  }

  predicate AllPresent(v: seq<Option<real>>) {
    forall i :: 0 <= i < |v| ==> v[i].Some?
  }

  /** An event is pooled if nothing it is learned from is missing. */
  predicate Usable(e: Event) {
    AllPresent(e.row.features) && AllPresent(e.row.regime) && e.row.ret.Some? && e.end.Some?
  }

  lemma UsableIff(e: Event)
    ensures Usable(e) <==> None !in e.row.features && None !in e.row.regime && e.row.ret != None && e.end != None
  {
    if None in e.row.features {
      var i :| 0 <= i < |e.row.features| && e.row.features[i] == None;
      assert !AllPresent(e.row.features);
    }
    if None in e.row.regime {
      var i :| 0 <= i < |e.row.regime| && e.row.regime[i] == None;
      assert !AllPresent(e.row.regime);
    }
  }

  function Valid(events: seq<Event>): (r: seq<Event>)
    ensures forall e :: e in r <==> e in events && Usable(e)
    ensures |r| <= |events|
  {
    if |events| == 0 then []
    else
      var before, last := Valid(events[..|events| - 1]), events[|events| - 1];
      assert events == events[..|events| - 1] + [last];
      if Usable(last) then before + [last] else before
  }

  ghost predicate StartsAscend(events: seq<Event>) {
    forall i, j :: 0 <= i < j < |events| ==> events[i].start < events[j].start
  }

  /** The usable events stay in their order. */
  lemma {:induction false} ValidInOrder(events: seq<Event>)
    requires StartsAscend(events)
    ensures StartsAscend(Valid(events))
  {
    if |events| > 0 {
      var front, last := events[..|events| - 1], events[|events| - 1];
      ValidInOrder(front);
      forall i | 0 <= i < |Valid(front)| ensures Valid(front)[i].start < last.start {
        assert Valid(front)[i] in front;
      }
    }
  }

  /** The label's span in whole days, at least one; days round down, also below zero. */
  function HoldDays(start: int, end: int): int {
    if (end - start) / 86_400_000_000_000 < 1 then 1 else (end - start) / 86_400_000_000_000
  }

  /** Twenty seconds, the start of 2020, and the most whole days that fit, at least one. */
  lemma ClockIs(start: int, end: int)
    ensures Gap() == 20_000_000_000 && FirstEpoch() == 1_577_836_800_000_000_000
    ensures var days := HoldDays(start, end);
      && days >= 1 && (days > 1 ==> days * 86_400_000_000_000 <= end - start)
      && end - start < (days + 1) * 86_400_000_000_000
  {
  }

  function Place(symbol: nat, e: Event, epoch: int, i: nat): Placed
    requires e.end.Some?
  {
    var t0 := epoch + i * 1_000_000_000;
    Placed(symbol, e, t0, t0 + HoldDays(e.start, e.end.value) * 1_000_000_000)
  }

  /** One symbol's events, one synthetic second apart. */
  function PlaceAll(symbol: nat, events: seq<Event>, epoch: int): (r: seq<Placed>)
    requires forall e :: e in events ==> e.end.Some?
    ensures |r| == |events| && forall i :: 0 <= i < |r| ==> r[i] == Place(symbol, events[i], epoch, i)
  {
    seq(|events|, i requires 0 <= i < |events| => Place(symbol, events[i], epoch, i))
  }

  function LatestEnd(part: seq<Placed>): (r: int)
    requires |part| > 0
    ensures (exists i :: 0 <= i < |part| && part[i].t1 == r) && forall i :: 0 <= i < |part| ==> part[i].t1 <= r
  {
    if |part| == 1 then part[0].t1
    else
      var before, last := LatestEnd(part[..|part| - 1]), part[|part| - 1].t1;
      assert part[|part| - 1].t1 == last;
      if before < last then last else before
  }

  /** One symbol appended to the pool; the next starts a gap after its latest end. */
  function PoolStep(symbol: nat, events: seq<Event>, pooled: seq<Placed>, epoch: int): (seq<Placed>, int) {
    var part := PlaceAll(symbol, Valid(events), epoch);
    if |part| == 0 then (pooled, epoch) else (pooled + part, LatestEnd(part) + Gap())
  }

  /** The pooled labels of the first n symbols, and where the next one starts. */
  function PoolTo(symbols: seq<seq<Event>>, n: nat): (seq<Placed>, int)
    requires n <= |symbols|
  {
    if n == 0 then ([], FirstEpoch())
    else
      var (pooled, epoch) := PoolTo(symbols, n - 1);
      PoolStep(n - 1, symbols[n - 1], pooled, epoch)
  }

  ghost predicate NoneUsable(events: seq<Event>) {
    forall e :: e in events ==> !Usable(e)
  }

  lemma ValidEmpty(events: seq<Event>)
    ensures Valid(events) == [] <==> NoneUsable(events)
  {
    if Valid(events) != [] {
      assert Valid(events)[0] in events;
    } else {
      assert forall e :: e in events && Usable(e) ==> e in Valid(events);
    }
  }

  /** One turn of the pooling loop. */
  method AppendSymbol(symbol: nat, all: seq<Event>, before: seq<Placed>, from: int)
    returns (pooled: seq<Placed>, epoch: int)
    ensures (pooled, epoch) == PoolStep(symbol, all, before, from)
    ensures |pooled| == 0 <==> |before| == 0 && NoneUsable(all)
  {
    var events := Valid(all);
    ValidEmpty(all);
    pooled, epoch := before, from;
    if |events| == 0 {
      return;
    }
    var part := PlaceAll(symbol, events, from);
    pooled := before + part;
    epoch := LatestEnd(part) + Gap();
  }

  // ---- symbols in name order ----

  /** Strings compare by their characters' codes, a prefix coming first. */
  predicate AtMost(a: string, b: string) {
    |a| == 0 || (|b| > 0 && (a[0] < b[0] || (a[0] == b[0] && AtMost(a[1..], b[1..]))))
  }

  lemma {:induction false} NamesTotal(a: string, b: string)
    ensures AtMost(a, b) || AtMost(b, a)
    ensures AtMost(a, b) && AtMost(b, a) ==> a == b
  {
    if |a| > 0 && |b| > 0 && a[0] == b[0] {
      NamesTotal(a[1..], b[1..]);
      assert a == [a[0]] + a[1..] && b == [b[0]] + b[1..];
    }
  }

  lemma {:induction false} NamesTransitive(a: string, b: string, c: string)
    requires AtMost(a, b) && AtMost(b, c)
    ensures AtMost(a, c)
  {
    if |a| > 0 && a[0] == b[0] == c[0] {
      NamesTransitive(a[1..], b[1..], c[1..]);
    }
  }

  /** Stable: a row goes after the rows of its own name. */
  function InsertRow(rows: seq<SymbolRows>, x: SymbolRows): (r: seq<SymbolRows>) {
    if |rows| == 0 || AtMost(rows[|rows| - 1].symbol, x.symbol) then rows + [x]
    else InsertRow(rows[..|rows| - 1], x) + [rows[|rows| - 1]]
  }

  function SortRows(rows: seq<SymbolRows>): seq<SymbolRows> {
    if |rows| == 0 then [] else InsertRow(SortRows(rows[..|rows| - 1]), rows[|rows| - 1])
  }

  ghost predicate InNameOrder(rows: seq<SymbolRows>) {
    forall i, j :: 0 <= i < j < |rows| ==> AtMost(rows[i].symbol, rows[j].symbol)
  }

  /** The rows of one name, in their order. */
  ghost function RowsNamed(rows: seq<SymbolRows>, name: string): seq<SymbolRows> {
    if |rows| == 0 then []
    else RowsNamed(rows[..|rows| - 1], name) + if rows[|rows| - 1].symbol == name then [rows[|rows| - 1]] else []
  }

  lemma {:induction false} InsertedInOrder(rows: seq<SymbolRows>, x: SymbolRows)
    requires InNameOrder(rows)
    ensures InNameOrder(InsertRow(rows, x))
    ensures forall y :: y in InsertRow(rows, x) <==> y in rows || y == x
  {
    if |rows| > 0 {
      var front, last := rows[..|rows| - 1], rows[|rows| - 1];
      assert rows == front + [last];
      NamesTotal(last.symbol, x.symbol);
      if AtMost(last.symbol, x.symbol) {
        forall i | 0 <= i < |rows| ensures AtMost(rows[i].symbol, x.symbol) {
          if i < |front| {
            NamesTransitive(rows[i].symbol, last.symbol, x.symbol);
          }
        }
      } else {
        InsertedInOrder(front, x);
        forall y | y in InsertRow(front, x) ensures AtMost(y.symbol, last.symbol) {
        }
      }
    }
  }

  lemma {:induction false} NamesReflexive(a: string)
    ensures AtMost(a, a)
  {
    NamesTotal(a, a);
  }

  lemma {:induction false} InsertedNamed(rows: seq<SymbolRows>, x: SymbolRows, name: string)
    ensures RowsNamed(InsertRow(rows, x), name) == RowsNamed(rows, name) + if x.symbol == name then [x] else []
  {
    if |rows| == 0 || AtMost(rows[|rows| - 1].symbol, x.symbol) {
      assert (rows + [x])[..|rows|] == rows;
    } else {
      var front, last := rows[..|rows| - 1], rows[|rows| - 1];
      InsertedNamed(front, x, name);
      var r := InsertRow(rows, x);
      assert r[..|r| - 1] == InsertRow(front, x) && r[|r| - 1] == last;
      NamesTotal(last.symbol, x.symbol);
      if last.symbol == x.symbol {
        NamesReflexive(x.symbol);
      }
    }
  }

  /** The sort puts the names in order and keeps every name's rows in theirs. */
  lemma {:induction false} SortedByName(rows: seq<SymbolRows>)
    ensures InNameOrder(SortRows(rows))
    ensures forall y :: y in SortRows(rows) <==> y in rows
    ensures forall name :: RowsNamed(SortRows(rows), name) == RowsNamed(rows, name)
  {
    if |rows| > 0 {
      var front, last := rows[..|rows| - 1], rows[|rows| - 1];
      SortedByName(front);
      InsertedInOrder(SortRows(front), last);
      assert rows == front + [last];
      forall name ensures RowsNamed(SortRows(rows), name) == RowsNamed(rows, name) {
        InsertedNamed(SortRows(front), last, name);
      }
    }
  }

  function EventsOf(rows: seq<SymbolRows>): (r: seq<seq<Event>>)
    ensures |r| == |rows| && forall i :: 0 <= i < |r| ==> r[i] == rows[i].events
  {
    seq(|rows|, i requires 0 <= i < |rows| => rows[i].events)
  }

  /** One more symbol pooled. */
  lemma PoolToStep(symbols: seq<seq<Event>>, n: nat)
    requires n < |symbols|
    ensures PoolTo(symbols, n + 1) == PoolStep(n, symbols[n], PoolTo(symbols, n).0, PoolTo(symbols, n).1)
  {
  }

  /** The pooling loop. */
  method PoolSymbols(symbols: seq<seq<Event>>) returns (pooled: seq<Placed>)
    ensures pooled == PoolTo(symbols, |symbols|).0
    ensures |pooled| == 0 <==> forall k :: 0 <= k < |symbols| ==> NoneUsable(symbols[k])
  {
    var epoch := FirstEpoch();
    pooled := [];
    for n := 0 to |symbols|
      invariant (pooled, epoch) == PoolTo(symbols, n)
      invariant |pooled| == 0 <==> forall k :: 0 <= k < n ==> NoneUsable(symbols[k])
    {
      PoolToStep(symbols, n);
      pooled, epoch := AppendSymbol(n, symbols[n], pooled, epoch);
    }
  }

  lemma NoneUsableInOrder(rows: seq<SymbolRows>)
    ensures (forall k :: 0 <= k < |EventsOf(SortRows(rows))| ==> NoneUsable(EventsOf(SortRows(rows))[k]))
       <==> (forall x :: x in rows ==> NoneUsable(x.events))
  {
    var sorted := SortRows(rows);
    SortedByName(rows);
    if forall x :: x in rows ==> NoneUsable(x.events) {
      forall k | 0 <= k < |sorted| ensures NoneUsable(EventsOf(sorted)[k]) {
        assert sorted[k] in rows;
      }
    } else {
      var x :| x in rows && !NoneUsable(x.events);
      var k :| 0 <= k < |sorted| && sorted[k] == x;
      assert EventsOf(sorted)[k] == x.events;
    }
  }

  /** Every symbol in name order. */
  method PoolRows(rows: seq<SymbolRows>) returns (r: Result<seq<Placed>, PoolError>)
    ensures r.Err? <==> forall x :: x in rows ==> NoneUsable(x.events)
    ensures r.Ok? ==> r.value == PoolTo(EventsOf(SortRows(rows)), |SortRows(rows)|).0
  {
    var pooled := PoolSymbols(EventsOf(SortRows(rows)));
    NoneUsableInOrder(rows);
    if |pooled| == 0 {
      return Err(NoPoolableRows);
    }
    return Ok(pooled);
  }

  // ---- across symbols ----

  /** Starts strictly ascend, and a label of an earlier symbol ends a whole gap before a later symbol's starts. */
  ghost predicate Separated(pooled: seq<Placed>) {
    && (forall p, q :: 0 <= p < q < |pooled| ==> pooled[p].t0 < pooled[q].t0 && pooled[p].symbol <= pooled[q].symbol)
    && forall p, q :: 0 <= p < |pooled| && 0 <= q < |pooled| && pooled[p].symbol < pooled[q].symbol ==>
        pooled[p].t1 + Gap() <= pooled[q].t0
  }

  ghost predicate EndedBy(pooled: seq<Placed>, epoch: int, n: nat) {
    forall p :: 0 <= p < |pooled| ==>
      pooled[p].t0 < pooled[p].t1 && pooled[p].t1 + Gap() <= epoch && pooled[p].symbol < n
  }

  lemma PartEnds(part: seq<Placed>, n: nat)
    requires |part| > 0 && forall i :: 0 <= i < |part| ==> part[i].symbol == n && part[i].t0 < part[i].t1
    ensures EndedBy(part, LatestEnd(part) + Gap(), n + 1)
  {
  }

  lemma LaterEpoch(pooled: seq<Placed>, part: seq<Placed>, epoch: int, n: nat)
    requires |part| > 0 && EndedBy(pooled, epoch, n) && epoch <= part[0].t0 < part[0].t1
    ensures EndedBy(pooled, LatestEnd(part) + Gap(), n + 1)
  {
    assert part[0].t1 <= LatestEnd(part);
  }

  lemma JoinSeparated(pooled: seq<Placed>, part: seq<Placed>, epoch: int, n: nat)
    requires Separated(pooled) && EndedBy(pooled, epoch, n)
    requires forall i :: 0 <= i < |part| ==> part[i].symbol == n && epoch <= part[i].t0
    requires forall i, j :: 0 <= i < j < |part| ==> part[i].t0 < part[j].t0
    ensures Separated(pooled + part)
  {
  }

  lemma PartPlaced(symbol: nat, events: seq<Event>, epoch: int)
    requires forall e :: e in events ==> e.end.Some?
    ensures var part := PlaceAll(symbol, events, epoch);
      && (forall i :: 0 <= i < |part| ==> part[i].symbol == symbol && epoch <= part[i].t0 < part[i].t1)
      && forall i, j :: 0 <= i < j < |part| ==> part[i].t0 < part[j].t0
  {
  }

  lemma PartJoins(pooled: seq<Placed>, part: seq<Placed>, epoch: int, n: nat)
    requires Separated(pooled) && EndedBy(pooled, epoch, n) && |part| > 0
    requires forall i :: 0 <= i < |part| ==> part[i].symbol == n && epoch <= part[i].t0 < part[i].t1
    requires forall i, j :: 0 <= i < j < |part| ==> part[i].t0 < part[j].t0
    ensures Separated(pooled + part) && EndedBy(pooled + part, LatestEnd(part) + Gap(), n + 1)
  {
    JoinSeparated(pooled, part, epoch, n);
    PartEnds(part, n);
    LaterEpoch(pooled, part, epoch, n);
  }

  lemma {:induction false} PoolingSeparates(symbols: seq<seq<Event>>, n: nat)
    requires n <= |symbols|
    ensures var (pooled, epoch) := PoolTo(symbols, n); Separated(pooled) && EndedBy(pooled, epoch, n)
  {
    if n > 0 {
      PoolingSeparates(symbols, n - 1);
      var (pooled, epoch) := PoolTo(symbols, n - 1);
      var part := PlaceAll(n - 1, Valid(symbols[n - 1]), epoch);
      PartPlaced(n - 1, Valid(symbols[n - 1]), epoch);
      if |part| > 0 {
        PartJoins(pooled, part, epoch, n - 1);
      }
    }
  }

  // ---- within a symbol ----

  ghost predicate Intersect(a0: int, a1: int, b0: int, b1: int) {
    a0 <= b1 && b0 <= a1
  }

  /** Labels of events starting at these times, each ending no earlier than it starts. */
  ghost predicate EndsFollow(starts: seq<int>, ends: seq<int>) {
    |ends| == |starts| && forall i :: 0 <= i < |starts| ==> starts[i] <= ends[i]
  }

  ghost predicate Ascending(starts: seq<int>) {
    forall i, j :: 0 <= i < j < |starts| ==> starts[i] < starts[j]
  }

  /** Where the synthetic clock puts label i of a symbol whose first event is at epoch. */
  ghost function Begin(epoch: int, i: nat): int {
    epoch + i * 1_000_000_000
  }

  ghost function Finish(starts: seq<int>, ends: seq<int>, epoch: int, i: nat): int
    requires i < |starts| == |ends|
  {
    Begin(epoch, i) + HoldDays(starts[i], ends[i]) * 1_000_000_000
  }

  function Starts(events: seq<Event>): (r: seq<int>)
    ensures |r| == |events| && forall i :: 0 <= i < |r| ==> r[i] == events[i].start
  {
    seq(|events|, i requires 0 <= i < |events| => events[i].start)
  }

  function Ends(events: seq<Event>): (r: seq<int>)
    requires forall e :: e in events ==> e.end.Some?
    ensures |r| == |events| && forall i :: 0 <= i < |r| ==> r[i] == events[i].end.value
  {
    seq(|events|, i requires 0 <= i < |events| => events[i].end.value)
  }

  /** These are the windows the pooling gives a symbol's labels. */
  lemma PlacedAt(symbol: nat, events: seq<Event>, epoch: int, i: nat)
    requires i < |events| && forall e :: e in events ==> e.end.Some?
    ensures var x := PlaceAll(symbol, events, epoch)[i];
      x.t0 == Begin(epoch, i) && x.t1 == Finish(Starts(events), Ends(events), epoch, i)
  {
  }

  /** A real overlap of labels i < j is an overlap on the synthetic clock too. */
  ghost predicate OverlapKept(starts: seq<int>, ends: seq<int>, epoch: int, i: nat, j: nat)
    requires i < j < |starts| == |ends|
  {
    Intersect(starts[i], ends[i], starts[j], ends[j]) ==>
      Intersect(Begin(epoch, i), Finish(starts, ends, epoch, i), Begin(epoch, j), Finish(starts, ends, epoch, j))
  }

  /** The purge sees every real overlap, whatever the label ends are. */
  ghost predicate NeverLeaks(starts: seq<int>, epoch: int) {
    forall ends, i, j :: 0 <= i < j < |starts| && EndsFollow(starts, ends) ==> OverlapKept(starts, ends, epoch, i, j)
  }

  /** Any j - i events in a row take at least that many whole days, neighbours excepted. */
  ghost predicate SpacedOut(starts: seq<int>) {
    forall i, j :: 0 <= i < j < |starts| ==> j - i <= HoldDays(starts[i], starts[j])
  }

  lemma HoldMonotone(start: int, sooner: int, later: int)
    requires sooner <= later
    ensures HoldDays(start, sooner) <= HoldDays(start, later)
  {
  }

  lemma SpacedKeeps(starts: seq<int>, ends: seq<int>, epoch: int, i: nat, j: nat)
    requires i < j < |starts| == |ends| && starts[i] < starts[j] && j - i <= HoldDays(starts[i], starts[j])
    ensures OverlapKept(starts, ends, epoch, i, j)
  {
    if starts[j] <= ends[i] {
      HoldMonotone(starts[i], starts[j], ends[i]);
    }
  }

  /** A label of event i that ends just as event j starts. */
  ghost function Touching(starts: seq<int>, i: nat, j: nat): (ends: seq<int>)
    requires i < j < |starts| && Ascending(starts)
    ensures EndsFollow(starts, ends) && ends[i] == starts[j]
  {
    seq(|starts|, k requires 0 <= k < |starts| => if k == i then starts[j] else starts[k])
  }

  lemma LeakShows(starts: seq<int>, epoch: int, i: nat, j: nat)
    requires Ascending(starts) && i < j < |starts| && j - i > HoldDays(starts[i], starts[j])
    ensures !OverlapKept(starts, Touching(starts, i, j), epoch, i, j)
  {
  }

  /** The synthetic clock never hides an overlap of one symbol's labels if and only if its events are spaced out. */
  lemma NeverLeaksIff(starts: seq<int>, epoch: int)
    requires Ascending(starts)
    ensures NeverLeaks(starts, epoch) <==> SpacedOut(starts)
  {
    if SpacedOut(starts) {
      forall ends, i, j | 0 <= i < j < |starts| && EndsFollow(starts, ends)
        ensures OverlapKept(starts, ends, epoch, i, j)
      {
        SpacedKeeps(starts, ends, epoch, i, j);
      }
    } else {
      var i, j :| 0 <= i < j < |starts| && j - i > HoldDays(starts[i], starts[j]);
      LeakShows(starts, epoch, i, j);
    }
  }

  lemma {:induction false} DailySpacing(starts: seq<int>, i: nat, j: nat)
    requires i <= j < |starts|
    requires forall k :: 0 < k < |starts| ==> starts[k] >= starts[k - 1] + 86_400_000_000_000
    ensures starts[j] - starts[i] >= (j - i) * 86_400_000_000_000
    decreases j - i
  {
    if i < j {
      DailySpacing(starts, i, j - 1);
    }
  }

  /** Daily events, a day or more apart, are spaced out. */
  lemma DailyNeverLeaks(starts: seq<int>, epoch: int)
    requires Ascending(starts)
    requires forall k :: 0 < k < |starts| ==> starts[k] >= starts[k - 1] + 86_400_000_000_000
    ensures NeverLeaks(starts, epoch)
  {
    forall i, j | 0 <= i < j < |starts| ensures j - i <= HoldDays(starts[i], starts[j]) {
      DailySpacing(starts, i, j);
    }
    NeverLeaksIff(starts, epoch);
  }

  /** Three events an hour apart are not: an overlap of the first and last labels can be lost. */
  lemma HourlyLeaks(epoch: int)
    ensures !NeverLeaks([0, 3_600_000_000_000, 7_200_000_000_000], epoch)
  {
    var starts := [0, 3_600_000_000_000, 7_200_000_000_000];
    assert 2 - 0 > HoldDays(starts[0], starts[2]);
    NeverLeaksIff(starts, epoch);
  }
}
