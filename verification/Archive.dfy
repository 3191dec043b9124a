/** The write-once archive, one partition per symbol and IST day (src/quant/data/store/parquet.py). */
module Archive {
  import opened Bars

  type Partitions = map<(string, int), Frame>

  // ---- grouping a frame by day ----

  /** The rows of one IST day, in frame order. */
  function DayGroup(f: Frame, day: int): Frame {
    if |f| == 0 then []
    else DayGroup(f[..|f| - 1], day) + if Day(f[|f| - 1].timestamp) == day then [f[|f| - 1]] else []
  }

  function InsertDay(days: seq<int>, day: int): seq<int> {
    if |days| == 0 || days[|days| - 1] < day then days + [day]
    else if days[|days| - 1] == day then days
    else InsertDay(days[..|days| - 1], day) + [days[|days| - 1]]
  }

  /** The distinct days of a frame, ascending. */
  function Days(f: Frame): seq<int> {
    if |f| == 0 then [] else InsertDay(Days(f[..|f| - 1]), Day(f[|f| - 1].timestamp))
  }

  ghost predicate Ascending(days: seq<int>) {
    forall i, j :: 0 <= i < j < |days| ==> days[i] < days[j]
  }

  lemma {:induction false} InsertDayIs(days: seq<int>, day: int)
    requires Ascending(days)
    ensures Ascending(InsertDay(days, day))
    ensures forall d :: d in InsertDay(days, day) <==> d in days || d == day
  {
    if !(|days| == 0 || days[|days| - 1] <= day) {
      var front := days[..|days| - 1];
      InsertDayIs(front, day);
      assert days == front + [days[|days| - 1]];
      forall i | 0 <= i < |InsertDay(front, day)| ensures InsertDay(front, day)[i] < days[|days| - 1] {
        assert InsertDay(front, day)[i] in InsertDay(front, day);
      }
    }
  }

  lemma {:induction false} DaysAre(f: Frame)
    ensures Ascending(Days(f))
    ensures forall d :: d in Days(f) <==> exists i :: 0 <= i < |f| && Day(f[i].timestamp) == d
  {
    if |f| > 0 {
      var front, day := f[..|f| - 1], Day(f[|f| - 1].timestamp);
      DaysAre(front);
      InsertDayIs(Days(front), day);
      forall d ensures d in Days(f) <==> exists i :: 0 <= i < |f| && Day(f[i].timestamp) == d {
        if d in Days(front) {
          var i :| 0 <= i < |front| && Day(front[i].timestamp) == d;
          assert Day(f[i].timestamp) == d;
        }
        if i :| 0 <= i < |f| && Day(f[i].timestamp) == d && d != day {
          assert Day(front[i].timestamp) == d;
        }
      }
    }
  }

  /** The days a write reaches before a fault after `limit` of them. */
  function Reached(days: seq<int>, limit: nat): (r: seq<int>) {
    if limit < |days| then days[..limit] else days
  }

  lemma ReachedDays(days: seq<int>, limit: nat)
    requires Ascending(days)
    ensures Ascending(Reached(days, limit)) && forall d :: d in Reached(days, limit) ==> d in days
  {
  }

  // ---- writing ----

  /** Absent: create. Present and equal: nothing to do. Present and different: refuse. */
  function Admits(p: Partitions, key: (string, int), group: Frame): bool {
    key !in p || FramesEqual(p[key], group)
  }

  function PutPartition(p: Partitions, key: (string, int), group: Frame): Partitions {
    if key in p then p else p[key := group]
  }

  /** Writing the groups of `days` in turn, up to the first one the archive refuses. */
  function PutDays(p: Partitions, symbol: string, f: Frame, days: seq<int>): (Partitions, bool)
    decreases |days|
  {
    if |days| == 0 then (p, true)
    else if !Admits(p, (symbol, days[0]), DayGroup(f, days[0])) then (p, false)
    else PutDays(PutPartition(p, (symbol, days[0]), DayGroup(f, days[0])), symbol, f, days[1..])
  }

  /** History is immutable: whatever is written, and wherever it stops, old partitions stay as they were. */
  lemma {:induction false} WritesNeverChangeHistory(p: Partitions, symbol: string, f: Frame, days: seq<int>)
    ensures forall key :: key in p ==>
      key in PutDays(p, symbol, f, days).0 && PutDays(p, symbol, f, days).0[key] == p[key]
    ensures forall key :: key in PutDays(p, symbol, f, days).0 && key !in p ==>
      key.0 == symbol && key.1 in days && PutDays(p, symbol, f, days).0[key] == DayGroup(f, key.1)
    decreases |days|
  {
    if |days| > 0 && Admits(p, (symbol, days[0]), DayGroup(f, days[0])) {
      WritesNeverChangeHistory(PutPartition(p, (symbol, days[0]), DayGroup(f, days[0])), symbol, f, days[1..]);
    }
  }

  /** A write succeeds exactly when every day it touches is absent or already holds equal bars. */
  lemma {:induction false} WriteSucceedsIff(p: Partitions, symbol: string, f: Frame, days: seq<int>)
    requires Ascending(days)
    ensures PutDays(p, symbol, f, days).1 <==> forall i :: 0 <= i < |days| ==>
      Admits(p, (symbol, days[i]), DayGroup(f, days[i]))
    ensures PutDays(p, symbol, f, days).1 ==> forall i :: 0 <= i < |days| ==>
      (symbol, days[i]) in PutDays(p, symbol, f, days).0
    decreases |days|
  {
    if |days| > 0 {
      var group := DayGroup(f, days[0]);
      var p' := PutPartition(p, (symbol, days[0]), group);
      if Admits(p, (symbol, days[0]), group) {
        WriteSucceedsIff(p', symbol, f, days[1..]);
        WritesNeverChangeHistory(p', symbol, f, days[1..]);
        forall i | 1 <= i < |days|
          ensures Admits(p', (symbol, days[i]), DayGroup(f, days[i]))
            == Admits(p, (symbol, days[i]), DayGroup(f, days[i]))
        {
          assert days[0] < days[i];
        }
        forall i | 0 <= i < |days| && PutDays(p, symbol, f, days).1
          ensures (symbol, days[i]) in PutDays(p, symbol, f, days).0
        {
          if i > 0 {
            assert days[1..][i - 1] == days[i];
          }
        }
        forall i | 0 <= i < |days[1..]| ensures days[1..][i] == days[i + 1] {
        }
      }
    }
  }

  lemma {:induction false} NothingToPut(p: Partitions, symbol: string, f: Frame, days: seq<int>)
    requires forall i :: 0 <= i < |days| ==>
      (symbol, days[i]) in p && Admits(p, (symbol, days[i]), DayGroup(f, days[i]))
    ensures PutDays(p, symbol, f, days) == (p, true)
    decreases |days|
  {
    if |days| > 0 {
      NothingToPut(p, symbol, f, days[1..]);
    }
  }

  /** Writing the same frame again is accepted and changes nothing. */
  lemma RewriteIsNoOp(p: Partitions, symbol: string, f: Frame)
    requires PutDays(p, symbol, f, Days(f)).1
    ensures PutDays(PutDays(p, symbol, f, Days(f)).0, symbol, f, Days(f)) == (PutDays(p, symbol, f, Days(f)).0, true)
  {
    var q := PutDays(p, symbol, f, Days(f)).0;
    DaysAre(f);
    WriteSucceedsIff(p, symbol, f, Days(f));
    WritesNeverChangeHistory(p, symbol, f, Days(f));
    forall i | 0 <= i < |Days(f)|
      ensures (symbol, Days(f)[i]) in q && Admits(q, (symbol, Days(f)[i]), DayGroup(f, Days(f)[i]))
    {
      var key := (symbol, Days(f)[i]);
      assert Admits(p, key, DayGroup(f, key.1));
    }
    NothingToPut(q, symbol, f, Days(f));
  }

  class ParquetArchive {
    var partitions: Partitions

    constructor ()
      ensures partitions == map[]
    {
      partitions := map[];
    }

    method WritePartition(symbol: string, day: int, group: Frame) returns (ok: bool)
      modifies this
      ensures ok == Admits(old(partitions), (symbol, day), group)
      ensures partitions == if ok then PutPartition(old(partitions), (symbol, day), group) else old(partitions)
    {
      var key := (symbol, day);
      if key in partitions {
        ok := FramesEqual(partitions[key], group);
        return;
      }
      partitions := partitions[key := group];
      ok := true;
    }

    /** Writes day by day; a fault, if there is one, strikes after `limit` partitions and leaves them written. */
    method WriteBars(symbol: string, bars: Frame, limit: nat) returns (ok: bool)
      modifies this
      ensures (partitions, ok) == PutDays(old(partitions), symbol, bars, Reached(Days(bars), limit))
    {
      var days := Days(bars);
      var count := if limit < |days| then limit else |days|;
      ghost var all := Reached(days, limit);
      ok := true;
      var i := 0;
      while i < count
        invariant 0 <= i <= count && ok
        invariant PutDays(partitions, symbol, bars, all[i..]) == PutDays(old(partitions), symbol, bars, all)
      {
        assert all[i..][0] == days[i] && all[i..][1..] == all[i + 1..];
        ok := WritePartition(symbol, days[i], DayGroup(bars, days[i]));
        if !ok {
          break;
        }
        i := i + 1;
      }
    }
  }

  // ---- reading ----

  /** The frames of the days first .. first + n - 1 that are present. */
  function PartitionFrames(p: Partitions, symbol: string, first: int, n: int): seq<Frame>
    decreases n
  {
    if n <= 0 then []
    else PartitionFrames(p, symbol, first, n - 1)
         + if (symbol, first + n - 1) in p then [p[(symbol, first + n - 1)]] else []
  }

  function ReadBars(p: Partitions, symbol: string, start: int, end: int): Frame {
    RestrictToRange(ConcatBars(PartitionFrames(p, symbol, Day(start), Day(end) + 1 - Day(start))), start, end)
  }

  /** The archive holds exactly this frame for the symbol. */
  ghost predicate Stores(p: Partitions, symbol: string, f: Frame) {
    && (forall day :: (symbol, day) in p <==> day in Days(f))
    && forall day :: day in Days(f) ==> p[(symbol, day)] == DayGroup(f, day)
  }

  lemma {:induction false} DayGroupRows(f: Frame, day: int, t: int)
    ensures At(DayGroup(f, day), t) == if Day(t) == day then At(f, t) else []
  {
    if |f| > 0 {
      DayGroupRows(f[..|f| - 1], day, t);
      AtConcat(DayGroup(f[..|f| - 1], day), if Day(f[|f| - 1].timestamp) == day then [f[|f| - 1]] else [], t);
    }
  }

  lemma {:induction false} NoDayNoRows(f: Frame, t: int)
    requires forall i :: 0 <= i < |f| ==> Day(f[i].timestamp) != Day(t)
    ensures At(f, t) == []
  {
    if |f| > 0 {
      NoDayNoRows(f[..|f| - 1], t);
    }
  }

  function OneDay(p: Partitions, symbol: string, day: int): Frame {
    if (symbol, day) in p then p[(symbol, day)] else []
  }

  lemma OneDayRows(p: Partitions, symbol: string, f: Frame, day: int, t: int)
    requires Stores(p, symbol, f)
    ensures At(OneDay(p, symbol, day), t) == if Day(t) == day then At(f, t) else []
  {
    if day in Days(f) {
      DayGroupRows(f, day, t);
    } else if Day(t) == day {
      DaysAre(f);
      NoDayNoRows(f, t);
    }
  }

  /** All rows read back from n days, in partition order. */
  function ReadDays(p: Partitions, symbol: string, first: int, n: int): Frame {
    Flatten(PartitionFrames(p, symbol, first, n))
  }

  lemma NextDayRead(p: Partitions, symbol: string, first: int, n: int, t: int)
    requires n > 0
    ensures At(ReadDays(p, symbol, first, n), t)
         == At(ReadDays(p, symbol, first, n - 1), t) + At(OneDay(p, symbol, first + n - 1), t)
  {
    var before := PartitionFrames(p, symbol, first, n - 1);
    if (symbol, first + n - 1) in p {
      assert (before + [p[(symbol, first + n - 1)]])[..|before|] == before;
    } else {
      assert before + [] == before;
    }
    AtConcat(ReadDays(p, symbol, first, n - 1), OneDay(p, symbol, first + n - 1), t);
  }

  /** The rows at time t of one day's partition, and of n days one after another. */
  ghost function RowsOn(p: Partitions, symbol: string, day: int, t: int): Frame {
    At(OneDay(p, symbol, day), t)
  }

  ghost function RowsIn(p: Partitions, symbol: string, first: int, n: nat, t: int): Frame {
    if n == 0 then [] else RowsIn(p, symbol, first, n - 1, t) + RowsOn(p, symbol, first + n - 1, t)
  }

  lemma {:induction false} ReadDaysRows(p: Partitions, symbol: string, first: int, n: nat, t: int)
    ensures At(ReadDays(p, symbol, first, n), t) == RowsIn(p, symbol, first, n, t)
  {
    if n > 0 {
      ReadDaysRows(p, symbol, first, n - 1, t);
      NextDayRead(p, symbol, first, n, t);
    }
  }

  lemma {:induction false} OnlyOwnDay(p: Partitions, symbol: string, rows: Frame, d: int, first: int, n: nat, t: int)
    requires forall day :: RowsOn(p, symbol, day, t) == if day == d then rows else []
    ensures RowsIn(p, symbol, first, n, t) == if first <= d < first + n then rows else []
  {
    if n > 0 {
      OnlyOwnDay(p, symbol, rows, d, first, n - 1, t);
      assert RowsOn(p, symbol, first + n - 1, t) == if first + n - 1 == d then rows else [];
    }
  }

  lemma StoredRows(p: Partitions, symbol: string, f: Frame, first: int, n: nat, t: int)
    requires Stores(p, symbol, f)
    ensures At(ReadDays(p, symbol, first, n), t) == if first <= Day(t) < first + n then At(f, t) else []
  {
    forall day ensures RowsOn(p, symbol, day, t) == if day == Day(t) then At(f, t) else [] {
      OneDayRows(p, symbol, f, day, t);
    }
    OnlyOwnDay(p, symbol, At(f, t), Day(t), first, n, t);
    ReadDaysRows(p, symbol, first, n, t);
  }

  lemma ReadBackRows(p: Partitions, symbol: string, f: Frame, first: int, n: nat, start: int, end: int, t: int)
    requires Stores(p, symbol, f)
    requires start <= t <= end ==> first <= Day(t) < first + n
    ensures At(Keep(SortBars(ReadDays(p, symbol, first, n)), start, end), t) == At(Keep(f, start, end), t)
  {
    var flat := ReadDays(p, symbol, first, n);
    KeepRows(SortBars(flat), start, end, t);
    KeepRows(f, start, end, t);
    SortBarsKeepsRows(flat, t);
    StoredRows(p, symbol, f, first, n, t);
  }

  lemma RangeRows(p: Partitions, symbol: string, f: Frame, start: int, end: int, first: int, n: nat)
    requires Stores(p, symbol, f) && start <= end && first == Day(start) && n == Day(end) + 1 - first
    ensures SameRows(Keep(SortBars(ReadDays(p, symbol, first, n)), start, end), Keep(f, start, end))
  {
    forall t ensures At(Keep(SortBars(ReadDays(p, symbol, first, n)), start, end), t) == At(Keep(f, start, end), t) {
      ReadBackRows(p, symbol, f, first, n, start, end, t);
    }
  }

  lemma {:induction false} NothingKept(f: Frame, start: int, end: int)
    requires start > end
    ensures Keep(f, start, end) == []
  {
    if |f| > 0 {
      NothingKept(f[..|f| - 1], start, end);
    }
  }

  /** Reading a range back gives the stored frame's rows in that range, in time order; none for a reversed range. */
  lemma ReadBack(p: Partitions, symbol: string, f: Frame, start: int, end: int)
    requires Stores(p, symbol, f)
    ensures ReadBars(p, symbol, start, end) == RestrictToRange(f, start, end)
    ensures start > end ==> ReadBars(p, symbol, start, end) == []
  {
    var first, n := Day(start), Day(end) + 1 - Day(start);
    var read := SortBars(ReadDays(p, symbol, first, n));
    if start > end {
      NothingKept(read, start, end);
      NothingKept(f, start, end);
    } else {
      RangeRows(p, symbol, f, start, end, first, n);
      SortCanonical(Keep(read, start, end), Keep(f, start, end));
    }
  }

  /** A first write of a symbol stores exactly its frame. */
  lemma FirstWriteStores(p: Partitions, symbol: string, f: Frame)
    requires forall day :: (symbol, day) !in p
    ensures PutDays(p, symbol, f, Days(f)).1 && Stores(PutDays(p, symbol, f, Days(f)).0, symbol, f)
  {
    DaysAre(f);
    WriteSucceedsIff(p, symbol, f, Days(f));
    WritesNeverChangeHistory(p, symbol, f, Days(f));
    var q := PutDays(p, symbol, f, Days(f)).0;
    forall day | day in Days(f) ensures (symbol, day) in q {
      var i :| 0 <= i < |Days(f)| && Days(f)[i] == day;
      assert (symbol, Days(f)[i]) in q;
    }
  }
}
