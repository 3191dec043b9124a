/** Day-aligned pagination of a history range (src/quant/data/ingest/backfill.py, `iter_chunks`). */
module Chunks {
  import opened Bars

  /** Both ends inclusive. */
  datatype Window = Window(start: int, end: int)

  function DayStart(day: int): int {
    day * 86_400_000_000
  }

  function DayEnd(day: int): int {
    day * 86_400_000_000 + 86_399_999_999
  }

  ghost predicate Holds(w: Window, t: int) {
    w.start <= t <= w.end
  }

  /** Consecutive windows over start..end, cut at midnights, each but the last of exactly chunkDays days. */
  ghost predicate Tiles(chunks: seq<Window>, start: int, end: int, chunkDays: int) {
    && |chunks| > 0 && chunks[0].start == start && chunks[|chunks| - 1].end == end
    && (forall i :: 0 <= i < |chunks| ==>
         chunks[i].start <= chunks[i].end && Day(chunks[i].end) - Day(chunks[i].start) < chunkDays)
    && forall i :: 0 <= i < |chunks| - 1 ==>
         && chunks[i + 1].start == chunks[i].end + 1 == DayStart(Day(chunks[i + 1].start))
         && Day(chunks[i].end) - Day(chunks[i].start) == chunkDays - 1
  }

  lemma DayOfEdges(day: int)
    ensures Day(DayStart(day)) == day == Day(DayEnd(day))
  {
  }

  lemma DayOrder(s: int, t: int)
    requires s <= t
    ensures Day(s) <= Day(t) && t <= DayEnd(Day(t)) && DayStart(Day(s)) <= s
  {
  }

  /** The windows cover whole days up to the day before `cursor`, every one of them full. */
  ghost predicate FullUpTo(chunks: seq<Window>, start: int, cursor: int, chunkDays: int) {
    && Tiles(chunks, start, DayStart(cursor) - 1, chunkDays)
    && var last := chunks[|chunks| - 1]; Day(last.end) - Day(last.start) == chunkDays - 1
  }

  lemma NextWindow(chunks: seq<Window>, start: int, cursor: int, chunkDays: int, w: Window)
    requires FullUpTo(chunks, start, cursor, chunkDays)
    requires w.start == DayStart(cursor) <= w.end && Day(w.end) - cursor < chunkDays
    ensures Tiles(chunks + [w], start, w.end, chunkDays)
  {
    DayOfEdges(cursor);
    var c := chunks + [w];
    forall i | 0 <= i < |c| - 1
      ensures c[i + 1].start == c[i].end + 1 == DayStart(Day(c[i + 1].start))
           && Day(c[i].end) - Day(c[i].start) == chunkDays - 1
    {
      assert c[i] == chunks[i];
      if i < |chunks| - 1 {
        assert c[i + 1] == chunks[i + 1];
      }
    }
  }

  method IterChunks(start: int, end: int, chunkDays: int) returns (chunks: seq<Window>)
    requires chunkDays > 0
    ensures if start > end then chunks == [] else Tiles(chunks, start, end, chunkDays)
  {
    chunks := [];
    if start > end {
      return;
    }
    var startDay, endDay := Day(start), Day(end);
    DayOrder(start, end);
    var cursor, first := startDay, true;
    while cursor <= endDay
      invariant first ==> cursor == startDay && chunks == []
      invariant !first && cursor <= endDay ==> FullUpTo(chunks, start, cursor, chunkDays)
      invariant !first && cursor > endDay ==> Tiles(chunks, start, end, chunkDays)
      invariant cursor > endDay ==> !first
      decreases endDay - cursor
    {
      var last := if cursor + chunkDays - 1 < endDay then cursor + chunkDays - 1 else endDay;
      var chunkStart := if first then start else DayStart(cursor);
      var chunkEnd := if last == endDay then end else DayEnd(last);
      DayOfEdges(cursor);
      DayOfEdges(last);
      DayOrder(start, start);
      DayOrder(end, end);
      var w := Window(chunkStart, chunkEnd);
      if !first {
        NextWindow(chunks, start, cursor, chunkDays, w);
      }
      chunks := chunks + [w];
      first := false;
      cursor := last + 1;
    }
  }

  // ---- the windows partition the range ----

  lemma {:induction false} WindowsAscend(chunks: seq<Window>, start: int, end: int, chunkDays: int, i: nat, j: nat)
    requires Tiles(chunks, start, end, chunkDays) && i < j < |chunks|
    ensures chunks[i].end < chunks[j].start
  {
    if i < j - 1 {
      WindowsAscend(chunks, start, end, chunkDays, i, j - 1);
    }
    assert chunks[j - 1].end + 1 == chunks[j].start;
  }

  /** The window of t, by walking from the last window back. */
  ghost function WindowOf(chunks: seq<Window>, t: int, n: nat): (i: nat)
    requires n < |chunks|
    ensures i <= n
  {
    if n == 0 || chunks[n].start <= t then n else WindowOf(chunks, t, n - 1)
  }

  lemma {:induction false} WindowOfHolds(chunks: seq<Window>, start: int, end: int, chunkDays: int, t: int, n: nat)
    requires Tiles(chunks, start, end, chunkDays) && n < |chunks| && start <= t <= chunks[n].end
    ensures Holds(chunks[WindowOf(chunks, t, n)], t)
  {
    if n > 0 && t < chunks[n].start {
      assert chunks[n - 1].end + 1 == chunks[n].start;
      WindowOfHolds(chunks, start, end, chunkDays, t, n - 1);
    }
  }

  /** Every instant of the range is in exactly one window, and no window reaches outside the range. */
  lemma EveryInstantOnce(chunks: seq<Window>, start: int, end: int, chunkDays: int, t: int)
    requires Tiles(chunks, start, end, chunkDays)
    ensures start <= t <= end <==> exists i :: 0 <= i < |chunks| && Holds(chunks[i], t)
    ensures forall i, j :: 0 <= i < |chunks| && 0 <= j < |chunks| && Holds(chunks[i], t) && Holds(chunks[j], t) ==>
      i == j
  {
    var last := |chunks| - 1;
    if start <= t <= end {
      WindowOfHolds(chunks, start, end, chunkDays, t, last);
    }
    forall i | 0 <= i < |chunks| && Holds(chunks[i], t) ensures start <= t <= end {
      if i > 0 {
        WindowsAscend(chunks, start, end, chunkDays, 0, i);
      }
      if i < last {
        WindowsAscend(chunks, start, end, chunkDays, i, last);
      }
    }
    forall i, j | 0 <= i < j < |chunks| ensures !(Holds(chunks[i], t) && Holds(chunks[j], t)) {
      WindowsAscend(chunks, start, end, chunkDays, i, j);
    }
  }

  /** No calendar day is split: two instants of one day that are in the range share their window. */
  lemma NoDaySplit(chunks: seq<Window>, start: int, end: int, chunkDays: int, s: int, t: int, i: nat)
    requires Tiles(chunks, start, end, chunkDays) && start <= s <= end && start <= t <= end && Day(s) == Day(t)
    requires i < |chunks| && Holds(chunks[i], s)
    ensures Holds(chunks[i], t)
  {
    if i > 0 {
      assert chunks[i - 1].end + 1 == DayStart(Day(chunks[i].start));
      DayOrder(chunks[i].start, s);
      DayOrder(t, t);
    }
    if i < |chunks| - 1 {
      var next := chunks[i + 1].start;
      assert next == DayStart(Day(next)) == chunks[i].end + 1;
      DayOrder(t, t);
    }
  }

  /** Window i starts i groups of chunkDays days after the first day. */
  lemma {:induction false} WindowStarts(chunks: seq<Window>, start: int, end: int, chunkDays: int, i: nat)
    requires Tiles(chunks, start, end, chunkDays) && i < |chunks|
    ensures Day(chunks[i].start) == Day(start) + i * chunkDays
  {
    if i > 0 {
      WindowStarts(chunks, start, end, chunkDays, i - 1);
      assert chunks[i - 1].end + 1 == DayStart(Day(chunks[i].start));
      assert Day(chunks[i].start) == Day(chunks[i - 1].end) + 1;
      assert i * chunkDays == (i - 1) * chunkDays + chunkDays;
    }
  }
}
