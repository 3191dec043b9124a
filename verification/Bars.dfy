/** Bars frames and the helpers every store shares (src/quant/data/store/serde.py). */
module Bars {
  datatype Bar = Bar(timestamp: int, open: real, high: real, low: real, close: real, volume: int)

  type Frame = seq<Bar>

  /**
   * The IST calendar day of an instant. Instants are whole microseconds counted from some midnight in IST,
   * a zone of constant offset, so a day is 86 400 000 000 of them.
   */
  function Day(t: int): int {
    t / 86_400_000_000
  }

  ghost predicate Sorted(f: Frame) {
    forall i, j :: 0 <= i < j < |f| ==> f[i].timestamp <= f[j].timestamp
  }

  /** The rows with timestamp t, in frame order. Two frames agreeing on these differ only in how times interleave. */
  ghost function At(f: Frame, t: int): Frame {
    if |f| == 0 then []
    else At(f[..|f| - 1], t) + if f[|f| - 1].timestamp == t then [f[|f| - 1]] else []
  }

  // ---- stable sort by timestamp ----

  function InsertBar(f: Frame, b: Bar): (r: Frame)
    ensures |r| == |f| + 1
  {
    if |f| == 0 || f[|f| - 1].timestamp <= b.timestamp then f + [b]
    else InsertBar(f[..|f| - 1], b) + [f[|f| - 1]]
  }

  function SortBars(f: Frame): (r: Frame)
    ensures |r| == |f|
  {
    if |f| == 0 then [] else InsertBar(SortBars(f[..|f| - 1]), f[|f| - 1])
  }

  function Keep(f: Frame, start: int, end: int): Frame {
    if |f| == 0 then []
    else Keep(f[..|f| - 1], start, end) + if start <= f[|f| - 1].timestamp <= end then [f[|f| - 1]] else []
  }

  function RestrictToRange(f: Frame, start: int, end: int): Frame {
    SortBars(Keep(f, start, end))
  }

  function Flatten(frames: seq<Frame>): Frame {
    if |frames| == 0 then [] else Flatten(frames[..|frames| - 1]) + frames[|frames| - 1]
  }

  function ConcatBars(frames: seq<Frame>): Frame {
    SortBars(Flatten(frames))
  }

  predicate FramesEqual(a: Frame, b: Frame) {
    SortBars(a) == SortBars(b)
  }

  // ---- what sorting keeps ----

  lemma AtAppend(f: Frame, b: Bar, t: int)
    ensures At(f + [b], t) == At(f, t) + if b.timestamp == t then [b] else []
  {
    assert (f + [b])[..|f|] == f;
  }

  lemma {:induction false} AtConcat(a: Frame, b: Frame, t: int)
    ensures At(a + b, t) == At(a, t) + At(b, t)
  {
    if |b| == 0 {
      assert a + b == a;
    } else {
      AtConcat(a, b[..|b| - 1], t);
      assert a + b == (a + b[..|b| - 1]) + [b[|b| - 1]];
      AtAppend(a + b[..|b| - 1], b[|b| - 1], t);
    }
  }

  lemma {:induction false} InsertBarAt(f: Frame, b: Bar, t: int)
    ensures At(InsertBar(f, b), t) == At(f, t) + if b.timestamp == t then [b] else []
  {
    if |f| == 0 || f[|f| - 1].timestamp <= b.timestamp {
      AtAppend(f, b, t);
    } else {
      InsertBarAt(f[..|f| - 1], b, t);
      AtAppend(InsertBar(f[..|f| - 1], b), f[|f| - 1], t);
    }
  }

  lemma {:induction false} InsertBarSorted(f: Frame, b: Bar)
    requires Sorted(f)
    ensures Sorted(InsertBar(f, b))
    ensures forall i :: 0 <= i < |f| + 1 ==> InsertBar(f, b)[i] == b || InsertBar(f, b)[i] in f
  {
    if !(|f| == 0 || f[|f| - 1].timestamp <= b.timestamp) {
      InsertBarSorted(f[..|f| - 1], b);
    }
  }

  /** Sorting is stable: it keeps, for every timestamp, exactly the rows it had in the order it had them. */
  lemma {:induction false} SortBarsKeepsRows(f: Frame, t: int)
    ensures At(SortBars(f), t) == At(f, t)
  {
    if |f| > 0 {
      SortBarsKeepsRows(f[..|f| - 1], t);
      InsertBarAt(SortBars(f[..|f| - 1]), f[|f| - 1], t);
    }
  }

  lemma {:induction false} SortBarsSorted(f: Frame)
    ensures Sorted(SortBars(f))
  {
    if |f| > 0 {
      SortBarsSorted(f[..|f| - 1]);
      InsertBarSorted(SortBars(f[..|f| - 1]), f[|f| - 1]);
    }
  }

  lemma {:induction false} SortBarsAddsNothing(f: Frame)
    ensures forall b :: b in SortBars(f) ==> b in f
  {
    if |f| > 0 {
      SortBarsAddsNothing(f[..|f| - 1]);
      SortBarsSorted(f[..|f| - 1]);
      InsertBarSorted(SortBars(f[..|f| - 1]), f[|f| - 1]);
    }
  }

  lemma {:induction false} AtHolds(f: Frame, t: int)
    ensures forall b :: b in At(f, t) ==> b in f && b.timestamp == t
    ensures At(f, t) == [] ==> forall i :: 0 <= i < |f| ==> f[i].timestamp != t
  {
    if |f| > 0 {
      AtHolds(f[..|f| - 1], t);
    }
  }

  ghost predicate SameRows(a: Frame, b: Frame) {
    forall t :: At(a, t) == At(b, t)
  }

  lemma LastRow(a: Frame, b: Frame)
    requires |a| > 0 && Sorted(b) && SameRows(a, b)
    ensures |b| > 0 && a[|a| - 1].timestamp <= b[|b| - 1].timestamp
  {
    var x := a[|a| - 1];
    assert At(a, x.timestamp) == At(b, x.timestamp);
    assert x in At(a, x.timestamp);
    AtHolds(b, x.timestamp);
  }

  function Front(f: Frame): Frame
    requires |f| > 0
  {
    f[..|f| - 1]
  }

  function Last(f: Frame): Bar
    requires |f| > 0
  {
    f[|f| - 1]
  }

  lemma SameLast(s: Frame, x: Bar, r: Frame, y: Bar)
    requires s + [x] == r + [y]
    ensures s == r && x == y
  {
    assert (s + [x])[|s + [x]| - 1] == x && (r + [y])[|r + [y]| - 1] == y;
    assert (s + [x])[..|s + [x]| - 1] == s && (r + [y])[..|r + [y]| - 1] == r;
  }

  lemma SameLastRow(a: Frame, b: Frame)
    requires |a| > 0 && |b| > 0 && Sorted(a) && Sorted(b) && SameRows(a, b)
    ensures Last(a) == Last(b)
  {
    LastRow(a, b);
    LastRow(b, a);
    var t := Last(a).timestamp;
    assert At(a, t) == At(b, t);
    SameLast(At(Front(a), t), Last(a), At(Front(b), t), Last(b));
  }

  lemma SameFront(a: Frame, b: Frame, t: int)
    requires |a| > 0 && |b| > 0 && Last(a) == Last(b) && At(a, t) == At(b, t)
    ensures At(Front(a), t) == At(Front(b), t)
  {
    if t == Last(a).timestamp {
      SameLast(At(Front(a), t), Last(a), At(Front(b), t), Last(b));
    } else {
      assert At(a, t) == At(Front(a), t) && At(b, t) == At(Front(b), t);
    }
  }

  /** A sorted frame is determined by its rows at each timestamp. */
  lemma {:induction false} SortedUnique(a: Frame, b: Frame)
    requires Sorted(a) && Sorted(b) && SameRows(a, b)
    ensures a == b
  {
    if |a| == 0 || |b| == 0 {
      if |b| > 0 {
        LastRow(b, a);
      } else if |a| > 0 {
        LastRow(a, b);
      }
    } else {
      SameLastRow(a, b);
      forall t ensures At(Front(a), t) == At(Front(b), t) {
        assert At(a, t) == At(b, t);
        SameFront(a, b, t);
      }
      SortedUnique(Front(a), Front(b));
      assert a == Front(a) + [Last(a)] && b == Front(b) + [Last(b)];
    }
  }

  /** Frames with the same rows at every timestamp sort to the same frame. */
  lemma SortCanonical(a: Frame, b: Frame)
    requires SameRows(a, b)
    ensures SortBars(a) == SortBars(b)
  {
    SortBarsSorted(a);
    SortBarsSorted(b);
    forall t ensures At(SortBars(a), t) == At(SortBars(b), t) {
      SortBarsKeepsRows(a, t);
      SortBarsKeepsRows(b, t);
      assert At(a, t) == At(b, t);
    }
    SortedUnique(SortBars(a), SortBars(b));
  }

  lemma SortedIsFixed(f: Frame)
    requires Sorted(f)
    ensures SortBars(f) == f
  {
    SortBarsSorted(f);
    forall t ensures At(SortBars(f), t) == At(f, t) {
      SortBarsKeepsRows(f, t);
    }
    SortedUnique(SortBars(f), f);
  }

  lemma {:induction false} KeepRows(f: Frame, start: int, end: int, t: int)
    ensures At(Keep(f, start, end), t) == if start <= t <= end then At(f, t) else []
  {
    if |f| > 0 {
      KeepRows(f[..|f| - 1], start, end, t);
      AtConcat(Keep(f[..|f| - 1], start, end), if start <= f[|f| - 1].timestamp <= end then [f[|f| - 1]] else [], t);
    }
  }
}
