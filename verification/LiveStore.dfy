/** The bounded rolling window of each symbol (src/quant/data/store/redis_store.py), with expiry off. */
module LiveStore {
  import opened Bars

  // ---- keep the last row of each timestamp ----

  function Without(f: Frame, t: int): (r: Frame)
    ensures |r| <= |f|
  {
    if |f| == 0 then [] else Without(f[..|f| - 1], t) + if Last(f).timestamp == t then [] else [Last(f)]
  }

  function DropDuplicates(f: Frame): Frame {
    if |f| == 0 then [] else Without(DropDuplicates(f[..|f| - 1]), Last(f).timestamp) + [Last(f)]
  }

  function Tail(f: Frame, n: nat): (r: Frame)
    ensures |r| <= n && |r| <= |f|
  {
    if |f| <= n then f else f[|f| - n..]
  }

  function Deduplicated(f: Frame): Frame {
    SortBars(DropDuplicates(f))
  }

  /** The newest n timestamps of a history, each with the row last written for it. */
  function Newest(f: Frame, n: nat): Frame {
    Tail(Deduplicated(f), n)
  }

  function MergeWindow(existing: Frame, incoming: Frame, n: nat): Frame {
    Newest(existing + incoming, n)
  }

  ghost predicate Ascending(f: Frame) {
    forall i, j :: 0 <= i < j < |f| ==> f[i].timestamp < f[j].timestamp
  }

  // ---- the rows of a deduplicated history ----

  function LastOf(f: Frame): Frame {
    if |f| == 0 then [] else [f[|f| - 1]]
  }

  lemma {:induction false} WithoutAt(f: Frame, t: int, u: int)
    ensures At(Without(f, t), u) == if u == t then [] else At(f, u)
  {
    if |f| > 0 {
      WithoutAt(f[..|f| - 1], t, u);
      AtConcat(Without(f[..|f| - 1], t), if Last(f).timestamp == t then [] else [Last(f)], u);
    }
  }

  lemma ReplacedAt(f: Frame, b: Bar, t: int)
    ensures At(Without(f, b.timestamp) + [b], t) == if t == b.timestamp then [b] else At(f, t)
  {
    WithoutAt(f, b.timestamp, t);
    AtAppend(Without(f, b.timestamp), b, t);
  }

  lemma {:induction false} DropDuplicatesAt(f: Frame, t: int)
    ensures At(DropDuplicates(f), t) == LastOf(At(f, t))
  {
    if |f| > 0 {
      DropDuplicatesAt(f[..|f| - 1], t);
      ReplacedAt(DropDuplicates(f[..|f| - 1]), Last(f), t);
    }
  }

  lemma DeduplicatedAt(f: Frame, t: int)
    ensures At(Deduplicated(f), t) == LastOf(At(f, t))
  {
    SortBarsKeepsRows(DropDuplicates(f), t);
    DropDuplicatesAt(f, t);
  }

  lemma {:induction false} AtHasRow(f: Frame, i: nat)
    requires i < |f|
    ensures f[i] in At(f, f[i].timestamp)
  {
    if i < |f| - 1 {
      AtHasRow(f[..|f| - 1], i);
    }
  }

  lemma {:induction false} AtTwoRows(f: Frame, i: nat, j: nat)
    requires i < j < |f| && f[i].timestamp == f[j].timestamp
    ensures |At(f, f[i].timestamp)| >= 2
  {
    if j < |f| - 1 {
      AtTwoRows(f[..|f| - 1], i, j);
    } else {
      AtHasRow(f[..j], i);
    }
  }

  lemma DeduplicatedAscends(f: Frame)
    ensures Ascending(Deduplicated(f))
  {
    var g := Deduplicated(f);
    SortBarsSorted(DropDuplicates(f));
    forall i, j | 0 <= i < j < |g| ensures g[i].timestamp < g[j].timestamp {
      if g[i].timestamp == g[j].timestamp {
        AtTwoRows(g, i, j);
        DeduplicatedAt(f, g[i].timestamp);
      }
    }
  }

  /** Two histories agree on the row last written for each timestamp. */
  ghost predicate SameLastRows(a: Frame, b: Frame) {
    forall t :: LastOf(At(a, t)) == LastOf(At(b, t))
  }

  /** The window depends on nothing else: not on batching, nor on the order of writes to different times. */
  lemma OnlyLastRowsMatter(a: Frame, b: Frame, n: nat)
    requires SameLastRows(a, b)
    ensures Newest(a, n) == Newest(b, n)
  {
    SortBarsSorted(DropDuplicates(a));
    SortBarsSorted(DropDuplicates(b));
    forall t ensures At(Deduplicated(a), t) == At(Deduplicated(b), t) {
      DeduplicatedAt(a, t);
      DeduplicatedAt(b, t);
      assert LastOf(At(a, t)) == LastOf(At(b, t));
    }
    SortedUnique(Deduplicated(a), Deduplicated(b));
  }

  // ---- the newest part ----

  /** The rows at or after a cut. */
  function Since(f: Frame, cut: int): Frame {
    if |f| == 0 then [] else Since(f[..|f| - 1], cut) + if Last(f).timestamp >= cut then [Last(f)] else []
  }

  /** In time order, the rows since a cut are a suffix. */
  lemma {:induction false} SinceIsSuffix(f: Frame, cut: int) returns (k: nat)
    requires Ascending(f)
    ensures k <= |f| && Since(f, cut) == f[k..]
    ensures forall i :: 0 <= i < |f| ==> (f[i].timestamp >= cut <==> i >= k)
  {
    if |f| == 0 {
      k := 0;
    } else {
      var before := SinceIsSuffix(f[..|f| - 1], cut);
      if Last(f).timestamp >= cut {
        k := before;
        assert f[k..] == f[..|f| - 1][k..] + [Last(f)];
      } else {
        k := |f|;
        assert before == |f| - 1;
      }
    }
  }

  lemma TailOfSince(f: Frame, cut: int, n: nat)
    requires Ascending(f) && n <= |Since(f, cut)|
    ensures Tail(f, n) == Tail(Since(f, cut), n)
  {
    var k := SinceIsSuffix(f, cut);
  }

  lemma LastOfConcat(x: Frame, y: Frame)
    ensures LastOf(LastOf(x) + y) == LastOf(x + y)
  {
  }

  lemma SinceAscends(f: Frame, cut: int)
    requires Ascending(f)
    ensures Ascending(Since(f, cut))
  {
    var k := SinceIsSuffix(f, cut);
  }

  lemma {:induction false} SinceAt(f: Frame, cut: int, t: int)
    ensures At(Since(f, cut), t) == if t >= cut then At(f, t) else []
  {
    if |f| > 0 {
      SinceAt(f[..|f| - 1], cut, t);
      AtConcat(Since(f[..|f| - 1], cut), if Last(f).timestamp >= cut then [Last(f)] else [], t);
    }
  }

  lemma MergeAt(a: Frame, b: Frame, kept: Frame, cut: int, t: int)
    requires t >= cut ==> At(kept, t) == LastOf(At(a, t))
    ensures At(Since(Deduplicated(kept + b), cut), t) == At(Since(Deduplicated(a + b), cut), t)
  {
    SinceAt(Deduplicated(kept + b), cut, t);
    SinceAt(Deduplicated(a + b), cut, t);
    DeduplicatedAt(kept + b, t);
    DeduplicatedAt(a + b, t);
    AtConcat(kept, b, t);
    AtConcat(a, b, t);
    LastOfConcat(At(a, t), At(b, t));
  }

  /** Since a cut, nothing is lost by merging into a window that is complete from the cut on. */
  lemma MergeSince(a: Frame, b: Frame, kept: Frame, cut: int)
    requires forall t :: t >= cut ==> At(kept, t) == LastOf(At(a, t))
    ensures Since(Deduplicated(kept + b), cut) == Since(Deduplicated(a + b), cut)
  {
    var x, y := Deduplicated(kept + b), Deduplicated(a + b);
    DeduplicatedAscends(kept + b);
    DeduplicatedAscends(a + b);
    SinceAscends(x, cut);
    SinceAscends(y, cut);
    forall t ensures At(Since(x, cut), t) == At(Since(y, cut), t) {
      MergeAt(a, b, kept, cut, t);
    }
    SortedUnique(Since(x, cut), Since(y, cut));
  }

  lemma {:induction false} AtNone(f: Frame, t: int)
    requires forall i :: 0 <= i < |f| ==> f[i].timestamp != t
    ensures At(f, t) == []
  {
    if |f| > 0 {
      AtNone(f[..|f| - 1], t);
    }
  }

  lemma {:induction false} AscendingAt(f: Frame, i: nat)
    requires Ascending(f) && i < |f|
    ensures At(f, f[i].timestamp) == [f[i]]
  {
    if i < |f| - 1 {
      AscendingAt(f[..|f| - 1], i);
    } else {
      AtNone(f[..i], f[i].timestamp);
    }
  }

  ghost predicate HasTime(f: Frame, t: int) {
    exists k :: 0 <= k < |f| && f[k].timestamp == t
  }

  lemma HasTimeAt(f: Frame, t: int)
    ensures HasTime(f, t) <==> At(f, t) != []
  {
    AtHolds(f, t);
    if At(f, t) != [] {
      assert At(f, t)[0] in f;
    }
  }

  /** Distinct times that all occur in another frame are no more than its rows. */
  lemma {:induction false} NoMoreTimes(h: Frame, g: Frame)
    requires Ascending(h) && Ascending(g) && forall i :: 0 <= i < |h| ==> HasTime(g, h[i].timestamp)
    ensures |h| <= |g|
  {
    if |h| > 0 {
      assert HasTime(g, h[|h| - 1].timestamp);
      var k :| 0 <= k < |g| && g[k].timestamp == h[|h| - 1].timestamp;
      forall i | 0 <= i < |h| - 1 ensures HasTime(g[..k], h[i].timestamp) {
        var j :| 0 <= j < |g| && g[j].timestamp == h[i].timestamp;
        assert h[i].timestamp < h[|h| - 1].timestamp;
        assert g[..k][j] == g[j];
      }
      NoMoreTimes(h[..|h| - 1], g[..k]);
    }
  }

  /** A full window already holds n timestamps since its first row. */
  lemma WindowFillsSince(kept: Frame, b: Frame, cut: int)
    requires Ascending(kept) && forall i :: 0 <= i < |kept| ==> kept[i].timestamp >= cut
    ensures |kept| <= |Since(Deduplicated(kept + b), cut)|
  {
    var d := Deduplicated(kept + b);
    var g := Since(d, cut);
    DeduplicatedAscends(kept + b);
    SinceAscends(d, cut);
    forall i | 0 <= i < |kept| ensures HasTime(g, kept[i].timestamp) {
      var t := kept[i].timestamp;
      AscendingAt(kept, i);
      AtConcat(kept, b, t);
      DeduplicatedAt(kept + b, t);
      SinceAt(d, cut, t);
      HasTimeAt(g, t);
    }
    NoMoreTimes(kept, g);
  }

  lemma TailKeepsSince(d: Frame, n: nat, t: int)
    requires Ascending(d) && 0 < n < |d| && t >= Tail(d, n)[0].timestamp
    ensures At(Tail(d, n), t) == At(d, t)
  {
    var k := |d| - n;
    assert d == d[..k] + d[k..];
    AtConcat(d[..k], d[k..], t);
    AtNone(d[..k], t);
  }

  /** Merging new bars into the newest part of a history gives the newest part of the longer history. */
  lemma MergeIsNewest(a: Frame, b: Frame, n: nat)
    requires n > 0
    ensures MergeWindow(Newest(a, n), b, n) == Newest(a + b, n)
  {
    var d, kept := Deduplicated(a), Newest(a, n);
    DeduplicatedAscends(a);
    if |d| <= n {
      forall t ensures LastOf(At(kept + b, t)) == LastOf(At(a + b, t)) {
        DeduplicatedAt(a, t);
        AtConcat(kept, b, t);
        AtConcat(a, b, t);
        LastOfConcat(At(a, t), At(b, t));
      }
      OnlyLastRowsMatter(kept + b, a + b, n);
    } else {
      var cut := kept[0].timestamp;
      forall t | t >= cut ensures At(kept, t) == LastOf(At(a, t)) {
        DeduplicatedAt(a, t);
        TailKeepsSince(d, n, t);
      }
      MergeSince(a, b, kept, cut);
      WindowFillsSince(kept, b, cut);
      DeduplicatedAscends(kept + b);
      DeduplicatedAscends(a + b);
      TailOfSince(Deduplicated(kept + b), cut, n);
      TailOfSince(Deduplicated(a + b), cut, n);
    }
  }

  lemma {:induction false} KeepOfAscending(f: Frame, start: int, end: int)
    requires Ascending(f)
    ensures Ascending(Keep(f, start, end))
    ensures forall b :: b in Keep(f, start, end) <==> b in f && start <= b.timestamp <= end
  {
    if |f| > 0 {
      KeepOfAscending(f[..|f| - 1], start, end);
    }
  }

  lemma ReadIsRestriction(h: Frame, n: nat, start: int, end: int)
    ensures var r := RestrictToRange(Newest(h, n), start, end);
      Ascending(r) && forall b :: b in r <==> b in Newest(h, n) && start <= b.timestamp <= end
  {
    DeduplicatedAscends(h);
    KeepOfAscending(Newest(h, n), start, end);
    SortedIsFixed(Keep(Newest(h, n), start, end));
  }

  // ---- the store ----

  class RedisLiveStore {
    const maxBars: nat
    var windows: map<string, Frame>
    var symbols: set<string>
    /** Everything ever written for each symbol, oldest write first. */
    ghost var history: map<string, Frame>

    ghost predicate Valid()
      reads this
    {
      && maxBars > 0 && symbols == windows.Keys == history.Keys
      && forall s :: s in windows ==> windows[s] == Newest(history[s], maxBars)
    }

    constructor (maxBars: nat)
      requires maxBars > 0
      ensures Valid() && this.maxBars == maxBars && history == map[]
    {
      this.maxBars := maxBars;
      windows, symbols, history := map[], {}, map[];
    }

    function ReadFrame(symbol: string): Frame
      reads this
    {
      if symbol in windows then windows[symbol] else []
    }

    ghost function Written(symbol: string): Frame
      reads this
    {
      if symbol in history then history[symbol] else []
    }

    lemma WindowIsNewest(symbol: string)
      requires Valid()
      ensures ReadFrame(symbol) == Newest(Written(symbol), maxBars)
    {
    }

    /** After any run of writes every window is the newest part of its whole history. */
    method WriteBars(symbol: string, bars: Frame)
      requires Valid()
      modifies this
      ensures Valid()
      ensures bars == [] ==> windows == old(windows) && symbols == old(symbols) && history == old(history)
      ensures bars != [] ==>
        history == old(history)[symbol := old(Written(symbol)) + bars] && windows.Keys == old(windows.Keys) + {symbol}
      ensures forall s :: s in old(windows) && s != symbol ==> s in windows && windows[s] == old(windows[s])
    {
      if bars == [] {
        return;
      }
      WindowIsNewest(symbol);
      MergeIsNewest(Written(symbol), bars, maxBars);
      var window := MergeWindow(ReadFrame(symbol), bars, maxBars);
      assert window == Newest(Written(symbol) + bars, maxBars);
      history := history[symbol := Written(symbol) + bars];
      windows := windows[symbol := window];
      symbols := symbols + {symbol};
    }

    /** Reading gives the window's rows in the range, in time order. */
    method ReadBars(symbol: string, start: int, end: int) returns (r: Frame)
      requires Valid()
      ensures Ascending(r)
      ensures forall b :: b in r <==> b in Newest(Written(symbol), maxBars) && start <= b.timestamp <= end
    {
      WindowIsNewest(symbol);
      r := RestrictToRange(ReadFrame(symbol), start, end);
      ReadIsRestriction(Written(symbol), maxBars, start, end);
    }
  }

  // ---- what the window means ----

  lemma RowIsLastWritten(h: Frame, i: nat)
    requires i < |Deduplicated(h)|
    ensures LastOf(At(h, Deduplicated(h)[i].timestamp)) == [Deduplicated(h)[i]]
  {
    DeduplicatedAscends(h);
    AscendingAt(Deduplicated(h), i);
    DeduplicatedAt(h, Deduplicated(h)[i].timestamp);
  }

  lemma EveryTimeKept(h: Frame, i: nat)
    requires i < |h|
    ensures HasTime(Deduplicated(h), h[i].timestamp)
  {
    AtHasRow(h, i);
    DeduplicatedAt(h, h[i].timestamp);
    HasTimeAt(Deduplicated(h), h[i].timestamp);
  }

  /** Every window row is the last one written for its time, and a time left out is older than a full window. */
  lemma WindowMeaning(h: Frame, n: nat)
    requires n > 0
    ensures var w := Newest(h, n);
      && Ascending(w) && |w| <= n
      && (forall i :: 0 <= i < |w| ==> LastOf(At(h, w[i].timestamp)) == [w[i]])
      && forall i :: 0 <= i < |h| && !HasTime(w, h[i].timestamp) ==> |w| == n && h[i].timestamp < w[0].timestamp
  {
    var d, w := Deduplicated(h), Newest(h, n);
    var k := |d| - |w|;
    DeduplicatedAscends(h);
    assert w == d[k..];
    forall i | 0 <= i < |w| ensures LastOf(At(h, w[i].timestamp)) == [w[i]] {
      RowIsLastWritten(h, i + k);
    }
    forall i | 0 <= i < |h| && !HasTime(w, h[i].timestamp) ensures |w| == n && h[i].timestamp < w[0].timestamp {
      EveryTimeKept(h, i);
      var j :| 0 <= j < |d| && d[j].timestamp == h[i].timestamp;
      assert j < k;
    }
  }

  /** Writing a window's own rows again changes nothing. */
  lemma RewriteIsNoOp(h: Frame, n: nat, again: Frame)
    requires forall t :: At(again, t) == [] || LastOf(At(again, t)) == LastOf(At(h, t))
    ensures Newest(h + again, n) == Newest(h, n)
  {
    forall t ensures LastOf(At(h + again, t)) == LastOf(At(h, t)) {
      AtConcat(h, again, t);
      assert At(again, t) == [] || LastOf(At(again, t)) == LastOf(At(h, t));
    }
    OnlyLastRowsMatter(h + again, h, n);
  }
}
