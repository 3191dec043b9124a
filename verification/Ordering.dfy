/** The stable argsort that the scoring and calibration code asks of its array library. */
module Ordering {
  import opened Sums

  ghost predicate Indexes(order: seq<nat>, n: nat) {
    forall i :: 0 <= i < |order| ==> order[i] < n
  }

  /** How many entries of a sorted `order` a new item with value `v` goes behind: ties stay in front of it. */
  function Cut(order: seq<nat>, values: seq<real>, v: real): (p: nat)
    requires Indexes(order, |values|)
    ensures p <= |order|
  {
    if |order| == 0 || values[order[|order| - 1]] <= v then |order|
    else Cut(order[..|order| - 1], values, v)
  }

  function InsertAt<T>(s: seq<T>, p: nat, x: T): (r: seq<T>)
    requires p <= |s|
    ensures |r| == |s| + 1
    ensures forall i :: 0 <= i < |r| ==> r[i] == if i < p then s[i] else if i == p then x else s[i - 1]
  {
    s[..p] + [x] + s[p..]
  }

  /** The stable ascending order of the first n values. */
  function SortedIndices(values: seq<real>, n: nat): (order: seq<nat>)
    requires n <= |values|
    ensures |order| == n && Indexes(order, n)
  {
    if n == 0 then []
    else
      var front := SortedIndices(values, n - 1);
      InsertAt(front, Cut(front, values, values[n - 1]), n - 1)
  }

  function Argsort(values: seq<real>): (order: seq<nat>)
    ensures |order| == |values| && Indexes(order, |values|)
  {
    SortedIndices(values, |values|)
  }

  function Gather<T>(s: seq<T>, order: seq<nat>): (r: seq<T>)
    requires Indexes(order, |s|)
    ensures |r| == |order|
    ensures forall i :: 0 <= i < |order| ==> r[i] == s[order[i]]
  {
    seq(|order|, i requires 0 <= i < |order| => s[order[i]])
  }

  lemma {:induction false} CutSeparates(order: seq<nat>, values: seq<real>, v: real)
    requires Indexes(order, |values|)
    ensures var p := Cut(order, values, v);
      && (p > 0 ==> values[order[p - 1]] <= v)
      && forall i :: p <= i < |order| ==> values[order[i]] > v
  {
    if !(|order| == 0 || values[order[|order| - 1]] <= v) {
      var front := order[..|order| - 1];
      CutSeparates(front, values, v);
      var p := Cut(front, values, v);
      forall i | p <= i < |order| ensures values[order[i]] > v {
        if i < |front| {
          assert front[i] == order[i];
        }
      }
    }
  }

  ghost predicate Before(values: seq<real>, a: nat, b: nat)
    requires a < |values| && b < |values|
  {
    values[a] < values[b] || (values[a] == values[b] && a < b)
  }

  /** Sorted by value, ties kept in input order. */
  ghost predicate StablySorted(order: seq<nat>, values: seq<real>)
    requires Indexes(order, |values|)
  {
    forall i, j :: 0 <= i < j < |order| ==> Before(values, order[i], order[j])
  }

  lemma InsertKeepsOrder(front: seq<nat>, values: seq<real>, k: nat, p: nat)
    requires k < |values| && Indexes(front, k) && StablySorted(front, values)
    requires p <= |front|
    requires p > 0 ==> values[front[p - 1]] <= values[k]
    requires forall i :: p <= i < |front| ==> values[front[i]] > values[k]
    ensures StablySorted(InsertAt(front, p, k), values)
  {
    var r := InsertAt(front, p, k);
    forall i, j | 0 <= i < j < |r| ensures Before(values, r[i], r[j]) {
      if i == p {
        assert values[front[j - 1]] > values[k];
      } else if j == p {
        assert i == p - 1 || Before(values, front[i], front[p - 1]);
      } else {
        assert Before(values, front[if i < p then i else i - 1], front[if j < p then j else j - 1]);
      }
    }
  }

  lemma {:induction false} SortedIndicesStable(values: seq<real>, n: nat)
    requires n <= |values|
    ensures StablySorted(SortedIndices(values, n), values)
  {
    if n > 0 {
      SortedIndicesStable(values, n - 1);
      var front := SortedIndices(values, n - 1);
      var p := Cut(front, values, values[n - 1]);
      CutSeparates(front, values, values[n - 1]);
      InsertKeepsOrder(front, values, n - 1, p);
    }
  }

  lemma {:induction false} SortedIndicesCover(values: seq<real>, n: nat, m: nat) returns (at: nat)
    requires m < n <= |values|
    ensures at < n && SortedIndices(values, n)[at] == m
  {
    var front := SortedIndices(values, n - 1);
    var p := Cut(front, values, values[n - 1]);
    at := p;
    if m < n - 1 {
      var i := SortedIndicesCover(values, n - 1, m);
      at := if i < p then i else i + 1;
    }
  }

  lemma InsertGathers(s: seq<real>, front: seq<nat>, p: nat, k: nat)
    requires Indexes(front, |s|) && p <= |front| && k < |s|
    ensures Sum(Gather(s, InsertAt(front, p, k))) == Sum(Gather(s, front)) + s[k]
  {
    var order := InsertAt(front, p, k);
    var a, b := Gather(s, front), Gather(s, order);
    forall i | p <= i < |a| ensures b[i + 1] == a[i] {
      assert order[i + 1] == front[i];
    }
    SumInsert(a, b, p, s[k], |front|);
  }

  /** Summing any per-item quantity in sorted order changes nothing. */
  lemma {:induction false} SumInSortedOrder(values: seq<real>, s: seq<real>, n: nat)
    requires n <= |values| == |s|
    ensures Sum(Gather(s, SortedIndices(values, n))) == SumTo(s, n)
  {
    if n > 0 {
      var front := SortedIndices(values, n - 1);
      SumInSortedOrder(values, s, n - 1);
      var p := Cut(front, values, values[n - 1]);
      InsertGathers(s, front, p, n - 1);
      assert SortedIndices(values, n) == InsertAt(front, p, n - 1);
    }
  }
}
