/**
 * The bisection worklist of hierarchical risk parity (src/quant/capital/portfolio/construction.py), for any
 * rule that says which fraction of a cluster's share its left half gets. Positions are places in the leaf order.
 */
module Bisection {
  import opened Sums

  /** Left fraction of the cluster lo .. hi-1. */
  type Fraction = (nat, nat) -> real

  function Half(lo: nat, hi: nat): (mid: nat)
    requires lo + 2 <= hi
    ensures lo < mid < hi
  {
    lo + (hi - lo) / 2
  }

  /** The halves are equal, or the right one is longer by one. */
  lemma HalvesAreEven(lo: nat, hi: nat)
    requires lo + 2 <= hi
    ensures Half(lo, hi) - lo <= hi - Half(lo, hi) <= Half(lo, hi) - lo + 1
  {
  }

  function LeftPart(share: real, a: real): real {
    share * a
  }

  function RightPart(share: real, a: real): real {
    share * (1.0 - a)
  }

  lemma PartsMakeWhole(share: real, a: real)
    ensures LeftPart(share, a) + RightPart(share, a) == share
  {
  }

  lemma PartsNonNegative(share: real, a: real)
    requires share >= 0.0 && 0.0 <= a <= 1.0
    ensures LeftPart(share, a) >= 0.0 && RightPart(share, a) >= 0.0
  {
    ProductNonNegative(share, a);
    ProductNonNegative(share, 1.0 - a);
  }

  // ---- the reference: a share split down a binary tree ----

  /** What position k ends up with when the cluster lo .. hi-1 holds `share`. */
  ghost function Share(frac: Fraction, lo: nat, hi: nat, share: real, k: nat): real
    requires lo <= k < hi
    decreases hi - lo
  {
    if hi - lo <= 1 then share
    else if k < Half(lo, hi) then Share(frac, lo, Half(lo, hi), LeftPart(share, frac(lo, hi)), k)
    else Share(frac, Half(lo, hi), hi, RightPart(share, frac(lo, hi)), k)
  }

  ghost function Shares(frac: Fraction, lo: nat, hi: nat, share: real): (r: seq<real>)
    requires lo <= hi
    ensures |r| == hi - lo && forall j :: 0 <= j < |r| ==> r[j] == Share(frac, lo, hi, share, lo + j)
  {
    seq(hi - lo, j requires 0 <= j < hi - lo => Share(frac, lo, hi, share, lo + j))
  }

  /** Bisection conserves: a cluster's positions add up to its share, whatever the fractions. */
  lemma {:induction false} SharesConserve(frac: Fraction, lo: nat, hi: nat, share: real)
    requires lo < hi
    ensures Sum(Shares(frac, lo, hi, share)) == share
    decreases hi - lo
  {
    if hi - lo <= 1 {
      assert SumTo(Shares(frac, lo, hi, share), 1) == share;
    } else {
      var mid, l, r := Half(lo, hi), LeftPart(share, frac(lo, hi)), RightPart(share, frac(lo, hi));
      SharesConserve(frac, lo, mid, l);
      SharesConserve(frac, mid, hi, r);
      SumConcat(Shares(frac, lo, mid, l), Shares(frac, mid, hi, r));
      assert Shares(frac, lo, hi, share) == Shares(frac, lo, mid, l) + Shares(frac, mid, hi, r);
      PartsMakeWhole(share, frac(lo, hi));
    }
  }

  lemma {:induction false} SharesNonNegative(frac: Fraction, lo: nat, hi: nat, share: real, k: nat)
    requires lo <= k < hi && share >= 0.0
    requires forall l: nat, h: nat :: lo <= l && h <= hi ==> 0.0 <= frac(l, h) <= 1.0
    ensures Share(frac, lo, hi, share, k) >= 0.0
    decreases hi - lo
  {
    if hi - lo > 1 {
      var mid, a := Half(lo, hi), frac(lo, hi);
      PartsNonNegative(share, a);
      if k < mid {
        SharesNonNegative(frac, lo, mid, LeftPart(share, a), k);
      } else {
        SharesNonNegative(frac, mid, hi, RightPart(share, a), k);
      }
    }
  }

  /** The cluster is cut where a measure of its positions is. */
  ghost predicate CutByMass(frac: Fraction, mass: (nat, nat) -> real, lo: nat, hi: nat)
    requires lo + 2 <= hi
  {
    var mid, a := Half(lo, hi), frac(lo, hi);
    && mass(lo, mid) > 0.0 && mass(mid, hi) > 0.0
    && LeftPart(mass(lo, hi), a) == mass(lo, mid) && RightPart(mass(lo, hi), a) == mass(mid, hi)
  }

  lemma Dealt(weight: real, part: real, whole: real, share: real, fraction: real, own: real)
    requires part > 0.0 && whole * fraction == part && weight * part == (share * fraction) * own
    ensures weight * whole == share * own
  {
    assert (weight * whole) * part == (weight * part) * whole;
    assert ((share * fraction) * own) * whole == (share * own) * (whole * fraction);
    CancelFactor(weight * whole, share * own, part);
  }

  lemma DealtLeft(weight: real, part: real, whole: real, share: real, a: real, own: real)
    requires part > 0.0 && LeftPart(whole, a) == part && Prod(weight, part) == Prod(LeftPart(share, a), own)
    ensures Prod(weight, whole) == Prod(share, own)
  {
    Dealt(weight, part, whole, share, a, own);
  }

  lemma DealtRight(weight: real, part: real, whole: real, share: real, a: real, own: real)
    requires part > 0.0 && RightPart(whole, a) == part && Prod(weight, part) == Prod(RightPart(share, a), own)
    ensures Prod(weight, whole) == Prod(share, own)
  {
    Dealt(weight, part, whole, share, 1.0 - a, own);
  }

  /** Cut by a measure all the way down, every position gets the share in proportion to its own measure. */
  lemma {:induction false} SharesByMass(frac: Fraction, mass: (nat, nat) -> real, lo: nat, hi: nat, share: real, k: nat)
    requires lo <= k < hi && forall l: nat, h: nat :: lo <= l && l + 2 <= h <= hi ==> CutByMass(frac, mass, l, h)
    ensures Prod(Share(frac, lo, hi, share, k), mass(lo, hi)) == Prod(share, mass(k, k + 1))
    decreases hi - lo
  {
    if hi - lo > 1 {
      var mid, a := Half(lo, hi), frac(lo, hi);
      var own, weight := mass(k, k + 1), Share(frac, lo, hi, share, k);
      assert CutByMass(frac, mass, lo, hi);
      if k < mid {
        SharesByMass(frac, mass, lo, mid, LeftPart(share, a), k);
        DealtLeft(weight, mass(lo, mid), mass(lo, hi), share, a, own);
      } else {
        SharesByMass(frac, mass, mid, hi, RightPart(share, a), k);
        DealtRight(weight, mass(mid, hi), mass(lo, hi), share, a, own);
      }
    }
  }

  /**
   * Every cluster that a positive share reaches is cut at a fraction in [0, 1]. A half that gets nothing is not
   * looked into: its own fractions do not matter.
   */
  ghost predicate CutsWithin(frac: Fraction, lo: nat, hi: nat)
    decreases hi - lo
  {
    hi - lo <= 1 ||
    var mid, a := Half(lo, hi), frac(lo, hi);
    0.0 <= a <= 1.0 && (a > 0.0 ==> CutsWithin(frac, lo, mid)) && (a < 1.0 ==> CutsWithin(frac, mid, hi))
  }

  ghost predicate LongOnly(frac: Fraction, lo: nat, hi: nat, share: real) {
    forall k :: lo <= k < hi ==> Share(frac, lo, hi, share, k) >= 0.0
  }

  lemma {:induction false} NoShare(frac: Fraction, lo: nat, hi: nat, k: nat)
    requires lo <= k < hi
    ensures Share(frac, lo, hi, 0.0, k) == 0.0
    decreases hi - lo
  {
    if hi - lo > 1 {
      if k < Half(lo, hi) {
        NoShare(frac, lo, Half(lo, hi), k);
      } else {
        NoShare(frac, Half(lo, hi), hi, k);
      }
    }
  }

  lemma NoShareIsLongOnly(frac: Fraction, lo: nat, hi: nat)
    ensures LongOnly(frac, lo, hi, 0.0)
  {
    forall k | lo <= k < hi ensures Share(frac, lo, hi, 0.0, k) >= 0.0 {
      NoShare(frac, lo, hi, k);
    }
  }

  lemma LongOnlyHalves(frac: Fraction, lo: nat, hi: nat, share: real)
    requires lo + 2 <= hi
    ensures var mid, a := Half(lo, hi), frac(lo, hi);
      LongOnly(frac, lo, hi, share) <==>
        LongOnly(frac, lo, mid, LeftPart(share, a)) && LongOnly(frac, mid, hi, RightPart(share, a))
  {
    var mid, a := Half(lo, hi), frac(lo, hi);
    if LongOnly(frac, lo, hi, share) {
      forall k | lo <= k < mid ensures Share(frac, lo, mid, LeftPart(share, a), k) >= 0.0 {
        assert Share(frac, lo, hi, share, k) >= 0.0;
      }
      forall k | mid <= k < hi ensures Share(frac, mid, hi, RightPart(share, a), k) >= 0.0 {
        assert Share(frac, lo, hi, share, k) >= 0.0;
      }
    }
    if LongOnly(frac, lo, mid, LeftPart(share, a)) && LongOnly(frac, mid, hi, RightPart(share, a)) {
      forall k | lo <= k < hi ensures Share(frac, lo, hi, share, k) >= 0.0 {
        if k < mid {
          assert Share(frac, lo, mid, LeftPart(share, a), k) >= 0.0;
        } else {
          assert Share(frac, mid, hi, RightPart(share, a), k) >= 0.0;
        }
      }
    }
  }

  /** A long-only cluster has a non-negative share to split. */
  lemma LongOnlyShare(frac: Fraction, lo: nat, hi: nat, share: real)
    requires lo < hi && LongOnly(frac, lo, hi, share)
    ensures share >= 0.0
  {
    SharesConserve(frac, lo, hi, share);
    SumToNonNegative(Shares(frac, lo, hi, share), hi - lo);
  }

  lemma SignOfProduct(share: real, x: real)
    requires share > 0.0
    ensures share * x >= 0.0 <==> x >= 0.0
    ensures share * x > 0.0 <==> x > 0.0
  {
    if x > 0.0 {
      ProductPositive(share, x, share * x);
    } else if x < 0.0 {
      ProductPositive(share, -x, share * -x);
    }
  }

  lemma SignOfPart(share: real, x: real, part: real)
    requires share > 0.0 && part == share * x
    ensures (part >= 0.0 <==> x >= 0.0) && (part > 0.0 <==> x > 0.0)
  {
    SignOfProduct(share, x);
  }

  lemma PartSigns(share: real, a: real)
    requires share > 0.0
    ensures LeftPart(share, a) >= 0.0 <==> a >= 0.0
    ensures LeftPart(share, a) > 0.0 <==> a > 0.0
    ensures RightPart(share, a) >= 0.0 <==> a <= 1.0
    ensures RightPart(share, a) > 0.0 <==> a < 1.0
  {
    SignOfPart(share, a, LeftPart(share, a));
    SignOfPart(share, 1.0 - a, RightPart(share, a));
  }

  lemma {:induction false} HalfIff(frac: Fraction, lo: nat, hi: nat, share: real)
    requires lo < hi && share >= 0.0
    ensures LongOnly(frac, lo, hi, share) <==> (share > 0.0 ==> CutsWithin(frac, lo, hi))
    decreases hi - lo, 1
  {
    if share > 0.0 {
      LongOnlyIff(frac, lo, hi, share);
    } else {
      NoShareIsLongOnly(frac, lo, hi);
    }
  }

  /** No position of a positive share goes negative if and only if every cut the share reaches lies in [0, 1]. */
  lemma {:induction false} LongOnlyIff(frac: Fraction, lo: nat, hi: nat, share: real)
    requires lo < hi && share > 0.0
    ensures LongOnly(frac, lo, hi, share) <==> CutsWithin(frac, lo, hi)
    decreases hi - lo, 0
  {
    if hi - lo > 1 {
      var mid, a := Half(lo, hi), frac(lo, hi);
      var l, r := LeftPart(share, a), RightPart(share, a);
      LongOnlyHalves(frac, lo, hi, share);
      PartSigns(share, a);
      if LongOnly(frac, lo, mid, l) && LongOnly(frac, mid, hi, r) {
        LongOnlyShare(frac, lo, mid, l);
        LongOnlyShare(frac, mid, hi, r);
      }
      if 0.0 <= a <= 1.0 {
        HalfIff(frac, lo, mid, l);
        HalfIff(frac, mid, hi, r);
      }
    }
  }

  ghost function Goal(frac: Fraction, n: nat, k: nat): real
    requires k < n
  {
    Share(frac, 0, n, 1.0, k)
  }

  /** No final weight is negative. */
  ghost predicate GoalsLongOnly(frac: Fraction, n: nat) {
    forall k :: 0 <= k < n ==> Goal(frac, n, k) >= 0.0
  }

  lemma GoalsLongOnlyIff(frac: Fraction, n: nat)
    requires n > 0
    ensures GoalsLongOnly(frac, n) <==> CutsWithin(frac, 0, n)
  {
    LongOnlyIff(frac, 0, n, 1.0);
    if GoalsLongOnly(frac, n) {
      forall k | 0 <= k < n ensures Share(frac, 0, n, 1.0, k) >= 0.0 {
        assert Goal(frac, n, k) >= 0.0;
      }
    } else {
      var k :| 0 <= k < n && Goal(frac, n, k) < 0.0;
      assert Share(frac, 0, n, 1.0, k) < 0.0;
    }
  }

  // ---- the worklist ----

  /** A live cluster: the slice lo .. hi-1 of the leaf order. */
  datatype Span = Span(lo: nat, hi: nat)

  ghost predicate Inside(s: Span, k: nat) {
    s.lo <= k < s.hi
  }

  ghost predicate Ordered(live: seq<Span>, n: nat) {
    && (forall i :: 0 <= i < |live| ==> live[i].lo < live[i].hi <= n)
    && forall i, j :: 0 <= i < j < |live| ==> live[i].hi <= live[j].lo
  }

  /** Every position of a live cluster carries the same weight: the share still to be split. */
  ghost predicate Uniform(frac: Fraction, s: Span, v: seq<real>)
    requires s.lo < s.hi <= |v|
  {
    forall k :: s.lo <= k < s.hi ==>
      v[k] == v[s.lo] && Goal(frac, |v|, k) == Share(frac, s.lo, s.hi, v[s.lo], k)
  }

  ghost predicate Settled(live: seq<Span>, k: nat) {
    forall i :: 0 <= i < |live| ==> !Inside(live[i], k)
  }

  /** The loop invariant: live clusters are uniform, every other position has its final weight. */
  ghost predicate Balanced(frac: Fraction, live: seq<Span>, v: seq<real>) {
    && Ordered(live, |v|)
    && (forall i :: 0 <= i < |live| ==> Uniform(frac, live[i], v))
    && forall k :: 0 <= k < |v| && Settled(live, k) ==> v[k] == Goal(frac, |v|, k)
  }

  /** Left half times a, right half times 1 - a, everything else as before. */
  ghost predicate Rescaled(s: Span, mid: nat, a: real, v: seq<real>, v': seq<real>)
    requires s.lo < mid < s.hi <= |v| == |v'|
  {
    && (forall k :: s.lo <= k < mid ==> v'[k] == LeftPart(v[k], a))
    && (forall k :: mid <= k < s.hi ==> v'[k] == RightPart(v[k], a))
    && forall k :: 0 <= k < |v| && !Inside(s, k) ==> v'[k] == v[k]
  }

  lemma SplitUniform(frac: Fraction, s: Span, v: seq<real>, v': seq<real>)
    requires s.lo + 2 <= s.hi <= |v| == |v'| && Uniform(frac, s, v)
    requires Rescaled(s, Half(s.lo, s.hi), frac(s.lo, s.hi), v, v')
    ensures Uniform(frac, Span(s.lo, Half(s.lo, s.hi)), v')
    ensures Uniform(frac, Span(Half(s.lo, s.hi), s.hi), v')
  {
    var mid, a, top := Half(s.lo, s.hi), frac(s.lo, s.hi), v[s.lo];
    forall k | s.lo <= k < mid
      ensures v'[k] == v'[s.lo] && Goal(frac, |v|, k) == Share(frac, s.lo, mid, v'[s.lo], k)
    {
      assert v[k] == top && Goal(frac, |v|, k) == Share(frac, s.lo, s.hi, top, k);
    }
    forall k | mid <= k < s.hi
      ensures v'[k] == v'[mid] && Goal(frac, |v|, k) == Share(frac, mid, s.hi, v'[mid], k)
    {
      assert v[k] == top && v[mid] == top && Goal(frac, |v|, k) == Share(frac, s.lo, s.hi, top, k);
    }
  }

  lemma OtherUniform(frac: Fraction, s: Span, t: Span, v: seq<real>, v': seq<real>)
    requires t.lo < t.hi <= |v| == |v'| && Uniform(frac, t, v)
    requires forall k :: t.lo <= k < t.hi ==> v'[k] == v[k]
    ensures Uniform(frac, t, v')
  {
  }

  /** The worklist with cluster p replaced by its two halves. */
  ghost function SplitAt(live: seq<Span>, p: nat): (r: seq<Span>)
    requires p < |live| && live[p].lo + 2 <= live[p].hi
    ensures |r| == |live| + 1
    ensures var mid := Half(live[p].lo, live[p].hi);
      && r[p] == Span(live[p].lo, mid) && r[p + 1] == Span(mid, live[p].hi)
      && (forall i :: 0 <= i < p ==> r[i] == live[i])
      && forall i :: p < i < |live| ==> r[i + 1] == live[i]
  {
    var mid := Half(live[p].lo, live[p].hi);
    live[..p] + [Span(live[p].lo, mid), Span(mid, live[p].hi)] + live[p + 1..]
  }

  lemma SplitOrdered(live: seq<Span>, p: nat, n: nat)
    requires p < |live| && live[p].lo + 2 <= live[p].hi && Ordered(live, n)
    ensures Ordered(SplitAt(live, p), n)
    ensures forall k :: Settled(SplitAt(live, p), k) ==> Settled(live, k)
  {
    var r := SplitAt(live, p);
    forall i, j | 0 <= i < j < |r| ensures r[i].hi <= r[j].lo {
      assert i < p ==> r[i] == live[i];
      assert i > p + 1 ==> r[i] == live[i - 1];
      assert j < p ==> r[j] == live[j];
      assert j > p + 1 ==> r[j] == live[j - 1];
    }
    forall i | 0 <= i < |r| ensures r[i].lo < r[i].hi <= n {
      assert i < p ==> r[i] == live[i];
      assert i > p + 1 ==> r[i] == live[i - 1];
    }
    forall k | Settled(r, k) ensures Settled(live, k) {
      forall i | 0 <= i < |live| ensures !Inside(live[i], k) {
        if i == p {
          assert !Inside(r[p], k) && !Inside(r[p + 1], k);
        } else {
          assert !Inside(r[if i < p then i else i + 1], k);
        }
      }
    }
  }

  /** Splitting one live cluster keeps the worklist balanced. */
  lemma SplitKeepsBalance(frac: Fraction, live: seq<Span>, p: nat, v: seq<real>, v': seq<real>)
    requires Balanced(frac, live, v) && p < |live| && live[p].lo + 2 <= live[p].hi && |v| == |v'|
    requires Rescaled(live[p], Half(live[p].lo, live[p].hi), frac(live[p].lo, live[p].hi), v, v')
    ensures Balanced(frac, SplitAt(live, p), v')
  {
    var r, s := SplitAt(live, p), live[p];
    SplitOrdered(live, p, |v|);
    assert Uniform(frac, s, v);
    SplitUniform(frac, s, v, v');
    forall i | 0 <= i < |r| ensures Uniform(frac, r[i], v') {
      if i < p || i > p + 1 {
        var j := if i < p then i else i - 1;
        assert r[i] == live[j] && (live[j].hi <= s.lo || s.hi <= live[j].lo);
        forall k | live[j].lo <= k < live[j].hi ensures v'[k] == v[k] {
          assert !Inside(s, k);
        }
        OtherUniform(frac, s, live[j], v, v');
      }
    }
    forall k | 0 <= k < |v| && Settled(r, k) ensures v'[k] == Goal(frac, |v|, k) {
      assert Settled(live, k) && !Inside(s, k);
    }
  }

  ghost function DropAt(live: seq<Span>, p: nat): (r: seq<Span>)
    requires p < |live|
    ensures |r| == |live| - 1
    ensures (forall i :: 0 <= i < p ==> r[i] == live[i]) && forall i :: p < i < |live| ==> r[i - 1] == live[i]
  {
    live[..p] + live[p + 1..]
  }

  lemma SplitHead(next: seq<Span>, rest: seq<Span>, c: nat)
    requires c < |rest| && rest[c].lo + 2 <= rest[c].hi
    ensures var s := rest[c]; var mid := Half(s.lo, s.hi); var live := next + rest[c..];
      live[|next|] == s &&
      SplitAt(live, |next|) == next + [Span(s.lo, mid), Span(mid, s.hi)] + rest[c + 1..]
  {
    var live := next + rest[c..];
    assert live[|next|] == rest[c];
    assert live[..|next|] == next && live[|next| + 1..] == rest[c + 1..];
  }

  lemma DropHead(next: seq<Span>, rest: seq<Span>, c: nat)
    requires c < |rest|
    ensures (next + rest[c..])[|next|] == rest[c] && DropAt(next + rest[c..], |next|) == next + rest[c + 1..]
  {
    var live := next + rest[c..];
    assert live[..|next|] == next && live[|next| + 1..] == rest[c + 1..];
  }

  /** A cluster of one leaf is finished: its weight is final. */
  lemma DropKeepsBalance(frac: Fraction, live: seq<Span>, p: nat, v: seq<real>)
    requires Balanced(frac, live, v) && p < |live| && live[p].hi - live[p].lo <= 1
    ensures Balanced(frac, DropAt(live, p), v)
  {
    var r := DropAt(live, p);
    forall i | 0 <= i < |r| ensures r[i] == live[if i < p then i else i + 1] {
    }
    forall k | 0 <= k < |v| && Settled(r, k) ensures v[k] == Goal(frac, |v|, k) {
      if Inside(live[p], k) {
        assert Uniform(frac, live[p], v);
      } else {
        forall i | 0 <= i < |live| ensures !Inside(live[i], k) {
          assert i != p ==> !Inside(r[if i < p then i else i - 1], k);
        }
      }
    }
  }

  // ---- conservation at every state of the loop ----

  ghost predicate Head(live: seq<Span>, k: nat) {
    exists i :: 0 <= i < |live| && live[i].lo == k
  }

  /** A position counts once: all settled positions, and the first position of each live cluster. */
  ghost function Counted(live: seq<Span>, v: seq<real>): (r: seq<real>)
    ensures |r| == |v|
    ensures forall k :: 0 <= k < |v| ==> r[k] == if Settled(live, k) || Head(live, k) then v[k] else 0.0
  {
    seq(|v|, k requires 0 <= k < |v| => if Settled(live, k) || Head(live, k) then v[k] else 0.0)
  }

  lemma OnlyHeadCounts(live: seq<Span>, v: seq<real>, m: nat, k: nat)
    requires Ordered(live, |v|) && m < |live| && Inside(live[m], k)
    ensures Counted(live, v)[k] == if k == live[m].lo then v[k] else 0.0
  {
    if k != live[m].lo {
      forall i | 0 <= i < |live| ensures live[i].lo != k {
        assert i < m ==> live[i].hi <= live[m].lo;
        assert i > m ==> live[m].hi <= live[i].lo;
      }
    }
  }

  /** The first m clusters end by k and the rest start after it, so position k is in no cluster. */
  lemma BetweenIsSettled(live: seq<Span>, n: nat, m: nat, k: nat)
    requires Ordered(live, n) && m <= |live|
    requires m > 0 ==> live[m - 1].hi <= k
    requires m < |live| ==> k < live[m].lo
    ensures Settled(live, k)
  {
    forall i | 0 <= i < |live| ensures !Inside(live[i], k) {
      assert i < m - 1 ==> live[i].hi <= live[m - 1].lo;
      assert i > m ==> live[m].hi <= live[i].lo;
    }
  }

  lemma ClusterTail(live: seq<Span>, v: seq<real>, m: nat)
    requires Ordered(live, |v|) && m < |live|
    ensures forall k :: live[m].lo < k < live[m].hi ==> Counted(live, v)[k] == 0.0
  {
    forall k | live[m].lo < k < live[m].hi ensures Counted(live, v)[k] == 0.0 {
      OnlyHeadCounts(live, v, m, k);
    }
  }

  lemma SumOneThenZeros(s: seq<real>, lo: nat, hi: nat)
    requires lo < hi <= |s| && forall k :: lo < k < hi ==> s[k] == 0.0
    ensures SumTo(s, hi) == SumTo(s, lo) + s[lo]
  {
    SumToConst(s, lo + 1, hi - lo - 1, 0.0);
  }

  lemma ClusterCounted(live: seq<Span>, v: seq<real>, m: nat)
    requires Ordered(live, |v|) && m < |live|
    ensures SumTo(Counted(live, v), live[m].hi) == SumTo(Counted(live, v), live[m].lo) + v[live[m].lo]
  {
    var s := live[m];
    OnlyHeadCounts(live, v, m, s.lo);
    ClusterTail(live, v, m);
    SumOneThenZeros(Counted(live, v), s.lo, s.hi);
  }

  lemma GoalsOfUniform(frac: Fraction, s: Span, v: seq<real>)
    requires s.lo < s.hi <= |v| && Uniform(frac, s, v)
    ensures forall j :: 0 <= j < s.hi - s.lo ==>
      Shares(frac, 0, |v|, 1.0)[s.lo + j] == Shares(frac, s.lo, s.hi, v[s.lo])[j]
  {
    forall j | 0 <= j < s.hi - s.lo
      ensures Shares(frac, 0, |v|, 1.0)[s.lo + j] == Shares(frac, s.lo, s.hi, v[s.lo])[j]
    {
      assert Goal(frac, |v|, s.lo + j) == Share(frac, s.lo, s.hi, v[s.lo], s.lo + j);
    }
  }

  lemma {:induction false} SumOfSlice(s: seq<real>, part: seq<real>, lo: nat, n: nat)
    requires lo + n <= |s| && n <= |part| && forall j :: 0 <= j < n ==> s[lo + j] == part[j]
    ensures SumTo(s, lo + n) == SumTo(s, lo) + SumTo(part, n)
  {
    if n > 0 {
      SumOfSlice(s, part, lo, n - 1);
    }
  }

  lemma ClusterGoals(frac: Fraction, live: seq<Span>, v: seq<real>, m: nat)
    requires Balanced(frac, live, v) && m < |live|
    ensures var goals := Shares(frac, 0, |v|, 1.0);
      SumTo(goals, live[m].hi) == SumTo(goals, live[m].lo) + v[live[m].lo]
  {
    var s := live[m];
    assert Uniform(frac, s, v);
    SharesConserve(frac, s.lo, s.hi, v[s.lo]);
    GoalsOfUniform(frac, s, v);
    SumOfSlice(Shares(frac, 0, |v|, 1.0), Shares(frac, s.lo, s.hi, v[s.lo]), s.lo, s.hi - s.lo);
  }

  /** Counted weights and goals have added up to the same over the first k positions. */
  ghost predicate SameReach(frac: Fraction, live: seq<Span>, v: seq<real>, k: nat)
    requires k <= |v|
  {
    SumTo(Counted(live, v), k) == SumTo(Shares(frac, 0, |v|, 1.0), k)
  }

  lemma ClusterBounds(live: seq<Span>, n: nat, m: nat)
    requires Ordered(live, n) && m < |live|
    ensures live[m].lo < live[m].hi <= n && (m > 0 ==> live[m - 1].hi <= live[m].lo)
  {
  }

  lemma ReachOverCluster(frac: Fraction, live: seq<Span>, v: seq<real>, m: nat)
    requires Balanced(frac, live, v) && m < |live| && SameReach(frac, live, v, live[m].lo)
    ensures SameReach(frac, live, v, live[m].hi)
  {
    ClusterCounted(live, v, m);
    ClusterGoals(frac, live, v, m);
  }

  lemma ReachOverSettled(frac: Fraction, live: seq<Span>, v: seq<real>, k: nat)
    requires Balanced(frac, live, v) && k < |v| && Settled(live, k) && SameReach(frac, live, v, k)
    ensures SameReach(frac, live, v, k + 1)
  {
  }

  /** Up to the end of each live cluster, and between them, the two reach the same. */
  lemma {:induction false} CountedReach(frac: Fraction, live: seq<Span>, v: seq<real>, m: nat, k: nat)
    requires Balanced(frac, live, v) && m <= |live| && k <= |v|
    requires m > 0 ==> live[m - 1].hi <= k
    requires m < |live| ==> k <= live[m].lo
    ensures SameReach(frac, live, v, k)
    decreases k, m
  {
    if m > 0 && live[m - 1].hi == k {
      ClusterBounds(live, |v|, m - 1);
      CountedReach(frac, live, v, m - 1, live[m - 1].lo);
      ReachOverCluster(frac, live, v, m - 1);
    } else if k > 0 {
      CountedReach(frac, live, v, m, k - 1);
      BetweenIsSettled(live, |v|, m, k - 1);
      ReachOverSettled(frac, live, v, k - 1);
    }
  }

  /** At every state, settled weights plus one weight per live cluster make exactly one. */
  lemma WorklistConserves(frac: Fraction, live: seq<Span>, v: seq<real>)
    requires Balanced(frac, live, v) && |v| > 0
    ensures Sum(Counted(live, v)) == 1.0
  {
    CountedReach(frac, live, v, |live|, |v|);
    SharesConserve(frac, 0, |v|, 1.0);
  }

  /** Work left: two units per position less one per cluster. Every cluster handled costs one unit. */
  ghost function Work(live: seq<Span>): int {
    if |live| == 0 then 0 else Work(live[..|live| - 1]) + 2 * (live[|live| - 1].hi - live[|live| - 1].lo) - 1
  }

  lemma {:induction false} WorkConcat(a: seq<Span>, b: seq<Span>)
    ensures Work(a + b) == Work(a) + Work(b)
  {
    if |b| == 0 {
      assert a + b == a;
    } else {
      WorkConcat(a, b[..|b| - 1]);
      assert (a + b)[..|a + b| - 1] == a + b[..|b| - 1];
    }
  }

  lemma WorkOfParts(a: seq<Span>, b: seq<Span>, c: seq<Span>)
    ensures Work(a + b + c) == Work(a) + Work(b) + Work(c)
  {
    WorkConcat(a + b, c);
    WorkConcat(a, b);
  }

  lemma WorkOfOne(s: Span)
    ensures Work([s]) == 2 * (s.hi - s.lo) - 1
  {
    assert [s][..0] == [];
  }

  lemma WorkOfHalves(s: Span)
    requires s.lo + 2 <= s.hi
    ensures Work([Span(s.lo, Half(s.lo, s.hi)), Span(Half(s.lo, s.hi), s.hi)]) == Work([s]) - 1
  {
    var l, r := Span(s.lo, Half(s.lo, s.hi)), Span(Half(s.lo, s.hi), s.hi);
    assert [l, r] == [l] + [r];
    WorkConcat([l], [r]);
    WorkOfOne(s);
    WorkOfOne(l);
    WorkOfOne(r);
  }

  lemma WorkSplit(live: seq<Span>, p: nat)
    requires p < |live| && live[p].lo + 2 <= live[p].hi
    ensures Work(SplitAt(live, p)) == Work(live) - 1
  {
    var s, mid := live[p], Half(live[p].lo, live[p].hi);
    var l, r := Span(s.lo, mid), Span(mid, s.hi);
    assert live == live[..p] + [s] + live[p + 1..];
    WorkOfParts(live[..p], [s], live[p + 1..]);
    WorkOfParts(live[..p], [l, r], live[p + 1..]);
    WorkOfHalves(s);
  }

  lemma WorkDrop(live: seq<Span>, p: nat)
    requires p < |live| && live[p].hi == live[p].lo + 1
    ensures Work(DropAt(live, p)) == Work(live) - 1
  {
    var a, b := live[..p], live[p + 1..];
    assert live == a + [live[p]] + b;
    WorkOfParts(a, [live[p]], b);
    WorkConcat(a, b);
    WorkOfOne(live[p]);
    assert DropAt(live, p) == a + b;
  }

  lemma {:induction false} WorkNonNegative(live: seq<Span>)
    requires forall i :: 0 <= i < |live| ==> live[i].lo < live[i].hi
    ensures Work(live) >= |live|
  {
    if |live| > 0 {
      WorkNonNegative(live[..|live| - 1]);
    }
  }
}
