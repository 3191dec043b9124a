/** Hierarchical risk parity over a covariance matrix (src/quant/capital/portfolio/construction.py). */
module Hrp {
  import opened Wrappers
  import opened Sums
  import opened Bisection

  type Matrix = seq<seq<real>>

  datatype CapitalError = NotAligned | NoNames

  predicate Square(cov: Matrix) {
    forall i :: 0 <= i < |cov| ==> |cov[i]| == |cov|
  }

  ghost predicate Items(cov: Matrix, items: seq<nat>) {
    forall k :: 0 <= k < |items| ==> items[k] < |cov|
  }

  ghost predicate Permutation(order: seq<nat>, n: nat) {
    && |order| == n && (forall k :: 0 <= k < n ==> order[k] < n)
    && (forall k, l :: 0 <= k < l < n ==> order[k] != order[l])
    && forall i: nat :: i < n ==> i in order
  }

  // ---- a cluster's variance ----

  /** Row a of x' cov x, over the first n columns. */
  function QuadRow(cov: Matrix, items: seq<nat>, x: seq<real>, a: nat, n: nat): real
    requires Square(cov) && |items| == |x| && a < |items| && n <= |items| && Items(cov, items)
  {
    if n == 0 then 0.0 else QuadRow(cov, items, x, a, n - 1) + x[a] * cov[items[a]][items[n - 1]] * x[n - 1]
  }

  /** x' cov x over the first n rows. */
  function Quad(cov: Matrix, items: seq<nat>, x: seq<real>, n: nat): real
    requires Square(cov) && |items| == |x| && n <= |items| && Items(cov, items)
  {
    if n == 0 then 0.0 else Quad(cov, items, x, n - 1) + QuadRow(cov, items, x, n - 1, |items|)
  }

  /** A non-positive variance is replaced by a tiny one, so the division is always defined. */
  function SafeVariance(d: real): (r: real)
    ensures r > 0.0
  {
    if d > 0.0 then d else 0.000000000001
  }

  function InverseDiagonal(cov: Matrix, items: seq<nat>): (r: seq<real>)
    requires Square(cov) && Items(cov, items)
    ensures |r| == |items| && (|r| > 0 ==> Sum(r) > 0.0)
  {
    var r := seq(|items|, k requires 0 <= k < |items| => 1.0 / SafeVariance(cov[items[k]][items[k]]));
    assert |r| > 0 ==> Sum(r) > 0.0 by {
      forall k | 0 <= k < |r| ensures r[k] > 0.0 {
        PositiveQuotient(1.0, SafeVariance(cov[items[k]][items[k]]));
      }
      if |r| > 0 {
        SumToAtLeastTerm(r, |r|, 0);
      }
    }
    r
  }

  function Normalised(v: seq<real>): (r: seq<real>)
    requires |v| > 0 ==> Sum(v) > 0.0
    ensures |r| == |v|
  {
    seq(|v|, k requires 0 <= k < |v| => v[k] / Sum(v))
  }

  /** The cluster's inverse-variance portfolio. */
  function Portfolio(cov: Matrix, items: seq<nat>): (x: seq<real>)
    requires Square(cov) && Items(cov, items)
    ensures |x| == |items|
  {
    Normalised(InverseDiagonal(cov, items))
  }

  /** The variance of that portfolio. */
  function ClusterVariance(cov: Matrix, items: seq<nat>): real
    requires Square(cov) && Items(cov, items)
  {
    Quad(cov, items, Portfolio(cov, items), |items|)
  }

  /** A name's own variance, a tiny one standing in for none. */
  ghost function OwnVariance(cov: Matrix, i: nat): real
    requires Square(cov) && i < |cov|
  {
    if cov[i][i] > 0.0 then cov[i][i] else 0.000000000001
  }

  lemma ShareOfInverse(d: real, total: real)
    requires d > 0.0 && total > 0.0
    ensures Prod(1.0 / d / total, d) == 1.0 / total && 1.0 / d / total > 0.0
  {
    var r := 1.0 / d;
    PositiveQuotient(1.0, d);
    PositiveQuotient(r, total);
    Quotient(1.0, d);
    Quotient(r, total);
    Quotient(1.0, total);
    assert (r / total * d) * total == (r / total * total) * d;
    CancelFactor(r / total * d, 1.0 / total, total);
  }

  /** The portfolio is positive, sums to 1, and gives every name the same weight times own variance. */
  lemma PortfolioEqualisesVariance(cov: Matrix, items: seq<nat>)
    requires Square(cov) && Items(cov, items) && |items| > 0
    ensures Sum(Portfolio(cov, items)) == 1.0
    ensures forall a :: 0 <= a < |items| ==> Portfolio(cov, items)[a] > 0.0
    ensures forall a, b :: 0 <= a < |items| && 0 <= b < |items| ==>
      Prod(Portfolio(cov, items)[a], OwnVariance(cov, items[a]))
      == Prod(Portfolio(cov, items)[b], OwnVariance(cov, items[b]))
  {
    var r, x := InverseDiagonal(cov, items), Portfolio(cov, items);
    forall a | 0 <= a < |items|
      ensures x[a] > 0.0 && Prod(x[a], OwnVariance(cov, items[a])) == 1.0 / Sum(r) && r[a] == Sum(r) * x[a]
    {
      ShareOfInverse(OwnVariance(cov, items[a]), Sum(r));
      Quotient(r[a], Sum(r));
    }
    SumToScale(Sum(r), x, r, |r|);
    CancelFactor(Sum(x), 1.0, Sum(r));
  }

  /** Positive semidefinite: no portfolio of any of the names has negative variance. */
  ghost predicate Semidefinite(cov: Matrix)
    requires Square(cov)
  {
    forall items: seq<nat>, x: seq<real> ::
      |items| == |x| && Items(cov, items) ==> Quad(cov, items, x, |items|) >= 0.0
  }

  /** Fraction of a cluster's share that goes to its left half. */
  function Alpha(varLeft: real, varRight: real): real {
    var total := varLeft + varRight;
    if total > 0.0 then 1.0 - varLeft / total else 0.5
  }

  /** The two halves get shares that carry the same share times variance. */
  lemma SplitEqualisesVariance(varLeft: real, varRight: real)
    ensures varLeft + varRight > 0.0 ==>
      Prod(Alpha(varLeft, varRight), varLeft) == Prod(1.0 - Alpha(varLeft, varRight), varRight)
    ensures varLeft + varRight <= 0.0 ==> Alpha(varLeft, varRight) == 1.0 - Alpha(varLeft, varRight)
  {
    if varLeft + varRight > 0.0 {
      var q := varLeft / (varLeft + varRight);
      Quotient(varLeft, varLeft + varRight);
      assert (1.0 - q) * varLeft - q * varRight == varLeft - q * (varLeft + varRight);
    }
  }

  /** Left fraction of the cluster order[lo..hi]. */
  function LeftFraction(cov: Matrix, order: seq<nat>, lo: nat, hi: nat): real
    requires Square(cov) && Items(cov, order)
  {
    if lo + 2 <= hi <= |order| then
      Alpha(ClusterVariance(cov, order[lo..Half(lo, hi)]), ClusterVariance(cov, order[Half(lo, hi)..hi]))
    else 0.5
  }

  function Fractions(cov: Matrix, order: seq<nat>): (frac: Fraction)
    requires Square(cov) && Items(cov, order)
    ensures forall lo, hi :: frac(lo, hi) == LeftFraction(cov, order, lo, hi)
  {
    (lo: nat, hi: nat) => LeftFraction(cov, order, lo, hi)
  }

  // ---- the allocation ----

  ghost function InOrder(weights: seq<real>, order: seq<nat>): (v: seq<real>)
    requires forall k :: 0 <= k < |order| ==> order[k] < |weights|
    ensures |v| == |order| && forall k :: 0 <= k < |v| ==> v[k] == weights[order[k]]
  {
    seq(|order|, k requires 0 <= k < |order| => weights[order[k]])
  }

  /** Positions from .. to-1 times the factor, the rest as before. */
  ghost predicate SliceScaled(v: seq<real>, v': seq<real>, from: nat, to: nat, factor: real) {
    |v'| == |v| && forall k :: 0 <= k < |v| ==> v'[k] == if from <= k < to then LeftPart(v[k], factor) else v[k]
  }

  /** weights[i] *= factor for the listed positions. */
  method ScaleSlice(weights: array<real>, order: seq<nat>, from: nat, to: nat, factor: real)
    requires Permutation(order, weights.Length) && from <= to <= |order|
    modifies weights
    ensures SliceScaled(InOrder(old(weights[..]), order), InOrder(weights[..], order), from, to, factor)
  {
    for k := from to to
      invariant SliceScaled(InOrder(old(weights[..]), order), InOrder(weights[..], order), from, k, factor)
    {
      ghost var before := weights[..];
      weights[order[k]] := weights[order[k]] * factor;
      assert forall j :: 0 <= j < |order| && j != k ==> weights[order[j]] == before[order[j]];
    }
  }

  lemma HalvesScaled(s: Span, mid: nat, alpha: real, v: seq<real>, v': seq<real>, v'': seq<real>)
    requires s.lo < mid < s.hi <= |v|
    requires SliceScaled(v, v', s.lo, mid, alpha) && SliceScaled(v', v'', mid, s.hi, 1.0 - alpha)
    ensures Rescaled(s, mid, alpha, v, v'')
  {
    forall k | mid <= k < s.hi ensures v''[k] == RightPart(v[k], alpha) {
      assert v''[k] == LeftPart(v'[k], 1.0 - alpha) && v'[k] == v[k];
    }
  }

  method ScaleHalves(weights: array<real>, order: seq<nat>, s: Span, mid: nat, alpha: real)
    requires Permutation(order, weights.Length) && s.lo < mid < s.hi <= |order|
    modifies weights
    ensures Rescaled(s, mid, alpha, InOrder(old(weights[..]), order), InOrder(weights[..], order))
  {
    ScaleSlice(weights, order, s.lo, mid, alpha);
    ghost var halfway := InOrder(weights[..], order);
    ScaleSlice(weights, order, mid, s.hi, 1.0 - alpha);
    HalvesScaled(s, mid, alpha, InOrder(old(weights[..]), order), halfway, InOrder(weights[..], order));
  }

  lemma LiveSpan(frac: Fraction, live: seq<Span>, p: nat, v: seq<real>)
    requires Balanced(frac, live, v) && p < |live|
    ensures live[p].lo < live[p].hi <= |v|
  {
  }

  /** Splits one live cluster, number p of `live`, by the inverse of its halves' variances. */
  method SplitOne(cov: Matrix, order: seq<nat>, s: Span, weights: array<real>,
                  ghost frac: Fraction, ghost live: seq<Span>, ghost p: nat)
    requires Square(cov) && Permutation(order, |cov|) && weights.Length == |cov|
    requires p < |live| && live[p] == s && s.lo + 2 <= s.hi && frac(s.lo, s.hi) == LeftFraction(cov, order, s.lo, s.hi)
    requires Balanced(frac, live, InOrder(weights[..], order))
    modifies weights
    ensures Balanced(frac, SplitAt(live, p), InOrder(weights[..], order))
  {
    var mid := Half(s.lo, s.hi);
    var alpha := LeftFraction(cov, order, s.lo, s.hi);
    ghost var v := InOrder(weights[..], order);
    LiveSpan(frac, live, p, v);
    ScaleHalves(weights, order, s, mid, alpha);
    SplitKeepsBalance(frac, live, p, v, InOrder(weights[..], order));
  }

  /** A cluster is split and its halves queued, or dropped when it is a single leaf. */
  method HandleCluster(cov: Matrix, order: seq<nat>, clusters: seq<Span>, c: nat, queued: seq<Span>,
                       weights: array<real>,
                       ghost frac: Fraction)
    returns (next: seq<Span>)
    requires Square(cov) && Permutation(order, |cov|) && weights.Length == |cov| && frac == Fractions(cov, order)
    requires c < |clusters| && Balanced(frac, queued + clusters[c..], InOrder(weights[..], order))
    modifies weights
    ensures Balanced(frac, next + clusters[c + 1..], InOrder(weights[..], order))
    ensures Work(next + clusters[c + 1..]) == Work(queued + clusters[c..]) - 1
  {
    var s := clusters[c];
    ghost var live, p := queued + clusters[c..], |queued|;
    DropHead(queued, clusters, c);
    LiveSpan(frac, live, p, InOrder(weights[..], order));
    if s.hi - s.lo <= 1 {
      DropKeepsBalance(frac, live, p, InOrder(weights[..], order));
      WorkDrop(live, p);
      next := queued;
    } else {
      var mid := Half(s.lo, s.hi);
      SplitHead(queued, clusters, c);
      SplitOne(cov, order, s, weights, frac, live, p);
      WorkSplit(live, p);
      next := queued + [Span(s.lo, mid), Span(mid, s.hi)];
    }
  }

  /** One level of the worklist. */
  method SplitLevel(cov: Matrix, order: seq<nat>, clusters: seq<Span>, weights: array<real>, ghost frac: Fraction)
    returns (next: seq<Span>)
    requires Square(cov) && Permutation(order, |cov|) && weights.Length == |cov| && frac == Fractions(cov, order)
    requires Balanced(frac, clusters, InOrder(weights[..], order))
    modifies weights
    ensures Balanced(frac, next, InOrder(weights[..], order))
    ensures Work(next) == Work(clusters) - |clusters|
  {
    next := [];
    assert next + clusters[0..] == clusters;
    for c := 0 to |clusters|
      invariant Balanced(frac, next + clusters[c..], InOrder(weights[..], order))
      invariant Work(next + clusters[c..]) == Work(clusters) - c
    {
      next := HandleCluster(cov, order, clusters, c, next, weights, frac);
    }
    assert next + clusters[|clusters|..] == next;
  }

  /** The matrix of a frame with these row and column labels. */
  ghost predicate Framed<Label>(cov: Matrix, index: seq<Label>, columns: seq<Label>) {
    |cov| == |index| && forall i :: 0 <= i < |cov| ==> |cov[i]| == |columns|
  }

  // ---- summing in leaf order or in index order ----

  /** Entry (i, k) holds w[i] where position k is index i. */
  ghost function Placement(w: seq<real>, order: seq<nat>): (table: seq<seq<real>>)
    ensures |table| == |w| && Rectangular(table, |order|)
    ensures forall i, k :: 0 <= i < |w| && 0 <= k < |order| ==> table[i][k] == if order[k] == i then w[i] else 0.0
  {
    seq(|w|, i requires 0 <= i < |w| =>
      seq(|order|, k requires 0 <= k < |order| => if order[k] == i then w[i] else 0.0))
  }

  lemma SumSingle(s: seq<real>, k: nat)
    requires k < |s| && forall j :: 0 <= j < |s| && j != k ==> s[j] == 0.0
    ensures Sum(s) == s[k]
  {
    SumToConst(s, 0, k, 0.0);
    SumToConst(s, k + 1, |s| - k - 1, 0.0);
  }

  lemma PlacementRows(w: seq<real>, order: seq<nat>)
    requires Permutation(order, |w|)
    ensures RowSums(Placement(w, order)) == w
  {
    var n, table := |w|, Placement(w, order);
    forall i | 0 <= i < n ensures RowSums(table)[i] == w[i] {
      var index: nat := i;
      assert index in order;
      var k :| 0 <= k < n && order[k] == index;
      SumSingle(table[i], k);
    }
  }

  lemma PlacementColumns(w: seq<real>, order: seq<nat>)
    requires Permutation(order, |w|)
    ensures ColumnSums(Placement(w, order), |w|, |w|) == InOrder(w, order)
  {
    var n, table := |w|, Placement(w, order);
    forall k | 0 <= k < n ensures ColumnSums(table, n, n)[k] == w[order[k]] {
      SumSingle(Column(table, n, k), order[k]);
    }
  }

  lemma SumOverPermutation(w: seq<real>, order: seq<nat>)
    requires Permutation(order, |w|)
    ensures Sum(w) == Sum(InOrder(w, order))
  {
    ExchangeSums(Placement(w, order), |w|, |w|);
    PlacementRows(w, order);
    PlacementColumns(w, order);
  }

  // ---- the weights ----

  lemma FinalSum(cov: Matrix, order: seq<nat>, w: seq<real>)
    requires Square(cov) && |cov| > 0 && Permutation(order, |cov|) && |w| == |cov|
    requires Balanced(Fractions(cov, order), [], InOrder(w, order))
    ensures Sum(w) == 1.0
    ensures forall k :: 0 <= k < |order| ==> w[order[k]] == Goal(Fractions(cov, order), |cov|, k)
  {
    var v := InOrder(w, order);
    forall k | 0 <= k < |v| ensures v[k] == Goal(Fractions(cov, order), |cov|, k) {
      assert Settled([], k);
    }
    assert v == Shares(Fractions(cov, order), 0, |cov|, 1.0);
    SharesConserve(Fractions(cov, order), 0, |cov|, 1.0);
    SumOverPermutation(w, order);
  }

  /**
   * The weights are the tree's leaf shares, they sum to 1, and the final normalisation divides by 1. The clustering
   * library, which gives the leaf order, refuses a matrix without names.
   */
  method HrpWeights<Label(==)>(cov: Matrix, index: seq<Label>, columns: seq<Label>, order: seq<nat>)
    returns (r: Result<seq<real>, CapitalError>)
    requires Framed(cov, index, columns) && Permutation(order, |cov|)
    ensures r.Err? <==> index != columns || |cov| == 0
    ensures r.Ok? ==> Square(cov) && |r.value| == |cov| && Sum(r.value) == 1.0
    ensures r.Ok? ==> forall k :: 0 <= k < |order| ==> r.value[order[k]] == Goal(Fractions(cov, order), |cov|, k)
  {
    if |cov| != |columns| || index != columns {
      return Err(NotAligned);
    }
    if |cov| == 0 {
      return Err(NoNames);
    }
    var n := |cov|;
    if n == 1 {
      return Ok([1.0]);
    }
    var weights := new real[n](_ => 1.0);
    var clusters := [Span(0, n)];
    ghost var frac := Fractions(cov, order);
    while |clusters| > 0
      invariant Balanced(frac, clusters, InOrder(weights[..], order))
      decreases Work(clusters)
    {
      WorkNonNegative(clusters);
      clusters := SplitLevel(cov, order, clusters, weights, frac);
    }
    var w := weights[..];
    FinalSum(cov, order, w);
    r := Ok(seq(n, i requires 0 <= i < n => w[i] / Sum(w)));
    assert r.value == w;
  }

  // ---- when the book is long-only ----

  /**
   * Wherever the bisection puts weight, the two halves of a cluster both have a non-negative variance, or their
   * variances add up to nothing positive and the cluster is cut in equal parts.
   */
  ghost predicate SoundClusters(cov: Matrix, order: seq<nat>, lo: nat, hi: nat)
    requires Square(cov) && Items(cov, order) && hi <= |order|
    decreases hi - lo
  {
    hi <= lo + 1 ||
    var mid := Half(lo, hi);
    var left, right := ClusterVariance(cov, order[lo..mid]), ClusterVariance(cov, order[mid..hi]);
    if left + right <= 0.0 then SoundClusters(cov, order, lo, mid) && SoundClusters(cov, order, mid, hi)
    else
      && left >= 0.0 && right >= 0.0
      && (right > 0.0 ==> SoundClusters(cov, order, lo, mid)) && (left > 0.0 ==> SoundClusters(cov, order, mid, hi))
  }

  /** With a positive total the left half gets the right half's part of the variance. */
  lemma AlphaSigns(varLeft: real, varRight: real)
    requires varLeft + varRight > 0.0
    ensures Alpha(varLeft, varRight) >= 0.0 <==> varRight >= 0.0
    ensures Alpha(varLeft, varRight) > 0.0 <==> varRight > 0.0
    ensures Alpha(varLeft, varRight) <= 1.0 <==> varLeft >= 0.0
    ensures Alpha(varLeft, varRight) < 1.0 <==> varLeft > 0.0
  {
    var total := varLeft + varRight;
    Quotient(varLeft, total);
    SignOfProduct(total, varLeft / total);
    SignOfProduct(total, 1.0 - varLeft / total);
  }

  lemma {:induction false} CutsWithinIff(cov: Matrix, order: seq<nat>, lo: nat, hi: nat)
    requires Square(cov) && Items(cov, order) && hi <= |order|
    ensures CutsWithin(Fractions(cov, order), lo, hi) <==> SoundClusters(cov, order, lo, hi)
    decreases hi - lo
  {
    if lo + 1 < hi {
      var mid := Half(lo, hi);
      var left, right := ClusterVariance(cov, order[lo..mid]), ClusterVariance(cov, order[mid..hi]);
      CutsWithinIff(cov, order, lo, mid);
      CutsWithinIff(cov, order, mid, hi);
      assert Fractions(cov, order)(lo, hi) == Alpha(left, right);
      if left + right > 0.0 {
        AlphaSigns(left, right);
      }
    }
  }

  /** No weight is negative if and only if the clusters that weight reaches are sound. */
  lemma WeightsNonNegativeIff(cov: Matrix, order: seq<nat>)
    requires Square(cov) && |cov| > 0 && Permutation(order, |cov|)
    ensures GoalsLongOnly(Fractions(cov, order), |cov|) <==> SoundClusters(cov, order, 0, |cov|)
  {
    GoalsLongOnlyIff(Fractions(cov, order), |cov|);
    CutsWithinIff(cov, order, 0, |cov|);
  }

  /** No run of leaves has a portfolio of negative variance. */
  ghost predicate NonNegativeClusters(cov: Matrix, order: seq<nat>)
    requires Square(cov) && Items(cov, order)
  {
    forall l, h :: 0 <= l < h <= |order| ==> ClusterVariance(cov, order[l..h]) >= 0.0
  }

  lemma {:induction false} NonNegativeIsSound(cov: Matrix, order: seq<nat>, lo: nat, hi: nat)
    requires Square(cov) && Items(cov, order) && hi <= |order| && NonNegativeClusters(cov, order)
    ensures SoundClusters(cov, order, lo, hi)
    decreases hi - lo
  {
    if lo + 1 < hi {
      NonNegativeIsSound(cov, order, lo, Half(lo, hi));
      NonNegativeIsSound(cov, order, Half(lo, hi), hi);
    }
  }

  lemma SemidefiniteClusters(cov: Matrix, order: seq<nat>)
    requires Square(cov) && Items(cov, order) && Semidefinite(cov)
    ensures NonNegativeClusters(cov, order)
  {
  }

  /** With no negative cluster variance, as with every positive semidefinite covariance, no weight is negative. */
  lemma WeightsNonNegative(cov: Matrix, order: seq<nat>, k: nat)
    requires Square(cov) && Permutation(order, |cov|) && k < |cov|
    requires NonNegativeClusters(cov, order) || Semidefinite(cov)
    ensures Goal(Fractions(cov, order), |cov|, k) >= 0.0
  {
    if Semidefinite(cov) {
      SemidefiniteClusters(cov, order);
    }
    NonNegativeIsSound(cov, order, 0, |cov|);
    WeightsNonNegativeIff(cov, order);
  }

  /** A single name's cluster variance is its own. */
  lemma OneName(cov: Matrix, i: nat)
    requires Square(cov) && i < |cov|
    ensures ClusterVariance(cov, [i]) == cov[i][i]
  {
    var inverse := InverseDiagonal(cov, [i]);
    var x := Portfolio(cov, [i]);
    assert Sum(inverse) == SumTo(inverse, 0) + inverse[0];
    assert x[0] == 1.0;
    assert QuadRow(cov, [i], x, 0, 1) == QuadRow(cov, [i], x, 0, 0) + x[0] * cov[i][i] * x[0];
    assert Quad(cov, [i], x, 1) == Quad(cov, [i], x, 0) + QuadRow(cov, [i], x, 0, 1);
  }

  lemma HalfRow(cov: Matrix, items: seq<nat>, x: seq<real>, a: nat)
    requires Square(cov) && |items| == |x| == 2 && Items(cov, items) && a < 2 && x[0] == x[1] == 0.5
    ensures QuadRow(cov, items, x, a, 2) == (cov[items[a]][items[0]] + cov[items[a]][items[1]]) / 4.0
  {
    assert QuadRow(cov, items, x, a, 1) == QuadRow(cov, items, x, a, 0) + x[a] * cov[items[a]][items[0]] * x[0];
    assert QuadRow(cov, items, x, a, 2) == QuadRow(cov, items, x, a, 1) + x[a] * cov[items[a]][items[1]] * x[1];
  }

  /** Two names of unit variance are weighted equally. */
  lemma TwoUnitNames(cov: Matrix, i: nat, j: nat)
    requires Square(cov) && i < |cov| && j < |cov| && cov[i][i] == cov[j][j] == 1.0
    ensures ClusterVariance(cov, [i, j]) == (2.0 + cov[i][j] + cov[j][i]) / 4.0
  {
    var items := [i, j];
    var inverse := InverseDiagonal(cov, items);
    var x := Portfolio(cov, items);
    assert Sum(inverse) == SumTo(inverse, 1) + inverse[1] && SumTo(inverse, 1) == SumTo(inverse, 0) + inverse[0];
    assert inverse[0] == 1.0 && inverse[1] == 1.0;
    assert x[0] == 0.5 && x[1] == 0.5;
    HalfRow(cov, items, x, 0);
    HalfRow(cov, items, x, 1);
    assert Quad(cov, items, x, 2)
      == Quad(cov, items, x, 0) + QuadRow(cov, items, x, 0, 2) + QuadRow(cov, items, x, 1, 2);
  }

  // ---- the cluster's variance as a double sum ----

  /** cov times x, at name a. */
  ghost function Products(cov: Matrix, items: seq<nat>, x: seq<real>, a: nat): (r: seq<real>)
    requires Square(cov) && |items| == |x| && a < |items| && Items(cov, items)
    ensures |r| == |items| && forall b :: 0 <= b < |items| ==> r[b] == Prod(cov[items[a]][items[b]], x[b])
  {
    seq(|items|, b requires 0 <= b < |items| => Prod(cov[items[a]][items[b]], x[b]))
  }

  /** The terms x(a) times cov times x at a. */
  ghost function QuadTerms(cov: Matrix, items: seq<nat>, x: seq<real>): (r: seq<real>)
    requires Square(cov) && |items| == |x| && Items(cov, items)
    ensures |r| == |items| && forall a :: 0 <= a < |items| ==> r[a] == Prod(x[a], Sum(Products(cov, items, x, a)))
  {
    seq(|items|, a requires 0 <= a < |items| => Prod(x[a], Sum(Products(cov, items, x, a))))
  }

  lemma {:induction false} RowIsSum(cov: Matrix, items: seq<nat>, x: seq<real>, a: nat, n: nat)
    requires Square(cov) && |items| == |x| && a < |items| && n <= |items| && Items(cov, items)
    ensures QuadRow(cov, items, x, a, n) == Prod(x[a], SumTo(Products(cov, items, x, a), n))
  {
    if n > 0 {
      RowIsSum(cov, items, x, a, n - 1);
      var before, last := SumTo(Products(cov, items, x, a), n - 1), Prod(cov[items[a]][items[n - 1]], x[n - 1]);
      assert x[a] * (before + last) == x[a] * before + x[a] * last;
    }
  }

  lemma {:induction false} QuadIsSum(cov: Matrix, items: seq<nat>, x: seq<real>, n: nat)
    requires Square(cov) && |items| == |x| && n <= |items| && Items(cov, items)
    ensures Quad(cov, items, x, n) == SumTo(QuadTerms(cov, items, x), n)
  {
    if n > 0 {
      QuadIsSum(cov, items, x, n - 1);
      RowIsSum(cov, items, x, n - 1, |items|);
    }
  }

  /** A cluster's variance is that of its inverse-variance portfolio x: the sum of x(a) cov(a, b) x(b). */
  lemma ClusterVarianceIs(cov: Matrix, items: seq<nat>)
    requires Square(cov) && Items(cov, items)
    ensures var x := Portfolio(cov, items); ClusterVariance(cov, items) == Sum(QuadTerms(cov, items, x))
  {
    QuadIsSum(cov, items, Portfolio(cov, items), |items|);
  }

  // ---- uncorrelated names ----

  ghost predicate Diagonal(cov: Matrix)
    requires Square(cov)
  {
    forall i, j :: 0 <= i < |cov| && 0 <= j < |cov| ==> if i == j then cov[i][j] > 0.0 else cov[i][j] == 0.0
  }

  ghost predicate Distinct(items: seq<nat>) {
    forall k, l :: 0 <= k < l < |items| ==> items[k] != items[l]
  }

  /** One over each name's own variance. */
  ghost function Precisions(cov: Matrix, items: seq<nat>): (r: seq<real>)
    requires Square(cov) && Items(cov, items) && Diagonal(cov)
    ensures |r| == |items| && forall k :: 0 <= k < |r| ==> r[k] == 1.0 / cov[items[k]][items[k]]
  {
    seq(|items|, k requires 0 <= k < |items| => 1.0 / cov[items[k]][items[k]])
  }

  lemma {:induction false} DiagonalRow(cov: Matrix, items: seq<nat>, x: seq<real>, a: nat, n: nat)
    requires Square(cov) && |items| == |x| && a < |items| && n <= |items| && Items(cov, items)
    requires Diagonal(cov) && Distinct(items)
    ensures QuadRow(cov, items, x, a, n) == if a < n then Prod(Prod(x[a], cov[items[a]][items[a]]), x[a]) else 0.0
  {
    if n > 0 {
      DiagonalRow(cov, items, x, a, n - 1);
    }
  }

  lemma {:induction false} DiagonalQuad(cov: Matrix, items: seq<nat>, x: seq<real>, risk: real, n: nat)
    requires Square(cov) && |items| == |x| && n <= |items| && Items(cov, items)
    requires Diagonal(cov) && Distinct(items)
    requires forall a :: 0 <= a < |items| ==> Prod(x[a], cov[items[a]][items[a]]) == risk
    ensures Quad(cov, items, x, n) == Prod(risk, SumTo(x, n))
  {
    if n > 0 {
      DiagonalQuad(cov, items, x, risk, n - 1);
      DiagonalRow(cov, items, x, n - 1, |items|);
      assert risk * (SumTo(x, n - 1) + x[n - 1]) == risk * SumTo(x, n - 1) + risk * x[n - 1];
    }
  }

  /** The variance of a cluster of uncorrelated names is one over the sum of their precisions. */
  lemma DiagonalCluster(cov: Matrix, items: seq<nat>)
    requires Square(cov) && Items(cov, items) && |items| > 0 && Diagonal(cov) && Distinct(items)
    ensures Sum(Precisions(cov, items)) > 0.0
    ensures Prod(ClusterVariance(cov, items), Sum(Precisions(cov, items))) == 1.0
  {
    var r, x := InverseDiagonal(cov, items), Portfolio(cov, items);
    assert r == Precisions(cov, items);
    forall a | 0 <= a < |items| ensures Prod(x[a], cov[items[a]][items[a]]) == 1.0 / Sum(r) {
      ShareOfInverse(cov[items[a]][items[a]], Sum(r));
    }
    PortfolioEqualisesVariance(cov, items);
    DiagonalQuad(cov, items, x, 1.0 / Sum(r), |items|);
    Quotient(1.0, Sum(r));
  }

  lemma PositiveFactor(x: real, y: real)
    requires y > 0.0 && Prod(x, y) == 1.0
    ensures x > 0.0
  {
    if x <= 0.0 {
      ProductNonNegative(-x, y);
    }
  }

  lemma LinearSplit(varLeft: real, varRight: real, left: real, right: real, q: real)
    requires varLeft > 0.0 && varRight > 0.0 && left > 0.0 && right > 0.0
    requires Prod(varLeft, left) == 1.0 && Prod(varRight, right) == 1.0 && q * (varLeft + varRight) == varLeft
    ensures Prod(1.0 - q, left + right) == left && Prod(q, left + right) == right
  {
    ProductPositive(left, right, left * right);
    assert (varLeft + varRight) * (left * right) == (varLeft * left) * right + (varRight * right) * left;
    assert q * (left + right) == (q * (varLeft + varRight)) * (left * right) by {
      assert q * (left + right) == q * ((varLeft + varRight) * (left * right));
    }
    assert varLeft * (left * right) == (varLeft * left) * right;
  }

  /** A half's part of the precision is its part of the share. */
  lemma PrecisionSplit(varLeft: real, varRight: real, left: real, right: real)
    requires left > 0.0 && right > 0.0 && Prod(varLeft, left) == 1.0 && Prod(varRight, right) == 1.0
    ensures Prod(Alpha(varLeft, varRight), left + right) == left
    ensures Prod(1.0 - Alpha(varLeft, varRight), left + right) == right
  {
    PositiveFactor(varLeft, left);
    PositiveFactor(varRight, right);
    var total := varLeft + varRight;
    var q := varLeft / total;
    Quotient(varLeft, total);
    LinearSplit(varLeft, varRight, left, right, q);
  }

  /** The total precision of a run of leaves. */
  ghost function PrecisionOf(cov: Matrix, order: seq<nat>, lo: nat, hi: nat): real
    requires Square(cov) && Items(cov, order) && Diagonal(cov) && lo <= hi <= |order|
  {
    Sum(Precisions(cov, order[lo..hi]))
  }

  lemma PrecisionsJoin(cov: Matrix, order: seq<nat>, lo: nat, mid: nat, hi: nat)
    requires Square(cov) && Items(cov, order) && Diagonal(cov) && lo <= mid <= hi <= |order|
    ensures PrecisionOf(cov, order, lo, hi) == PrecisionOf(cov, order, lo, mid) + PrecisionOf(cov, order, mid, hi)
  {
    SumConcat(Precisions(cov, order[lo..mid]), Precisions(cov, order[mid..hi]));
    assert Precisions(cov, order[lo..hi]) == Precisions(cov, order[lo..mid]) + Precisions(cov, order[mid..hi]);
  }

  lemma DiagonalRun(cov: Matrix, order: seq<nat>, lo: nat, hi: nat)
    requires Square(cov) && Permutation(order, |cov|) && Diagonal(cov) && lo < hi <= |order|
    ensures PrecisionOf(cov, order, lo, hi) > 0.0
    ensures Prod(ClusterVariance(cov, order[lo..hi]), PrecisionOf(cov, order, lo, hi)) == 1.0
  {
    DiagonalCluster(cov, order[lo..hi]);
  }

  ghost function PrecisionMass(cov: Matrix, order: seq<nat>): (mass: (nat, nat) -> real)
    requires Square(cov) && Items(cov, order) && Diagonal(cov)
    ensures forall lo: nat, hi: nat :: lo <= hi <= |order| ==> mass(lo, hi) == PrecisionOf(cov, order, lo, hi)
  {
    (lo: nat, hi: nat) => if lo <= hi <= |order| then PrecisionOf(cov, order, lo, hi) else 0.0
  }

  lemma CutFromParts(frac: Fraction, mass: (nat, nat) -> real, lo: nat, hi: nat, varLeft: real, varRight: real)
    requires lo + 2 <= hi && frac(lo, hi) == Alpha(varLeft, varRight)
    requires var mid := Half(lo, hi);
      && mass(lo, mid) > 0.0 && mass(mid, hi) > 0.0 && mass(lo, hi) == mass(lo, mid) + mass(mid, hi)
      && Prod(varLeft, mass(lo, mid)) == 1.0 && Prod(varRight, mass(mid, hi)) == 1.0
    ensures CutByMass(frac, mass, lo, hi)
  {
    PrecisionSplit(varLeft, varRight, mass(lo, Half(lo, hi)), mass(Half(lo, hi), hi));
  }

  /** A cluster is cut where its precision is. */
  lemma DiagonalCut(cov: Matrix, order: seq<nat>, lo: nat, hi: nat)
    requires Square(cov) && Permutation(order, |cov|) && Diagonal(cov) && lo + 2 <= hi <= |order|
    ensures CutByMass(Fractions(cov, order), PrecisionMass(cov, order), lo, hi)
  {
    var mid := Half(lo, hi);
    DiagonalRun(cov, order, lo, mid);
    DiagonalRun(cov, order, mid, hi);
    PrecisionsJoin(cov, order, lo, mid, hi);
    CutFromParts(Fractions(cov, order), PrecisionMass(cov, order), lo, hi,
      ClusterVariance(cov, order[lo..mid]), ClusterVariance(cov, order[mid..hi]));
  }

  lemma OnePrecision(cov: Matrix, order: seq<nat>, k: nat)
    requires Square(cov) && Items(cov, order) && Diagonal(cov) && k < |order|
    ensures PrecisionOf(cov, order, k, k + 1) == 1.0 / cov[order[k]][order[k]]
  {
    var r := Precisions(cov, order[k..k + 1]);
    assert Sum(r) == SumTo(r, 0) + r[0];
  }

  /** On uncorrelated names, whatever the leaf order, risk parity is inverse-variance weighting of all of them. */
  lemma DiagonalIsInverseVariance(cov: Matrix, order: seq<nat>, k: nat)
    requires Square(cov) && Permutation(order, |cov|) && Diagonal(cov) && k < |cov|
    ensures Prod(Goal(Fractions(cov, order), |cov|, k), Sum(Precisions(cov, order))) == 1.0 / cov[order[k]][order[k]]
  {
    forall lo: nat, hi: nat | lo + 2 <= hi <= |order|
      ensures CutByMass(Fractions(cov, order), PrecisionMass(cov, order), lo, hi)
    {
      DiagonalCut(cov, order, lo, hi);
    }
    SharesByMass(Fractions(cov, order), PrecisionMass(cov, order), 0, |cov|, 1.0, k);
    OnePrecision(cov, order, k);
    assert order[0..|order|] == order;
  }

  // ---- inputs at the edge ----

  /** An indefinite matrix whose clusters are nevertheless sound. */
  function Indefinite(): (cov: Matrix)
    ensures Square(cov)
  {
    [[1.0, 2.0], [2.0, 1.0]]
  }

  lemma IndefiniteCanBeLongOnly()
    ensures !Semidefinite(Indefinite()) && SoundClusters(Indefinite(), [0, 1], 0, 2)
  {
    var cov, items, x := Indefinite(), [0, 1], [1.0, -1.0];
    assert QuadRow(cov, items, x, 0, 2) == QuadRow(cov, items, x, 0, 0) + 1.0 - 2.0;
    assert QuadRow(cov, items, x, 1, 2) == QuadRow(cov, items, x, 1, 0) - 2.0 + 1.0;
    assert Quad(cov, items, x, 2)
      == Quad(cov, items, x, 0) + QuadRow(cov, items, x, 0, 2) + QuadRow(cov, items, x, 1, 2);
    OneName(cov, 0);
    OneName(cov, 1);
    assert items[0..1] == [0] && items[1..2] == [1];
  }

  /** Three names of unit variance, any two of which have a negative joint variance. */
  function Overhedged(): (cov: Matrix)
    ensures Square(cov)
  {
    [[1.0, -2.0, -2.0], [-2.0, 1.0, -2.0], [-2.0, -2.0, 1.0]]
  }

  /** Whatever the leaf order, the weight of its first name is -1. */
  lemma WeightsCanBeNegative(order: seq<nat>)
    requires Permutation(order, 3)
    ensures Goal(Fractions(Overhedged(), order), 3, 0) == -1.0
    ensures !SoundClusters(Overhedged(), order, 0, 3)
  {
    var cov := Overhedged();
    OneName(cov, order[0]);
    TwoUnitNames(cov, order[1], order[2]);
    assert order[0..1] == [order[0]] && order[1..3] == [order[1], order[2]];
    var frac := Fractions(cov, order);
    assert frac(0, 3) == Alpha(1.0, -0.5) == -1.0;
    assert Share(frac, 0, 1, LeftPart(1.0, frac(0, 3)), 0) == LeftPart(1.0, frac(0, 3));
  }
}
