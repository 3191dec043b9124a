/** Weighted Pool-Adjacent-Violators (src/quant/research/models/calibration.py, `_pava`). */
module Pava {
  import opened Sums

  // ---- running totals, and quantities over an index range lo .. hi-1 ----

  ghost function CumWeight(w: seq<real>, n: nat): real
    requires n <= |w|
  {
    if n == 0 then 0.0 else CumWeight(w, n - 1) + w[n - 1]
  }

  ghost function CumValue(y: seq<real>, w: seq<real>, n: nat): real
    requires n <= |y| == |w|
  {
    if n == 0 then 0.0 else CumValue(y, w, n - 1) + w[n - 1] * y[n - 1]
  }

  ghost function WeightIn(w: seq<real>, lo: nat, hi: nat): real
    requires lo <= hi <= |w|
  {
    CumWeight(w, hi) - CumWeight(w, lo)
  }

  ghost function ValueIn(y: seq<real>, w: seq<real>, lo: nat, hi: nat): real
    requires lo <= hi <= |y| == |w|
  {
    CumValue(y, w, hi) - CumValue(y, w, lo)
  }

  /** A weighted total over what its weight at one level would be. */
  function Excess(value: real, weight: real, m: real): real {
    value - m * weight
  }

  /** Weighted residual of the values against one level m. */
  ghost function Residual(y: seq<real>, w: seq<real>, m: real, lo: nat, hi: nat): real
    requires lo <= hi <= |y| == |w|
  {
    Excess(ValueIn(y, w, lo, hi), WeightIn(w, lo, hi), m)
  }

  /** Weighted squared error of a fit over the first n points. */
  ghost function Sse(y: seq<real>, w: seq<real>, f: seq<real>, n: nat): real
    requires n <= |y| == |w| && n <= |f|
  {
    if n == 0 then 0.0 else Sse(y, w, f, n - 1) + w[n - 1] * ((y[n - 1] - f[n - 1]) * (y[n - 1] - f[n - 1]))
  }

  ghost predicate NonNegative(w: seq<real>) {
    forall i :: 0 <= i < |w| ==> w[i] >= 0.0
  }

  ghost predicate NonDecreasing(f: seq<real>) {
    forall i, j :: 0 <= i < j < |f| ==> f[i] <= f[j]
  }

  lemma {:induction false} WeightGrows(w: seq<real>, lo: nat, hi: nat)
    requires lo <= hi <= |w| && NonNegative(w)
    ensures WeightIn(w, lo, hi) >= 0.0
  {
    if lo < hi {
      WeightGrows(w, lo, hi - 1);
    }
  }

  // ---- what a pooled block guarantees ----

  /** m is the weighted mean of the block, and no prefix of the block averages below it. */
  ghost predicate Pooled(y: seq<real>, w: seq<real>, m: real, lo: nat, hi: nat)
    requires lo <= hi <= |y| == |w|
  {
    && Residual(y, w, m, lo, hi) == 0.0
    && forall k :: lo <= k <= hi ==> Residual(y, w, m, lo, k) >= 0.0
  }

  /** The pooled level of two blocks, as the sweep computes it. */
  function PooledMean(a: real, wa: real, b: real, wb: real): real {
    if wa + wb > 0.0 then (a * wa + b * wb) / (wa + wb) else a
  }

  /** What moving two blocks to one level takes from one and gives to the other. */
  function Balance(a: real, wa: real, b: real, wb: real, m: real): real {
    (a - m) * wa + (b - m) * wb
  }

  lemma PooledMeanBalances(a: real, wa: real, b: real, wb: real)
    requires wa >= 0.0 && wb >= 0.0 && b <= a
    ensures var m := PooledMean(a, wa, b, wb); b <= m <= a && Balance(a, wa, b, wb, m) == 0.0
  {
    var m, t := PooledMean(a, wa, b, wb), wa + wb;
    if t > 0.0 {
      Quotient(a * wa + b * wb, t);
      assert (a - m) * t == (a - b) * wb;
      assert (m - b) * t == (a - b) * wa;
      ProductNonNegative(a - b, wb);
      ProductNonNegative(a - b, wa);
      FactorNonNegative(a - m, t);
      FactorNonNegative(m - b, t);
      assert (a - m) * wa + (b - m) * wb == a * wa + b * wb - m * t;
    }
  }

  lemma LowerLevel(value: real, weight: real, a: real, m: real)
    ensures Excess(value, weight, m) == Excess(value, weight, a) + Prod(a - m, weight)
  {
  }

  /** Arithmetic of a prefix that ends in the left block: a lower level leaves a larger residual. */
  lemma LeftPrefix(value: real, weight: real, a: real, m: real)
    requires Excess(value, weight, a) >= 0.0 && weight >= 0.0 && m <= a
    ensures Excess(value, weight, m) >= 0.0
  {
    assert Prod(a - m, weight) >= 0.0 by {
      ProductNonNegative(a - m, weight);
    }
    LowerLevel(value, weight, a, m);
  }

  lemma RightIdentity(va: real, wa: real, vk: real, wk: real, wb: real, a: real, b: real, m: real)
    ensures Excess(va + vk, wa + wk, m)
         == Excess(va, wa, a) + Excess(vk, wk, b) + Balance(a, wa, b, wb, m) + Prod(m - b, wb - wk)
  {
  }

  /** Arithmetic of a prefix that ends in the right block. */
  lemma RightPrefix(va: real, wa: real, vk: real, wk: real, wb: real, a: real, b: real, m: real)
    requires Excess(va, wa, a) == 0.0 && Excess(vk, wk, b) >= 0.0 && wk <= wb && b <= m
    requires Balance(a, wa, b, wb, m) == 0.0
    ensures Excess(va + vk, wa + wk, m) >= 0.0
    ensures wk == wb && Excess(vk, wk, b) == 0.0 ==> Excess(va + vk, wa + wk, m) == 0.0
  {
    assert Prod(m - b, wb - wk) >= 0.0 by {
      ProductNonNegative(m - b, wb - wk);
    }
    RightIdentity(va, wa, vk, wk, wb, a, b, m);
  }

  lemma PoolingLeft(y: seq<real>, w: seq<real>, a: real, m: real, lo: nat, k: nat)
    requires lo <= k <= |y| == |w| && NonNegative(w) && m <= a && Residual(y, w, a, lo, k) >= 0.0
    ensures Residual(y, w, m, lo, k) >= 0.0
  {
    WeightGrows(w, lo, k);
    LeftPrefix(ValueIn(y, w, lo, k), WeightIn(w, lo, k), a, m);
  }

  lemma PoolingRight(y: seq<real>, w: seq<real>, a: real, b: real, m: real, lo: nat, mid: nat, k: nat, hi: nat)
    requires lo <= mid <= k <= hi <= |y| == |w| && NonNegative(w) && b <= m
    requires Residual(y, w, a, lo, mid) == 0.0 && Residual(y, w, b, mid, k) >= 0.0 && Residual(y, w, b, mid, hi) == 0.0
    requires Balance(a, WeightIn(w, lo, mid), b, WeightIn(w, mid, hi), m) == 0.0
    ensures Residual(y, w, m, lo, k) >= 0.0
    ensures k == hi ==> Residual(y, w, m, lo, k) == 0.0
  {
    WeightGrows(w, k, hi);
    var wa, wk, va, vk := WeightIn(w, lo, mid), WeightIn(w, mid, k), ValueIn(y, w, lo, mid), ValueIn(y, w, mid, k);
    RightPrefix(va, wa, vk, wk, WeightIn(w, mid, hi), a, b, m);
    assert ValueIn(y, w, lo, k) == va + vk && WeightIn(w, lo, k) == wa + wk;
  }

  /** The heart of the sweep: merging two pooled blocks at their joint mean gives a pooled block. */
  lemma PoolingKeepsPooled(y: seq<real>, w: seq<real>, a: real, b: real, lo: nat, mid: nat, hi: nat)
    requires lo <= mid <= hi <= |y| == |w| && NonNegative(w) && b <= a
    requires Pooled(y, w, a, lo, mid) && Pooled(y, w, b, mid, hi)
    ensures Pooled(y, w, PooledMean(a, WeightIn(w, lo, mid), b, WeightIn(w, mid, hi)), lo, hi)
  {
    var m := PooledMean(a, WeightIn(w, lo, mid), b, WeightIn(w, mid, hi));
    WeightGrows(w, lo, mid);
    WeightGrows(w, mid, hi);
    PooledMeanBalances(a, WeightIn(w, lo, mid), b, WeightIn(w, mid, hi));
    forall k | lo <= k <= hi ensures Residual(y, w, m, lo, k) >= 0.0 && (k == hi ==> Residual(y, w, m, lo, k) == 0.0) {
      if k < mid {
        assert Residual(y, w, a, lo, k) >= 0.0;
        PoolingLeft(y, w, a, m, lo, k);
      } else {
        assert Residual(y, w, b, mid, k) >= 0.0;
        PoolingRight(y, w, a, b, m, lo, mid, k, hi);
      }
    }
  }

  // ---- why pooled blocks are optimal ----

  /** What one point contributes to g's error over f's, beyond the squared distance between them. */
  ghost function Gap(y: real, w: real, f: real, g: real): real {
    -2.0 * ((w * (y - f)) * (g - f))
  }

  ghost function Gaps(y: seq<real>, w: seq<real>, f: seq<real>, g: seq<real>): (r: seq<real>)
    requires |y| == |w| == |f| == |g|
    ensures |r| == |y| && forall i :: 0 <= i < |r| ==> r[i] == Gap(y[i], w[i], f[i], g[i])
  {
    seq(|y|, i requires 0 <= i < |y| => Gap(y[i], w[i], f[i], g[i]))
  }

  /** One point's error against z, written around the level m. */
  lemma Expansion(w: real, y: real, m: real, z: real)
    ensures w * ((y - z) * (y - z))
      == w * ((y - m) * (y - m)) + w * ((m - z) * (m - z)) - 2.0 * ((w * (y - m)) * (z - m))
  {
    assert (y - z) * (y - z) == (y - m) * (y - m) + (m - z) * (m - z) - 2.0 * ((y - m) * (z - m));
  }

  lemma {:induction false} GapsMeaning(y: seq<real>, w: seq<real>, f: seq<real>, g: seq<real>, n: nat)
    requires n <= |y| == |w| == |f| == |g|
    ensures Sse(y, w, g, n) == Sse(y, w, f, n) + Sse(f, w, g, n) + SumTo(Gaps(y, w, f, g), n)
  {
    if n > 0 {
      GapsMeaning(y, w, f, g, n - 1);
      Expansion(w[n - 1], y[n - 1], f[n - 1], g[n - 1]);
    }
  }

  // A block as plain sequences: what each point adds to the residual, and how far g is above the level.

  /** How hard one point pushes its level up from m. */
  ghost function Push(y: real, w: real, m: real): real {
    w * (y - m)
  }

  ghost function Pushes(y: seq<real>, w: seq<real>, m: real, lo: nat, hi: nat): (c: seq<real>)
    requires lo <= hi <= |y| == |w|
    ensures |c| == hi - lo && forall i :: 0 <= i < |c| ==> c[i] == Push(y[lo + i], w[lo + i], m)
  {
    seq(hi - lo, i requires 0 <= i < hi - lo => Push(y[lo + i], w[lo + i], m))
  }

  ghost function Rises(g: seq<real>, m: real, lo: nat, hi: nat): (z: seq<real>)
    requires lo <= hi <= |g|
    ensures |z| == hi - lo && forall i :: 0 <= i < |z| ==> z[i] == g[lo + i] - m
  {
    seq(hi - lo, i requires 0 <= i < hi - lo => g[lo + i] - m)
  }

  lemma AbelStep(before: real, c: real, z: real, z': real)
    requires before >= 0.0 && z' <= z
    ensures before * z' + c * z <= (before + c) * z
  {
    ProductNonNegative(before, z - z');
    assert (before + c) * z == before * (z - z') + before * z' + c * z;
  }

  /** Abel's bound: partial sums that stay non-negative hold the weighted sum of a rising sequence down. */
  lemma {:induction false} AbelBound(c: seq<real>, z: seq<real>, n: nat)
    requires 0 < n <= |c| == |z| && NonDecreasing(z)
    requires forall k :: 0 <= k <= n ==> SumTo(c, k) >= 0.0
    ensures SumTo(Times(c, z), n) <= SumTo(c, n) * z[n - 1]
  {
    if n > 1 {
      AbelBound(c, z, n - 1);
      AbelStep(SumTo(c, n - 1), c[n - 1], z[n - 1], z[n - 2]);
    } else {
      assert SumTo(c, 1) == c[0];
    }
  }

  lemma NextResidual(y: seq<real>, w: seq<real>, m: real, lo: nat, hi: nat)
    requires lo < hi <= |y| == |w|
    ensures Residual(y, w, m, lo, hi) == Residual(y, w, m, lo, hi - 1) + Push(y[hi - 1], w[hi - 1], m)
  {
  }

  lemma {:induction false} PushesAddUp(y: seq<real>, w: seq<real>, m: real, lo: nat, hi: nat, n: nat)
    requires lo + n <= hi <= |y| == |w|
    ensures SumTo(Pushes(y, w, m, lo, hi), n) == Residual(y, w, m, lo, lo + n)
  {
    if n > 0 {
      PushesAddUp(y, w, m, lo, hi, n - 1);
      NextResidual(y, w, m, lo, lo + n);
    }
  }

  lemma {:induction false} SumOfBlock(gaps: seq<real>, p: seq<real>, lo: nat, n: nat)
    requires lo + n <= |gaps| && n <= |p|
    requires forall i :: 0 <= i < n ==> gaps[lo + i] == -2.0 * p[i]
    ensures SumTo(gaps, lo + n) == SumTo(gaps, lo) - 2.0 * SumTo(p, n)
  {
    if n > 0 {
      SumOfBlock(gaps, p, lo, n - 1);
    }
  }

  // ---- the stack of blocks ----

  /** Blocks (mean, weight, count) cover points 0 .. n-1, are pooled, and have strictly rising means. */
  ghost predicate Stack(mean: seq<real>, weight: seq<real>, count: seq<nat>, y: seq<real>, w: seq<real>, n: nat)
    requires n <= |y| == |w|
    decreases |mean|
  {
    && |mean| == |weight| == |count|
    && if |mean| == 0 then n == 0
       else
         var top := |mean| - 1;
         && 1 <= count[top] <= n
         && weight[top] == WeightIn(w, n - count[top], n)
         && Pooled(y, w, mean[top], n - count[top], n)
         && (top > 0 ==> mean[top - 1] < mean[top])
         && Stack(mean[..top], weight[..top], count[..top], y, w, n - count[top])
  }

  /** Every point's fitted value: its block's mean. */
  function Expand(mean: seq<real>, count: seq<nat>): (f: seq<real>)
    requires |mean| == |count|
  {
    if |mean| == 0 then []
    else
      var top := |mean| - 1;
      Expand(mean[..top], count[..top]) + seq(count[top], _ => mean[top])
  }

  lemma {:induction false} StackExpands(mean: seq<real>, weight: seq<real>, count: seq<nat>, y: seq<real>,
                                        w: seq<real>, n: nat)
    requires n <= |y| == |w| && Stack(mean, weight, count, y, w, n)
    ensures |Expand(mean, count)| == n && NonDecreasing(Expand(mean, count))
    ensures |mean| > 0 ==> n > 0 && Expand(mean, count)[n - 1] == mean[|mean| - 1]
    decreases |mean|
  {
    if |mean| > 0 {
      var top := |mean| - 1;
      StackExpands(mean[..top], weight[..top], count[..top], y, w, n - count[top]);
    }
  }

  /** g has more weighted squared error than f, by at least its weighted squared distance to f. */
  ghost predicate NotBetter(y: seq<real>, w: seq<real>, f: seq<real>, g: seq<real>)
    requires |y| == |w| == |f| == |g|
  {
    Sse(y, w, g, |y|) >= Sse(y, w, f, |y|) + Sse(f, w, g, |y|)
  }

  lemma NotBetterIsGaps(y: seq<real>, w: seq<real>, f: seq<real>, g: seq<real>)
    requires |y| == |w| == |f| == |g|
    ensures NotBetter(y, w, f, g) <==> Sum(Gaps(y, w, f, g)) >= 0.0
  {
    GapsMeaning(y, w, f, g, |y|);
  }

  ghost predicate Optimal(y: seq<real>, w: seq<real>, f: seq<real>)
    requires |y| == |w| == |f|
  {
    forall g: seq<real> :: |g| == |y| && NonDecreasing(g) ==> NotBetter(y, w, f, g)
  }

  lemma ExpandTop(mean: seq<real>, count: seq<nat>, lo: nat)
    requires |mean| == |count| > 0 && |Expand(mean[..|mean| - 1], count[..|mean| - 1])| == lo
    ensures var top := |mean| - 1; var f := Expand(mean, count);
      && |f| == lo + count[top]
      && (forall i :: 0 <= i < lo ==> f[i] == Expand(mean[..top], count[..top])[i])
      && forall i :: lo <= i < |f| ==> f[i] == mean[top]
  {
  }

  lemma PooledPushes(y: seq<real>, w: seq<real>, m: real, g: seq<real>, lo: nat, hi: nat)
    requires lo < hi <= |y| == |w| && hi <= |g| && NonDecreasing(g) && Pooled(y, w, m, lo, hi)
    ensures SumTo(Times(Pushes(y, w, m, lo, hi), Rises(g, m, lo, hi)), hi - lo) <= 0.0
  {
    var c, z := Pushes(y, w, m, lo, hi), Rises(g, m, lo, hi);
    forall k | 0 <= k <= hi - lo ensures SumTo(c, k) >= 0.0 && (k == hi - lo ==> SumTo(c, k) == 0.0) {
      PushesAddUp(y, w, m, lo, hi, k);
    }
    AbelBound(c, z, hi - lo);
  }

  lemma BlockGap(y: seq<real>, w: seq<real>, m: real, f: seq<real>, g: seq<real>, lo: nat, hi: nat, i: nat)
    requires lo + i < hi <= |y| == |w| == |f| == |g| && f[lo + i] == m
    ensures Gaps(y, w, f, g)[lo + i] == -2.0 * Times(Pushes(y, w, m, lo, hi), Rises(g, m, lo, hi))[i]
  {
  }

  /** A pooled block never makes g better than f. */
  lemma BlockNotWorse(y: seq<real>, w: seq<real>, m: real, f: seq<real>, g: seq<real>, lo: nat, hi: nat)
    requires lo < hi <= |y| == |w| == |f| == |g| && NonDecreasing(g) && Pooled(y, w, m, lo, hi)
    requires forall k :: lo <= k < hi ==> f[k] == m
    ensures SumTo(Gaps(y, w, f, g), hi) >= SumTo(Gaps(y, w, f, g), lo)
  {
    PooledPushes(y, w, m, g, lo, hi);
    var p := Times(Pushes(y, w, m, lo, hi), Rises(g, m, lo, hi));
    var gaps := Gaps(y, w, f, g);
    forall i | 0 <= i < hi - lo ensures gaps[lo + i] == -2.0 * p[i] {
      BlockGap(y, w, m, f, g, lo, hi, i);
    }
    SumOfBlock(gaps, p, lo, hi - lo);
  }

  lemma {:induction false} StackOptimal(mean: seq<real>, weight: seq<real>, count: seq<nat>,
                                        y: seq<real>, w: seq<real>, n: nat, f: seq<real>, g: seq<real>)
    requires n <= |y| == |w| == |f| == |g| && Stack(mean, weight, count, y, w, n) && NonDecreasing(g)
    requires |Expand(mean, count)| == n && forall i :: 0 <= i < n ==> f[i] == Expand(mean, count)[i]
    ensures SumTo(Gaps(y, w, f, g), n) >= 0.0
    decreases |mean|
  {
    if |mean| > 0 {
      var top := |mean| - 1;
      var lo := n - count[top];
      StackExpands(mean[..top], weight[..top], count[..top], y, w, lo);
      ExpandTop(mean, count, lo);
      StackOptimal(mean[..top], weight[..top], count[..top], y, w, lo, f, g);
      BlockNotWorse(y, w, mean[top], f, g, lo, n);
    }
  }

  /** Pooling the top block of the stack into the running block. */
  lemma PopPools(mean: seq<real>, weight: seq<real>, count: seq<nat>, y: seq<real>, w: seq<real>,
                 m: real, total: real, c: nat, n: nat)
    requires n <= |y| == |w| && NonNegative(w) && 1 <= c <= n && |mean| > 0
    requires Stack(mean, weight, count, y, w, n - c)
    requires total == WeightIn(w, n - c, n) && Pooled(y, w, m, n - c, n) && mean[|mean| - 1] >= m
    ensures var top := |mean| - 1;
      && c + count[top] <= n
      && Stack(mean[..top], weight[..top], count[..top], y, w, n - (c + count[top]))
      && weight[top] + total == WeightIn(w, n - (c + count[top]), n)
      && Pooled(y, w, PooledMean(mean[top], weight[top], m, total), n - (c + count[top]), n)
      && m <= PooledMean(mean[top], weight[top], m, total) <= mean[top]
  {
    var top := |mean| - 1;
    var lo, mid := n - c - count[top], n - c;
    WeightGrows(w, lo, mid);
    WeightGrows(w, mid, n);
    PoolingKeepsPooled(y, w, mean[top], m, lo, mid, n);
    PooledMeanBalances(mean[top], weight[top], m, total);
  }

  lemma PushBlock(mean: seq<real>, weight: seq<real>, count: seq<nat>, y: seq<real>, w: seq<real>,
                  m: real, total: real, c: nat, n: nat)
    requires n <= |y| == |w| && 1 <= c <= n
    requires Stack(mean, weight, count, y, w, n - c)
    requires total == WeightIn(w, n - c, n) && Pooled(y, w, m, n - c, n)
    requires |mean| > 0 ==> mean[|mean| - 1] < m
    ensures Stack(mean + [m], weight + [total], count + [c], y, w, n)
  {
    assert (mean + [m])[..|mean|] == mean;
    assert (weight + [total])[..|mean|] == weight;
    assert (count + [c])[..|mean|] == count;
  }

  lemma SinglePoint(y: seq<real>, w: seq<real>, n: nat)
    requires n < |y| == |w|
    ensures w[n] == WeightIn(w, n, n + 1) && Pooled(y, w, y[n], n, n + 1)
  {
    NextResidual(y, w, y[n], n, n + 1);
  }

  lemma StackIsOptimal(mean: seq<real>, weight: seq<real>, count: seq<nat>, y: seq<real>, w: seq<real>)
    requires |y| == |w| && Stack(mean, weight, count, y, w, |y|)
    ensures var f := Expand(mean, count); |f| == |y| && NonDecreasing(f) && Optimal(y, w, f)
  {
    var f := Expand(mean, count);
    StackExpands(mean, weight, count, y, w, |y|);
    forall g: seq<real> | |g| == |y| && NonDecreasing(g) ensures NotBetter(y, w, f, g)
    {
      NotBetterIsGaps(y, w, f, g);
      StackOptimal(mean, weight, count, y, w, |y|, f, g);
    }
  }

  ghost predicate Within(s: seq<real>, low: real, high: real) {
    forall i :: 0 <= i < |s| ==> low <= s[i] <= high
  }

  /** The cascade: pool the new point n with each left block that is not below it, then push the result. */
  method Cascade(values: seq<real>, weights: seq<real>, n: nat, ghost low: real, ghost high: real,
                 means: seq<real>, totals: seq<real>, counts: seq<nat>)
    returns (blockMean: seq<real>, blockWeight: seq<real>, blockCount: seq<nat>)
    requires n < |values| == |weights| && NonNegative(weights) && Within(values, low, high)
    requires Stack(means, totals, counts, values, weights, n) && Within(means, low, high)
    ensures Stack(blockMean, blockWeight, blockCount, values, weights, n + 1) && Within(blockMean, low, high)
  {
    blockMean, blockWeight, blockCount := means, totals, counts;
    var mean, weight, count := values[n], weights[n], 1;
    SinglePoint(values, weights, n);
    while |blockMean| > 0 && blockMean[|blockMean| - 1] >= mean
      invariant 1 <= count <= n + 1
      invariant Stack(blockMean, blockWeight, blockCount, values, weights, n + 1 - count)
      invariant weight == WeightIn(weights, n + 1 - count, n + 1)
      invariant Pooled(values, weights, mean, n + 1 - count, n + 1)
      invariant Within(blockMean, low, high) && low <= mean <= high
      decreases |blockMean|
    {
      PopPools(blockMean, blockWeight, blockCount, values, weights, mean, weight, count, n + 1);
      var top := |blockMean| - 1;
      var prevMean, prevWeight, prevCount := blockMean[top], blockWeight[top], blockCount[top];
      blockMean, blockWeight, blockCount := blockMean[..top], blockWeight[..top], blockCount[..top];
      mean := PooledMean(prevMean, prevWeight, mean, weight);
      weight := prevWeight + weight;
      count := count + prevCount;
    }
    PushBlock(blockMean, blockWeight, blockCount, values, weights, mean, weight, count, n + 1);
    blockMean, blockWeight, blockCount := blockMean + [mean], blockWeight + [weight], blockCount + [count];
  }

  /** Expands the blocks back out, one fitted value per input. */
  method WriteBlocks(mean: seq<real>, count: seq<nat>, ghost low: real, ghost high: real) returns (fitted: seq<real>)
    requires |mean| == |count| && Within(mean, low, high)
    ensures fitted == Expand(mean, count) && Within(fitted, low, high)
  {
    fitted := [];
    for b := 0 to |mean|
      invariant fitted == Expand(mean[..b], count[..b])
      invariant Within(fitted, low, high)
    {
      assert mean[..b + 1][..b] == mean[..b] && count[..b + 1][..b] == count[..b];
      fitted := fitted + seq(count[b], _ => mean[b]);
    }
    assert mean[..|mean|] == mean && count[..|mean|] == count;
  }

  /**
   * The sweep returns the best non-decreasing fit: any other non-decreasing g is worse by at least
   * the weighted squared distance to it, so it is also the only best fit wherever weights are positive.
   */
  method PoolAdjacentViolators(values: seq<real>, weights: seq<real>, ghost low: real, ghost high: real)
    returns (fitted: seq<real>)
    requires |values| == |weights| && NonNegative(weights) && Within(values, low, high)
    ensures |fitted| == |values| && NonDecreasing(fitted) && Within(fitted, low, high)
    ensures Optimal(values, weights, fitted)
  {
    var blockMean: seq<real>, blockWeight: seq<real>, blockCount: seq<nat> := [], [], [];
    for n := 0 to |values|
      invariant Stack(blockMean, blockWeight, blockCount, values, weights, n)
      invariant Within(blockMean, low, high)
    {
      blockMean, blockWeight, blockCount := Cascade(values, weights, n, low, high, blockMean, blockWeight, blockCount);
    }
    StackIsOptimal(blockMean, blockWeight, blockCount, values, weights);
    fitted := WriteBlocks(blockMean, blockCount, low, high);
  }
}
