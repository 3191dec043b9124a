/** Isotonic calibration on top of the sweep (src/quant/research/models/calibration.py). */
module Calibration {
  import opened Wrappers
  import opened Sums
  import opened Ordering
  import opened Pava

  datatype CalibrationError = LengthMismatch | TooFewPoints | NotBinary | NegativeWeight

  datatype Calibrator = Calibrator(knotsX: seq<real>, knotsY: seq<real>)

  ghost predicate Rising(x: seq<real>) {
    forall i, j :: 0 <= i < j < |x| ==> x[i] < x[j]
  }

  ghost predicate WellFormed(c: Calibrator) {
    |c.knotsX| == |c.knotsY| > 0 && Rising(c.knotsX) && NonDecreasing(c.knotsY) && Within(c.knotsY, 0.0, 1.0)
  }

  function Clip(x: real): real {
    if x < 0.0 then 0.0 else if x > 1.0 then 1.0 else x
  }

  // ---- prediction: linear interpolation, flat outside the knots ----

  /** The last knot among the first n+1 that is not right of x. */
  function Segment(xs: seq<real>, x: real, n: nat): (k: nat)
    requires n < |xs| && xs[0] <= x
    ensures k <= n && xs[k] <= x && (k < n ==> x < xs[k + 1])
  {
    if n == 0 || xs[n] <= x then n else Segment(xs, x, n - 1)
  }

  function Between(x0: real, y0: real, x1: real, y1: real, x: real): real
    requires x0 < x1
  {
    y0 + (y1 - y0) * ((x - x0) / (x1 - x0))
  }

  function Interpolate(xs: seq<real>, ys: seq<real>, x: real): real
    requires |xs| == |ys| > 0 && Rising(xs)
  {
    var last := |xs| - 1;
    if x <= xs[0] then ys[0]
    else if x >= xs[last] then ys[last]
    else
      var k := Segment(xs, x, last);
      Between(xs[k], ys[k], xs[k + 1], ys[k + 1], x)
  }

  function PredictOne(c: Calibrator, x: real): real
    requires WellFormed(c)
  {
    Clip(Interpolate(c.knotsX, c.knotsY, x))
  }

  function Predict(c: Calibrator, scores: seq<real>): (p: seq<real>)
    requires WellFormed(c)
    ensures |p| == |scores| && forall i :: 0 <= i < |p| ==> p[i] == PredictOne(c, scores[i])
  {
    seq(|scores|, i requires 0 <= i < |scores| => PredictOne(c, scores[i]))
  }

  lemma FractionWithin(x0: real, x1: real, x: real)
    requires x0 < x1 && x0 <= x <= x1
    ensures 0.0 <= (x - x0) / (x1 - x0) <= 1.0
  {
    QuotientWithin(x - x0, x1 - x0);
  }

  lemma BetweenWithin(x0: real, y0: real, x1: real, y1: real, x: real)
    requires x0 < x1 && y0 <= y1 && x0 <= x <= x1
    ensures y0 <= Between(x0, y0, x1, y1, x) <= y1
    ensures x == x0 ==> Between(x0, y0, x1, y1, x) == y0
  {
    var t := (x - x0) / (x1 - x0);
    FractionWithin(x0, x1, x);
    ProductNonNegative(y1 - y0, t);
    ProductNonNegative(y1 - y0, 1.0 - t);
    Quotient(x - x0, x1 - x0);
    if x == x0 {
      CancelFactor(t, 0.0, x1 - x0);
    }
  }

  lemma BetweenMonotone(x0: real, y0: real, x1: real, y1: real, a: real, b: real)
    requires x0 < x1 && y0 <= y1 && a <= b
    ensures Between(x0, y0, x1, y1, a) <= Between(x0, y0, x1, y1, b)
  {
    var ta, tb, d := (a - x0) / (x1 - x0), (b - x0) / (x1 - x0), x1 - x0;
    Quotient(a - x0, d);
    Quotient(b - x0, d);
    assert (tb - ta) * d == b - a;
    FactorNonNegative(tb - ta, d);
    ProductNonNegative(y1 - y0, tb - ta);
  }

  lemma InterpolateAt(xs: seq<real>, ys: seq<real>, x: real) returns (k: nat)
    requires |xs| == |ys| > 0 && Rising(xs) && NonDecreasing(ys) && xs[0] <= x
    ensures k < |xs| && xs[k] <= x && (k < |xs| - 1 ==> x < xs[k + 1])
    ensures ys[k] <= Interpolate(xs, ys, x)
    ensures k < |xs| - 1 ==> Interpolate(xs, ys, x) == Between(xs[k], ys[k], xs[k + 1], ys[k + 1], x) <= ys[k + 1]
    ensures k == |xs| - 1 || x == xs[k] ==> Interpolate(xs, ys, x) == ys[k]
  {
    var last := |xs| - 1;
    k := Segment(xs, x, last);
    if k < last {
      BetweenWithin(xs[k], ys[k], xs[k + 1], ys[k + 1], x);
      assert xs[k + 1] <= xs[last];
    }
  }

  lemma InterpolateMonotone(xs: seq<real>, ys: seq<real>, a: real, b: real)
    requires |xs| == |ys| > 0 && Rising(xs) && NonDecreasing(ys) && a <= b
    ensures Interpolate(xs, ys, a) <= Interpolate(xs, ys, b)
  {
    if xs[0] <= b {
      var j := InterpolateAt(xs, ys, b);
      if xs[0] <= a {
        var i := InterpolateAt(xs, ys, a);
        if i == j {
          if i < |xs| - 1 {
            BetweenMonotone(xs[i], ys[i], xs[i + 1], ys[i + 1], a, b);
          }
        } else {
          assert i < j;
          assert ys[i + 1] <= ys[j];
        }
      } else {
        assert ys[0] <= ys[j];
      }
    }
  }

  /** Calibration never reverses a ranking and always answers a probability. */
  lemma PredictMonotone(c: Calibrator, a: real, b: real)
    requires WellFormed(c) && a <= b
    ensures 0.0 <= PredictOne(c, a) <= PredictOne(c, b) <= 1.0
  {
    InterpolateMonotone(c.knotsX, c.knotsY, a, b);
  }

  /** At a knot the prediction is the knot's own level: neither interpolation nor clipping moves it. */
  lemma PredictAtKnot(c: Calibrator, u: nat)
    requires WellFormed(c) && u < |c.knotsX|
    ensures PredictOne(c, c.knotsX[u]) == c.knotsY[u]
  {
    assert c.knotsX[0] <= c.knotsX[u];
    var k := InterpolateAt(c.knotsX, c.knotsY, c.knotsX[u]);
    assert k == u;
  }

  /** The point lies on the line through the two others. */
  ghost predicate OnLine(x0: real, y0: real, x1: real, y1: real, x: real, y: real) {
    (y - y0) * (x1 - x0) == (y1 - y0) * (x - x0)
  }

  lemma BetweenOnLine(x0: real, y0: real, x1: real, y1: real, x: real)
    requires x0 < x1
    ensures OnLine(x0, y0, x1, y1, x, Between(x0, y0, x1, y1, x))
  {
    var t := (x - x0) / (x1 - x0);
    Quotient(x - x0, x1 - x0);
    assert (y1 - y0) * t * (x1 - x0) == (y1 - y0) * (t * (x1 - x0));
  }

  /** From one knot to the next the prediction is the straight line through both. */
  lemma PredictOnLine(c: Calibrator, u: nat, x: real)
    requires WellFormed(c) && u + 1 < |c.knotsX| && c.knotsX[u] <= x <= c.knotsX[u + 1]
    ensures OnLine(c.knotsX[u], c.knotsY[u], c.knotsX[u + 1], c.knotsY[u + 1], x, PredictOne(c, x))
  {
    if x == c.knotsX[u + 1] {
      PredictAtKnot(c, u + 1);
    } else {
      assert c.knotsX[0] <= c.knotsX[u];
      var k := InterpolateAt(c.knotsX, c.knotsY, x);
      assert k == u;
      BetweenOnLine(c.knotsX[u], c.knotsY[u], c.knotsX[u + 1], c.knotsY[u + 1], x);
    }
  }

  /** Outside the knots it is the nearest knot's level. */
  lemma PredictIsFlatOutside(c: Calibrator, x: real)
    requires WellFormed(c)
    ensures x <= c.knotsX[0] ==> PredictOne(c, x) == c.knotsY[0]
    ensures x >= c.knotsX[|c.knotsX| - 1] ==> PredictOne(c, x) == c.knotsY[|c.knotsY| - 1]
  {
  }

  // ---- collapsing equal scores ----

  /** The total of v over the points of group u among the first n. */
  ghost function GroupTotal(group: seq<nat>, v: seq<real>, u: nat, n: nat): real
    requires n <= |group| == |v|
  {
    if n == 0 then 0.0
    else GroupTotal(group, v, u, n - 1) + if group[n - 1] == u then v[n - 1] else 0.0
  }

  /** `group` names, for each of the first n scores, its place among the distinct values. */
  ghost predicate GroupingTo(xs: seq<real>, n: nat, unique: seq<real>, group: seq<nat>)
    requires n <= |xs|
  {
    && Rising(unique) && |group| == n
    && (forall i :: 0 <= i < n ==> group[i] < |unique| && unique[group[i]] == xs[i])
    && forall u :: 0 <= u < |unique| ==> unique[u] in xs
  }

  ghost predicate Grouping(xs: seq<real>, unique: seq<real>, group: seq<nat>) {
    GroupingTo(xs, |xs|, unique, group)
  }

  lemma NewGroup(xs: seq<real>, n: nat, unique: seq<real>, group: seq<nat>)
    requires n < |xs| && GroupingTo(xs, n, unique, group) && (|unique| > 0 ==> unique[|unique| - 1] < xs[n])
    ensures GroupingTo(xs, n, unique + [xs[n]], group)
  {
    forall u | 0 <= u < |unique| ensures unique[u] < xs[n] {
      assert u == |unique| - 1 || unique[u] < unique[|unique| - 1];
    }
  }

  /** The distinct values of a sorted sequence, with each item's position among them. */
  method UniqueSorted(xs: seq<real>) returns (unique: seq<real>, group: seq<nat>)
    requires NonDecreasing(xs)
    ensures Grouping(xs, unique, group)
    ensures |xs| > 0 ==> |unique| > 0
  {
    unique, group := [], [];
    for i := 0 to |xs|
      invariant GroupingTo(xs, i, unique, group)
      invariant i == 0 ==> unique == []
      invariant i > 0 ==> |unique| > 0 && unique[|unique| - 1] == xs[i - 1]
    {
      if i == 0 || xs[i] != xs[i - 1] {
        NewGroup(xs, i, unique, group);
        unique := unique + [xs[i]];
      }
      group := group + [|unique| - 1];
    }
  }

  lemma {:induction false} GroupTotalBounds(group: seq<nat>, w: seq<real>, y: seq<real>, u: nat, n: nat)
    requires n <= |group| == |w| == |y| && NonNegative(w) && Within(y, 0.0, 1.0)
    ensures 0.0 <= GroupTotal(group, Times(w, y), u, n) <= GroupTotal(group, w, u, n)
  {
    if n > 0 {
      GroupTotalBounds(group, w, y, u, n - 1);
      ProductNonNegative(w[n - 1], y[n - 1]);
      ProductNonNegative(w[n - 1], 1.0 - y[n - 1]);
    }
  }

  function MeanOf(value: real, weight: real): real {
    value / (if weight > 0.0 then weight else 1.0)
  }

  ghost predicate IsMean(mean: real, weight: real, value: real) {
    mean * weight == value
  }

  lemma MeanOfGroup(value: real, weight: real)
    requires 0.0 <= value <= weight
    ensures 0.0 <= MeanOf(value, weight) <= 1.0 && IsMean(MeanOf(value, weight), weight, value)
  {
    if weight > 0.0 {
      QuotientWithin(value, weight);
      Quotient(value, weight);
    }
  }

  /** Unbuffered in-place addition: each v[i] is added to the entry of its group. */
  method AddAt(m: nat, group: seq<nat>, v: seq<real>) returns (totals: seq<real>)
    requires |group| == |v| && forall i :: 0 <= i < |group| ==> group[i] < m
    ensures |totals| == m && forall u :: 0 <= u < m ==> totals[u] == GroupTotal(group, v, u, |v|)
  {
    totals := seq(m, _ => 0.0);
    for i := 0 to |v|
      invariant |totals| == m
      invariant forall u :: 0 <= u < m ==> totals[u] == GroupTotal(group, v, u, i)
    {
      totals := totals[group[i] := totals[group[i]] + v[i]];
    }
  }

  function Means(values: seq<real>, weights: seq<real>): (r: seq<real>)
    requires |values| == |weights|
    ensures |r| == |values| && forall u :: 0 <= u < |r| ==> r[u] == MeanOf(values[u], weights[u])
  {
    seq(|values|, u requires 0 <= u < |values| => MeanOf(values[u], weights[u]))
  }

  /** m groups, each with its total weight and its weighted mean. */
  ghost predicate Aggregated(group: seq<nat>, y: seq<real>, w: seq<real>, meanY: seq<real>, summedW: seq<real>, m: nat)
    requires |group| == |y| == |w|
  {
    && |meanY| == |summedW| == m
    && forall u :: 0 <= u < m ==>
         && summedW[u] == GroupTotal(group, w, u, |y|)
         && IsMean(meanY[u], summedW[u], GroupTotal(group, Times(w, y), u, |y|))
  }

  lemma GroupsHaveMeans(group: seq<nat>, y: seq<real>, w: seq<real>, values: seq<real>, weights: seq<real>)
    requires |group| == |y| == |w| && NonNegative(w) && Within(y, 0.0, 1.0) && |values| == |weights|
    requires forall u :: 0 <= u < |weights| ==> weights[u] == GroupTotal(group, w, u, |w|)
    requires forall u :: 0 <= u < |values| ==> values[u] == GroupTotal(group, Times(w, y), u, |w|)
    ensures Aggregated(group, y, w, Means(values, weights), weights, |values|)
    ensures NonNegative(weights) && Within(Means(values, weights), 0.0, 1.0)
  {
    var means := Means(values, weights);
    forall u | 0 <= u < |values|
      ensures weights[u] >= 0.0 && 0.0 <= means[u] <= 1.0 && IsMean(means[u], weights[u], values[u])
    {
      GroupTotalBounds(group, w, y, u, |w|);
      MeanOfGroup(values[u], weights[u]);
    }
  }

  /** One weighted-mean point per distinct score. */
  method AggregateByScore(xs: seq<real>, ys: seq<real>, ws: seq<real>)
    returns (unique: seq<real>, meanY: seq<real>, summedW: seq<real>, ghost group: seq<nat>)
    requires |xs| == |ys| == |ws| && NonDecreasing(xs) && NonNegative(ws) && Within(ys, 0.0, 1.0)
    ensures Grouping(xs, unique, group)
    ensures |xs| > 0 ==> |unique| > 0
    ensures Aggregated(group, ys, ws, meanY, summedW, |unique|)
    ensures NonNegative(summedW) && Within(meanY, 0.0, 1.0)
  {
    var inverse;
    unique, inverse := UniqueSorted(xs);
    group := inverse;
    var m := |unique|;
    summedW := AddAt(m, inverse, ws);
    var weightedY := AddAt(m, inverse, Times(ws, ys));
    meanY := Means(weightedY, summedW);
    GroupsHaveMeans(inverse, ys, ws, weightedY, summedW);
  }

  // ---- errors on the points and on the knots ----

  ghost function GroupGap(value: real, weight: real, f: real, g: real): real {
    -2.0 * ((value - f * weight) * (g - f))
  }

  /** The contribution of group u when only the first n points are counted. */
  ghost function GroupGaps(group: seq<nat>, y: seq<real>, w: seq<real>, f: seq<real>, g: seq<real>,
                           n: nat): (r: seq<real>)
    requires n <= |group| == |y| == |w| && |f| == |g|
    ensures |r| == |f|
    ensures forall u :: 0 <= u < |r| ==>
      r[u] == GroupGap(GroupTotal(group, Times(w, y), u, n), GroupTotal(group, w, u, n), f[u], g[u])
  {
    seq(|f|, u requires 0 <= u < |f| =>
      GroupGap(GroupTotal(group, Times(w, y), u, n), GroupTotal(group, w, u, n), f[u], g[u]))
  }

  lemma GroupGapGrows(value: real, weight: real, y: real, w: real, f: real, g: real)
    ensures GroupGap(value + w * y, weight + w, f, g) == GroupGap(value, weight, f, g) + Gap(y, w, f, g)
  {
    assert (value + w * y) - f * (weight + w) == (value - f * weight) + w * (y - f);
  }

  lemma GroupGapsStep(group: seq<nat>, y: seq<real>, w: seq<real>, f: seq<real>, g: seq<real>, n: nat)
    requires n < |group| == |y| == |w| && |f| == |g| && group[n] < |f|
    ensures Sum(GroupGaps(group, y, w, f, g, n + 1))
      == Sum(GroupGaps(group, y, w, f, g, n)) + Gap(y[n], w[n], f[group[n]], g[group[n]])
  {
    var k := group[n];
    GroupGapGrows(GroupTotal(group, Times(w, y), k, n), GroupTotal(group, w, k, n), y[n], w[n], f[k], g[k]);
    var before, after := GroupGaps(group, y, w, f, g, n), GroupGaps(group, y, w, f, g, n + 1);
    SumOneChange(before, after, k, Gap(y[n], w[n], f[k], g[k]), |f|);
  }

  /** Adding up by points or by groups is the same. */
  lemma {:induction false} GapsByGroup(group: seq<nat>, y: seq<real>, w: seq<real>, fk: seq<real>, gk: seq<real>,
                                       f: seq<real>, g: seq<real>, n: nat)
    requires n <= |group| == |y| == |w| == |f| == |g| && |fk| == |gk|
    requires forall i :: 0 <= i < |group| ==> group[i] < |fk| && f[i] == fk[group[i]] && g[i] == gk[group[i]]
    ensures SumTo(Gaps(y, w, f, g), n) == Sum(GroupGaps(group, y, w, fk, gk, n))
  {
    if n == 0 {
      SumToConst(GroupGaps(group, y, w, fk, gk, 0), 0, |fk|, 0.0);
    } else {
      GapsByGroup(group, y, w, fk, gk, f, g, n - 1);
      GroupGapsStep(group, y, w, fk, gk, n - 1);
    }
  }

  lemma GroupGapIsGap(value: real, weight: real, mean: real, f: real, g: real)
    requires IsMean(mean, weight, value)
    ensures GroupGap(value, weight, f, g) == Gap(mean, weight, f, g)
  {
    assert value - f * weight == weight * (mean - f);
  }

  lemma GroupGapsAreKnotGaps(group: seq<nat>, y: seq<real>, w: seq<real>, meanY: seq<real>, summedW: seq<real>,
                             fk: seq<real>, gk: seq<real>)
    requires |group| == |y| == |w| && |fk| == |gk| && Aggregated(group, y, w, meanY, summedW, |fk|)
    ensures GroupGaps(group, y, w, fk, gk, |y|) == Gaps(meanY, summedW, fk, gk)
  {
    forall u | 0 <= u < |fk| ensures GroupGaps(group, y, w, fk, gk, |y|)[u] == Gaps(meanY, summedW, fk, gk)[u] {
      GroupGapIsGap(GroupTotal(group, Times(w, y), u, |y|), summedW[u], meanY[u], fk[u], gk[u]);
    }
  }

  /** The total gap on sorted points equals that on their aggregated knots. */
  lemma GapsOnKnots(group: seq<nat>, y: seq<real>, w: seq<real>, f: seq<real>, g: seq<real>,
                      meanY: seq<real>, summedW: seq<real>, fk: seq<real>, gk: seq<real>)
    requires |group| == |y| == |w| == |f| == |g| && |fk| == |gk| && Aggregated(group, y, w, meanY, summedW, |fk|)
    requires forall i :: 0 <= i < |group| ==> group[i] < |fk| && f[i] == fk[group[i]] && g[i] == gk[group[i]]
    ensures Sum(Gaps(y, w, f, g)) == Sum(Gaps(meanY, summedW, fk, gk))
  {
    GroupGapsAreKnotGaps(group, y, w, meanY, summedW, fk, gk);
    GapsByGroup(group, y, w, fk, gk, f, g, |y|);
  }

  // ---- the fit ----

  /** p gives each point a prediction that is a non-decreasing function of its score. */
  ghost predicate MonotoneIn(scores: seq<real>, p: seq<real>) {
    |p| == |scores| && forall i, j :: 0 <= i < |p| && 0 <= j < |p| && scores[i] <= scores[j] ==> p[i] <= p[j]
  }

  /** No monotone prediction beats f: any other is worse by at least its weighted squared distance to f. */
  ghost predicate BestMonotone(scores: seq<real>, labels: seq<real>, w: seq<real>, f: seq<real>)
    requires |scores| == |labels| == |w| == |f|
  {
    MonotoneIn(scores, f) &&
    forall p: seq<real> :: MonotoneIn(scores, p) ==> NotBetter(labels, w, f, p)
  }

  lemma {:induction false} SseNonNegative(f: seq<real>, w: seq<real>, p: seq<real>, n: nat)
    requires n <= |f| == |w| && n <= |p| && NonNegative(w)
    ensures Sse(f, w, p, n) >= 0.0
  {
    if n > 0 {
      SseNonNegative(f, w, p, n - 1);
      var d := f[n - 1] - p[n - 1];
      ProductNonNegative(w[n - 1], d * d);
    }
  }

  lemma {:induction false} ZeroDistance(f: seq<real>, w: seq<real>, p: seq<real>, n: nat, i: nat)
    requires i < n <= |f| == |w| && n <= |p| && NonNegative(w)
    ensures Sse(f, w, p, n) >= w[i] * ((f[i] - p[i]) * (f[i] - p[i])) >= 0.0
  {
    SseNonNegative(f, w, p, n - 1);
    var d := f[n - 1] - p[n - 1];
    ProductNonNegative(w[n - 1], d * d);
    if i < n - 1 {
      ZeroDistance(f, w, p, n - 1, i);
    }
  }

  lemma PositiveWeightedSquare(w: real, d: real, square: real)
    requires w > 0.0 && square == d * d && w * square <= 0.0
    ensures d == 0.0
  {
    assert (-square) * w >= 0.0;
    FactorNonNegative(-square, w);
    if d != 0.0 {
      SquarePositive(d, square);
    }
  }

  lemma NoDistance(f: seq<real>, w: seq<real>, p: seq<real>, n: nat, i: nat)
    requires i < n <= |f| == |w| && n <= |p| && NonNegative(w) && w[i] > 0.0
    requires Sse(f, w, p, n) <= 0.0
    ensures p[i] == f[i]
  {
    var d := f[i] - p[i];
    ZeroDistance(f, w, p, n, i);
    PositiveWeightedSquare(w[i], d, d * d);
  }

  lemma BestNoDistance(scores: seq<real>, labels: seq<real>, w: seq<real>, f: seq<real>, p: seq<real>)
    requires |scores| == |labels| == |w| == |f| && BestMonotone(scores, labels, w, f) && MonotoneIn(scores, p)
    requires Sse(labels, w, p, |labels|) <= Sse(labels, w, f, |labels|)
    ensures Sse(f, w, p, |labels|) <= 0.0
  {
    assert NotBetter(labels, w, f, p);
  }

  /** The best fit is the only one: a monotone prediction no worse than it agrees wherever there is weight. */
  lemma BestIsUnique(scores: seq<real>, labels: seq<real>, w: seq<real>, f: seq<real>, p: seq<real>, i: nat)
    requires |scores| == |labels| == |w| == |f| && NonNegative(w) && BestMonotone(scores, labels, w, f)
    requires MonotoneIn(scores, p) && Sse(labels, w, p, |labels|) <= Sse(labels, w, f, |labels|)
    requires i < |w| && w[i] > 0.0
    ensures p[i] == f[i]
  {
    BestNoDistance(scores, labels, w, f, p);
    NoDistance(f, w, p, |labels|, i);
  }

  function ValidateFit(scores: seq<real>, labels: seq<real>, weights: seq<real>): (r: Option<CalibrationError>)
    ensures r == Some(LengthMismatch) <==> !(|scores| == |labels| == |weights|)
    ensures r == Some(TooFewPoints) <==> |scores| == |labels| == |weights| && |scores| <= 1
    ensures r == Some(NotBinary) <==>
      |scores| == |labels| == |weights| > 1 && !forall i :: 0 <= i < |labels| ==> labels[i] == 0.0 || labels[i] == 1.0
    ensures r == Some(NegativeWeight) <==>
      && |scores| == |labels| == |weights| > 1
      && (forall i :: 0 <= i < |labels| ==> labels[i] == 0.0 || labels[i] == 1.0)
      && !forall i :: 0 <= i < |weights| ==> weights[i] >= 0.0
  {
    if !(|scores| == |labels| == |weights|) then Some(LengthMismatch)
    else if |scores| < 2 then Some(TooFewPoints)
    else if exists i :: 0 <= i < |labels| && labels[i] != 0.0 && labels[i] != 1.0 then Some(NotBinary)
    else if exists i :: 0 <= i < |weights| && weights[i] < 0.0 then Some(NegativeWeight)
    else None
  }

  ghost function IndexOf(xs: seq<real>, x: real): (i: nat)
    requires x in xs
    ensures i < |xs| && xs[i] == x
  {
    if xs[0] == x then 0 else 1 + IndexOf(xs[1..], x)
  }

  /** From a monotone prediction on the points, its level at each knot. */
  ghost function Levels(xs: seq<real>, p: seq<real>, unique: seq<real>): (levels: seq<real>)
    requires |p| == |xs| && forall u :: 0 <= u < |unique| ==> unique[u] in xs
    ensures |levels| == |unique| && forall u :: 0 <= u < |levels| ==> levels[u] == p[IndexOf(xs, unique[u])]
  {
    seq(|unique|, u requires 0 <= u < |unique| => p[IndexOf(xs, unique[u])])
  }

  lemma LevelsAgree(xs: seq<real>, p: seq<real>, unique: seq<real>, group: seq<nat>)
    requires MonotoneIn(xs, p) && Grouping(xs, unique, group)
    ensures NonDecreasing(Levels(xs, p, unique))
    ensures forall i :: 0 <= i < |xs| ==> p[i] == Levels(xs, p, unique)[group[i]]
  {
    var levels := Levels(xs, p, unique);
    forall i | 0 <= i < |xs| ensures p[i] == levels[group[i]] {
      var k := IndexOf(xs, unique[group[i]]);
      assert xs[k] == xs[i];
    }
    forall u, v | 0 <= u < v < |levels| ensures levels[u] <= levels[v] {
      var i, j := IndexOf(xs, unique[u]), IndexOf(xs, unique[v]);
      assert xs[i] <= xs[j];
    }
  }

  lemma GapsGathered(order: seq<nat>, y: seq<real>, w: seq<real>, f: seq<real>, g: seq<real>)
    requires |y| == |w| == |f| == |g| && Indexes(order, |y|)
    ensures Gather(Gaps(y, w, f, g), order)
      == Gaps(Gather(y, order), Gather(w, order), Gather(f, order), Gather(g, order))
  {
  }

  /** The total gap does not depend on the order the points are listed in. */
  lemma GapsInSortedOrder(scores: seq<real>, y: seq<real>, w: seq<real>, f: seq<real>, g: seq<real>)
    requires |scores| == |y| == |w| == |f| == |g|
    ensures var order := Argsort(scores);
      Sum(Gaps(y, w, f, g)) == Sum(Gaps(Gather(y, order), Gather(w, order), Gather(f, order), Gather(g, order)))
  {
    SumInSortedOrder(scores, Gaps(y, w, f, g), |y|);
    GapsGathered(Argsort(scores), y, w, f, g);
  }

  lemma SortedPredictions(scores: seq<real>, c: Calibrator, p: seq<real>, group: seq<nat>)
    requires WellFormed(c) && MonotoneIn(scores, p)
    requires Grouping(Gather(scores, Argsort(scores)), c.knotsX, group)
    ensures var order := Argsort(scores);
      var sx, sf, sp := Gather(scores, order), Gather(Predict(c, scores), order), Gather(p, order);
      var levels := Levels(sx, sp, c.knotsX);
      NonDecreasing(levels) &&
      forall i :: 0 <= i < |group| ==> sf[i] == c.knotsY[group[i]] && sp[i] == levels[group[i]]
  {
    var order := Argsort(scores);
    var sx, sf, sp := Gather(scores, order), Gather(Predict(c, scores), order), Gather(p, order);
    assert MonotoneIn(sx, sp);
    LevelsAgree(sx, sp, c.knotsX, group);
    forall i | 0 <= i < |sx| ensures sf[i] == c.knotsY[group[i]] {
      PredictAtKnot(c, group[i]);
      assert sf[i] == PredictOne(c, sx[i]);
    }
  }

  /** The sorted, aggregated, swept fit is best for the original points. */
  lemma FitIsBest(scores: seq<real>, labels: seq<real>, w: seq<real>, c: Calibrator, p: seq<real>,
                  group: seq<nat>, meanY: seq<real>, summedW: seq<real>)
    requires |scores| == |labels| == |w| && WellFormed(c) && MonotoneIn(scores, p)
    requires |c.knotsX| == |meanY| == |summedW|
    requires Grouping(Gather(scores, Argsort(scores)), c.knotsX, group)
    requires Aggregated(group, Gather(labels, Argsort(scores)), Gather(w, Argsort(scores)), meanY, summedW, |c.knotsX|)
    requires Optimal(meanY, summedW, c.knotsY)
    ensures NotBetter(labels, w, Predict(c, scores), p)
  {
    var order, f := Argsort(scores), Predict(c, scores);
    var sx, sf, sp := Gather(scores, order), Gather(f, order), Gather(p, order);
    SortedPredictions(scores, c, p, group);
    GapsOnKnots(group, Gather(labels, order), Gather(w, order), sf, sp, meanY, summedW, c.knotsY,
      Levels(sx, sp, c.knotsX));
    GapsInSortedOrder(scores, labels, w, f, p);
    NotBetterIsGaps(meanY, summedW, c.knotsY, Levels(sx, sp, c.knotsX));
    NotBetterIsGaps(labels, w, f, p);
  }

  lemma FitIsBestMonotone(scores: seq<real>, labels: seq<real>, w: seq<real>, c: Calibrator,
                          group: seq<nat>, meanY: seq<real>, summedW: seq<real>)
    requires |scores| == |labels| == |w| && WellFormed(c)
    requires |c.knotsX| == |meanY| == |summedW|
    requires Grouping(Gather(scores, Argsort(scores)), c.knotsX, group)
    requires Aggregated(group, Gather(labels, Argsort(scores)), Gather(w, Argsort(scores)), meanY, summedW, |c.knotsX|)
    requires Optimal(meanY, summedW, c.knotsY)
    ensures BestMonotone(scores, labels, w, Predict(c, scores))
  {
    forall p: seq<real> | MonotoneIn(scores, p) ensures NotBetter(labels, w, Predict(c, scores), p) {
      FitIsBest(scores, labels, w, c, p, group, meanY, summedW);
    }
    forall i, j | 0 <= i < |scores| && 0 <= j < |scores| && scores[i] <= scores[j]
      ensures Predict(c, scores)[i] <= Predict(c, scores)[j]
    {
      PredictMonotone(c, scores[i], scores[j]);
    }
  }

  lemma SortedScores(scores: seq<real>)
    ensures NonDecreasing(Gather(scores, Argsort(scores)))
  {
    var order := Argsort(scores);
    SortedIndicesStable(scores, |scores|);
    forall i, j | 0 <= i < j < |order| ensures scores[order[i]] <= scores[order[j]] {
      assert Before(scores, order[i], order[j]);
    }
  }

  ghost predicate KnotsAreScores(c: Calibrator, scores: seq<real>) {
    && (forall u :: 0 <= u < |c.knotsX| ==> c.knotsX[u] in scores)
    && forall i :: 0 <= i < |scores| ==> scores[i] in c.knotsX
  }

  lemma KnotsFromGroups(scores: seq<real>, c: Calibrator, group: seq<nat>)
    requires Grouping(Gather(scores, Argsort(scores)), c.knotsX, group)
    ensures KnotsAreScores(c, scores)
  {
    var order, sx := Argsort(scores), Gather(scores, Argsort(scores));
    forall i | 0 <= i < |scores| ensures scores[i] in c.knotsX {
      var at := SortedIndicesCover(scores, |scores|, i);
      assert c.knotsX[group[at]] == sx[at] == scores[i];
    }
    forall u | 0 <= u < |c.knotsX| ensures c.knotsX[u] in scores {
      var k :| 0 <= k < |sx| && sx[k] == c.knotsX[u];
      assert scores[order[k]] == c.knotsX[u];
    }
  }

  method FitIsotonic(scores: seq<real>, labels: seq<real>, weights: Option<seq<real>>)
    returns (r: Result<Calibrator, CalibrationError>)
    ensures var w := if weights.Some? then weights.value else seq(|scores|, _ => 1.0);
      match ValidateFit(scores, labels, w)
      case Some(e) => r == Err(e)
      case None => r.Ok? && WellFormed(r.value) && KnotsAreScores(r.value, scores)
                   && BestMonotone(scores, labels, w, Predict(r.value, scores))
  {
    var w := if weights.Some? then weights.value else seq(|scores|, _ => 1.0);
    var invalid := ValidateFit(scores, labels, w);
    if invalid.Some? {
      return Err(invalid.value);
    }
    var order := Argsort(scores);
    SortedScores(scores);
    var sx, sy, sw := Gather(scores, order), Gather(labels, order), Gather(w, order);
    var unique, meanY, summedW, group := AggregateByScore(sx, sy, sw);
    var fitted := PoolAdjacentViolators(meanY, summedW, 0.0, 1.0);
    var clipped := seq(|fitted|, u requires 0 <= u < |fitted| => Clip(fitted[u]));
    assert clipped == fitted;
    var c := Calibrator(unique, clipped);
    FitIsBestMonotone(scores, labels, w, c, group, meanY, summedW);
    KnotsFromGroups(scores, c, group);
    r := Ok(c);
  }
}
