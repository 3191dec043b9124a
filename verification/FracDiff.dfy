/** Fractional differencing (src/quant/research/features_research/frac_diff.py). */
module FracDiff {
  import opened Wrappers
  import opened Sums

  datatype FracDiffError = NegativeOrder | ThresholdNotPositive

  function Next(d: real, k: nat, last: real): real
    requires k > 0
  {
    -last * (d - k as real + 1.0) / k as real
  }

  /** The binomial weights of order d. */
  function Weight(d: real, k: nat): real {
    if k == 0 then 1.0 else Next(d, k, Weight(d, k - 1))
  }

  lemma NextTimes(d: real, k: nat, last: real)
    requires k > 0
    ensures Next(d, k, last) * k as real == -last * (d - k as real + 1.0)
  {
    Quotient(-last * (d - k as real + 1.0), k as real);
  }

  // ---- decay ----

  /** k times the size of the k-th weight: it stops growing once k reaches d + 1. */
  ghost function Mass(d: real, k: nat): real {
    Prod(k as real, Abs(Weight(d, k)))
  }

  lemma AbsProduct(x: real, y: real, bound: real)
    requires Abs(y) <= bound
    ensures Abs(x * y) <= Prod(bound, Abs(x))
  {
    ProductNonNegative(Abs(x), bound - Abs(y));
    if x < 0.0 {
      assert x * y == -x * -y;
    }
    if y < 0.0 {
      assert Abs(x * y) == Abs(x) * -y;
    } else {
      assert Abs(x * y) == Abs(x) * y;
    }
  }

  lemma AbsTimesPositive(x: real, k: real)
    requires k >= 0.0
    ensures Abs(x * k) == Prod(k, Abs(x))
  {
  }

  lemma MassShrinks(d: real, k: nat)
    requires 0.0 <= d <= k as real
    ensures Mass(d, k + 1) <= Mass(d, k)
  {
    var last := Weight(d, k);
    NextTimes(d, k + 1, last);
    AbsTimesPositive(Weight(d, k + 1), (k + 1) as real);
    AbsProduct(-last, d - k as real, k as real);
  }

  lemma {:induction false} MassBounded(d: real, m: nat, k: nat)
    requires 0.0 <= d <= m as real && m <= k
    ensures Mass(d, k) <= Mass(d, m)
  {
    if m < k {
      MassBounded(d, m, k - 1);
      MassShrinks(d, k - 1);
    }
  }

  /** From here on every weight is under the threshold. */
  ghost function Horizon(d: real, threshold: real): (r: nat)
    requires d >= 0.0 && threshold > 0.0
    ensures r > 0
  {
    var m := d.Floor + 1;
    var far := (Mass(d, m) / threshold).Floor;
    m + (if far > 0 then far else 0) + 1
  }

  lemma FactorBelow(mass: real, threshold: real, k: real, w: real)
    requires threshold > 0.0 && k > mass / threshold && k > 0.0 && Prod(k, w) <= mass
    ensures w < threshold
  {
    var quotient := mass / threshold;
    Quotient(mass, threshold);
    ProductPositive(k - quotient, threshold, (k - quotient) * threshold);
    if w >= threshold {
      ProductNonNegative(k, w - threshold);
    }
  }

  lemma QuotientAtLeast(q: real, x: real, y: real)
    requires y > 0.0 && Prod(q, y) <= x
    ensures q <= x / y
  {
    var quotient := x / y;
    Quotient(x, y);
    if q > quotient {
      ProductPositive(q - quotient, y, (q - quotient) * y);
    }
  }

  lemma BelowThreshold(d: real, threshold: real, k: nat)
    requires d >= 0.0 && threshold > 0.0 && k >= Horizon(d, threshold)
    ensures Abs(Weight(d, k)) < threshold
  {
    var m := d.Floor + 1;
    MassBounded(d, m, k);
    FactorBelow(Mass(d, m), threshold, k as real, Abs(Weight(d, k)));
  }

  /** The weights up to, and not including, the first one under the threshold. */
  ghost predicate IsWindow(d: real, threshold: real, weights: seq<real>) {
    && |weights| > 0
    && (forall j :: 0 <= j < |weights| ==> weights[j] == Weight(d, j))
    && (forall j :: 1 <= j < |weights| ==> Abs(Weight(d, j)) >= threshold)
    && Abs(Weight(d, |weights|)) < threshold
  }

  /** The loop keeps appending weights until one falls under the threshold; it always gets there. */
  method FracDiffWeights(d: real, threshold: real) returns (r: Result<seq<real>, FracDiffError>)
    ensures r == Err(NegativeOrder) <==> d < 0.0
    ensures r == Err(ThresholdNotPositive) <==> d >= 0.0 && threshold <= 0.0
    ensures r.Ok? ==> IsWindow(d, threshold, r.value)
  {
    if d < 0.0 {
      return Err(NegativeOrder);
    }
    if threshold <= 0.0 {
      return Err(ThresholdNotPositive);
    }
    var weights := [1.0];
    var k := 1;
    while true
      invariant k == |weights| && k > 0
      invariant forall j :: 0 <= j < k ==> weights[j] == Weight(d, j)
      invariant forall j :: 1 <= j < k ==> Abs(weights[j]) >= threshold
      decreases Horizon(d, threshold) - k
    {
      var next := Next(d, k, weights[k - 1]);
      if Abs(next) < threshold {
        break;
      }
      if k >= Horizon(d, threshold) {
        BelowThreshold(d, threshold, k);
        assert false;
      }
      weights := weights + [next];
      k := k + 1;
    }
    return Ok(weights);
  }

  // ---- orders between 0 and 1 ----

  lemma MassAtMostOrder(d: real, k: nat)
    requires 0.0 <= d <= 1.0 && k > 0
    ensures Mass(d, k) <= d
  {
    MassBounded(d, 1, k);
    NextTimes(d, 1, 1.0);
    assert Weight(d, 1) == Next(d, 1, Weight(d, 0));
  }

  /** The k-th weight is at most d / k. */
  lemma WeightDecay(d: real, k: nat)
    requires 0.0 <= d <= 1.0 && k > 0
    ensures Abs(Weight(d, k)) <= d / k as real
  {
    MassAtMostOrder(d, k);
    QuotientAtLeast(Abs(Weight(d, k)), d, k as real);
  }

  /** So the window is no wider than d / threshold bars. */
  lemma WindowWidth(d: real, threshold: real, weights: seq<real>)
    requires 0.0 <= d <= 1.0 && threshold > 0.0 && IsWindow(d, threshold, weights)
    ensures (|weights| - 1) as real <= d / threshold
  {
    var width := |weights| - 1;
    if width > 0 {
      MassAtMostOrder(d, width);
      ProductNonNegative(width as real, Abs(Weight(d, width)) - threshold);
    }
    QuotientAtLeast(width as real, d, threshold);
  }

  // ---- what the kept weights add up to ----

  ghost function WeightSum(d: real, n: nat): real {
    if n == 0 then 0.0 else WeightSum(d, n - 1) + Weight(d, n - 1)
  }

  /** (1 - d)(1 - d/2) ... (1 - d/n). */
  ghost function Shrinkage(d: real, n: nat): real {
    if n == 0 then 1.0 else Prod(Shrinkage(d, n - 1), 1.0 - d / n as real)
  }

  lemma SumStep(d: real, k: nat, w: real, last: real, s: real)
    requires k > 0
    requires k == 1 ==> s == 0.0 && last == 1.0
    requires k > 1 ==> Prod((k - 1) as real, last) == -Prod(d, s)
    requires w == Next(d, k, last)
    ensures Prod(k as real, w) == -Prod(d, s + last)
  {
    NextTimes(d, k, last);
    assert d * (s + last) == d * s + d * last;
    assert -last * (d - k as real + 1.0) == (k - 1) as real * last - d * last;
  }

  /** A weight and the sum before it determine each other. */
  lemma {:induction false} WeightFromSum(d: real, k: nat)
    requires k > 0
    ensures Prod(k as real, Weight(d, k)) == -Prod(d, WeightSum(d, k))
  {
    if k > 1 {
      WeightFromSum(d, k - 1);
    }
    assert WeightSum(d, k) == WeightSum(d, k - 1) + Weight(d, k - 1);
    SumStep(d, k, Weight(d, k), Weight(d, k - 1), WeightSum(d, k - 1));
  }

  lemma ShrinkStep(d: real, k: real, s: real, w: real)
    requires k > 0.0 && Prod(k, w) == -Prod(d, s)
    ensures s + w == Prod(s, 1.0 - d / k)
  {
    Quotient(d, k);
    assert (s + w) * k == s * k - d * s;
    assert s * (1.0 - d / k) * k == s * k - s * (d / k * k);
    CancelFactor(s + w, s * (1.0 - d / k), k);
  }

  lemma {:induction false} SumIsShrinkage(d: real, n: nat)
    ensures WeightSum(d, n + 1) == Shrinkage(d, n)
  {
    if n == 0 {
      assert WeightSum(d, 1) == WeightSum(d, 0) + Weight(d, 0);
    } else {
      SumIsShrinkage(d, n - 1);
      WeightFromSum(d, n);
      ShrinkStep(d, n as real, WeightSum(d, n), Weight(d, n));
    }
  }

  lemma {:induction false} WindowSum(d: real, threshold: real, weights: seq<real>, n: nat)
    requires IsWindow(d, threshold, weights) && n <= |weights|
    ensures SumTo(weights, n) == WeightSum(d, n)
  {
    if n > 0 {
      WindowSum(d, threshold, weights, n - 1);
    }
  }

  /** The kept weights sum to the shrinkage over the window's width. */
  lemma KeptWeightsSum(d: real, threshold: real, weights: seq<real>)
    requires IsWindow(d, threshold, weights)
    ensures Sum(weights) == Shrinkage(d, |weights| - 1)
  {
    WindowSum(d, threshold, weights, |weights|);
    SumIsShrinkage(d, |weights| - 1);
  }

  /** Order 0 keeps one weight; order 1 keeps [1, -1] exactly when the threshold lets the -1 in. */
  lemma EndOrders(threshold: real, weights: seq<real>)
    requires threshold > 0.0
    ensures IsWindow(0.0, threshold, weights) <==> weights == [1.0]
    ensures IsWindow(1.0, threshold, weights) <==> weights == if threshold <= 1.0 then [1.0, -1.0] else [1.0]
  {
    assert Weight(0.0, 1) == Next(0.0, 1, Weight(0.0, 0)) == 0.0;
    assert Weight(1.0, 1) == Next(1.0, 1, Weight(1.0, 0)) == -1.0;
    assert Weight(1.0, 2) == Next(1.0, 2, Weight(1.0, 1)) == 0.0;
    if |weights| > 1 {
      assert IsWindow(0.0, threshold, weights) ==> Abs(Weight(0.0, 1)) >= threshold;
      assert IsWindow(1.0, threshold, weights) ==> Abs(Weight(1.0, 1)) >= threshold;
    }
    if |weights| > 2 {
      assert IsWindow(1.0, threshold, weights) ==> Abs(Weight(1.0, 2)) >= threshold;
    }
  }

  // ---- the convolution ----

  /** The first n terms of the full discrete convolution at t, over the indices both sequences have. */
  function ConvolveTo(values: seq<real>, weights: seq<real>, t: nat, n: nat): real
    requires n <= |weights|
  {
    if n == 0 then 0.0
    else
      ConvolveTo(values, weights, t, n - 1)
      + if 0 <= t - (n - 1) < |values| then values[t - (n - 1)] * weights[n - 1] else 0.0
  }

  /** The causal form: the weights meet the current value and the ones before it. */
  function Trailing(values: seq<real>, weights: seq<real>, t: nat): (r: seq<real>)
    requires |weights| <= t + 1 <= |values|
    ensures |r| == |weights| && forall k :: 0 <= k < |r| ==> r[k] == weights[k] * values[t - k]
  {
    seq(|weights|, k requires 0 <= k < |weights| => weights[k] * values[t - k])
  }

  lemma {:induction false} ConvolutionIsTrailing(values: seq<real>, weights: seq<real>, t: nat, n: nat)
    requires n <= |weights| <= t + 1 <= |values|
    ensures ConvolveTo(values, weights, t, n) == SumTo(Trailing(values, weights, t), n)
  {
    if n > 0 {
      ConvolutionIsTrailing(values, weights, t, n - 1);
    }
  }

  /** The value of bar t, or none during the warm-up. */
  ghost function Filtered(values: seq<real>, weights: seq<real>, t: nat): Option<real>
    requires t < |values|
  {
    if t + 1 < |weights| then None else Some(Sum(Trailing(values, weights, t)))
  }

  method FracDiff(values: seq<real>, d: real, threshold: real) returns (r: Result<seq<Option<real>>, FracDiffError>)
    ensures r == Err(NegativeOrder) <==> d < 0.0
    ensures r == Err(ThresholdNotPositive) <==> d >= 0.0 && threshold <= 0.0
    ensures r.Ok? ==> |r.value| == |values|
    ensures r.Ok? ==>
      exists weights ::
        IsWindow(d, threshold, weights) && forall t :: 0 <= t < |values| ==> r.value[t] == Filtered(values, weights, t)
  {
    var window := FracDiffWeights(d, threshold);
    if window.Err? {
      return Err(window.error);
    }
    var weights := window.value;
    var width := |weights| - 1;
    var output := new Option<real>[|values|](_ => None);
    if |values| > width {
      for t := width to |values|
        invariant forall u :: 0 <= u < t ==> output[u] == Filtered(values, weights, u)
      {
        ConvolutionIsTrailing(values, weights, t, |weights|);
        output[t] := Some(ConvolveTo(values, weights, t, |weights|));
      }
    }
    return Ok(output[..]);
  }

  // ---- what the filter does ----

  /** There is one such window. */
  lemma WindowUnique(d: real, threshold: real, a: seq<real>, b: seq<real>)
    requires IsWindow(d, threshold, a) && IsWindow(d, threshold, b)
    ensures a == b
  {
    if |a| != |b| {
      assert false;
    }
  }

  /** The value at t depends on no later bar. */
  lemma FilterIsCausal(a: seq<real>, b: seq<real>, weights: seq<real>, t: nat)
    requires t < |a| && t < |b| && a[..t + 1] == b[..t + 1]
    ensures Filtered(a, weights, t) == Filtered(b, weights, t)
  {
    if |weights| <= t + 1 {
      var x, y := Trailing(a, weights, t), Trailing(b, weights, t);
      forall k | 0 <= k < |weights| ensures x[k] == y[k] {
        assert a[..t + 1][t - k] == b[..t + 1][t - k];
      }
      SumToAgree(Trailing(a, weights, t), Trailing(b, weights, t), |weights|);
    }
  }

  lemma OneWeight(values: seq<real>, t: nat)
    requires t < |values|
    ensures Filtered(values, [1.0], t) == Some(values[t])
  {
    var terms := Trailing(values, [1.0], t);
    assert SumTo(terms, 1) == SumTo(terms, 0) + terms[0];
  }

  /** Order 0 is the identity. */
  lemma OrderZeroIsIdentity(values: seq<real>, threshold: real, weights: seq<real>, t: nat)
    requires threshold > 0.0 && t < |values| && IsWindow(0.0, threshold, weights)
    ensures Filtered(values, weights, t) == Some(values[t])
  {
    EndOrders(threshold, weights);
    OneWeight(values, t);
  }

  lemma TwoWeights(values: seq<real>, t: nat)
    requires t < |values|
    ensures Filtered(values, [1.0, -1.0], t) == if t == 0 then None else Some(values[t] - values[t - 1])
  {
    if t > 0 {
      var terms := Trailing(values, [1.0, -1.0], t);
      assert SumTo(terms, 1) == SumTo(terms, 0) + terms[0];
      assert SumTo(terms, 2) == SumTo(terms, 1) + terms[1];
    }
  }

  /** Order 1 is the first difference, unless the threshold drops its second weight. */
  lemma OrderOneIsDifference(values: seq<real>, threshold: real, weights: seq<real>, t: nat)
    requires threshold > 0.0 && t < |values| && IsWindow(1.0, threshold, weights)
    ensures threshold <= 1.0 ==>
      Filtered(values, weights, t) == (if t == 0 then None else Some(values[t] - values[t - 1]))
    ensures threshold > 1.0 ==> Filtered(values, weights, t) == Some(values[t])
  {
    EndOrders(threshold, weights);
    OneWeight(values, t);
    TwoWeights(values, t);
  }

  lemma LevelTerms(values: seq<real>, weights: seq<real>, level: real, t: nat)
    requires |weights| <= t + 1 <= |values| && forall i :: 0 <= i < |values| ==> values[i] == level
    ensures Sum(Trailing(values, weights, t)) == Prod(level, Sum(weights))
  {
    var terms := Trailing(values, weights, t);
    forall k | 0 <= k < |weights| ensures terms[k] == level * weights[k] {
      assert values[t - k] == level;
    }
    SumToScale(level, weights, terms, |weights|);
  }

  /** A constant series comes out scaled by the shrinkage: what is left of its level. */
  lemma ConstantSeries(values: seq<real>, d: real, threshold: real, weights: seq<real>, level: real, t: nat)
    requires IsWindow(d, threshold, weights) && |weights| <= t + 1 <= |values|
    requires forall i :: 0 <= i < |values| ==> values[i] == level
    ensures Filtered(values, weights, t) == Some(Prod(level, Shrinkage(d, |weights| - 1)))
  {
    LevelTerms(values, weights, level, t);
    KeptWeightsSum(d, threshold, weights);
  }
}
