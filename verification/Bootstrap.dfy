/** The sequential bootstrap and the time-decay factors (src/quant/research/labeling/bootstrap.py and weights.py). */
module Bootstrap {
  import opened Wrappers
  import opened Sums
  import opened Ordering
  import opened Uniqueness

  datatype BootstrapError = NoLabels | EmptyLabel | SamplesNotPositive | NoProbabilities

  // ---- the draw loop ----

  /** A matrix without negative entries, as an activity matrix is; the entries need not be 0 or 1. */
  ghost predicate Activity(m: Matrix, labels: nat) {
    Rectangular(m, labels) && forall t, i :: 0 <= t < |m| && 0 <= i < labels ==> m[t][i] >= 0.0
  }

  /** One over one more than the concurrency: what a bar is worth to the next label drawn. */
  function Gain(c: seq<real>): (r: seq<real>)
    ensures |r| == |c| && forall t :: 0 <= t < |r| ==> r[t] == if c[t] + 1.0 != 0.0 then 1.0 / (c[t] + 1.0) else 0.0
  {
    seq(|c|, t requires 0 <= t < |c| => if c[t] + 1.0 != 0.0 then 1.0 / (c[t] + 1.0) else 0.0)
  }

  /** The average uniqueness each label would have if it were drawn next. */
  function Candidates(m: Matrix, labels: nat, c: seq<real>): seq<real>
    requires Rectangular(m, labels) && |c| == |m| && EveryLabelActive(m, labels)
  {
    MeanOverActive(m, labels, Gain(c))
  }

  function Probability(u: seq<real>): (r: seq<real>)
    requires Sum(u) != 0.0
    ensures |r| == |u| && forall i :: 0 <= i < |r| ==> r[i] == u[i] / Sum(u)
  {
    seq(|u|, i requires 0 <= i < |u| => u[i] / Sum(u))
  }

  function Added(a: seq<real>, b: seq<real>): (r: seq<real>)
    requires |a| == |b|
    ensures |r| == |a| && forall t :: 0 <= t < |r| ==> r[t] == a[t] + b[t]
  {
    seq(|a|, t requires 0 <= t < |a| => a[t] + b[t])
  }

  /** The entries of one row in the drawn columns. */
  ghost function Picked(row: seq<real>, drawn: seq<nat>): (r: seq<real>)
    requires forall d :: 0 <= d < |drawn| ==> drawn[d] < |row|
    ensures |r| == |drawn| && forall d :: 0 <= d < |r| ==> r[d] == row[drawn[d]]
  {
    seq(|drawn|, d requires 0 <= d < |drawn| => row[drawn[d]])
  }

  ghost predicate DrawnFrom(drawn: seq<nat>, labels: nat) {
    forall d :: 0 <= d < |drawn| ==> drawn[d] < labels
  }

  /** How many drawn labels are active at each bar, a repeat counting again. */
  ghost function DrawnConcurrency(m: Matrix, labels: nat, drawn: seq<nat>): (r: seq<real>)
    requires Rectangular(m, labels) && DrawnFrom(drawn, labels)
    ensures |r| == |m| && forall t :: 0 <= t < |m| ==> r[t] == Sum(Picked(m[t], drawn))
  {
    seq(|m|, t requires 0 <= t < |m| => Sum(Picked(m[t], drawn)))
  }

  /** What each bar adds to a candidate: its activity there shared with one more than are drawn. */
  ghost function ShareAtBars(m: Matrix, labels: nat, c: seq<real>, i: nat): (r: seq<real>)
    requires Rectangular(m, labels) && |c| == |m| && i < labels && forall t :: 0 <= t < |c| ==> c[t] + 1.0 != 0.0
    ensures |r| == |m| && forall t :: 0 <= t < |m| ==> r[t] == Prod(m[t][i], 1.0 / (c[t] + 1.0))
  {
    seq(|m|, t requires 0 <= t < |m| => Prod(m[t][i], 1.0 / (c[t] + 1.0)))
  }

  /** A candidate's uniqueness times its active bars is that, summed over the bars. */
  lemma CandidateIs(m: Matrix, labels: nat, c: seq<real>, i: nat)
    requires Rectangular(m, labels) && |c| == |m| && i < labels && EveryLabelActive(m, labels)
    requires forall t :: 0 <= t < |c| ==> c[t] + 1.0 != 0.0
    ensures Prod(Candidates(m, labels, c)[i], ActiveBars(m, labels)[i]) == Sum(ShareAtBars(m, labels, c, i))
  {
    assert Masked(m, labels, i, Gain(c)) == ShareAtBars(m, labels, c, i);
    Quotient(Project(m, labels, Gain(c))[i], ActiveBars(m, labels)[i]);
  }

  lemma DrawAdds(m: Matrix, labels: nat, drawn: seq<nat>, choice: nat)
    requires Rectangular(m, labels) && DrawnFrom(drawn, labels) && choice < labels
    ensures DrawnConcurrency(m, labels, drawn + [choice])
      == Added(DrawnConcurrency(m, labels, drawn), Column(m, labels, choice))
  {
    forall t | 0 <= t < |m|
      ensures Sum(Picked(m[t], drawn + [choice])) == Sum(Picked(m[t], drawn)) + m[t][choice]
    {
      assert Picked(m[t], drawn + [choice]) == Picked(m[t], drawn) + [m[t][choice]];
      SumAppend(Picked(m[t], drawn), m[t][choice]);
    }
  }

  ghost predicate NonNegative(c: seq<real>) {
    forall t :: 0 <= t < |c| ==> c[t] >= 0.0
  }

  lemma DrawnNonNegative(m: Matrix, labels: nat, drawn: seq<nat>)
    requires Activity(m, labels) && DrawnFrom(drawn, labels)
    ensures NonNegative(DrawnConcurrency(m, labels, drawn))
  {
    forall t | 0 <= t < |m| ensures Sum(Picked(m[t], drawn)) >= 0.0 {
      SumToNonNegative(Picked(m[t], drawn), |drawn|);
    }
  }

  /** The generator: given the draw's number and a probability vector, an index into it. */
  type Generator = (nat, seq<real>) -> nat

  ghost predicate Picks(choose: Generator, labels: nat) {
    forall d, p :: |p| == labels ==> choose(d, p) < labels
  }

  /**
   * The uniqueness values make probabilities: no bar divides by zero, their sum does not, and none comes out negative.
   * The generator refuses anything else.
   */
  ghost predicate Drawable(m: Matrix, labels: nat, c: seq<real>)
    requires Rectangular(m, labels) && |c| == |m| && EveryLabelActive(m, labels)
  {
    && (forall t :: 0 <= t < |c| ==> c[t] + 1.0 != 0.0)
    && Sum(Candidates(m, labels, c)) != 0.0
    && forall i :: 0 <= i < labels ==> Probability(Candidates(m, labels, c))[i] >= 0.0
  }

  /** The first n draws, each with every label's uniqueness given the draws before it, or the refusal of one. */
  ghost function Draws(m: Matrix, labels: nat, choose: Generator, n: nat): (r: Result<seq<nat>, BootstrapError>)
    requires Rectangular(m, labels) && EveryLabelActive(m, labels) && Picks(choose, labels)
    ensures r.Ok? ==> |r.value| == n && DrawnFrom(r.value, labels)
    ensures r.Err? ==> r.error == NoProbabilities
  {
    if n == 0 then Ok([])
    else
      var before := Draws(m, labels, choose, n - 1);
      if before.Err? then before
      else
        var c := DrawnConcurrency(m, labels, before.value);
        if !Drawable(m, labels, c) then Err(NoProbabilities)
        else Ok(before.value + [choose(n - 1, Probability(Candidates(m, labels, c)))])
  }

  lemma {:induction false} RefusalStays(m: Matrix, labels: nat, choose: Generator, k: nat, n: nat)
    requires Rectangular(m, labels) && EveryLabelActive(m, labels) && Picks(choose, labels) && k <= n
    ensures Draws(m, labels, choose, k).Err? ==> Draws(m, labels, choose, n).Err?
  {
    if k < n {
      RefusalStays(m, labels, choose, k, n - 1);
    }
  }

  lemma LastDraw(m: Matrix, labels: nat, choose: Generator, n: nat)
    requires Rectangular(m, labels) && EveryLabelActive(m, labels) && Picks(choose, labels)
    requires Draws(m, labels, choose, n + 1).Ok?
    ensures Draws(m, labels, choose, n).Ok?
    ensures var before := Draws(m, labels, choose, n).value;
      var c := DrawnConcurrency(m, labels, before);
      && Drawable(m, labels, c)
      && Draws(m, labels, choose, n + 1).value == before + [choose(n, Probability(Candidates(m, labels, c)))]
  {
  }

  /** Draw d was made with the probabilities that the draws before it leave. */
  ghost predicate MadeAt(m: Matrix, labels: nat, choose: Generator, drawn: seq<nat>, d: nat)
    requires Rectangular(m, labels) && EveryLabelActive(m, labels) && d < |drawn| && DrawnFrom(drawn[..d], labels)
  {
    var c := DrawnConcurrency(m, labels, drawn[..d]);
    Drawable(m, labels, c) && drawn[d] == choose(d, Probability(Candidates(m, labels, c)))
  }

  lemma MadeAtInPrefix(m: Matrix, labels: nat, choose: Generator, before: seq<nat>, last: nat, d: nat)
    requires Rectangular(m, labels) && EveryLabelActive(m, labels) && d < |before| && DrawnFrom(before, labels)
    requires MadeAt(m, labels, choose, before, d)
    ensures (before + [last])[..d] == before[..d] && MadeAt(m, labels, choose, before + [last], d)
  {
    assert (before + [last])[..d] == before[..d];
  }

  lemma MadeLast(m: Matrix, labels: nat, choose: Generator, before: seq<nat>)
    requires Rectangular(m, labels) && EveryLabelActive(m, labels) && DrawnFrom(before, labels)
    requires Drawable(m, labels, DrawnConcurrency(m, labels, before))
    ensures var c := DrawnConcurrency(m, labels, before);
      var drawn := before + [choose(|before|, Probability(Candidates(m, labels, c)))];
      drawn[..|before|] == before && MadeAt(m, labels, choose, drawn, |before|)
  {
    var c := DrawnConcurrency(m, labels, before);
    var drawn := before + [choose(|before|, Probability(Candidates(m, labels, c)))];
    assert drawn[..|before|] == before;
  }

  /** Every draw was made from the uniqueness given the draws before it, and later draws leave it as it was. */
  lemma {:induction false} DrawnInTurn(m: Matrix, labels: nat, choose: Generator, n: nat, d: nat)
    requires Rectangular(m, labels) && EveryLabelActive(m, labels) && Picks(choose, labels) && d < n
    requires Draws(m, labels, choose, n).Ok?
    ensures MadeAt(m, labels, choose, Draws(m, labels, choose, n).value, d)
  {
    LastDraw(m, labels, choose, n - 1);
    var before := Draws(m, labels, choose, n - 1).value;
    var last := Draws(m, labels, choose, n).value[n - 1];
    if d < n - 1 {
      DrawnInTurn(m, labels, choose, n - 1, d);
      MadeAtInPrefix(m, labels, choose, before, last, d);
    } else {
      MadeLast(m, labels, choose, before);
    }
  }

  // ---- the probabilities ----

  lemma GainRange(c: real)
    requires c >= 0.0
    ensures 0.0 < 1.0 / (c + 1.0) <= 1.0
  {
    InverseAtMostOne(c + 1.0);
  }

  lemma PartOfEntry(x: real, gain: real)
    requires x >= 0.0 && 0.0 < gain <= 1.0
    ensures 0.0 <= Prod(x, gain) <= x && (x > 0.0 ==> Prod(x, gain) > 0.0)
  {
    ProductNonNegative(x, 1.0 - gain);
    ProductNonNegative(x, gain);
    if x > 0.0 {
      ProductPositive(x, gain, x * gain);
    }
  }

  lemma PositiveEntry(m: Matrix, labels: nat, i: nat) returns (t: nat)
    requires Activity(m, labels) && i < labels && ActiveBars(m, labels)[i] > 0.0
    ensures t < |m| && m[t][i] > 0.0
  {
    if forall t :: 0 <= t < |m| ==> m[t][i] == 0.0 {
      SumToConst(Column(m, labels, i), 0, |m|, 0.0);
      assert false;
    }
    t :| 0 <= t < |m| && m[t][i] != 0.0;
  }

  lemma CandidatePositive(m: Matrix, labels: nat, c: seq<real>, i: nat)
    requires Activity(m, labels) && EveryLabelActive(m, labels) && |c| == |m| && NonNegative(c) && i < labels
    ensures 0.0 < Candidates(m, labels, c)[i] <= 1.0
  {
    var shared, active := Masked(m, labels, i, Gain(c)), Column(m, labels, i);
    forall t | 0 <= t < |m| ensures 0.0 <= shared[t] <= active[t] && (m[t][i] > 0.0 ==> shared[t] > 0.0) {
      GainRange(c[t]);
      PartOfEntry(m[t][i], Gain(c)[t]);
    }
    var t := PositiveEntry(m, labels, i);
    SumToAtLeastTerm(shared, |m|, t);
    SumToMonotone(shared, active, |m|);
    UnitQuotient(Sum(shared), Sum(active));
  }

  /** Positive values divided by their sum are positive and sum to one. */
  lemma SharesOfSum(u: seq<real>)
    requires |u| > 0 && Sum(u) > 0.0 && forall i :: 0 <= i < |u| ==> u[i] > 0.0
    ensures Sum(Probability(u)) == 1.0 && forall i :: 0 <= i < |u| ==> Probability(u)[i] > 0.0
  {
    var p, total := Probability(u), Sum(u);
    forall i | 0 <= i < |u| ensures p[i] > 0.0 && u[i] == total * p[i] {
      Quotient(u[i], total);
      PositiveQuotient(u[i], total);
    }
    SumToScale(total, p, u, |u|);
    CancelFactor(Sum(p), 1.0, total);
  }

  /** Every label can be drawn, and the probabilities sum to one. */
  lemma ProbabilityValid(m: Matrix, labels: nat, c: seq<real>)
    requires Activity(m, labels) && labels > 0 && EveryLabelActive(m, labels) && |c| == |m| && NonNegative(c)
    ensures Sum(Candidates(m, labels, c)) > 0.0
    ensures var p := Probability(Candidates(m, labels, c)); Sum(p) == 1.0 && forall i :: 0 <= i < labels ==> p[i] > 0.0
  {
    var u := Candidates(m, labels, c);
    forall i | 0 <= i < labels ensures u[i] > 0.0 {
      CandidatePositive(m, labels, c, i);
    }
    SumToAtLeastTerm(u, labels, 0);
    SharesOfSum(u);
  }

  // ---- the draws ----

  /** Without negative entries every draw has its probabilities. */
  lemma {:induction false} ActivityAlwaysDraws(m: Matrix, labels: nat, choose: Generator, n: nat)
    requires Activity(m, labels) && labels > 0 && EveryLabelActive(m, labels) && Picks(choose, labels)
    ensures Draws(m, labels, choose, n).Ok?
  {
    if n > 0 {
      ActivityAlwaysDraws(m, labels, choose, n - 1);
      var before := Draws(m, labels, choose, n - 1).value;
      DrawnNonNegative(m, labels, before);
      ProbabilityValid(m, labels, DrawnConcurrency(m, labels, before));
    }
  }

  lemma NothingDrawn(m: Matrix, labels: nat)
    requires Rectangular(m, labels)
    ensures DrawnConcurrency(m, labels, []) == Repeat(0.0, |m|)
  {
  }

  /** What numpy's generator refuses: a division by zero on the way to the probabilities, or a negative one. */
  method Refused(m: Matrix, labels: nat, c: seq<real>, u: seq<real>) returns (refused: bool)
    requires Rectangular(m, labels) && |c| == |m| && EveryLabelActive(m, labels) && u == Candidates(m, labels, c)
    ensures refused <==> !Drawable(m, labels, c)
  {
    if t :| 0 <= t < |c| && c[t] == -1.0 {
      return true;
    }
    if Sum(u) == 0.0 {
      return true;
    }
    var p := Probability(u);
    return exists i :: 0 <= i < |p| && p[i] < 0.0;
  }

  /** The draw loop. */
  method DrawAll(m: Matrix, labels: nat, n: nat, choose: Generator) returns (r: Result<seq<nat>, BootstrapError>)
    requires Rectangular(m, labels) && EveryLabelActive(m, labels) && Picks(choose, labels)
    ensures r == Draws(m, labels, choose, n)
  {
    var concurrency := Repeat(0.0, |m|);
    var drawn: seq<nat> := [];
    NothingDrawn(m, labels);
    for draw := 0 to n
      invariant Draws(m, labels, choose, draw) == Ok(drawn) && concurrency == DrawnConcurrency(m, labels, drawn)
    {
      var u := Candidates(m, labels, concurrency);
      var refused := Refused(m, labels, concurrency, u);
      if refused {
        assert Draws(m, labels, choose, draw + 1).Err?;
        RefusalStays(m, labels, choose, draw + 1, n);
        return Err(NoProbabilities);
      }
      var choice := choose(draw, Probability(u));
      DrawAdds(m, labels, drawn, choice);
      drawn := drawn + [choice];
      concurrency := Added(concurrency, Column(m, labels, choice));
    }
    return Ok(drawn);
  }

  /** The draws, refused only where the checks fail or a draw has no probabilities. */
  method SequentialBootstrap(m: Matrix, labels: nat, samples: Option<int>, choose: Generator)
    returns (r: Result<seq<nat>, BootstrapError>)
    requires Rectangular(m, labels) && Picks(choose, labels)
    ensures r == Err(NoLabels) <==> labels == 0
    ensures r == Err(EmptyLabel) <==> labels > 0 && !EveryLabelActive(m, labels)
    ensures r == Err(SamplesNotPositive) <==>
      labels > 0 && EveryLabelActive(m, labels) && samples.Some? && samples.value <= 0
    ensures labels > 0 && EveryLabelActive(m, labels) && (samples.Some? ==> samples.value > 0) ==>
      r == Draws(m, labels, choose, if samples.None? then labels else samples.value)
  {
    if labels == 0 {
      return Err(NoLabels);
    }
    var active := ActiveBars(m, labels);
    if i :| 0 <= i < labels && active[i] <= 0.0 {
      return Err(EmptyLabel);
    }
    var n := if samples.None? then labels else samples.value;
    if n <= 0 {
      return Err(SamplesNotPositive);
    }
    r := DrawAll(m, labels, n, choose);
  }

  // ---- a uniqueness-aware draw beats a uniform one ----

  function Squares(u: seq<real>): (r: seq<real>)
    ensures |r| == |u| && forall i :: 0 <= i < |r| ==> r[i] == Prod(u[i], u[i])
  {
    seq(|u|, i requires 0 <= i < |u| => Prod(u[i], u[i]))
  }

  ghost predicate AllEqual(u: seq<real>, n: nat)
    requires n <= |u|
  {
    forall i, j :: 0 <= i < j < n ==> u[i] == u[j]
  }

  /** The squared distances of the first n values from x. */
  ghost function Distance(u: seq<real>, x: real, n: nat): real
    requires n <= |u|
  {
    if n == 0 then 0.0 else Distance(u, x, n - 1) + Prod(u[n - 1] - x, u[n - 1] - x)
  }

  lemma SquareSign(d: real)
    ensures Prod(d, d) >= 0.0 && (Prod(d, d) == 0.0 <==> d == 0.0)
  {
    if d != 0.0 {
      SquarePositive(d, d * d);
    }
  }

  lemma {:induction false} DistanceSign(u: seq<real>, x: real, n: nat)
    requires n <= |u|
    ensures Distance(u, x, n) >= 0.0
    ensures Distance(u, x, n) == 0.0 <==> forall i :: 0 <= i < n ==> u[i] == x
  {
    if n > 0 {
      DistanceSign(u, x, n - 1);
      SquareSign(u[n - 1] - x);
    }
  }

  /** The squared distances of n values from x, by their squares and their total. */
  ghost function Expanded(squares: real, total: real, n: real, x: real): real {
    squares - 2.0 * (x * total) + n * (x * x)
  }

  lemma OneDistance(squares: real, total: real, n: real, x: real, v: real)
    ensures Expanded(squares + Prod(v, v), total + v, n + 1.0, x) == Expanded(squares, total, n, x) + Prod(v - x, v - x)
  {
    assert x * (total + v) == x * total + x * v;
    assert (v - x) * (v - x) == v * v - 2.0 * (x * v) + x * x;
    assert (n + 1.0) * (x * x) == n * (x * x) + x * x;
  }

  lemma {:induction false} DistanceIs(u: seq<real>, x: real, n: nat)
    requires n <= |u|
    ensures Distance(u, x, n) == Expanded(SumTo(Squares(u), n), SumTo(u, n), n as real, x)
  {
    if n > 0 {
      DistanceIs(u, x, n - 1);
      OneDistance(SumTo(Squares(u), n - 1), SumTo(u, n - 1), (n - 1) as real, x, u[n - 1]);
    }
  }

  /** By how much n values with this sum of squares exceed the square of their total. */
  ghost function Excess(n: real, squares: real, total: real): real {
    n * squares - total * total
  }

  lemma NextExcess(n: real, squares: real, total: real, x: real, distance: real)
    requires distance == Expanded(squares, total, n, x)
    ensures Excess(n + 1.0, squares + Prod(x, x), total + x) == Excess(n, squares, total) + distance
  {
    assert (total + x) * (total + x) == total * total + 2.0 * (x * total) + x * x;
    assert (n + 1.0) * (squares + x * x) == n * squares + squares + n * (x * x) + x * x;
  }

  ghost function ExcessTo(u: seq<real>, n: nat): real
    requires n <= |u|
  {
    Excess(n as real, SumTo(Squares(u), n), SumTo(u, n))
  }

  lemma ExcessStep(u: seq<real>, n: nat)
    requires n < |u|
    ensures ExcessTo(u, n + 1) == ExcessTo(u, n) + Distance(u, u[n], n)
  {
    DistanceIs(u, u[n], n);
    NextExcess(n as real, SumTo(Squares(u), n), SumTo(u, n), u[n], Distance(u, u[n], n));
    assert (n + 1) as real == n as real + 1.0;
  }

  /** The number of values times their sum of squares is at least the square of the sum; equal for equal values only. */
  lemma {:induction false} SquaresOutweigh(u: seq<real>, n: nat)
    requires n <= |u|
    ensures ExcessTo(u, n) >= 0.0 && (ExcessTo(u, n) == 0.0 <==> AllEqual(u, n))
  {
    if n > 0 {
      SquaresOutweigh(u, n - 1);
      ExcessStep(u, n - 1);
      DistanceSign(u, u[n - 1], n - 1);
    }
  }

  /** The expected uniqueness of a draw in proportion to uniqueness, and of a uniform draw. */
  ghost function Expected(u: seq<real>): real
    requires Sum(u) != 0.0
  {
    Sum(Times(Probability(u), u))
  }

  ghost function Mean(u: seq<real>): real
    requires |u| > 0
  {
    Sum(u) / |u| as real
  }

  lemma ExpectedIs(u: seq<real>)
    requires Sum(u) != 0.0
    ensures Prod(Expected(u), Sum(u)) == Sum(Squares(u))
  {
    var terms := Times(Probability(u), u);
    forall i | 0 <= i < |u| ensures Squares(u)[i] == Sum(u) * terms[i] {
      Quotient(u[i], Sum(u));
      assert Sum(u) * (u[i] / Sum(u) * u[i]) == (u[i] / Sum(u) * Sum(u)) * u[i];
    }
    SumToScale(Sum(u), terms, Squares(u), |u|);
  }

  lemma FactorSign(d: real, scale: real)
    requires scale > 0.0
    ensures d * scale >= 0.0 ==> d >= 0.0
    ensures d * scale == 0.0 <==> d == 0.0
  {
    if d < 0.0 {
      ProductPositive(-d, scale, -d * scale);
    } else if d > 0.0 {
      ProductPositive(d, scale, d * scale);
    }
  }

  lemma MeansCompare(expected: real, mean: real, n: real, total: real, squares: real)
    requires n > 0.0 && total > 0.0 && mean * n == total && Prod(expected, total) == squares
    ensures Excess(n, squares, total) >= 0.0 ==> expected >= mean
    ensures Excess(n, squares, total) == 0.0 <==> expected == mean
  {
    var scale, d := n * total, expected - mean;
    ProductPositive(n, total, scale);
    assert Excess(n, squares, total) == d * scale by {
      assert total * total == (mean * n) * total;
    }
    FactorSign(d, scale);
  }

  /** Drawing in proportion to uniqueness expects at least the mean uniqueness, and more unless all values are equal. */
  lemma DrawBeatsUniform(u: seq<real>)
    requires |u| > 0 && Sum(u) > 0.0
    ensures Expected(u) >= Mean(u) && (Expected(u) == Mean(u) <==> AllEqual(u, |u|))
  {
    var n, total := |u| as real, Sum(u);
    ExpectedIs(u);
    SquaresOutweigh(u, |u|);
    Quotient(total, n);
    MeansCompare(Expected(u), Mean(u), n, total, Sum(Squares(u)));
  }

  // ---- what a draw does to the other candidates ----

  lemma MoreIsLess(low: real, high: real)
    requires 0.0 <= low <= high
    ensures 1.0 / (high + 1.0) <= 1.0 / (low + 1.0)
    ensures low < high ==> 1.0 / (high + 1.0) < 1.0 / (low + 1.0)
  {
    var a, b := 1.0 / (low + 1.0), 1.0 / (high + 1.0);
    GainRange(high);
    Quotient(1.0, low + 1.0);
    Quotient(1.0, high + 1.0);
    assert (a - b) * (low + 1.0) == b * (high - low);
    ProductNonNegative(b, high - low);
    FactorNonNegative(a - b, low + 1.0);
    if low < high {
      ProductPositive(b, high - low, b * (high - low));
    }
  }

  /** The two labels share an active bar. */
  ghost predicate Overlap(m: Matrix, labels: nat, i: nat, j: nat)
    requires Rectangular(m, labels) && i < labels && j < labels
  {
    exists t :: 0 <= t < |m| && m[t][i] > 0.0 && m[t][j] > 0.0
  }

  lemma ScaledGap(x: real, after: real, before: real)
    requires x >= 0.0 && after <= before
    ensures Prod(x, after) <= Prod(x, before) && (Prod(x, after) == Prod(x, before) <==> x == 0.0 || after == before)
  {
    ProductNonNegative(x, before - after);
    if x > 0.0 && after < before {
      ProductPositive(x, before - after, x * (before - after));
    }
  }

  lemma TermAfterDraw(m: Matrix, labels: nat, c: seq<real>, i: nat, j: nat, t: nat)
    requires Activity(m, labels) && |c| == |m| && NonNegative(c) && i < labels && j < labels && t < |m|
    ensures var before := Masked(m, labels, i, Gain(c))[t];
      var after := Masked(m, labels, i, Gain(Added(c, Column(m, labels, j))))[t];
      after <= before && (after == before <==> !(m[t][i] > 0.0 && m[t][j] > 0.0))
  {
    MoreIsLess(c[t], c[t] + m[t][j]);
    ScaledGap(m[t][i], Gain(Added(c, Column(m, labels, j)))[t], Gain(c)[t]);
  }

  lemma DividedSums(a: real, b: real, y: real)
    requires y > 0.0 && a <= b
    ensures a / y <= b / y && (a / y == b / y <==> a == b)
  {
    Quotient(a, y);
    Quotient(b, y);
    assert (b / y - a / y) * y == b - a;
    FactorNonNegative(b / y - a / y, y);
  }

  /** Drawing label j never raises a candidate's uniqueness, and leaves it alone exactly when the two share no bar. */
  lemma DrawLowersOverlapping(m: Matrix, labels: nat, c: seq<real>, i: nat, j: nat)
    requires Activity(m, labels) && EveryLabelActive(m, labels)
    requires |c| == |m| && NonNegative(c) && i < labels && j < labels
    ensures var before, after := Candidates(m, labels, c)[i], Candidates(m, labels, Added(c, Column(m, labels, j)))[i];
      after <= before && (after == before <==> !Overlap(m, labels, i, j))
  {
    var before, after := Masked(m, labels, i, Gain(c)), Masked(m, labels, i, Gain(Added(c, Column(m, labels, j))));
    forall t | 0 <= t < |m|
      ensures after[t] <= before[t]
      ensures after[t] == before[t] <==> !(m[t][i] > 0.0 && m[t][j] > 0.0)
    {
      TermAfterDraw(m, labels, c, i, j, t);
    }
    SumsAgreeIff(after, before);
    DividedSums(Sum(after), Sum(before), ActiveBars(m, labels)[i]);
  }

  // ---- time decay ----

  datatype DecayError = LastWeightTooLow | DivisionByZero

  /** The running totals of the uniqueness values, oldest first. */
  function Cumulative(u: seq<real>): (r: seq<real>)
    ensures |r| == |u| && forall k: nat :: k < |r| ==> r[k] == SumTo(u, k + 1)
  {
    seq(|u|, k requires 0 <= k < |u| => SumTo(u, k + 1))
  }

  function Slope(lastWeight: real, total: real): real
    requires total != 0.0 && lastWeight != -1.0
  {
    if lastWeight >= 0.0 then (1.0 - lastWeight) / total else 1.0 / ((lastWeight + 1.0) * total)
  }

  /** The factor of a label at a given running total; what falls below zero is cut off there. */
  function Decay(lastWeight: real, total: real, cumulative: real): real
    requires total != 0.0 && lastWeight != -1.0
  {
    Max(0.0, 1.0 - Prod(total, Slope(lastWeight, total)) + Prod(cumulative, Slope(lastWeight, total)))
  }

  /** Event times as the sort's keys. */
  function TimeKeys(times: seq<int>): (r: seq<real>)
    ensures |r| == |times| && forall i :: 0 <= i < |r| ==> r[i] == times[i] as real
  {
    seq(|times|, i requires 0 <= i < |times| => times[i] as real)
  }

  /** Every factor is the clamped line at its own running total. */
  ghost predicate IsDecay(u: seq<real>, lastWeight: real, factors: seq<real>)
    requires lastWeight != -1.0 && Sum(u) != 0.0
  {
    |factors| == |u| && forall k: nat :: k < |u| ==> factors[k] == Decay(lastWeight, Sum(u), SumTo(u, k + 1))
  }

  /** The factors of values that come oldest first. A last weight of exactly -1 passes the check and divides by zero. */
  method DecayFactors(u: seq<real>, lastWeight: real) returns (r: Result<seq<real>, DecayError>)
    requires |u| > 0 && lastWeight >= -1.0
    ensures if Sum(u) == 0.0 || lastWeight == -1.0 then r == Err(DivisionByZero)
      else r.Ok? && IsDecay(u, lastWeight, r.value)
  {
    var cumulative := Cumulative(u);
    var total := cumulative[|u| - 1];
    if total == 0.0 || lastWeight == -1.0 {
      return Err(DivisionByZero);
    }
    var slope := Slope(lastWeight, total);
    var constant := 1.0 - Prod(total, slope);
    var decay := new real[|u|](k requires 0 <= k < |u| => constant + Prod(cumulative[k], slope));
    for k := 0 to |u|
      invariant forall j: nat :: j < |u| ==>
        decay[j] == if j < k then Decay(lastWeight, total, cumulative[j]) else constant + Prod(cumulative[j], slope)
    {
      if decay[k] < 0.0 {
        decay[k] := 0.0;
      }
    }
    return Ok(decay[..]);
  }

  /** Factors by event time, earliest first. */
  datatype Decayed = Decayed(times: seq<int>, factors: seq<real>)

  /** The sort by event time, the check of the last weight, and the factors. */
  method TimeDecayWeights(times: seq<int>, u: seq<real>, lastWeight: real) returns (r: Result<Decayed, DecayError>)
    requires |times| == |u|
    ensures r == Err(LastWeightTooLow) <==> lastWeight < -1.0
    ensures r == Err(DivisionByZero) <==> |u| > 0 && lastWeight >= -1.0 && (Sum(u) == 0.0 || lastWeight == -1.0)
    ensures r.Ok? ==> var order := Argsort(TimeKeys(times));
      && r.value.times == Gather(times, order) && Sum(Gather(u, order)) == Sum(u)
      && (|u| > 0 ==> Sum(u) != 0.0 && lastWeight != -1.0 && IsDecay(Gather(u, order), lastWeight, r.value.factors))
    ensures r.Ok? ==> forall i, j :: 0 <= i < j < |times| ==> r.value.times[i] <= r.value.times[j]
  {
    if lastWeight < -1.0 {
      return Err(LastWeightTooLow);
    }
    var keys := TimeKeys(times);
    var order := Argsort(keys);
    if |u| == 0 {
      return Ok(Decayed([], []));
    }
    SortedIndicesStable(keys, |keys|);
    SumInSortedOrder(keys, u, |u|);
    var factors := DecayFactors(Gather(u, order), lastWeight);
    if factors.Err? {
      return Err(factors.error);
    }
    var sorted := Gather(times, order);
    forall i, j | 0 <= i < j < |sorted| ensures sorted[i] <= sorted[j] {
      assert Before(keys, order[i], order[j]);
    }
    return Ok(Decayed(sorted, factors.value));
  }

  lemma SignOfQuotient(p: real, m: real)
    requires m > 0.0
    ensures (p / m >= 0.0 <==> p >= 0.0) && (p / m == 0.0 <==> p == 0.0)
  {
    Quotient(p, m);
    if p < 0.0 {
      PositiveQuotient(-p, m);
    } else if p > 0.0 {
      PositiveQuotient(p, m);
    }
  }

  lemma SlopeTimesTotal(lastWeight: real, total: real)
    requires total > 0.0 && -1.0 < lastWeight
    ensures var s := Slope(lastWeight, total);
      && (s >= 0.0 <==> lastWeight <= 1.0) && (s == 0.0 <==> lastWeight == 1.0)
      && if lastWeight >= 0.0 then Prod(total, s) == 1.0 - lastWeight
         else s > 0.0 && Prod(Prod(total, s), lastWeight + 1.0) == 1.0
  {
    if lastWeight >= 0.0 {
      Quotient(1.0 - lastWeight, total);
      SignOfQuotient(1.0 - lastWeight, total);
    } else {
      ProductPositive(lastWeight + 1.0, total, (lastWeight + 1.0) * total);
      PositiveQuotient(1.0, (lastWeight + 1.0) * total);
      Quotient(1.0, (lastWeight + 1.0) * total);
    }
  }

  ghost predicate AllPositive(u: seq<real>) {
    forall k :: 0 <= k < |u| ==> u[k] > 0.0
  }

  lemma {:induction false} CumulativeAscends(u: seq<real>, a: nat, b: nat)
    requires AllPositive(u) && a <= b <= |u|
    ensures SumTo(u, a) <= SumTo(u, b) && (a < b ==> SumTo(u, a) < SumTo(u, b))
  {
    if a < b {
      CumulativeAscends(u, a, b - 1);
    }
  }

  lemma DecayBelow(total: real, slope: real, x: real)
    ensures 1.0 - Prod(total, slope) + Prod(x, slope) == 1.0 - Prod(total - x, slope)
  {
  }

  lemma ProductsOrdered(p: real, q: real, slope: real)
    requires 0.0 <= p < q
    ensures slope >= 0.0 ==> 0.0 <= Prod(p, slope) <= Prod(q, slope)
    ensures slope < 0.0 ==> 0.0 >= Prod(p, slope) > Prod(q, slope)
  {
    if slope >= 0.0 {
      ProdOrdered(0.0, p, slope);
      ProdOrdered(p, q, slope);
    } else {
      ProductNonNegative(p, -slope);
      ProductPositive(q - p, -slope, (q - p) * -slope);
    }
  }

  lemma DecayOrdered(lastWeight: real, total: real, x: real, y: real)
    requires total != 0.0 && lastWeight != -1.0 && x < y <= total
    ensures Decay(lastWeight, total, total) == 1.0
    ensures
      if Slope(lastWeight, total) >= 0.0 then 0.0 <= Decay(lastWeight, total, x) <= Decay(lastWeight, total, y) <= 1.0
      else Decay(lastWeight, total, x) > Decay(lastWeight, total, y) >= 1.0
  {
    var s := Slope(lastWeight, total);
    DecayBelow(total, s, x);
    DecayBelow(total, s, y);
    ProductsOrdered(total - y, total - x, s);
  }

  /** The newest label keeps weight 1; an older one weighs no more than a newer unless the last weight is above 1. */
  lemma DecayAscendsToOne(u: seq<real>, lastWeight: real, a: nat, b: nat)
    requires AllPositive(u) && -1.0 < lastWeight && a < b < |u|
    ensures Sum(u) > 0.0 && Decay(lastWeight, Sum(u), Sum(u)) == 1.0
    ensures var older, newer := Decay(lastWeight, Sum(u), SumTo(u, a + 1)), Decay(lastWeight, Sum(u), SumTo(u, b + 1));
      && (older <= newer <==> lastWeight <= 1.0)
      && if lastWeight <= 1.0 then 0.0 <= older && newer <= 1.0 else 1.0 <= newer
  {
    CumulativeAscends(u, 0, |u|);
    SlopeTimesTotal(lastWeight, Sum(u));
    CumulativeAscends(u, a + 1, b + 1);
    CumulativeAscends(u, b + 1, |u|);
    DecayOrdered(lastWeight, Sum(u), SumTo(u, a + 1), SumTo(u, b + 1));
  }

  /**
   * With no negative last weight the oldest factor lies above it by the slope times its own uniqueness, and
   * meets it only when nothing decays.
   */
  lemma OldestFactor(u: seq<real>, lastWeight: real)
    requires AllPositive(u) && |u| > 0 && 0.0 <= lastWeight <= 1.0 && Sum(u) > 0.0
    ensures Decay(lastWeight, Sum(u), u[0]) == lastWeight + Prod(u[0], Slope(lastWeight, Sum(u)))
    ensures Decay(lastWeight, Sum(u), u[0]) == lastWeight <==> lastWeight == 1.0
  {
    var s := Slope(lastWeight, Sum(u));
    SlopeTimesTotal(lastWeight, Sum(u));
    ProductNonNegative(s, u[0]);
    if s > 0.0 {
      ProductPositive(s, u[0], s * u[0]);
    }
  }

  lemma ZeroScale(s: real, total: real, scale: real, cumulative: real, raw: real)
    requires s > 0.0 && scale > 0.0 && Prod(Prod(total, s), scale) == 1.0
    requires raw == 1.0 - Prod(total, s) + Prod(cumulative, s)
    ensures raw <= 0.0 <==> cumulative <= (1.0 - scale) * total
  {
    var gap := cumulative - (1.0 - scale) * total;
    assert raw == s * gap by {
      assert s * gap == s * cumulative - s * total + s * total * scale;
    }
    if gap > 0.0 {
      ProductPositive(s, gap, raw);
    } else {
      ProductNonNegative(s, -gap);
    }
  }

  /** With a negative last weight exactly the oldest fraction -lastWeight of the total uniqueness is zeroed. */
  lemma ZeroedFraction(lastWeight: real, total: real, cumulative: real)
    requires -1.0 < lastWeight < 0.0 && total > 0.0
    ensures Decay(lastWeight, total, cumulative) == 0.0 <==> cumulative <= -lastWeight * total
  {
    var s, scale := Slope(lastWeight, total), lastWeight + 1.0;
    SlopeTimesTotal(lastWeight, total);
    var raw := 1.0 - Prod(total, s) + Prod(cumulative, s);
    ZeroScale(s, total, scale, cumulative, raw);
  }
}
