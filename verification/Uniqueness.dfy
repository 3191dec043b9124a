/** Concurrency-based sample weights (src/quant/research/labeling/weights.py). */
module Uniqueness {
  import opened Wrappers
  import opened Sums

  /** One row per bar, one column per label. */
  type Matrix = seq<seq<real>>

  ghost predicate Indicator(m: Matrix, labels: nat) {
    Rectangular(m, labels) && forall t, i :: 0 <= t < |m| && 0 <= i < labels ==> m[t][i] == 0.0 || m[t][i] == 1.0
  }

  // ---- building the matrix from label spans ----

  /** First and last active bar of a label. */
  datatype Span = Span(first: nat, last: nat)

  datatype SpanError = BarsUnordered | StartsUnordered | StartNotABar | EndNotABar | EndBeforeStart

  function Find(times: seq<int>, t: int): (r: int)
    ensures -1 <= r < |times|
    ensures r >= 0 ==> times[r] == t
    ensures r < 0 <==> t !in times
  {
    if |times| == 0 then -1
    else if times[|times| - 1] == t then |times| - 1
    else
      assert times == times[..|times| - 1] + [times[|times| - 1]];
      Find(times[..|times| - 1], t)
  }

  /** Ascending without repeats. */
  ghost predicate Ascending(times: seq<int>) {
    forall i, j :: 0 <= i < j < |times| ==> times[i] < times[j]
  }

  /** Every label starts and ends at a bar, no earlier than it starts. */
  ghost predicate SpansOnBars(times: seq<int>, starts: seq<int>, ends: seq<int>)
    requires |starts| == |ends|
  {
    forall i :: 0 <= i < |starts| ==> starts[i] in times && ends[i] in times && starts[i] <= ends[i]
  }

  lemma FindsInOrder(times: seq<int>, a: int, b: int)
    requires Ascending(times) && a in times && b in times
    ensures Find(times, a) <= Find(times, b) <==> a <= b
  {
  }

  lemma FindsAgree(times: seq<int>, starts: seq<int>, ends: seq<int>)
    requires |starts| == |ends| && Ascending(times)
    requires forall i :: 0 <= i < |starts| ==> starts[i] in times && ends[i] in times
    ensures forall i :: 0 <= i < |starts| ==> (Find(times, starts[i]) <= Find(times, ends[i]) <==> starts[i] <= ends[i])
  {
    forall i | 0 <= i < |starts| ensures Find(times, starts[i]) <= Find(times, ends[i]) <==> starts[i] <= ends[i] {
      FindsInOrder(times, starts[i], ends[i]);
    }
  }

  ghost predicate SpansWithin(bars: nat, spans: seq<Span>) {
    forall i :: 0 <= i < |spans| ==> spans[i].first <= spans[i].last < bars
  }

  function SpansOf(times: seq<int>, starts: seq<int>, ends: seq<int>): (r: seq<Span>)
    requires |starts| == |ends|
    requires forall i :: 0 <= i < |starts| ==> 0 <= Find(times, starts[i]) <= Find(times, ends[i])
    ensures |r| == |starts| && SpansWithin(|times|, r)
    ensures forall i :: 0 <= i < |r| ==> times[r[i].first] == starts[i] && times[r[i].last] == ends[i]
  {
    seq(|starts|, i requires 0 <= i < |starts| => Span(Find(times, starts[i]), Find(times, ends[i])))
  }

  method LabelPositions(times: seq<int>, starts: seq<int>, ends: seq<int>) returns (r: Result<seq<Span>, SpanError>)
    requires |starts| == |ends|
    ensures r == Err(BarsUnordered) <==> !Ascending(times)
    ensures r == Err(StartsUnordered) <==> Ascending(times) && !Ascending(starts)
    ensures r.Ok? <==> Ascending(times) && Ascending(starts) && SpansOnBars(times, starts, ends)
    ensures r.Ok? ==> |r.value| == |starts| && SpansWithin(|times|, r.value)
    ensures r.Ok? ==> forall i :: 0 <= i < |starts| ==>
      times[r.value[i].first] == starts[i] && times[r.value[i].last] == ends[i]
  {
    if i, j :| 0 <= i < j < |times| && times[i] >= times[j] {
      return Err(BarsUnordered);
    }
    if i, j :| 0 <= i < j < |starts| && starts[i] >= starts[j] {
      return Err(StartsUnordered);
    }
    if i :| 0 <= i < |starts| && Find(times, starts[i]) < 0 {
      return Err(StartNotABar);
    }
    if i :| 0 <= i < |ends| && Find(times, ends[i]) < 0 {
      return Err(EndNotABar);
    }
    FindsAgree(times, starts, ends);
    if i :| 0 <= i < |ends| && Find(times, ends[i]) < Find(times, starts[i]) {
      return Err(EndBeforeStart);
    }
    return Ok(SpansOf(times, starts, ends));
  }

  function Activity(s: Span, t: nat): real {
    if s.first <= t <= s.last then 1.0 else 0.0
  }

  /** A label is active from its first bar to its last. */
  function FromSpans(bars: nat, spans: seq<Span>): (r: Matrix)
    ensures |r| == bars && Rectangular(r, |spans|)
    ensures forall t, i :: 0 <= t < bars && 0 <= i < |spans| ==> r[t][i] == Activity(spans[i], t)
  {
    seq(bars, t requires 0 <= t < bars => seq(|spans|, i requires 0 <= i < |spans| => Activity(spans[i], t)))
  }

  /** The matrix filled column by column. */
  method BuildMatrix(bars: nat, spans: seq<Span>) returns (matrix: array2<real>)
    requires SpansWithin(bars, spans)
    ensures fresh(matrix) && matrix.Length0 == bars && matrix.Length1 == |spans|
    ensures forall t, i :: 0 <= t < bars && 0 <= i < |spans| ==> matrix[t, i] == FromSpans(bars, spans)[t][i]
  {
    matrix := new real[bars, |spans|]((t, i) => 0.0);
    for column := 0 to |spans|
      invariant forall t, i :: 0 <= t < bars && 0 <= i < |spans| ==>
        matrix[t, i] == if i < column then Activity(spans[i], t) else 0.0
    {
      var span := spans[column];
      for bar := span.first to span.last + 1
        invariant forall t, i :: 0 <= t < bars && 0 <= i < |spans| && i != column ==>
          matrix[t, i] == if i < column then Activity(spans[i], t) else 0.0
        invariant forall t :: 0 <= t < bars ==> matrix[t, column] == if span.first <= t < bar then 1.0 else 0.0
      {
        matrix[bar, column] := 1.0;
      }
    }
  }

  // ---- the weights ----

  function Concurrency(m: Matrix): seq<real> {
    RowSums(m)
  }

  function Inverse(c: seq<real>): (r: seq<real>)
    ensures |r| == |c| && forall t :: 0 <= t < |r| ==> r[t] == if c[t] > 0.0 then 1.0 / c[t] else 0.0
  {
    seq(|c|, t requires 0 <= t < |c| => if c[t] > 0.0 then 1.0 / c[t] else 0.0)
  }

  /** Column i of the matrix times a value per bar. */
  function Masked(m: Matrix, labels: nat, i: nat, v: seq<real>): (r: seq<real>)
    requires Rectangular(m, labels) && i < labels && |v| == |m|
    ensures |r| == |m| && forall t :: 0 <= t < |r| ==> r[t] == Prod(m[t][i], v[t])
  {
    seq(|m|, t requires 0 <= t < |m| => Prod(m[t][i], v[t]))
  }

  /** The transposed matrix times a vector over bars. */
  function Project(m: Matrix, labels: nat, v: seq<real>): (r: seq<real>)
    requires Rectangular(m, labels) && |v| == |m|
    ensures |r| == labels && forall i :: 0 <= i < labels ==> r[i] == Sum(Masked(m, labels, i, v))
  {
    seq(labels, i requires 0 <= i < labels => Sum(Masked(m, labels, i, v)))
  }

  function ActiveBars(m: Matrix, labels: nat): (r: seq<real>)
    requires Rectangular(m, labels)
    ensures |r| == labels && forall i :: 0 <= i < labels ==> r[i] == Sum(Column(m, labels, i))
  {
    seq(labels, i requires 0 <= i < labels => Sum(Column(m, labels, i)))
  }

  ghost predicate EveryLabelActive(m: Matrix, labels: nat)
    requires Rectangular(m, labels)
  {
    forall i :: 0 <= i < labels ==> ActiveBars(m, labels)[i] > 0.0
  }

  /** The mean of a bar value over each label's active bars. */
  function MeanOverActive(m: Matrix, labels: nat, v: seq<real>): (r: seq<real>)
    requires Rectangular(m, labels) && |v| == |m| && EveryLabelActive(m, labels)
    ensures |r| == labels && forall i :: 0 <= i < labels ==> r[i] == Project(m, labels, v)[i] / ActiveBars(m, labels)[i]
  {
    seq(labels, i requires 0 <= i < labels => Project(m, labels, v)[i] / ActiveBars(m, labels)[i])
  }

  function AverageUniqueness(m: Matrix, labels: nat): seq<real>
    requires Rectangular(m, labels) && EveryLabelActive(m, labels)
  {
    MeanOverActive(m, labels, Inverse(Concurrency(m)))
  }

  function AbsAll(v: seq<real>): (r: seq<real>)
    ensures |r| == |v| && forall i :: 0 <= i < |r| ==> r[i] == Abs(v[i])
  {
    seq(|v|, i requires 0 <= i < |v| => Abs(v[i]))
  }

  /** Each bar's return divided among its active labels. */
  function SharedReturns(m: Matrix, moves: seq<real>): (r: seq<real>)
    requires |moves| == |m|
    ensures |r| == |m| && forall t :: 0 <= t < |r| ==> r[t] == Prod(moves[t], Inverse(Concurrency(m))[t])
  {
    seq(|m|, t requires 0 <= t < |m| => Prod(moves[t], Inverse(Concurrency(m))[t]))
  }

  /** The raw magnitudes of each label's share of the bar returns. */
  function Attribution(m: Matrix, labels: nat, moves: seq<real>): (r: seq<real>)
    requires Rectangular(m, labels) && |moves| == |m|
    ensures |r| == labels
  {
    AbsAll(Project(m, labels, SharedReturns(m, moves)))
  }

  /** Scaled to average one, unless they are all zero. */
  function Normalized(weights: seq<real>): seq<real> {
    if Sum(weights) > 0.0 then Scaled(|weights| as real / Sum(weights), weights) else weights
  }

  // ---- sums over labels are sums over bars ----

  ghost function Spread(m: Matrix, labels: nat, v: seq<real>): (r: Matrix)
    requires Rectangular(m, labels) && |v| == |m|
    ensures Rectangular(r, labels) && |r| == |m|
    ensures forall t, i :: 0 <= t < |m| && 0 <= i < labels ==> r[t][i] == Prod(m[t][i], v[t])
  {
    seq(|m|, t requires 0 <= t < |m| => seq(labels, i requires 0 <= i < labels => Prod(m[t][i], v[t])))
  }

  lemma SpreadColumn(m: Matrix, labels: nat, v: seq<real>, i: nat)
    requires Rectangular(m, labels) && |v| == |m| && i < labels
    ensures Column(Spread(m, labels, v), labels, i) == Masked(m, labels, i, v)
  {
  }

  lemma SpreadRow(m: Matrix, labels: nat, v: seq<real>, t: nat)
    requires Rectangular(m, labels) && |v| == |m| && t < |m|
    ensures Sum(Spread(m, labels, v)[t]) == Prod(Concurrency(m)[t], v[t])
  {
    SumToScale(v[t], m[t], Spread(m, labels, v)[t], labels);
  }

  /** Each bar's value counted once per active label. */
  ghost function Weighted(m: Matrix, v: seq<real>): (r: seq<real>)
    requires |v| == |m|
    ensures |r| == |m| && forall t :: 0 <= t < |m| ==> r[t] == Prod(Concurrency(m)[t], v[t])
  {
    seq(|m|, t requires 0 <= t < |m| => Prod(Concurrency(m)[t], v[t]))
  }

  lemma ProjectionTotal(m: Matrix, labels: nat, v: seq<real>)
    requires Rectangular(m, labels) && |v| == |m|
    ensures Sum(Project(m, labels, v)) == Sum(Weighted(m, v))
  {
    var table := Spread(m, labels, v);
    ExchangeSums(table, labels, |m|);
    forall i | 0 <= i < labels ensures ColumnSums(table, labels, |m|)[i] == Project(m, labels, v)[i] {
      SpreadColumn(m, labels, v, i);
    }
    SumToAgree(ColumnSums(table, labels, |m|), Project(m, labels, v), labels);
    forall t | 0 <= t < |m| ensures RowSums(table)[t] == Weighted(m, v)[t] {
      SpreadRow(m, labels, v, t);
    }
    SumToAgree(RowSums(table), Weighted(m, v), |m|);
  }

  // ---- uniqueness counts the covered bars ----

  ghost predicate Covered(row: seq<real>) {
    exists i :: 0 <= i < |row| && row[i] == 1.0
  }

  /** One for a bar with at least one active label. */
  ghost function CoveredBars(m: Matrix): (r: seq<real>)
    ensures |r| == |m| && forall t :: 0 <= t < |m| ==> r[t] == if Covered(m[t]) then 1.0 else 0.0
  {
    seq(|m|, t requires 0 <= t < |m| => if Covered(m[t]) then 1.0 else 0.0)
  }

  ghost predicate ZeroOne(row: seq<real>) {
    forall i :: 0 <= i < |row| ==> row[i] == 0.0 || row[i] == 1.0
  }

  lemma CoveredIffPositive(row: seq<real>)
    requires ZeroOne(row)
    ensures if Covered(row) then Sum(row) >= 1.0 else Sum(row) == 0.0
  {
    if Covered(row) {
      var i :| 0 <= i < |row| && row[i] == 1.0;
      SumToAtLeastTerm(row, |row|, i);
    } else {
      SumToConst(row, 0, |row|, 0.0);
    }
  }

  lemma TimesInverse(c: real)
    ensures c > 0.0 ==> Prod(c, 1.0 / c) == 1.0
  {
  }

  lemma WeightedInverse(m: Matrix, labels: nat)
    requires Indicator(m, labels)
    ensures Weighted(m, Inverse(Concurrency(m))) == CoveredBars(m)
  {
    forall t | 0 <= t < |m| ensures Weighted(m, Inverse(Concurrency(m)))[t] == CoveredBars(m)[t] {
      CoveredIffPositive(m[t]);
      TimesInverse(Concurrency(m)[t]);
    }
  }

  /** Every covered bar is shared out once: uniqueness times active bars, over all labels, counts the covered bars. */
  lemma UniquenessConserved(m: Matrix, labels: nat)
    requires Indicator(m, labels) && EveryLabelActive(m, labels)
    ensures Sum(Times(AverageUniqueness(m, labels), ActiveBars(m, labels))) == Sum(CoveredBars(m))
  {
    var v := Inverse(Concurrency(m));
    var shares := Times(AverageUniqueness(m, labels), ActiveBars(m, labels));
    forall i | 0 <= i < labels ensures shares[i] == Project(m, labels, v)[i] {
      Quotient(Project(m, labels, v)[i], ActiveBars(m, labels)[i]);
    }
    SumToAgree(shares, Project(m, labels, v), labels);
    ProjectionTotal(m, labels, v);
    WeightedInverse(m, labels);
  }

  // ---- the range of uniqueness ----

  /** Label i shares no bar with another label. */
  ghost predicate Alone(m: Matrix, labels: nat, i: nat)
    requires Rectangular(m, labels) && i < labels
  {
    forall t, j :: 0 <= t < |m| && 0 <= j < labels && j != i && m[t][i] == 1.0 ==> m[t][j] == 0.0
  }

  ghost predicate OnlyOne(row: seq<real>, i: nat)
    requires i < |row|
  {
    forall j :: 0 <= j < |row| && j != i ==> row[j] == 0.0
  }

  lemma RowSumOfActive(row: seq<real>, i: nat)
    requires ZeroOne(row) && i < |row| && row[i] == 1.0
    ensures Sum(row) >= 1.0 && (Sum(row) == 1.0 <==> OnlyOne(row, i))
  {
    var rest := row[i := 0.0];
    SumOneChange(row, rest, i, -1.0, |row|);
    SumToNonNegative(rest, |row|);
    if OnlyOne(row, i) {
      SumToConst(rest, 0, |row|, 0.0);
    } else {
      var j :| 0 <= j < |row| && j != i && row[j] != 0.0;
      SumToAtLeastTerm(rest, |row|, j);
    }
  }

  lemma InverseAtMostOne(c: real)
    requires c >= 1.0
    ensures 0.0 < 1.0 / c <= 1.0 && (1.0 / c == 1.0 <==> c == 1.0)
  {
    var x := 1.0 / c;
    Quotient(1.0, c);
    if x <= 0.0 {
      ProductNonNegative(-x, c);
    } else if x > 1.0 {
      ProductNonNegative(x - 1.0, c);
    }
  }

  ghost function Minus(a: seq<real>, b: seq<real>): (r: seq<real>)
    requires |a| == |b|
    ensures |r| == |a| && forall i :: 0 <= i < |r| ==> r[i] == a[i] - b[i]
  {
    seq(|a|, i requires 0 <= i < |a| => a[i] - b[i])
  }

  /** Of two sequences, one below the other, the sums agree exactly when the sequences do. */
  lemma SumsAgreeIff(a: seq<real>, b: seq<real>)
    requires |a| == |b| && forall i :: 0 <= i < |a| ==> a[i] <= b[i]
    ensures Sum(a) <= Sum(b) && (Sum(a) == Sum(b) <==> a == b)
  {
    var gap := Minus(b, a);
    SumToAdd(a, gap, b, |a|);
    SumToNonNegative(gap, |a|);
    if Sum(a) == Sum(b) {
      forall i | 0 <= i < |a| ensures a[i] == b[i] {
        SumToAtLeastTerm(gap, |a|, i);
      }
    }
  }

  lemma SharedTerm(m: Matrix, labels: nat, i: nat, t: nat)
    requires Indicator(m, labels) && i < labels && t < |m|
    ensures var x := Masked(m, labels, i, Inverse(Concurrency(m)))[t];
      && 0.0 <= x <= m[t][i] && (m[t][i] == 1.0 ==> x > 0.0)
      && (x == m[t][i] <==> m[t][i] == 0.0 || OnlyOne(m[t], i))
  {
    if m[t][i] == 1.0 {
      RowSumOfActive(m[t], i);
      InverseAtMostOne(Concurrency(m)[t]);
    }
  }

  lemma SomeActiveBar(m: Matrix, labels: nat, i: nat) returns (t: nat)
    requires Indicator(m, labels) && i < labels && ActiveBars(m, labels)[i] > 0.0
    ensures t < |m| && m[t][i] == 1.0
  {
    if forall t :: 0 <= t < |m| ==> m[t][i] == 0.0 {
      SumToConst(Column(m, labels, i), 0, |m|, 0.0);
      assert false;
    }
    t :| 0 <= t < |m| && m[t][i] != 0.0;
  }

  lemma UnitFactor(q: real, y: real, x: real)
    requires x == q * y && 0.0 < x <= y
    ensures 0.0 < q <= 1.0 && (q == 1.0 <==> x == y)
  {
    if q <= 0.0 {
      ProductNonNegative(-q, y);
    } else if q != 1.0 {
      NonZeroProduct(q - 1.0, y, (q - 1.0) * y);
      if q > 1.0 {
        ProductPositive(q - 1.0, y, (q - 1.0) * y);
      }
    }
  }

  lemma UnitQuotient(x: real, y: real)
    requires 0.0 < x <= y
    ensures 0.0 < x / y <= 1.0 && (x / y == 1.0 <==> x == y)
  {
    Quotient(x, y);
    UnitFactor(x / y, y, x);
  }

  lemma AloneIsOnlyOne(m: Matrix, labels: nat, i: nat)
    requires Indicator(m, labels) && i < labels
    ensures Alone(m, labels, i) <==> forall t :: 0 <= t < |m| ==> m[t][i] == 0.0 || OnlyOne(m[t], i)
  {
  }

  /** Uniqueness lies in (0, 1] and is 1 exactly for a label that overlaps no other. */
  lemma UniquenessRange(m: Matrix, labels: nat, i: nat)
    requires Indicator(m, labels) && EveryLabelActive(m, labels) && i < labels
    ensures var u := AverageUniqueness(m, labels)[i]; 0.0 < u <= 1.0 && (u == 1.0 <==> Alone(m, labels, i))
  {
    var shared, active := Masked(m, labels, i, Inverse(Concurrency(m))), Column(m, labels, i);
    forall t | 0 <= t < |m|
      ensures 0.0 <= shared[t] <= active[t]
      ensures shared[t] == active[t] <==> m[t][i] == 0.0 || OnlyOne(m[t], i)
    {
      SharedTerm(m, labels, i, t);
    }
    var t := SomeActiveBar(m, labels, i);
    SharedTerm(m, labels, i, t);
    SumToAtLeastTerm(shared, |m|, t);
    SumsAgreeIff(shared, active);
    UnitQuotient(Sum(shared), Sum(active));
    AloneIsOnlyOne(m, labels, i);
  }

  // ---- return attribution ----

  lemma {:induction false} AbsOfSum(a: seq<real>, b: seq<real>, n: nat)
    requires n <= |a| && n <= |b| && forall i :: 0 <= i < n ==> Abs(a[i]) <= b[i]
    ensures Abs(SumTo(a, n)) <= SumTo(b, n)
  {
    if n > 0 {
      AbsOfSum(a, b, n - 1);
    }
  }

  lemma AbsMasked(flag: real, v: real)
    requires flag == 0.0 || flag == 1.0
    ensures Abs(Prod(flag, v)) == Prod(flag, Abs(v))
  {
  }

  lemma AbsProjection(m: Matrix, labels: nat, v: seq<real>, i: nat)
    requires Indicator(m, labels) && |v| == |m| && i < labels
    ensures Abs(Project(m, labels, v)[i]) <= Project(m, labels, AbsAll(v))[i]
  {
    forall t | 0 <= t < |m| ensures Abs(Masked(m, labels, i, v)[t]) <= Masked(m, labels, i, AbsAll(v))[t] {
      AbsMasked(m[t][i], v[t]);
    }
    AbsOfSum(Masked(m, labels, i, v), Masked(m, labels, i, AbsAll(v)), |m|);
  }

  lemma SharedReturn(c: real, r: real)
    requires c == 0.0 || c >= 1.0
    ensures Prod(c, Abs(Prod(r, if c > 0.0 then 1.0 / c else 0.0))) <= Abs(r)
  {
    if c > 0.0 {
      var x := 1.0 / c;
      Quotient(1.0, c);
      InverseAtMostOne(c);
      assert Abs(r * x) == Abs(r) * x;
      assert c * (Abs(r) * x) == Abs(r) * (x * c);
    }
  }

  lemma WeightedReturns(m: Matrix, labels: nat, moves: seq<real>)
    requires Indicator(m, labels) && |moves| == |m|
    ensures forall t :: 0 <= t < |m| ==> Weighted(m, AbsAll(SharedReturns(m, moves)))[t] <= AbsAll(moves)[t]
  {
    forall t | 0 <= t < |m| ensures Weighted(m, AbsAll(SharedReturns(m, moves)))[t] <= AbsAll(moves)[t] {
      CoveredIffPositive(m[t]);
      SharedReturn(Concurrency(m)[t], moves[t]);
    }
  }

  /** The raw attribution weights add up to at most the total absolute return. */
  lemma AttributionBounded(m: Matrix, labels: nat, moves: seq<real>)
    requires Indicator(m, labels) && |moves| == |m|
    ensures Sum(Attribution(m, labels, moves)) <= Sum(AbsAll(moves))
  {
    var v := SharedReturns(m, moves);
    forall i | 0 <= i < labels ensures Attribution(m, labels, moves)[i] <= Project(m, labels, AbsAll(v))[i] {
      AbsProjection(m, labels, v, i);
    }
    SumToMonotone(Attribution(m, labels, moves), Project(m, labels, AbsAll(v)), labels);
    ProjectionTotal(m, labels, AbsAll(v));
    WeightedReturns(m, labels, moves);
    SumToMonotone(Weighted(m, AbsAll(v)), AbsAll(moves), |m|);
  }

  function MoveAt(prices: seq<real>, log: real -> real, t: nat): real
    requires t < |prices|
  {
    if t == 0 then 0.0 else log(prices[t]) - log(prices[t - 1])
  }

  /** Each bar's log return, none at the first. */
  function LogMoves(prices: seq<real>, log: real -> real): (r: seq<real>)
    ensures |r| == |prices| && forall t: nat :: t < |r| ==> r[t] == MoveAt(prices, log, t)
  {
    seq(|prices|, t requires 0 <= t < |prices| => MoveAt(prices, log, t))
  }

  lemma {:induction false} MovesTelescope(prices: seq<real>, log: real -> real, lo: nat, hi: nat)
    requires 0 < lo <= hi <= |prices|
    ensures SumTo(LogMoves(prices, log), hi) - SumTo(LogMoves(prices, log), lo)
      == log(prices[hi - 1]) - log(prices[lo - 1])
  {
    if lo < hi {
      MovesTelescope(prices, log, lo, hi - 1);
      assert LogMoves(prices, log)[hi - 1] == MoveAt(prices, log, hi - 1);
    }
  }

  lemma {:induction false} SpanTotal(v: seq<real>, active: seq<real>, s: Span, n: nat)
    requires s.first <= s.last < |v| == |active| && n <= |v|
    requires forall t :: 0 <= t < |v| ==> active[t] == if s.first <= t <= s.last then v[t] else 0.0
    ensures SumTo(active, n)
      == if n <= s.first then 0.0
         else if n <= s.last + 1 then SumTo(v, n) - SumTo(v, s.first) else SumTo(v, s.last + 1) - SumTo(v, s.first)
  {
    if n > 0 {
      SpanTotal(v, active, s, n - 1);
    }
  }

  lemma AloneShare(m: Matrix, labels: nat, i: nat, moves: seq<real>, t: nat)
    requires Indicator(m, labels) && |moves| == |m| && i < labels && t < |m| && Alone(m, labels, i)
    ensures Masked(m, labels, i, SharedReturns(m, moves))[t] == if m[t][i] == 1.0 then moves[t] else 0.0
  {
    if m[t][i] == 1.0 {
      RowSumOfActive(m[t], i);
      assert OnlyOne(m[t], i);
      assert Inverse(Concurrency(m))[t] == 1.0;
    }
  }

  /** The label's span meets no other label's. */
  ghost predicate Isolated(spans: seq<Span>, i: nat)
    requires i < |spans|
  {
    forall j :: 0 <= j < |spans| && j != i ==> spans[j].last < spans[i].first || spans[i].last < spans[j].first
  }

  lemma IsolatedIsAlone(bars: nat, spans: seq<Span>, i: nat)
    requires SpansWithin(bars, spans) && i < |spans| && Isolated(spans, i)
    ensures Alone(FromSpans(bars, spans), |spans|, i)
  {
    var m := FromSpans(bars, spans);
    forall t, j | 0 <= t < |m| && 0 <= j < |spans| && j != i && m[t][i] == 1.0 ensures m[t][j] == 0.0 {
      assert spans[j].last < spans[i].first || spans[i].last < spans[j].first;
    }
  }

  lemma SpansIndicate(bars: nat, spans: seq<Span>)
    requires SpansWithin(bars, spans)
    ensures var m := FromSpans(bars, spans); Indicator(m, |spans|) && EveryLabelActive(m, |spans|)
  {
    var m := FromSpans(bars, spans);
    forall i | 0 <= i < |spans| ensures ActiveBars(m, |spans|)[i] > 0.0 {
      SumToAtLeastTerm(Column(m, |spans|, i), bars, spans[i].first);
    }
  }

  lemma SpanShare(bars: nat, spans: seq<Span>, i: nat, moves: seq<real>, t: nat)
    requires SpansWithin(bars, spans) && i < |spans| && Isolated(spans, i) && |moves| == bars && t < bars
    ensures Masked(FromSpans(bars, spans), |spans|, i, SharedReturns(FromSpans(bars, spans), moves))[t]
      == if spans[i].first <= t <= spans[i].last then moves[t] else 0.0
  {
    SpansIndicate(bars, spans);
    IsolatedIsAlone(bars, spans, i);
    AloneShare(FromSpans(bars, spans), |spans|, i, moves, t);
  }

  lemma SpanProjection(m: Matrix, labels: nat, i: nat, v: seq<real>, moves: seq<real>, s: Span)
    requires Rectangular(m, labels) && |v| == |moves| == |m| && i < labels && s.first <= s.last < |m|
    requires forall t: nat :: t < |m| ==> Masked(m, labels, i, v)[t] == if s.first <= t <= s.last then moves[t] else 0.0
    ensures Project(m, labels, v)[i] == SumTo(moves, s.last + 1) - SumTo(moves, s.first)
  {
    SpanTotal(moves, Masked(m, labels, i, v), s, |m|);
  }

  lemma SpanShares(m: Matrix, spans: seq<Span>, i: nat, moves: seq<real>)
    requires SpansWithin(|m|, spans) && i < |spans| && Isolated(spans, i)
    requires |moves| == |m| && m == FromSpans(|m|, spans)
    ensures Project(m, |spans|, SharedReturns(m, moves))[i]
      == SumTo(moves, spans[i].last + 1) - SumTo(moves, spans[i].first)
  {
    forall t: nat | t < |m|
      ensures Masked(m, |spans|, i, SharedReturns(m, moves))[t]
        == if spans[i].first <= t <= spans[i].last then moves[t] else 0.0
    {
      SpanShare(|m|, spans, i, moves, t);
    }
    SpanProjection(m, |spans|, i, SharedReturns(m, moves), moves, spans[i]);
  }

  lemma AttributionAt(m: Matrix, labels: nat, moves: seq<real>, i: nat)
    requires Rectangular(m, labels) && |moves| == |m| && i < labels
    ensures Attribution(m, labels, moves)[i] == Abs(Project(m, labels, SharedReturns(m, moves))[i])
  {
  }

  lemma IsolatedMoves(spans: seq<Span>, i: nat, m: Matrix, moves: seq<real>, total: real)
    requires SpansWithin(|m|, spans) && i < |spans| && Isolated(spans, i)
    requires |moves| == |m| && m == FromSpans(|m|, spans)
    requires total == SumTo(moves, spans[i].last + 1) - SumTo(moves, spans[i].first)
    ensures Attribution(m, |spans|, moves)[i] == Abs(total)
  {
    AttributionAt(m, |spans|, moves, i);
    SpanShares(m, spans, i, moves);
  }

  /** A label that shares no bar is weighted by the whole log return from before its first bar to its last. */
  lemma IsolatedAttribution(prices: seq<real>, log: real -> real, spans: seq<Span>, i: nat, m: Matrix)
    requires |m| == |prices| && SpansWithin(|m|, spans) && i < |spans| && Isolated(spans, i) && spans[i].first > 0
    requires m == FromSpans(|m|, spans)
    ensures Attribution(m, |spans|, LogMoves(prices, log))[i]
      == Abs(log(prices[spans[i].last]) - log(prices[spans[i].first - 1]))
  {
    MovesTelescope(prices, log, spans[i].first, spans[i].last + 1);
    IsolatedMoves(spans, i, m, LogMoves(prices, log), log(prices[spans[i].last]) - log(prices[spans[i].first - 1]));
  }

  /** Normalised weights average one and keep their proportions. */
  lemma NormalizedAverage(weights: seq<real>)
    requires Sum(weights) > 0.0
    ensures Sum(Normalized(weights)) == |weights| as real
    ensures forall i :: 0 <= i < |weights| ==>
      Prod(Normalized(weights)[i], Sum(weights)) == Prod(weights[i], |weights| as real)
  {
    var total, scale := Sum(weights), |weights| as real / Sum(weights);
    SumToScale(scale, weights, Normalized(weights), |weights|);
    Quotient(|weights| as real, total);
    forall i | 0 <= i < |weights| ensures Prod(Normalized(weights)[i], total) == Prod(weights[i], |weights| as real) {
      assert scale * weights[i] * total == weights[i] * (scale * total);
    }
  }

  // ---- matrices that come from spans ----

  /** Uniqueness of a label is 1 exactly when its span meets no other label's. */
  lemma IsolatedIffUnique(bars: nat, spans: seq<Span>, i: nat)
    requires SpansWithin(bars, spans) && i < |spans|
    ensures EveryLabelActive(FromSpans(bars, spans), |spans|)
    ensures AverageUniqueness(FromSpans(bars, spans), |spans|)[i] == 1.0 <==> Isolated(spans, i)
  {
    var m := FromSpans(bars, spans);
    SpansIndicate(bars, spans);
    UniquenessRange(m, |spans|, i);
    if Isolated(spans, i) {
      forall t, j | 0 <= t < |m| && 0 <= j < |spans| && j != i && m[t][i] == 1.0 ensures m[t][j] == 0.0 {
        assert spans[j].last < spans[i].first || spans[i].last < spans[j].first;
      }
    } else {
      var j :| 0 <= j < |spans| && j != i && spans[i].first <= spans[j].last && spans[j].first <= spans[i].last;
      var t := if spans[i].first < spans[j].first then spans[j].first else spans[i].first;
      assert m[t][i] == 1.0 && m[t][j] == 1.0;
    }
  }
}
