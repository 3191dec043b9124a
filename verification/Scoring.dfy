/** ROC AUC by average ranks (src/quant/research/models/scoring.py). */
module Scoring {
  import opened Wrappers
  import opened Sums
  import opened Ordering

  datatype ScoringError = LengthMismatch | EmptyVector | NotBinary | NotProbability | SingleClass

  // ---- validation ----

  predicate Binary(truth: seq<real>) {
    forall i :: 0 <= i < |truth| ==> truth[i] == 0.0 || truth[i] == 1.0
  }

  predicate Probabilities(prob: seq<real>) {
    forall i :: 0 <= i < |prob| ==> 0.0 <= prob[i] <= 1.0
  }

  /** The checks in the order the original makes them. */
  function Validate(truth: seq<real>, prob: seq<real>): (r: Option<ScoringError>)
    ensures r == Some(LengthMismatch) <==> |truth| != |prob|
    ensures r == Some(EmptyVector) <==> |truth| == |prob| == 0
    ensures r == Some(NotBinary) <==>
      |truth| == |prob| > 0 && exists i :: 0 <= i < |truth| && truth[i] != 0.0 && truth[i] != 1.0
    ensures r == Some(NotProbability) <==>
      && |truth| == |prob| > 0 && (forall i :: 0 <= i < |truth| ==> truth[i] == 0.0 || truth[i] == 1.0)
      && exists i :: 0 <= i < |prob| && (prob[i] < 0.0 || prob[i] > 1.0)
    ensures r != Some(SingleClass)
  {
    if |truth| != |prob| then Some(LengthMismatch)
    else if |truth| == 0 then Some(EmptyVector)
    else if !Binary(truth) then Some(NotBinary)
    else if !Probabilities(prob) then Some(NotProbability)
    else None
  }

  // ---- the reference: counting pairs ----

  /** 1 when `b` beats `a`, one half on a tie, 0 otherwise. */
  ghost function Beats(a: real, b: real): real {
    if a < b then 1.0 else if a == b then 0.5 else 0.0
  }

  ghost function BeatenBy(values: seq<real>, v: real): (r: seq<real>)
    ensures |r| == |values|
    ensures forall j :: 0 <= j < |r| ==> r[j] == Beats(values[j], v)
  {
    seq(|values|, j requires 0 <= j < |values| => Beats(values[j], v))
  }

  /** The credit of item i over item j, counted a[i] * b[j] times. */
  ghost function Credit(a: seq<real>, b: seq<real>, prob: seq<real>, i: nat, j: nat): real
    requires |a| == |b| == |prob| && i < |prob| && j < |prob|
  {
    a[i] * b[j] * Beats(prob[j], prob[i])
  }

  ghost function PairTable(a: seq<real>, b: seq<real>, prob: seq<real>): (table: seq<seq<real>>)
    requires |a| == |b| == |prob|
    ensures |table| == |prob| && Rectangular(table, |prob|)
    ensures forall i, j :: 0 <= i < |prob| && 0 <= j < |prob| ==> table[i][j] == Credit(a, b, prob, i, j)
  {
    seq(|prob|, i requires 0 <= i < |prob| =>
      seq(|prob|, j requires 0 <= j < |prob| => Credit(a, b, prob, i, j)))
  }

  ghost function PairScore(a: seq<real>, b: seq<real>, prob: seq<real>): real
    requires |a| == |b| == |prob|
  {
    Sum(RowSums(PairTable(a, b, prob)))
  }

  function Flipped(truth: seq<real>): (r: seq<real>)
    ensures |r| == |truth|
    ensures forall i :: 0 <= i < |r| ==> r[i] == 1.0 - truth[i]
  {
    seq(|truth|, i requires 0 <= i < |truth| => 1.0 - truth[i])
  }

  /** Pairs (positive, negative) where the positive scores higher, plus half of the tied ones. */
  ghost function Concordance(truth: seq<real>, prob: seq<real>): real
    requires |truth| == |prob|
  {
    PairScore(truth, Flipped(truth), prob)
  }

  // ---- average ranks ----

  /** 1-based rank with ties sharing: one half plus the number of items beaten. */
  ghost function AverageRank(values: seq<real>, v: real): real {
    0.5 + Sum(BeatenBy(values, v))
  }

  /** Sum of the positions i+1 .. j+1 divided by their number. */
  function MeanPosition(i: nat, j: nat): real
    requires i <= j
  {
    Sum(seq(j - i + 1, k requires 0 <= k < j - i + 1 => (i + k + 1) as real)) / (j - i + 1) as real
  }

  lemma {:induction false} ArithmeticSeries(i: nat, n: nat, s: seq<real>)
    requires n <= |s| && forall k :: 0 <= k < n ==> s[k] == (i + k + 1) as real
    ensures SumTo(s, n) == n as real * (i as real + (n + 1) as real / 2.0)
  {
    if n > 0 {
      ArithmeticSeries(i, n - 1, s);
    }
  }

  lemma MeanPositionIs(i: nat, j: nat)
    requires i <= j
    ensures MeanPosition(i, j) == (i + j + 2) as real / 2.0
  {
    var n := j - i + 1;
    ArithmeticSeries(i, n, seq(n, k requires 0 <= k < n => (i + k + 1) as real));
    assert (n as real * (i as real + (n + 1) as real / 2.0)) / n as real == i as real + (n + 1) as real / 2.0;
  }

  lemma ThreeSteps(g: seq<real>, i: nat, j: nat)
    requires i <= j < |g|
    requires forall k :: 0 <= k < i ==> g[k] == 1.0
    requires forall k :: i <= k <= j ==> g[k] == 0.5
    requires forall k :: j < k < |g| ==> g[k] == 0.0
    ensures Sum(g) == (i + j + 1) as real / 2.0
  {
    SumToConst(g, 0, i, 1.0);
    SumToConst(g, i, j + 1 - i, 0.5);
    SumToConst(g, j + 1, |g| - j - 1, 0.0);
  }

  /** In sorted order the block i..j of one value beats exactly the i items before it. */
  lemma TieBlockRank(values: seq<real>, order: seq<nat>, i: nat, j: nat)
    requires order == Argsort(values) && i <= j < |values|
    requires forall k :: 0 <= k < i ==> values[order[k]] < values[order[i]]
    requires forall k :: i <= k <= j ==> values[order[k]] == values[order[i]]
    requires forall k :: j < k < |values| ==> values[order[k]] > values[order[i]]
    ensures MeanPosition(i, j) == AverageRank(values, values[order[i]])
  {
    var beaten := BeatenBy(values, values[order[i]]);
    SumInSortedOrder(values, beaten, |values|);
    ThreeSteps(Gather(beaten, order), i, j);
    MeanPositionIs(i, j);
  }

  method AverageRanks(values: seq<real>) returns (ranks: seq<real>)
    ensures |ranks| == |values|
    ensures forall i :: 0 <= i < |values| ==> ranks[i] == AverageRank(values, values[i])
  {
    var n := |values|;
    var order := Argsort(values);
    SortedIndicesStable(values, n);
    var a := new real[n];
    var i := 0;
    while i < n
      invariant 0 <= i <= n
      invariant forall k, l :: 0 <= k < i <= l < n ==> values[order[k]] < values[order[l]]
      invariant forall k :: 0 <= k < i ==> a[order[k]] == AverageRank(values, values[order[k]])
    {
      var j := i;
      while j + 1 < n && values[order[j + 1]] == values[order[i]]
        invariant i <= j < n
        invariant forall k :: i <= k <= j ==> values[order[k]] == values[order[i]]
      {
        j := j + 1;
      }
      forall k | j < k < n ensures values[order[k]] > values[order[i]] {
        assert Before(values, order[i], order[j + 1]);
        assert k == j + 1 || Before(values, order[j + 1], order[k]);
      }
      TieBlockRank(values, order, i, j);
      var mean := MeanPosition(i, j);
      forall k | i <= k <= j {
        a[order[k]] := mean;
      }
      i := j + 1;
    }
    ranks := a[..];
    forall m | 0 <= m < n ensures ranks[m] == AverageRank(values, values[m]) {
      var at := SortedIndicesCover(values, n, m);
    }
  }

  // ---- the Mann-Whitney identity ----

  lemma SplitCredit(s: real, t: real, x: real, y: real)
    ensures s * t * Beats(y, x) + t * s * Beats(x, y) == s * t
  {
  }

  /** Every ordered pair is credited once between its two readings. */
  lemma PairRowsComplement(a: seq<real>, b: seq<real>, prob: seq<real>, i: nat)
    requires |a| == |b| == |prob| && i < |prob|
    ensures Sum(PairTable(a, b, prob)[i]) + Sum(Column(PairTable(b, a, prob), |prob|, i)) == a[i] * Sum(b)
  {
    var row, column := PairTable(a, b, prob)[i], Column(PairTable(b, a, prob), |prob|, i);
    var all := Scaled(a[i], b);
    forall j | 0 <= j < |prob| ensures all[j] == row[j] + column[j] {
      SplitCredit(a[i], b[j], prob[i], prob[j]);
    }
    SumToAdd(row, column, all, |prob|);
  }

  lemma PairScoresComplement(a: seq<real>, b: seq<real>, prob: seq<real>)
    requires |a| == |b| == |prob|
    ensures PairScore(a, b, prob) + PairScore(b, a, prob) == Sum(a) * Sum(b)
  {
    var n := |prob|;
    var rows, columns := RowSums(PairTable(a, b, prob)), ColumnSums(PairTable(b, a, prob), n, n);
    ExchangeSums(PairTable(b, a, prob), n, n);
    var total := Scaled(Sum(b), a);
    forall i | 0 <= i < n ensures total[i] == rows[i] + columns[i] {
      PairRowsComplement(a, b, prob, i);
    }
    SumToAdd(rows, columns, total, n);
  }

  lemma SplitByLabel(c: real, t: real, h: real)
    ensures c * t * h + c * (1.0 - t) * h == c * h
  {
  }

  /** An item's credit over everything splits into credit over positives and over negatives. */
  lemma CreditByLabel(truth: seq<real>, prob: seq<real>, i: nat)
    requires |truth| == |prob| && i < |prob|
    ensures truth[i] * Sum(BeatenBy(prob, prob[i]))
         == Sum(PairTable(truth, truth, prob)[i]) + Sum(PairTable(truth, Flipped(truth), prob)[i])
  {
    var neg := Flipped(truth);
    var pos, rest := PairTable(truth, truth, prob)[i], PairTable(truth, neg, prob)[i];
    var all := Scaled(truth[i], BeatenBy(prob, prob[i]));
    forall j | 0 <= j < |prob| ensures all[j] == pos[j] + rest[j] {
      SplitByLabel(truth[i], truth[j], Beats(prob[j], prob[i]));
    }
    SumToAdd(pos, rest, all, |prob|);
  }

  lemma Distribute(c: real, s: real)
    ensures c * (0.5 + s) == 0.5 * c + c * s
  {
  }

  /** Rank sum of the positives = n_pos * (n_pos + 1) / 2 plus the pairs they win. */
  lemma RankSumIdentity(truth: seq<real>, prob: seq<real>, ranks: seq<real>)
    requires |truth| == |prob| == |ranks|
    requires forall i :: 0 <= i < |prob| ==> ranks[i] == AverageRank(prob, prob[i])
    ensures Sum(Times(truth, ranks)) == Sum(truth) * (Sum(truth) + 1.0) / 2.0 + Concordance(truth, prob)
  {
    var n := |prob|;
    var pp, pn := RowSums(PairTable(truth, truth, prob)), RowSums(PairTable(truth, Flipped(truth), prob));
    var half, weighted := Scaled(0.5, truth), Times(truth, ranks);
    var credit := seq(n, i requires 0 <= i < n => pp[i] + pn[i]);
    forall i | 0 <= i < n ensures weighted[i] == half[i] + credit[i] {
      CreditByLabel(truth, prob, i);
      Distribute(truth[i], Sum(BeatenBy(prob, prob[i])));
    }
    SumToAdd(pp, pn, credit, n);
    PairScoresComplement(truth, truth, prob);
    SumToAdd(half, credit, weighted, n);
  }

  // ---- the score ----

  /** The sum of the ranks of the items labelled 1. */
  function PositiveRanks(truth: seq<real>, ranks: seq<real>): (r: seq<real>)
    requires |truth| == |ranks|
    ensures |r| == |truth|
  {
    seq(|truth|, i requires 0 <= i < |truth| => if truth[i] == 1.0 then ranks[i] else 0.0)
  }

  /** The number of positive-negative pairs. */
  ghost function Pairs(truth: seq<real>): real {
    Sum(truth) * (|truth| as real - Sum(truth))
  }

  lemma PairsNonZero(truth: seq<real>)
    ensures Pairs(truth) == 0.0 <==> Sum(truth) == 0.0 || |truth| as real - Sum(truth) == 0.0
  {
  }

  /** The value the score is meant to have, or the error. */
  ghost function AucSpec(truth: seq<real>, prob: seq<real>): Result<real, ScoringError> {
    var invalid := Validate(truth, prob);
    if invalid.Some? then Err(invalid.value)
    else if Pairs(truth) == 0.0 then Err(SingleClass)
    else Ok(Concordance(truth, prob) / Pairs(truth))
  }

  lemma RankFormula(truth: seq<real>, prob: seq<real>, ranks: seq<real>)
    requires |truth| == |prob| == |ranks| && Binary(truth)
    requires forall i :: 0 <= i < |prob| ==> ranks[i] == AverageRank(prob, prob[i])
    ensures Sum(PositiveRanks(truth, ranks)) - Sum(truth) * (Sum(truth) + 1.0) / 2.0 == Concordance(truth, prob)
  {
    assert PositiveRanks(truth, ranks) == Times(truth, ranks);
    RankSumIdentity(truth, prob, ranks);
  }

  /** The rank formula computes pair counting, and fails exactly on malformed or single-class input. */
  method RocAuc(truth: seq<real>, prob: seq<real>) returns (r: Result<real, ScoringError>)
    ensures r == AucSpec(truth, prob)
  {
    var invalid := Validate(truth, prob);
    if invalid.Some? {
      return Err(invalid.value);
    }
    var nPos := Sum(truth);
    var nNeg := |truth| as real - nPos;
    PairsNonZero(truth);
    if nPos == 0.0 || nNeg == 0.0 {
      return Err(SingleClass);
    }
    var ranks := AverageRanks(prob);
    var rankSumPos := Sum(PositiveRanks(truth, ranks));
    RankFormula(truth, prob, ranks);
    var wins := rankSumPos - nPos * (nPos + 1.0) / 2.0;
    assert wins == Concordance(truth, prob);
    assert nPos * nNeg == Pairs(truth);
    r := Ok(wins / (nPos * nNeg));
  }

  lemma NegativeCount(truth: seq<real>)
    ensures Sum(Flipped(truth)) == |truth| as real - Sum(truth)
  {
    var ones := seq(|truth|, i => 1.0);
    SumToConst(ones, 0, |truth|, 1.0);
    SumToAdd(Flipped(truth), truth, ones, |truth|);
  }

  /** Flipping every label turns the AUC into one minus itself. */
  lemma FlippingLabels(truth: seq<real>, prob: seq<real>)
    requires AucSpec(truth, prob).Ok?
    ensures AucSpec(Flipped(truth), prob) == Ok(1.0 - AucSpec(truth, prob).value)
  {
    var neg := Flipped(truth);
    assert Flipped(neg) == truth;
    NegativeCount(truth);
    PairScoresComplement(truth, neg, prob);
    var p, q, m := PairScore(truth, neg, prob), PairScore(neg, truth, prob), Pairs(truth);
    assert Pairs(neg) == Sum(neg) * Sum(truth) == m != 0.0;
    QuotientsComplement(p, q, m);
  }

  lemma ConcordanceNonNegative(a: seq<real>, b: seq<real>, prob: seq<real>)
    requires |a| == |b| == |prob| && Binary(a) && Binary(b)
    ensures PairScore(a, b, prob) >= 0.0
  {
    var table := PairTable(a, b, prob);
    forall i | 0 <= i < |prob| ensures RowSums(table)[i] >= 0.0 {
      SumToNonNegative(table[i], |prob|);
    }
    SumToNonNegative(RowSums(table), |prob|);
  }

  /** The AUC is a fraction of the positive-negative pairs. */
  lemma AucWithinUnit(truth: seq<real>, prob: seq<real>)
    requires AucSpec(truth, prob).Ok?
    ensures 0.0 <= AucSpec(truth, prob).value <= 1.0
  {
    var neg := Flipped(truth);
    NegativeCount(truth);
    ConcordanceNonNegative(truth, neg, prob);
    ConcordanceNonNegative(neg, truth, prob);
    PairScoresComplement(truth, neg, prob);
    SumToNonNegative(truth, |truth|);
    SumToNonNegative(neg, |neg|);
    var p, m := PairScore(truth, neg, prob), Pairs(truth);
    assert m == Sum(truth) * Sum(neg) > 0.0;
    QuotientWithin(p, m);
  }

  /** Only the ranking of the scores matters: an order-preserving change of score leaves the AUC alone. */
  lemma AucDependsOnRankingOnly(truth: seq<real>, prob: seq<real>, other: seq<real>)
    requires |prob| == |other| && Probabilities(other) && AucSpec(truth, prob).Ok?
    requires forall i, j :: 0 <= i < |prob| && 0 <= j < |prob| ==> (prob[i] < prob[j] <==> other[i] < other[j])
    ensures AucSpec(truth, other) == AucSpec(truth, prob)
  {
    var neg := Flipped(truth);
    forall i | 0 <= i < |prob| ensures PairTable(truth, neg, prob)[i] == PairTable(truth, neg, other)[i] {
      forall j | 0 <= j < |prob| ensures Credit(truth, neg, prob, i, j) == Credit(truth, neg, other, i, j) {
        assert prob[i] < prob[j] <==> other[i] < other[j];
      }
    }
    assert PairTable(truth, neg, prob) == PairTable(truth, neg, other);
  }
}
