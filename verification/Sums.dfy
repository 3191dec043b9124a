/** Finite sums of reals over sequences, and the exchange of the order of a double sum. */
module Sums {
  /** The sum of the first n entries. */
  function SumTo(s: seq<real>, n: nat): real
    requires n <= |s|
  {
    if n == 0 then 0.0 else SumTo(s, n - 1) + s[n - 1]
  }

  function Sum(s: seq<real>): real {
    SumTo(s, |s|)
  }

  /** Division undoes multiplication; the remaining facts about quotients follow from it. */
  lemma Quotient(p: real, m: real)
    requires m != 0.0
    ensures (p / m) * m == p
  {
  }

  lemma CancelFactor(x: real, y: real, m: real)
    requires m != 0.0 && x * m == y * m
    ensures x == y
  {
    assert (x - y) * m == 0.0;
  }

  lemma QuotientsComplement(p: real, q: real, m: real)
    requires m != 0.0 && p + q == m
    ensures q / m == 1.0 - p / m
  {
    Quotient(p, m);
    Quotient(q, m);
    CancelFactor(q / m, 1.0 - p / m, m);
  }

  lemma QuotientWithin(p: real, m: real)
    requires 0.0 <= p <= m && m > 0.0
    ensures 0.0 <= p / m <= 1.0
  {
    Quotient(p, m);
  }

  lemma ProductNonNegative(x: real, y: real)
    requires x >= 0.0 && y >= 0.0
    ensures x * y >= 0.0
  {
  }

  lemma ProductPositive(x: real, y: real, p: real)
    requires x > 0.0 && y > 0.0 && p == x * y
    ensures p > 0.0
  {
  }

  lemma SquarePositive(d: real, s: real)
    requires d != 0.0 && s == d * d
    ensures s > 0.0
  {
    if d > 0.0 {
      ProductPositive(d, d, s);
    } else {
      ProductPositive(-d, -d, s);
    }
  }

  lemma FactorNonNegative(x: real, t: real)
    requires t > 0.0 && x * t >= 0.0
    ensures x >= 0.0
  {
  }

  lemma PositiveQuotient(a: real, b: real)
    requires a > 0.0 && b > 0.0
    ensures a / b > 0.0
  {
    Quotient(a, b);
    if a / b <= 0.0 {
      ProductNonNegative(-(a / b), b);
    }
  }

  lemma NonZeroProduct(a: real, b: real, p: real)
    requires a != 0.0 && b != 0.0 && p == a * b
    ensures p != 0.0
  {
    if p == 0.0 {
      CancelFactor(a, 0.0, b);
    }
  }

  function Abs(x: real): real {
    if x < 0.0 then -x else x
  }

  function Min(x: real, y: real): real {
    if x < y then x else y
  }

  function Max(x: real, y: real): real {
    if x < y then y else x
  }

  lemma {:induction false} SumToAgree(a: seq<real>, b: seq<real>, n: nat)
    requires n <= |a| && n <= |b| && forall i :: 0 <= i < n ==> a[i] == b[i]
    ensures SumTo(a, n) == SumTo(b, n)
  {
    if n > 0 {
      SumToAgree(a, b, n - 1);
    }
  }

  lemma {:induction false} SumToConcat(a: seq<real>, b: seq<real>, n: nat)
    requires n <= |b|
    ensures SumTo(a + b, |a| + n) == Sum(a) + SumTo(b, n)
  {
    if n == 0 {
      SumToAgree(a + b, a, |a|);
    } else {
      SumToConcat(a, b, n - 1);
    }
  }

  lemma SumConcat(a: seq<real>, b: seq<real>)
    ensures Sum(a + b) == Sum(a) + Sum(b)
  {
    SumToConcat(a, b, |b|);
  }

  lemma SumAppend(a: seq<real>, x: real)
    ensures Sum(a + [x]) == Sum(a) + x
  {
    SumToAgree(a + [x], a, |a|);
  }

  /** A sum with one entry put in at position k. */
  lemma {:induction false} SumInsert(s: seq<real>, t: seq<real>, k: nat, x: real, n: nat)
    requires |t| == |s| + 1 && k <= n <= |s|
    requires t[k] == x && (forall i :: 0 <= i < k ==> t[i] == s[i]) && forall i :: k <= i < |s| ==> t[i + 1] == s[i]
    ensures SumTo(t, n + 1) == SumTo(s, n) + x
  {
    if n == k {
      SumToAgree(t, s, k);
    } else {
      SumInsert(s, t, k, x, n - 1);
    }
  }

  lemma {:induction false} SumToScale(c: real, s: seq<real>, t: seq<real>, n: nat)
    requires n <= |s| && n <= |t| && forall i :: 0 <= i < n ==> t[i] == c * s[i]
    ensures SumTo(t, n) == c * SumTo(s, n)
  {
    if n > 0 {
      SumToScale(c, s, t, n - 1);
      assert c * SumTo(s, n) == c * SumTo(s, n - 1) + c * s[n - 1];
    }
  }

  /** Every entry times c. */
  function Scaled(c: real, s: seq<real>): (r: seq<real>)
    ensures |r| == |s| && forall i :: 0 <= i < |r| ==> r[i] == c * s[i]
    ensures Sum(r) == c * Sum(s)
  {
    var r := seq(|s|, i requires 0 <= i < |s| => c * s[i]);
    SumToScale(c, s, r, |s|);
    r
  }

  /** A product as a named term. */
  function Prod(x: real, y: real): real {
    x * y
  }

  lemma ProdOrdered(x: real, y: real, c: real)
    requires x <= y && c >= 0.0
    ensures Prod(x, c) <= Prod(y, c)
  {
    ProductNonNegative(y - x, c);
  }

  function Repeat(x: real, n: nat): (r: seq<real>)
    ensures |r| == n && forall s :: 0 <= s < n ==> r[s] == x
  {
    seq(n, _ => x)
  }

  /** f holds of 0 .. t. */
  ghost predicate UpTo(f: nat -> bool, t: nat) {
    (t > 0 ==> UpTo(f, t - 1)) && f(t)
  }

  lemma {:induction false} UpToMeansAll(f: nat -> bool, t: nat)
    ensures UpTo(f, t) <==> forall u: nat :: u <= t ==> f(u)
  {
    if t > 0 {
      UpToMeansAll(f, t - 1);
    }
  }

  /** Entry by entry product. */
  function Times(a: seq<real>, b: seq<real>): (c: seq<real>)
    requires |a| == |b|
    ensures |c| == |a| && forall i :: 0 <= i < |c| ==> c[i] == a[i] * b[i]
  {
    seq(|a|, i requires 0 <= i < |a| => a[i] * b[i])
  }

  lemma {:induction false} SumToAdd(a: seq<real>, b: seq<real>, c: seq<real>, n: nat)
    requires n <= |a| && n <= |b| && n <= |c| && forall i :: 0 <= i < n ==> c[i] == a[i] + b[i]
    ensures SumTo(c, n) == SumTo(a, n) + SumTo(b, n)
  {
    if n > 0 {
      SumToAdd(a, b, c, n - 1);
    }
  }

  /** The sum of n equal entries lo .. lo+n-1, on top of what precedes them. */
  lemma {:induction false} SumToConst(s: seq<real>, lo: nat, n: nat, c: real)
    requires lo + n <= |s| && forall i :: lo <= i < lo + n ==> s[i] == c
    ensures SumTo(s, lo + n) == SumTo(s, lo) + c * n as real
  {
    if n > 0 {
      SumToConst(s, lo, n - 1, c);
      assert c * n as real == c * (n - 1) as real + c;
    }
  }

  lemma {:induction false} SumToMonotone(a: seq<real>, b: seq<real>, n: nat)
    requires n <= |a| && n <= |b| && forall i :: 0 <= i < n ==> a[i] <= b[i]
    ensures SumTo(a, n) <= SumTo(b, n)
  {
    if n > 0 {
      SumToMonotone(a, b, n - 1);
    }
  }

  lemma {:induction false} SumToNonNegative(s: seq<real>, n: nat)
    requires n <= |s| && forall i :: 0 <= i < n ==> s[i] >= 0.0
    ensures SumTo(s, n) >= 0.0
  {
    if n > 0 {
      SumToNonNegative(s, n - 1);
    }
  }

  /** A sum of non-negative terms is at least each of them. */
  lemma {:induction false} SumToAtLeastTerm(s: seq<real>, n: nat, k: nat)
    requires k < n <= |s| && forall i :: 0 <= i < n ==> s[i] >= 0.0
    ensures SumTo(s, n) >= s[k]
  {
    SumToNonNegative(s, n - 1);
    if k < n - 1 {
      SumToAtLeastTerm(s, n - 1, k);
    }
  }

  lemma {:induction false} SumOneChange(a: seq<real>, b: seq<real>, k: nat, d: real, n: nat)
    requires k < n <= |a| && n <= |b| && b[k] == a[k] + d && forall i :: 0 <= i < n && i != k ==> a[i] == b[i]
    ensures SumTo(b, n) == SumTo(a, n) + d
  {
    if k == n - 1 {
      SumToAgree(a, b, k);
    } else {
      SumOneChange(a, b, k, d, n - 1);
    }
  }

  // ---- double sums over a rectangular table ----

  ghost predicate Rectangular(table: seq<seq<real>>, width: nat) {
    forall i :: 0 <= i < |table| ==> |table[i]| == width
  }

  function RowSums(table: seq<seq<real>>): (r: seq<real>)
    ensures |r| == |table| && forall i :: 0 <= i < |r| ==> r[i] == Sum(table[i])
  {
    seq(|table|, i requires 0 <= i < |table| => Sum(table[i]))
  }

  function Column(table: seq<seq<real>>, width: nat, j: nat): (r: seq<real>)
    requires Rectangular(table, width) && j < width
    ensures |r| == |table| && forall i :: 0 <= i < |r| ==> r[i] == table[i][j]
  {
    seq(|table|, i requires 0 <= i < |table| => table[i][j])
  }

  /** Column totals over the first n rows. */
  function ColumnSums(table: seq<seq<real>>, width: nat, n: nat): (r: seq<real>)
    requires Rectangular(table, width) && n <= |table|
    ensures |r| == width && forall j :: 0 <= j < width ==> r[j] == SumTo(Column(table, width, j), n)
  {
    seq(width, j requires 0 <= j < width => SumTo(Column(table, width, j), n))
  }

  /** Summing by rows or by columns gives the same total. */
  lemma {:induction false} ExchangeSums(table: seq<seq<real>>, width: nat, n: nat)
    requires Rectangular(table, width) && n <= |table|
    ensures SumTo(RowSums(table), n) == Sum(ColumnSums(table, width, n))
  {
    var now := ColumnSums(table, width, n);
    if n == 0 {
      SumToConst(now, 0, width, 0.0);
    } else {
      ExchangeSums(table, width, n - 1);
      SumToAdd(ColumnSums(table, width, n - 1), table[n - 1], now, width);
    }
  }
}
