/** Selection, weighting and caps of the monthly book (src/quant/capital/portfolio/construction.py). */
module Book {
  import opened Wrappers
  import opened Sums
  import opened Ordering
  import Bisection
  import Hrp

  datatype BookError = BadQuantile | NoPositiveVolatility | BadCap | MissingSector | BadCovariance

  // ---- top-quantile selection ----

  /** Rounding to the nearest integer, halves to the even one. */
  function RoundHalfEven(x: real): int {
    var f := x.Floor;
    var rest := x - f as real;
    if rest < 0.5 then f else if rest > 0.5 then f + 1 else if f % 2 == 0 then f else f + 1
  }

  /** The names that have a score, in input order. */
  function Scored(scores: seq<Option<real>>, n: nat): (r: seq<nat>)
    requires n <= |scores|
    ensures forall k :: 0 <= k < |r| ==> r[k] < n && scores[r[k]].Some?
    ensures forall k, l :: 0 <= k < l < |r| ==> r[k] < r[l]
  {
    if n == 0 then [] else if scores[n - 1].Some? then Scored(scores, n - 1) + [n - 1] else Scored(scores, n - 1)
  }

  lemma {:induction false} ScoredComplete(scores: seq<Option<real>>, n: nat, i: nat)
    requires i < n <= |scores| && scores[i].Some?
    ensures i in Scored(scores, n)
  {
    if i < n - 1 {
      ScoredComplete(scores, n - 1, i);
    }
  }

  function Negated(scores: seq<Option<real>>, valid: seq<nat>): (r: seq<real>)
    requires forall k :: 0 <= k < |valid| ==> valid[k] < |scores| && scores[valid[k]].Some?
    ensures |r| == |valid| && forall k :: 0 <= k < |r| ==> r[k] == -scores[valid[k]].value
  {
    seq(|valid|, k requires 0 <= k < |valid| => -scores[valid[k]].value)
  }

  /** The `count` highest scores, highest first, earlier names first among equals. */
  function SelectTop(scores: seq<Option<real>>, count: nat): (r: seq<nat>)
    ensures forall k :: 0 <= k < |r| ==> r[k] < |scores|
  {
    var valid := Scored(scores, |scores|);
    var order := Argsort(Negated(scores, valid));
    var n := if count < |valid| then count else |valid|;
    Gather(valid, order[..n])
  }

  /** How many names a share of x names asks for. */
  function CountFor(x: real): nat {
    if RoundHalfEven(x) > 1 then RoundHalfEven(x) else 1
  }

  function SelectTopQuantile(scores: seq<Option<real>>, quantile: real): (r: Result<seq<nat>, BookError>)
    ensures r.Ok? ==> forall k :: 0 <= k < |r.value| ==> r.value[k] < |scores|
  {
    if !(0.0 < quantile <= 1.0) then Err(BadQuantile)
    else
      Ok(SelectTop(scores, CountFor(Prod(quantile, |Scored(scores, |scores|)| as real))))
  }

  ghost predicate Distinct(items: seq<nat>) {
    forall k, l :: 0 <= k < l < |items| ==> items[k] != items[l]
  }

  lemma SelectionDistinct(scores: seq<Option<real>>, count: nat)
    ensures Distinct(SelectTop(scores, count))
    ensures forall k :: 0 <= k < |SelectTop(scores, count)| ==> scores[SelectTop(scores, count)[k]].Some?
  {
    var valid := Scored(scores, |scores|);
    var keys, r := Negated(scores, valid), SelectTop(scores, count);
    var order := Argsort(keys);
    SortedIndicesStable(keys, |keys|);
    forall k, l | 0 <= k < l < |r| ensures r[k] != r[l] {
      assert Before(keys, order[k], order[l]);
      assert order[k] != order[l];
      assert order[k] < order[l] || order[l] < order[k];
    }
  }

  /** The top names are as many as asked for, as far as there are scored ones. */
  lemma SelectionSize(scores: seq<Option<real>>, count: nat)
    ensures var scored := |Scored(scores, |scores|)|;
      |SelectTop(scores, count)| == if count < scored then count else scored
  {
  }

  /** As many as x to the nearest whole number, at least one if there is one, the even one of two equally near. */
  ghost predicate Nearest(held: nat, scored: nat, x: real) {
    var gap := held as real - x;
    && held <= scored && (held == 0 <==> scored == 0)
    && (-0.5 <= gap <= 0.5 || (held == 1 && gap > 0.5))
    && ((gap == 0.5 || gap == -0.5) && held > 1 ==> held % 2 == 0)
  }

  lemma RoundIsNearest(x: real)
    ensures var n := RoundHalfEven(x); -0.5 <= n as real - x <= 0.5
    ensures var n := RoundHalfEven(x); n as real - x == 0.5 || n as real - x == -0.5 ==> n % 2 == 0
  {
  }

  lemma CountIsNearest(scored: nat, x: real)
    requires 0.0 <= x <= scored as real && (scored > 0 ==> x > 0.0)
    ensures Nearest(if CountFor(x) < scored then CountFor(x) else scored, scored, x)
  {
    RoundIsNearest(x);
  }

  lemma QuantileLength(scores: seq<Option<real>>, quantile: real, scored: nat, x: real)
    requires 0.0 < quantile <= 1.0 && scored == |Scored(scores, |scores|)| && x == Prod(quantile, scored as real)
    ensures SelectTopQuantile(scores, quantile).Ok?
    ensures |SelectTopQuantile(scores, quantile).value| == if CountFor(x) < scored then CountFor(x) else scored
  {
    SelectionSize(scores, CountFor(x));
  }

  lemma FractionOf(quantile: real, total: real)
    requires 0.0 < quantile <= 1.0 && total >= 0.0
    ensures 0.0 <= Prod(quantile, total) <= total && (total > 0.0 ==> Prod(quantile, total) > 0.0)
  {
    ProductNonNegative(quantile, total);
    ProductNonNegative(1.0 - quantile, total);
    if total > 0.0 {
      ProductPositive(quantile, total, quantile * total);
    }
  }

  /** The selection holds the asked fraction of the scored names to the nearest whole name. */
  lemma QuantileSize(scores: seq<Option<real>>, quantile: real)
    requires 0.0 < quantile <= 1.0
    ensures SelectTopQuantile(scores, quantile).Ok?
    ensures var scored := |Scored(scores, |scores|)|;
      Nearest(|SelectTopQuantile(scores, quantile).value|, scored, Prod(quantile, scored as real))
  {
    var scored := |Scored(scores, |scores|)|;
    var x := Prod(quantile, scored as real);
    FractionOf(quantile, scored as real);
    QuantileLength(scores, quantile, scored, x);
    CountIsNearest(scored, x);
  }

  lemma SelectedAt(scores: seq<Option<real>>, count: nat, at: nat)
    requires at < |SelectTop(scores, count)|
    ensures var valid := Scored(scores, |scores|);
      SelectTop(scores, count)[at] == valid[Argsort(Negated(scores, valid))[at]]
  {
  }

  /** A scored name left out does not beat the k-th selected one. */
  lemma SelectionBeats(scores: seq<Option<real>>, count: nat, k: nat, i: nat)
    requires k < |SelectTop(scores, count)| && i < |scores| && scores[i].Some? && i !in SelectTop(scores, count)
    ensures SelectTop(scores, count)[k] < |scores| && scores[SelectTop(scores, count)[k]].Some?
    ensures scores[SelectTop(scores, count)[k]].value >= scores[i].value
  {
    var valid, r := Scored(scores, |scores|), SelectTop(scores, count);
    var keys := Negated(scores, valid);
    var order := Argsort(keys);
    SortedIndicesStable(keys, |keys|);
    ScoredComplete(scores, |scores|, i);
    var p :| 0 <= p < |valid| && valid[p] == i;
    var at := SortedIndicesCover(keys, |keys|, p);
    if at < |r| {
      SelectedAt(scores, count, at);
      assert false;
    }
    assert Before(keys, order[k], order[at]);
  }

  // ---- inverse-volatility weights ----

  function InverseOf(v: Option<real>): real {
    if v.Some? && v.value > 0.0 then 1.0 / v.value else 0.0
  }

  function Inverses(volatility: seq<Option<real>>): (r: seq<real>)
    ensures |r| == |volatility| && forall i :: 0 <= i < |r| ==> r[i] == InverseOf(volatility[i]) >= 0.0
  {
    var r := seq(|volatility|, i requires 0 <= i < |volatility| => InverseOf(volatility[i]));
    assert forall i :: 0 <= i < |r| ==> r[i] >= 0.0 by {
      forall i | 0 <= i < |r| ensures r[i] >= 0.0 {
        if volatility[i].Some? && volatility[i].value > 0.0 {
          PositiveQuotient(1.0, volatility[i].value);
        }
      }
    }
    r
  }

  function DividedBy(v: seq<real>, total: real): (r: seq<real>)
    requires total != 0.0
    ensures |r| == |v| && forall i :: 0 <= i < |r| ==> r[i] == v[i] / total
  {
    seq(|v|, i requires 0 <= i < |v| => v[i] / total)
  }

  function InverseVolWeights(volatility: seq<Option<real>>): (r: Result<seq<real>, BookError>) {
    var inv := Inverses(volatility);
    if Sum(inv) <= 0.0 then Err(NoPositiveVolatility) else Ok(DividedBy(inv, Sum(inv)))
  }

  lemma QuotientNonNegative(p: real, m: real)
    requires p >= 0.0 && m > 0.0
    ensures p / m >= 0.0
  {
    Quotient(p, m);
    FactorNonNegative(p / m, m);
  }

  lemma DividedBySum(v: seq<real>)
    requires Sum(v) > 0.0 && forall i :: 0 <= i < |v| ==> v[i] >= 0.0
    ensures Sum(DividedBy(v, Sum(v))) == 1.0
    ensures forall i :: 0 <= i < |v| ==> DividedBy(v, Sum(v))[i] >= 0.0
  {
    var t, w := Sum(v), DividedBy(v, Sum(v));
    forall i | 0 <= i < |w| ensures v[i] == t * w[i] && w[i] >= 0.0 {
      Quotient(v[i], t);
      QuotientNonNegative(v[i], t);
    }
    SumToScale(t, w, v, |w|);
    CancelFactor(Sum(w), 1.0, t);
  }

  function Risk(weight: real, volatility: real): real {
    weight * volatility
  }

  lemma EqualRisk(vol: real, inv: real, w: real, total: real)
    requires vol > 0.0 && total > 0.0 && inv == 1.0 / vol && w == inv / total
    ensures Risk(w, vol) == 1.0 / total
  {
    Quotient(1.0, vol);
    Quotient(inv, total);
    Quotient(1.0, total);
    assert (w * vol) * total == (w * total) * vol;
    CancelFactor(w * vol, 1.0 / total, total);
  }

  /** Weights are non-negative, sum to 1, and weight times volatility is the same for every name that has one. */
  lemma InverseVolProperties(volatility: seq<Option<real>>)
    requires InverseVolWeights(volatility).Ok?
    ensures var w := InverseVolWeights(volatility).value;
      && |w| == |volatility| && Sum(w) == 1.0
      && (forall i :: 0 <= i < |w| ==> w[i] >= 0.0)
      && forall i :: 0 <= i < |w| && volatility[i].Some? && volatility[i].value > 0.0 ==>
           Risk(w[i], volatility[i].value) == 1.0 / Sum(Inverses(volatility))
  {
    var inv := Inverses(volatility);
    DividedBySum(inv);
    forall i | 0 <= i < |inv| && volatility[i].Some? && volatility[i].value > 0.0
      ensures Risk(inv[i] / Sum(inv), volatility[i].value) == 1.0 / Sum(inv)
    {
      EqualRisk(volatility[i].value, inv[i], inv[i] / Sum(inv), Sum(inv));
    }
  }

  // ---- caps ----

  function Clipped(w: seq<real>, cap: real): (r: seq<real>)
    ensures |r| == |w| && forall i :: 0 <= i < |r| ==> r[i] == Min(w[i], cap)
  {
    seq(|w|, i requires 0 <= i < |w| => Min(w[i], cap))
  }

  /** The weights of one sector, zero elsewhere. */
  function InSector(w: seq<real>, sector: seq<string>, name: string): (r: seq<real>)
    requires |w| == |sector|
    ensures |r| == |w| && forall i :: 0 <= i < |r| ==> r[i] == if sector[i] == name then w[i] else 0.0
  {
    seq(|w|, i requires 0 <= i < |w| => if sector[i] == name then w[i] else 0.0)
  }

  function SectorScale(total: real, cap: real): real {
    if total > 0.0 then Min(cap / total, 1.0) else 1.0
  }

  function Shrunk(scale: real, x: real): real {
    scale * x
  }

  /** The scale of name i's sector, from the clipped weights of that sector. */
  function ScaleOf(w: seq<real>, sector: seq<string>, sectorCap: real, nameCap: real, name: string): real
    requires |w| == |sector|
  {
    SectorScale(Sum(InSector(Clipped(w, nameCap), sector, name)), sectorCap)
  }

  function Capped(w: seq<real>, sector: seq<string>, sectorCap: real, nameCap: real): (r: seq<real>)
    requires |w| == |sector|
    ensures |r| == |w|
    ensures forall i :: 0 <= i < |r| ==>
      r[i] == Shrunk(ScaleOf(w, sector, sectorCap, nameCap, sector[i]), Min(w[i], nameCap))
  {
    seq(|w|, i requires 0 <= i < |w| => Shrunk(ScaleOf(w, sector, sectorCap, nameCap, sector[i]), Min(w[i], nameCap)))
  }

  function SectorOf(name: string, sectors: map<string, string>): string {
    if name in sectors then sectors[name] else ""
  }

  function SectorsOf(names: seq<string>, sectors: map<string, string>): (r: seq<string>)
    ensures |r| == |names| && forall i :: 0 <= i < |r| ==> r[i] == SectorOf(names[i], sectors)
  {
    seq(|names|, i requires 0 <= i < |names| => SectorOf(names[i], sectors))
  }

  function ApplyCaps(names: seq<string>, w: seq<real>, sectors: map<string, string>, sectorCap: real, nameCap: real)
    : (r: Result<seq<real>, BookError>)
    requires |names| == |w|
  {
    if !(0.0 < nameCap <= 1.0) || !(0.0 < sectorCap <= 1.0) then Err(BadCap)
    else if exists i :: 0 <= i < |names| && names[i] !in sectors then Err(MissingSector)
    else Ok(Capped(w, SectorsOf(names, sectors), sectorCap, nameCap))
  }

  lemma ScaleBounds(total: real, cap: real)
    requires cap > 0.0
    ensures 0.0 <= SectorScale(total, cap) <= 1.0
    ensures Shrunk(SectorScale(total, cap), total) == Min(total, cap)
  {
    if total > 0.0 {
      var q := cap / total;
      Quotient(cap, total);
      QuotientNonNegative(cap, total);
      if total > cap {
        QuotientWithin(cap, total);
      } else {
        assert (q - 1.0) * total >= 0.0;
        FactorNonNegative(q - 1.0, total);
      }
    }
  }

  lemma SectorEntries(w: seq<real>, sector: seq<string>, sectorCap: real, nameCap: real, name: string, i: nat)
    requires i < |w| == |sector|
    ensures InSector(Capped(w, sector, sectorCap, nameCap), sector, name)[i]
         == Shrunk(ScaleOf(w, sector, sectorCap, nameCap, name), InSector(Clipped(w, nameCap), sector, name)[i])
  {
  }

  lemma ShrunkAdds(scale: real, x: real, y: real)
    ensures Shrunk(scale, x + y) == Shrunk(scale, x) + Shrunk(scale, y)
  {
  }

  lemma {:induction false} SumToShrunk(scale: real, before: seq<real>, after: seq<real>, n: nat)
    requires n <= |before| && n <= |after| && forall i :: 0 <= i < n ==> after[i] == Shrunk(scale, before[i])
    ensures SumTo(after, n) == Shrunk(scale, SumTo(before, n))
  {
    if n > 0 {
      SumToShrunk(scale, before, after, n - 1);
      ShrunkAdds(scale, SumTo(before, n - 1), before[n - 1]);
    }
  }

  /** Scaling a sector to its cap: its new total is the old one, or the cap when that is smaller. */
  lemma SectorTotalCapped(w: seq<real>, sector: seq<string>, sectorCap: real, nameCap: real, name: string)
    requires |w| == |sector| && sectorCap > 0.0
    ensures Sum(InSector(Capped(w, sector, sectorCap, nameCap), sector, name))
         == Min(Sum(InSector(Clipped(w, nameCap), sector, name)), sectorCap)
  {
    var before := InSector(Clipped(w, nameCap), sector, name);
    var after := InSector(Capped(w, sector, sectorCap, nameCap), sector, name);
    forall i | 0 <= i < |w| ensures after[i] == Shrunk(ScaleOf(w, sector, sectorCap, nameCap, name), before[i]) {
      SectorEntries(w, sector, sectorCap, nameCap, name, i);
    }
    SumToShrunk(ScaleOf(w, sector, sectorCap, nameCap, name), before, after, |w|);
    ScaleBounds(Sum(InSector(Clipped(w, nameCap), sector, name)), sectorCap);
  }

  lemma ShrinkKeepsSign(scale: real, x: real)
    requires 0.0 <= scale <= 1.0
    ensures x >= 0.0 ==> 0.0 <= Shrunk(scale, x) <= x
    ensures x <= 0.0 ==> Shrunk(scale, x) <= 0.0
  {
    if x >= 0.0 {
      ProductNonNegative(scale, x);
      ProductNonNegative(1.0 - scale, x);
    } else {
      ProductNonNegative(scale, -x);
    }
  }

  lemma CapsHoldAt(w: seq<real>, sector: seq<string>, sectorCap: real, nameCap: real, i: nat)
    requires i < |w| == |sector| && sectorCap > 0.0 && nameCap > 0.0
    ensures var r := Capped(w, sector, sectorCap, nameCap)[i]; r <= nameCap && (w[i] >= 0.0 ==> 0.0 <= r <= w[i])
  {
    ScaleBounds(Sum(InSector(Clipped(w, nameCap), sector, sector[i])), sectorCap);
    ShrinkKeepsSign(ScaleOf(w, sector, sectorCap, nameCap, sector[i]), Min(w[i], nameCap));
  }

  ghost predicate Shrinks(w: seq<real>, r: seq<real>) {
    |r| == |w| && (forall i :: 0 <= i < |r| ==> 0.0 <= r[i] <= w[i]) && Sum(r) <= Sum(w)
  }

  lemma ShrunkTotal(w: seq<real>, r: seq<real>)
    requires |r| == |w| && forall i :: 0 <= i < |r| ==> 0.0 <= r[i] <= w[i]
    ensures Shrinks(w, r)
  {
    SumToMonotone(r, w, |w|);
  }

  /** No name above its cap; and for a long-only book nothing grows, so the rest of the capital is cash. */
  lemma CapsHold(w: seq<real>, sector: seq<string>, sectorCap: real, nameCap: real)
    requires |w| == |sector| && sectorCap > 0.0 && nameCap > 0.0
    ensures forall i :: 0 <= i < |w| ==> Capped(w, sector, sectorCap, nameCap)[i] <= nameCap
    ensures (forall i :: 0 <= i < |w| ==> w[i] >= 0.0) ==> Shrinks(w, Capped(w, sector, sectorCap, nameCap))
  {
    var r := Capped(w, sector, sectorCap, nameCap);
    forall i | 0 <= i < |r| ensures r[i] <= nameCap && (w[i] >= 0.0 ==> 0.0 <= r[i] <= w[i]) {
      CapsHoldAt(w, sector, sectorCap, nameCap, i);
    }
    if forall i :: 0 <= i < |w| ==> w[i] >= 0.0 {
      ShrunkTotal(w, r);
    }
  }

  lemma UnitScale(total: real, cap: real)
    requires total <= cap && cap > 0.0
    ensures SectorScale(total, cap) == 1.0
  {
    if total > 0.0 {
      Quotient(cap, total);
      assert (cap / total - 1.0) * total >= 0.0;
      FactorNonNegative(cap / total - 1.0, total);
    }
  }

  /** When no cap binds the weights pass through untouched. */
  lemma SlackCapsAreIdentity(w: seq<real>, sector: seq<string>, sectorCap: real, nameCap: real)
    requires |w| == |sector| && sectorCap > 0.0
    requires forall i :: 0 <= i < |w| ==> w[i] <= nameCap && Sum(InSector(w, sector, sector[i])) <= sectorCap
    ensures Capped(w, sector, sectorCap, nameCap) == w
  {
    assert Clipped(w, nameCap) == w;
    forall i | 0 <= i < |w| ensures Capped(w, sector, sectorCap, nameCap)[i] == w[i] {
      UnitScale(Sum(InSector(w, sector, sector[i])), sectorCap);
    }
  }

  // ---- the whole book ----

  /** How the selected names are weighted; `leaves` stands for the clustering library's leaf order. */
  datatype Weighting =
    | InverseVol(volatility: seq<Option<real>>)
    | RiskParity(cov: Hrp.Matrix, leaves: Hrp.Matrix -> seq<nat>)

  ghost predicate Aligned(weighting: Weighting, n: nat) {
    match weighting
    case InverseVol(volatility) => |volatility| == n
    case RiskParity(cov, leaves) =>
      |cov| == n && Hrp.Square(cov) && forall m :: Hrp.Permutation(leaves(m), |m|)
  }

  function SubMatrix(cov: Hrp.Matrix, items: seq<nat>): (r: Hrp.Matrix)
    requires Hrp.Square(cov) && forall k :: 0 <= k < |items| ==> items[k] < |cov|
    ensures |r| == |items| && Hrp.Square(r)
    ensures forall a, b :: 0 <= a < |items| && 0 <= b < |items| ==> r[a][b] == cov[items[a]][items[b]]
  {
    seq(|items|, a requires 0 <= a < |items| => seq(|items|, b requires 0 <= b < |items| => cov[items[a]][items[b]]))
  }

  /** The chosen entries of `v` put back at their places among n, zero elsewhere. */
  function Scatter(items: seq<nat>, v: seq<real>, n: nat, k: nat): (r: seq<real>)
    requires k <= |items| == |v| && forall j :: 0 <= j < |items| ==> items[j] < n
    ensures |r| == n
  {
    if k == 0 then seq(n, _ => 0.0) else Scatter(items, v, n, k - 1)[items[k - 1] := v[k - 1]]
  }

  lemma {:induction false} ScatterEntries(items: seq<nat>, v: seq<real>, n: nat, k: nat)
    requires k <= |items| == |v| && Distinct(items) && forall j :: 0 <= j < |items| ==> items[j] < n
    ensures forall j :: 0 <= j < k ==> Scatter(items, v, n, k)[items[j]] == v[j]
    ensures forall i :: 0 <= i < n && (forall j :: 0 <= j < k ==> items[j] != i) ==> Scatter(items, v, n, k)[i] == 0.0
    ensures Sum(Scatter(items, v, n, k)) == SumTo(v, k)
  {
    if k == 0 {
      SumToConst(Scatter(items, v, n, 0), 0, n, 0.0);
    } else {
      ScatterEntries(items, v, n, k - 1);
      var before := Scatter(items, v, n, k - 1);
      assert before[items[k - 1]] == 0.0;
      SumOneChange(before, Scatter(items, v, n, k), items[k - 1], v[k - 1], n);
    }
  }

  lemma {:induction false} SubQuadRow(cov: Hrp.Matrix, chosen: seq<nat>, items: seq<nat>, x: seq<real>, a: nat, n: nat)
    requires Hrp.Square(cov) && Hrp.Items(cov, chosen) && |items| == |x| && a < |items| && n <= |items|
    requires Hrp.Items(SubMatrix(cov, chosen), items)
    ensures Hrp.Items(cov, Gather(chosen, items))
    ensures Hrp.QuadRow(SubMatrix(cov, chosen), items, x, a, n) == Hrp.QuadRow(cov, Gather(chosen, items), x, a, n)
  {
    if n > 0 {
      SubQuadRow(cov, chosen, items, x, a, n - 1);
    }
  }

  lemma {:induction false} SubQuad(cov: Hrp.Matrix, chosen: seq<nat>, items: seq<nat>, x: seq<real>, n: nat)
    requires Hrp.Square(cov) && Hrp.Items(cov, chosen) && |items| == |x| && n <= |items|
    requires Hrp.Items(SubMatrix(cov, chosen), items)
    ensures Hrp.Items(cov, Gather(chosen, items))
    ensures Hrp.Quad(SubMatrix(cov, chosen), items, x, n) == Hrp.Quad(cov, Gather(chosen, items), x, n)
  {
    if n > 0 {
      SubQuad(cov, chosen, items, x, n - 1);
      SubQuadRow(cov, chosen, items, x, n - 1, |items|);
    }
  }

  /** Any selection of names from a positive semidefinite covariance is positive semidefinite. */
  lemma SubMatrixSemidefinite(cov: Hrp.Matrix, chosen: seq<nat>)
    requires Hrp.Square(cov) && Hrp.Semidefinite(cov) && Hrp.Items(cov, chosen)
    ensures Hrp.Semidefinite(SubMatrix(cov, chosen))
  {
    forall items: seq<nat>, x: seq<real> | |items| == |x| && Hrp.Items(SubMatrix(cov, chosen), items)
      ensures Hrp.Quad(SubMatrix(cov, chosen), items, x, |items|) >= 0.0
    {
      SubQuad(cov, chosen, items, x, |items|);
      assert Hrp.Quad(cov, Gather(chosen, items), x, |items|) >= 0.0;
    }
  }

  ghost predicate NoRawWeights(weighting: Weighting, n: nat, selected: seq<nat>)
    requires Aligned(weighting, n) && Indexes(selected, n)
  {
    match weighting
    case InverseVol(volatility) => InverseVolWeights(Gather(volatility, selected)).Err?
    case RiskParity(cov, leaves) => |selected| == 0
  }

  /** The chosen method's weights of the selected names: by inverse volatility, or the bisection tree's leaf shares. */
  ghost predicate IsRaw(weighting: Weighting, n: nat, selected: seq<nat>, raw: seq<real>)
    requires Aligned(weighting, n) && Indexes(selected, n)
  {
    match weighting
    case InverseVol(volatility) => InverseVolWeights(Gather(volatility, selected)) == Ok(raw)
    case RiskParity(cov, leaves) =>
      var sub := SubMatrix(cov, selected);
      && |raw| == |sub|
      && forall k :: 0 <= k < |sub| ==>
          raw[leaves(sub)[k]] == Bisection.Goal(Hrp.Fractions(sub, leaves(sub)), |sub|, k)
  }

  /** The chosen method leaves no selected name with a negative weight. */
  ghost predicate LongOnly(weighting: Weighting, n: nat, selected: seq<nat>)
    requires Aligned(weighting, n) && Indexes(selected, n)
  {
    match weighting
    case InverseVol(volatility) => true
    case RiskParity(cov, leaves) =>
      var sub := SubMatrix(cov, selected);
      Hrp.SoundClusters(sub, leaves(sub), 0, |sub|)
  }

  /** A positive semidefinite covariance always gives a long-only book. */
  lemma SemidefiniteIsLongOnly(cov: Hrp.Matrix, leaves: Hrp.Matrix -> seq<nat>, n: nat, selected: seq<nat>)
    requires Aligned(RiskParity(cov, leaves), n) && Indexes(selected, n) && Hrp.Semidefinite(cov)
    ensures LongOnly(RiskParity(cov, leaves), n, selected)
  {
    var sub := SubMatrix(cov, selected);
    var order := leaves(sub);
    assert Hrp.Permutation(order, |sub|);
    SubMatrixSemidefinite(cov, selected);
    Hrp.SemidefiniteClusters(sub, order);
    Hrp.NonNegativeIsSound(sub, order, 0, |sub|);
  }

  ghost predicate NonNegative(w: seq<real>) {
    forall k :: 0 <= k < |w| ==> w[k] >= 0.0
  }

  lemma LeavesNonNegative(w: seq<real>, order: seq<nat>, frac: Bisection.Fraction)
    requires Hrp.Permutation(order, |w|) && forall k :: 0 <= k < |order| ==> w[order[k]] == Bisection.Goal(frac, |w|, k)
    ensures NonNegative(w) <==> Bisection.GoalsLongOnly(frac, |w|)
  {
    if Bisection.GoalsLongOnly(frac, |w|) {
      forall i: nat | i < |w| ensures w[i] >= 0.0 {
        assert i in order;
        var k :| 0 <= k < |order| && order[k] == i;
        assert Bisection.Goal(frac, |w|, k) >= 0.0;
      }
    } else {
      var k :| 0 <= k < |w| && Bisection.Goal(frac, |w|, k) < 0.0;
      assert w[order[k]] < 0.0;
    }
  }

  /** Raw weights of the selected names sum to 1 by either method, and are long-only exactly as the method says. */
  method RawWeights(weighting: Weighting, n: nat, selected: seq<nat>) returns (r: Result<seq<real>, BookError>)
    requires Aligned(weighting, n) && Indexes(selected, n)
    ensures r.Err? <==> NoRawWeights(weighting, n, selected)
    ensures r.Ok? ==> IsRaw(weighting, n, selected, r.value)
    ensures r.Ok? ==> |r.value| == |selected| && Sum(r.value) == 1.0
    ensures r.Ok? ==> (NonNegative(r.value) <==> LongOnly(weighting, n, selected))
  {
    match weighting
    case InverseVol(volatility) =>
      var vol := Gather(volatility, selected);
      r := InverseVolWeights(vol);
      if r.Ok? {
        InverseVolProperties(vol);
      }
    case RiskParity(cov, leaves) =>
      var sub := SubMatrix(cov, selected);
      var order := leaves(sub);
      assert Hrp.Permutation(order, |sub|);
      var h := Hrp.HrpWeights(sub, selected, selected, order);
      if h.Err? {
        return Err(BadCovariance);
      }
      LeavesNonNegative(h.value, order, Hrp.Fractions(sub, order));
      Hrp.WeightsNonNegativeIff(sub, order);
      r := Ok(h.value);
  }

  /** A long-only book within every cap, nothing held outside the selection, and the rest in cash. */
  ghost predicate ValidBook(book: seq<real>, sector: seq<string>, selected: seq<nat>, sectorCap: real, nameCap: real)
    requires |book| == |sector|
  {
    && (forall i :: 0 <= i < |book| ==> 0.0 <= book[i] <= nameCap)
    && (forall i :: 0 <= i < |book| && i !in selected ==> book[i] == 0.0)
    && (forall name :: Sum(InSector(book, sector, name)) <= sectorCap)
    && Sum(book) <= 1.0
  }

  lemma {:induction false} ScatterSector(items: seq<nat>, v: seq<real>, sector: seq<string>, name: string, k: nat)
    requires k <= |items| == |v| && forall j :: 0 <= j < |items| ==> items[j] < |sector|
    ensures InSector(Scatter(items, v, |sector|, k), sector, name)
         == Scatter(items, InSector(v, Gather(sector, items), name), |sector|, k)
  {
    if k > 0 {
      ScatterSector(items, v, sector, name, k - 1);
    }
  }

  /** Putting weights that respect the caps back at their places gives a valid book. */
  lemma ScatterValid(v: seq<real>, selected: seq<nat>, sector: seq<string>, sectorCap: real, nameCap: real)
    requires |v| == |selected| && Distinct(selected) && (forall k :: 0 <= k < |selected| ==> selected[k] < |sector|)
    requires nameCap > 0.0 && Sum(v) <= 1.0 && forall k :: 0 <= k < |v| ==> 0.0 <= v[k] <= nameCap
    requires forall name :: Sum(InSector(v, Gather(sector, selected), name)) <= sectorCap
    ensures ValidBook(Scatter(selected, v, |sector|, |selected|), sector, selected, sectorCap, nameCap)
  {
    var book := Scatter(selected, v, |sector|, |selected|);
    ScatterEntries(selected, v, |sector|, |selected|);
    forall i | 0 <= i < |book| ensures 0.0 <= book[i] <= nameCap && (i !in selected ==> book[i] == 0.0) {
      if i in selected {
        var j :| 0 <= j < |selected| && selected[j] == i;
        assert book[selected[j]] == v[j];
      }
    }
    forall name ensures Sum(InSector(book, sector, name)) <= sectorCap {
      ScatterSector(selected, v, sector, name, |selected|);
      ScatterEntries(selected, InSector(v, Gather(sector, selected), name), |sector|, |selected|);
    }
  }

  lemma ScalePositive(total: real, cap: real)
    requires cap > 0.0
    ensures SectorScale(total, cap) > 0.0
  {
    if total > 0.0 {
      PositiveQuotient(cap, total);
    }
  }

  lemma CappedKeepsSign(w: seq<real>, sector: seq<string>, sectorCap: real, nameCap: real, i: nat)
    requires i < |w| == |sector| && sectorCap > 0.0 && nameCap > 0.0
    ensures Capped(w, sector, sectorCap, nameCap)[i] < 0.0 <==> w[i] < 0.0
  {
    var total := Sum(InSector(Clipped(w, nameCap), sector, sector[i]));
    ScaleBounds(total, sectorCap);
    ScalePositive(total, sectorCap);
    var scale, x := SectorScale(total, sectorCap), Min(w[i], nameCap);
    ShrinkKeepsSign(scale, x);
    if x < 0.0 {
      ProductPositive(scale, -x, scale * -x);
    }
  }

  /** The selected names' weights after both caps, at their places in the universe. */
  function CappedBook(raw: seq<real>, selected: seq<nat>, sector: seq<string>, sectorCap: real,
                      nameCap: real): seq<real>
    requires |raw| == |selected| && Indexes(selected, |sector|)
  {
    Scatter(selected, Capped(raw, Gather(sector, selected), sectorCap, nameCap), |sector|, |selected|)
  }

  /** The capped book is valid exactly when the raw weights are long-only: no cap turns a short into anything else. */
  lemma CappedBookValid(w: seq<real>, selected: seq<nat>, sector: seq<string>, sectorCap: real, nameCap: real)
    requires |w| == |selected| && Distinct(selected) && Indexes(selected, |sector|)
    requires sectorCap > 0.0 && nameCap > 0.0 && Sum(w) == 1.0
    ensures ValidBook(CappedBook(w, selected, sector, sectorCap, nameCap), sector, selected, sectorCap, nameCap)
      <==> NonNegative(w)
  {
    var chosen := Gather(sector, selected);
    var capped := Capped(w, chosen, sectorCap, nameCap);
    if NonNegative(w) {
      CapsHold(w, chosen, sectorCap, nameCap);
      forall name ensures Sum(InSector(capped, chosen, name)) <= sectorCap {
        SectorTotalCapped(w, chosen, sectorCap, nameCap, name);
      }
      ScatterValid(capped, selected, sector, sectorCap, nameCap);
    } else {
      var k :| 0 <= k < |w| && w[k] < 0.0;
      CappedKeepsSign(w, chosen, sectorCap, nameCap, k);
      ScatterEntries(selected, capped, |sector|, |selected|);
      assert CappedBook(w, selected, sector, sectorCap, nameCap)[selected[k]] == capped[k];
    }
  }

  /** The caps are usable and every chosen name has a sector. */
  ghost predicate Cappable(names: seq<string>, selected: seq<nat>, sectors: map<string, string>, sectorCap: real,
                           nameCap: real)
    requires Indexes(selected, |names|)
  {
    && 0.0 < nameCap <= 1.0 && 0.0 < sectorCap <= 1.0
    && forall k :: 0 <= k < |selected| ==> names[selected[k]] in sectors
  }

  lemma ChosenSectors(names: seq<string>, selected: seq<nat>, sectors: map<string, string>)
    requires Indexes(selected, |names|)
    ensures SectorsOf(Gather(names, selected), sectors) == Gather(SectorsOf(names, sectors), selected)
    ensures (exists i :: 0 <= i < |Gather(names, selected)| && Gather(names, selected)[i] !in sectors)
       <==> (exists k :: 0 <= k < |selected| && names[selected[k]] !in sectors)
  {
    if k :| 0 <= k < |selected| && names[selected[k]] !in sectors {
      assert Gather(names, selected)[k] !in sectors;
    }
  }

  /** Cap the raw weights and put them back at their places. */
  method CapAndPlace(names: seq<string>, selected: seq<nat>, raw: seq<real>, sectors: map<string, string>,
                     sectorCap: real, nameCap: real)
    returns (r: Result<seq<real>, BookError>)
    requires Indexes(selected, |names|) && Distinct(selected) && |raw| == |selected|
    requires Sum(raw) == 1.0
    ensures r.Ok? <==> Cappable(names, selected, sectors, sectorCap, nameCap)
    ensures r.Ok? ==> r.value == CappedBook(raw, selected, SectorsOf(names, sectors), sectorCap, nameCap)
    ensures r.Ok? ==> |r.value| == |names|
    ensures r.Ok? ==>
      (ValidBook(r.value, SectorsOf(names, sectors), selected, sectorCap, nameCap) <==> NonNegative(raw))
  {
    var chosen := Gather(names, selected);
    var capped := ApplyCaps(chosen, raw, sectors, sectorCap, nameCap);
    ChosenSectors(names, selected, sectors);
    if capped.Err? {
      return capped;
    }
    CappedBookValid(raw, selected, SectorsOf(names, sectors), sectorCap, nameCap);
    r := Ok(Scatter(selected, capped.value, |names|, |selected|));
  }

  /** Select, weight, cap and put back: the capped raw weights, a valid book if and only if those are long-only. */
  method ConstructBook(names: seq<string>, scores: seq<Option<real>>, sectors: map<string, string>,
                       weighting: Weighting,
                       quantile: real, sectorCap: real, nameCap: real)
    returns (r: Result<seq<real>, BookError>)
    requires |names| == |scores| && Aligned(weighting, |names|)
    ensures match SelectTopQuantile(scores, quantile)
      case Err(e) => r == Err(e)
      case Ok(selected) =>
        && (r.Ok? <==>
            !NoRawWeights(weighting, |names|, selected) && Cappable(names, selected, sectors, sectorCap, nameCap))
        && (r.Ok? ==> |r.value| == |names| && (LongOnly(weighting, |names|, selected) <==>
            ValidBook(r.value, SectorsOf(names, sectors), selected, sectorCap, nameCap)))
        && (r.Ok? ==> exists raw ::
            |raw| == |selected| && IsRaw(weighting, |names|, selected, raw)
            && r.value == CappedBook(raw, selected, SectorsOf(names, sectors), sectorCap, nameCap))
  {
    var choice := SelectTopQuantile(scores, quantile);
    if choice.Err? {
      return Err(choice.error);
    }
    var raw := RawWeights(weighting, |names|, choice.value);
    if raw.Err? {
      return raw;
    }
    SelectionDistinct(scores, |choice.value|);
    r := CapAndPlace(names, choice.value, raw.value, sectors, sectorCap, nameCap);
  }
}
