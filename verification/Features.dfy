/**
 * The core features, batch and live (src/quant/data/features/harness.py, returns.py, volatility.py, vwap.py).
 * A missing or non-finite value is None; the logarithm and the square root are parameters.
 */
module Features {
  import opened Wrappers
  import opened Sums
  import opened Bars

  type Column = seq<Option<real>>

  datatype Maths = Maths(log: real -> real, sqrt: real -> real, parkinsonFactor: real)

  datatype Config = Config(horizons: seq<int>, volatilityWindow: int, atrWindow: int, parkinsonWindow: int)

  datatype FeatureError = NoHistory | BadHorizon | BadWindow

  // ---- column operations ----

  function Divide(a: Option<real>, b: Option<real>): Option<real> {
    if a.None? || b.None? || b.value == 0.0 then None else Some(a.value / b.value)
  }

  function LogOf(x: Option<real>, m: Maths): Option<real> {
    if x.None? || x.value <= 0.0 then None else Some(m.log(x.value))
  }

  function SqrtOf(x: Option<real>, m: Maths): Option<real> {
    if x.None? || x.value < 0.0 then None else Some(m.sqrt(x.value))
  }

  function Closes(f: Frame): (r: Column)
    ensures |r| == |f| && forall i :: 0 <= i < |r| ==> r[i] == Some(f[i].close)
  {
    seq(|f|, i requires 0 <= i < |f| => Some(f[i].close))
  }

  /** Each value k rows later; the first k rows have none. */
  function Shift(c: Column, k: nat): (r: Column)
    ensures |r| == |c| && forall i :: 0 <= i < |r| ==> r[i] == if i < k then None else c[i - k]
  {
    seq(|c|, i requires 0 <= i < |c| => if i < k then None else c[i - k])
  }

  function LogRatio(a: Column, b: Column, m: Maths): (r: Column)
    requires |a| == |b|
    ensures |r| == |a| && forall i :: 0 <= i < |r| ==> r[i] == LogOf(Divide(a[i], b[i]), m)
  {
    seq(|a|, i requires 0 <= i < |a| => LogOf(Divide(a[i], b[i]), m))
  }

  /** A statistic of each full trailing window; none before the first full one. */
  function Rolling(c: Column, window: nat, statistic: Column -> Option<real>): (r: Column)
    requires window > 0
    ensures |r| == |c|
    ensures forall i :: 0 <= i < |r| ==> r[i] == if i + 1 < window then None else statistic(c[i + 1 - window..i + 1])
  {
    seq(|c|, i requires 0 <= i < |c| => if i + 1 < window then None else statistic(c[i + 1 - window..i + 1]))
  }

  function TotalOf(c: Column): Option<real> {
    if |c| == 0 then Some(0.0)
    else
      var before, last := TotalOf(c[..|c| - 1]), c[|c| - 1];
      if before.None? || last.None? then None else Some(before.value + last.value)
  }

  function MeanOf(c: Column): Option<real> {
    Divide(TotalOf(c), Some(|c| as real))
  }

  function SquaredGaps(c: Column, mean: real): (r: Column)
    ensures |r| == |c|
  {
    seq(|c|, i requires 0 <= i < |c| => if c[i].None? then None else Some(Prod(c[i].value - mean, c[i].value - mean)))
  }

  /** The sample standard deviation. */
  function StdOf(m: Maths): Column -> Option<real> {
    c => if MeanOf(c).None? then None
         else SqrtOf(Divide(TotalOf(SquaredGaps(c, MeanOf(c).value)), Some((|c| - 1) as real)), m)
  }

  // ---- the features ----

  function LogReturn(f: Frame, horizon: nat, m: Maths): (r: Column)
    ensures |r| == |f|
  {
    LogRatio(Closes(f), Shift(Closes(f), horizon), m)
  }

  function RealizedVolatility(f: Frame, window: nat, m: Maths): (r: Column)
    requires window > 0
    ensures |r| == |f|
  {
    Rolling(LogReturn(f, 1, m), window, StdOf(m))
  }

  /** The widest of today's range and its two distances from yesterday's close; the first bar has only its range. */
  function TrueRange(f: Frame, i: nat): real
    requires i < |f|
  {
    var range := f[i].high - f[i].low;
    if i == 0 then range
    else Max(range, Max(Abs(f[i].high - f[i - 1].close), Abs(f[i].low - f[i - 1].close)))
  }

  function TrueRanges(f: Frame): (r: Column)
    ensures |r| == |f| && forall i: nat :: i < |r| ==> r[i] == Some(TrueRange(f, i))
  {
    seq(|f|, i requires 0 <= i < |f| => Some(TrueRange(f, i)))
  }

  function Atr(f: Frame, window: nat): (r: Column)
    requires window > 0
    ensures |r| == |f|
  {
    Rolling(TrueRanges(f), window, MeanOf)
  }

  function SquaredLogRange(b: Bar, m: Maths): Option<real> {
    var l := LogOf(Divide(Some(b.high), Some(b.low)), m);
    if l.None? then None else Some(Prod(l.value, l.value))
  }

  function SquaredLogRanges(f: Frame, m: Maths): (r: Column)
    ensures |r| == |f| && forall i :: 0 <= i < |r| ==> r[i] == SquaredLogRange(f[i], m)
  {
    seq(|f|, i requires 0 <= i < |f| => SquaredLogRange(f[i], m))
  }

  function ParkinsonOf(m: Maths): Column -> Option<real> {
    c => if MeanOf(c).None? then None else SqrtOf(Some(Prod(m.parkinsonFactor, MeanOf(c).value)), m)
  }

  function ParkinsonVolatility(f: Frame, window: nat, m: Maths): (r: Column)
    requires window > 0
    ensures |r| == |f|
  {
    Rolling(SquaredLogRanges(f, m), window, ParkinsonOf(m))
  }

  function Typical(b: Bar): real {
    (b.high + b.low + b.close) / 3.0
  }

  /** The sum, over the rows up to i on row i's day, of a value per row. */
  function DayTotal(f: Frame, value: Bar -> real, day: int, n: nat): real
    requires n <= |f|
  {
    if n == 0 then 0.0
    else DayTotal(f, value, day, n - 1) + if Day(f[n - 1].timestamp) == day then value(f[n - 1]) else 0.0
  }

  function Value(b: Bar): real {
    Prod(Typical(b), b.volume as real)
  }

  function Volume(b: Bar): real {
    b.volume as real
  }

  function VwapAt(f: Frame, i: nat): Option<real>
    requires i < |f|
  {
    var day := Day(f[i].timestamp);
    Divide(Some(DayTotal(f, Value, day, i + 1)), Some(DayTotal(f, Volume, day, i + 1)))
  }

  function DeviationAt(f: Frame, i: nat): Option<real>
    requires i < |f|
  {
    var vwap := VwapAt(f, i);
    if vwap.None? then None else Divide(Some(f[i].close - vwap.value), vwap)
  }

  function VwapDeviation(f: Frame): (r: Column)
    ensures |r| == |f| && forall i: nat :: i < |r| ==> r[i] == DeviationAt(f, i)
  {
    seq(|f|, i requires 0 <= i < |f| => DeviationAt(f, i))
  }

  // ---- the batch path ----

  ghost predicate Sane(c: Config) {
    && (forall k :: 0 <= k < |c.horizons| ==> c.horizons[k] > 0)
    && c.volatilityWindow > 1 && c.atrWindow > 1 && c.parkinsonWindow > 1
  }

  /** What the feature functions complain about first. */
  function Problem(c: Config): (r: Option<FeatureError>)
    ensures r.None? <==> Sane(c)
  {
    if exists k :: 0 <= k < |c.horizons| && c.horizons[k] <= 0 then Some(BadHorizon)
    else if c.volatilityWindow <= 1 || c.atrWindow <= 1 || c.parkinsonWindow <= 1 then Some(BadWindow)
    else None
  }

  datatype FeatureName =
    | Ret(horizon: int)
    | Rvol(window: int)
    | AverageRange(window: int)
    | Parkinson(window: int)
    | VwapDev

  ghost predicate SaneName(name: FeatureName) {
    match name
    case Ret(horizon) => horizon > 0
    case VwapDev => true
    case _ => name.window > 1
  }

  /** The listed names: one per horizon, repeats and all, then the other four. */
  function Listed(c: Config): (r: seq<FeatureName>)
    ensures |r| == |c.horizons| + 4
    ensures forall k :: 0 <= k < |c.horizons| ==> r[k] == Ret(c.horizons[k])
    ensures r[|c.horizons|..]
      == [Rvol(c.volatilityWindow), AverageRange(c.atrWindow), Parkinson(c.parkinsonWindow), VwapDev]
    ensures Sane(c) ==> forall k :: 0 <= k < |r| ==> SaneName(r[k])
  {
    seq(|c.horizons|, k requires 0 <= k < |c.horizons| => Ret(c.horizons[k]))
    + [Rvol(c.volatilityWindow), AverageRange(c.atrWindow), Parkinson(c.parkinsonWindow), VwapDev]
  }

  /** Every name once, where it first stands: what a dictionary keeps. */
  function Distinct<T(==, !new)>(names: seq<T>): (r: seq<T>)
    ensures forall x :: x in r <==> x in names
    ensures forall i, j :: 0 <= i < j < |r| ==> r[i] != r[j]
    ensures |r| <= |names|
  {
    if |names| == 0 then []
    else
      var before, last := Distinct(names[..|names| - 1]), names[|names| - 1];
      assert names == names[..|names| - 1] + [last];
      if last in before then before else before + [last]
  }

  lemma {:induction false} DistinctIsIdentity<T(!new)>(names: seq<T>)
    ensures Distinct(names) == names <==> forall i, j :: 0 <= i < j < |names| ==> names[i] != names[j]
  {
    if |names| > 0 {
      var front, last := names[..|names| - 1], names[|names| - 1];
      DistinctIsIdentity(front);
      assert names == front + [last];
      if Distinct(names) == names {
        assert last !in Distinct(front);
        assert front == Distinct(front);
      }
      if forall i, j :: 0 <= i < j < |names| ==> names[i] != names[j] {
        assert last !in front;
      }
    }
  }

  function ColumnNames(c: Config): (r: seq<FeatureName>)
    ensures Sane(c) ==> forall k :: 0 <= k < |r| ==> SaneName(r[k])
  {
    var r := Distinct(Listed(c));
    assert Sane(c) ==> forall k :: 0 <= k < |r| ==> r[k] in Listed(c);
    r
  }

  /** The listed names are the frame's columns if and only if no horizon is listed twice. */
  lemma NamesInStepIff(c: Config)
    ensures ColumnNames(c) == Listed(c) <==> forall i, j :: 0 <= i < j < |c.horizons| ==> c.horizons[i] != c.horizons[j]
  {
    var names := Listed(c);
    DistinctIsIdentity(names);
    if forall i, j :: 0 <= i < j < |names| ==> names[i] != names[j] {
      forall i, j | 0 <= i < j < |c.horizons| ensures c.horizons[i] != c.horizons[j] {
        assert names[i] != names[j];
      }
    }
  }

  function Feature(f: Frame, m: Maths, name: FeatureName): (r: Column)
    requires SaneName(name)
    ensures |r| == |f|
  {
    match name
    case Ret(horizon) => LogReturn(f, horizon, m)
    case Rvol(window) => RealizedVolatility(f, window, m)
    case AverageRange(window) => Atr(f, window)
    case Parkinson(window) => ParkinsonVolatility(f, window, m)
    case VwapDev => VwapDeviation(f)
  }

  /** A column under every name. */
  function Filled(f: Frame, m: Maths, names: seq<FeatureName>): (r: seq<Column>)
    requires forall k :: 0 <= k < |names| ==> SaneName(names[k])
    ensures |r| == |names| && forall k: nat :: k < |r| ==> r[k] == Feature(f, m, names[k]) && |r[k]| == |f|
  {
    seq(|names|, k requires 0 <= k < |names| => Feature(f, m, names[k]))
  }

  /** Every column of a sorted frame, in the order of the column names. */
  function Columns(f: Frame, c: Config, m: Maths): (r: seq<Column>)
    requires Sane(c)
    ensures |r| == |ColumnNames(c)| && forall k: nat :: k < |r| ==> |r[k]| == |f|
  {
    Filled(f, m, ColumnNames(c))
  }

  datatype Table = Table(names: seq<FeatureName>, columns: seq<Column>)

  function Row(columns: seq<Column>, i: nat): (r: seq<Option<real>>)
    requires forall k :: 0 <= k < |columns| ==> i < |columns[k]|
    ensures |r| == |columns| && forall k :: 0 <= k < |r| ==> r[k] == columns[k][i]
  {
    seq(|columns|, k requires 0 <= k < |columns| => columns[k][i])
  }

  /** n empty columns. */
  function EmptyColumns(n: nat): seq<Column> {
    seq(n, _ => [])
  }

  lemma DistinctStep<T(!new)>(names: seq<T>, n: nat)
    requires n < |names|
    ensures Distinct(names[..n + 1])
      == if names[n] in Distinct(names[..n]) then Distinct(names[..n]) else Distinct(names[..n]) + [names[n]]
  {
    assert names[..n + 1][..n] == names[..n];
  }

  /** A column under each of these names. */
  ghost predicate IsTable(f: Frame, m: Maths, names: seq<FeatureName>, table: Table) {
    (forall k :: 0 <= k < |names| ==> SaneName(names[k])) && table == Table(names, Filled(f, m, names))
  }

  lemma OneMoreColumn(f: Frame, m: Maths, table: Table, name: FeatureName)
    requires IsTable(f, m, table.names, table) && SaneName(name)
    ensures IsTable(f, m, table.names + [name], Table(table.names + [name], table.columns + [Feature(f, m, name)]))
  {
    assert Filled(f, m, table.names + [name]) == Filled(f, m, table.names) + [Feature(f, m, name)];
  }

  /** The columns dictionary, filled one feature at a time; a repeated name overwrites its column with itself. */
  method FillColumns(f: Frame, c: Config, m: Maths) returns (table: Table)
    requires Sane(c)
    ensures table == Table(ColumnNames(c), Columns(f, c, m))
  {
    var listed := Listed(c);
    table := Table([], []);
    for n := 0 to |listed|
      invariant IsTable(f, m, Distinct(listed[..n]), table)
    {
      var name := listed[n];
      DistinctStep(listed, n);
      if name !in table.names {
        OneMoreColumn(f, m, table, name);
        table := Table(table.names + [name], table.columns + [Feature(f, m, name)]);
      }
    }
    assert listed[..|listed|] == listed;
  }

  /** The batch frame. An empty one gives empty columns before any check of the windows. */
  method ComputeFeatureFrame(bars: Frame, c: Config, m: Maths) returns (r: Result<Table, FeatureError>)
    ensures |bars| == 0 ==> r == Ok(Table(ColumnNames(c), EmptyColumns(|ColumnNames(c)|)))
    ensures |bars| > 0 ==>
      r == if Sane(c) then Ok(Table(ColumnNames(c), Columns(SortBars(bars), c, m))) else Err(Problem(c).value)
  {
    var frame := SortBars(bars);
    if |frame| == 0 {
      return Ok(Table(ColumnNames(c), EmptyColumns(|ColumnNames(c)|)));
    }
    if Problem(c).Some? {
      return Err(Problem(c).value);
    }
    var table := FillColumns(frame, c, m);
    return Ok(table);
  }

  function UpTo(f: Frame, asof: int): (r: Frame)
    ensures |r| <= |f|
  {
    if |f| == 0 then [] else UpTo(Front(f), asof) + if Last(f).timestamp <= asof then [Last(f)] else []
  }

  /** The batch frame's row at the last bar at or before a time. */
  ghost function BatchRow(f: Frame, asof: int, c: Config, m: Maths): seq<Option<real>>
    requires Sane(c) && |UpTo(f, asof)| > 0
  {
    Row(Columns(f, c, m), |UpTo(f, asof)| - 1)
  }

  ghost function LiveVector(f: Frame, asof: int, c: Config, m: Maths): Result<seq<Option<real>>, FeatureError> {
    if |UpTo(f, asof)| == 0 then Err(NoHistory)
    else if !Sane(c) then Err(Problem(c).value)
    else Ok(BatchRow(f, asof, c, m))
  }

  // ---- every feature is causal: a prefix of the bars gives the prefix of the column ----

  lemma {:induction false} UpToAll(f: Frame, asof: int)
    requires forall i :: 0 <= i < |f| ==> f[i].timestamp <= asof
    ensures UpTo(f, asof) == f
  {
    if |f| > 0 {
      UpToAll(Front(f), asof);
      assert f == Front(f) + [Last(f)];
    }
  }

  /** In a sorted frame the bars at or before a time are a prefix, and it is the right one. */
  lemma {:induction false} UpToIsPrefix(f: Frame, asof: int) returns (n: nat)
    requires Sorted(f)
    ensures n <= |f| && UpTo(f, asof) == f[..n] && |UpTo(f, asof)| == n
    ensures forall i :: 0 <= i < |f| ==> (f[i].timestamp <= asof <==> i < n)
  {
    if |f| == 0 || Last(f).timestamp <= asof {
      UpToAll(f, asof);
      n := |f|;
    } else {
      n := UpToIsPrefix(Front(f), asof);
      assert Front(f)[..n] == f[..n];
    }
  }

  lemma ShiftOfPrefix(c: Column, k: nat, n: nat)
    requires n <= |c|
    ensures Shift(c[..n], k) == Shift(c, k)[..n]
  {
  }

  lemma ReturnOfPrefix(f: Frame, horizon: nat, m: Maths, n: nat)
    requires n <= |f|
    ensures LogReturn(f[..n], horizon, m) == LogReturn(f, horizon, m)[..n]
  {
    assert Closes(f[..n]) == Closes(f)[..n];
    ShiftOfPrefix(Closes(f), horizon, n);
  }

  lemma RollingOfPrefix(c: Column, window: nat, statistic: Column -> Option<real>, n: nat)
    requires window > 0 && n <= |c|
    ensures Rolling(c[..n], window, statistic) == Rolling(c, window, statistic)[..n]
  {
    forall i | 0 <= i < n ensures Rolling(c[..n], window, statistic)[i] == Rolling(c, window, statistic)[i] {
      if i + 1 >= window {
        assert c[..n][i + 1 - window..i + 1] == c[i + 1 - window..i + 1];
      }
    }
  }

  lemma VolatilityOfPrefix(f: Frame, window: nat, m: Maths, n: nat)
    requires window > 0 && n <= |f|
    ensures RealizedVolatility(f[..n], window, m) == RealizedVolatility(f, window, m)[..n]
  {
    ReturnOfPrefix(f, 1, m, n);
    RollingOfPrefix(LogReturn(f, 1, m), window, StdOf(m), n);
  }

  lemma AtrOfPrefix(f: Frame, window: nat, n: nat)
    requires window > 0 && n <= |f|
    ensures Atr(f[..n], window) == Atr(f, window)[..n]
  {
    assert TrueRanges(f[..n]) == TrueRanges(f)[..n];
    RollingOfPrefix(TrueRanges(f), window, MeanOf, n);
  }

  lemma ParkinsonOfPrefix(f: Frame, window: nat, m: Maths, n: nat)
    requires window > 0 && n <= |f|
    ensures ParkinsonVolatility(f[..n], window, m) == ParkinsonVolatility(f, window, m)[..n]
  {
    assert SquaredLogRanges(f[..n], m) == SquaredLogRanges(f, m)[..n];
    RollingOfPrefix(SquaredLogRanges(f, m), window, ParkinsonOf(m), n);
  }

  lemma {:induction false} DayTotalOfPrefix(f: Frame, value: Bar -> real, day: int, n: nat, k: nat)
    requires k <= n <= |f|
    ensures DayTotal(f[..n], value, day, k) == DayTotal(f, value, day, k)
  {
    if k > 0 {
      DayTotalOfPrefix(f, value, day, n, k - 1);
    }
  }

  lemma DeviationOfPrefix(f: Frame, n: nat)
    requires n <= |f|
    ensures VwapDeviation(f[..n]) == VwapDeviation(f)[..n]
  {
    forall i: nat | i < n ensures DeviationAt(f[..n], i) == DeviationAt(f, i) {
      DayTotalOfPrefix(f, Value, Day(f[i].timestamp), n, i + 1);
      DayTotalOfPrefix(f, Volume, Day(f[i].timestamp), n, i + 1);
    }
  }

  lemma FeatureOfPrefix(f: Frame, n: nat, m: Maths, name: FeatureName)
    requires n <= |f| && SaneName(name)
    ensures Feature(f[..n], m, name) == Feature(f, m, name)[..n]
  {
    match name
    case Ret(horizon) => ReturnOfPrefix(f, horizon, m, n);
    case Rvol(window) => VolatilityOfPrefix(f, window, m, n);
    case AverageRange(window) => AtrOfPrefix(f, window, n);
    case Parkinson(window) => ParkinsonOfPrefix(f, window, m, n);
    case VwapDev => DeviationOfPrefix(f, n);
  }

  /** Row i of the frame depends on no bar after i. */
  lemma RowsOfPrefix(f: Frame, n: nat, c: Config, m: Maths, i: nat)
    requires i < n <= |f| && Sane(c)
    ensures Row(Columns(f[..n], c, m), i) == Row(Columns(f, c, m), i)
  {
    var names := ColumnNames(c);
    var a, b := Columns(f[..n], c, m), Columns(f, c, m);
    forall k: nat | k < |names| ensures a[k][i] == b[k][i] {
      FeatureOfPrefix(f, n, m, names[k]);
      assert a[k][i] == b[k][..n][i];
    }
  }

  // ---- the live path ----

  lemma LiveRow(f: Frame, asof: int, c: Config, m: Maths)
    requires Sorted(f) && Sane(c) && |UpTo(f, asof)| > 0
    ensures SortBars(UpTo(f, asof)) == UpTo(f, asof)
    ensures Row(Columns(UpTo(f, asof), c, m), |UpTo(f, asof)| - 1) == BatchRow(f, asof, c, m)
  {
    var n := UpToIsPrefix(f, asof);
    SortedIsFixed(UpTo(f, asof));
    RowsOfPrefix(f, n, c, m, n - 1);
  }

  /** The live vector is the batch frame's row at the last bar at or before the decision time. */
  method ComputeFeaturesAsof(bars: Frame, asof: int, c: Config, m: Maths)
    returns (r: Result<seq<Option<real>>, FeatureError>)
    ensures r == LiveVector(SortBars(bars), asof, c, m)
  {
    var frame := SortBars(bars);
    var history := UpTo(frame, asof);
    if |history| == 0 {
      return Err(NoHistory);
    }
    SortBarsSorted(bars);
    var columns := ComputeFeatureFrame(history, c, m);
    if columns.Err? {
      return Err(columns.error);
    }
    LiveRow(frame, asof, c, m);
    return Ok(Row(columns.value.columns, |history| - 1));
  }

  // ---- what the statistics mean ----

  ghost predicate AllKnown(c: Column) {
    forall i :: 0 <= i < |c| ==> c[i].Some?
  }

  ghost function Values(c: Column): (r: seq<real>)
    requires AllKnown(c)
    ensures |r| == |c| && forall i :: 0 <= i < |r| ==> r[i] == c[i].value
  {
    seq(|c|, i requires 0 <= i < |c| => c[i].value)
  }

  lemma LastValue(front: Column, last: Option<real>)
    ensures AllKnown(front + [last]) <==> AllKnown(front) && last.Some?
    ensures AllKnown(front + [last]) ==> Sum(Values(front + [last])) == Sum(Values(front)) + last.value
  {
    var c := front + [last];
    if AllKnown(front) && last.Some? {
      assert Values(c) == Values(front) + [last.value];
      SumAppend(Values(front), last.value);
    } else if !AllKnown(front) {
      var i :| 0 <= i < |front| && front[i].None?;
      assert c[i].None?;
    } else {
      assert c[|front|].None?;
    }
  }

  lemma {:induction false} TotalIs(c: Column)
    ensures TotalOf(c).Some? <==> AllKnown(c)
    ensures AllKnown(c) ==> TotalOf(c) == Some(Sum(Values(c)))
  {
    if |c| > 0 {
      var front, last := c[..|c| - 1], c[|c| - 1];
      TotalIs(front);
      LastValue(front, last);
      assert c == front + [last];
    }
  }

  /** Missing anything there is no mean; otherwise it is the number that, once per value, makes the total. */
  ghost predicate IsMeanOf(c: Column, mean: real) {
    AllKnown(c) && Prod(mean, |c| as real) == Sum(Values(c))
  }

  lemma MeanIs(c: Column)
    requires |c| > 0
    ensures MeanOf(c).Some? <==> AllKnown(c)
    ensures AllKnown(c) ==> IsMeanOf(c, MeanOf(c).value)
  {
    TotalIs(c);
    if AllKnown(c) {
      Quotient(Sum(Values(c)), |c| as real);
    }
  }

  ghost predicate IsRoot(sqrt: real -> real) {
    forall x: real :: x >= 0.0 ==> sqrt(x) >= 0.0 && Prod(sqrt(x), sqrt(x)) == x
  }

  ghost function Gaps(c: Column, mean: real): (r: seq<real>)
    requires AllKnown(c)
    ensures |r| == |c| && forall i :: 0 <= i < |r| ==> r[i] == Prod(c[i].value - mean, c[i].value - mean)
  {
    seq(|c|, i requires 0 <= i < |c| => Prod(c[i].value - mean, c[i].value - mean))
  }

  lemma SquareNonNegative(d: real)
    ensures Prod(d, d) >= 0.0
  {
    if d != 0.0 {
      SquarePositive(d, d * d);
    }
  }

  lemma GapsNonNegative(c: Column, mean: real)
    requires AllKnown(c)
    ensures Sum(Gaps(c, mean)) >= 0.0
  {
    forall i | 0 <= i < |c| ensures Gaps(c, mean)[i] >= 0.0 {
      SquareNonNegative(c[i].value - mean);
    }
    SumToNonNegative(Gaps(c, mean), |c|);
  }

  /** The deviation's square times one less than the number of values is the sum of their squared gaps to the mean. */
  ghost predicate IsDeviation(c: Column, deviation: real) {
    && AllKnown(c) && deviation >= 0.0
    && exists mean :: IsMeanOf(c, mean) && Prod(Prod(deviation, deviation), (|c| - 1) as real) == Sum(Gaps(c, mean))
  }

  lemma RootOfQuotient(total: real, n: real, m: Maths)
    requires total >= 0.0 && n > 0.0 && IsRoot(m.sqrt)
    ensures var root := SqrtOf(Divide(Some(total), Some(n)), m);
      root.Some? && root.value >= 0.0 && Prod(Prod(root.value, root.value), n) == total
  {
    Quotient(total, n);
    FactorNonNegative(total / n, n);
  }

  lemma GapsAre(c: Column, mean: real)
    requires AllKnown(c)
    ensures TotalOf(SquaredGaps(c, mean)) == Some(Sum(Gaps(c, mean)))
  {
    TotalIs(SquaredGaps(c, mean));
    assert Values(SquaredGaps(c, mean)) == Gaps(c, mean);
  }

  lemma DeviationIs(c: Column, m: Maths)
    requires |c| > 1 && IsRoot(m.sqrt)
    ensures StdOf(m)(c).Some? <==> AllKnown(c)
    ensures AllKnown(c) ==> IsDeviation(c, StdOf(m)(c).value)
  {
    MeanIs(c);
    if AllKnown(c) {
      var mean := MeanOf(c).value;
      GapsAre(c, mean);
      GapsNonNegative(c, mean);
      RootOfQuotient(Sum(Gaps(c, mean)), (|c| - 1) as real, m);
    }
  }

  // ---- what the columns mean ----

  /** The rows of the trailing window that ends at row i. */
  ghost function Window(c: Column, window: nat, i: nat): (r: Column)
    requires 0 < window <= i + 1 <= |c|
    ensures |r| == window && forall k :: 0 <= k < window ==> r[k] == c[i + 1 - window + k]
  {
    c[i + 1 - window..i + 1]
  }

  /** Realized volatility is the sample deviation of the window's one-bar returns, none until they fill it. */
  lemma VolatilityRows(f: Frame, window: nat, m: Maths, i: nat)
    requires window > 1 && i < |f| && IsRoot(m.sqrt)
    ensures var v, moves := RealizedVolatility(f, window, m)[i], LogReturn(f, 1, m);
      if i + 1 < window || !AllKnown(Window(moves, window, i)) then v == None
      else v.Some? && IsDeviation(Window(moves, window, i), v.value)
  {
    if i + 1 >= window {
      DeviationIs(Window(LogReturn(f, 1, m), window, i), m);
    }
  }

  /** The average true range is the mean of the window's true ranges. */
  lemma AtrRows(f: Frame, window: nat, i: nat)
    requires window > 0 && i < |f|
    ensures var v := Atr(f, window)[i];
      if i + 1 < window then v == None else v.Some? && IsMeanOf(Window(TrueRanges(f), window, i), v.value)
  {
    if i + 1 >= window {
      MeanIs(Window(TrueRanges(f), window, i));
    }
  }

  lemma SquaredRangesKnown(f: Frame, window: nat, m: Maths, i: nat)
    requires 0 < window <= i + 1 <= |f|
    requires forall k :: i + 1 - window <= k <= i ==> f[k].high > 0.0 && f[k].low > 0.0
    ensures var c := Window(SquaredLogRanges(f, m), window, i);
      AllKnown(c) && forall k :: 0 <= k < window ==> Values(c)[k] >= 0.0
  {
    var c := Window(SquaredLogRanges(f, m), window, i);
    forall k | 0 <= k < window ensures c[k].Some? && c[k].value >= 0.0 {
      var b := f[i + 1 - window + k];
      PositiveQuotient(b.high, b.low);
      SquareNonNegative(m.log(b.high / b.low));
    }
  }

  lemma MeanNonNegative(c: Column, mean: real)
    requires IsMeanOf(c, mean) && |c| > 0 && forall k :: 0 <= k < |c| ==> Values(c)[k] >= 0.0
    ensures mean >= 0.0
  {
    SumToNonNegative(Values(c), |c|);
    FactorNonNegative(mean, |c| as real);
  }

  lemma RootOfScaled(factor: real, mean: real, m: Maths)
    requires factor > 0.0 && mean >= 0.0 && IsRoot(m.sqrt)
    ensures var root := SqrtOf(Some(Prod(factor, mean)), m);
      root.Some? && root.value >= 0.0 && Prod(root.value, root.value) == Prod(factor, mean)
  {
    ProductNonNegative(factor, mean);
  }

  /** The Parkinson estimate's square is the factor times the mean of the window's squared log ranges. */
  lemma ParkinsonRows(f: Frame, window: nat, m: Maths, i: nat) returns (mean: real)
    requires 0 < window <= i + 1 <= |f| && IsRoot(m.sqrt) && m.parkinsonFactor > 0.0
    requires forall k :: i + 1 - window <= k <= i ==> f[k].high > 0.0 && f[k].low > 0.0
    ensures IsMeanOf(Window(SquaredLogRanges(f, m), window, i), mean)
    ensures var v := ParkinsonVolatility(f, window, m)[i];
      v.Some? && v.value >= 0.0 && Prod(v.value, v.value) == Prod(m.parkinsonFactor, mean)
  {
    var c := Window(SquaredLogRanges(f, m), window, i);
    SquaredRangesKnown(f, window, m, i);
    MeanIs(c);
    mean := MeanOf(c).value;
    MeanNonNegative(c, mean);
    RootOfScaled(m.parkinsonFactor, mean, m);
  }

  ghost predicate IsRatio(q: real, a: real, b: real) {
    q > 0.0 && q * b == a
  }

  /** A bar's log range is the log of its high over its low. */
  lemma LogRangeIs(b: Bar, m: Maths) returns (q: real)
    requires b.high > 0.0 && b.low > 0.0
    ensures IsRatio(q, b.high, b.low) && SquaredLogRange(b, m) == Some(Prod(m.log(q), m.log(q)))
  {
    q := b.high / b.low;
    Quotient(b.high, b.low);
    PositiveQuotient(b.high, b.low);
  }

  ghost predicate IsLogarithm(log: real -> real) {
    forall x: real, y: real {:trigger Prod(x, y)} :: x > 0.0 && y > 0.0 ==> log(Prod(x, y)) == log(x) + log(y)
  }

  /** The logarithm of how a bar's close compares with the one h bars before. */
  ghost function ReturnOver(f: Frame, h: nat, m: Maths, i: nat): Option<real>
    requires i < |f|
  {
    if i < h then None else LogOf(Divide(Some(f[i].close), Some(f[i - h].close)), m)
  }

  /** The shifted column ratio is that return at every row. */
  lemma LogReturnRows(f: Frame, h: nat, m: Maths, i: nat)
    requires i < |f|
    ensures LogReturn(f, h, m)[i] == ReturnOver(f, h, m, i)
  {
  }

  /** There is a return exactly where there is an earlier bar and the two closes have a positive ratio. */
  lemma ReturnKnownIff(f: Frame, h: nat, m: Maths, i: nat)
    requires i < |f|
    ensures LogReturn(f, h, m)[i].Some? <==> i >= h && f[i - h].close != 0.0 && f[i].close / f[i - h].close > 0.0
  {
    LogReturnRows(f, h, m, i);
  }

  lemma ReturnRatio(f: Frame, h: nat, m: Maths, i: nat) returns (q: real)
    requires h <= i < |f| && f[i].close > 0.0 && f[i - h].close > 0.0
    ensures ReturnOver(f, h, m, i) == Some(m.log(q)) && IsRatio(q, f[i].close, f[i - h].close)
  {
    q := f[i].close / f[i - h].close;
    Quotient(f[i].close, f[i - h].close);
    PositiveQuotient(f[i].close, f[i - h].close);
  }

  lemma LogOfChain(a: real, b: real, c: real, p: real, q: real, r: real, log: real -> real)
    requires c > 0.0 && IsRatio(p, a, b) && IsRatio(q, b, c) && IsRatio(r, a, c) && IsLogarithm(log)
    ensures log(r) == log(p) + log(q)
  {
    assert Prod(p, q) * c == p * (q * c);
    CancelFactor(r, Prod(p, q), c);
    assert log(Prod(p, q)) == log(p) + log(q);
  }

  /** Log returns compound: the return over h + k bars is the last h bars' plus that of the k bars before them. */
  lemma ReturnsCompound(f: Frame, h: nat, k: nat, m: Maths, i: nat) returns (last: real, earlier: real, whole: real)
    requires h + k <= i < |f| && IsLogarithm(m.log)
    requires f[i].close > 0.0 && f[i - h].close > 0.0 && f[i - h - k].close > 0.0
    ensures ReturnOver(f, h, m, i) == Some(last) && ReturnOver(f, k, m, i - h) == Some(earlier)
    ensures ReturnOver(f, h + k, m, i) == Some(whole) && whole == last + earlier
  {
    var p := ReturnRatio(f, h, m, i);
    var q := ReturnRatio(f, k, m, i - h);
    var r := ReturnRatio(f, h + k, m, i);
    last, earlier, whole := m.log(p), m.log(q), m.log(r);
    LogOfChain(f[i].close, f[i - h].close, f[i - h - k].close, p, q, r, m.log);
  }

  /** The true range spans the bar together with yesterday's close. */
  lemma TrueRangeSpans(f: Frame, i: nat)
    requires 0 < i < |f| && f[i].low <= f[i].high
    ensures TrueRange(f, i) == Max(f[i].high, f[i - 1].close) - Min(f[i].low, f[i - 1].close)
  {
  }

  // ---- the session VWAP ----

  lemma {:induction false} NothingEarlier(f: Frame, value: Bar -> real, day: int, n: nat)
    requires Sorted(f) && n <= |f| && (n > 0 ==> Day(f[n - 1].timestamp) < day)
    ensures DayTotal(f, value, day, n) == 0.0
  {
    if n > 0 {
      NothingEarlier(f, value, day, n - 1);
    }
  }

  /** In a sorted frame the running total restarts with the first bar of each day. */
  lemma DayTotalRestarts(f: Frame, value: Bar -> real, i: nat)
    requires Sorted(f) && i < |f|
    ensures DayTotal(f, value, Day(f[i].timestamp), i + 1) ==
      value(f[i]) + if i > 0 && Day(f[i - 1].timestamp) == Day(f[i].timestamp)
                    then DayTotal(f, value, Day(f[i - 1].timestamp), i) else 0.0
  {
    if i > 0 && Day(f[i - 1].timestamp) != Day(f[i].timestamp) {
      NothingEarlier(f, value, Day(f[i].timestamp), i);
    }
  }

  /** A total of value x over volume v, no price of which lies outside the range. */
  ghost predicate Between(x: real, v: real, low: real, high: real) {
    v >= 0.0 && Prod(low, v) <= x <= Prod(high, v)
  }

  lemma BetweenStep(x: real, v: real, low: real, high: real, price: real, volume: real)
    requires Between(x, v, low, high) && low <= price <= high && volume >= 0.0
    ensures Between(x + Prod(price, volume), v + volume, low, high)
  {
    ProductNonNegative(price - low, volume);
    ProductNonNegative(high - price, volume);
    assert low * (v + volume) == low * v + low * volume;
    assert high * (v + volume) == high * v + high * volume;
  }

  lemma {:induction false} TotalsWithin(f: Frame, day: int, n: nat, low: real, high: real)
    requires n <= |f|
    requires forall j :: 0 <= j < n && Day(f[j].timestamp) == day ==> f[j].volume >= 0 && low <= Typical(f[j]) <= high
    ensures Between(DayTotal(f, Value, day, n), DayTotal(f, Volume, day, n), low, high)
  {
    if n > 0 {
      TotalsWithin(f, day, n - 1, low, high);
      if Day(f[n - 1].timestamp) == day {
        var value, volume := DayTotal(f, Value, day, n - 1), DayTotal(f, Volume, day, n - 1);
        BetweenStep(value, volume, low, high, Typical(f[n - 1]), Volume(f[n - 1]));
      }
    }
  }

  lemma QuotientBetween(x: real, v: real, low: real, high: real)
    requires v > 0.0 && Between(x, v, low, high)
    ensures low <= x / v <= high
  {
    Quotient(x, v);
    FactorNonNegative(x / v - low, v);
    FactorNonNegative(high - x / v, v);
  }

  /** Money and shares traded in the first n bars of a day; a bar's money is its volume at its typical price. */
  ghost function Traded(f: Frame, day: int, n: nat): (r: (real, real))
    requires n <= |f|
  {
    if n == 0 then (0.0, 0.0)
    else
      var (money, shares) := Traded(f, day, n - 1);
      var b := f[n - 1];
      if Day(b.timestamp) != day then (money, shares)
      else (money + Prod((b.high + b.low + b.close) / 3.0, b.volume as real), shares + b.volume as real)
  }

  lemma {:induction false} TotalsAreTraded(f: Frame, day: int, n: nat)
    requires n <= |f|
    ensures Traded(f, day, n) == (DayTotal(f, Value, day, n), DayTotal(f, Volume, day, n))
  {
    if n > 0 {
      TotalsAreTraded(f, day, n - 1);
    }
  }

  /** The session VWAP times the shares traded so far that day is the money traded; there is none before any trade. */
  lemma VwapIs(f: Frame, i: nat)
    requires i < |f|
    ensures var (money, shares) := Traded(f, Day(f[i].timestamp), i + 1);
      && (VwapAt(f, i).None? <==> shares == 0.0)
      && (VwapAt(f, i).Some? ==> Prod(VwapAt(f, i).value, shares) == money)
  {
    var day := Day(f[i].timestamp);
    TotalsAreTraded(f, day, i + 1);
    if DayTotal(f, Volume, day, i + 1) != 0.0 {
      Quotient(DayTotal(f, Value, day, i + 1), DayTotal(f, Volume, day, i + 1));
    }
  }

  /** One plus the deviation is how many times the VWAP the close is. */
  lemma DeviationRows(f: Frame, i: nat)
    requires i < |f|
    ensures var vwap, v := VwapAt(f, i), VwapDeviation(f)[i];
      if vwap.None? || vwap.value == 0.0 then v == None
      else v.Some? && Prod(1.0 + v.value, vwap.value) == f[i].close
  {
    var vwap := VwapAt(f, i);
    if vwap.Some? && vwap.value != 0.0 {
      Quotient(f[i].close - vwap.value, vwap.value);
    }
  }

  /** A session's VWAP lies within any range that holds its typical prices so far. */
  lemma VwapWithinRange(f: Frame, i: nat, low: real, high: real)
    requires i < |f| && VwapAt(f, i).Some?
    requires forall j :: 0 <= j <= i && Day(f[j].timestamp) == Day(f[i].timestamp) ==>
      f[j].volume >= 0 && low <= Typical(f[j]) <= high
    ensures low <= VwapAt(f, i).value <= high
  {
    var day := Day(f[i].timestamp);
    TotalsWithin(f, day, i + 1, low, high);
    QuotientBetween(DayTotal(f, Value, day, i + 1), DayTotal(f, Volume, day, i + 1), low, high);
  }

  // ---- the frame ----

  ghost predicate AllPriced(f: Frame, lo: int, hi: int)
    requires 0 <= lo && hi < |f|
  {
    forall k :: lo <= k <= hi ==> f[k].high > 0.0 && f[k].low > 0.0
  }

  ghost predicate IsParkinson(f: Frame, m: Maths, window: nat, i: nat, v: real)
    requires 0 < window <= i + 1 <= |f|
  {
    && v >= 0.0
    && exists mean ::
      IsMeanOf(Window(SquaredLogRanges(f, m), window, i), mean) && Prod(v, v) == Prod(m.parkinsonFactor, mean)
  }

  /** What row i of the column of this name holds. */
  ghost predicate ColumnMeans(f: Frame, m: Maths, name: FeatureName, i: nat, v: Option<real>)
    requires i < |f| && SaneName(name)
  {
    match name
    case Ret(h) => v == ReturnOver(f, h, m, i)
    case Rvol(w) =>
      if i + 1 < w || !AllKnown(Window(LogReturn(f, 1, m), w, i)) then v == None
      else v.Some? && IsDeviation(Window(LogReturn(f, 1, m), w, i), v.value)
    case AverageRange(w) =>
      if i + 1 < w then v == None else v.Some? && IsMeanOf(Window(TrueRanges(f), w, i), v.value)
    case Parkinson(w) =>
      if i + 1 < w then v == None
      else AllPriced(f, i + 1 - w, i) ==> v.Some? && IsParkinson(f, m, w, i, v.value)
    case VwapDev =>
      var vwap := VwapAt(f, i);
      if vwap.None? || vwap.value == 0.0 then v == None else v.Some? && Prod(1.0 + v.value, vwap.value) == f[i].close
  }

  /** Every column of the frame holds what its name says. */
  lemma FrameMeans(f: Frame, c: Config, m: Maths, k: nat, i: nat)
    requires Sane(c) && k < |ColumnNames(c)| && i < |f| && IsRoot(m.sqrt) && m.parkinsonFactor > 0.0
    ensures ColumnMeans(f, m, ColumnNames(c)[k], i, Columns(f, c, m)[k][i])
  {
    match ColumnNames(c)[k]
    case Ret(h) => LogReturnRows(f, h, m, i);
    case Rvol(w) => VolatilityRows(f, w, m, i);
    case AverageRange(w) => AtrRows(f, w, i);
    case Parkinson(w) =>
      if i + 1 >= w && AllPriced(f, i + 1 - w, i) {
        var mean := ParkinsonRows(f, w, m, i);
      }
    case VwapDev => DeviationRows(f, i);
  }
}
