# Verified model of the quant research system

A Dafny model of the hand-written algorithms and stateful protocols of the repository, with proofs of what they
are for. `dafny verify dfyconfig.toml` checks the whole project. Floats are modelled as `real`; `log`, `sqrt`,
the hash, the random generator, the clock and the broker are parameters.

What the main theorems say, in the system's terms:

- **Calibration.** The knots `fit_isotonic` returns minimise weighted squared error over every non-decreasing function
  of the score, on the original unsorted points, and any other such function is worse by at least its weighted squared
  distance to the fit. Prediction is the straight line from knot to knot, flat outside them; it never reverses a
  ranking and stays in [0, 1].
- **ROC AUC.** The tie-averaged rank formula equals pair counting for every input with both classes.
- **Backfill.** Windowed fetching is invisible; over every sequence of runs with fetch failures, partial writes, lost
  saves and crashes no stored partition changes and the checkpoint file is never ahead of the archive; one clean run
  then leaves exactly the state of a single uninterrupted run. Over jobs of any ranges and intervals no partition
  changes and the checkpoint never moves back, and a job completes a symbol if and only if the archive admits every
  day it wants of it. A symbol is reported done exactly when nothing went wrong with it, and stays so.
- **Portfolio construction.** On uncorrelated names risk parity is inverse-variance weighting, whatever the leaf
  order. The bisection worklist conserves weight at every state and terminates; the final division is by 1; the book
  is long-only and within every cap if and only if the halves of every cluster that weight reaches have non-negative
  variances, or variances that add up to nothing positive, as holds for every positive semidefinite covariance.
- **ETF engines.** Between rebalances every leg moves exactly as its price does. On the equal-weight month-end
  schedule the two accounting loops draw the same curve if and only if the moves one of them skips as negligible would
  have cost the other nothing.
- **Labels.** The label frames are stated on the bars they are given: a row for exactly the events with what a label
  needs, each saying which later bar first reached which level. A short is a long on the reflected path; the two
  labelers agree on a long; the stop wins a bar that reaches both; a label that a horizontal barrier resolved depends
  on no bar after its exit.
- **Token bucket.** Every window of time lets through at most the burst plus the sustained rate plus 10^-9, and calls
  return after at most one sleep exactly when the burst is at least one token less 10^-9.
- **Fractional differencing.** The weight loop ends for every d >= 0; for d in [0, 1] the window is at most d /
  threshold bars and the kept weights sum to (1 - d)(1 - d/2) ... (1 - d/W).
- **Redis window.** After any writes a window is the newest `max_bars` timestamps of everything ever written, each
  with its last written row.
- **Audit log.** A run of appends and reopenings verifies if and only if no append went through a stale handle; the
  head hash of a verified log fixes the whole log.
- **Pooling clock.** Symbols never overlap on the synthetic clock; it hides no real overlap of one symbol's labels,
  whatever their ends, if and only if the events are spaced out.
- **Sequential bootstrap.** A draw in proportion to uniqueness expects more of it than a uniform draw, unless all
  candidates are equally unique.
- **CUSUM, uniqueness, corporate actions, registry, features.** See the table.

Where the code and what is said of it part, the model follows the code and the condition is proved exactly:

- A limiter whose default burst is its rate never grants a request when the rate is below one token per second
  (`RateLimit.SlowDefaultNeverGrants`); the constructor only checks that it is positive.
- The pooling clock is described as never leakier; for events closer than a day apart it can hide an overlap
  (`Pool.HourlyLeaks`, `Pool.NeverLeaksIff`).
- A label resolved by its vertical barrier at the last bar of the data, with its hold and its session still open,
  changes when bars are appended (`Labels.AppendedBarsIff`, `Labels.AppendedBarFlipsBet`).
- Not every later edit of an audit log shows in `verify`. Of a log's own entries exactly its prefixes verify, so a cut
  end passes (`Audit.SublogVerifiesIff`); and a log verifies if and only if it is what appending its payloads writes,
  so an edited history with its hashes recomputed passes too (`Audit.VerifiesIffRechained`,
  `Audit.RehashedHistoryPasses`). Both change the head hash of a collision-free hash (`Audit.TamperingShows`).
- Two audit handles open at once that both append break the chain (`Audit.TwoWritersBreak`).
- Risk parity is said to use the covariance's diagonal alone and to be long-only; its cluster variance is of the whole
  block, and where it is negative a weight can be, whatever the clustering (`Hrp.WeightsCanBeNegative`).
- The drawdown of a path that stays below zero is 0 however far it falls (`Benchmark.NoDrawdownIff`,
  `Benchmark.FallBelowZeroUnseen`).
- The listed feature names repeat a horizon listed twice, where the frame has one column for it
  (`Features.NamesInStepIff`).
- The file registry accepts other spellings of an issued version, such as `m-1` (`Registry.GetsDifferIff`), and on a
  suffix of superscript digits fails with the conversion's error instead of its own
  (`Registry.SuperscriptIsNoNumber`).
- The benchmark pays sell charges on moves of zero, which the backtest skips (`Engines.OneLegDisagrees`), and gives
  one point for no dates where the backtest gives none.
- A backfill whose range ends on or before an already completed day is skipped whole, even for bars the completed job
  did not ask for (`Backfill.CompletedDaySkipped`, `Ranges.SecondBarSkipped`). After a job that ended mid-day, a job
  extending its range past that day is refused by the write-once archive on every retry
  (`Ranges.MidDayEndBlocksExtension`, exactly: `Ranges.LaterRangeCompletesIff`).
- The checkpoint tells the intervals of a symbol apart and the archive does not, so backfills of two intervals into
  one archive conflict on every day both have with different bars (`Ranges.IntervalsConflictIff`).
- With a per-bar CUSUM threshold a down event can be masked by an up event (`Cusum.MaskingIffDrop`).
- A split ex-date given twice is applied twice (`Splits.ContinuousIffOnce`).
- `time_decay_weights` accepts -1 and then divides by zero, and its oldest factor lies above the last weight it is
  said to reach unless nothing decays (`Bootstrap.OldestFactor`).
- At threshold above 1, order 1 of fractional differencing is the identity (`FracDiff.OrderOneIsDifference`).
## Model

| member | source | states |
|---|---|---|
| Pava.PoolAdjacentViolators | src/quant/research/models/calibration.py:122-155 | the sweep returns a non-decreasing fit within the values' range that no non-decreasing sequence beats: any other is worse by at least its weighted squared distance to it |
| Pava.Cascade | src/quant/research/models/calibration.py:135-148 | one point pushed and pooled left keeps every block pooled (no prefix of it averages below its mean) and the block means strictly rising |
| Pava.WriteBlocks | src/quant/research/models/calibration.py:150-155 | the blocks expand to one value per point, in order |
| Pava.PoolingKeepsPooled | src/quant/research/models/calibration.py:138-145 | merging two pooled blocks at their joint mean, zero weights included, gives a pooled block |
| Pava.BlockNotWorse | src/quant/research/models/calibration.py:125-131 | over a pooled block no rising sequence gains on the block's mean |
| Pava.StackIsOptimal | src/quant/research/models/calibration.py:122-131 | a stack of pooled blocks with rising means is the weighted least-squares optimum |
| Calibration.UniqueSorted | src/quant/research/models/calibration.py:110-111 | the distinct scores ascend strictly, each is a score, and every point is assigned its own |
| Calibration.AddAt | src/quant/research/models/calibration.py:112-115 | unbuffered addition gives each group the total of its points |
| Calibration.AggregateByScore | src/quant/research/models/calibration.py:104-119 | one point per distinct score with its total weight and weighted mean label; a group of no weight is harmless |
| Calibration.GapsOnKnots | src/quant/research/models/calibration.py:75-79 | for functions of the score, the excess error over the points equals that over the aggregated knots |
| Calibration.GapsInSortedOrder | src/quant/research/models/calibration.py:77-78 | sorting the points does not change the excess error |
| Calibration.FitIsotonic | src/quant/research/models/calibration.py:50-80 | fails exactly on mismatched, too few, non-binary or negatively weighted input; otherwise the knots are the distinct scores and the prediction is the best monotone one on the original points |
| Calibration.BestIsUnique | src/quant/research/models/calibration.py:75-80 | a monotone prediction with no more error agrees with the fit at every point of positive weight |
| Calibration.PredictMonotone | src/quant/research/models/calibration.py:39-47 | prediction preserves order and lies in [0, 1] |
| Calibration.PredictAtKnot | src/quant/research/models/calibration.py:39-47 | at a knot neither interpolation nor clipping moves the level |
| Calibration.PredictOnLine | src/quant/research/models/calibration.py:39-47 | from one knot to the next the prediction is the straight line through both |
| Calibration.PredictIsFlatOutside | src/quant/research/models/calibration.py:42-43 | left of the first knot and right of the last it is that knot's level |
| Calibration.ValidateFit | src/quant/research/models/calibration.py:83-101 | each input error exactly on its own kind of malformed input, in the order of the checks |
| Scoring.AverageRanks | src/quant/research/models/scoring.py:123-137 | the tie-block loop gives each value one half plus the number of values it beats, ties counting one half |
| Scoring.TieBlockRank | src/quant/research/models/scoring.py:131-136 | the mean position of a tie block in sorted order is that rank |
| Scoring.RankSumIdentity | src/quant/research/models/scoring.py:107-108 | rank sum of the positives = n_pos (n_pos + 1) / 2 + pairs they win |
| Scoring.RocAuc | src/quant/research/models/scoring.py:101-120 | equals won pairs plus half the tied ones over all positive-negative pairs; fails exactly on malformed or single-class input |
| Scoring.Validate | src/quant/research/models/scoring.py:32-50 | each input error exactly on its own kind of malformed input, in the order of the checks |
| Scoring.AucWithinUnit | src/quant/research/models/scoring.py:101-120 | the score lies in [0, 1] |
| Scoring.FlippingLabels | src/quant/research/models/scoring.py:101-120 | flipping every label gives one minus the score |
| Scoring.AucDependsOnRankingOnly | src/quant/research/models/scoring.py:105-109 | an order-preserving change of the scores leaves it unchanged |
| Ordering.SortedIndicesStable | src/quant/research/models/scoring.py:126 | the sort is ascending with ties in input order |
| Ordering.SumInSortedOrder | src/quant/research/models/calibration.py:77-78 | a total taken in sorted order is the original total |
| Bars.SortBarsKeepsRows | src/quant/data/store/serde.py:63-65 | sorting keeps, for every timestamp, exactly its rows in their order |
| Bars.SortBarsSorted | src/quant/data/store/serde.py:63-65 | the sorted frame ascends |
| Bars.SortCanonical | src/quant/data/store/serde.py:96-103 | frames with the same rows at every timestamp sort to the same frame, so they compare equal |
| Bars.KeepRows | src/quant/data/store/serde.py:68-78 | restriction keeps a timestamp's rows exactly when it lies in the inclusive range |
| Chunks.IterChunks | src/quant/data/ingest/backfill.py:66-96 | the windows tile the range end to end, cut at midnights, each but the last of exactly chunk_days days; none for an empty range |
| Chunks.EveryInstantOnce | src/quant/data/ingest/backfill.py:71-74 | an instant lies in a window exactly when it lies in the range, and then in only one |
| Chunks.NoDaySplit | src/quant/data/ingest/backfill.py:72-74 | two instants of one day in the range share their window |
| Chunks.WindowStarts | src/quant/data/ingest/backfill.py:88-96 | window i starts on the day i * chunk_days after the first |
| Archive.ParquetArchive.WritePartition | src/quant/data/store/parquet.py:73-99 | an absent partition is created, an equal one accepted unchanged, a different one refused |
| Archive.ParquetArchive.WriteBars | src/quant/data/store/parquet.py:53-71 | the days are written in order up to a refusal or a fault, which leaves the earlier ones written |
| Archive.WritesNeverChangeHistory | src/quant/data/store/parquet.py:77-89 | whatever is written and wherever it stops, every stored partition stays as it was |
| Archive.WriteSucceedsIff | src/quant/data/store/parquet.py:70-71 | a write succeeds exactly when every day it touches is absent or already equal |
| Archive.RewriteIsNoOp | src/quant/data/store/parquet.py:56 | writing the same frame again succeeds and changes nothing |
| Archive.FirstWriteStores | src/quant/data/store/parquet.py:70-71 | the first write of a symbol stores exactly its frame |
| Archive.ReadBack | src/quant/data/store/parquet.py:108-123 | reading a range returns exactly the stored frame's rows in it, in time order; none for a reversed range |
| Backfill.PaginationInvisible | src/quant/data/ingest/backfill.py:325-330 | fetching window by window accumulates the same frame as one fetch of the range |
| Backfill.JsonBackfillCheckpoint.MarkCompleted | src/quant/data/ingest/backfill.py:143-164 | the symbol's entry at its interval changes in memory first; the file is replaced whole or not at all |
| Backfill.JsonBackfillCheckpoint.Load | src/quant/data/ingest/backfill.py:121-141 | a new process resumes from the file |
| Backfill.BackfillJob.DoSymbol | src/quant/data/ingest/backfill.py:303-349 | skip if complete, else fetch, write, then checkpoint, with each fault leaving what the step before it left |
| Backfill.BackfillJob.DoTurn | src/quant/data/ingest/backfill.py:285-301 | a symbol's failure is contained; a crash loses the memory and keeps the disk |
| Backfill.BackfillJob.Run | src/quant/data/ingest/backfill.py:240-283 | refuses a reversed range untouched; otherwise runs the symbols in order and reports each outcome |
| Backfill.TurnOutcome | src/quant/data/ingest/backfill.py:285-349 | a symbol is skipped if and only if complete, else done if and only if no fault strikes and the archive refuses no wanted day; a refused write, a failed fetch, an interrupted write and a lost save are failures |
| Backfill.ReportMeans | src/quant/data/ingest/backfill.py:264-283 | the report has one outcome per symbol, up to a crash if there is one, each exactly that of the state its turn met |
| Backfill.TurnSound | src/quant/data/ingest/backfill.py:303-332 | every turn, faulty or not, keeps each stored partition the wanted one and the checkpoint behind the archive |
| Backfill.AllRunsSound | src/quant/data/ingest/backfill.py:240-283 | over every sequence of runs of one job, crashes and failures, no partition changes, none is lost, and the checkpoint file neither moves back nor runs ahead |
| Backfill.CleanRunCompletes | src/quant/data/ingest/backfill.py:303-332 | a run without faults completes every symbol, whatever state it starts from |
| Backfill.RecoveryIsExact | src/quant/data/ingest/backfill.py:202-209 | after any interrupted runs, one clean run leaves the same archive and checkpoint as a single uninterrupted one |
| Backfill.UninterruptedRun | src/quant/data/ingest/backfill.py:321-332 | that state holds each symbol's whole frame and its end day |
| Backfill.CompletedDaySkipped | src/quant/data/ingest/backfill.py:305-308 | from any state whose checkpoint covers the end day a symbol is skipped on every turn, and what the job wants of it is stored exactly if what is stored already covers it |
| Ranges.CampaignsGrow | src/quant/data/ingest/backfill.py:240-283 | over every sequence of jobs of any ranges and intervals, each run any number of times with crashes and failures, no partition changes or is lost and the checkpoint file never moves back |
| Ranges.ReportedDoneLasts | src/quant/data/ingest/backfill.py:321-332 | a symbol a run reported done is stored whole and complete in the file at its end, whatever else went wrong in it |
| Ranges.CheckpointCovers | src/quant/data/ingest/backfill.py:305-308 | a completed day is not before the day of any bar it stands for |
| Ranges.BlockedForever | src/quant/data/store/parquet.py:77-89 | a day stored with other rows than a job wants keeps that job from ever completing the symbol, over every sequence of its runs |
| Ranges.CompletesIffAdmitted | src/quant/data/ingest/backfill.py:303-332 | from any state a symbol that is not complete becomes so in the next clean run if and only if the archive admits every day the job wants of it; otherwise no runs ever complete it |
| Ranges.CompletedStores | src/quant/data/ingest/backfill.py:303-332 | any interrupted runs of a job and one clean one leave each symbol's whole frame stored and only the job's own checkpoint entries |
| Ranges.LaterRangeCompletesIff | src/quant/data/ingest/backfill.py:303-332 | where the archive holds what a job wanted of a symbol, a job not complete there becomes so if and only if both want the same bars of every day both want; otherwise no retries ever complete it |
| Ranges.IntervalsConflictIff | src/quant/data/ingest/backfill.py:143-146 | after a completed job, a job of another interval is never skipped and completes a symbol if and only if the days both have hold the same bars |
| Ranges.MidDayEndBlocksExtension | src/quant/data/ingest/backfill.py:303-332 | where the stored range ended mid-day, every job that extends it past that day and is not complete is blocked |
| Ranges.SkippedBarIsMissing | src/quant/data/ingest/backfill.py:305-308 | what a skipped job wanted past the end of the stored range is in no partition |
| Ranges.SecondBarSkipped | src/quant/data/ingest/backfill.py:305-308 | for one, a job extended within its last day reports a skip and never stores the later bar |
| Bisection.SharesConserve | src/quant/capital/portfolio/construction.py:69-86 | bisection splits a cluster's share among its positions without loss, for any fractions |
| Bisection.SharesNonNegative | src/quant/capital/portfolio/construction.py:81-85 | fractions in [0, 1] give non-negative weights |
| Bisection.SharesByMass | src/quant/capital/portfolio/construction.py:69-87 | cut by a measure all the way down, every position gets its share in proportion to its own measure |
| Bisection.LongOnlyIff | src/quant/capital/portfolio/construction.py:81-85 | no position of a positive share goes negative if and only if every cut that a positive share reaches lies in [0, 1] |
| Bisection.SplitKeepsBalance | src/quant/capital/portfolio/construction.py:76-86 | splitting a live cluster keeps every live cluster uniform and every settled position final |
| Bisection.DropKeepsBalance | src/quant/capital/portfolio/construction.py:74-75 | a one-leaf cluster is finished: its weight is final |
| Bisection.HalvesAreEven | src/quant/capital/portfolio/construction.py:76-77 | a cluster is cut in the middle, the right half taking the odd leaf |
| Bisection.WorklistConserves | src/quant/capital/portfolio/construction.py:69-87 | settled weights plus one weight per live cluster make one at every state |
| Bisection.WorkSplit | src/quant/capital/portfolio/construction.py:71-87 | each split lowers the work measure by one, so the loop ends |
| Hrp.ScaleHalves | src/quant/capital/portfolio/construction.py:82-85 | the left half is multiplied by the fraction, the right by its complement, the rest untouched |
| Hrp.SplitLevel | src/quant/capital/portfolio/construction.py:71-87 | one level of the worklist keeps the balance and lowers the work |
| Hrp.HrpWeights | src/quant/capital/portfolio/construction.py:50-88 | each name gets its leaf share of the bisection tree; the weights sum to 1 before the division; it fails exactly on rows and columns of different names, or of none |
| Hrp.PortfolioEqualisesVariance | src/quant/capital/portfolio/construction.py:168-174 | a cluster's portfolio is positive, sums to 1, and gives every name the same weight times own variance |
| Hrp.ClusterVarianceIs | src/quant/capital/portfolio/construction.py:174 | a cluster's variance is the double sum x(a) cov(a, b) x(b) over that portfolio x |
| Hrp.SplitEqualisesVariance | src/quant/capital/portfolio/construction.py:78-81 | the halves' shares times their variances are equal, or the shares are where the variances add up to nothing positive |
| Hrp.DiagonalCluster | src/quant/capital/portfolio/construction.py:168-174 | a cluster of uncorrelated names has the reciprocal of its total precision for variance |
| Hrp.DiagonalIsInverseVariance | src/quant/capital/portfolio/construction.py:50-88 | on uncorrelated names, whatever the leaf order, risk parity is inverse-variance weighting of all of them |
| Hrp.WeightsNonNegativeIff | src/quant/capital/portfolio/construction.py:78-85 | no weight is negative if and only if every cluster that weight reaches has halves of non-negative variance, or halves whose variances add up to nothing positive |
| Hrp.WeightsNonNegative | src/quant/capital/portfolio/construction.py:78-81 | a covariance without a cluster of negative variance, as every positive semidefinite one, gives non-negative weights |
| Hrp.IndefiniteCanBeLongOnly | src/quant/capital/portfolio/construction.py:78-81 | an indefinite covariance can still give non-negative weights |
| Hrp.WeightsCanBeNegative | src/quant/capital/portfolio/construction.py:67-77 | a covariance of three names that gives a weight of -1 whatever leaf order the clustering finds |
| Hrp.SumOverPermutation | src/quant/capital/portfolio/construction.py:67-68 | summing by name or by leaf order is the same |
| Book.SelectionDistinct | src/quant/capital/portfolio/construction.py:31-33 | no name is selected twice, and only scored ones are |
| Book.QuantileSize | src/quant/capital/portfolio/construction.py:32 | the selection holds the asked fraction of the scored names to the nearest whole name, at least one, the even one of two equally near |
| Book.SelectionBeats | src/quant/capital/portfolio/construction.py:31-33 | a scored name left out does not beat any selected one |
| Book.InverseVolProperties | src/quant/capital/portfolio/construction.py:36-47 | weights are non-negative, sum to 1, and weight times volatility is the same for every name that has one |
| Book.SectorTotalCapped | src/quant/capital/portfolio/construction.py:107-111 | a sector's new total is its clipped total or the cap, whichever is smaller |
| Book.CapsHold | src/quant/capital/portfolio/construction.py:107-111 | no name exceeds its cap, and in a long-only book nothing grows |
| Book.SlackCapsAreIdentity | src/quant/capital/portfolio/construction.py:107-111 | when no cap binds the weights are unchanged |
| Book.RawWeights | src/quant/capital/portfolio/construction.py:143-153 | the chosen method's own weights, summing to 1, and non-negative exactly when the clusters weight reaches are sound (inverse volatility: always); fails exactly when that method has none |
| Book.CapAndPlace | src/quant/capital/portfolio/construction.py:155-156 | fails exactly on a cap out of range or a missing sector; otherwise the capped weights at their places, a valid book exactly when the raw weights are non-negative |
| Book.CappedBookValid | src/quant/capital/portfolio/construction.py:107-111 | the caps keep every sign: a capped book is long-only and within every cap if and only if the raw weights are non-negative |
| Book.SemidefiniteIsLongOnly | src/quant/capital/portfolio/construction.py:151 | a positive semidefinite covariance always gives a long-only book |
| Book.ConstructBook | src/quant/capital/portfolio/construction.py:114-156 | the capped raw weights of the selected names; long-only, within every name and sector cap, zero elsewhere and at most 1 in all exactly when the weighting is long-only; with its exact failures |
| Book.SubMatrixSemidefinite | src/quant/capital/portfolio/construction.py:151 | the covariance of a selection of names stays positive semidefinite |
| Costs.TotalIsAffine | src/quant/research/etf/costs.py:103-137 | the itemised cost is a flat part plus a rate times the value |
| Costs.RoundTripRegressive | src/quant/research/etf/costs.py:139-158 | a smaller ticket never pays fewer basis points |
| Engines.MonthEndIndices | src/quant/research/etf/benchmark.py:63-73 | exactly the last session of each run of one calendar month, ascending |
| Engines.MonthEndIsLast | src/quant/research/etf/benchmark.py:67-78 | on ascending dates a month end is a session after which no other of its month comes |
| Engines.BenchmarkFollowsPrices | src/quant/research/etf/benchmark.py:124-128 | between month ends a leg of the benchmark moves exactly as its price does |
| Engines.BacktestFollowsPrices | src/quant/research/etf/rotation.py:308-312 | between scheduled sessions a leg of the backtest moves exactly as its price does |
| Engines.PaidOrFree | src/quant/research/etf/rotation.py:316-321 | a move of less than a billionth is free, any other is bought or sold at its full cost |
| Engines.UnscalableTargets | src/quant/research/etf/rotation.py:323-324 | targets that add up to nothing are held as they are |
| Engines.EwRebalanceConserves | src/quant/research/etf/benchmark.py:130-138 | a rebalance lowers the value by exactly the traded costs and leaves equal legs that add up to it |
| Engines.BtRebalanceConserves | src/quant/research/etf/rotation.py:314-325 | a rebalance to any weights lowers the value by exactly the paid costs and leaves legs at their exact fractions of what is left |
| Engines.BtHoldingsAddUp | src/quant/research/etf/rotation.py:308-325 | after every session the legs add up to the portfolio, or nothing is invested |
| Engines.EwPositive | src/quant/research/etf/benchmark.py:124-139 | while solvent the legs stay positive and add up to the portfolio |
| Engines.RebalancesCompare | src/quant/research/etf/rotation.py:316-323 | from one holding the backtest keeps exactly the skipped costs more |
| Engines.EnginesAgreeIff | src/quant/research/etf/rotation.py:302-326 | on the equal-weight month-end schedule the two curves are equal if and only if the skipped moves cost nothing |
| Engines.EnginesAgreeOnRealMoves | src/quant/research/etf/rotation.py:318-320 | they are equal when no move is within the tolerance of zero |
| Engines.OneLegDisagrees | src/quant/research/etf/benchmark.py:133-136 | a one-leg basket parts the curves when selling has a flat charge |
| Benchmark.EqualWeightRebalanced | src/quant/research/etf/benchmark.py:85-140 | the equity curve session by session, with the errors for no legs, misaligned series, and a session that divides by a zero price or portfolio |
| Benchmark.SolventIsClean | src/quant/research/etf/benchmark.py:126-137 | a benchmark with positive prices that stays worth something never divides by zero |
| Benchmark.Rebalance | src/quant/research/etf/benchmark.py:130-138 | the in-place trade loop computes the rebalance |
| Benchmark.MaxDrawdown | src/quant/research/etf/benchmark.py:49-56 | the worst change from the running peak, or 0 when none is below it; fails exactly on no points or a running peak of zero |
| Benchmark.DrawdownOverPairs | src/quant/research/etf/benchmark.py:49-56 | on an equity path it is the worst change over every pair of bars, attained, in [-1, 0], -1 exactly when the path reaches zero and 0 exactly when it never falls |
| Benchmark.NoDrawdownIff | src/quant/research/etf/benchmark.py:49-56 | on any path it is 0 exactly where no bar is below its peak or the peak is itself negative |
| Benchmark.FallBelowZeroUnseen | src/quant/research/etf/benchmark.py:49-56 | for one, it is 0 on the path -1, -2 |
| Rotation.BacktestWeights | src/quant/research/etf/rotation.py:282-326 | the equity curve of any schedule, flat at the capital before its first session; fails exactly when a held leg grows from a zero price |
| Rotation.Rebalance | src/quant/research/etf/rotation.py:314-325 | the cost loop skips negligible moves and scales the targets to what is left |
| Rotation.IdleBeforeFirst | src/quant/research/etf/rotation.py:303-306 | before the first scheduled session nothing is held and nothing changes |
| Barriers.FirstTouch | src/quant/research/labeling/barriers.py:25-51 | the earliest bar after the event to reach a barrier with the stop side winning a bar that reaches both, else the vertical; it is the recursive scan the labels are read from |
| Barriers.FirstTouchUnique | src/quant/research/labeling/barriers.py:38-42 | there is one such answer |
| Barriers.SessionLastPosition | src/quant/research/labeling/barriers.py:62-72 | the backward fill gives each bar the last bar of its own session |
| Barriers.VerticalAnchorPositions | src/quant/research/labeling/barriers.py:75-102 | session ends when intraday, the last bar for delivery, an error otherwise |
| Barriers.EventPositions | src/quant/research/labeling/barriers.py:105-112 | the events' bars ascending without repeats, or an error when one is no bar |
| Labels.BetMeaning | src/quant/research/labeling/meta.py:197-231 | the exit is the first bar to reach either barrier, within the session and the hold cap; a stop exactly when the stop is reached there, a profit exactly when only the other is; with the bet and the side return of each case, and a division by zero only at a vertical exit from a zero close |
| Labels.LabeledIff | src/quant/research/labeling/meta.py:193-204 | an event is labelled exactly when there is a side, a volatility and a later bar to hold to |
| Labels.SoundBarsNeverDivideByZero | src/quant/research/labeling/meta.py:224-226 | bars whose low is not above their high never lead to a division by a zero close |
| Labels.TripleMeaning | src/quant/research/labeling/triple_barrier.py:162-187 | the exit is the first bar to reach either barrier, within the session and the hold cap; the lower barrier exactly when it is reached there, the upper exactly when only it is, else the sign of the vertical return; with the return and target of each case |
| Labels.ShortIsMirroredLong | src/quant/research/labeling/meta.py:209-231 | a short equals the long on the path reflected about the reference close: same exit, label, barrier and side return |
| Labels.LabelersAgreeOnLong | src/quant/research/labeling/triple_barrier.py:162-187 | on a long both labelers give the same exit, return and barrier, and the bet wins exactly when the label is positive |
| Labels.IntradayExitStaysInSession | src/quant/research/labeling/barriers.py:62-72 | in the intraday mode the exit is a later bar of the event's own session |
| Labels.BetIsCausalIff | src/quant/research/labeling/barriers.py:42-59 | on any other path that agrees through the exit the bet is the same if and only if a horizontal barrier resolved it or its hold, its session or that path ends at the exit |
| Labels.PrimaryIsCausalIff | src/quant/research/labeling/barriers.py:42-59 | the same of the primary label |
| Labels.AppendedBarsIff | src/quant/research/labeling/barriers.py:54-102 | appended bars leave a bet alone unless it was resolved at the last bar by a vertical barrier that the new bars move |
| Labels.AppendedBarFlipsBet | src/quant/research/labeling/barriers.py:54-102 | one more bar turns a won bet into a lost one |
| Labels.LabelIsCausal | src/quant/research/labeling/barriers.py:42-51 | on one timeline, whatever the later prices, a bet depends on no bar after its exit |
| LabelFrames.CollectRows | src/quant/research/labeling/meta.py:159-170 | the rows are the labels of the events that have one, in order, at strictly ascending times; the rest are counted; a division by zero at any event fails the call |
| LabelFrames.AnchorsUnique | src/quant/research/labeling/barriers.py:75-102 | each bar has one anchor, so the label frames are determined |
| LabelFrames.LabelMeta | src/quant/research/labeling/meta.py:119-178 | empty input gives an empty frame; otherwise it fails exactly on repeated timestamps, an unknown event, an unknown mode or a division by a zero close; a row for exactly the events with a side, a volatility and a bar to hold to, each what its bars say, at strictly ascending times, the rest counted |
| LabelFrames.BetRowMeans | src/quant/research/labeling/meta.py:197-231 | read on the bars: the first later bar whose high or low reaches the profit or stop level spelled out from the event's close, the stop winning, or the last bar it may be held at, with the bet and return of each case |
| LabelFrames.LabelTriple | src/quant/research/labeling/triple_barrier.py:93-146 | the same errors; otherwise a row for exactly the events with a volatility and a bar to hold to, each what its bars say, at strictly ascending times, the rest counted |
| LabelFrames.PrimaryRowMeans | src/quant/research/labeling/triple_barrier.py:162-187 | read on the bars: the first later bar whose high reaches the upper or whose low reaches the lower level, the lower winning, or the last held bar, with outcome 1, -1 or the sign of the return |
| RateLimit.TokenBucketRateLimiter.constructor | src/quant/data/brokers/rate_limit.py:66-74 | the bucket starts full |
| RateLimit.TokenBucketRateLimiter.TryAcquire | src/quant/data/brokers/rate_limit.py:79-91 | one turn refills to the reading, then takes a token or asks for a positive sleep |
| RateLimit.TokenBucketRateLimiter.Acquire | src/quant/data/brokers/rate_limit.py:76-91 | returns at the first reading with enough tokens, one sleep per earlier one |
| RateLimit.Configure | src/quant/data/brokers/rate_limit.py:62-69 | fails exactly on a rate or a capacity that is not positive; the default capacity is the rate |
| RateLimit.WaitRefills | src/quant/data/brokers/rate_limit.py:87-91 | the sleep is exactly what refills the balance to one token |
| RateLimit.BalanceBounds | src/quant/data/brokers/rate_limit.py:83-85 | the balance stays within the burst and never owes more than the tolerance |
| RateLimit.TurnKeepsBudget | src/quant/data/brokers/rate_limit.py:79-86 | one turn keeps a window's grants plus balance within burst plus rate times elapsed time |
| RateLimit.ThroughputBound | src/quant/data/brokers/rate_limit.py:36-43 | in every run, every window [s, t] holds at most capacity + rate (t - s) + 10^-9 grants |
| RateLimit.CallsReturnIff | src/quant/data/brokers/rate_limit.py:19-24 | every call returns after at most one sleep, even one short by the tolerance, if and only if capacity is at least 1 - 10^-9; otherwise none returns |
| RateLimit.SlowDefaultNeverGrants | src/quant/data/brokers/rate_limit.py:64-69 | with the default capacity a rate below that never grants |
| FracDiff.FracDiffWeights | src/quant/research/features_research/frac_diff.py:46-70 | ends for every d >= 0 and positive threshold with the weights before the first one under it; fails exactly otherwise |
| FracDiff.MassBounded | src/quant/research/features_research/frac_diff.py:64-69 | k times the k-th weight's size stops growing once k reaches d + 1 |
| FracDiff.BelowThreshold | src/quant/research/features_research/frac_diff.py:64-67 | past a computed horizon every weight is under the threshold |
| FracDiff.WeightDecay | src/quant/research/features_research/frac_diff.py:52-54 | for d in [0, 1] the k-th weight is at most d / k |
| FracDiff.WindowWidth | src/quant/research/features_research/frac_diff.py:52-54 | so the window is at most d / threshold bars |
| FracDiff.KeptWeightsSum | src/quant/research/features_research/frac_diff.py:52-54 | the kept weights sum to the product of (1 - d/j) for j = 1 .. W |
| FracDiff.EndOrders | src/quant/research/features_research/frac_diff.py:53-54 | order 0 keeps [1]; order 1 keeps [1, -1] exactly when the threshold is at most 1 |
| FracDiff.ConvolutionIsTrailing | src/quant/research/features_research/frac_diff.py:97-99 | on full windows the convolution slice is the direct causal sum |
| FracDiff.FracDiff | src/quant/research/features_research/frac_diff.py:73-100 | none during the warm-up, then the direct causal sum, with the errors of the weights |
| FracDiff.WindowUnique | src/quant/research/features_research/frac_diff.py:64-70 | there is one such weight window |
| FracDiff.FilterIsCausal | src/quant/research/features_research/frac_diff.py:78-79 | a value depends on no later bar |
| FracDiff.OrderZeroIsIdentity | src/quant/research/features_research/frac_diff.py:53 | order 0 is the identity |
| FracDiff.OrderOneIsDifference | src/quant/research/features_research/frac_diff.py:53-54 | order 1 is the first difference, or the identity when the threshold exceeds 1 |
| FracDiff.ConstantSeries | src/quant/research/features_research/frac_diff.py:97-99 | a constant series comes out scaled by the weights' sum |
| LiveStore.RedisLiveStore.WriteBars | src/quant/data/store/redis_store.py:84-108 | every window stays the newest part of everything written for its symbol; other symbols are untouched |
| LiveStore.RedisLiveStore.ReadBars | src/quant/data/store/redis_store.py:118-120 | exactly the window's rows in the range, ascending |
| LiveStore.MergeIsNewest | src/quant/data/store/redis_store.py:110-116 | merging into the newest part of a history gives the newest part of the longer history |
| LiveStore.WindowMeaning | src/quant/data/store/redis_store.py:110-116 | each window row is the last one written for its time, and a time left out is older than a full window |
| LiveStore.OnlyLastRowsMatter | src/quant/data/store/redis_store.py:110-116 | batching and the order of writes to different times do not matter |
| LiveStore.RewriteIsNoOp | src/quant/data/store/redis_store.py:87-88 | re-writing stored bars leaves the window unchanged |
| Audit.FileAuditLog.constructor | src/quant/core/audit.py:117-126 | opening resumes from the last entry in the file |
| Audit.FileAuditLog.Append | src/quant/core/audit.py:128-153 | appends one linked entry; the log still verifies exactly when it did and this handle was at its end |
| Audit.FileAuditLog.Verify | src/quant/core/audit.py:175-194 | true exactly when every entry is in order, linked and carries its own hash |
| Audit.AppendLinks | src/quant/core/audit.py:135-152 | a log plus an entry made at a cursor is a chain exactly when the log was and the cursor is its end |
| Audit.FirstEntry | src/quant/core/audit.py:135-152 | a verified log starts at number 1 from sixty-four zeros |
| Audit.VerifiedIff | src/quant/core/audit.py:98-103 | over every run of openings and appends the log verifies if and only if no append went through a stale handle |
| Audit.OneWriterVerifies | src/quant/core/audit.py:101-103 | every interleaving of appends and reopenings by one writer at a time verifies |
| Audit.TwoWritersBreak | src/quant/core/audit.py:135-152 | after any run, appending through one open handle and then another breaks the chain |
| Audit.HeadDeterminesLog | src/quant/core/audit.py:175-194 | under a collision-free hash two verified logs with the same head hash are identical |
| Audit.TamperingShows | src/quant/core/audit.py:1-7 | any edit, insertion, deletion or reordering fails verification or changes the head hash |
| Audit.SublogVerifiesIff | src/quant/core/audit.py:175-194 | of the logs made of a verified log's own entries exactly its prefixes verify: deletions, reorderings and repeats show, a cut end does not |
| Audit.VerifiesIffRechained | src/quant/core/audit.py:175-194 | a log verifies if and only if it is what appending its own payloads writes |
| Audit.RehashedHistoryPasses | src/quant/core/audit.py:175-194 | any history written with its hashes recomputed verifies |
| Audit.RehashedLastEntryPasses | src/quant/core/audit.py:175-194 | so does a log whose last entry was replaced and rehashed |
| Pool.PoolRows | scripts/run_complete_pipeline.py:462-543 | the usable events of every symbol with their rows, in name order, placed symbol by symbol; an error exactly when no event is usable |
| Pool.SortedByName | scripts/run_complete_pipeline.py:491 | the symbols come in name order, rows of one name in theirs |
| Pool.PoolingSeparates | scripts/run_complete_pipeline.py:486-522 | synthetic starts strictly ascend, and a label of an earlier symbol ends a whole gap before a later symbol starts |
| Pool.PlacedAt | scripts/run_complete_pipeline.py:511-515 | label i of a symbol starts i synthetic seconds after its first and lasts its whole real days, at least one |
| Pool.ClockIs | scripts/run_complete_pipeline.py:486-520 | the gap is twenty seconds, the clock starts with 2020, and a hold is the most whole days that fit, at least one |
| Pool.UsableIff | scripts/run_complete_pipeline.py:505 | an event is pooled exactly when nothing of it is missing |
| Pool.ValidInOrder | scripts/run_complete_pipeline.py:505-506 | the usable events stay in their order |
| Pool.NeverLeaksIff | scripts/run_complete_pipeline.py:470-479 | whatever the label ends, every real overlap of one symbol is one on the synthetic clock if and only if j - i events always span at least as many hold days |
| Pool.DailyNeverLeaks | scripts/run_complete_pipeline.py:477-479 | events a day or more apart are never leakier |
| Pool.HourlyLeaks | scripts/run_complete_pipeline.py:477-479 | events an hour apart can be |
| Cusum.CusumEvents | src/quant/research/labeling/cusum.py:29-99 | the pass returns exactly the times of the event bars, ascending; fails exactly on an unsorted or repeated index, a non-positive price, or a misaligned or non-positive threshold, scalar or per bar |
| Cusum.UpIsRise | src/quant/research/labeling/cusum.py:61-64 | the up accumulator is the rise since the lowest log price after its own last reset |
| Cusum.DownIsFall | src/quant/research/labeling/cusum.py:62-68 | the down accumulator is the fall since the highest log price after its own last reset |
| Cusum.MaskingIffDrop | src/quant/research/labeling/cusum.py:63-68 | a down event can be masked on some path if and only if a limit is more than twice a later one with every limit between above the later one |
| Cusum.ConstantThreshold | src/quant/research/labeling/cusum.py:60-68 | with one threshold both accumulators stay strictly inside it and nothing is masked |
| Cusum.EventsCostTravel | src/quant/research/labeling/cusum.py:60-68 | the thresholds at events sum to at most the total absolute log return |
| Cusum.EventsOfPrefix | src/quant/research/labeling/cusum.py:56-68 | the events of a prefix are the events of the whole series before its end |
| Uniqueness.LabelPositions | src/quant/research/labeling/weights.py:170-199 | the spans' bars, or an error exactly when the bars or the event times are not strictly ascending, an end is no bar, or it precedes its start |
| Uniqueness.BuildMatrix | src/quant/research/labeling/weights.py:69-74 | the column fill marks exactly the bars from a label's first to its last |
| Uniqueness.UniquenessConserved | src/quant/research/labeling/weights.py:85-96 | uniqueness times active bars, summed over labels, is the number of bars with an active label |
| Uniqueness.UniquenessRange | src/quant/research/labeling/weights.py:85-96 | uniqueness lies in (0, 1] and is 1 exactly for a label that shares no bar |
| Uniqueness.IsolatedIffUnique | src/quant/research/labeling/weights.py:88-89 | a label's uniqueness is 1 exactly when its span meets no other label's |
| Uniqueness.AttributionBounded | src/quant/research/labeling/weights.py:112-114 | the raw attribution weights sum to at most the total absolute return |
| Uniqueness.IsolatedAttribution | src/quant/research/labeling/weights.py:112-114 | a label that shares no bar is weighted by the whole log return from before its first bar to its last |
| Uniqueness.NormalizedAverage | src/quant/research/labeling/weights.py:115-117 | normalised weights sum to the number of labels and keep their proportions |
| Bootstrap.SequentialBootstrap | src/quant/research/labeling/bootstrap.py:30-78 | the draws made one after another from the uniqueness given those before, with the exact input errors and the refusal of a draw without probabilities |
| Bootstrap.DrawnInTurn | src/quant/research/labeling/bootstrap.py:64-75 | every draw is made with the probabilities its predecessors leave, and later draws leave it as it was |
| Bootstrap.ActivityAlwaysDraws | src/quant/research/labeling/bootstrap.py:64-75 | on a matrix without negative entries no draw is refused |
| Bootstrap.DrawBeatsUniform | src/quant/research/labeling/bootstrap.py:1-18 | a draw in proportion to uniqueness expects at least the uniqueness of a uniform draw, and strictly more unless all are equal |
| Bootstrap.DrawAdds | src/quant/research/labeling/bootstrap.py:75 | the concurrency vector is the sum of the drawn columns |
| Bootstrap.CandidateIs | src/quant/research/labeling/bootstrap.py:66-69 | a candidate's uniqueness times its active bars is its activity at each bar over one more than the concurrency, summed |
| Bootstrap.ProbabilityValid | src/quant/research/labeling/bootstrap.py:70-72 | the draw probabilities are positive and sum to 1 |
| Bootstrap.DrawLowersOverlapping | src/quant/research/labeling/bootstrap.py:68-75 | a draw never raises a candidate's uniqueness and leaves it unchanged exactly when they share no bar; for any non-negative activity |
| Bootstrap.TimeDecayWeights | src/quant/research/labeling/weights.py:137-167 | the clamped factors in event-time order, with the division by zero at a last weight of -1 |
| Bootstrap.DecayAscendsToOne | src/quant/research/labeling/weights.py:140-144 | the newest factor is 1; an older label never weighs more than a newer one if and only if the last weight is at most 1 |
| Bootstrap.OldestFactor | src/quant/research/labeling/weights.py:142-143 | the oldest factor is the last weight plus slope times its own uniqueness, and meets it only when nothing decays |
| Bootstrap.ZeroedFraction | src/quant/research/labeling/weights.py:143-144 | a negative last weight zeroes exactly that fraction of the total uniqueness |
| Splits.BackAdjust | src/quant/research/factors/corporate_actions.py:66-83 | each close is the raw one times the accepted later factors, and the volume is divided by the same |
| Splits.AcceptedIsDrop | src/quant/research/factors/corporate_actions.py:74-79 | a date is adjusted for exactly when both closes are positive and the later is below max_factor times the earlier |
| Splits.OwnDays | src/quant/research/factors/corporate_actions.py:58-60 | a symbol gets its own ex-dates, each as often as it was given |
| Splits.BackAdjustPanel | src/quant/research/factors/corporate_actions.py:52-84 | every symbol's columns are adjusted for its own events, looked up by day; fails exactly on panels of different symbols or days |
| Splits.SortingIsHarmless | src/quant/research/factors/corporate_actions.py:70 | sorting a symbol's ex-dates first does not change its closes |
| Splits.TradedValueKept | src/quant/research/factors/corporate_actions.py:80-81 | close times volume does not change at any bar |
| Splits.OtherRatiosKept | src/quant/research/factors/corporate_actions.py:80-81 | the price ratio across any session that is not an accepted ex-date is the raw one |
| Splits.ContinuousIffOnce | src/quant/research/factors/corporate_actions.py:70-81 | across an accepted ratio the close is continuous if and only if the date was given once, or the ratio is 1 |
| Splits.OrderIndependent | src/quant/research/factors/corporate_actions.py:70-81 | the same ex-dates in any order give the same column |
| CorporateActions.CorporateActionAdjuster.Adjust | src/quant/data/hygiene/corporate_actions.py:121-167 | fails exactly on a dividend not below its reference close; otherwise every bar is scaled by the compounded factors |
| CorporateActions.ScaledByLaterActions | src/quant/data/hygiene/corporate_actions.py:144-153 | a bar is scaled by exactly the actions with a later ex-date |
| CorporateActions.CumPricePositive | src/quant/data/hygiene/corporate_actions.py:86-104 | every compounded price factor is positive |
| CorporateActions.DividendLowersByAmount | src/quant/data/hygiene/corporate_actions.py:86-112 | a dividend lowers the last close before its ex-date by exactly its amount and leaves every volume alone |
| CorporateActions.SplitDividesPrices | src/quant/data/hygiene/corporate_actions.py:86-112 | a split or bonus divides every earlier close by its ratio and multiplies every earlier volume by it, to the nearest share |
| CorporateActions.BarShapeKept | src/quant/data/hygiene/corporate_actions.py:155-167 | all four prices of a bar are scaled alike and its time stays |
| CorporateActions.Checked | src/quant/data/hygiene/corporate_actions.py:72-84 | an action is refused exactly when its amount or ratio is not positive |
| CorporateActions.LatestBarsUnchanged | src/quant/data/hygiene/corporate_actions.py:124-126 | a bar on or after every ex-date is unchanged |
| CorporateActions.TradedValueKept | src/quant/data/hygiene/corporate_actions.py:163-166 | splits and bonuses keep traded value up to half a share at the adjusted price |
| CorporateActions.OrderIndependent | src/quant/data/hygiene/corporate_actions.py:117-119 | the same actions in any order compound to the same factors |
| Registry.IdRoundTrip | src/quant/research/models/registry.py:365-370 | parsing inverts the id of every non-empty name, hyphens included, and every version, past four digits too |
| Registry.ParseIs | src/quant/research/models/registry.py:365-370 | what follows the last hyphen is a number, or the id is malformed or no number exactly by its characters |
| Registry.NoHyphen | src/quant/research/models/registry.py:365-370 | an id without a hyphen is malformed |
| Registry.IdsDistinct | src/quant/research/models/registry.py:172 | different names or versions never share an id |
| Registry.RecordsNumbered | src/quant/research/models/registry.py:208-224 | versions are 1 .. n per name and each card carries its own id and fingerprint |
| Registry.IssuedStays | src/quant/research/models/registry.py:248-255 | later registrations never replace or renumber an issued record |
| Registry.LatestIsNewest | src/quant/research/models/registry.py:236-241 | the latest model of a name is the last registered under it |
| Registry.LoadedIff | src/quant/research/models/registry.py:325-334 | an artifact is loaded exactly when its card has no fingerprint or the artifact's own |
| Registry.InMemoryModelRegistry.Register | src/quant/research/models/registry.py:196-227 | issues the next version of the name |
| Registry.InMemoryModelRegistry.Get | src/quant/research/models/registry.py:229-234 | knows exactly the issued ids |
| Registry.InMemoryModelRegistry.Latest | src/quant/research/models/registry.py:236-241 | the highest version or none |
| Registry.FileModelRegistry.Register | src/quant/research/models/registry.py:262-300 | on a safe name issues the same card as the in-memory registry after the same history; an unsafe name changes nothing |
| Registry.FileModelRegistry.Get | src/quant/research/models/registry.py:302-308 | the record of the parsed name and version, with the exact errors |
| Registry.FileModelRegistry.Latest | src/quant/research/models/registry.py:310-315 | the same latest record as in memory |
| Registry.IssuedIdsAgree | src/quant/research/models/registry.py:302-308 | both registries agree on every issued id |
| Registry.GetsDifferIff | src/quant/research/models/registry.py:365-370 | the file registry alone knows an id if and only if the id parses to an issued name and version that were issued under another id |
| Registry.ShortSpelling | src/quant/research/models/registry.py:365-370 | after one registration of m the file registry takes m- with any digit for one and the in-memory one does not |
| Registry.SuperscriptIsNoNumber | src/quant/research/models/registry.py:365-370 | a suffix of a digit that is no decimal passes the check and fails in the conversion |
| Features.ComputeFeatureFrame | src/quant/data/features/harness.py:51-91 | the columns of the sorted bars under their names, one per distinct name; an empty frame gives empty columns before any check |
| Features.NamesInStepIff | src/quant/data/features/harness.py:35-48 | the listed names are the frame's columns if and only if no horizon is listed twice |
| Features.FrameMeans | src/quant/data/features/harness.py:73-86 | every column holds what its name says: returns, sample deviations, mean true ranges, Parkinson estimates and VWAP deviations of the sorted bars |
| Features.ComputeFeaturesAsof | src/quant/data/features/harness.py:94-118 | exactly the batch row at the last bar at or before the decision time; fails exactly without history or on a bad window |
| Features.UpToIsPrefix | src/quant/data/features/harness.py:115 | the history is the prefix of bars at or before the time |
| Features.RowsOfPrefix | src/quant/data/features/harness.py:102-104 | row i of the frame depends on no bar after i |
| Features.ReturnOfPrefix | src/quant/data/features/returns.py:30-33 | lagged log returns of a prefix are the prefix of the column |
| Features.VolatilityOfPrefix | src/quant/data/features/volatility.py:30-33 | rolling deviations of a prefix are the prefix of the column |
| Features.LogReturnRows | src/quant/data/features/returns.py:30-33 | the shifted column ratio is, at every row, the log of the close over the one `horizon` bars before |
| Features.ReturnKnownIff | src/quant/data/features/returns.py:30-33 | there is a return exactly where there is an earlier bar and the two closes have a positive ratio |
| Features.VolatilityRows | src/quant/data/features/volatility.py:30-33 | each row is the sample deviation of its window's returns: its square times window - 1 is the sum of squared gaps to their mean; none until they fill it |
| Features.AtrRows | src/quant/data/features/volatility.py:49-56 | each row times the window is the sum of its window's true ranges |
| Features.ParkinsonRows | src/quant/data/features/volatility.py:72-77 | each row's square is the factor times the mean of its window's squared log ranges |
| Features.VwapIs | src/quant/data/features/vwap.py:18-30 | the session VWAP times the shares traded so far that day is the money traded at typical prices; none before any trade |
| Features.DeviationRows | src/quant/data/features/vwap.py:33-40 | one plus the deviation is how many times the VWAP the close is |
| Features.ReturnsCompound | src/quant/data/features/returns.py:20 | the return over h + k bars is that of the last h bars plus that of the k before |
| Features.TrueRangeSpans | src/quant/data/features/volatility.py:39-42 | the true range spans the bar together with the previous close |
| Features.AtrOfPrefix | src/quant/data/features/volatility.py:49-56 | average true ranges of a prefix are the prefix of the column |
| Features.ParkinsonOfPrefix | src/quant/data/features/volatility.py:72-77 | Parkinson estimates of a prefix are the prefix of the column |
| Features.DeviationOfPrefix | src/quant/data/features/vwap.py:25-40 | session VWAP deviations of a prefix are the prefix of the column |
| Features.DayTotalRestarts | src/quant/data/features/vwap.py:27-28 | the running session total restarts with the first bar of each day |
| Features.VwapWithinRange | src/quant/data/features/vwap.py:18-30 | the session VWAP lies within any range that holds the typical prices so far |

## Left out

- Floating point: rounding, NaN and infinities. Values are reals; a missing or non-finite feature value is `None`, and finiteness checks have no counterpart.
- pandas and numpy mechanics, schema checks, Parquet, JSON and pickle encodings, logging: frames are sequences of bars, and writing then reading back is the identity.
- Finer than microsecond instants, and zones other than IST: an instant is a whole number of microseconds from a midnight in IST.
- Network, broker, client, CLI, configuration, tracking, gradient boosting, clustering, statistical tests and regime models: they wrap unseen libraries.
- SHA-256 itself: the hash is a parameter, and injectivity is assumed only where a statement says so. Redaction is a parameter too.
- Time-zone awareness of an index and the type checks of inputs: every instant is an IST one.
- The interpreter's limit on the length of an integer's text: the registry parses suffixes of any length.
- Bootstrap.DrawBeatsUniform: speaks of one draw given those before it; how much more unique a whole sample is on average is not modelled.
- The numbers of bars and windows in a backfill report: an outcome says only how a symbol's turn ended.
- Threads and locks: calls are serialised. Redis key expiry and its network errors.
- Easy members: accuracy, log loss and Brier score, momentum side, holding cost, CAGR, Sharpe, synthetic cash prices, liquidity screens, survivorship lookups, gate thresholds.
- `rotation_weights`, the regime gate and the probability fitting: the backtest takes any schedule.
- The single-linkage clustering behind HRP: the leaf order is an arbitrary permutation chosen by a parameter.
- Names missing from a covariance or volatility input, an unknown weighting method and a missing input for it: a weighting carries the data of all names.
- `average_uniqueness_of_sample` and the minimum-d search over an ADF test: the first repeats the uniqueness mean on drawn columns, the second rests on the test.
- Listing symbols or cards, and loading a corrupted registry artifact from outside a run.
