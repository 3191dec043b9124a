/**
 * Backfills over different ranges and intervals, one after another, on one archive and one checkpoint
 * (src/quant/data/ingest/backfill.py).
 */
module Ranges {
  import opened Bars
  import opened Archive
  import opened Backfill

  /** Some runs of one job; a campaign is followed by others, over any ranges, intervals and histories. */
  datatype Campaign = Campaign(job: Job, runs: seq<seq<Turn>>)

  function RunCampaigns(w: World, campaigns: seq<Campaign>): World
    decreases |campaigns|
  {
    if |campaigns| == 0 then w else RunCampaigns(RunAll(w, campaigns[0].job, campaigns[0].runs), campaigns[1..])
  }

  // ---- what every step of every job keeps ----

  /** The live map is never behind its file. */
  ghost predicate Ahead(w: World) {
    forall key :: key in w.disk ==> key in w.memory && w.memory[key] >= w.disk[key]
  }

  lemma GrowsOn(a: World, b: World, c: World)
    requires Grows(a, b) && Grows(b, c)
    ensures Grows(a, c)
  {
  }

  lemma WriteGrows(w: World, job: Job, symbol: string, limit: nat)
    requires Ahead(w)
    ensures var w' := Write(w, job, symbol, limit).0;
      Ahead(w') && Grows(w, w') && w'.memory == w.memory && w'.disk == w.disk
  {
    var f := Wanted(job, symbol);
    WritesNeverChangeHistory(w.archive, symbol, f, Reached(Days(f), limit));
  }

  lemma AttemptGrows(w: World, job: Job, turn: Turn)
    requires Ahead(w)
    ensures Ahead(Attempt(w, job, turn).0) && Grows(w, Attempt(w, job, turn).0)
  {
    if !Complete(w.memory, job, turn.symbol) && turn.fault != FetchFails {
      var limit := if turn.fault.WriteStops? then turn.fault.written else |Days(Wanted(job, turn.symbol))|;
      WriteGrows(w, job, turn.symbol, limit);
    }
  }

  lemma {:induction false} RunGrows(w: World, job: Job, turns: seq<Turn>)
    requires Ahead(w)
    ensures Ahead(RunTurns(w, job, turns)) && Grows(w, RunTurns(w, job, turns))
    decreases |turns|
  {
    if |turns| > 0 {
      AttemptGrows(w, job, turns[0]);
      var (w', outcome) := TakeTurn(w, job, turns[0]);
      if outcome != Crashed {
        RunGrows(w', job, turns[1..]);
        GrowsOn(w, w', RunTurns(w', job, turns[1..]));
      }
    }
  }

  lemma {:induction false} AllRunsGrow(w: World, job: Job, runs: seq<seq<Turn>>)
    requires Ahead(w)
    ensures Ahead(RunAll(w, job, runs)) && Grows(w, RunAll(w, job, runs))
    decreases |runs|
  {
    if |runs| > 0 {
      var w' := RunTurns(Reopen(w), job, runs[0]);
      RunGrows(Reopen(w), job, runs[0]);
      AllRunsGrow(w', job, runs[1..]);
      GrowsOn(w, w', RunAll(w', job, runs[1..]));
    }
  }

  /** Over any jobs, faulty or not: no partition changes or is lost, and the checkpoint file never moves back. */
  lemma {:induction false} CampaignsGrow(w: World, campaigns: seq<Campaign>)
    requires Ahead(w)
    ensures Ahead(RunCampaigns(w, campaigns)) && Grows(w, RunCampaigns(w, campaigns))
    decreases |campaigns|
  {
    if |campaigns| > 0 {
      var w' := RunAll(w, campaigns[0].job, campaigns[0].runs);
      AllRunsGrow(w, campaigns[0].job, campaigns[0].runs);
      CampaignsGrow(w', campaigns[1..]);
      GrowsOn(w, w', RunCampaigns(w', campaigns[1..]));
    }
  }

  // ---- when a job completes ----

  /** A stored day holds other bars than the job wants for it, and the symbol is not complete. */
  ghost predicate Blocked(w: World, job: Job, s: string, day: int) {
    && day in Days(Wanted(job, s)) && (s, day) in w.archive
    && !FramesEqual(w.archive[(s, day)], DayGroup(Wanted(job, s), day))
    && !Complete(w.memory, job, s) && !Complete(w.disk, job, s)
  }

  lemma BlockedWrite(w: World, job: Job, s: string, day: int)
    requires Blocked(w, job, s, day)
    ensures !Write(w, job, s, |Days(Wanted(job, s))|).1
  {
    var f := Wanted(job, s);
    DaysAre(f);
    WriteSucceedsIff(w.archive, s, f, Days(f));
    var i :| 0 <= i < |Days(f)| && Days(f)[i] == day;
    assert !Admits(w.archive, (s, Days(f)[i]), DayGroup(f, Days(f)[i]));
  }

  lemma BlockedAfterWrite(w: World, job: Job, s: string, day: int, symbol: string, limit: nat)
    requires Blocked(w, job, s, day)
    ensures Blocked(Write(w, job, symbol, limit).0, job, s, day)
  {
    var f := Wanted(job, symbol);
    WritesNeverChangeHistory(w.archive, symbol, f, Reached(Days(f), limit));
  }

  lemma BlockedAfterMark(w: World, job: Job, s: string, day: int, symbol: string, saved: bool)
    requires Blocked(w, job, s, day) && symbol != s
    ensures Blocked(Mark(w, job, symbol, saved), job, s, day)
  {
    if Key(symbol, job.interval) == Key(s, job.interval) {
      KeysOfSymbols(symbol, s, job.interval);
    }
  }

  lemma BlockedReopen(w: World, job: Job, s: string, day: int)
    requires Blocked(w, job, s, day)
    ensures Blocked(Reopen(w), job, s, day)
  {
  }

  lemma BlockedAttempt(w: World, job: Job, s: string, day: int, turn: Turn)
    requires Blocked(w, job, s, day)
    ensures Blocked(Attempt(w, job, turn).0, job, s, day)
  {
    if !Complete(w.memory, job, turn.symbol) && turn.fault != FetchFails {
      var limit := if turn.fault.WriteStops? then turn.fault.written else |Days(Wanted(job, turn.symbol))|;
      BlockedAfterWrite(w, job, s, day, turn.symbol, limit);
      if turn.symbol == s {
        BlockedWrite(w, job, s, day);
      } else {
        BlockedAfterMark(Write(w, job, turn.symbol, limit).0, job, s, day, turn.symbol, turn.fault != SaveFails);
      }
    }
  }

  lemma BlockedTurn(w: World, job: Job, s: string, day: int, turn: Turn)
    requires Blocked(w, job, s, day)
    ensures Blocked(TakeTurn(w, job, turn).0, job, s, day)
  {
    BlockedAttempt(w, job, s, day, turn);
    BlockedReopen(Attempt(w, job, turn).0, job, s, day);
  }

  lemma {:induction false} BlockedRun(w: World, job: Job, s: string, day: int, turns: seq<Turn>)
    requires Blocked(w, job, s, day)
    ensures Blocked(RunTurns(w, job, turns), job, s, day)
    decreases |turns|
  {
    if |turns| > 0 {
      BlockedTurn(w, job, s, day, turns[0]);
      var (w', outcome) := TakeTurn(w, job, turns[0]);
      if outcome != Crashed {
        BlockedRun(w', job, s, day, turns[1..]);
      }
    }
  }

  /** Retrying never helps: whatever is run, the symbol stays incomplete. */
  lemma {:induction false} BlockedForever(w: World, job: Job, s: string, day: int, runs: seq<seq<Turn>>)
    requires Blocked(w, job, s, day)
    ensures Blocked(RunAll(w, job, runs), job, s, day)
    decreases |runs|
  {
    if |runs| > 0 {
      BlockedRun(Reopen(w), job, s, day, runs[0]);
      BlockedForever(RunTurns(Reopen(w), job, runs[0]), job, s, day, runs[1..]);
    }
  }

  /** A turn without faults leaves other symbols' days admitted, and the live map equal to its file. */
  lemma CleanTurnAdmits(w: World, job: Job, symbol: string, s: string)
    requires w.memory == w.disk && AdmitsAll(w.archive, job, s)
    ensures var (w', outcome) := TakeTurn(w, job, Turn(symbol, NoFault, false));
      && outcome != Crashed && w'.memory == w'.disk
      && if symbol == s then Complete(w'.disk, job, s) else AdmitsAll(w'.archive, job, s)
  {
    var f := Wanted(job, symbol);
    if symbol == s {
      WriteOkIff(w, job, s);
    } else {
      WritesNeverChangeHistory(w.archive, symbol, f, Reached(Days(f), |Days(f)|));
    }
  }

  lemma {:induction false} AdmittedCompletes(w: World, job: Job, symbols: seq<string>, s: string)
    requires w.memory == w.disk && AdmitsAll(w.archive, job, s) && s in symbols
    ensures Complete(RunTurns(w, job, Clean(symbols)).disk, job, s)
    decreases |symbols|
  {
    CleanTurnAdmits(w, job, symbols[0], s);
    var w' := TakeTurn(w, job, Turn(symbols[0], NoFault, false)).0;
    assert Clean(symbols)[1..] == Clean(symbols[1..]);
    if symbols[0] == s {
      RunGrows(w', job, Clean(symbols[1..]));
    } else {
      assert symbols == [symbols[0]] + symbols[1..];
      AdmittedCompletes(w', job, symbols[1..], s);
    }
  }

  /**
   * Whatever earlier jobs left behind, of any range or interval: a symbol that is not complete becomes so in the next
   * clean run if and only if the archive admits every day the job wants of it. Otherwise no number of runs, faulty or
   * not, ever completes it.
   */
  lemma CompletesIffAdmitted(w: World, job: Job, symbols: seq<string>, s: string)
    requires !Complete(w.disk, job, s) && s in symbols
    ensures Complete(RunTurns(Reopen(w), job, Clean(symbols)).disk, job, s) <==> AdmitsAll(w.archive, job, s)
    ensures !AdmitsAll(w.archive, job, s) ==> forall runs :: !Complete(RunAll(Reopen(w), job, runs).disk, job, s)
  {
    if AdmitsAll(w.archive, job, s) {
      AdmittedCompletes(Reopen(w), job, symbols, s);
    } else {
      var day :| day in Days(Wanted(job, s)) && !Admits(w.archive, (s, day), DayGroup(Wanted(job, s), day));
      assert Blocked(Reopen(w), job, s, day);
      BlockedRun(Reopen(w), job, s, day, Clean(symbols));
      forall runs ensures !Complete(RunAll(Reopen(w), job, runs).disk, job, s) {
        BlockedForever(Reopen(w), job, s, day, runs);
      }
    }
  }

  // ---- after a completed job ----

  /** After any interrupted runs of a job and one clean one. */
  ghost function Completed(job: Job, runs: seq<seq<Turn>>, symbols: seq<string>): World {
    RunTurns(Reopen(RunAll(FRESH, job, runs)), job, Clean(symbols))
  }

  lemma CompletedStores(job: Job, runs: seq<seq<Turn>>, symbols: seq<string>, s: string)
    requires Within(runs, set x | x in symbols) && s in symbols
    ensures var w := Completed(job, runs, symbols);
      && w.memory == w.disk && Stores(w.archive, s, Wanted(job, s))
      && w.disk.Keys == Keys(job, set x | x in symbols)
      && Key(s, job.interval) in w.disk && w.disk[Key(s, job.interval)] == Day(job.end)
  {
    RecoveryIsExact(job, runs, symbols);
    UninterruptedRun(job, symbols, s);
    CleanRunCompletes(FRESH, job, symbols);
  }

  lemma {:induction false} DayGroupSorted(f: Frame, day: int)
    requires Sorted(f)
    ensures Sorted(DayGroup(f, day)) && forall b :: b in DayGroup(f, day) ==> b in f && Day(b.timestamp) == day
  {
    if |f| > 0 {
      DayGroupSorted(f[..|f| - 1], day);
      var front := DayGroup(f[..|f| - 1], day);
      forall i | 0 <= i < |front| ensures front[i].timestamp <= f[|f| - 1].timestamp {
        assert front[i] in f[..|f| - 1];
      }
    }
  }

  lemma WantedSorted(job: Job, s: string)
    ensures Sorted(Wanted(job, s))
  {
    SortBarsSorted(Keep(History(job, s), job.start, job.end));
  }

  lemma GroupsCompare(a: Job, b: Job, s: string, day: int)
    ensures var x, y := DayGroup(Wanted(a, s), day), DayGroup(Wanted(b, s), day); FramesEqual(x, y) <==> x == y
  {
    WantedSorted(a, s);
    WantedSorted(b, s);
    DayGroupSorted(Wanted(a, s), day);
    DayGroupSorted(Wanted(b, s), day);
    SortedIsFixed(DayGroup(Wanted(a, s), day));
    SortedIsFixed(DayGroup(Wanted(b, s), day));
  }

  /** Both jobs want the same bars of every day that both want. */
  ghost predicate AgreeOnSharedDays(a: Job, b: Job, s: string) {
    forall day :: day in Days(Wanted(a, s)) && day in Days(Wanted(b, s)) ==>
      DayGroup(Wanted(a, s), day) == DayGroup(Wanted(b, s), day)
  }

  lemma AgreementAdmits(archive: Partitions, job: Job, later: Job, s: string)
    requires Stores(archive, s, Wanted(job, s))
    ensures AdmitsAll(archive, later, s) <==> AgreeOnSharedDays(job, later, s)
  {
    forall day ensures FramesEqual(DayGroup(Wanted(job, s), day), DayGroup(Wanted(later, s), day))
      <==> DayGroup(Wanted(job, s), day) == DayGroup(Wanted(later, s), day)
    {
      GroupsCompare(job, later, s, day);
    }
    if AdmitsAll(archive, later, s) {
      forall day | day in Days(Wanted(job, s)) && day in Days(Wanted(later, s))
        ensures DayGroup(Wanted(job, s), day) == DayGroup(Wanted(later, s), day)
      {
        assert Admits(archive, (s, day), DayGroup(Wanted(later, s), day));
      }
    }
  }

  /**
   * Where the archive holds what a job wanted, a job that is not complete becomes so if and only if the two want the
   * same bars of every day both want; otherwise no number of retries, faulty or not, ever completes it.
   */
  lemma LaterRangeCompletesIff(w: World, job: Job, later: Job, symbols: seq<string>, s: string)
    requires Stores(w.archive, s, Wanted(job, s)) && !Complete(w.disk, later, s) && s in symbols
    ensures Complete(RunTurns(Reopen(w), later, Clean(symbols)).disk, later, s) <==> AgreeOnSharedDays(job, later, s)
    ensures !AgreeOnSharedDays(job, later, s) ==>
      forall runs :: !Complete(RunAll(Reopen(w), later, runs).disk, later, s)
  {
    AgreementAdmits(w.archive, job, later, s);
    CompletesIffAdmitted(w, later, symbols, s);
  }

  lemma LongerSymbol(a: string, i: string, b: string, j: string)
    requires Key(a, i) == Key(b, j) && |a| < |b|
    ensures ':' in i
  {
    var k := Key(a, i);
    assert k[|a| + 1..] == i;
    assert k[|b|] == ':';
    assert i[|b| - |a| - 1] == ':';
  }

  /** Keys tell intervals apart as long as these have no colon in them. */
  lemma KeysOfIntervals(a: string, i: string, b: string, j: string)
    requires Key(a, i) == Key(b, j) && ':' !in i && ':' !in j
    ensures a == b && i == j
  {
    if |a| < |b| {
      LongerSymbol(a, i, b, j);
    }
    if |b| < |a| {
      LongerSymbol(b, j, a, i);
    }
    var k := Key(a, i);
    assert k[..|a|] == a && k[..|b|] == b;
    assert k[|a| + 1..] == i && k[|b| + 1..] == j;
  }

  /**
   * The checkpoint tells the intervals of a symbol apart, the archive does not: after a completed backfill of one
   * interval, that of another is never skipped, and completes if and only if the days both have hold the same bars.
   */
  lemma IntervalsConflictIff(job: Job, runs: seq<seq<Turn>>, symbols: seq<string>, other: Job, s: string)
    requires Within(runs, set x | x in symbols) && s in symbols
    requires job.interval != other.interval && ':' !in job.interval && ':' !in other.interval
    ensures var w := Completed(job, runs, symbols);
      && (Complete(RunTurns(w, other, Clean(symbols)).disk, other, s) <==> AgreeOnSharedDays(job, other, s))
      && (!AgreeOnSharedDays(job, other, s) ==> forall retries :: !Complete(RunAll(w, other, retries).disk, other, s))
  {
    var w := Completed(job, runs, symbols);
    CompletedStores(job, runs, symbols, s);
    assert Reopen(w) == w;
    if Complete(w.disk, other, s) {
      var x :| x in symbols && Key(s, other.interval) == Key(x, job.interval);
      KeysOfIntervals(s, other.interval, x, job.interval);
      assert false;
    }
    LaterRangeCompletesIff(w, job, other, symbols, s);
  }

  lemma {:induction false} RowsAt(f: Frame, b: Bar)
    ensures b in f <==> b in At(f, b.timestamp)
  {
    if |f| > 0 {
      RowsAt(f[..|f| - 1], b);
      assert f == f[..|f| - 1] + [f[|f| - 1]];
    }
  }

  lemma BarsOfRange(job: Job, s: string, b: Bar)
    ensures b in Wanted(job, s) <==> b in History(job, s) && job.start <= b.timestamp <= job.end
  {
    var h := History(job, s);
    SortBarsKeepsRows(Keep(h, job.start, job.end), b.timestamp);
    KeepRows(h, job.start, job.end, b.timestamp);
    RowsAt(Wanted(job, s), b);
    RowsAt(h, b);
  }

  /** A checkpoint is not before any day it stands for. */
  lemma CheckpointCovers(job: Job, runs: seq<seq<Turn>>, symbols: seq<string>, s: string, b: Bar)
    requires Within(runs, set x | x in symbols) && s in symbols && b in Wanted(job, s)
    ensures var w := Completed(job, runs, symbols);
      Key(s, job.interval) in w.disk && Day(b.timestamp) <= w.disk[Key(s, job.interval)]
  {
    CompletedStores(job, runs, symbols, s);
    BarsOfRange(job, s, b);
  }

  lemma {:induction false} GroupHolds(f: Frame, b: Bar)
    requires b in f
    ensures b in DayGroup(f, Day(b.timestamp))
  {
    assert f == f[..|f| - 1] + [f[|f| - 1]];
    if b in f[..|f| - 1] {
      GroupHolds(f[..|f| - 1], b);
    }
  }

  lemma DayOfBar(f: Frame, b: Bar)
    requires b in f
    ensures Day(b.timestamp) in Days(f)
  {
    DaysAre(f);
    var i :| 0 <= i < |f| && f[i] == b;
    assert Day(f[i].timestamp) == Day(b.timestamp);
  }

  lemma {:induction false} GroupWithin(f: Frame, day: int, b: Bar)
    requires b in DayGroup(f, day)
    ensures b in f && Day(b.timestamp) == day
  {
    if b in DayGroup(f[..|f| - 1], day) {
      GroupWithin(f[..|f| - 1], day, b);
    }
  }

  /**
   * The usual way to meet this: the first job ended mid-day, with one bar of that day in its range and one after it.
   * Extending the range past that day is refused on every retry.
   */
  lemma MidDayEndBlocksExtension(w: World, job: Job, later: Job, s: string, inside: Bar, after: Bar,
                                 runs: seq<seq<Turn>>)
    requires Stores(w.archive, s, Wanted(job, s)) && !Complete(w.disk, later, s)
    requires inside in History(job, s) && inside in History(later, s) && after in History(later, s)
    requires job.start <= inside.timestamp <= job.end < after.timestamp && Day(inside.timestamp) == Day(after.timestamp)
    requires later.start <= inside.timestamp && after.timestamp <= later.end
    ensures !Complete(RunAll(Reopen(w), later, runs).disk, later, s)
  {
    var day := Day(inside.timestamp);
    BarsOfRange(job, s, inside);
    BarsOfRange(job, s, after);
    BarsOfRange(later, s, inside);
    BarsOfRange(later, s, after);
    DayOfBar(Wanted(job, s), inside);
    DayOfBar(Wanted(later, s), inside);
    GroupHolds(Wanted(later, s), after);
    if after in DayGroup(Wanted(job, s), day) {
      GroupWithin(Wanted(job, s), day, after);
    }
    assert !AgreeOnSharedDays(job, later, s);
    LaterRangeCompletesIff(w, job, later, [s], s);
  }

  /** What a skipped job wanted past the end of the completed one is in no partition. */
  lemma SkippedBarIsMissing(w: World, job: Job, s: string, turns: seq<Turn>, stored: Job, after: Bar, day: int)
    requires Complete(w.memory, job, s) && Stores(w.archive, s, Wanted(stored, s))
    requires forall i :: 0 <= i < |turns| ==> turns[i].symbol == s
    requires stored.end < after.timestamp
    ensures var w' := RunTurns(w, job, turns); (s, day) in w'.archive ==> after !in w'.archive[(s, day)]
  {
    CompletedDaySkipped(w, job, s, turns, Wanted(stored, s));
    BarsOfRange(stored, s, after);
    if (s, day) in w.archive && after in w.archive[(s, day)] {
      GroupWithin(Wanted(stored, s), day, after);
    }
  }

  /** A job extending a completed one within its last day reports success and never stores what it was run for. */
  lemma ExtensionSameDaySkipped(job: Job, later: Job, s: string, after: Bar, day: int)
    requires later.interval == job.interval && EndDay(later) == EndDay(job) && job.end < after.timestamp
    ensures var w, turns := RunTurns(FRESH, job, Clean([s])), Clean([s]);
      && Report(w, later, turns) == [Skipped]
      && var archive := RunTurns(w, later, turns).archive;
        (s, day) in archive ==> after !in archive[(s, day)]
  {
    UninterruptedRun(job, [s], s);
    CleanRunCompletes(FRESH, job, [s]);
    var w, turns := RunTurns(FRESH, job, Clean([s])), Clean([s]);
    assert turns[0] == Turn(s, NoFault, false) && turns[1..] == [];
    assert TakeTurn(w, later, turns[0]) == (w, Skipped);
    SkippedBarIsMissing(w, later, s, turns, job, after, day);
  }

  function BarOf(timestamp: int): Bar {
    Bar(timestamp, 1.0, 1.0, 1.0, 1.0, 1)
  }

  /** Two bars of one day, the last of them after 1. */
  function TwoBars(end: int): Job {
    Job("day", map["S" := [BarOf(1), BarOf(2)]], 0, end)
  }

  /** For one, ending at 1 first and at 2 then: the second bar is wanted and in no partition. */
  lemma SecondBarSkipped(day: int)
    ensures BarOf(2) in Wanted(TwoBars(2), "S")
    ensures var w, turns := RunTurns(FRESH, TwoBars(1), Clean(["S"])), Clean(["S"]);
      && Report(w, TwoBars(2), turns) == [Skipped]
      && var archive := RunTurns(w, TwoBars(2), turns).archive;
        ("S", day) in archive ==> BarOf(2) !in archive[("S", day)]
  {
    assert History(TwoBars(2), "S")[1] == BarOf(2);
    BarsOfRange(TwoBars(2), "S", BarOf(2));
    ExtensionSameDaySkipped(TwoBars(1), TwoBars(2), "S", BarOf(2), day);
  }

  // ---- what is reported lasts ----

  /** Every wanted day is stored with equal bars. */
  ghost predicate HoldsEqual(archive: Partitions, job: Job, s: string) {
    forall day :: day in Days(Wanted(job, s)) ==>
      (s, day) in archive && FramesEqual(archive[(s, day)], DayGroup(Wanted(job, s), day))
  }

  lemma FramesEqualItself(f: Frame)
    ensures FramesEqual(f, f)
  {
  }

  lemma WriteHolds(w: World, job: Job, s: string)
    requires Write(w, job, s, |Days(Wanted(job, s))|).1
    ensures HoldsEqual(Write(w, job, s, |Days(Wanted(job, s))|).0.archive, job, s)
  {
    var f := Wanted(job, s);
    var q := PutDays(w.archive, s, f, Days(f)).0;
    DaysAre(f);
    WriteSucceedsIff(w.archive, s, f, Days(f));
    WritesNeverChangeHistory(w.archive, s, f, Days(f));
    WriteOkIff(w, job, s);
    forall day | day in Days(f) ensures (s, day) in q && FramesEqual(q[(s, day)], DayGroup(f, day)) {
      var i :| 0 <= i < |Days(f)| && Days(f)[i] == day;
      assert (s, Days(f)[i]) in q;
      assert Admits(w.archive, (s, day), DayGroup(f, day));
      FramesEqualItself(DayGroup(f, day));
    }
  }

  /** A turn that ends in Done leaves everything wanted stored and the symbol complete in the file. */
  lemma DoneStores(w: World, job: Job, turn: Turn)
    requires TakeTurn(w, job, turn).1 == Done
    ensures var w' := TakeTurn(w, job, turn).0;
      HoldsEqual(w'.archive, job, turn.symbol) && Complete(w'.disk, job, turn.symbol)
  {
    WriteHolds(w, job, turn.symbol);
  }

  /** Whatever else goes wrong in a run, a symbol it reported done stays complete in the file and stored whole. */
  lemma ReportedDoneLasts(w: World, job: Job, turns: seq<Turn>, i: nat)
    requires Ahead(w) && i < |Report(w, job, turns)| && Report(w, job, turns)[i] == Done
    ensures i < |turns|
    ensures var end := RunTurns(w, job, turns);
      HoldsEqual(end.archive, job, turns[i].symbol) && Complete(end.disk, job, turns[i].symbol)
  {
    ReportAt(w, job, turns, i);
    var before := RunTurns(w, job, turns[..i]);
    RunGrows(w, job, turns[..i]);
    DoneStores(before, job, turns[i]);
    var after := TakeTurn(before, job, turns[i]).0;
    AttemptGrows(before, job, turns[i]);
    RunGrows(after, job, turns[i + 1..]);
    RunSplits(w, job, turns, i);
  }
}
