/**
 * The resumable backfill: fetch in windows, write once, then checkpoint
 * (src/quant/data/ingest/backfill.py). One process runs at a time; a crash loses its memory only.
 */
module Backfill {
  import opened Bars
  import opened Chunks
  import opened Archive

  /** What is asked for: the candle interval, the broker's fixed history per symbol at it, and the range to pull. */
  datatype Job = Job(interval: string, history: map<string, Frame>, start: int, end: int)

  /**
   * Archive and checkpoint file survive a crash; `memory` is the checkpoint map of the live process. The checkpoint
   * is by symbol and interval, the archive by symbol and day alone.
   */
  datatype World = World(archive: Partitions, disk: map<string, int>, memory: map<string, int>)

  /** Where one symbol's turn goes wrong, if anywhere. */
  datatype Fault =
    | NoFault
    | FetchFails
    | WriteStops(written: nat)  // after this many partitions
    | SaveFails                 // archive written, checkpoint file not replaced

  /** A fault either is caught and reported for that symbol, or takes the process down. */
  datatype Turn = Turn(symbol: string, fault: Fault, crash: bool)

  datatype Outcome = Skipped | Done | Failed | Crashed

  function History(job: Job, symbol: string): Frame {
    if symbol in job.history then job.history[symbol] else []
  }

  /** The broker's answer for one window. */
  function Fetch(job: Job, symbol: string, w: Window): Frame {
    Keep(History(job, symbol), w.start, w.end)
  }

  function FetchAll(job: Job, symbol: string, chunks: seq<Window>): seq<Frame> {
    seq(|chunks|, i requires 0 <= i < |chunks| => Fetch(job, symbol, chunks[i]))
  }

  function Accumulated(job: Job, symbol: string, chunks: seq<Window>): Frame {
    ConcatBars(FetchAll(job, symbol, chunks))
  }

  // ---- pagination is invisible ----

  /** The windows follow each other without gap or overlap. */
  ghost predicate Contiguous(chunks: seq<Window>, start: int) {
    && (|chunks| > 0 ==> chunks[0].start == start)
    && (forall i :: 0 <= i < |chunks| ==> chunks[i].start <= chunks[i].end)
    && forall i :: 0 < i < |chunks| ==> chunks[i - 1].end + 1 == chunks[i].start
  }

  lemma TilesContiguous(chunks: seq<Window>, start: int, end: int, chunkDays: int)
    requires Tiles(chunks, start, end, chunkDays)
    ensures Contiguous(chunks, start)
  {
    forall i | 0 < i < |chunks| ensures chunks[i - 1].end + 1 == chunks[i].start {
    }
  }

  lemma FlattenPrefix(frames: seq<Frame>, n: nat)
    requires 0 < n <= |frames|
    ensures Flatten(frames[..n]) == Flatten(frames[..n - 1]) + frames[n - 1]
  {
    assert frames[..n][..n - 1] == frames[..n - 1];
  }

  lemma NextWindow(job: Job, symbol: string, chunks: seq<Window>, t: int, n: nat)
    requires 0 < n <= |chunks|
    ensures var frames, last := FetchAll(job, symbol, chunks), chunks[n - 1];
      At(Flatten(frames[..n]), t) == At(Flatten(frames[..n - 1]), t)
        + if last.start <= t <= last.end then At(History(job, symbol), t) else []
  {
    var frames, last := FetchAll(job, symbol, chunks), chunks[n - 1];
    FlattenPrefix(frames, n);
    AtConcat(Flatten(frames[..n - 1]), frames[n - 1], t);
    KeepRows(History(job, symbol), last.start, last.end, t);
  }

  lemma {:induction false} WindowRows(job: Job, symbol: string, chunks: seq<Window>, start: int, t: int, n: nat)
    requires Contiguous(chunks, start) && n <= |chunks|
    ensures n > 0 ==> start <= chunks[n - 1].start
    ensures At(Flatten(FetchAll(job, symbol, chunks)[..n]), t)
         == if n > 0 && start <= t <= chunks[n - 1].end then At(History(job, symbol), t) else []
  {
    if n > 0 {
      WindowRows(job, symbol, chunks, start, t, n - 1);
      NextWindow(job, symbol, chunks, t, n);
      assert n > 1 ==> chunks[n - 2].end + 1 == chunks[n - 1].start;
    }
  }

  /** One uninterrupted, unpaginated pull. */
  function Wanted(job: Job, symbol: string): Frame {
    RestrictToRange(History(job, symbol), job.start, job.end)
  }

  /** Windowed or not, the accumulated frame is the history of the range in time order. */
  lemma PaginationInvisible(job: Job, symbol: string, chunks: seq<Window>, chunkDays: int)
    requires job.start <= job.end && Tiles(chunks, job.start, job.end, chunkDays)
    ensures Accumulated(job, symbol, chunks) == Wanted(job, symbol)
  {
    var frames := FetchAll(job, symbol, chunks);
    TilesContiguous(chunks, job.start, job.end, chunkDays);
    assert frames[..|chunks|] == frames;
    forall t ensures At(Flatten(frames), t) == At(Keep(History(job, symbol), job.start, job.end), t) {
      WindowRows(job, symbol, chunks, job.start, t, |chunks|);
      KeepRows(History(job, symbol), job.start, job.end, t);
    }
    SortCanonical(Flatten(frames), Keep(History(job, symbol), job.start, job.end));
  }

  // ---- one symbol's turn ----

  function EndDay(job: Job): int {
    Day(job.end)
  }

  /** The checkpoint's key of a symbol at an interval. */
  function Key(symbol: string, interval: string): string {
    symbol + ":" + interval
  }

  /** At one interval every symbol has its own key. */
  lemma KeysOfSymbols(a: string, b: string, interval: string)
    requires Key(a, interval) == Key(b, interval)
    ensures a == b
  {
    assert |a| == |b|;
    assert Key(a, interval)[..|a|] == a && Key(b, interval)[..|b|] == b;
  }

  predicate Complete(checkpoint: map<string, int>, job: Job, symbol: string) {
    Key(symbol, job.interval) in checkpoint && checkpoint[Key(symbol, job.interval)] >= EndDay(job)
  }

  function Mark(w: World, job: Job, symbol: string, saved: bool): World {
    var memory := w.memory[Key(symbol, job.interval) := EndDay(job)];
    World(w.archive, if saved then memory else w.disk, memory)
  }

  function Write(w: World, job: Job, symbol: string, limit: nat): (World, bool) {
    var f := Wanted(job, symbol);
    var (archive, ok) := PutDays(w.archive, symbol, f, Reached(Days(f), limit));
    (w.(archive := archive), ok)
  }

  function Attempt(w: World, job: Job, turn: Turn): (World, Outcome) {
    if Complete(w.memory, job, turn.symbol) then (w, Skipped)
    else match turn.fault
      case FetchFails => (w, Failed)
      case WriteStops(n) => (Write(w, job, turn.symbol, n).0, Failed)
      case _ =>
        var (w', ok) := Write(w, job, turn.symbol, |Days(Wanted(job, turn.symbol))|);
        if !ok then (w', Failed)
        else if turn.fault == SaveFails then (Mark(w', job, turn.symbol, false), Failed)
        else (Mark(w', job, turn.symbol, true), Done)
  }

  /** A crash keeps what is on disk; the next process starts from the file. */
  function Reopen(w: World): World {
    w.(memory := w.disk)
  }

  function TakeTurn(w: World, job: Job, turn: Turn): (World, Outcome) {
    var (w', outcome) := Attempt(w, job, turn);
    if outcome == Failed && turn.crash then (Reopen(w'), Crashed) else (w', outcome)
  }

  /** One process works through its symbols; a crash ends it. */
  function RunTurns(w: World, job: Job, turns: seq<Turn>): World
    decreases |turns|
  {
    if |turns| == 0 then w
    else
      var (w', outcome) := TakeTurn(w, job, turns[0]);
      if outcome == Crashed then w' else RunTurns(w', job, turns[1..])
  }

  /** What such a run reports, symbol by symbol. */
  function Report(w: World, job: Job, turns: seq<Turn>): seq<Outcome>
    decreases |turns|
  {
    if |turns| == 0 then []
    else
      var (w', outcome) := TakeTurn(w, job, turns[0]);
      [outcome] + if outcome == Crashed then [] else Report(w', job, turns[1..])
  }

  /** Any number of processes, one after another. */
  function RunAll(w: World, job: Job, runs: seq<seq<Turn>>): World
    decreases |runs|
  {
    if |runs| == 0 then w else RunAll(RunTurns(Reopen(w), job, runs[0]), job, runs[1..])
  }

  function Clean(symbols: seq<string>): seq<Turn> {
    seq(|symbols|, i requires 0 <= i < |symbols| => Turn(symbols[i], NoFault, false))
  }

  // ---- what a run reports ----

  /** The archive refuses no day of what the job wants of this symbol. */
  ghost predicate AdmitsAll(archive: Partitions, job: Job, s: string) {
    forall day :: day in Days(Wanted(job, s)) ==> Admits(archive, (s, day), DayGroup(Wanted(job, s), day))
  }

  lemma WriteOkIff(w: World, job: Job, s: string)
    ensures Write(w, job, s, |Days(Wanted(job, s))|).1 <==> AdmitsAll(w.archive, job, s)
  {
    var f := Wanted(job, s);
    DaysAre(f);
    WriteSucceedsIff(w.archive, s, f, Days(f));
    if Write(w, job, s, |Days(f)|).1 {
      forall day | day in Days(f) ensures Admits(w.archive, (s, day), DayGroup(f, day)) {
        var i :| 0 <= i < |Days(f)| && Days(f)[i] == day;
        assert Admits(w.archive, (s, Days(f)[i]), DayGroup(f, Days(f)[i]));
      }
    }
  }

  /** Nothing is to go wrong with this turn: no fault strikes and the archive refuses no wanted day. */
  ghost predicate Unhindered(w: World, job: Job, turn: Turn) {
    turn.fault == NoFault && AdmitsAll(w.archive, job, turn.symbol)
  }

  /** A symbol is skipped if complete, else done exactly when nothing hinders it, else failed or crashed. */
  ghost predicate Means(w: World, job: Job, turn: Turn, outcome: Outcome) {
    match outcome
    case Skipped => Complete(w.memory, job, turn.symbol)
    case Done => !Complete(w.memory, job, turn.symbol) && Unhindered(w, job, turn)
    case Failed => !Complete(w.memory, job, turn.symbol) && !Unhindered(w, job, turn) && !turn.crash
    case Crashed => !Complete(w.memory, job, turn.symbol) && !Unhindered(w, job, turn) && turn.crash
  }

  /** A refused write, a failed fetch, an interrupted write and a lost save are all failures, and nothing else is. */
  lemma TurnOutcome(w: World, job: Job, turn: Turn)
    ensures forall outcome :: TakeTurn(w, job, turn).1 == outcome <==> Means(w, job, turn, outcome)
  {
    WriteOkIff(w, job, turn.symbol);
  }

  /** A run taken up to some turn and on from there. */
  lemma {:induction false} ReportAt(w: World, job: Job, turns: seq<Turn>, i: nat)
    requires i < |Report(w, job, turns)|
    ensures i < |turns| && Report(w, job, turns)[i] == TakeTurn(RunTurns(w, job, turns[..i]), job, turns[i]).1
    decreases |turns|
  {
    if i > 0 {
      var w' := TakeTurn(w, job, turns[0]).0;
      ReportAt(w', job, turns[1..], i - 1);
      assert turns[..i][1..] == turns[1..][..i - 1];
    }
  }

  lemma {:induction false} ReportLength(w: World, job: Job, turns: seq<Turn>)
    ensures |Report(w, job, turns)| <= |turns| && (|turns| > 0 ==> |Report(w, job, turns)| > 0)
    ensures forall i: nat :: i + 1 < |Report(w, job, turns)| ==> Report(w, job, turns)[i] != Crashed
    ensures |Report(w, job, turns)| < |turns| ==> Report(w, job, turns)[|Report(w, job, turns)| - 1] == Crashed
    decreases |turns|
  {
    if |turns| > 0 {
      var (w', outcome) := TakeTurn(w, job, turns[0]);
      if outcome != Crashed {
        ReportLength(w', job, turns[1..]);
      }
    }
  }

  /** The report has one outcome per symbol, up to a crash if there is one, each of what its turn met. */
  lemma ReportMeans(w: World, job: Job, turns: seq<Turn>)
    ensures |Report(w, job, turns)| <= |turns|
    ensures forall i: nat :: i < |Report(w, job, turns)| ==>
      Means(RunTurns(w, job, turns[..i]), job, turns[i], Report(w, job, turns)[i])
    ensures |Report(w, job, turns)| < |turns| <==>
      exists i :: 0 <= i < |Report(w, job, turns)| && i + 1 < |turns| && Report(w, job, turns)[i] == Crashed
    ensures forall i: nat :: i + 1 < |Report(w, job, turns)| ==> Report(w, job, turns)[i] != Crashed
  {
    ReportLength(w, job, turns);
    forall i: nat | i < |Report(w, job, turns)|
      ensures Means(RunTurns(w, job, turns[..i]), job, turns[i], Report(w, job, turns)[i])
    {
      ReportAt(w, job, turns, i);
      TurnOutcome(RunTurns(w, job, turns[..i]), job, turns[i]);
    }
  }

  lemma {:induction false} RunSplits(w: World, job: Job, turns: seq<Turn>, i: nat)
    requires i < |Report(w, job, turns)| && i < |turns|
    ensures var (w', outcome) := TakeTurn(RunTurns(w, job, turns[..i]), job, turns[i]);
      RunTurns(w, job, turns) == if outcome == Crashed then w' else RunTurns(w', job, turns[i + 1..])
    decreases |turns|
  {
    if i > 0 {
      var w' := TakeTurn(w, job, turns[0]).0;
      RunSplits(w', job, turns[1..], i - 1);
      assert turns[..i][1..] == turns[1..][..i - 1];
      assert turns[1..][i..] == turns[i + 1..];
    }
  }

  // ---- the invariant every step keeps ----

  ghost predicate Archived(archive: Partitions, job: Job, symbol: string) {
    forall day :: day in Days(Wanted(job, symbol)) ==> (symbol, day) in archive
  }

  ghost predicate Partition(job: Job, key: (string, int), group: Frame) {
    key.1 in Days(Wanted(job, key.0)) && group == DayGroup(Wanted(job, key.0), key.1)
  }

  ghost predicate Faithful(archive: Partitions, job: Job) {
    forall key :: key in archive ==> Partition(job, key, archive[key])
  }

  ghost predicate Keeps(archive: Partitions, archive': Partitions) {
    forall key :: key in archive ==> key in archive' && archive'[key] == archive[key]
  }

  /** Every partition is the wanted one, and a checkpoint is never ahead of the archive. */
  ghost predicate Sound(w: World, job: Job) {
    && Faithful(w.archive, job)
    && (forall s :: Complete(w.memory, job, s) ==> Archived(w.archive, job, s))
    && (forall key :: key in w.disk ==> key in w.memory && w.memory[key] >= w.disk[key])
  }

  /** Nothing on disk is lost or replaced, and the checkpoint file never moves back. */
  ghost predicate Grows(w: World, w': World) {
    && Keeps(w.archive, w'.archive)
    && (forall key :: key in w.disk ==> key in w'.disk && w'.disk[key] >= w.disk[key])
  }

  lemma PutWanted(archive: Partitions, job: Job, symbol: string, f: Frame, days: seq<int>)
    requires f == Wanted(job, symbol) && Ascending(days) && forall d :: d in days ==> d in Days(f)
    requires Faithful(archive, job)
    ensures var (q, ok) := PutDays(archive, symbol, f, days);
      && ok && Faithful(q, job) && Keeps(archive, q)
      && (forall d :: d in days ==> (symbol, d) in q)
      && forall key :: key in q && key !in archive ==> key.0 == symbol
  {
    forall i | 0 <= i < |days| ensures Admits(archive, (symbol, days[i]), DayGroup(f, days[i])) {
      var key := (symbol, days[i]);
      assert key in archive ==> Partition(job, key, archive[key]);
    }
    WriteSucceedsIff(archive, symbol, f, days);
    WritesNeverChangeHistory(archive, symbol, f, days);
    forall d | d in days ensures (symbol, d) in PutDays(archive, symbol, f, days).0 {
      var i :| 0 <= i < |days| && days[i] == d;
      assert (symbol, days[i]) in PutDays(archive, symbol, f, days).0;
    }
  }

  /** A write under the invariant is never refused, and adds only wanted partitions of its symbol. */
  lemma WriteFaithful(w: World, job: Job, symbol: string, limit: nat)
    requires Faithful(w.archive, job)
    ensures var (w', ok) := Write(w, job, symbol, limit);
      && ok && Faithful(w'.archive, job) && Keeps(w.archive, w'.archive) && w'.disk == w.disk && w'.memory == w.memory
      && (limit >= |Days(Wanted(job, symbol))| ==> Archived(w'.archive, job, symbol))
      && forall key :: key in w'.archive && key !in w.archive ==> key.0 == symbol
  {
    var f := Wanted(job, symbol);
    DaysAre(f);
    ReachedDays(Days(f), limit);
    PutWanted(w.archive, job, symbol, f, Reached(Days(f), limit));
  }

  lemma WriteSound(w: World, job: Job, symbol: string, limit: nat)
    requires Sound(w, job)
    ensures var (w', ok) := Write(w, job, symbol, limit);
      && ok && Sound(w', job) && Grows(w, w') && w'.disk == w.disk && w'.memory == w.memory
      && (limit >= |Days(Wanted(job, symbol))| ==> Archived(w'.archive, job, symbol))
  {
    WriteFaithful(w, job, symbol, limit);
    var w' := Write(w, job, symbol, limit).0;
    forall s | Complete(w'.memory, job, s) ensures Archived(w'.archive, job, s) {
      assert Archived(w.archive, job, s);
    }
  }

  lemma MarkSound(w: World, job: Job, symbol: string, saved: bool)
    requires Sound(w, job) && Archived(w.archive, job, symbol) && !Complete(w.memory, job, symbol)
    ensures Sound(Mark(w, job, symbol, saved), job) && Grows(w, Mark(w, job, symbol, saved))
  {
    var w' := Mark(w, job, symbol, saved);
    forall s | Complete(w'.memory, job, s) ensures Archived(w'.archive, job, s) {
      if Key(s, job.interval) == Key(symbol, job.interval) {
        KeysOfSymbols(s, symbol, job.interval);
      }
    }
  }

  lemma AttemptSound(w: World, job: Job, turn: Turn)
    requires Sound(w, job)
    ensures Sound(Attempt(w, job, turn).0, job) && Grows(w, Attempt(w, job, turn).0)
  {
    if !Complete(w.memory, job, turn.symbol) && turn.fault != FetchFails {
      var limit := if turn.fault.WriteStops? then turn.fault.written else |Days(Wanted(job, turn.symbol))|;
      WriteSound(w, job, turn.symbol, limit);
      if !turn.fault.WriteStops? {
        MarkSound(Write(w, job, turn.symbol, limit).0, job, turn.symbol, turn.fault != SaveFails);
      }
    }
  }

  lemma ReopenSound(w: World, job: Job)
    requires Sound(w, job)
    ensures Sound(Reopen(w), job)
  {
  }

  /** Every turn, faulty or not, keeps the invariant and only grows what is on disk. */
  lemma TurnSound(w: World, job: Job, turn: Turn)
    requires Sound(w, job)
    ensures Sound(TakeTurn(w, job, turn).0, job) && Grows(w, TakeTurn(w, job, turn).0)
  {
    AttemptSound(w, job, turn);
    ReopenSound(Attempt(w, job, turn).0, job);
  }

  lemma {:induction false} RunSound(w: World, job: Job, turns: seq<Turn>)
    requires Sound(w, job)
    ensures Sound(RunTurns(w, job, turns), job) && Grows(w, RunTurns(w, job, turns))
    decreases |turns|
  {
    if |turns| > 0 {
      TurnSound(w, job, turns[0]);
      var (w', outcome) := TakeTurn(w, job, turns[0]);
      if outcome != Crashed {
        RunSound(w', job, turns[1..]);
      }
    }
  }

  /** Over every sequence of runs, crashes and failures: no partition ever changes and no checkpoint runs ahead. */
  lemma {:induction false} AllRunsSound(w: World, job: Job, runs: seq<seq<Turn>>)
    requires Sound(w, job)
    ensures Sound(RunAll(w, job, runs), job) && Grows(w, RunAll(w, job, runs))
    decreases |runs|
  {
    if |runs| > 0 {
      RunSound(Reopen(w), job, runs[0]);
      AllRunsSound(RunTurns(Reopen(w), job, runs[0]), job, runs[1..]);
    }
  }

  // ---- recovery: interrupted runs and one clean run amount to one uninterrupted run ----

  const FRESH := World(map[], map[], map[])

  /** The checkpoint keys of these symbols. */
  ghost function Keys(job: Job, symbols: set<string>): (r: set<string>)
    ensures forall s :: s in symbols ==> Key(s, job.interval) in r
    ensures forall key :: key in r ==> exists s :: s in symbols && key == Key(s, job.interval)
  {
    set s | s in symbols :: Key(s, job.interval)
  }

  /** Only these symbols have been touched, and only this range has been checkpointed. */
  ghost predicate Owned(w: World, job: Job, symbols: set<string>) {
    && (forall key :: key in w.archive ==> key.0 in symbols)
    && (forall key :: key in w.memory ==> key in Keys(job, symbols) && w.memory[key] == EndDay(job))
    && (forall key :: key in w.disk ==> key in Keys(job, symbols) && w.disk[key] == EndDay(job))
  }

  ghost predicate Tidy(w: World, job: Job, symbols: set<string>) {
    Sound(w, job) && Owned(w, job, symbols)
  }

  lemma WriteOwned(w: World, job: Job, symbols: set<string>, symbol: string, limit: nat)
    requires Faithful(w.archive, job) && Owned(w, job, symbols) && symbol in symbols
    ensures Owned(Write(w, job, symbol, limit).0, job, symbols)
  {
    WriteFaithful(w, job, symbol, limit);
    var w' := Write(w, job, symbol, limit).0;
    forall key | key in w'.archive ensures key.0 in symbols {
    }
  }

  lemma MarkOwned(w: World, job: Job, symbols: set<string>, symbol: string, saved: bool)
    requires Owned(w, job, symbols) && symbol in symbols
    ensures Owned(Mark(w, job, symbol, saved), job, symbols)
  {
  }

  lemma TurnOwned(w: World, job: Job, symbols: set<string>, turn: Turn)
    requires Faithful(w.archive, job) && Owned(w, job, symbols) && turn.symbol in symbols
    ensures Owned(TakeTurn(w, job, turn).0, job, symbols)
  {
    if !Complete(w.memory, job, turn.symbol) && turn.fault != FetchFails {
      var limit := if turn.fault.WriteStops? then turn.fault.written else |Days(Wanted(job, turn.symbol))|;
      WriteOwned(w, job, symbols, turn.symbol, limit);
      if !turn.fault.WriteStops? {
        MarkOwned(Write(w, job, turn.symbol, limit).0, job, symbols, turn.symbol, turn.fault != SaveFails);
      }
    }
  }

  lemma TurnTidy(w: World, job: Job, symbols: set<string>, turn: Turn)
    requires Tidy(w, job, symbols) && turn.symbol in symbols
    ensures Tidy(TakeTurn(w, job, turn).0, job, symbols)
  {
    TurnSound(w, job, turn);
    TurnOwned(w, job, symbols, turn);
  }

  lemma {:induction false} RunTidy(w: World, job: Job, symbols: set<string>, turns: seq<Turn>)
    requires Tidy(w, job, symbols) && forall i :: 0 <= i < |turns| ==> turns[i].symbol in symbols
    ensures Tidy(RunTurns(w, job, turns), job, symbols)
    decreases |turns|
  {
    if |turns| > 0 {
      TurnTidy(w, job, symbols, turns[0]);
      var (w', outcome) := TakeTurn(w, job, turns[0]);
      if outcome != Crashed {
        RunTidy(w', job, symbols, turns[1..]);
      }
    }
  }

  ghost predicate Within(runs: seq<seq<Turn>>, symbols: set<string>) {
    forall i, j :: 0 <= i < |runs| && 0 <= j < |runs[i]| ==> runs[i][j].symbol in symbols
  }

  lemma {:induction false} AllRunsTidy(w: World, job: Job, symbols: set<string>, runs: seq<seq<Turn>>)
    requires Tidy(w, job, symbols) && Within(runs, symbols)
    ensures Tidy(RunAll(w, job, runs), job, symbols)
    decreases |runs|
  {
    if |runs| > 0 {
      forall j | 0 <= j < |runs[0]| ensures runs[0][j].symbol in symbols {
      }
      RunTidy(Reopen(w), job, symbols, runs[0]);
      forall i, j | 0 <= i < |runs[1..]| && 0 <= j < |runs[1..][i]| ensures runs[1..][i][j].symbol in symbols {
        assert runs[1..][i] == runs[i + 1];
      }
      AllRunsTidy(RunTurns(Reopen(w), job, runs[0]), job, symbols, runs[1..]);
    }
  }

  /** A clean turn leaves its symbol complete on disk, and the file equal to memory. */
  lemma CleanTurn(w: World, job: Job, symbol: string)
    requires Sound(w, job) && w.memory == w.disk
    ensures var (w', outcome) := TakeTurn(w, job, Turn(symbol, NoFault, false));
      && outcome in {Skipped, Done} && w'.memory == w'.disk && Complete(w'.disk, job, symbol)
      && Sound(w', job) && Grows(w, w')
  {
    TurnSound(w, job, Turn(symbol, NoFault, false));
    WriteSound(w, job, symbol, |Days(Wanted(job, symbol))|);
  }

  /** A clean run completes every symbol it is given, whatever state faulty runs left behind. */
  lemma {:induction false} CleanRunCompletes(w: World, job: Job, symbols: seq<string>)
    requires Sound(w, job) && w.memory == w.disk
    ensures var w' := RunTurns(w, job, Clean(symbols));
      && Sound(w', job) && Grows(w, w') && w'.memory == w'.disk
      && forall s :: s in symbols ==> Complete(w'.disk, job, s)
    decreases |symbols|
  {
    if |symbols| > 0 {
      CleanTurn(w, job, symbols[0]);
      assert Clean(symbols)[1..] == Clean(symbols[1..]);
      var w' := TakeTurn(w, job, Turn(symbols[0], NoFault, false)).0;
      CleanRunCompletes(w', job, symbols[1..]);
      assert symbols == [symbols[0]] + symbols[1..];
    }
  }

  lemma SettledKeeps(a: World, b: World, job: Job, symbols: set<string>)
    requires Faithful(a.archive, job) && Faithful(b.archive, job) && Owned(a, job, symbols)
    requires forall s :: s in symbols ==> Archived(b.archive, job, s)
    ensures Keeps(a.archive, b.archive)
  {
    forall key | key in a.archive ensures key in b.archive && b.archive[key] == a.archive[key] {
      assert Partition(job, key, a.archive[key]);
      assert Archived(b.archive, job, key.0);
      assert (key.0, key.1) == key;
      assert Partition(job, key, b.archive[key]);
    }
  }

  lemma SameArchive(a: Partitions, b: Partitions)
    requires Keeps(a, b) && Keeps(b, a)
    ensures a == b
  {
  }

  lemma SameCheckpoint(a: map<string, int>, b: map<string, int>, keys: set<string>, day: int)
    requires a.Keys == keys == b.Keys
    requires forall key :: key in keys ==> a[key] == day == b[key]
    ensures a == b
  {
  }

  lemma CompletedKeys(checkpoint: map<string, int>, job: Job, symbols: set<string>)
    requires forall key :: key in checkpoint ==> key in Keys(job, symbols)
    requires forall s :: s in symbols ==> Complete(checkpoint, job, s)
    ensures checkpoint.Keys == Keys(job, symbols)
  {
    forall key | key in Keys(job, symbols) ensures key in checkpoint {
      var s :| s in symbols && key == Key(s, job.interval);
      assert Complete(checkpoint, job, s);
    }
  }

  lemma SettledUnique(a: World, b: World, job: Job, symbols: set<string>)
    requires Tidy(a, job, symbols) && Tidy(b, job, symbols) && a.memory == a.disk && b.memory == b.disk
    requires forall s :: s in symbols ==> Complete(a.disk, job, s) && Complete(b.disk, job, s)
    ensures a == b
  {
    SettledKeeps(a, b, job, symbols);
    SettledKeeps(b, a, job, symbols);
    SameArchive(a.archive, b.archive);
    CompletedKeys(a.disk, job, symbols);
    CompletedKeys(b.disk, job, symbols);
    SameCheckpoint(a.disk, b.disk, Keys(job, symbols), EndDay(job));
  }

  /**
   * The resume guarantee: after any interrupted runs, one clean run leaves the same archive and the same
   * checkpoint file as a single uninterrupted run from nothing.
   */
  lemma RecoveryIsExact(job: Job, runs: seq<seq<Turn>>, symbols: seq<string>)
    requires Within(runs, set s | s in symbols)
    ensures RunTurns(Reopen(RunAll(FRESH, job, runs)), job, Clean(symbols)) == RunTurns(FRESH, job, Clean(symbols))
  {
    var all := set s | s in symbols;
    AllRunsTidy(FRESH, job, all, runs);
    var w := Reopen(RunAll(FRESH, job, runs));
    RunTidy(w, job, all, Clean(symbols));
    RunTidy(FRESH, job, all, Clean(symbols));
    CleanRunCompletes(w, job, symbols);
    CleanRunCompletes(FRESH, job, symbols);
    SettledUnique(RunTurns(w, job, Clean(symbols)), RunTurns(FRESH, job, Clean(symbols)), job, all);
  }

  /** What that state is: each symbol's wanted frame, stored whole, and its end day in the file. */
  lemma UninterruptedRun(job: Job, symbols: seq<string>, s: string)
    requires s in symbols
    ensures var w := RunTurns(FRESH, job, Clean(symbols));
      && Stores(w.archive, s, Wanted(job, s))
      && Key(s, job.interval) in w.disk && w.disk[Key(s, job.interval)] == Day(job.end)
      && w.disk.Keys == Keys(job, set x | x in symbols)
  {
    var all := set x | x in symbols;
    var w := RunTurns(FRESH, job, Clean(symbols));
    RunTidy(FRESH, job, all, Clean(symbols));
    CleanRunCompletes(FRESH, job, symbols);
    CompletedKeys(w.disk, job, all);
    assert Complete(w.disk, job, s);
    assert Archived(w.archive, job, s);
    forall day | (s, day) in w.archive ensures day in Days(Wanted(job, s)) {
      assert Partition(job, (s, day), w.archive[(s, day)]);
    }
    forall day | day in Days(Wanted(job, s)) ensures w.archive[(s, day)] == DayGroup(Wanted(job, s), day) {
      assert Partition(job, (s, day), w.archive[(s, day)]);
    }
  }

  // ---- a job whose end day is already completed ----

  ghost predicate SameGroups(f: Frame, g: Frame) {
    forall day :: (day in Days(f) <==> day in Days(g)) && (day in Days(f) ==> DayGroup(f, day) == DayGroup(g, day))
  }

  lemma StoresBoth(p: Partitions, s: string, f: Frame, g: Frame)
    requires Stores(p, s, f)
    ensures Stores(p, s, g) <==> SameGroups(f, g)
  {
  }

  /** Every day of this frame is stored with its bars. */
  ghost predicate Holds(p: Partitions, s: string, f: Frame) {
    forall day :: day in Days(f) ==> (s, day) in p && p[(s, day)] == DayGroup(f, day)
  }

  ghost predicate Covers(f: Frame, g: Frame) {
    forall day :: day in Days(g) ==> day in Days(f) && DayGroup(f, day) == DayGroup(g, day)
  }

  /**
   * Resume is by day: whatever the archive and however its turns would go wrong, a symbol whose completed day is not
   * before the job's end day is skipped, so of what the job wants the archive holds what an earlier job stored.
   */
  lemma {:induction false} CompletedDaySkipped(w: World, job: Job, s: string, turns: seq<Turn>, stored: Frame)
    requires Complete(w.memory, job, s) && Stores(w.archive, s, stored)
    requires forall i :: 0 <= i < |turns| ==> turns[i].symbol == s
    ensures RunTurns(w, job, turns) == w
    ensures Holds(w.archive, s, Wanted(job, s)) <==> Covers(stored, Wanted(job, s))
    ensures Stores(w.archive, s, Wanted(job, s)) <==> SameGroups(stored, Wanted(job, s))
    decreases |turns|
  {
    if |turns| > 0 {
      assert TakeTurn(w, job, turns[0]) == (w, Skipped);
      CompletedDaySkipped(w, job, s, turns[1..], stored);
    }
    StoresBoth(w.archive, s, stored, Wanted(job, s));
  }

  // ---- the objects ----

  class JsonBackfillCheckpoint {
    var state: map<string, int>
    var file: map<string, int>

    constructor (onDisk: map<string, int>)
      ensures state == file == onDisk
    {
      file := onDisk;
      state := onDisk;
    }

    /** The next process's load. */
    method Load()
      modifies this`state
      ensures state == file
    {
      state := file;
    }

    /** Memory first, then the whole map replaces the file in one step, unless the save fails. */
    method MarkCompleted(symbol: string, interval: string, through: int, saves: bool)
      modifies this
      ensures state == old(state)[Key(symbol, interval) := through]
      ensures file == if saves then state else old(file)
    {
      state := state[Key(symbol, interval) := through];
      if saves {
        file := state;
      }
    }
  }

  /** After i turns: what is left to run and to report completes the whole. */
  ghost predicate Progress(start: World, job: Job, turns: seq<Turn>, i: nat, w: World, report: seq<Outcome>)
    requires i <= |turns|
  {
    && RunTurns(w, job, turns[i..]) == RunTurns(start, job, turns)
    && report + Report(w, job, turns[i..]) == Report(start, job, turns)
  }

  lemma ProgressStep(start: World, job: Job, turns: seq<Turn>, i: nat, w: World, report: seq<Outcome>)
    requires i < |turns| && Progress(start, job, turns, i, w, report)
    ensures var (w', outcome) := TakeTurn(w, job, turns[i]);
      if outcome == Crashed then w' == RunTurns(start, job, turns) && report + [outcome] == Report(start, job, turns)
      else Progress(start, job, turns, i + 1, w', report + [outcome])
  {
    var rest := turns[i..];
    assert rest[0] == turns[i] && rest[1..] == turns[i + 1..];
    var (w', outcome) := TakeTurn(w, job, turns[i]);
    if outcome != Crashed {
      var later := Report(w', job, turns[i + 1..]);
      assert report + ([outcome] + later) == report + [outcome] + later;
    }
  }

  class BackfillJob {
    const job: Job
    const chunkDays: int
    const archive: ParquetArchive
    const checkpoint: JsonBackfillCheckpoint

    constructor (job: Job, chunkDays: int, archive: ParquetArchive, checkpoint: JsonBackfillCheckpoint)
      requires chunkDays > 0
      ensures this.job == job && this.chunkDays == chunkDays && this.archive == archive && this.checkpoint == checkpoint
    {
      this.job, this.chunkDays, this.archive, this.checkpoint := job, chunkDays, archive, checkpoint;
    }

    ghost function State(): World
      reads archive, checkpoint
    {
      World(archive.partitions, checkpoint.file, checkpoint.state)
    }

    method DoSymbol(symbol: string, fault: Fault, crash: bool) returns (outcome: Outcome)
      requires job.start <= job.end && chunkDays > 0
      modifies archive, checkpoint
      ensures (State(), outcome) == Attempt(old(State()), job, Turn(symbol, fault, crash))
    {
      var endDay := Day(job.end);
      var key := Key(symbol, job.interval);
      if key in checkpoint.state && checkpoint.state[key] >= endDay {
        return Skipped;
      }
      var chunks := IterChunks(job.start, job.end, chunkDays);
      if fault == FetchFails {
        return Failed;
      }
      var accumulated := ConcatBars(FetchAll(job, symbol, chunks));
      PaginationInvisible(job, symbol, chunks, chunkDays);
      var limit := if fault.WriteStops? then fault.written else |Days(accumulated)|;
      var ok := archive.WriteBars(symbol, accumulated, limit);
      if !ok || fault.WriteStops? {
        return Failed;
      }
      checkpoint.MarkCompleted(symbol, job.interval, endDay, fault != SaveFails);
      outcome := if fault == SaveFails then Failed else Done;
    }

    method DoTurn(turn: Turn) returns (outcome: Outcome)
      requires job.start <= job.end && chunkDays > 0
      modifies archive, checkpoint
      ensures (State(), outcome) == TakeTurn(old(State()), job, turn)
    {
      outcome := DoSymbol(turn.symbol, turn.fault, turn.crash);
      if outcome == Failed && turn.crash {
        checkpoint.Load();
        outcome := Crashed;
      }
    }

    /** Isolates each symbol's failure; a crash ends the loop and loses the memory of the process. */
    method Run(turns: seq<Turn>) returns (accepted: bool, report: seq<Outcome>)
      requires chunkDays > 0
      modifies archive, checkpoint
      ensures accepted == (job.start <= job.end)
      ensures State() == if accepted then RunTurns(old(State()), job, turns) else old(State())
      ensures report == if accepted then Report(old(State()), job, turns) else []
    {
      accepted, report := job.start <= job.end, [];
      if !accepted {
        return;
      }
      assert turns[0..] == turns;
      var i := 0;
      while i < |turns|
        invariant 0 <= i <= |turns|
        invariant Progress(old(State()), job, turns, i, State(), report)
      {
        ProgressStep(old(State()), job, turns, i, State(), report);
        var outcome := DoTurn(turns[i]);
        report := report + [outcome];
        if outcome == Crashed {
          return;
        }
        i := i + 1;
      }
    }
  }
}
