/**
 * The hash-chained audit log (src/quant/core/audit.py). The hash is a parameter; writing and reading back a line is
 * exact.
 */
module Audit {
  import opened Wrappers

  type Data = map<string, string>

  /** What an entry's hash covers. */
  datatype Content = Content(
    seqNo: int, timestamp: string, correlationId: Option<string>, action: string, data: Data, prevHash: string)

  datatype Entry = Entry(content: Content, entryHash: string)

  type Hash = Content -> string

  function Repeated(c: char, n: nat): (r: string)
    ensures |r| == n
  {
    seq(n, _ => c)
  }

  function Genesis(): string {
    Repeated('0', 64)
  }

  function Head(entries: seq<Entry>): string {
    if |entries| == 0 then Genesis() else entries[|entries| - 1].entryHash
  }

  function LastSeq(entries: seq<Entry>): int {
    if |entries| == 0 then 0 else entries[|entries| - 1].content.seqNo
  }

  /** Entry i is in order, linked to the one before it, and carries its own content's hash. */
  ghost predicate Linked(hash: Hash, entries: seq<Entry>, i: nat)
    requires i < |entries|
  {
    var c := entries[i].content;
    c.seqNo == i + 1 && c.prevHash == Head(entries[..i]) && hash(c) == entries[i].entryHash
  }

  ghost predicate Chained(hash: Hash, entries: seq<Entry>) {
    forall i :: 0 <= i < |entries| ==> Linked(hash, entries, i)
  }

  /** The file on disk; several handles may be open on it. */
  class LogFile {
    var entries: seq<Entry>

    constructor ()
      ensures entries == []
    {
      entries := [];
    }
  }

  /** What a handle believes the end of the log to be. */
  datatype Cursor = Cursor(seqNo: int, hash: string)

  function End(entries: seq<Entry>): Cursor {
    Cursor(LastSeq(entries), Head(entries))
  }

  function NextEntry(hash: Hash, at: Cursor, timestamp: string, correlationId: Option<string>, action: string,
                     data: Data): Entry {
    var c := Content(at.seqNo + 1, timestamp, correlationId, action, data, at.hash);
    Entry(c, hash(c))
  }

  lemma LinkedInPrefix(hash: Hash, entries: seq<Entry>, n: nat, i: nat)
    requires i < n <= |entries|
    ensures Linked(hash, entries[..n], i) <==> Linked(hash, entries, i)
  {
    assert entries[..n][..i] == entries[..i];
  }

  /** A verified log ends at the sequence number of its length. */
  lemma ChainedEnd(hash: Hash, entries: seq<Entry>)
    requires Chained(hash, entries)
    ensures LastSeq(entries) == |entries|
  {
    if |entries| > 0 {
      assert Linked(hash, entries, |entries| - 1);
    }
  }

  lemma AppendLinks(hash: Hash, entries: seq<Entry>, at: Cursor,
                    timestamp: string, correlationId: Option<string>, action: string, data: Data)
    ensures Chained(hash, entries + [NextEntry(hash, at, timestamp, correlationId, action, data)])
       <==> Chained(hash, entries) && at == End(entries)
  {
    var entry, n := NextEntry(hash, at, timestamp, correlationId, action, data), |entries|;
    var longer := entries + [entry];
    assert longer[..n] == entries;
    forall i | 0 <= i < n ensures Linked(hash, longer, i) <==> Linked(hash, entries, i) {
      LinkedInPrefix(hash, longer, n, i);
    }
    assert Linked(hash, longer, n) <==> at.seqNo == n && at.hash == Head(entries);
    if Chained(hash, entries) {
      ChainedEnd(hash, entries);
    }
    if Chained(hash, longer) {
      assert Linked(hash, longer, n);
      forall i | 0 <= i < n ensures Linked(hash, entries, i) {
        assert Linked(hash, longer, i);
      }
    }
  }

  class FileAuditLog {
    const file: LogFile
    const hash: Hash
    const redact: Data -> Data
    var lastSeq: int
    var lastHash: string

    function At(): Cursor
      reads this
    {
      Cursor(lastSeq, lastHash)
    }

    /** Opening resumes from whatever entry the file ends with. */
    constructor (file: LogFile, hash: Hash, redact: Data -> Data)
      ensures this.file == file && this.hash == hash && this.redact == redact
      ensures At() == End(file.entries)
    {
      this.file := file;
      this.hash := hash;
      this.redact := redact;
      lastSeq := LastSeq(file.entries);
      lastHash := Head(file.entries);
    }

    /** The log still verifies exactly when it did before and this handle was looking at its end. */
    method Append(action: string, data: Data, timestamp: string, correlationId: Option<string>) returns (entry: Entry)
      modifies this, file
      ensures entry == NextEntry(hash, old(At()), timestamp, correlationId, action, redact(data))
      ensures file.entries == old(file.entries) + [entry]
      ensures At() == End(file.entries)
      ensures Chained(hash, file.entries) <==> Chained(hash, old(file.entries)) && old(At()) == End(old(file.entries))
    {
      entry := NextEntry(hash, At(), timestamp, correlationId, action, redact(data));
      AppendLinks(hash, file.entries, At(), timestamp, correlationId, action, redact(data));
      file.entries := file.entries + [entry];
      lastSeq := entry.content.seqNo;
      lastHash := entry.entryHash;
    }

    method Verify() returns (ok: bool)
      ensures ok <==> Chained(hash, file.entries)
    {
      var prevHash, expected := Genesis(), 1;
      for i := 0 to |file.entries|
        invariant prevHash == Head(file.entries[..i]) && expected == i + 1
        invariant forall k :: 0 <= k < i ==> Linked(hash, file.entries, k)
      {
        var entry := file.entries[i];
        if entry.content.seqNo != expected || entry.content.prevHash != prevHash {
          assert !Linked(hash, file.entries, i);
          return false;
        }
        if hash(entry.content) != entry.entryHash {
          assert !Linked(hash, file.entries, i);
          return false;
        }
        prevHash, expected := entry.entryHash, expected + 1;
      }
      return true;
    }
  }

  // ---- building a log ----

  /** What a process can do: open one more handle, or append through one that is open. */
  datatype Step =
    | Open
    | Append(handle: nat, timestamp: string, correlationId: Option<string>, action: string, data: Data)

  datatype World = World(entries: seq<Entry>, handles: seq<Cursor>)

  function Do(hash: Hash, w: World, s: Step): World {
    match s
    case Open => w.(handles := w.handles + [End(w.entries)])
    case Append(h, timestamp, correlationId, action, data) =>
      if h >= |w.handles| then w
      else
        var entries := w.entries + [NextEntry(hash, w.handles[h], timestamp, correlationId, action, data)];
        World(entries, w.handles[h := End(entries)])
  }

  function Run(hash: Hash, steps: seq<Step>): World {
    if |steps| == 0 then World([], []) else Do(hash, Run(hash, steps[..|steps| - 1]), steps[|steps| - 1])
  }

  /** Step n appends through a handle that another handle's append has left behind. */
  ghost predicate StaleAppend(hash: Hash, steps: seq<Step>, n: nat)
    requires n < |steps|
  {
    var w := Run(hash, steps[..n]);
    steps[n].Append? && steps[n].handle < |w.handles| && w.handles[steps[n].handle] != End(w.entries)
  }

  lemma StepLinks(hash: Hash, w: World, s: Step)
    ensures Chained(hash, Do(hash, w, s).entries) <==>
      Chained(hash, w.entries) && !(s.Append? && s.handle < |w.handles| && w.handles[s.handle] != End(w.entries))
  {
    if s.Append? && s.handle < |w.handles| {
      AppendLinks(hash, w.entries, w.handles[s.handle], s.timestamp, s.correlationId, s.action, s.data);
    }
  }

  lemma {:induction false} VerifiedUpTo(hash: Hash, steps: seq<Step>, n: nat)
    requires n <= |steps|
    ensures Chained(hash, Run(hash, steps[..n]).entries) <==> forall i :: 0 <= i < n ==> !StaleAppend(hash, steps, i)
  {
    if n > 0 {
      VerifiedUpTo(hash, steps, n - 1);
      assert steps[..n][..n - 1] == steps[..n - 1];
      StepLinks(hash, Run(hash, steps[..n - 1]), steps[n - 1]);
      assert Run(hash, steps[..n]) == Do(hash, Run(hash, steps[..n - 1]), steps[n - 1]);
      assert Chained(hash, Run(hash, steps[..n]).entries)
        <==> Chained(hash, Run(hash, steps[..n - 1]).entries) && !StaleAppend(hash, steps, n - 1);
    }
  }

  /** Over every run, the log verifies if and only if no append went through a stale handle. */
  lemma VerifiedIff(hash: Hash, steps: seq<Step>)
    ensures Chained(hash, Run(hash, steps).entries) <==> forall i :: 0 <= i < |steps| ==> !StaleAppend(hash, steps, i)
  {
    VerifiedUpTo(hash, steps, |steps|);
    assert steps[..|steps|] == steps;
  }

  /** Only the most recently opened handle is used. */
  ghost predicate OneAtATime(hash: Hash, steps: seq<Step>) {
    forall n :: 0 <= n < |steps| && steps[n].Append? ==> steps[n].handle + 1 == |Run(hash, steps[..n]).handles|
  }

  lemma {:induction false} LastHandleIsCurrent(hash: Hash, steps: seq<Step>, n: nat)
    requires OneAtATime(hash, steps) && n <= |steps|
    ensures var w := Run(hash, steps[..n]); |w.handles| > 0 ==> w.handles[|w.handles| - 1] == End(w.entries)
  {
    if n > 0 {
      LastHandleIsCurrent(hash, steps, n - 1);
      assert steps[..n][..n - 1] == steps[..n - 1];
      assert steps[n - 1].Append? ==> steps[n - 1].handle + 1 == |Run(hash, steps[..n - 1]).handles|;
    }
  }

  lemma NotStale(hash: Hash, steps: seq<Step>, i: nat)
    requires OneAtATime(hash, steps) && i < |steps|
    ensures !StaleAppend(hash, steps, i)
  {
    LastHandleIsCurrent(hash, steps, i);
    assert steps[i].Append? ==> steps[i].handle + 1 == |Run(hash, steps[..i]).handles|;
  }

  /** So every interleaving of appends and reopenings by one writer at a time verifies. */
  lemma OneWriterVerifies(hash: Hash, steps: seq<Step>)
    requires OneAtATime(hash, steps)
    ensures Chained(hash, Run(hash, steps).entries)
  {
    forall i | 0 <= i < |steps| ensures !StaleAppend(hash, steps, i) {
      NotStale(hash, steps, i);
    }
    VerifiedIff(hash, steps);
  }

  /** Sequence numbers never run past the number of entries written, in the log or in any handle. */
  lemma {:induction false} NumbersBounded(hash: Hash, steps: seq<Step>)
    ensures var w := Run(hash, steps);
      LastSeq(w.entries) <= |w.entries| && forall h :: 0 <= h < |w.handles| ==> w.handles[h].seqNo <= |w.entries|
  {
    if |steps| > 0 {
      NumbersBounded(hash, steps[..|steps| - 1]);
    }
  }

  lemma RunTwoMore(hash: Hash, steps: seq<Step>, a: Step, b: Step)
    ensures Run(hash, steps + [a]) == Do(hash, Run(hash, steps), a)
    ensures Run(hash, steps + [a, b]) == Do(hash, Do(hash, Run(hash, steps), a), b)
  {
    assert (steps + [a])[..|steps|] == steps;
    assert (steps + [a, b])[..|steps| + 1] == steps + [a];
  }

  /** After any run, appending through one open handle and then another breaks the chain, whatever they write. */
  lemma TwoWritersBreak(hash: Hash, steps: seq<Step>, a: Step, b: Step)
    requires a.Append? && b.Append? && a.handle != b.handle
    requires a.handle < |Run(hash, steps).handles| && b.handle < |Run(hash, steps).handles|
    ensures !Chained(hash, Run(hash, steps + [a, b]).entries)
  {
    var w := Run(hash, steps);
    var w' := Do(hash, w, a);
    NumbersBounded(hash, steps);
    RunTwoMore(hash, steps, a, b);
    StepLinks(hash, w', b);
    if Chained(hash, w'.entries) {
      ChainedEnd(hash, w'.entries);
      assert w'.handles[b.handle].seqNo <= |w.entries| < LastSeq(w'.entries);
    }
  }

  /** The first entry of a verified log is number 1 and names sixty-four zeros as its predecessor's hash. */
  lemma FirstEntry(hash: Hash, entries: seq<Entry>)
    requires Chained(hash, entries) && |entries| > 0
    ensures entries[0].content.seqNo == 1 && entries[0].entryHash == hash(entries[0].content)
    ensures |entries[0].content.prevHash| == 64 && forall c :: c in entries[0].content.prevHash ==> c == '0'
  {
    assert Linked(hash, entries, 0);
  }

  // ---- tamper evidence ----

  ghost predicate CollisionFree(hash: Hash) {
    forall a, b :: hash(a) == hash(b) ==> a == b
  }

  lemma PrefixChained(hash: Hash, entries: seq<Entry>, n: nat)
    requires n <= |entries| && Chained(hash, entries)
    ensures Chained(hash, entries[..n])
  {
    forall i | 0 <= i < n ensures Linked(hash, entries[..n], i) {
      LinkedInPrefix(hash, entries, n, i);
    }
  }

  /** The head hash of a verified log fixes its length and every entry. */
  lemma {:induction false} HeadDeterminesLog(hash: Hash, a: seq<Entry>, b: seq<Entry>)
    requires CollisionFree(hash) && Chained(hash, a) && Chained(hash, b) && |a| > 0 && |b| > 0 && Head(a) == Head(b)
    ensures a == b
  {
    var n, m := |a| - 1, |b| - 1;
    assert Linked(hash, a, n) && Linked(hash, b, m);
    assert hash(a[n].content) == hash(b[m].content);
    assert a[n] == b[m];
    if n > 0 {
      PrefixChained(hash, a, n);
      PrefixChained(hash, b, n);
      HeadDeterminesLog(hash, a[..n], b[..n]);
    }
    assert a == a[..n] + [a[n]] && b == b[..n] + [b[n]];
  }

  /** Any edit, insertion, deletion or reordering fails verification or changes the head hash. */
  lemma TamperingShows(hash: Hash, original: seq<Entry>, tampered: seq<Entry>)
    requires CollisionFree(hash) && Chained(hash, original) && |original| > 0 && |tampered| > 0 && tampered != original
    ensures !Chained(hash, tampered) || Head(tampered) != Head(original)
  {
    if Chained(hash, tampered) && Head(tampered) == Head(original) {
      HeadDeterminesLog(hash, original, tampered);
    }
  }

  // ---- what verification alone does not see ----

  lemma {:induction false} SublogIsPrefix(hash: Hash, original: seq<Entry>, entries: seq<Entry>, n: nat)
    requires Chained(hash, original) && Chained(hash, entries) && n <= |entries|
    requires forall i :: 0 <= i < |entries| ==> entries[i] in original
    ensures n <= |original| && entries[..n] == original[..n]
  {
    if n > 0 {
      SublogIsPrefix(hash, original, entries, n - 1);
      assert entries[n - 1] in original;
      var k :| 0 <= k < |original| && original[k] == entries[n - 1];
      assert Linked(hash, entries, n - 1) && Linked(hash, original, k);
      assert entries[..n] == entries[..n - 1] + [entries[n - 1]];
      assert original[..n] == original[..n - 1] + [original[n - 1]];
    }
  }

  /**
   * Of the logs made of the original's own entries exactly its prefixes verify: deleting, reordering or repeating
   * entries shows, except for cutting some off the end.
   */
  lemma SublogVerifiesIff(hash: Hash, original: seq<Entry>, entries: seq<Entry>)
    requires Chained(hash, original) && forall i :: 0 <= i < |entries| ==> entries[i] in original
    ensures Chained(hash, entries) <==> entries <= original
  {
    if Chained(hash, entries) {
      SublogIsPrefix(hash, original, entries, |entries|);
      assert entries[..|entries|] == entries;
    }
    if entries <= original {
      PrefixChained(hash, original, |entries|);
      assert original[..|entries|] == entries;
    }
  }

  /** What an append is given. */
  datatype Payload = Payload(timestamp: string, correlationId: Option<string>, action: string, data: Data)

  function PayloadOf(e: Entry): Payload {
    Payload(e.content.timestamp, e.content.correlationId, e.content.action, e.content.data)
  }

  function Payloads(entries: seq<Entry>): (r: seq<Payload>)
    ensures |r| == |entries| && forall i :: 0 <= i < |r| ==> r[i] == PayloadOf(entries[i])
  {
    seq(|entries|, i requires 0 <= i < |entries| => PayloadOf(entries[i]))
  }

  /** The log that appending these payloads to an empty one writes. */
  function Rechained(hash: Hash, payloads: seq<Payload>): (r: seq<Entry>)
    ensures |r| == |payloads|
  {
    if |payloads| == 0 then []
    else
      var front, p := Rechained(hash, payloads[..|payloads| - 1]), payloads[|payloads| - 1];
      front + [NextEntry(hash, End(front), p.timestamp, p.correlationId, p.action, p.data)]
  }

  lemma LastLinks(hash: Hash, front: seq<Entry>, e: Entry)
    ensures var p := PayloadOf(e);
      Chained(hash, front + [e]) <==>
        Chained(hash, front) && e == NextEntry(hash, End(front), p.timestamp, p.correlationId, p.action, p.data)
  {
    var p, at := PayloadOf(e), Cursor(e.content.seqNo - 1, e.content.prevHash);
    AppendLinks(hash, front, at, p.timestamp, p.correlationId, p.action, p.data);
    if Chained(hash, front + [e]) {
      assert Linked(hash, front + [e], |front|);
    }
  }

  lemma RechainedLast(hash: Hash, front: seq<Entry>, e: Entry)
    ensures var before, p := Rechained(hash, Payloads(front)), PayloadOf(e);
      Rechained(hash, Payloads(front + [e]))
        == before + [NextEntry(hash, End(before), p.timestamp, p.correlationId, p.action, p.data)]
  {
    assert Payloads(front + [e])[..|front|] == Payloads(front);
  }

  ghost predicate IsRechained(hash: Hash, entries: seq<Entry>) {
    entries == Rechained(hash, Payloads(entries))
  }

  /** A longer log is what its payloads write exactly when the front is and the last entry is the next one. */
  lemma RechainedStep(hash: Hash, front: seq<Entry>, e: Entry)
    ensures var p := PayloadOf(e);
      IsRechained(hash, front + [e]) <==>
        IsRechained(hash, front) && e == NextEntry(hash, End(front), p.timestamp, p.correlationId, p.action, p.data)
  {
    var before := Rechained(hash, Payloads(front));
    RechainedLast(hash, front, e);
    assert |before| == |front|;
    if IsRechained(hash, front + [e]) {
      assert front == (front + [e])[..|front|] == before;
    }
  }

  /**
   * A log verifies if and only if it is what appending its own payloads writes: verification is of the hashes, not of
   * who wrote them.
   */
  lemma {:induction false} VerifiesIffRechained(hash: Hash, entries: seq<Entry>)
    ensures Chained(hash, entries) <==> IsRechained(hash, entries)
  {
    if |entries| > 0 {
      var front, e := entries[..|entries| - 1], entries[|entries| - 1];
      VerifiesIffRechained(hash, front);
      LastLinks(hash, front, e);
      RechainedStep(hash, front, e);
      assert entries == front + [e];
    }
  }

  lemma {:induction false} RechainedKeepsPayloads(hash: Hash, payloads: seq<Payload>)
    ensures Payloads(Rechained(hash, payloads)) == payloads
  {
    if |payloads| > 0 {
      RechainedKeepsPayloads(hash, payloads[..|payloads| - 1]);
      var front, all := Rechained(hash, payloads[..|payloads| - 1]), Rechained(hash, payloads);
      forall i | 0 <= i < |payloads| ensures PayloadOf(all[i]) == payloads[i] {
        if i < |front| {
          assert all[i] == front[i] && PayloadOf(front[i]) == Payloads(front)[i];
        }
      }
    }
  }

  /** The hash has no key, so any history at all can be written with its hashes recomputed, and verifies. */
  lemma RehashedHistoryPasses(hash: Hash, payloads: seq<Payload>)
    ensures var forged := Rechained(hash, payloads); Chained(hash, forged) && Payloads(forged) == payloads
  {
    RechainedKeepsPayloads(hash, payloads);
    VerifiesIffRechained(hash, Rechained(hash, payloads));
  }

  /** For one, the last entry replaced by other content in its place, its hash recomputed. */
  lemma RehashedLastEntryPasses(hash: Hash, original: seq<Entry>, c: Content)
    requires Chained(hash, original) && |original| > 0
    requires c.seqNo == |original| && c.prevHash == Head(original[..|original| - 1])
    ensures Chained(hash, original[..|original| - 1] + [Entry(c, hash(c))])
  {
    var front := original[..|original| - 1];
    PrefixChained(hash, original, |front|);
    ChainedEnd(hash, front);
    LastLinks(hash, front, Entry(c, hash(c)));
  }
}
