/**
 * The two model registries (src/quant/research/models/registry.py). Pickling and JSON are exact; the fingerprint and
 * Unicode's digits are parameters.
 */
module Registry {
  import opened Wrappers

  type Blob = seq<int>

  datatype Meta = Meta(
    dataVersion: string, featureSetVersion: string, labelVersion: string, createdAt: int, extras: map<string, string>)

  datatype Card = Card(modelId: string, name: string, version: nat, fingerprint: string, meta: Meta)

  datatype Registered = Registered(model: Blob, card: Card)

  datatype Registration = Registration(name: string, model: Blob, meta: Meta)

  datatype RegistryError = InvalidName | MalformedId | NotANumber | UnknownId | FingerprintMismatch

  // ---- ids ----

  function DigitChar(d: nat): char
    requires d < 10
  {
    "0123456789"[d]
  }

  predicate IsDigit(c: char) {
    '0' <= c <= '9'
  }

  predicate AllDigits(s: string) {
    forall i :: 0 <= i < |s| ==> IsDigit(s[i])
  }

  function Decimal(n: nat): (s: string)
    ensures |s| > 0 && AllDigits(s)
  {
    if n < 10 then [DigitChar(n)] else Decimal(n / 10) + [DigitChar(n % 10)]
  }

  /** At least four characters, zeros in front. */
  function Padded(s: string): (r: string)
    ensures |r| == (if |s| < 4 then 4 else |s|) && (AllDigits(s) ==> AllDigits(r))
    decreases 4 - |s|
  {
    if |s| < 4 then Padded("0" + s) else s
  }

  function FourDigits(version: nat): string {
    Padded(Decimal(version))
  }

  function ModelId(name: string, version: nat): string {
    name + "-" + FourDigits(version)
  }

  /** What Unicode makes of a character: no digit, a digit outside decimal numbers (a superscript), or a decimal. */
  datatype DigitKind = NotDigit | NotDecimal | DecimalDigit(value: nat)

  type Digits = char -> DigitKind

  /** The ASCII digits have their values and the hyphen is none; the other scripts are left open. */
  ghost predicate Lawful(digits: Digits) {
    digits('-') == NotDigit && forall c :: IsDigit(c) ==> digits(c) == DecimalDigit((c - '0') as nat)
  }

  predicate AllDecimal(digits: Digits, s: string) {
    forall i :: 0 <= i < |s| ==> digits(s[i]).DecimalDigit?
  }

  function ParseNumber(digits: Digits, s: string): nat
    requires AllDecimal(digits, s)
  {
    if |s| == 0 then 0 else 10 * ParseNumber(digits, s[..|s| - 1]) + digits(s[|s| - 1]).value
  }

  /** What stands before and after the last hyphen; nothing before when there is none. */
  function SplitLast(s: string): (r: (string, string))
    ensures |r.0| + |r.1| <= |s|
  {
    if |s| == 0 then ("", "")
    else if s[|s| - 1] == '-' then (s[..|s| - 1], "")
    else
      var (base, suffix) := SplitLast(s[..|s| - 1]);
      (base, suffix + [s[|s| - 1]])
  }

  /** A suffix of digits that are not all decimal passes the check and fails in the conversion. */
  function ParseModelId(digits: Digits, id: string): Result<(string, nat), RegistryError> {
    var (base, suffix) := SplitLast(id);
    if |base| == 0 || |suffix| == 0 || exists i :: 0 <= i < |suffix| && digits(suffix[i]).NotDigit? then
      Err(MalformedId)
    else if !AllDecimal(digits, suffix) then Err(NotANumber)
    else Ok((base, ParseNumber(digits, suffix)))
  }

  lemma {:induction false} SplitAtHyphen(name: string, suffix: string)
    requires '-' !in suffix
    ensures SplitLast(name + "-" + suffix) == (name, suffix)
  {
    var s := name + "-" + suffix;
    if |suffix| == 0 {
      assert s == name + "-" && s[..|s| - 1] == name;
    } else {
      SplitAtHyphen(name, suffix[..|suffix| - 1]);
      assert s[..|s| - 1] == name + "-" + suffix[..|suffix| - 1];
      assert suffix == suffix[..|suffix| - 1] + [suffix[|suffix| - 1]];
    }
  }

  /** What is parsed after the last hyphen: nothing, a non-digit, a digit that is no decimal, or a number. */
  lemma ParseIs(digits: Digits, name: string, suffix: string)
    requires '-' !in suffix
    ensures var malformed := name == "" || suffix == "" || exists c :: c in suffix && digits(c) == NotDigit;
      match ParseModelId(digits, name + "-" + suffix)
      case Ok((base, version)) => !malformed && base == name && forall c :: c in suffix ==> digits(c).DecimalDigit?
      case Err(e) =>
        if malformed then e == MalformedId
        else e == NotANumber && exists c :: c in suffix && digits(c) == NotDecimal
  {
    SplitAtHyphen(name, suffix);
  }

  /** Without a hyphen there is no id. */
  lemma {:induction false} NoHyphen(digits: Digits, id: string)
    requires '-' !in id
    ensures SplitLast(id).0 == "" && ParseModelId(digits, id) == Err(MalformedId)
  {
    if |id| > 0 {
      NoHyphen(digits, id[..|id| - 1]);
    }
  }

  lemma {:induction false} ParseDecimal(digits: Digits, n: nat)
    requires Lawful(digits)
    ensures ParseNumber(digits, Decimal(n)) == n
  {
    if n >= 10 {
      ParseDecimal(digits, n / 10);
      assert Decimal(n)[..|Decimal(n)| - 1] == Decimal(n / 10);
    } else {
      assert ParseNumber(digits, [DigitChar(n)]) == 10 * ParseNumber(digits, []) + digits(DigitChar(n)).value;
    }
  }

  lemma {:induction false} LeadingZero(digits: Digits, s: string)
    requires Lawful(digits) && AllDigits(s)
    ensures ParseNumber(digits, "0" + s) == ParseNumber(digits, s)
  {
    if |s| > 0 {
      LeadingZero(digits, s[..|s| - 1]);
      assert ("0" + s)[..|s|] == "0" + s[..|s| - 1];
    }
  }

  lemma {:induction false} ParsePadded(digits: Digits, s: string)
    requires Lawful(digits) && AllDigits(s)
    ensures ParseNumber(digits, Padded(s)) == ParseNumber(digits, s)
    decreases 4 - |s|
  {
    if |s| < 4 {
      LeadingZero(digits, s);
      ParsePadded(digits, "0" + s);
    }
  }

  /** Parsing inverts the id of every non-empty name, hyphens included, and every version, of any number of digits. */
  lemma IdRoundTrip(digits: Digits, name: string, version: nat)
    requires Lawful(digits)
    ensures SplitLast(ModelId(name, version)) == (name, FourDigits(version))
    ensures ParseNumber(digits, FourDigits(version)) == version
    ensures |name| > 0 ==> ParseModelId(digits, ModelId(name, version)) == Ok((name, version))
  {
    ParseDecimal(digits, version);
    ParsePadded(digits, Decimal(version));
    assert '-' !in FourDigits(version) by {
      assert forall i :: 0 <= i < |FourDigits(version)| ==> IsDigit(FourDigits(version)[i]);
    }
    SplitAtHyphen(name, FourDigits(version));
  }

  ghost function Ascii(): Digits {
    c => if IsDigit(c) then DecimalDigit((c - '0') as nat) else NotDigit
  }

  lemma LawfulAscii()
    ensures Lawful(Ascii())
  {
  }

  /** Different names or versions never share an id. */
  lemma IdsDistinct(a: string, v: nat, b: string, w: nat)
    requires ModelId(a, v) == ModelId(b, w)
    ensures a == b && v == w
  {
    LawfulAscii();
    IdRoundTrip(Ascii(), a, v);
    IdRoundTrip(Ascii(), b, w);
  }

  // ---- what a history of registrations holds ----

  type Fingerprint = Blob -> string

  function CardOf(fp: Fingerprint, r: Registration, version: nat): Card {
    Card(ModelId(r.name, version), r.name, version, fp(r.model), r.meta)
  }

  /** The models of one name in version order: the k-th is version k + 1. */
  function Records(fp: Fingerprint, h: seq<Registration>, name: string): (r: seq<Registered>) {
    if |h| == 0 then []
    else
      var before, last := Records(fp, h[..|h| - 1], name), h[|h| - 1];
      if last.name == name then before + [Registered(last.model, CardOf(fp, last, |before| + 1))] else before
  }

  function NextVersion(fp: Fingerprint, h: seq<Registration>, name: string): nat {
    |Records(fp, h, name)| + 1
  }

  function LatestOf(fp: Fingerprint, h: seq<Registration>, name: string): Option<Registered> {
    var r := Records(fp, h, name);
    if |r| == 0 then None else Some(r[|r| - 1])
  }

  lemma RecordsGrow(fp: Fingerprint, h: seq<Registration>, x: Registration, name: string)
    ensures Records(fp, h + [x], name) ==
      Records(fp, h, name)
      + if x.name == name then [Registered(x.model, CardOf(fp, x, |Records(fp, h, name)| + 1))] else []
  {
    assert (h + [x])[..|h|] == h;
  }

  /** The latest model of a name is the last one registered under it. */
  lemma LatestIsNewest(fp: Fingerprint, h: seq<Registration>, x: Registration, name: string)
    ensures LatestOf(fp, [], name) == None
    ensures LatestOf(fp, h + [x], name) ==
      if x.name == name then Some(Registered(x.model, CardOf(fp, x, NextVersion(fp, h, name))))
      else LatestOf(fp, h, name)
  {
    RecordsGrow(fp, h, x, name);
  }

  /** Registering never replaces or renumbers a card: versions are 1 .. n and every issued record stays. */
  lemma {:induction false} RecordsNumbered(fp: Fingerprint, h: seq<Registration>, name: string)
    ensures forall k: nat :: k < |Records(fp, h, name)| ==>
      var c := Records(fp, h, name)[k].card; c.version == k + 1 && c.name == name && c.modelId == ModelId(name, k + 1)
    ensures forall k: nat :: k < |Records(fp, h, name)| ==>
      Records(fp, h, name)[k].card.fingerprint == fp(Records(fp, h, name)[k].model)
  {
    if |h| > 0 {
      RecordsNumbered(fp, h[..|h| - 1], name);
    }
  }

  lemma {:induction false} IssuedStays(fp: Fingerprint, h: seq<Registration>, later: seq<Registration>, name: string)
    ensures Records(fp, h, name) <= Records(fp, h + later, name)
  {
    if |later| == 0 {
      assert h + later == h;
    } else {
      var front, last := later[..|later| - 1], later[|later| - 1];
      IssuedStays(fp, h, front, name);
      RecordsGrow(fp, h + front, last, name);
      assert h + later == (h + front) + [last];
    }
  }

  // ---- in memory ----

  ghost predicate Issued(fp: Fingerprint, h: seq<Registration>, id: string) {
    exists name: string, v: nat :: 0 < v <= |Records(fp, h, name)| && id == ModelId(name, v)
  }

  ghost predicate MemoryHolds(fp: Fingerprint, h: seq<Registration>, models: map<string, Registered>,
                              versions: map<string, nat>) {
    && (forall name :: name in versions <==> |Records(fp, h, name)| > 0)
    && (forall name :: name in versions ==> versions[name] == |Records(fp, h, name)|)
    && (forall id :: id in models ==> Issued(fp, h, id))
    && forall name: string, v: nat :: 0 < v <= |Records(fp, h, name)| ==>
        ModelId(name, v) in models && models[ModelId(name, v)] == Records(fp, h, name)[v - 1]
  }

  /** Storing the new record leaves every earlier entry where it was. */
  lemma EntryKept(fp: Fingerprint, h: seq<Registration>, models: map<string, Registered>, versions: map<string, nat>,
                  r: Registration, name: string, v: nat)
    requires MemoryHolds(fp, h, models, versions) && 0 < v <= |Records(fp, h + [r], name)|
    ensures var card := CardOf(fp, r, NextVersion(fp, h, r.name));
      var models' := models[card.modelId := Registered(r.model, card)];
      ModelId(name, v) in models' && models'[ModelId(name, v)] == Records(fp, h + [r], name)[v - 1]
  {
    RecordsGrow(fp, h, r, name);
    if ModelId(name, v) == ModelId(r.name, NextVersion(fp, h, r.name)) {
      IdsDistinct(name, v, r.name, NextVersion(fp, h, r.name));
    }
  }

  lemma MemoryGrows(fp: Fingerprint, h: seq<Registration>, models: map<string, Registered>, versions: map<string, nat>,
                    r: Registration)
    requires MemoryHolds(fp, h, models, versions)
    ensures var version := NextVersion(fp, h, r.name);
      var card := CardOf(fp, r, version);
      MemoryHolds(fp, h + [r], models[card.modelId := Registered(r.model, card)], versions[r.name := version])
  {
    var version := NextVersion(fp, h, r.name);
    var card := CardOf(fp, r, version);
    var models', versions' := models[card.modelId := Registered(r.model, card)], versions[r.name := version];
    var h' := h + [r];
    forall name ensures name in versions' <==> |Records(fp, h', name)| > 0 {
      RecordsGrow(fp, h, r, name);
    }
    forall name | name in versions' ensures versions'[name] == |Records(fp, h', name)| {
      RecordsGrow(fp, h, r, name);
    }
    forall id | id in models' ensures Issued(fp, h', id) {
      if id == card.modelId {
        RecordsGrow(fp, h, r, r.name);
      } else {
        assert Issued(fp, h, id);
        var name: string, v: nat :| 0 < v <= |Records(fp, h, name)| && id == ModelId(name, v);
        RecordsGrow(fp, h, r, name);
      }
    }
    forall name: string, v: nat | 0 < v <= |Records(fp, h', name)|
      ensures ModelId(name, v) in models' && models'[ModelId(name, v)] == Records(fp, h', name)[v - 1]
    {
      EntryKept(fp, h, models, versions, r, name, v);
    }
  }

  class InMemoryModelRegistry {
    const fp: Fingerprint
    var models: map<string, Registered>
    var versions: map<string, nat>
    ghost var history: seq<Registration>

    ghost predicate Valid()
      reads this
    {
      MemoryHolds(fp, history, models, versions)
    }

    constructor (fp: Fingerprint)
      ensures Valid() && this.fp == fp && history == []
    {
      this.fp := fp;
      models, versions, history := map[], map[], [];
    }

    method Register(r: Registration) returns (card: Card)
      requires Valid()
      modifies this
      ensures Valid() && history == old(history) + [r]
      ensures card == CardOf(fp, r, NextVersion(fp, old(history), r.name))
    {
      var version := (if r.name in versions then versions[r.name] else 0) + 1;
      card := CardOf(fp, r, version);
      MemoryGrows(fp, history, models, versions, r);
      versions := versions[r.name := version];
      models := models[card.modelId := Registered(r.model, card)];
      history := history + [r];
    }

    /** Exactly the issued ids are known. */
    method Get(id: string) returns (r: Result<Registered, RegistryError>)
      requires Valid()
      ensures forall name: string, v: nat :: 0 < v <= |Records(fp, history, name)| && id == ModelId(name, v) ==>
        r == Ok(Records(fp, history, name)[v - 1])
      ensures r.Ok? ==> exists name: string, v: nat :: 0 < v <= |Records(fp, history, name)| && id == ModelId(name, v)
      ensures r.Err? ==> r.error == UnknownId
    {
      if id in models {
        assert Issued(fp, history, id);
        return Ok(models[id]);
      }
      return Err(UnknownId);
    }

    method Latest(name: string) returns (r: Option<Registered>)
      requires Valid()
      ensures r == LatestOf(fp, history, name)
    {
      if name !in versions {
        return None;
      }
      return Some(models[ModelId(name, versions[name])]);
    }
  }

  // ---- on disk ----

  /** One version directory: its name and what its two files hold. */
  datatype Slot = Slot(dirName: string, stored: Registered)

  ghost predicate SafeName(name: string) {
    |name| > 0 && '/' !in name && '\\' !in name && name != "." && name != ".."
  }

  /** The highest number among the digit-named directories, or 0. */
  function HighestVersion(digits: Digits, slots: seq<Slot>): nat {
    if |slots| == 0 then 0
    else
      var before, last := HighestVersion(digits, slots[..|slots| - 1]), slots[|slots| - 1].dirName;
      if |last| > 0 && AllDecimal(digits, last) && ParseNumber(digits, last) > before then ParseNumber(digits, last)
      else before
  }

  function FindSlot(slots: seq<Slot>, dirName: string): (r: Option<Registered>)
    ensures r.None? <==> forall k :: 0 <= k < |slots| ==> slots[k].dirName != dirName
    ensures r.Some? ==> exists k :: 0 <= k < |slots| && slots[k] == Slot(dirName, r.value)
  {
    if |slots| == 0 then None
    else if slots[|slots| - 1].dirName == dirName then Some(slots[|slots| - 1].stored)
    else FindSlot(slots[..|slots| - 1], dirName)
  }

  /** The version directories under a name, none when it was never written. */
  function SlotsIn(dirs: map<string, seq<Slot>>, name: string): seq<Slot> {
    if name in dirs then dirs[name] else []
  }

  /** Loading checks the fingerprint of the artifact against its card. */
  function Load(fp: Fingerprint, stored: Registered): Result<Registered, RegistryError> {
    if |stored.card.fingerprint| > 0 && fp(stored.model) != stored.card.fingerprint then Err(FingerprintMismatch)
    else Ok(stored)
  }

  /** An artifact is loaded exactly when its card has no fingerprint or the fingerprint of the artifact. */
  lemma LoadedIff(fp: Fingerprint, stored: Registered)
    ensures Load(fp, stored) == Ok(stored) <==> stored.card.fingerprint in {"", fp(stored.model)}
    ensures Load(fp, stored).Err? ==> Load(fp, stored).error == FingerprintMismatch
  {
  }

  /** The directories of a name: one per record, named after its version. */
  function SlotsOf(records: seq<Registered>): (r: seq<Slot>)
    ensures |r| == |records| && forall k: nat :: k < |r| ==> r[k] == Slot(FourDigits(k + 1), records[k])
  {
    seq(|records|, k requires 0 <= k < |records| => Slot(FourDigits(k + 1), records[k]))
  }

  ghost predicate FilesHold(fp: Fingerprint, h: seq<Registration>, dirs: map<string, seq<Slot>>) {
    && (forall i :: 0 <= i < |h| ==> SafeName(h[i].name))
    && forall name :: SlotsIn(dirs, name) == SlotsOf(Records(fp, h, name))
  }

  /** The version directory a registration adds. */
  function NewSlot(fp: Fingerprint, h: seq<Registration>, r: Registration): Slot {
    Slot(FourDigits(NextVersion(fp, h, r.name)), Registered(r.model, CardOf(fp, r, NextVersion(fp, h, r.name))))
  }

  lemma SlotsAppend(records: seq<Registered>, x: Registered)
    ensures SlotsOf(records + [x]) == SlotsOf(records) + [Slot(FourDigits(|records| + 1), x)]
  {
  }

  lemma SlotsGrow(fp: Fingerprint, h: seq<Registration>, r: Registration, name: string)
    ensures SlotsOf(Records(fp, h + [r], name)) ==
      SlotsOf(Records(fp, h, name)) + if name == r.name then [NewSlot(fp, h, r)] else []
  {
    RecordsGrow(fp, h, r, name);
    if name == r.name {
      SlotsAppend(Records(fp, h, name), Registered(r.model, CardOf(fp, r, NextVersion(fp, h, name))));
    } else {
      assert Records(fp, h + [r], name) == Records(fp, h, name);
    }
  }

  lemma FilesGrow(fp: Fingerprint, h: seq<Registration>, dirs: map<string, seq<Slot>>, r: Registration, slot: Slot)
    requires FilesHold(fp, h, dirs) && SafeName(r.name) && slot == NewSlot(fp, h, r)
    ensures FilesHold(fp, h + [r], dirs[r.name := SlotsIn(dirs, r.name) + [slot]])
  {
    var dirs' := dirs[r.name := SlotsIn(dirs, r.name) + [slot]];
    forall name ensures SlotsIn(dirs', name) == SlotsOf(Records(fp, h + [r], name)) {
      SlotsGrow(fp, h, r, name);
      assert SlotsIn(dirs, name) == SlotsOf(Records(fp, h, name));
    }
  }

  lemma {:induction false} HighestOfSlots(digits: Digits, records: seq<Registered>)
    requires Lawful(digits)
    ensures HighestVersion(digits, SlotsOf(records)) == |records|
  {
    if |records| > 0 {
      var front := records[..|records| - 1];
      HighestOfSlots(digits, front);
      assert SlotsOf(records)[..|records| - 1] == SlotsOf(front);
      IdRoundTrip(digits, "", |records|);
    }
  }

  lemma HighestIsCount(digits: Digits, fp: Fingerprint, h: seq<Registration>, name: string)
    requires Lawful(digits)
    ensures HighestVersion(digits, SlotsOf(Records(fp, h, name))) == |Records(fp, h, name)|
  {
    HighestOfSlots(digits, Records(fp, h, name));
  }

  /** Version directories have distinct names, and what is loaded from one matches its fingerprint. */
  lemma SlotFound(fp: Fingerprint, h: seq<Registration>, name: string, version: nat)
    ensures var records := Records(fp, h, name);
      var found := FindSlot(SlotsOf(records), FourDigits(version));
      && (found.Some? <==> 0 < version <= |records|)
      && (found.Some? ==> found.value == records[version - 1] && Load(fp, found.value) == Ok(records[version - 1]))
  {
    var records := Records(fp, h, name);
    var slots := SlotsOf(records);
    var found := FindSlot(slots, FourDigits(version));
    RecordsNumbered(fp, h, name);
    if 0 < version <= |records| {
      assert slots[version - 1].dirName == FourDigits(version);
    }
    if found.Some? {
      var k :| 0 <= k < |slots| && slots[k] == Slot(FourDigits(version), found.value);
      IdsDistinct(name, k + 1, name, version);
    }
  }

  /** What the file registry answers: any spelling of an issued version number is taken. */
  ghost function FileGet(digits: Digits, fp: Fingerprint, h: seq<Registration>,
                   id: string): Result<Registered, RegistryError> {
    var parsed := ParseModelId(digits, id);
    if parsed.Err? then Err(parsed.error)
    else
      var (name, version) := parsed.value;
      var records := Records(fp, h, name);
      if !SafeName(name) then Err(InvalidName)
      else if 0 < version <= |records| then Ok(records[version - 1])
      else Err(UnknownId)
  }

  class FileModelRegistry {
    const fp: Fingerprint
    const digits: Digits
    var dirs: map<string, seq<Slot>>
    ghost var history: seq<Registration>

    ghost predicate Valid()
      reads this
    {
      Lawful(digits) && FilesHold(fp, history, dirs)
    }

    constructor (fp: Fingerprint, digits: Digits)
      requires Lawful(digits)
      ensures Valid() && this.fp == fp && this.digits == digits && history == []
    {
      this.fp, this.digits := fp, digits;
      dirs, history := map[], [];
    }

    /** On a safe name it issues the card the in-memory registry issues after the same history. */
    method Register(r: Registration) returns (card: Result<Card, RegistryError>)
      requires Valid()
      modifies this
      ensures Valid()
      ensures SafeName(r.name) ==> history == old(history) + [r]
      ensures SafeName(r.name) ==> card == Ok(CardOf(fp, r, NextVersion(fp, old(history), r.name)))
      ensures !SafeName(r.name) ==> card == Err(InvalidName) && history == old(history) && dirs == old(dirs)
    {
      if |r.name| == 0 || '/' in r.name || '\\' in r.name || r.name == "." || r.name == ".." {
        return Err(InvalidName);
      }
      var existing := SlotsIn(dirs, r.name);
      HighestIsCount(digits, fp, history, r.name);
      var version := HighestVersion(digits, existing) + 1;
      var built := CardOf(fp, r, version);
      var slot := Slot(FourDigits(version), Registered(r.model, built));
      FilesGrow(fp, history, dirs, r, slot);
      dirs := dirs[r.name := existing + [slot]];
      history := history + [r];
      return Ok(built);
    }

    method Get(id: string) returns (r: Result<Registered, RegistryError>)
      requires Valid()
      ensures r == FileGet(digits, fp, history, id)
    {
      var parsed := ParseModelId(digits, id);
      if parsed.Err? {
        return Err(parsed.error);
      }
      var (name, version) := parsed.value;
      if |name| == 0 || '/' in name || '\\' in name || name == "." || name == ".." {
        return Err(InvalidName);
      }
      var found := FindSlot(SlotsIn(dirs, name), FourDigits(version));
      SlotFound(fp, history, name, version);
      if found.None? {
        return Err(UnknownId);
      }
      return Load(fp, found.value);
    }

    method Latest(name: string) returns (r: Result<Option<Registered>, RegistryError>)
      requires Valid()
      ensures r == if SafeName(name) then Ok(LatestOf(fp, history, name)) else Err(InvalidName)
    {
      if |name| == 0 || '/' in name || '\\' in name || name == "." || name == ".." {
        return Err(InvalidName);
      }
      var slots := SlotsIn(dirs, name);
      HighestIsCount(digits, fp, history, name);
      if |slots| == 0 {
        return Ok(None);
      }
      SlotFound(fp, history, name, HighestVersion(digits, slots));
      var found := FindSlot(slots, FourDigits(HighestVersion(digits, slots)));
      var loaded := Load(fp, found.value);
      return Ok(Some(loaded.value));
    }
  }

  /** On every issued id both registries give the same model and card. */
  lemma IssuedIdsAgree(digits: Digits, fp: Fingerprint, h: seq<Registration>, name: string, version: nat)
    requires Lawful(digits) && SafeName(name) && 0 < version <= |Records(fp, h, name)|
    ensures FileGet(digits, fp, h, ModelId(name, version)) == Ok(Records(fp, h, name)[version - 1])
    ensures Issued(fp, h, ModelId(name, version))
  {
    IdRoundTrip(digits, name, version);
  }

  /** The id parses to an issued name and version but is not the id that was issued. */
  ghost predicate Respelled(digits: Digits, fp: Fingerprint, h: seq<Registration>, id: string) {
    exists name: string, v: nat ::
      0 < v <= |Records(fp, h, name)| && ParseModelId(digits, id) == Ok((name, v)) && id != ModelId(name, v)
  }

  lemma {:induction false} RecordsSafe(fp: Fingerprint, h: seq<Registration>, name: string)
    requires (forall i :: 0 <= i < |h| ==> SafeName(h[i].name)) && |Records(fp, h, name)| > 0
    ensures SafeName(name)
  {
    if h[|h| - 1].name != name {
      RecordsSafe(fp, h[..|h| - 1], name);
    }
  }

  /** The file registry knows an id the memory one does not exactly when it spells an issued version another way. */
  lemma GetsDifferIff(digits: Digits, fp: Fingerprint, h: seq<Registration>, id: string)
    requires Lawful(digits) && forall i :: 0 <= i < |h| ==> SafeName(h[i].name)
    ensures FileGet(digits, fp, h, id).Ok? && !Issued(fp, h, id) <==> Respelled(digits, fp, h, id)
    ensures Issued(fp, h, id) ==> FileGet(digits, fp, h, id).Ok?
  {
    if Issued(fp, h, id) {
      var name: string, v: nat :| 0 < v <= |Records(fp, h, name)| && id == ModelId(name, v);
      RecordsSafe(fp, h, name);
      IssuedIdsAgree(digits, fp, h, name, v);
      IdRoundTrip(digits, name, v);
    }
    if Respelled(digits, fp, h, id) {
      var name: string, v: nat :|
        0 < v <= |Records(fp, h, name)| && ParseModelId(digits, id) == Ok((name, v)) && id != ModelId(name, v);
      RecordsSafe(fp, h, name);
    }
    if FileGet(digits, fp, h, id).Ok? && !Issued(fp, h, id) {
      var (name, v) := ParseModelId(digits, id).value;
      assert id != ModelId(name, v);
    }
  }

  /** For one, after one registration of m the file registry takes "m-1", in any script; the memory one does not. */
  lemma ShortSpelling(digits: Digits, fp: Fingerprint, model: Blob, meta: Meta, one: char)
    requires Lawful(digits) && digits(one) == DecimalDigit(1)
    ensures var h, id := [Registration("m", model, meta)], "m-" + [one];
      FileGet(digits, fp, h, id).Ok? && !Issued(fp, h, id)
  {
    var h, id := [Registration("m", model, meta)], "m-" + [one];
    SplitAtHyphen("m", [one]);
    assert id == "m" + "-" + [one];
    assert ParseNumber(digits, [one]) == 10 * ParseNumber(digits, "") + 1;
    assert h[..0] == [];
    assert |Records(fp, h, "m")| == 1;
    assert |ModelId("m", 1)| >= 6;
    GetsDifferIff(digits, fp, h, id);
  }

  /** A superscript passes the digit check and then is no number: neither registry's own error. */
  lemma SuperscriptIsNoNumber(digits: Digits, fp: Fingerprint, h: seq<Registration>, superscript: char)
    requires Lawful(digits) && digits(superscript) == NotDecimal
    ensures FileGet(digits, fp, h, "m-" + [superscript]) == Err(NotANumber)
  {
    SplitAtHyphen("m", [superscript]);
    assert "m-" + [superscript] == "m" + "-" + [superscript];
  }
}
