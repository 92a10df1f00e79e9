/**
 The directory of one run, from its creation to its completion, as the sequence of changes made
 to it. Every operation may fail, and a crash is the case in which every later one does, so what
 holds of every log of changes holds at every crash point.
 */
module RunLifecycle {
  import opened Wrappers
  import opened Text
  import opened Json
  import opened RunManifest

  const MAX_MANIFEST_BYTES: nat := 16 * 1024

  /** What a reader finds in a file: its size, and the JSON value its text denotes, if it does. */
  datatype Content = Content(json: Option<Json>, bytes: nat)

  /** Temporary and backup names are fresh in every replacement. */
  datatype Name = Marker | Raw | ManifestFile | Temporary(call: nat) | Backup(call: nat)

  type Entries = map<Name, Content>

  /** One change to the run directory; the directory itself may be absent. */
  datatype Effect =
    | MakeRun
    | Write(name: Name, content: Content)
    | Move(source: Name, target: Name)
    | Remove(name: Name)
    | Sweep(left: Option<set<Name>>)

  function Applied(d: Option<Entries>, e: Effect): Option<Entries> {
    if e.MakeRun? then Some(map[])
    else if d.None? then None
    else
      var entries := d.value;
      match e
      case Write(name, content) => Some(entries[name := content])
      case Move(source, target) => if source in entries then Some((entries - {source})[target := entries[source]]) else d
      case Remove(name) => Some(entries - {name})
      case Sweep(None) => None
      case Sweep(Some(left)) => Some(map name | name in entries && name in left :: entries[name])
  }

  function Replay(log: seq<Effect>): Option<Entries> {
    if log == [] then None else Applied(Replay(log[..|log| - 1]), log[|log| - 1])
  }

  /** The run, its start and the platform's calendar and text sizes. */
  datatype Run = Run(id: Str, startedAt: Str, dates: Dates, size: Json -> nat)

  function Parsed(run: Run, c: Content): Option<Manifest> {
    if c.json.None? then None else ParseManifest(run.dates, c.json.value)
  }

  /** readManifest on a file's content: oversized or unparsable text is no manifest. */
  function Read(run: Run, c: Content): Option<Manifest> {
    if c.bytes > MAX_MANIFEST_BYTES then None else Parsed(run, c)
  }

  function ReadAt(run: Run, d: Option<Entries>, name: Name): Option<Manifest> {
    if d.None? || name !in d.value then None else Read(run, d.value[name])
  }

  function Whole(run: Run, m: Manifest): Content {
    Content(Some(SerializeManifest(m)), run.size(SerializeManifest(m)))
  }

  /** Part of a text that was being written: an object's text has no proper part that is another value. */
  predicate IsTorn(c: Content, whole: Content) {
    (c.json.None? || c.json == whole.json) && c.bytes <= whole.bytes
  }

  /** A completed manifest of this run with the start it was created with. */
  predicate CompletesRun(run: Run, m: Manifest) {
    m.Completed? && m.runId == run.id && m.startedAt == run.startedAt && IsManifest(run.dates, m)
  }

  /** Retention may delete the run: no marker, and a completed manifest under its own name. */
  predicate Eligible(run: Run, d: Option<Entries>) {
    && d.Some? && Marker !in d.value
    && ReadAt(run, d, ManifestFile).Some? && ReadAt(run, d, ManifestFile).value.Completed?
        && ReadAt(run, d, ManifestFile).value.runId == run.id
  }

  /** A file is read as a manifest exactly if it has at most 16 KiB and its text denotes a sound one. */
  lemma ReadExactly(run: Run, c: Content, m: Manifest)
    ensures Read(run, c) == Some(m) <==>
      c.bytes <= 16384 && c.json.Some? && Carries(c.json.value, m) && IsManifest(run.dates, m)
  {
    if c.json.Some? {
      ParseManifestExactly(run.dates, c.json.value, m);
    }
    hide ParseManifest, Carries, IsManifest;
  }

  /** Eligible is a run without a marker whose manifest says that it, and no other run, completed. */
  lemma EligibleExactly(run: Run, d: Option<Entries>)
    ensures Eligible(run, d) <==>
      && (exists started, completed :: ReadAt(run, d, ManifestFile) == Some(Completed(run.id, started, completed)))
      && Marker !in d.value
  {
    hide Read;
    if Eligible(run, d) {
      var m := ReadAt(run, d, ManifestFile).value;
      assert m == Completed(run.id, m.startedAt, m.completedAt);
    }
  }

  predicate IsCompletion(run: Run, c: Content) {
    Parsed(run, c).Some? && CompletesRun(run, Parsed(run, c).value)
  }

  /** The manifest of the run before its completion, or a text that is no manifest. */
  predicate IsStart(run: Run, c: Content) {
    Parsed(run, c).None? || Parsed(run, c) == Some(Active(run.id, run.startedAt))
  }

  /** The manifest file holds a completed manifest of the run. */
  predicate HasCompleted(run: Run, d: Option<Entries>) {
    d.Some? && ManifestFile in d.value && IsCompletion(run, d.value[ManifestFile])
  }

  predicate WriteAllowed(run: Run, entries: Entries, name: Name, c: Content) {
    match name
    case Marker => true
    case Raw => Marker in entries
    case ManifestFile => Marker in entries && ManifestFile !in entries && IsStart(run, c)
    case Temporary(_) => Parsed(run, c).None? || IsCompletion(run, c)
    case Backup(_) => false
  }

  predicate MoveAllowed(run: Run, entries: Entries, source: Name, target: Name) {
    && Marker in entries && source in entries
    && if source == ManifestFile then target.Backup? && IsStart(run, entries[source])
       else if source.Temporary? then target == ManifestFile && ManifestFile !in entries && IsCompletion(run, entries[source])
       else source.Backup? && target == ManifestFile && ManifestFile !in entries
  }

  /** The changes the program may make in a state of the directory. */
  predicate Allowed(run: Run, d: Option<Entries>, e: Effect) {
    match e
    case MakeRun => d.None?
    case Write(name, c) => d.Some? && WriteAllowed(run, d.value, name, c)
    case Move(source, target) => d.Some? && MoveAllowed(run, d.value, source, target)
    case Remove(name) => d.Some? && (name.Temporary? || name.Backup? || (name == Marker && HasCompleted(run, d)))
    case Sweep(_) => d.Some? && !HasCompleted(run, d) && forall name | name in d.value :: name in {Marker, Raw, ManifestFile}
  }

  /** Every change was allowed when it was made. */
  predicate Disciplined(run: Run, log: seq<Effect>) {
    log == [] || (Disciplined(run, log[..|log| - 1]) && Allowed(run, Replay(log[..|log| - 1]), log[|log| - 1]))
  }

  /** Each file holds only what belongs under its name. */
  ghost predicate Sound(run: Run, d: Option<Entries>) {
    d.Some? ==>
      && (forall k | Temporary(k) in d.value :: Parsed(run, d.value[Temporary(k)]).None? || IsCompletion(run, d.value[Temporary(k)]))
      && (forall k | Backup(k) in d.value :: IsStart(run, d.value[Backup(k)]))
      && (ManifestFile in d.value ==> IsStart(run, d.value[ManifestFile]) || IsCompletion(run, d.value[ManifestFile]))
  }

  lemma SoundStep(run: Run, d: Option<Entries>, e: Effect)
    requires Sound(run, d) && Allowed(run, d, e)
    ensures Sound(run, Applied(d, e))
  {
    hide Parsed, CompletesRun;
  }

  lemma {:induction false} DisciplinedIsSound(run: Run, log: seq<Effect>)
    requires Disciplined(run, log)
    ensures Sound(run, Replay(log))
  {
    if log != [] {
      DisciplinedIsSound(run, log[..|log| - 1]);
      SoundStep(run, Replay(log[..|log| - 1]), log[|log| - 1]);
    }
  }

  /** What one allowed change does to completion: only a publication completes, and it stays complete. */
  lemma CompletionStep(run: Run, d: Option<Entries>, e: Effect)
    requires Sound(run, d) && Allowed(run, d, e)
    ensures HasCompleted(run, d) ==> HasCompleted(run, Applied(d, e)) && d.value[ManifestFile] == Applied(d, e).value[ManifestFile]
    ensures HasCompleted(run, Applied(d, e)) && !HasCompleted(run, d) ==>
        e.Move? && e.source.Temporary? && e.target == ManifestFile && Marker in d.value
    ensures d.Some? && Marker in d.value && Applied(d, e).Some? && Marker !in Applied(d, e).value && HasCompleted(run, Applied(d, e)) ==>
              e == Remove(Marker)
  {
    hide Parsed, IsManifest;
  }

  /** The change that puts a temporary in the manifest's place. */
  predicate IsPublication(e: Effect) {
    e.Move? && e.source.Temporary? && e.target == ManifestFile
  }

  /** A completed manifest was published, with the marker still there, and has not changed since. */
  ghost predicate PublishedAt(run: Run, log: seq<Effect>, i: nat) {
    && i < |log| && IsPublication(log[i])
    && Replay(log[..i]).Some? && Marker in Replay(log[..i]).value && !HasCompleted(run, Replay(log[..i]))
    && Replay(log).Some? && ManifestFile in Replay(log).value
    && log[i].source in Replay(log[..i]).value && Replay(log).value[ManifestFile] == Replay(log[..i]).value[log[i].source]
  }

  lemma {:induction false} CompletedWasPublished(run: Run, log: seq<Effect>) returns (i: nat)
    requires Disciplined(run, log) && HasCompleted(run, Replay(log))
    ensures PublishedAt(run, log, i)
  {
    hide Parsed, CompletesRun, Sound;
    var before := log[..|log| - 1];
    DisciplinedIsSound(run, before);
    CompletionStep(run, Replay(before), log[|log| - 1]);
    if HasCompleted(run, Replay(before)) {
      i := CompletedWasPublished(run, before);
      assert before[..i] == log[..i];
    } else {
      i := |log| - 1;
    }
  }

  /**
   In every log of allowed changes, a run that retention may delete had its completed manifest
   published while the marker was there, and the marker was removed after that.
   */
  lemma {:induction false} EligibleOnlyAfterCompletion(run: Run, log: seq<Effect>) returns (i: nat, j: nat)
    requires Disciplined(run, log) && Eligible(run, Replay(log))
    ensures i < j < |log| && PublishedAt(run, log, i) && log[j] == Remove(Marker)
    ensures CompletesRun(run, ReadAt(run, Replay(log), ManifestFile).value)
  {
    hide Parsed, CompletesRun;
    var before := log[..|log| - 1];
    DisciplinedIsSound(run, before);
    DisciplinedIsSound(run, log);
    CompletionStep(run, Replay(before), log[|log| - 1]);
    if Eligible(run, Replay(before)) {
      i, j := EligibleOnlyAfterCompletion(run, before);
      assert before[..i] == log[..i];
    } else {
      j := |log| - 1;
      MarkerLost(run, before, log[j]);
      i := CompletedWasPublished(run, before);
      assert before[..i] == log[..i];
    }
  }

  /** A run becomes eligible only by losing its marker. */
  lemma MarkerLost(run: Run, before: seq<Effect>, e: Effect)
    requires Disciplined(run, before) && Allowed(run, Replay(before), e)
    requires !Eligible(run, Replay(before)) && Eligible(run, Applied(Replay(before), e))
    ensures e == Remove(Marker) && HasCompleted(run, Replay(before))
  {
    hide Parsed, CompletesRun;
    DisciplinedIsSound(run, before);
    CompletionStep(run, Replay(before), e);
  }

  // ---------------------------------------------------------------- the program

  datatype CompletionError = Unverifiable | Io

  /** Part of the written text, or all of it. */
  ghost predicate MayHold(run: Run, entries: Entries, name: Name, whole: Content) {
    forall c | IsTorn(c, whole) :: WriteAllowed(run, entries, name, c)
  }

  lemma TornAllowed(run: Run, entries: Entries, name: Name, whole: Content, c: Content)
    requires MayHold(run, entries, name, whole) && IsTorn(c, whole)
    ensures Allowed(run, Some(entries), Write(name, c))
  {
  }

  lemma StartMayBeTorn(run: Run, entries: Entries)
    requires Marker in entries && ManifestFile !in entries && Faithful(run.dates)
    requires exists ms :: InDateRange(ms) && run.startedAt == run.dates.iso(ms)
    ensures MayHold(run, entries, ManifestFile, Whole(run, Active(run.id, run.startedAt)))
    ensures Parsed(run, Whole(run, Active(run.id, run.startedAt))) == Some(Active(run.id, run.startedAt))
  {
    ManifestRoundTrip(run.dates, Active(run.id, run.startedAt));
    hide ParseManifest, SerializeManifest;
  }

  lemma CompletionMayBeTorn(run: Run, entries: Entries, k: nat, m: Manifest)
    requires CompletesRun(run, m)
    ensures MayHold(run, entries, Temporary(k), Whole(run, m)) && IsCompletion(run, Whole(run, m))
    ensures Parsed(run, Whole(run, m)) == Some(m)
  {
    ManifestRoundTrip(run.dates, m);
    hide ParseManifest, SerializeManifest;
  }

  lemma Extended(run: Run, log: seq<Effect>, e: Effect)
    requires Disciplined(run, log) && Allowed(run, Replay(log), e)
    ensures Disciplined(run, log + [e]) && Replay(log + [e]) == Applied(Replay(log), e)
  {
    assert (log + [e])[..|log|] == log;
  }

  /** A run directory on disk; which operations fail, and after how much of their effect, is open. */
  class RunDirectory {
    const run: Run
    var entries: Option<Entries>
    var calls: nat
    ghost var log: seq<Effect>

    /** The directory is the result of allowed changes; names of later replacements are unused. */
    ghost predicate Valid()
      reads this
    {
      && Disciplined(run, log) && entries == Replay(log) && Faithful(run.dates)
      && (exists ms :: InDateRange(ms) && run.startedAt == run.dates.iso(ms))
      && (entries.Some? ==> forall k | k >= calls :: Temporary(k) !in entries.value && Backup(k) !in entries.value)
    }

    /** Creation has succeeded: the marker stays until the manifest is a completed one. */
    ghost predicate Created()
      reads this
    {
      Valid() && entries.Some? && (Marker in entries.value || HasCompleted(run, entries))
    }

    constructor (run: Run, ghost started: int)
      requires Faithful(run.dates) && InDateRange(started) && run.startedAt == run.dates.iso(started)
      ensures Valid() && this.run == run && entries == None
    {
      this.run := run;
      entries := None;
      calls := 0;
      log := [];
    }

    /** An atomic change: made, or failed without effect. */
    method Attempt(e: Effect) returns (ok: bool)
      requires Disciplined(run, log) && entries == Replay(log) && Allowed(run, entries, e)
      modifies this`entries, this`log
      ensures Disciplined(run, log) && entries == Replay(log)
      ensures entries == if ok then Applied(old(entries), e) else old(entries)
    {
      hide Replay, Disciplined, Allowed, Applied;
      ok := *;
      if ok {
        Extended(run, log, e);
        log := log + [e];
        entries := Applied(entries, e);
      }
    }

    /** Creates a file that does not exist; a failure may leave it with part of the text, or all of it. */
    method WriteExclusiveFile(name: Name, whole: Content) returns (ok: bool)
      requires Disciplined(run, log) && entries == Replay(log) && entries.Some?
      requires name !in entries.value ==> MayHold(run, entries.value, name, whole)
      modifies this`entries, this`log
      ensures Disciplined(run, log) && entries == Replay(log) && entries.Some?
      ensures old(name in entries.value) ==> !ok && entries == old(entries)
      ensures ok ==> entries.value == old(entries.value)[name := whole]
      ensures !ok ==> entries == old(entries) || exists c :: IsTorn(c, whole) && entries.value == old(entries.value)[name := c]
    {
      hide Replay, Disciplined, WriteAllowed, MayHold;
      if name in entries.value {
        return false;
      }
      var created: bool := *;
      if !created {
        return false;
      }
      var written: Content := *;
      ok := *;
      if ok || !IsTorn(written, whole) {
        written := whole;
      }
      assert IsTorn(written, whole);
      TornAllowed(run, entries.value, name, whole, written);
      Extended(run, log, Write(name, written));
      log := log + [Write(name, written)];
      entries := Some(entries.value[name := written]);
    }

    /** Recursive removal; a failure may leave any part of the directory. */
    method RemoveTree()
      requires Disciplined(run, log) && entries == Replay(log) && Allowed(run, entries, Sweep(None))
      modifies this`entries, this`log
      ensures Disciplined(run, log) && entries == Replay(log)
      ensures entries.Some? ==>
          forall name | name in entries.value :: name in old(entries.value) && entries.value[name] == old(entries.value)[name]
    {
      hide Replay, Disciplined;
      var left: Option<set<Name>> := *;
      Extended(run, log, Sweep(left));
      log := log + [Sweep(left)];
      entries := Applied(entries, Sweep(left));
    }

    /** Exactly the marker, the raw directory and the active manifest; or a failure that does not complete the run. */
    method CreateRunDirectory() returns (ok: bool)
      requires Valid()
      modifies this`entries, this`log
      ensures Valid()
      ensures old(entries).Some? ==> !ok && entries == old(entries)
      ensures ok ==>
          Created() && entries.value.Keys == {Marker, Raw, ManifestFile} && entries.value[ManifestFile] == Whole(run, Active(run.id, run.startedAt))
      ensures !ok && old(entries).None? ==> !HasCompleted(run, entries)
    {
      hide Replay, Disciplined, Parsed, CompletesRun, Whole, MayHold;
      if entries.Some? {
        return false;
      }
      ok := Attempt(MakeRun);
      if !ok {
        return;
      }
      assert MayHold(run, entries.value, Marker, Content(None, 7)) by {
        MarkerMayBeTorn(run, entries.value);
      }
      ok := WriteExclusiveFile(Marker, Content(None, 7));
      if ok {
        ok := Attempt(Write(Raw, Content(None, 0)));
        if ok {
          StartMayBeTorn(run, entries.value);
          ok := WriteExclusiveFile(ManifestFile, Whole(run, Active(run.id, run.startedAt)));
        }
      }
      if !ok {
        StartIsNotCompletion(run);
        RemoveTree();
      }
    }

    /** Whether a call reads the manifest at all is open; if it does, it reads what is there. */
    method ReadManifest() returns (failed: bool, m: Option<Manifest>)
      ensures m == if failed then None else ReadAt(run, entries, ManifestFile)
    {
      failed := *;
      m := if failed then None else ReadAt(run, entries, ManifestFile);
    }

    /** Moves the manifest aside and the temporary into its place, or puts the old one back if it can. */
    method Publish(k: nat, content: Content) returns (published: bool)
      requires Disciplined(run, log) && entries == Replay(log) && entries.Some? && Marker in entries.value
      requires ManifestFile in entries.value && IsStart(run, entries.value[ManifestFile])
      requires Temporary(k) in entries.value && entries.value[Temporary(k)] == content && IsCompletion(run, content)
      modifies this`entries, this`log
      ensures Disciplined(run, log) && entries == Replay(log) && entries.Some?
      ensures Marker in entries.value && entries.value.Keys <= old(entries.value).Keys + {Backup(k)}
      ensures Raw in old(entries.value) ==> Raw in entries.value
      ensures published ==> ManifestFile in entries.value && entries.value[ManifestFile] == content
      ensures !published ==>
        if ManifestFile in entries.value then entries.value[ManifestFile] == old(entries.value[ManifestFile])
        else Backup(k) in entries.value && entries.value[Backup(k)] == old(entries.value[ManifestFile])
    {
      hide Replay, Disciplined, IsCompletion, IsStart;
      published := Attempt(Move(ManifestFile, Backup(k)));
      if published {
        published := Attempt(Move(Temporary(k), ManifestFile));
        if !published {
          var restored := Attempt(Move(Backup(k), ManifestFile));
        }
      }
    }

    /**
     Writes a temporary, moves the manifest to a backup and the temporary to the manifest. After a
     failure the old manifest is still in place, or in the backup with nothing in its place.
     */
    method ReplaceManifestPortably(m: Manifest) returns (ok: bool)
      requires Created() && CompletesRun(run, m)
      requires ManifestFile in entries.value && !HasCompleted(run, entries)
      modifies this
      ensures Created() && Marker in entries.value
      ensures Raw in old(entries.value) ==> Raw in entries.value
      ensures ok ==> ManifestFile in entries.value && entries.value[ManifestFile] == Whole(run, m)
      ensures !ok ==>
        if ManifestFile in entries.value then entries.value[ManifestFile] == old(entries.value[ManifestFile])
        else Backup(old(calls)) in entries.value && entries.value[Backup(old(calls))] == old(entries.value[ManifestFile])
    {
      hide Replay, Disciplined, IsCompletion, IsStart, CompletesRun, Whole, MayHold, IsTorn;
      var k := calls;
      calls := calls + 1;
      ManifestIsStart(run, log, entries.value);
      CompletionMayBeTorn(run, entries.value, k, m);
      ok := WriteExclusiveFile(Temporary(k), Whole(run, m));
      if ok {
        ok := Publish(k, Whole(run, m));
      }
      var cleaned := Attempt(Remove(Temporary(k)));
      if ok {
        cleaned := Attempt(Remove(Backup(k)));
      }
    }

    /**
     Completes the run: afterwards the marker is gone and the manifest is the completed one, its
     completion no earlier than its start. A failure never makes the run eligible.
     */
    method MarkRunCompleted(now: int) returns (r: Result<(), CompletionError>)
      requires Created() && InDateRange(now)
      modifies this
      ensures Created()
      ensures r.Ok? ==> Marker !in entries.value && HasCompleted(run, entries)
      ensures r.Ok? && old(ReadAt(run, entries, ManifestFile)) == Some(Active(run.id, run.startedAt)) ==>
                entries.value[ManifestFile] == Whole(run, Completed(run.id, run.startedAt, run.dates.iso(Later(now,
                    CanonicalMilliseconds(run.dates, run.startedAt).value))))
      ensures r.Ok? && old(HasCompleted(run, entries)) ==> entries.value[ManifestFile] == old(entries.value[ManifestFile])
      ensures r.Err? ==> (Marker in entries.value <==> old(Marker in entries.value))
      ensures ReadAt(run, old(entries), ManifestFile).None? ==> r.Err? && entries == old(entries)
    {
      hide Replay, Disciplined, Parsed, IsManifest, CanonicalMilliseconds, Whole, MayHold;
      var failed, current := ReadManifest();
      if failed {
        return Err(Io);
      }
      ManifestBelongs(run, log, entries);
      if current.None? || current.value.runId != run.id {
        return Err(Unverifiable);
      }
      if current.value.Active? {
        StartedIsPrinted(run);
        var started := CanonicalMilliseconds(run.dates, current.value.startedAt).value;
        var completed := Completed(run.id, current.value.startedAt, run.dates.iso(Later(now, started)));
        LaterCompletes(run, now);
        CompletionMayBeTorn(run, entries.value, calls, completed);
        var ok := ReplaceManifestPortably(completed);
        if !ok {
          return Err(Io);
        }
      }
      var removed := Attempt(Remove(Marker));
      if !removed {
        return Err(Io);
      }
      return Ok(());
    }
  }

  function Later(a: int, b: int): int {
    if a > b then a else b
  }

  lemma MarkerMayBeTorn(run: Run, entries: Entries)
    ensures MayHold(run, entries, Marker, Content(None, 7))
  {
  }

  lemma StartIsNotCompletion(run: Run)
    ensures forall c :: IsStart(run, c) ==> !IsCompletion(run, c)
    ensures forall c :: IsTorn(c, Whole(run, Active(run.id, run.startedAt))) ==> IsStart(run, c)
  {
    var start := Active(run.id, run.startedAt);
    ParseManifestExactlyOwn(run, start);
    hide ParseManifest, SerializeManifest;
  }

  lemma ParseManifestExactlyOwn(run: Run, m: Manifest)
    ensures Parsed(run, Whole(run, m)).Some? ==> Parsed(run, Whole(run, m)) == Some(m)
  {
  }

  lemma ManifestIsStart(run: Run, log: seq<Effect>, entries: Entries)
    requires Disciplined(run, log) && Replay(log) == Some(entries) && ManifestFile in entries && !HasCompleted(run, Some(entries))
    ensures IsStart(run, entries[ManifestFile])
  {
    DisciplinedIsSound(run, log);
  }

  /** Whatever manifest is read is the run's own, active or completed. */
  lemma ManifestBelongs(run: Run, log: seq<Effect>, d: Option<Entries>)
    requires Disciplined(run, log) && Replay(log) == d
    ensures var m := ReadAt(run, d, ManifestFile);
      m.Some? ==> m == Some(Active(run.id, run.startedAt)) || (CompletesRun(run, m.value) && HasCompleted(run, d))
    ensures ReadAt(run, d, ManifestFile) == Some(Active(run.id, run.startedAt)) ==> !HasCompleted(run, d)
  {
    DisciplinedIsSound(run, log);
    hide ParseManifest;
  }

  lemma StartedIsPrinted(run: Run)
    requires Faithful(run.dates) && exists ms :: InDateRange(ms) && run.startedAt == run.dates.iso(ms)
    ensures CanonicalMilliseconds(run.dates, run.startedAt).Some? && InDateRange(CanonicalMilliseconds(run.dates, run.startedAt).value)
  {
  }

  lemma LaterCompletes(run: Run, now: int)
    requires Faithful(run.dates) && InDateRange(now) && exists ms :: InDateRange(ms) && run.startedAt == run.dates.iso(ms)
    ensures CanonicalMilliseconds(run.dates, run.startedAt).Some?
    ensures CompletesRun(run, Completed(run.id, run.startedAt, run.dates.iso(Later(now, CanonicalMilliseconds(run.dates,
        run.startedAt).value))))
  {
    var ms :| InDateRange(ms) && run.startedAt == run.dates.iso(ms);
    WrittenManifestsAreSound(run.dates, run.id, ms, now);
  }
}
