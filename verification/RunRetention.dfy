/**
 Retention of completed runs: the snapshot of the run directories, the newest ones kept, and the
 checked deletion of the others through a quarantine name. Other processes may change everything
 but the quarantine names between any two operations.
 */
module RunRetention {
  import opened Wrappers
  import opened Text
  import opened Sorting
  import opened RunManifest

  datatype Identity = Identity(dev: nat, ino: nat)

  /** What stands at a name: a directory with what retention looks at, or anything else. */
  datatype Entry =
    | Other
    | Directory(identity: Identity, marker: bool, manifest: Option<Manifest>, empty: bool)

  /** Names in the runs directory; a quarantine name is drawn at random and used by no one else. */
  datatype Name = Run(id: Str) | Quarantine(call: nat)

  datatype MarkerState = Present | Absent | Unknown

  datatype Candidate = Candidate(id: Str, manifest: Manifest, identity: Identity)

  datatype Outcome = Removed | Preserved | Failed

  datatype RetentionResult = RetentionResult(removed: seq<Str>, retained: seq<Str>, preserved: seq<Name>)

  /** A rename put one entry at a name in place of another, which is gone. */
  datatype Replacement = Replacement(name: Name, moved: Entry, target: Entry)

  /** The entry is the one in the snapshot, and still a completed run without a marker. */
  predicate IsVerified(c: Candidate, e: Entry) {
    e.Directory? && e.identity == c.identity && !e.marker && e.manifest == Some(c.manifest) && c.manifest.Completed?
  }

  /** rename replaces an empty directory by a directory, and a file by a file. */
  predicate Replaceable(source: Entry, target: Entry) {
    if source.Directory? then target.Directory? && target.empty else target.Other?
  }

  /** Verified is a directory with the identity of the snapshot, no marker, and the same completed manifest. */
  lemma VerifiedExactly(c: Candidate, e: Entry)
    ensures IsVerified(c, e) <==>
      && (exists empty :: e == Directory(c.identity, false, Some(c.manifest), empty))
      && exists id, started, completed :: c.manifest == Completed(id, started, completed)
  {
    if IsVerified(c, e) {
      assert e == Directory(c.identity, false, Some(c.manifest), e.empty);
      assert c.manifest == Completed(c.manifest.runId, c.manifest.startedAt, c.manifest.completedAt);
    }
  }

  /** rename replaces like by like, and of directories only an empty one. */
  lemma ReplaceableExactly(source: Entry, target: Entry)
    ensures Replaceable(source, target) <==>
      (source == Other && target == Other) || (source != Other && exists id, marker, m :: target == Directory(id, marker, m, true))
  {
    if target.Directory? && target.empty {
      assert target == Directory(target.identity, target.marker, target.manifest, true);
    }
  }

  function Renamed(entries: map<Name, Entry>, source: Name, target: Name): map<Name, Entry>
    requires source in entries
  {
    (entries - {source})[target := entries[source]]
  }

  // ---------------------------------------------------------------- order of candidates

  function Milliseconds(dates: Dates, text: Str): int {
    match CanonicalMilliseconds(dates, text)
    case Some(ms) => ms
    case None => 0
  }

  /** A completed run under its own name, with canonical timestamps. */
  predicate IsCandidate(dates: Dates, c: Candidate) {
    c.manifest.Completed? && c.manifest.runId == c.id && IsManifest(dates, c.manifest)
  }

  /** Candidates are the completed manifests that are read back from their printing, under their own names. */
  lemma CandidateExactly(dates: Dates, c: Candidate)
    ensures IsCandidate(dates, c) <==>
      && ParseManifest(dates, SerializeManifest(c.manifest)) == Some(c.manifest)
      && exists started, completed :: c.manifest == Completed(c.id, started, completed)
  {
    ManifestRoundTrip(dates, c.manifest);
    hide ParseManifest, SerializeManifest, IsManifest;
    if IsCandidate(dates, c) {
      assert c.manifest == Completed(c.id, c.manifest.startedAt, c.manifest.completedAt);
    }
  }

  /** Newest completion first, then newest start, then the identifier. */
  predicate Newer(dates: Dates, a: Candidate, b: Candidate) {
    if !a.manifest.Completed? || !b.manifest.Completed? then a.manifest.Completed? || !b.manifest.Completed?
    else
      var ca, cb := Milliseconds(dates, a.manifest.completedAt), Milliseconds(dates, b.manifest.completedAt);
      var sa, sb := Milliseconds(dates, a.manifest.startedAt), Milliseconds(dates, b.manifest.startedAt);
      if ca != cb then ca > cb else if sa != sb then sa > sb else LexLe(a.id, b.id)
  }

  function NewestFirst(dates: Dates): (Candidate, Candidate) -> bool {
    (a, b) => Newer(dates, a, b)
  }

  lemma NewestFirstIsTotal(dates: Dates)
    ensures TotalPreorder(NewestFirst(dates))
  {
    hide LexLe, Milliseconds;
    var le := NewestFirst(dates);
    forall x, y ensures le(x, y) || le(y, x) {
      LexTotal(x.id, y.id);
    }
    forall x, y, z | le(x, y) && le(y, z) ensures le(x, z) {
      if LexLe(x.id, y.id) && LexLe(y.id, z.id) {
        LexTransitive(x.id, y.id, z.id);
      }
    }
  }

  predicate DistinctIds(s: seq<Candidate>) {
    forall i, j | 0 <= i < j < |s| :: s[i].id != s[j].id
  }

  /** Among completed runs with distinct identifiers the order is strict. */
  lemma NewestFirstDistinguishes(dates: Dates, s: seq<Candidate>)
    requires DistinctIds(s) && forall c | c in s :: c.manifest.Completed?
    ensures Distinguishes(s, NewestFirst(dates))
  {
    hide LexLe, Milliseconds;
    var le := NewestFirst(dates);
    forall x, y | x in s && y in s && le(x, y) && le(y, x) ensures x == y {
      LexTotal(x.id, y.id);
    }
  }

  function Ids(s: seq<Candidate>): (r: seq<Str>)
    ensures |r| == |s| && forall i | 0 <= i < |s| :: r[i] == s[i].id
  {
    seq(|s|, i requires 0 <= i < |s| => s[i].id)
  }

  /** The kept runs: a prefix of the sorted snapshot as long as allowed. */
  function Kept(dates: Dates, snapshot: seq<Candidate>, limit: nat): seq<Candidate> {
    var sorted := SortBy(snapshot, NewestFirst(dates));
    if |sorted| <= limit then sorted else sorted[..limit]
  }

  function Surplus(dates: Dates, snapshot: seq<Candidate>, limit: nat): seq<Candidate> {
    var sorted := SortBy(snapshot, NewestFirst(dates));
    if |sorted| <= limit then [] else sorted[limit..]
  }

  /**
   The first run completed later than the second; or at the same time, and started later; or both at
   the same times, and its identifier comes first.
   */
  predicate ComesFirst(dates: Dates, first: Candidate, second: Candidate)
    requires first.manifest.Completed? && second.manifest.Completed?
  {
    var end, otherEnd := Milliseconds(dates, first.manifest.completedAt), Milliseconds(dates, second.manifest.completedAt);
    var start, otherStart := Milliseconds(dates, first.manifest.startedAt), Milliseconds(dates, second.manifest.startedAt);
    && end >= otherEnd
    && (end == otherEnd ==> start >= otherStart)
    && (end == otherEnd && start == otherStart ==> LexLe(first.id, second.id))
  }

  /** The kept runs completed no earlier than the surplus ones, and ties are broken by start and identifier. */
  lemma KeptComeFirst(dates: Dates, snapshot: seq<Candidate>, limit: nat)
    requires forall c | c in snapshot :: c.manifest.Completed?
    ensures forall k, s | k in Kept(dates, snapshot, limit) && s in Surplus(dates, snapshot, limit) ::
      k.manifest.Completed? && s.manifest.Completed? && ComesFirst(dates, k, s)
  {
    hide Milliseconds, LexLe, SortBy;
    KeptAreNewest(dates, snapshot, limit);
    var kept, surplus := Kept(dates, snapshot, limit), Surplus(dates, snapshot, limit);
    forall c | c in kept || c in surplus ensures c in snapshot {
      assert c in multiset(kept) + multiset(surplus);
    }
    forall k, s | k in kept && s in surplus ensures ComesFirst(dates, k, s) {
      assert Newer(dates, k, s);
    }
  }

  /** Told apart by their identifiers, a run that was kept comes before one that was not. */
  lemma KeptIdsComeFirst(dates: Dates, snapshot: seq<Candidate>, limit: nat)
    requires DistinctIds(snapshot) && forall c | c in snapshot :: c.manifest.Completed?
    ensures forall k, s | k in snapshot && s in snapshot
      && k.id in Ids(Kept(dates, snapshot, limit)) && s.id in Ids(Surplus(dates, snapshot, limit)) :: ComesFirst(dates, k, s)
  {
    hide ComesFirst, Kept, Surplus;
    KeptComeFirst(dates, snapshot, limit);
    KeptAreNewest(dates, snapshot, limit);
    var kept, surplus := Kept(dates, snapshot, limit), Surplus(dates, snapshot, limit);
    forall k, s | k in snapshot && s in snapshot && k.id in Ids(kept) && s.id in Ids(surplus) ensures ComesFirst(dates, k, s) {
      IdNames(dates, snapshot, kept, surplus, k);
      IdNames(dates, snapshot, surplus, kept, s);
    }
  }

  lemma IdNames(dates: Dates, snapshot: seq<Candidate>, part: seq<Candidate>, rest: seq<Candidate>, c: Candidate)
    requires DistinctIds(snapshot) && c in snapshot && c.id in Ids(part) && multiset(part) + multiset(rest) == multiset(snapshot)
    ensures c in part
  {
    var i :| 0 <= i < |part| && part[i].id == c.id;
    assert part[i] in multiset(snapshot);
  }

  /** Kept and surplus runs are the snapshot; the kept ones are newer than all others and as many as allowed. */
  lemma KeptAreNewest(dates: Dates, snapshot: seq<Candidate>, limit: nat)
    ensures multiset(Kept(dates, snapshot, limit)) + multiset(Surplus(dates, snapshot, limit)) == multiset(snapshot)
    ensures |Kept(dates, snapshot, limit)| == if |snapshot| < limit then |snapshot| else limit
    ensures forall k, s | k in Kept(dates, snapshot, limit) && s in Surplus(dates, snapshot, limit) :: Newer(dates, k, s)
  {
    hide Newer;
    var le := NewestFirst(dates);
    var sorted := SortBy(snapshot, le);
    SortPermutes(snapshot, le);
    NewestFirstIsTotal(dates);
    SortSorts(snapshot, le);
    if |sorted| > limit {
      assert sorted == sorted[..limit] + sorted[limit..];
      forall k, s | k in sorted[..limit] && s in sorted[limit..] ensures Newer(dates, k, s) {
        var i :| 0 <= i < limit && sorted[i] == k;
        var j :| 0 <= j < |sorted| - limit && sorted[limit..][j] == s;
        assert le(sorted[i], sorted[limit + j]);
      }
    }
  }

  /** The runs kept do not depend on the order in which the directory was listed. */
  lemma KeptIgnoresListingOrder(dates: Dates, a: seq<Candidate>, b: seq<Candidate>, limit: nat)
    requires multiset(a) == multiset(b) && DistinctIds(a) && forall c | c in a :: c.manifest.Completed?
    ensures Kept(dates, a, limit) == Kept(dates, b, limit) && Surplus(dates, a, limit) == Surplus(dates, b, limit)
  {
    hide Newer;
    NewestFirstIsTotal(dates);
    NewestFirstDistinguishes(dates, a);
    SortIgnoresOrder(a, b, NewestFirst(dates));
  }

  // ---------------------------------------------------------------- the runs directory

  class RunsRoot {
    const dates: Dates
    /** No other process interferes and no operation fails. */
    const quiet: bool
    /** The text of each name, by which preserved names are ordered. */
    const nameText: Name -> Str
    var entries: map<Name, Entry>
    var calls: nat
    /** The entries handed to recursive deletion. */
    ghost var destroyed: seq<Entry>
    /** The entries that renaming has replaced. */
    ghost var replaced: seq<Replacement>

    ghost predicate Valid()
      reads this
    {
      forall k | k >= calls :: Quarantine(k) !in entries
    }

    /** Other processes act on anything but the quarantine names. */
    method Interfere()
      modifies this`entries
      ensures forall k :: Quarantine(k) in entries <==> Quarantine(k) in old(entries)
      ensures forall k | Quarantine(k) in entries :: entries[Quarantine(k)] == old(entries)[Quarantine(k)]
      ensures quiet ==> entries == old(entries)
    {
      var others: map<Name, Entry> := *;
      if !quiet {
        entries := (map n | n in others && n.Run? :: others[n]) + (map n | n in entries && n.Quarantine? :: entries[n]);
      }
    }

    /** lstat, when it succeeds on a directory. */
    method PhysicalDirectoryIdentity(name: Name) returns (identity: Option<Identity>)
      ensures identity.Some? ==> name in entries && entries[name].Directory? && entries[name].identity == identity.value
      ensures quiet && name in entries && entries[name].Directory? ==> identity.Some?
    {
      var fails: bool := *;
      if name !in entries || !entries[name].Directory? || (fails && !quiet) {
        return None;
      }
      return Some(entries[name].identity);
    }

    /** lstat of the marker; absent also when there is no directory at all. */
    method ReadMarkerState(name: Name) returns (state: MarkerState)
      ensures state.Absent? ==> name !in entries || !entries[name].Directory? || !entries[name].marker
      ensures quiet && name in entries && entries[name].Directory? && !entries[name].marker ==> state.Absent?
    {
      var fails: bool := *;
      if fails && !quiet {
        return Unknown;
      }
      if name in entries && entries[name].Directory? && entries[name].marker {
        return Present;
      }
      return if name in entries && entries[name].Other? then Unknown else Absent;
    }

    /** A directory with a sound manifest. */
    predicate Manifested(e: Entry) {
      e.Directory? && e.manifest.Some? && IsManifest(dates, e.manifest.value)
    }

    /** The manifest, when it can be read and is one. */
    method ReadManifestForRetention(name: Name) returns (m: Option<Manifest>)
      ensures m.Some? ==> name in entries && (entries[name].Directory? ==> entries[name].manifest == m) && IsManifest(dates, m.value)
      ensures quiet && name in entries && Manifested(entries[name]) ==> m == entries[name].manifest
    {
      var fails: bool := *;
      if name !in entries || (fails && !quiet) {
        return None;
      }
      var reachable: Option<Manifest> := *;
      m := if entries[name].Directory? then entries[name].manifest else reachable;
      if m.Some? && !IsManifest(dates, m.value) {
        return None;
      }
    }

    /** What stood at the target is gone. */
    method Rename(source: Name, target: Name) returns (ok: bool)
      modifies this`entries, this`replaced
      ensures ok ==> source in old(entries) && entries == Renamed(old(entries), source, target)
      ensures replaced == if ok && target in old(entries)
          then old(replaced) + [Replacement(target, old(entries)[source], old(entries)[target])] else old(replaced)
      ensures ok && target in old(entries) ==> Replaceable(old(entries)[source], old(entries)[target])
      ensures !ok ==> entries == old(entries)
      ensures quiet && source in old(entries) && target !in old(entries) ==> ok
    {
      var fails: bool := *;
      ok := source in entries && (target in entries ==> Replaceable(entries[source], entries[target])) && !(fails && !quiet);
      if ok {
        if target in entries {
          replaced := replaced + [Replacement(target, entries[source], entries[target])];
        }
        entries := Renamed(entries, source, target);
      }
    }

    /** Recursive deletion; a failure may leave part of the directory. */
    method RemoveTree(name: Name) returns (ok: bool)
      requires name in entries
      modifies this`entries, this`destroyed
      ensures destroyed == old(destroyed) + [old(entries)[name]]
      ensures ok ==> entries == old(entries) - {name}
      ensures !ok ==> name in entries && entries - {name} == old(entries) - {name}
      ensures forall other | other != name :: other in entries <==> other in old(entries)
      ensures quiet ==> ok
    {
      destroyed := destroyed + [entries[name]];
      var fails: bool := *;
      ok := !(fails && !quiet);
      if ok {
        entries := entries - {name};
      } else {
        var remains: Entry := *;
        entries := entries[name := remains];
      }
    }

    /** One round of the three checks, with interference between them. */
    method Observe(name: Name) returns (identity: Option<Identity>, marker: MarkerState, m: Option<Manifest>)
      requires Valid()
      modifies this`entries
      ensures Valid()
      ensures forall k :: Quarantine(k) in entries <==> Quarantine(k) in old(entries)
      ensures forall k | Quarantine(k) in entries :: entries[Quarantine(k)] == old(entries)[Quarantine(k)]
      ensures quiet ==> entries == old(entries)
      ensures m.Some? ==> IsManifest(dates, m.value)
      ensures name.Quarantine? || quiet ==>
        && (identity.Some? ==> name in entries && entries[name].Directory? && entries[name].identity == identity.value)
        && (identity.Some? && marker.Absent? ==> !entries[name].marker)
        && (identity.Some? && m.Some? ==> entries[name].manifest == m)
      ensures quiet && name in entries && entries[name].Directory? ==>
        && identity.Some? && (!entries[name].marker ==> marker.Absent?)
        && (entries[name].manifest.Some? && IsManifest(dates, entries[name].manifest.value) ==> m == entries[name].manifest)
    {
      hide IsManifest;
      identity := PhysicalDirectoryIdentity(name);
      Interfere();
      marker := ReadMarkerState(name);
      Interfere();
      m := ReadManifestForRetention(name);
    }

    predicate Confirms(c: Candidate, identity: Option<Identity>, marker: MarkerState, m: Option<Manifest>) {
      identity == Some(c.identity) && marker.Absent? && m == Some(c.manifest) && c.manifest.Completed?
    }

    /**
     Deletes the candidate only after checking it again under a name that nobody else uses. Whatever
     others do meanwhile, what is deleted is the directory of the snapshot, without a marker and
     with the same completed manifest; what fails the check is moved back, or stays quarantined.
     Moving back replaces what others put at the run name meanwhile, if rename can replace it.
     */
    method DeleteCompletedCandidateSafely(c: Candidate) returns (outcome: Outcome)
      requires Valid()
      modifies this
      ensures Valid() && calls == old(calls) + 1
      ensures destroyed == old(destroyed) || (|destroyed| == |old(destroyed)| + 1
          && destroyed[..|old(destroyed)|] == old(destroyed) && IsVerified(c, destroyed[|old(destroyed)|]))
      ensures outcome == Removed ==> |destroyed| == |old(destroyed)| + 1
      ensures outcome == Preserved ==> destroyed == old(destroyed)
      ensures ReplacedOnly(if outcome == Preserved then [Run(c.id)] else [], old(replaced), replaced)
      ensures outcome != Failed ==> Quarantine(old(calls)) !in entries
      ensures outcome == Failed ==> Quarantine(old(calls)) in entries
      ensures forall k: nat | k < old(calls) :: Quarantine(k) in entries <==> Quarantine(k) in old(entries)
      ensures quiet && IsManifest(dates, c.manifest) ==>
        if Run(c.id) in old(entries) && IsVerified(c, old(entries)[Run(c.id)])
        then outcome == Removed && entries == old(entries) - {Run(c.id)}
        else outcome == Preserved && entries == old(entries)
      ensures quiet ==> replaced == old(replaced)
    {
      hide IsManifest, Replaceable, ReplacedOnly;
      NothingReplaced([], replaced);
      NothingReplaced([Run(c.id)], replaced);
      var path, quarantine := Run(c.id), Quarantine(calls);
      calls := calls + 1;
      var identity, marker, m := Observe(path);
      if !Confirms(c, identity, marker, m) {
        return Preserved;
      }
      Interfere();
      var moved := Rename(path, quarantine);
      if !moved {
        return Preserved;
      }
      identity, marker, m := Observe(quarantine);
      if !Confirms(c, identity, marker, m) {
        var restored, _ := RollbackQuarantine(quarantine, path);
        return restored;
      }
      Interfere();
      var last := PhysicalDirectoryIdentity(quarantine);
      if last != Some(c.identity) {
        var restored, _ := RollbackQuarantine(quarantine, path);
        return restored;
      }
      Interfere();
      var deleted := RemoveTree(quarantine);
      return if deleted then Removed else Failed;
    }

    /**
     Moves the quarantined entry back; when that fails it stays where it is and the call fails. It
     replaces what it meets at the run name, exactly when it succeeds and meets something.
     */
    method RollbackQuarantine(quarantine: Name, path: Name) returns (outcome: Outcome, ghost met: Option<Entry>)
      requires quarantine.Quarantine? && path.Run? && quarantine in entries
      modifies this`entries, this`replaced
      ensures replaced == if outcome == Preserved && met.Some?
          then old(replaced) + [Replacement(path, old(entries)[quarantine], met.value)] else old(replaced)
      ensures outcome == Preserved && met.Some? ==> Replaceable(old(entries)[quarantine], met.value)
      ensures quiet ==> met == if path in old(entries) then Some(old(entries)[path]) else None
      ensures ReplacedOnly(if outcome == Preserved then [path] else [], old(replaced), replaced)
      ensures outcome == Preserved || outcome == Failed
      ensures forall k | Quarantine(k) != quarantine :: Quarantine(k) in entries <==> Quarantine(k) in old(entries)
      ensures outcome == Preserved ==> quarantine !in entries && path in entries && entries[path] == old(entries)[quarantine]
      ensures outcome == Failed ==> quarantine in entries && entries[quarantine] == old(entries)[quarantine]
    {
      Interfere();
      hide Replaceable, ReplacedOnly;
      met := if path in entries then Some(entries[path]) else None;
      var restored := Rename(quarantine, path);
      outcome := if restored then Preserved else Failed;
      if restored && met.Some? {
        OneReplaced(replaced[|replaced| - 1], old(replaced));
      } else {
        NothingReplaced(if restored then [path] else [], replaced);
      }
    }

    /** The names in the directory, each with whether it was a directory when listed. */
    method ReadDirectory() returns (listing: seq<Dirent>)
      ensures Listed(listing, entries)
    {
      listing := [];
      var left := entries.Keys;
      while left != {}
        invariant left <= entries.Keys
        invariant forall n | n in entries :: n !in left <==> HasName(listing, n)
        invariant forall n | HasName(listing, n) :: n in entries
        invariant DistinctNames(listing)
        invariant forall k | 0 <= k < |listing| :: IsListed(listing[k], entries)
        decreases left
      {
        hide HasName;
        var n :| n in left;
        AppendNames(listing, Dirent(n, entries[n].Directory?));
        forall k | 0 <= k < |listing| ensures listing[k].name != n {
          NamesItself(listing, k);
        }
        left := left - {n};
        listing := listing + [Dirent(n, entries[n].Directory?)];
      }
    }

    /** The candidate that stands at a listed name, as far as it can be seen. */
    method Inspect(entry: Dirent) returns (c: Option<Candidate>)
      requires Valid()
      modifies this`entries
      ensures Valid() && (quiet ==> entries == old(entries))
      ensures c.Some? ==> IsCandidate(dates, c.value) && entry.name == Run(c.value.id)
      ensures quiet && IsListed(entry, entries) ==>
          forall d :: c == Some(d) <==> Snapshotted(dates, entries, d) && entry.name == Run(d.id)
    {
      hide IsManifest;
      Interfere();
      if !entry.directory {
        return None;
      }
      var identity, marker, m := Observe(entry.name);
      if identity.None? || !marker.Absent? || m.None? || !m.value.Completed? || entry.name != Run(m.value.runId) {
        return None;
      }
      return Some(Candidate(m.value.runId, m.value, identity.value));
    }

    /** The candidates among the listed names, and the names that are none. */
    method Snapshot(listing: seq<Dirent>) returns (candidates: seq<Candidate>, preserved: seq<Name>)
      requires Valid() && DistinctNames(listing)
      modifies this`entries
      ensures Valid() && (quiet ==> entries == old(entries))
      ensures IsSplitListing(dates, listing, candidates, preserved)
      ensures quiet && Listed(listing, entries) ==> forall c :: c in candidates <==> Snapshotted(dates, entries, c)
    {
      hide IsSplitListing, DistinctNames, Snapshotted, IsCandidate, IsListed;
      candidates, preserved := [], [];
      NothingListed(dates, listing);
      for i := 0 to |listing|
        invariant Valid() && (quiet ==> entries == old(entries))
        invariant IsSplitListing(dates, listing[..i], candidates, preserved)
        invariant quiet && Listed(listing, entries) ==> AllSnapshotted(dates, entries, listing[..i], candidates)
      {
        var entry := listing[i];
        assert listing[..i + 1] == listing[..i] + [entry];
        NewName(listing, i);
        var c := Inspect(entry);
        if c.None? {
          PreserveName(dates, listing[..i], entry, candidates, preserved);
          if quiet && Listed(listing, entries) {
            SkipSnapshot(dates, entries, listing[..i], entry, candidates);
          }
          preserved := preserved + [entry.name];
        } else {
          AddCandidate(dates, listing[..i], entry, candidates, preserved, c.value);
          if quiet && Listed(listing, entries) {
            AddSnapshot(dates, entries, listing[..i], entry, candidates, c.value);
          }
          candidates := candidates + [c.value];
        }
      }
      assert listing[..|listing|] == listing;
      if quiet && Listed(listing, entries) {
        AllListed(dates, entries, listing, candidates);
      }
    }

    /** Deletes the surplus runs in order; what cannot be verified any more is preserved. */
    method DeleteSurplus(surplus: seq<Candidate>) returns (failed: bool, removed: seq<Str>, spared: seq<Name>)
      requires Valid() && DistinctIds(surplus) && forall c | c in surplus :: IsCandidate(dates, c)
      modifies this
      ensures Valid()
      ensures DestroyedVerified(surplus, old(destroyed), destroyed)
      ensures ReplacedOnly(spared, old(replaced), replaced) && multiset(spared) <= multiset(RunNames(Ids(surplus)))
      ensures quiet ==> replaced == old(replaced)
      ensures !failed ==>
        && multiset(RunNames(removed)) + multiset(spared) == multiset(RunNames(Ids(surplus)))
        && |destroyed| == |old(destroyed)| + |removed|
      ensures quiet && AllPresent(dates, old(entries), surplus) ==>
        !failed && removed == Ids(surplus) && spared == [] && entries == old(entries) - NamesOf(surplus)
    {
      hide IsVerified, IsManifest, DestroyedVerified, ReplacedOnly, Accounted, AllGone, NamesOf, RunNames, Ids, Snapshotted;
      failed, removed, spared := false, [], [];
      NothingDestroyed(surplus, destroyed);
      NothingReplaced([], replaced);
      assert surplus[..0] == [];
      NothingDone(entries);
      for k := 0 to |surplus|
        invariant Valid() && !failed
        invariant DestroyedVerified(surplus, old(destroyed), destroyed)
        invariant Accounted(surplus[..k], removed, spared)
        invariant |destroyed| == |old(destroyed)| + |removed|
        invariant ReplacedOnly(spared, old(replaced), replaced) && (quiet ==> replaced == old(replaced))
        invariant quiet && AllPresent(dates, old(entries), surplus) ==> AllGone(old(entries), entries, surplus[..k], removed, spared)
      {
        var c := surplus[k];
        assert surplus[..k + 1] == surplus[..k] + [c];
        ghost var before, formerly, there := destroyed, replaced, entries;
        if quiet && AllPresent(dates, old(entries), surplus) {
          StillThere(dates, old(entries), entries, surplus, k, removed, spared);
        }
        AccountedStep(surplus[..k], c, removed, spared);
        var outcome := DeleteCompletedCandidateSafely(c);
        DestroyedStep(surplus, old(destroyed), before, c, destroyed);
        ReplacedStep(spared, Run(c.id), outcome == Preserved, old(replaced), formerly, replaced);
        if outcome == Failed {
          SparedAreNamed(surplus, k, removed, spared);
          failed := true;
          return;
        }
        if outcome == Removed {
          if quiet && AllPresent(dates, old(entries), surplus) {
            GoneStep(old(entries), there, surplus[..k], c, removed, spared);
          }
          removed := removed + [c.id];
        } else {
          spared := spared + [Run(c.id)];
        }
      }
      SparedAreNamed(surplus, |surplus|, removed, spared);
      assert surplus[..|surplus|] == surplus;
      AccountedAll(surplus, removed, spared);
      if quiet && AllPresent(dates, old(entries), surplus) {
        GoneAll(old(entries), entries, surplus, removed, spared);
      }
    }

    /**
     Keeps the newest completed runs and deletes the others. Every listed name ends in exactly one
     of removed, retained and preserved, the retained ones are the newest of the snapshot, and
     whatever was deleted was a verified surplus run. Whatever else is gone was replaced by moving
     back a preserved run, at most one entry for each.
     */
    method PruneCompletedRunsFromRoot(limit: nat)
      returns (r: Option<RetentionResult>, ghost listing: seq<Dirent>, ghost snapshot: seq<Candidate>)
      requires Valid()
      modifies this
      ensures Valid()
      ensures DestroyedVerified(Surplus(dates, snapshot, limit), old(destroyed), destroyed)
      ensures ReplacedOnly(RunNames(Ids(Surplus(dates, snapshot, limit))), old(replaced), replaced)
      ensures r.Some? ==> ReplacedOnly(r.value.preserved, old(replaced), replaced)
      ensures r.Some? ==>
        && DistinctNames(listing)
        && multiset(RunNames(r.value.removed)) + multiset(RunNames(r.value.retained)) + multiset(r.value.preserved) ==
            multiset(DirentNames(listing))
        && r.value.retained == Ids(Kept(dates, snapshot, limit))
        && SortedBy(r.value.preserved, NameOrder(nameText))
        && |destroyed| == |old(destroyed)| + |r.value.removed|
      ensures quiet ==>
        && r.Some? && Listed(listing, old(entries))
        && (forall c :: c in snapshot <==> Snapshotted(dates, old(entries), c))
        && r.value.removed == Ids(Surplus(dates, snapshot, limit))
        && (forall k, s | Snapshotted(dates, old(entries), k) && Snapshotted(dates, old(entries), s)
              && k.id in r.value.retained && s.id in r.value.removed :: ComesFirst(dates, k, s))
        && entries == old(entries) - NamesOf(Surplus(dates, snapshot, limit))
        && replaced == old(replaced)
    {
      hide Ids, RunNames, DirentNames, DestroyedVerified, Listed, Snapshotted, NamesOf, IsManifest, SortBy, SortedBy, Newer,
          IsSplitListing, DistinctIds;
      listing, snapshot := [], [];
      var unreadable: bool := *;
      if unreadable && !quiet {
        NothingDestroyed(Surplus(dates, snapshot, limit), destroyed);
        NothingReplaced(RunNames(Ids(Surplus(dates, snapshot, limit))), replaced);
        return None, listing, snapshot;
      }
      var listed := ReadDirectory();
      listing := listed;
      ListedIsDistinct(listed, entries);
      var candidates, preserved := Snapshot(listed);
      snapshot := candidates;
      var sorted := SortBy(candidates, NewestFirst(dates));
      var retained := if |sorted| <= limit then sorted else sorted[..limit];
      var surplus := if |sorted| <= limit then [] else sorted[limit..];
      SurplusFacts(dates, listed, candidates, preserved, limit);
      if quiet {
        SnapshotComesFirst(dates, entries, listed, candidates, preserved, limit);
        SurplusPresent(dates, entries, candidates, limit);
      }
      var failed, removed, spared := DeleteSurplus(surplus);
      if failed {
        return None, listing, snapshot;
      }
      var order := NameOrder(nameText);
      NameOrderIsTotal(nameText);
      SortPermutes(preserved + spared, order);
      SortSorts(preserved + spared, order);
      r := Some(RetentionResult(removed, Ids(retained), SortBy(preserved + spared, order)));
    }
  }

  lemma SnapshotComesFirst(dates: Dates, entries: map<Name, Entry>, listing: seq<Dirent>, candidates: seq<Candidate>,
      preserved: seq<Name>, limit: nat)
    requires IsSplitListing(dates, listing, candidates, preserved)
    requires forall c :: c in candidates <==> Snapshotted(dates, entries, c)
    ensures forall k, s | Snapshotted(dates, entries, k) && Snapshotted(dates, entries, s)
      && k.id in Ids(Kept(dates, candidates, limit)) && s.id in Ids(Surplus(dates, candidates, limit)) :: ComesFirst(dates, k, s)
  {
    hide ComesFirst, Kept, Surplus, Snapshotted;
    KeptIdsComeFirst(dates, candidates, limit);
  }

  function NameOrder(text: Name -> Str): (Name, Name) -> bool {
    (a, b) => LexLe(text(a), text(b))
  }

  lemma NameOrderIsTotal(text: Name -> Str)
    ensures TotalPreorder(NameOrder(text))
  {
    hide LexLe;
    var le := NameOrder(text);
    forall x, y ensures le(x, y) || le(y, x) {
      LexTotal(text(x), text(y));
    }
    forall x, y, z | le(x, y) && le(y, z) ensures le(x, z) {
      LexTransitive(text(x), text(y), text(z));
    }
  }

  lemma ListedIsDistinct(listing: seq<Dirent>, entries: map<Name, Entry>)
    requires Listed(listing, entries)
    ensures DistinctNames(listing)
  {
  }

  lemma NamesCons(s: seq<Candidate>)
    requires s != []
    ensures RunNames(Ids(s)) == [Run(s[0].id)] + RunNames(Ids(s[1..]))
  {
  }

  lemma {:induction false} InsertNames(c: Candidate, s: seq<Candidate>, le: (Candidate, Candidate) -> bool)
    ensures multiset(RunNames(Ids(Insert(c, s, le)))) == multiset(RunNames(Ids(s))) + multiset{Run(c.id)}
  {
    hide RunNames, Ids;
    NamesCons(Insert(c, s, le));
    if s == [] {
      NoNames();
    } else if le(c, s[0]) {
      assert ([c] + s)[1..] == s;
    } else {
      NamesCons(s);
      InsertNames(c, s[1..], le);
      assert ([s[0]] + Insert(c, s[1..], le))[1..] == Insert(c, s[1..], le);
    }
  }

  lemma {:induction false} SortNames(s: seq<Candidate>, le: (Candidate, Candidate) -> bool)
    ensures multiset(RunNames(Ids(SortBy(s, le)))) == multiset(RunNames(Ids(s)))
  {
    hide RunNames, Ids;
    if s != [] {
      NamesCons(s);
      SortNames(s[1..], le);
      InsertNames(s[0], SortBy(s[1..], le), le);
    }
  }

  lemma {:induction false} DistinctNamesOnce(s: seq<Candidate>, n: Name)
    requires DistinctIds(s)
    ensures multiset(RunNames(Ids(s)))[n] <= 1
  {
    hide RunNames, Ids;
    if s == [] {
      NoNames();
    } else {
      NamesCons(s);
      DistinctNamesOnce(s[1..], n);
      if n == Run(s[0].id) {
        assert n !in RunNames(Ids(s[1..])) by {
          NamesAre(s[1..]);
        }
      }
    }
  }

  lemma NamesAre(s: seq<Candidate>)
    ensures forall n :: n in RunNames(Ids(s)) <==> exists i :: 0 <= i < |s| && n == Run(s[i].id)
  {
    var names := RunNames(Ids(s));
    forall i | 0 <= i < |s| ensures Run(s[i].id) in names {
      assert names[i] == Run(s[i].id);
    }
  }

  lemma OnceIsDistinct(s: seq<Candidate>)
    requires forall n :: multiset(RunNames(Ids(s)))[n] <= 1
    ensures DistinctIds(s)
  {
    var names := RunNames(Ids(s));
    forall i, j | 0 <= i < j < |s| ensures s[i].id != s[j].id {
      if names[i] == names[j] {
        TwiceInSeq(names, i, j);
      }
    }
  }

  lemma SortKeepsDistinct(s: seq<Candidate>, le: (Candidate, Candidate) -> bool)
    requires DistinctIds(s)
    ensures DistinctIds(SortBy(s, le))
  {
    hide RunNames, Ids, DistinctIds;
    forall n ensures multiset(RunNames(Ids(s)))[n] <= 1 {
      DistinctNamesOnce(s, n);
    }
    SortNames(s, le);
    OnceIsDistinct(SortBy(s, le));
  }

  lemma NamesConcat(a: seq<Candidate>, b: seq<Candidate>)
    ensures RunNames(Ids(a + b)) == RunNames(Ids(a)) + RunNames(Ids(b))
  {
  }

  /** The surplus runs are sound, distinct, and with the kept ones and the preserved names make up the listing. */
  lemma SurplusFacts(dates: Dates, listing: seq<Dirent>, candidates: seq<Candidate>, preserved: seq<Name>, limit: nat)
    requires IsSplitListing(dates, listing, candidates, preserved)
    ensures var kept, surplus := Kept(dates, candidates, limit), Surplus(dates, candidates, limit);
      && DistinctIds(surplus) && (forall c | c in surplus :: IsCandidate(dates, c))
      && multiset(RunNames(Ids(surplus))) + multiset(RunNames(Ids(kept))) + multiset(preserved) == multiset(DirentNames(listing))
  {
    hide Newer, IsCandidate, RunNames, Ids, SortBy;
    var le := NewestFirst(dates);
    var sorted := SortBy(candidates, le);
    var kept, surplus := Kept(dates, candidates, limit), Surplus(dates, candidates, limit);
    SortPermutes(candidates, le);
    SortNames(candidates, le);
    SortKeepsDistinct(candidates, le);
    forall c | c in surplus ensures c in candidates {
      assert c in multiset(sorted);
    }
    assert sorted == kept + surplus;
    NamesConcat(kept, surplus);
  }

  lemma SurplusPresent(dates: Dates, entries: map<Name, Entry>, candidates: seq<Candidate>, limit: nat)
    requires forall c :: c in candidates <==> Snapshotted(dates, entries, c)
    ensures AllPresent(dates, entries, Surplus(dates, candidates, limit))
  {
    hide Newer, Snapshotted;
    var sorted := SortBy(candidates, NewestFirst(dates));
    SortPermutes(candidates, NewestFirst(dates));
    forall c | c in Surplus(dates, candidates, limit) ensures Snapshotted(dates, entries, c) {
      assert c in multiset(sorted);
    }
  }

  /** Exactly these runs were removed, and nothing else. */
  predicate AllGone(before: map<Name, Entry>, after: map<Name, Entry>, gone: seq<Candidate>, removed: seq<Str>, spared: seq<Name>) {
    removed == Ids(gone) && spared == [] && after == before - NamesOf(gone)
  }

  /** Each of these runs was either removed or spared. */
  predicate Accounted(done: seq<Candidate>, removed: seq<Str>, spared: seq<Name>) {
    multiset(RunNames(removed)) + multiset(spared) == multiset(RunNames(Ids(done)))
  }

  lemma NothingDone(entries: map<Name, Entry>)
    ensures Accounted([], [], []) && AllGone(entries, entries, [], [], [])
  {
    hide RunNames, Ids, NamesOf;
    NoNames();
  }

  lemma AccountedStep(done: seq<Candidate>, c: Candidate, removed: seq<Str>, spared: seq<Name>)
    requires Accounted(done, removed, spared)
    ensures Accounted(done + [c], removed + [c.id], spared) && Accounted(done + [c], removed, spared + [Run(c.id)])
  {
    hide RunNames, Ids, NamesOf;
    NamesOfSnoc(done, c);
    RunNamesSnoc(removed, c.id);
  }

  lemma AccountedAll(done: seq<Candidate>, removed: seq<Str>, spared: seq<Name>)
    requires Accounted(done, removed, spared)
    ensures multiset(RunNames(removed)) + multiset(spared) == multiset(RunNames(Ids(done)))
  {
  }

  lemma GoneStep(before: map<Name, Entry>, after: map<Name, Entry>, gone: seq<Candidate>, c: Candidate, removed: seq<Str>,
      spared: seq<Name>)
    requires AllGone(before, after, gone, removed, spared)
    ensures AllGone(before, after - {Run(c.id)}, gone + [c], removed + [c.id], spared)
  {
    hide RunNames, Ids, NamesOf;
    NamesOfSnoc(gone, c);
  }

  lemma GoneAll(before: map<Name, Entry>, after: map<Name, Entry>, gone: seq<Candidate>, removed: seq<Str>, spared: seq<Name>)
    requires AllGone(before, after, gone, removed, spared)
    ensures removed == Ids(gone) && spared == [] && after == before - NamesOf(gone)
  {
  }

  lemma SparedAreNamed(s: seq<Candidate>, k: nat, removed: seq<Str>, spared: seq<Name>)
    requires k <= |s| && Accounted(s[..k], removed, spared)
    ensures multiset(spared) <= multiset(RunNames(Ids(s)))
  {
    hide RunNames, Ids;
    assert s == s[..k] + s[k..];
    NamesConcat(s[..k], s[k..]);
  }

  predicate AllPresent(dates: Dates, entries: map<Name, Entry>, s: seq<Candidate>) {
    forall c | c in s :: Snapshotted(dates, entries, c)
  }

  lemma NothingDestroyed(surplus: seq<Candidate>, destroyed: seq<Entry>)
    ensures DestroyedVerified(surplus, destroyed, destroyed)
  {
  }

  lemma NoNames()
    ensures NamesOf([]) == {} && RunNames(Ids([])) == [] && Ids([]) == [] && RunNames([]) == []
  {
  }

  /** Entries were only added, and each new one was a verified candidate. */
  ghost predicate DestroyedVerified(surplus: seq<Candidate>, before: seq<Entry>, after: seq<Entry>) {
    && |before| <= |after| && after[..|before|] == before
    && forall i | |before| <= i < |after| :: exists c :: c in surplus && IsVerified(c, after[i])
  }

  function ReplacedNames(s: seq<Replacement>): (r: seq<Name>)
    ensures |r| == |s| && forall i | 0 <= i < |s| :: r[i] == s[i].name
  {
    seq(|s|, i requires 0 <= i < |s| => s[i].name)
  }

  /** Replacements were only added, at most one at each of these names, each of an entry that rename can replace. */
  ghost predicate ReplacedOnly(names: seq<Name>, before: seq<Replacement>, after: seq<Replacement>) {
    && |before| <= |after| && after[..|before|] == before
    && (forall i | |before| <= i < |after| :: Replaceable(after[i].moved, after[i].target))
    && multiset(ReplacedNames(after[|before|..])) <= multiset(names)
  }

  lemma NothingReplaced(names: seq<Name>, replaced: seq<Replacement>)
    ensures ReplacedOnly(names, replaced, replaced)
  {
  }

  lemma OneReplaced(r: Replacement, replaced: seq<Replacement>)
    requires Replaceable(r.moved, r.target)
    ensures ReplacedOnly([r.name], replaced, replaced + [r])
  {
    assert (replaced + [r])[|replaced|..] == [r];
    assert ReplacedNames([r]) == [r.name];
  }

  lemma ReplacedStep(spared: seq<Name>, name: Name, preserved: bool, before: seq<Replacement>, after: seq<Replacement>,
      later: seq<Replacement>)
    requires ReplacedOnly(spared, before, after) && ReplacedOnly(if preserved then [name] else [], after, later)
    ensures ReplacedOnly(if preserved then spared + [name] else spared, before, later)
  {
    hide Replaceable;
    assert later[..|before|] == later[..|after|][..|before|];
    assert ReplacedNames(later[|before|..]) == ReplacedNames(after[|before|..]) + ReplacedNames(later[|after|..]);
    forall i | |before| <= i < |later| ensures Replaceable(later[i].moved, later[i].target) {
      if i < |after| {
        assert later[i] == later[..|after|][i] == after[i];
      }
    }
  }

  lemma DestroyedStep(surplus: seq<Candidate>, before: seq<Entry>, after: seq<Entry>, c: Candidate, later: seq<Entry>)
    requires DestroyedVerified(surplus, before, after) && c in surplus
    requires later == after || (|later| == |after| + 1 && later[..|after|] == after && IsVerified(c, later[|after|]))
    ensures DestroyedVerified(surplus, before, later)
  {
    hide IsVerified;
    assert later[..|before|] == later[..|after|][..|before|];
    forall i | |before| <= i < |later| ensures exists c :: c in surplus && IsVerified(c, later[i]) {
      if i < |after| {
        assert later[i] == later[..|after|][i] == after[i];
      }
    }
  }

  function NamesOf(s: seq<Candidate>): set<Name> {
    set c | c in s :: Run(c.id)
  }

  lemma NamesOfSnoc(s: seq<Candidate>, c: Candidate)
    ensures NamesOf(s + [c]) == NamesOf(s) + {Run(c.id)}
    ensures RunNames(Ids(s + [c])) == RunNames(Ids(s)) + [Run(c.id)]
    ensures Ids(s + [c]) == Ids(s) + [c.id]
  {
  }

  lemma RunNamesSnoc(ids: seq<Str>, id: Str)
    ensures RunNames(ids + [id]) == RunNames(ids) + [Run(id)]
  {
  }

  lemma StillThere(dates: Dates, before: map<Name, Entry>, entries: map<Name, Entry>, s: seq<Candidate>, k: nat, removed: seq<Str>,
      spared: seq<Name>)
    requires DistinctIds(s) && k < |s| && AllPresent(dates, before, s) && AllGone(before, entries, s[..k], removed, spared)
    ensures Run(s[k].id) in entries && IsVerified(s[k], entries[Run(s[k].id)]) && IsManifest(dates, s[k].manifest)
  {
    hide IsManifest, Ids;
    assert Snapshotted(dates, before, s[k]);
  }

  lemma NamesItself(listing: seq<Dirent>, k: nat)
    requires k < |listing|
    ensures HasName(listing, listing[k].name)
  {
  }

  lemma NewName(listing: seq<Dirent>, i: nat)
    requires DistinctNames(listing) && i < |listing|
    ensures !HasName(listing[..i], listing[i].name)
  {
  }

  predicate HasName(listing: seq<Dirent>, n: Name) {
    exists k | 0 <= k < |listing| :: listing[k].name == n
  }

  /** Every listed name is a candidate's or preserved, once; candidates are sound and distinct. */
  ghost predicate IsSplitListing(dates: Dates, listing: seq<Dirent>, candidates: seq<Candidate>, preserved: seq<Name>) {
    && multiset(RunNames(Ids(candidates))) + multiset(preserved) == multiset(DirentNames(listing))
    && (forall c | c in candidates :: IsCandidate(dates, c) && HasName(listing, Run(c.id)))
    && DistinctIds(candidates)
  }

  /** The candidates are exactly the completed runs under the listed names. */
  ghost predicate AllSnapshotted(dates: Dates, entries: map<Name, Entry>, listing: seq<Dirent>, candidates: seq<Candidate>) {
    forall c :: c in candidates <==> Snapshotted(dates, entries, c) && HasName(listing, Run(c.id))
  }

  lemma NothingListed(dates: Dates, listing: seq<Dirent>)
    ensures IsSplitListing(dates, listing[..0], [], [])
    ensures forall entries :: AllSnapshotted(dates, entries, listing[..0], [])
  {
    assert DirentNames(listing[..0]) == [] && RunNames(Ids([])) == [];
  }

  lemma AppendNames(listing: seq<Dirent>, entry: Dirent)
    ensures DirentNames(listing + [entry]) == DirentNames(listing) + [entry.name]
    ensures forall n :: HasName(listing + [entry], n) <==> HasName(listing, n) || n == entry.name
  {
    forall n ensures HasName(listing + [entry], n) <==> HasName(listing, n) || n == entry.name {
      if HasName(listing, n) {
        var k :| 0 <= k < |listing| && listing[k].name == n;
        assert (listing + [entry])[k].name == n;
      }
      assert (listing + [entry])[|listing|].name == entry.name;
    }
  }

  lemma PreserveName(dates: Dates, listing: seq<Dirent>, entry: Dirent, candidates: seq<Candidate>, preserved: seq<Name>)
    requires IsSplitListing(dates, listing, candidates, preserved)
    ensures IsSplitListing(dates, listing + [entry], candidates, preserved + [entry.name])
  {
    hide HasName, IsCandidate;
    AppendNames(listing, entry);
  }

  lemma AddCandidate(dates: Dates, listing: seq<Dirent>, entry: Dirent, candidates: seq<Candidate>, preserved: seq<Name>, c: Candidate)
    requires IsSplitListing(dates, listing, candidates, preserved) && !HasName(listing, entry.name)
    requires IsCandidate(dates, c) && entry.name == Run(c.id)
    ensures IsSplitListing(dates, listing + [entry], candidates + [c], preserved)
  {
    hide HasName, IsCandidate;
    AppendNames(listing, entry);
    assert RunNames(Ids(candidates + [c])) == RunNames(Ids(candidates)) + [entry.name];
    assert forall k | 0 <= k < |candidates| :: candidates[k] in candidates;
  }

  lemma SkipSnapshot(dates: Dates, entries: map<Name, Entry>, listing: seq<Dirent>, entry: Dirent, candidates: seq<Candidate>)
    requires AllSnapshotted(dates, entries, listing, candidates)
    requires forall d :: !(Snapshotted(dates, entries, d) && entry.name == Run(d.id))
    ensures AllSnapshotted(dates, entries, listing + [entry], candidates)
  {
    hide HasName, Snapshotted;
    AppendNames(listing, entry);
  }

  lemma AddSnapshot(dates: Dates, entries: map<Name, Entry>, listing: seq<Dirent>, entry: Dirent, candidates: seq<Candidate>,
      c: Candidate)
    requires AllSnapshotted(dates, entries, listing, candidates) && entry.name == Run(c.id)
    requires forall d :: c == d <==> Snapshotted(dates, entries, d) && entry.name == Run(d.id)
    ensures AllSnapshotted(dates, entries, listing + [entry], candidates + [c])
  {
    hide HasName, Snapshotted;
    AppendNames(listing, entry);
  }

  lemma AllListed(dates: Dates, entries: map<Name, Entry>, listing: seq<Dirent>, candidates: seq<Candidate>)
    requires Listed(listing, entries) && AllSnapshotted(dates, entries, listing, candidates)
    ensures forall c :: c in candidates <==> Snapshotted(dates, entries, c)
  {
    forall c | Snapshotted(dates, entries, c) ensures HasName(listing, Run(c.id)) {
      var k :| 0 <= k < |listing| && listing[k].name == Run(c.id);
    }
  }

  datatype Dirent = Dirent(name: Name, directory: bool)

  predicate DistinctNames(listing: seq<Dirent>) {
    forall i, j | 0 <= i < j < |listing| :: listing[i].name != listing[j].name
  }

  function DirentNames(listing: seq<Dirent>): (r: seq<Name>)
    ensures |r| == |listing| && forall i | 0 <= i < |listing| :: r[i] == listing[i].name
  {
    seq(|listing|, i requires 0 <= i < |listing| => listing[i].name)
  }

  function RunNames(ids: seq<Str>): (r: seq<Name>)
    ensures |r| == |ids| && forall i | 0 <= i < |ids| :: r[i] == Run(ids[i])
  {
    seq(|ids|, i requires 0 <= i < |ids| => Run(ids[i]))
  }

  predicate IsListed(entry: Dirent, entries: map<Name, Entry>) {
    entry.name in entries && entry.directory == entries[entry.name].Directory?
  }

  predicate Listed(listing: seq<Dirent>, entries: map<Name, Entry>) {
    && DistinctNames(listing)
    && (forall k | 0 <= k < |listing| :: IsListed(listing[k], entries))
    && (forall n | n in entries :: exists k :: 0 <= k < |listing| && listing[k].name == n)
  }

  /** The candidate is the completed run that stands under its name. */
  predicate Snapshotted(dates: Dates, entries: map<Name, Entry>, c: Candidate) {
    Run(c.id) in entries && IsVerified(c, entries[Run(c.id)]) && IsCandidate(dates, c)
  }
}
