/**
 Git's NUL-terminated records and the raw diff records of variable length built from them: the
 parser accepts exactly the printed forms and returns what was printed.
 */
module GitRecords {
  import opened Wrappers
  import opened Text

  type Bytes = seq<Byte>

  datatype DiffError =
    | NotTerminated
    | EmptyRecord
    | MalformedMetadata
    | Unmerged
    | UnsupportedStatus
    | MissingScore
    | InvalidScore
    | IncompleteRename
    | NonCanonicalPath
    | UnexpectedScore
    | IncompletePath
    | MissingHeader
    | MissingBlock
    | IncompletePair
    | ModeMismatch
    | Misaligned
    | MissingBoundary

  // ---------------------------------------------------------------- NUL-terminated records

  /** Non-empty and free of NUL. */
  predicate IsRecord(r: Bytes) {
    r != [] && 0 !in r
  }

  predicate AllRecords(s: seq<Bytes>) {
    forall r | r in s :: IsRecord(r)
  }

  function Terminate(records: seq<Bytes>): Bytes {
    if records == [] then [] else records[0] + [0] + Terminate(records[1..])
  }

  lemma {:induction false} TerminateConcat(a: seq<Bytes>, b: seq<Bytes>)
    ensures Terminate(a + b) == Terminate(a) + Terminate(b)
  {
    if a == [] {
      assert a + b == b;
    } else {
      assert (a + b)[1..] == a[1..] + b;
      TerminateConcat(a[1..], b);
    }
  }

  /** The first NUL ends the first record. */
  lemma FirstRecord(a: Bytes, x: Bytes, b: Bytes, y: Bytes)
    requires 0 !in a && 0 !in b && a + [0] + x == b + [0] + y
    ensures a == b && x == y
  {
    var s := a + [0] + x;
    assert s[|a|] == 0 && s[|b|] == 0;
    assert forall i | 0 <= i < |a| :: s[i] == a[i];
    assert forall i | 0 <= i < |b| :: s[i] == b[i];
    assert |a| == |b|;
    assert a == s[..|a|] && b == s[..|b|] && x == s[|a| + 1..] && y == s[|b| + 1..];
  }

  /** A terminated list that starts with other terminated records starts with those records. */
  lemma {:induction false} TerminatedPrefix(all: seq<Bytes>, read: seq<Bytes>, rest: Bytes)
    requires AllRecords(all) && AllRecords(read) && Terminate(all) == Terminate(read) + rest
    ensures read <= all && rest == Terminate(all[|read|..])
  {
    if read == [] {
      assert all[0..] == all;
    } else {
      assert all != [];
      assert Terminate(read) + rest == read[0] + [0] + (Terminate(read[1..]) + rest);
      assert IsRecord(all[0]) && IsRecord(read[0]);
      FirstRecord(all[0], Terminate(all[1..]), read[0], Terminate(read[1..]) + rest);
      TerminatedPrefix(all[1..], read[1..], rest);
      assert all == [all[0]] + all[1..] && read == [read[0]] + read[1..];
      assert all[1..][|read[1..]|..] == all[|read|..];
    }
  }

  /** Terminated records can be read back. */
  lemma TerminateInjective(a: seq<Bytes>, b: seq<Bytes>)
    requires AllRecords(a) && AllRecords(b) && Terminate(a) == Terminate(b)
    ensures a == b
  {
    assert Terminate(a) == Terminate(b) + [];
    TerminatedPrefix(a, b, []);
    assert a[|b|..] == [];
  }

  lemma {:induction false} LastByte(records: seq<Bytes>)
    requires records != []
    ensures Terminate(records) != [] && Terminate(records)[|Terminate(records)| - 1] == 0
  {
    if |records| > 1 {
      LastByte(records[1..]);
    }
  }

  /** The buffer is the terminated form of some records. */
  ghost predicate IsTerminated(buffer: Bytes, records: seq<Bytes>) {
    AllRecords(records) && buffer == Terminate(records)
  }

  lemma StartsNonZero(records: seq<Bytes>)
    requires AllRecords(records) && Terminate(records) != []
    ensures Terminate(records)[0] != 0
  {
    assert IsRecord(records[0]);
    assert Terminate(records)[0] == records[0][0];
    assert records[0][0] in records[0];
  }

  lemma StopsAtEmptyRecord(buffer: Bytes, read: seq<Bytes>, rest: Bytes, all: seq<Bytes>)
    requires AllRecords(read) && buffer == Terminate(read) + rest && rest != [] && rest[0] == 0
    ensures !IsTerminated(buffer, all)
  {
    if IsTerminated(buffer, all) {
      TerminatedPrefix(all, read, rest);
      StartsNonZero(all[|read|..]);
    }
  }

  /** The records of the buffer, exactly when it is a list of terminated non-empty records. */
  method SplitNullTerminated(buffer: Bytes) returns (r: Result<seq<Bytes>, DiffError>)
    ensures r.Ok? ==> IsTerminated(buffer, r.value)
    ensures forall records | IsTerminated(buffer, records) :: r == Ok(records)
    ensures r.Err? ==> buffer != [] && r.error == if buffer[|buffer| - 1] != 0 then NotTerminated else EmptyRecord
  {
    if |buffer| == 0 {
      forall records | IsTerminated(buffer, records) ensures records == [] {
        TerminateInjective(records, []);
      }
      return Ok([]);
    }
    if buffer[|buffer| - 1] != 0 {
      forall records ensures !IsTerminated(buffer, records) {
        if IsTerminated(buffer, records) {
          LastByte(records);
        }
      }
      return Err(NotTerminated);
    }
    var records: seq<Bytes> := [];
    var start := 0;
    for index := 0 to |buffer|
      invariant 0 <= start <= index
      invariant AllRecords(records) && buffer[..start] == Terminate(records)
      invariant 0 !in buffer[start..index]
      invariant index == |buffer| ==> start == index
    {
      if buffer[index] == 0 {
        var record := buffer[start..index];
        if |record| == 0 {
          assert buffer == buffer[..start] + buffer[start..];
          forall all ensures !IsTerminated(buffer, all) {
            StopsAtEmptyRecord(buffer, records, buffer[start..], all);
          }
          return Err(EmptyRecord);
        }
        TerminateConcat(records, [record]);
        assert Terminate([record]) == record + [0] + Terminate([]);
        assert buffer[..index] == buffer[..start] + record;
        assert buffer[..index + 1] == buffer[..index] + [buffer[index]];
        records := records + [record];
        start := index + 1;
      } else {
        assert buffer[start..index + 1] == buffer[start..index] + [buffer[index]];
      }
    }
    assert buffer[..|buffer|] == buffer;
    forall all | IsTerminated(buffer, all) ensures all == records {
      TerminateInjective(all, records);
    }
    return Ok(records);
  }

  // ---------------------------------------------------------------- metadata records

  /** The captures of the metadata expression. */
  datatype Metadata = Metadata(oldMode: Bytes, newMode: Bytes, oldOid: Bytes, newOid: Bytes, status: Byte, score: Bytes)

  predicate IsMode(s: Bytes) {
    |s| == 6 && forall b | b in s :: 0x30 <= b <= 0x37
  }

  predicate IsOid(s: Bytes) {
    (|s| == 40 || |s| == 64) && forall b | b in s :: 0x30 <= b <= 0x39 || 0x61 <= b <= 0x66
  }

  /** What the expression's groups allow: any upper-case letter and at most three digits. */
  predicate IsMetadata(m: Metadata) {
    && IsMode(m.oldMode) && IsMode(m.newMode) && IsOid(m.oldOid) && IsOid(m.newOid)
    && 0x41 <= m.status <= 0x5A && |m.score| <= 3 && IsDigits(m.score)
  }

  function PrintMetadata(m: Metadata): Bytes {
    [0x3A] + m.oldMode + [0x20] + m.newMode + [0x20] + m.oldOid + [0x20] + m.newOid + [0x20, m.status] + m.score
  }

  function OidLength(rec: Bytes, at: nat): (n: nat)
    ensures n == 40 || n == 64
  {
    if at + 40 < |rec| && rec[at + 40] == 0x20 then 40 else 64
  }

  /** Anchored matching of the metadata expression. */
  function MatchMetadata(rec: Bytes): Option<Metadata> {
    var n := OidLength(rec, 15);
    var m := OidLength(rec, 16 + n);
    var at := 17 + n + m;
    if |rec| <= at then None
    else
      var c := Metadata(rec[1..7], rec[8..14], rec[15..15 + n], rec[16 + n..16 + n + m], rec[at], rec[at + 1..]);
      if IsMetadata(c) && rec == PrintMetadata(c) then Some(c) else None
  }

  /** The expression matches exactly the printed metadata, with the printed fields as its groups. */
  lemma MatchExactly(rec: Bytes, m: Metadata)
    ensures MatchMetadata(rec) == Some(m) <==> IsMetadata(m) && rec == PrintMetadata(m)
  {
    if IsMetadata(m) && rec == PrintMetadata(m) {
      var a, b := |m.oldOid|, |m.newOid|;
      assert rec[15 + a] == 0x20 && rec[16 + a + b] == 0x20;
      assert rec[15..15 + a] == m.oldOid && rec[16 + a..16 + a + b] == m.newOid;
      OidEnds(rec, 15, m.oldOid);
      OidEnds(rec, 16 + a, m.newOid);
      assert rec[1..7] == m.oldMode && rec[8..14] == m.newMode;
      assert rec[17 + a + b] == m.status && rec[18 + a + b..] == m.score;
    }
  }

  lemma OidEnds(rec: Bytes, at: nat, oid: Bytes)
    requires IsOid(oid) && at + |oid| < |rec| && rec[at..at + |oid|] == oid && rec[at + |oid|] == 0x20
    ensures OidLength(rec, at) == |oid|
  {
    if |oid| == 64 {
      assert oid[40] == rec[at..at + |oid|][40] == rec[at + 40];
      assert oid[40] in oid;
    }
  }

  // ---------------------------------------------------------------- raw diff entries

  datatype Status = Added | Modified | Deleted | Renamed | TypeChanged

  datatype Entry = Entry(path: Bytes, previousPath: Option<Bytes>, status: Status,
                         oldMode: Bytes, newMode: Bytes, oldOid: Bytes, newOid: Bytes, similarity: Option<nat>)

  function Letter(s: Status): Byte {
    match s
    case Added => 0x41
    case Modified => 0x4D
    case Deleted => 0x44
    case Renamed => 0x52
    case TypeChanged => 0x54
  }

  function StatusOf(letter: Byte): (s: Option<Status>)
    ensures forall t :: s == Some(t) <==> letter == Letter(t)
  {
    if letter == 0x41 then Some(Added)
    else if letter == 0x4D then Some(Modified)
    else if letter == 0x44 then Some(Deleted)
    else if letter == 0x52 then Some(Renamed)
    else if letter == 0x54 then Some(TypeChanged)
    else None
  }

  /** Records of an entry: a rename also carries its previous path. */
  function Width(s: Status): nat {
    if s.Renamed? then 3 else 2
  }

  function EntryOf(m: Metadata, status: Status, path: Bytes, previousPath: Option<Bytes>, similarity: Option<nat>): Entry {
    Entry(path, previousPath, status, m.oldMode, m.newMode, m.oldOid, m.newOid, similarity)
  }

  /** Reads the entry at the front of the records. */
  function ParseEntry(records: seq<Bytes>, canonical: Bytes -> bool): (r: Result<Entry, DiffError>)
    requires records != []
    ensures r.Ok? ==> Width(r.value.status) <= |records|
  {
    match MatchMetadata(records[0])
    case None => Err(MalformedMetadata)
    case Some(m) =>
      match StatusOf(m.status)
      case None => Err(if m.status == 0x55 then Unmerged else UnsupportedStatus)
      case Some(Renamed) =>
        if m.score == [] then Err(MissingScore)
        else if DecimalValue(m.score) > 100 then Err(InvalidScore)
        else if |records| < 3 then Err(IncompleteRename)
        else if !canonical(records[1]) || !canonical(records[2]) then Err(NonCanonicalPath)
        else Ok(EntryOf(m, Renamed, records[2], Some(records[1]), Some(DecimalValue(m.score))))
      case Some(status) =>
        if m.score != [] then Err(UnexpectedScore)
        else if |records| < 2 then Err(IncompletePath)
        else if !canonical(records[1]) then Err(NonCanonicalPath)
        else Ok(EntryOf(m, status, records[1], None, None))
  }

  function ParseEntries(records: seq<Bytes>, canonical: Bytes -> bool): Result<seq<Entry>, DiffError> {
    if records == [] then Ok([])
    else
      match ParseEntry(records, canonical)
      case Err(e) => Err(e)
      case Ok(entry) => Prepend([entry], ParseEntries(records[Width(entry.status)..], canonical))
  }

  function Prepend(entries: seq<Entry>, rest: Result<seq<Entry>, DiffError>): Result<seq<Entry>, DiffError> {
    match rest
    case Err(e) => Err(e)
    case Ok(more) => Ok(entries + more)
  }

  lemma PrependTwice(a: seq<Entry>, b: seq<Entry>, rest: Result<seq<Entry>, DiffError>)
    ensures Prepend(a, Prepend(b, rest)) == Prepend(a + b, rest)
  {
    if rest.Ok? {
      assert a + (b + rest.value) == a + b + rest.value;
    }
  }

  lemma PrependNothing(rest: Result<seq<Entry>, DiffError>)
    ensures Prepend([], rest) == rest
  {
    if rest.Ok? {
      assert [] + rest.value == rest.value;
    }
  }

  // ---------------------------------------------------------------- printing entries

  /** Only a rename has a previous path and a similarity, which is a percentage. */
  predicate IsEntry(e: Entry, canonical: Bytes -> bool) {
    && IsMode(e.oldMode) && IsMode(e.newMode) && IsOid(e.oldOid) && IsOid(e.newOid)
    && canonical(e.path)
    && (if e.status.Renamed? then e.previousPath.Some? && canonical(e.previousPath.value) && e.similarity.Some?
        && e.similarity.value <= 100
        else e.previousPath.None? && e.similarity.None?)
  }

  /** A numeral for the entry's similarity, leading zeros allowed; nothing for other entries. */
  predicate IsScore(score: Bytes, e: Entry) {
    && |score| <= 3 && IsDigits(score)
    && (if e.status.Renamed? then score != [] && e.similarity == Some(DecimalValue(score)) else score == [])
  }

  function PrintEntry(e: Entry, score: Bytes): seq<Bytes> {
    [PrintMetadata(Metadata(e.oldMode, e.newMode, e.oldOid, e.newOid, Letter(e.status), score))] +
    (if e.status.Renamed? && e.previousPath.Some? then [e.previousPath.value] else []) + [e.path]
  }

  predicate Printable(entries: seq<Entry>, scores: seq<Bytes>, canonical: Bytes -> bool) {
    |scores| == |entries| && forall i | 0 <= i < |entries| :: IsEntry(entries[i], canonical) && IsScore(scores[i], entries[i])
  }

  function PrintEntries(entries: seq<Entry>, scores: seq<Bytes>): seq<Bytes>
    requires |scores| == |entries|
  {
    if entries == [] then [] else PrintEntry(entries[0], scores[0]) + PrintEntries(entries[1..], scores[1..])
  }

  lemma ParseEntryExactly(records: seq<Bytes>, canonical: Bytes -> bool, e: Entry, score: Bytes)
    requires IsEntry(e, canonical) && IsScore(score, e) && PrintEntry(e, score) <= records
    ensures ParseEntry(records, canonical) == Ok(e)
    ensures records[Width(e.status)..] == records[|PrintEntry(e, score)|..]
  {
    hide MatchMetadata, PrintMetadata;
    var m := Metadata(e.oldMode, e.newMode, e.oldOid, e.newOid, Letter(e.status), score);
    MatchExactly(records[0], m);
    assert records[0] == PrintEntry(e, score)[0] && records[1] == PrintEntry(e, score)[1];
    if e.status.Renamed? {
      assert records[2] == PrintEntry(e, score)[2];
    }
  }

  lemma ParsedEntryPrints(records: seq<Bytes>, canonical: Bytes -> bool) returns (score: Bytes)
    requires records != [] && ParseEntry(records, canonical).Ok?
    ensures var e := ParseEntry(records, canonical).value;
      IsEntry(e, canonical) && IsScore(score, e) && records == PrintEntry(e, score) + records[Width(e.status)..]
  {
    hide MatchMetadata, PrintMetadata;
    var m := MatchMetadata(records[0]).value;
    MatchExactly(records[0], m);
    score := m.score;
  }

  /** Printed entries parse back to themselves, whatever the padding of their scores. */
  lemma {:induction false} PrintedEntriesParse(entries: seq<Entry>, scores: seq<Bytes>, canonical: Bytes -> bool)
    requires Printable(entries, scores, canonical)
    ensures ParseEntries(PrintEntries(entries, scores), canonical) == Ok(entries)
  {
    hide MatchMetadata, PrintMetadata, ParseEntry, IsEntry, IsScore;
    if entries != [] {
      var records := PrintEntries(entries, scores);
      ParseEntryExactly(records, canonical, entries[0], scores[0]);
      assert records[|PrintEntry(entries[0], scores[0])|..] == PrintEntries(entries[1..], scores[1..]);
      PrintedEntriesParse(entries[1..], scores[1..], canonical);
      assert entries == [entries[0]] + entries[1..];
    }
  }

  /** Only printed entries are accepted. */
  lemma {:induction false} ParsedEntriesPrint(records: seq<Bytes>, canonical: Bytes -> bool) returns (scores: seq<Bytes>)
    requires ParseEntries(records, canonical).Ok?
    ensures var entries := ParseEntries(records, canonical).value;
      Printable(entries, scores, canonical) && records == PrintEntries(entries, scores)
    decreases |records|
  {
    hide MatchMetadata, PrintMetadata, ParseEntry, IsEntry, IsScore, PrintEntry;
    scores := [];
    if records != [] {
      var entry := ParseEntry(records, canonical).value;
      var score := ParsedEntryPrints(records, canonical);
      var rest := ParsedEntriesPrint(records[Width(entry.status)..], canonical);
      scores := [score] + rest;
      assert scores[1..] == rest;
      assert ([entry] + ParseEntries(records[Width(entry.status)..], canonical).value)[1..]
          == ParseEntries(records[Width(entry.status)..], canonical).value;
    }
  }

  /** The loop over the records with an index that advances by two or three. */
  method ParseRecords(records: seq<Bytes>, canonical: Bytes -> bool) returns (r: Result<seq<Entry>, DiffError>)
    ensures r == ParseEntries(records, canonical)
  {
    hide MatchMetadata, ParseEntry;
    var entries: seq<Entry> := [];
    var index := 0;
    assert records[0..] == records;
    PrependNothing(ParseEntries(records, canonical));
    while index < |records|
      invariant 0 <= index <= |records|
      invariant ParseEntries(records, canonical) == Prepend(entries, ParseEntries(records[index..], canonical))
    {
      assert records[index..] != [];
      var parsed := ParseEntry(records[index..], canonical);
      if parsed.Err? {
        return Err(parsed.error);
      }
      var width := Width(parsed.value.status);
      assert records[index..][width..] == records[index + width..];
      PrependTwice(entries, [parsed.value], ParseEntries(records[index + width..], canonical));
      entries := entries + [parsed.value];
      index := index + width;
    }
    assert entries + [] == entries;
    return Ok(entries);
  }

  /** The buffer is the terminated printing of the entries. */
  ghost predicate IsRawDiff(buffer: Bytes, entries: seq<Entry>, canonical: Bytes -> bool) {
    exists scores ::
      Printable(entries, scores, canonical) && IsTerminated(buffer, PrintEntries(entries, scores))
  }

  /** Raw diffs parse exactly when they are printed entries, and to the entries that were printed. */
  method ParseWorkingTreeRawDiff(buffer: Bytes, canonical: Bytes -> bool) returns (r: Result<seq<Entry>, DiffError>)
    ensures r.Ok? ==> IsRawDiff(buffer, r.value, canonical)
    ensures forall entries | IsRawDiff(buffer, entries, canonical) :: r == Ok(entries)
  {
    hide Terminate, PrintEntries, IsEntry, IsScore;
    var split := SplitNullTerminated(buffer);
    if split.Err? {
      return Err(split.error);
    }
    r := ParseRecords(split.value, canonical);
    if r.Ok? {
      ghost var scores := ParsedEntriesPrint(split.value, canonical);
    }
    forall entries | IsRawDiff(buffer, entries, canonical) ensures r == Ok(entries) {
      var scores :| Printable(entries, scores, canonical) && IsTerminated(buffer, PrintEntries(entries, scores));
      PrintedEntriesParse(entries, scores, canonical);
    }
  }
}
