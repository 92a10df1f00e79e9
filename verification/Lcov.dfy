/**
 Line coverage from LCOV: a streaming aggregation over records of one source each. The outcome is
 resolved exactly for well-formed input whose totals are safe integers, and the points are then
 the sums of all data records for each line.
 */
module Lcov {
  import opened Wrappers
  import opened Text
  import opened Sorting

  datatype Reason = SourceUnmappable | MalformedLine | InvalidCount | IncompleteRecord | NoLineData

  datatype Reading = Reading(line: nat, count: nat)

  /** A classified input line; sources are already mapped into the repository, or cannot be. */
  datatype Line = Source(path: Option<Str>) | EndOfRecord | Data(reading: Result<Reading, Reason>) | Other

  // ---------------------------------------------------------------- reading a line

  /** Unsigned decimal digits that denote a safe integer. */
  function ParseSafeInteger(token: Str): Option<nat> {
    if token == [] || !IsDigits(token) || DecimalValue(token) > MAX_SAFE_INTEGER then None else Some(DecimalValue(token))
  }

  /** The fields after "DA:": a positive line, a count, and at most one non-empty field more. */
  function ReadFields(fields: seq<Str>): Result<Reading, Reason> {
    if |fields| < 2 || |fields| > 3 || (|fields| == 3 && fields[2] == []) then Err(MalformedLine)
    else
      match ParseSafeInteger(fields[0])
      case None => Err(MalformedLine)
      case Some(line) =>
        if line == 0 then Err(MalformedLine)
        else
          match ParseSafeInteger(fields[1])
          case None => Err(InvalidCount)
          case Some(count) => Ok(Reading(line, count))
  }

  function Classify(raw: Str, mapSourcePath: Str -> Option<Str>): Line {
    if Lit("SF:") <= raw then Source(mapSourcePath(raw[3..]))
    else if raw == Lit("end_of_record") then EndOfRecord
    else if Lit("DA:") <= raw then Data(ReadFields(SplitOn(raw[3..], COMMA)))
    else Other
  }

  lemma DataPrefix(rest: Str)
    ensures !(Lit("SF:") <= Lit("DA:") + rest) && Lit("DA:") + rest != Lit("end_of_record")
    ensures Lit("DA:") <= Lit("DA:") + rest && (Lit("DA:") + rest)[3..] == rest
  {
    var raw := Lit("DA:") + rest;
    assert raw[0] == Lit("DA:")[0] == 0x44 && Lit("SF:")[0] == 0x53 && Lit("end_of_record")[0] == 0x65;
  }

  /** Numerals of a positive line and a count, both safe, and possibly a checksum. */
  predicate AreFieldsOf(fields: seq<Str>, reading: Reading) {
    && (|fields| == 2 || (|fields| == 3 && fields[2] != []))
    && (forall f | f in fields :: COMMA !in f)
    && ParseSafeInteger(fields[0]) == Some(reading.line) && reading.line > 0
    && ParseSafeInteger(fields[1]) == Some(reading.count)
  }

  /** A line is read as a reading exactly when it is "DA:" and the joined fields of that reading. */
  lemma ReadsExactly(raw: Str, mapSourcePath: Str -> Option<Str>, reading: Reading)
    ensures Classify(raw, mapSourcePath) == Data(Ok(reading)) <==>
      exists fields :: AreFieldsOf(fields, reading) && raw == Lit("DA:") + Join(fields, COMMA)
  {
    hide SplitOn, Lit, Join, ParseSafeInteger;
    if Classify(raw, mapSourcePath) == Data(Ok(reading)) {
      SplitOnJoins(raw[3..], COMMA);
      PrefixRest(raw, Lit("DA:"));
      assert AreFieldsOf(SplitOn(raw[3..], COMMA), reading);
    }
    if fields: seq<Str> :| AreFieldsOf(fields, reading) && raw == Lit("DA:") + Join(fields, COMMA) {
      DataPrefix(Join(fields, COMMA));
      JoinedSplits(fields, COMMA);
    }
  }

  /** The three kinds of line that count, by what they start with or are; all others are skipped. */
  lemma ClassesExactly(raw: Str, mapSourcePath: Str -> Option<Str>)
    ensures Classify(Lit("SF:") + raw, mapSourcePath) == Source(mapSourcePath(raw))
    ensures Classify(Lit("DA:") + raw, mapSourcePath) == Data(ReadFields(SplitOn(raw, COMMA)))
    ensures Classify(raw, mapSourcePath) == EndOfRecord <==> raw == Lit("end_of_record")
    ensures Classify(raw, mapSourcePath) == Other <==>
      raw != Lit("end_of_record") && !(Lit("SF:") <= raw) && !(Lit("DA:") <= raw)
  {
    hide ReadFields, SplitOn;
    DataPrefix(raw);
    assert (Lit("SF:") + raw)[3..] == raw;
    assert Lit("SF:")[0] == 0x53 && Lit("end_of_record")[0] == 0x65;
  }

  predicate NamesLine(fields: seq<Str>) {
    && (|fields| == 2 || (|fields| == 3 && fields[2] != []))
    && ParseSafeInteger(fields[0]).Some? && ParseSafeInteger(fields[0]) != Some(0)
  }

  /** A data line that is not read has an invalid count if it names a line, and is malformed otherwise. */
  lemma UnreadExactly(fields: seq<Str>)
    ensures ReadFields(fields) == Err(InvalidCount) <==> NamesLine(fields) && ParseSafeInteger(fields[1]) == None
    ensures ReadFields(fields) == Err(MalformedLine) <==> !NamesLine(fields)
  {
  }

  /** Safe integers are written as decimal numerals, leading zeros allowed, and stay below 2^53. */
  lemma SafeExactly(token: Str, n: nat)
    ensures ParseSafeInteger(token) == Some(n) <==> n < 0x20_0000_0000_0000 && exists k: nat :: IsNumeralAfter(token, n, k)
  {
    if token != [] && IsDigits(token) {
      NumeralsExactly(token, n);
    }
    if k: nat :| IsNumeralAfter(token, n, k) {
      assert token == token[..k] + Decimal(n);
      assert forall i | 0 <= i < k :: token[i] == token[..k][i] == 0x30;
      assert IsDigits(token);
    }
  }

  lemma PrefixRest(raw: Str, prefix: Str)
    requires prefix <= raw
    ensures raw == prefix + raw[|prefix|..]
  {
  }

  lemma DecimalParses(n: nat)
    requires n <= MAX_SAFE_INTEGER
    ensures ParseSafeInteger(Decimal(n)) == Some(n) && COMMA !in Decimal(n)
  {
    hide DecimalValue;
    DecimalRoundTrip(n);
  }

  /** A line that prints a reading is read back as that reading. */
  lemma PrintedDataReads(line: nat, count: nat, mapSourcePath: Str -> Option<Str>)
    requires 0 < line <= MAX_SAFE_INTEGER && count <= MAX_SAFE_INTEGER
    ensures Classify(Lit("DA:") + Join([Decimal(line), Decimal(count)], COMMA), mapSourcePath) == Data(Ok(Reading(line, count)))
  {
    hide Decimal, Lit, Join, ParseSafeInteger, Classify;
    var fields := [Decimal(line), Decimal(count)];
    DecimalParses(line);
    DecimalParses(count);
    assert AreFieldsOf(fields, Reading(line, count));
    ReadsExactly(Lit("DA:") + Join(fields, COMMA), mapSourcePath, Reading(line, count));
  }

  // ---------------------------------------------------------------- meaning of the input

  /** Where the stream stands: the open source, whether it has data, and whether a record has ended. */
  datatype Cursor = Cursor(source: Option<Str>, hadData: bool, complete: bool)

  function At(lines: seq<Line>, i: nat): Cursor
    requires i <= |lines|
  {
    if i == 0 then Cursor(None, false, false)
    else
      var c := At(lines, i - 1);
      match lines[i - 1]
      case Source(path) => c.(source := path, hadData := false)
      case EndOfRecord => if c.source.None? then c else Cursor(None, false, true)
      case Data(Ok(_)) => if c.source.None? then c else c.(hadData := true)
      case _ => c
  }

  /** The source named in line j is still open before line i. */
  predicate OpenSince(lines: seq<Line>, i: nat, j: nat) {
    && j < i <= |lines| && lines[j].Source? && lines[j].path.Some?
    && forall k | j < k < i :: !lines[k].Source? && !lines[k].EndOfRecord?
  }

  ghost predicate IsOpen(lines: seq<Line>, i: nat) {
    exists j: nat :: OpenSince(lines, i, j)
  }

  predicate HasRead(lines: seq<Line>, j: nat, i: nat)
    requires i <= |lines|
  {
    exists k | j < k < i :: lines[k].Data? && lines[k].reading.Ok?
  }

  ghost predicate HasClosed(lines: seq<Line>, i: nat)
    requires i <= |lines|
  {
    exists k: nat | k < i :: lines[k].EndOfRecord? && IsOpen(lines, k)
  }

  lemma OpenStep(lines: seq<Line>, i: nat, j: nat)
    requires 0 < i <= |lines|
    ensures var last := lines[i - 1];
      OpenSince(lines, i, j) <==>
        (j == i - 1 && last.Source? && last.path.Some?) || (OpenSince(lines, i - 1, j) && !last.Source? && !last.EndOfRecord?)
  {
  }

  /** The open source is that of the last source line, if no record has ended since; it has data if a line since was read. */
  lemma {:induction false} SourceExactly(lines: seq<Line>, i: nat)
    requires i <= |lines|
    ensures At(lines, i).source.Some? <==> IsOpen(lines, i)
    ensures forall j: nat | OpenSince(lines, i, j) ::
              At(lines, i).source == lines[j].path && (At(lines, i).hadData <==> HasRead(lines, j, i))
  {
    if i > 0 {
      SourceExactly(lines, i - 1);
      var last := lines[i - 1];
      forall j: nat | OpenSince(lines, i, j)
        ensures At(lines, i).source == lines[j].path && (At(lines, i).hadData <==> HasRead(lines, j, i))
      {
        OpenStep(lines, i, j);
        if j < i - 1 {
          assert HasRead(lines, j, i) <==> HasRead(lines, j, i - 1) || (last.Data? && last.reading.Ok?);
        }
      }
      if At(lines, i).source.Some? {
        if last.Source? {
          OpenStep(lines, i, i - 1);
        } else {
          var j: nat :| OpenSince(lines, i - 1, j);
          OpenStep(lines, i, j);
        }
      }
    }
  }

  /** A record is complete once a line has ended one while its source was open. */
  lemma {:induction false} CompleteExactly(lines: seq<Line>, i: nat)
    requires i <= |lines|
    ensures At(lines, i).complete <==> HasClosed(lines, i)
  {
    hide IsOpen;
    if i > 0 {
      CompleteExactly(lines, i - 1);
      SourceExactly(lines, i - 1);
    }
  }

  /** One data record, attributed to its source. */
  datatype Hit = Hit(path: Str, line: nat, count: nat)

  function Hits(lines: seq<Line>, i: nat): seq<Hit>
    requires i <= |lines|
  {
    if i == 0 then []
    else
      var c := At(lines, i - 1);
      match lines[i - 1]
      case Data(Ok(r)) => if c.source.None? then Hits(lines, i - 1) else Hits(lines, i - 1) + [Hit(c.source.value, r.line, r.count)]
      case _ => Hits(lines, i - 1)
  }

  function Sum(hits: seq<Hit>, path: Str, line: nat): nat {
    if hits == [] then 0
    else
      var last := hits[|hits| - 1];
      Sum(hits[..|hits| - 1], path, line) + if last.path == path && last.line == line then last.count else 0
  }

  predicate Observed(hits: seq<Hit>, path: Str, line: nat) {
    exists h | h in hits :: h.path == path && h.line == line
  }

  predicate InPlace(lines: seq<Line>, i: nat)
    requires i < |lines|
  {
    match lines[i]
    case Source(path) => path.Some? && At(lines, i).source.None?
    case EndOfRecord => At(lines, i).source.Some? ==> At(lines, i).hadData
    case Data(reading) => reading.Ok? && At(lines, i).source.Some?
    case Other => true
  }

  /** Records are closed, have one mapped source and some data; data is read and inside a record. */
  predicate WellFormed(lines: seq<Line>) {
    && (forall i | 0 <= i < |lines| :: InPlace(lines, i))
    && At(lines, |lines|).source.None? && At(lines, |lines|).complete
  }

  /** Every total is a safe integer. */
  ghost predicate InBounds(hits: seq<Hit>) {
    forall path, line :: Sum(hits, path, line) <= MAX_SAFE_INTEGER
  }

  /** What stops the stream at a line. */
  function FaultAt(lines: seq<Line>, i: nat): Option<Reason>
    requires i < |lines|
  {
    var c := At(lines, i);
    match lines[i]
    case Source(path) => if c.source.Some? then Some(IncompleteRecord) else if path.None? then Some(SourceUnmappable) else None
    case EndOfRecord => if c.source.Some? && !c.hadData then Some(NoLineData) else None
    case Data(reading) =>
      if c.source.None? then Some(MalformedLine)
      else
        (match reading
         case Err(reason) => Some(reason)
         case Ok(r) => if Sum(Hits(lines, i), c.source.value, r.line) + r.count > MAX_SAFE_INTEGER then Some(InvalidCount) else None)
    case Other => None
  }

  function EndFault(lines: seq<Line>): Option<Reason> {
    var c := At(lines, |lines|);
    if c.source.Some? then Some(IncompleteRecord)
    else if !c.complete then Some(NoLineData)
    else None
  }

  /** What each reason says of the line that it stops at, beside a line that was not read for this reason. */
  ghost predicate Explains(lines: seq<Line>, i: nat, reason: Reason)
    requires i < |lines|
  {
    match reason
    case IncompleteRecord => lines[i].Source? && IsOpen(lines, i)
    case SourceUnmappable => lines[i] == Source(None) && !IsOpen(lines, i)
    case NoLineData => lines[i] == EndOfRecord && exists j: nat :: OpenSince(lines, i, j) && !HasRead(lines, j, i)
    case MalformedLine => lines[i].Data? && !IsOpen(lines, i)
    case InvalidCount => exists j: nat :: OpenSince(lines, i, j) && Exceeds(lines, i, lines[j].path.value)
  }

  /** The line is read, and takes the total of its source and line beyond the safe integers. */
  predicate Exceeds(lines: seq<Line>, i: nat, path: Str)
    requires i < |lines|
  {
    && lines[i].Data? && lines[i].reading.Ok?
    && Sum(Hits(lines, i), path, lines[i].reading.value.line) + lines[i].reading.value.count > MAX_SAFE_INTEGER
  }

  lemma FaultsExactly(lines: seq<Line>, i: nat, reason: Reason)
    requires i < |lines|
    ensures FaultAt(lines, i) == Some(reason) <==>
      (lines[i] == Data(Err(reason)) && IsOpen(lines, i)) || Explains(lines, i, reason)
  {
    SourceExactly(lines, i);
    hide At, OpenSince, HasRead, Sum, Hits;
    if IsOpen(lines, i) {
      var j: nat :| OpenSince(lines, i, j);
    }
  }

  lemma EndExactly(lines: seq<Line>)
    ensures EndFault(lines) == Some(IncompleteRecord) <==> IsOpen(lines, |lines|)
    ensures EndFault(lines) == Some(NoLineData) <==> !IsOpen(lines, |lines|) && !HasClosed(lines, |lines|)
    ensures EndFault(lines) == None <==> !IsOpen(lines, |lines|) && HasClosed(lines, |lines|)
  {
    SourceExactly(lines, |lines|);
    CompleteExactly(lines, |lines|);
    hide At, IsOpen, HasClosed;
  }

  predicate Faultless(lines: seq<Line>, n: nat)
    requires n <= |lines|
  {
    forall i | 0 <= i < n :: FaultAt(lines, i).None?
  }

  lemma SumSnoc(hits: seq<Hit>, h: Hit, path: Str, line: nat)
    ensures Sum(hits + [h], path, line) == Sum(hits, path, line) + if h.path == path && h.line == line then h.count else 0
  {
    assert (hits + [h])[..|hits|] == hits;
  }

  lemma {:induction false} SumGrows(lines: seq<Line>, i: nat, j: nat, path: Str, line: nat)
    requires i <= j <= |lines|
    ensures Sum(Hits(lines, i), path, line) <= Sum(Hits(lines, j), path, line)
  {
    hide Sum, At;
    if i < j {
      SumGrows(lines, i, j - 1, path, line);
      var before := Hits(lines, j - 1);
      if Hits(lines, j) != before {
        SumSnoc(before, Hits(lines, j)[|before|], path, line);
      }
    }
  }

  lemma {:induction false} FaultlessInBounds(lines: seq<Line>, n: nat)
    requires n <= |lines| && Faultless(lines, n)
    ensures InBounds(Hits(lines, n))
  {
    if n > 0 {
      FaultlessInBounds(lines, n - 1);
      var c := At(lines, n - 1);
      assert FaultAt(lines, n - 1).None?;
      if lines[n - 1].Data? && lines[n - 1].reading.Ok? && c.source.Some? {
        var r := lines[n - 1].reading.value;
        forall path, line ensures Sum(Hits(lines, n), path, line) <= MAX_SAFE_INTEGER {
          SumSnoc(Hits(lines, n - 1), Hit(c.source.value, r.line, r.count), path, line);
        }
      }
    }
  }

  lemma SoundHasNoFault(lines: seq<Line>, i: nat)
    requires i < |lines| && InPlace(lines, i) && InBounds(Hits(lines, |lines|))
    ensures FaultAt(lines, i).None?
  {
    var c := At(lines, i);
    if lines[i].Data? {
      var r := lines[i].reading.value;
      SumGrows(lines, i + 1, |lines|, c.source.value, r.line);
      SumSnoc(Hits(lines, i), Hit(c.source.value, r.line, r.count), c.source.value, r.line);
    }
  }

  /** The stream runs to its end without a fault exactly on well-formed input with safe totals. */
  lemma ResolvedExactly(lines: seq<Line>)
    ensures Faultless(lines, |lines|) && EndFault(lines).None? <==> WellFormed(lines) && InBounds(Hits(lines, |lines|))
  {
    hide At, Hits, Sum;
    if WellFormed(lines) && InBounds(Hits(lines, |lines|)) {
      forall i | 0 <= i < |lines| ensures FaultAt(lines, i).None? {
        SoundHasNoFault(lines, i);
      }
    }
    if Faultless(lines, |lines|) && EndFault(lines).None? {
      FaultlessInBounds(lines, |lines|);
      forall i | 0 <= i < |lines| ensures InPlace(lines, i) {
        assert FaultAt(lines, i).None?;
      }
    }
  }

  /** A record that has ended had data. */
  lemma {:induction false} CompleteHasHits(lines: seq<Line>, n: nat)
    requires n <= |lines| && Faultless(lines, n)
    ensures At(lines, n).hadData || At(lines, n).complete ==> Hits(lines, n) != []
  {
    if n > 0 {
      CompleteHasHits(lines, n - 1);
      assert FaultAt(lines, n - 1).None?;
    }
  }

  // ---------------------------------------------------------------- points

  datatype Point = Point(path: Str, line: nat, count: nat)

  predicate PointBefore(a: Point, b: Point) {
    if a.path != b.path then LexLe(a.path, b.path) else a.line < b.line
  }

  predicate StrictlyOrdered(points: seq<Point>) {
    forall i, j | 0 <= i < j < |points| :: PointBefore(points[i], points[j])
  }

  /** One point for each observed line, with the sum of its data records. */
  ghost predicate ArePoints(hits: seq<Hit>, points: seq<Point>) {
    && StrictlyOrdered(points)
    && forall p :: p in points <==> Observed(hits, p.path, p.line) && p.count == Sum(hits, p.path, p.line)
  }

  /** Points in strict order are determined by their members. */
  lemma PointsAreUnique(a: seq<Point>, b: seq<Point>)
    requires StrictlyOrdered(a) && StrictlyOrdered(b) && forall p :: p in a <==> p in b
    ensures a == b
  {
    var lt := (x, y) => PointBefore(x, y);
    forall x: Point, y: Point ensures PointBefore(x, y) ==> !PointBefore(y, x) {
      LexTotal(x.path, y.path);
    }
    IncreasingIsUnique(a, b, lt);
  }

  lemma {:induction false} SumRemoves(hits: seq<Hit>, i: nat, path: Str, line: nat)
    requires i < |hits|
    ensures Sum(hits, path, line) == Sum(Without(hits, i), path, line) + if hits[i].path == path
        && hits[i].line == line then hits[i].count else 0
  {
    hide Sum;
    var rest, last := hits[..|hits| - 1], hits[|hits| - 1];
    assert hits == rest + [last];
    SumSnoc(rest, last, path, line);
    if i == |rest| {
      assert Without(hits, i) == rest;
    } else {
      SumRemoves(rest, i, path, line);
      assert Without(hits, i) == Without(rest, i) + [last];
      SumSnoc(Without(rest, i), last, path, line);
    }
  }

  /** Sums do not depend on the order of the data records. */
  lemma {:induction false} SumIgnoresOrder(a: seq<Hit>, b: seq<Hit>, path: Str, line: nat)
    requires multiset(a) == multiset(b)
    ensures Sum(a, path, line) == Sum(b, path, line)
    decreases |a|
  {
    SameLength(a, b);
    if a != [] {
      var i := FindLast(a, b);
      SumRemoves(b, i, path, line);
      SumIgnoresOrder(a[..|a| - 1], Without(b, i), path, line);
    }
  }

  /** The points do not depend on the order of the data records. */
  lemma PointsIgnoreOrder(a: seq<Hit>, b: seq<Hit>, p: seq<Point>, q: seq<Point>)
    requires multiset(a) == multiset(b) && ArePoints(a, p) && ArePoints(b, q)
    ensures p == q
  {
    forall h ensures h in a <==> h in b {
      assert h in multiset(a) <==> h in multiset(b);
    }
    forall x: Point ensures x in p <==> x in q {
      SumIgnoresOrder(a, b, x.path, x.line);
    }
    PointsAreUnique(p, q);
  }

  lemma {:induction false} PrefixKept(a: seq<Line>, b: seq<Line>, i: nat)
    requires i <= |a|
    ensures At(a + b, i) == At(a, i) && Hits(a + b, i) == Hits(a, i)
  {
    if i > 0 {
      PrefixKept(a, b, i - 1);
      assert (a + b)[i - 1] == a[i - 1];
    }
  }

  lemma {:induction false} SuffixKept(a: seq<Line>, b: seq<Line>, i: nat)
    requires At(a, |a|).source.None? && i <= |b|
    ensures At(a + b, |a| + i).source == At(b, i).source
    ensures At(b, i).source.Some? ==> At(a + b, |a| + i).hadData == At(b, i).hadData
    ensures At(a + b, |a| + i).complete == (At(a, |a|).complete || At(b, i).complete)
    ensures Hits(a + b, |a| + i) == Hits(a, |a|) + Hits(b, i)
  {
    if i == 0 {
      PrefixKept(a, b, |a|);
    } else {
      SuffixKept(a, b, i - 1);
      assert (a + b)[|a| + i - 1] == b[i - 1];
    }
  }

  lemma ConcatWellFormed(a: seq<Line>, b: seq<Line>)
    requires WellFormed(a) && WellFormed(b)
    ensures WellFormed(a + b) && Hits(a + b, |a + b|) == Hits(a, |a|) + Hits(b, |b|)
  {
    hide At, Hits;
    SuffixKept(a, b, |b|);
    forall i | 0 <= i < |a + b| ensures InPlace(a + b, i) {
      if i < |a| {
        PrefixKept(a, b, i);
        assert InPlace(a, i);
      } else {
        SuffixKept(a, b, i - |a|);
        assert InPlace(b, i - |a|);
      }
    }
  }

  function Concat(parts: seq<seq<Line>>): seq<Line> {
    if parts == [] then [] else Concat(parts[..|parts| - 1]) + parts[|parts| - 1]
  }

  predicate AllWellFormed(parts: seq<seq<Line>>) {
    forall part | part in parts :: WellFormed(part)
  }

  /** The data records of all parts together. */
  function AllHits(parts: seq<seq<Line>>): multiset<Hit> {
    if parts == [] then multiset{}
    else
      var last := parts[|parts| - 1];
      AllHits(parts[..|parts| - 1]) + multiset(Hits(last, |last|))
  }

  lemma {:induction false} PartsWellFormed(parts: seq<seq<Line>>)
    requires parts != [] && AllWellFormed(parts)
    ensures WellFormed(Concat(parts)) && multiset(Hits(Concat(parts), |Concat(parts)|)) == AllHits(parts)
  {
    hide WellFormed, Hits;
    var rest, last := parts[..|parts| - 1], parts[|parts| - 1];
    assert last in parts;
    if rest == [] {
      assert Concat(parts) == last;
    } else {
      PartsWellFormed(rest);
      ConcatWellFormed(Concat(rest), last);
    }
  }

  lemma {:induction false} AllHitsRemoves(parts: seq<seq<Line>>, i: nat)
    requires i < |parts|
    ensures AllHits(parts) == AllHits(Without(parts, i)) + multiset(Hits(parts[i], |parts[i]|))
  {
    hide Hits;
    var n := |parts| - 1;
    if i == n {
      assert Without(parts, i) == parts[..n];
    } else {
      AllHitsRemoves(parts[..n], i);
      assert Without(parts[..n], i) == Without(parts, i)[..n - 1];
    }
  }

  lemma {:induction false} AllHitsIgnoreOrder(a: seq<seq<Line>>, b: seq<seq<Line>>)
    requires multiset(a) == multiset(b)
    ensures AllHits(a) == AllHits(b)
    decreases |a|
  {
    hide Hits;
    SameLength(a, b);
    if a != [] {
      var i := FindLast(a, b);
      AllHitsRemoves(b, i);
      AllHitsIgnoreOrder(a[..|a| - 1], Without(b, i));
    }
  }

  /** In whatever order complete parts of the input come, it resolves or not, and to the same points. */
  lemma PartsPermute(a: seq<seq<Line>>, b: seq<seq<Line>>, p: seq<Point>, q: seq<Point>)
    requires a != [] && AllWellFormed(a) && multiset(a) == multiset(b)
    requires ArePoints(Hits(Concat(a), |Concat(a)|), p) && ArePoints(Hits(Concat(b), |Concat(b)|), q)
    ensures WellFormed(Concat(a)) && WellFormed(Concat(b)) && p == q
    ensures InBounds(Hits(Concat(a), |Concat(a)|)) <==> InBounds(Hits(Concat(b), |Concat(b)|))
  {
    hide ArePoints, WellFormed, Hits, Sum, Concat, AllHits;
    SameLength(a, b);
    assert AllWellFormed(b) by {
      forall part | part in b ensures WellFormed(part) {
        assert part in multiset(b);
        assert part in a;
      }
    }
    PartsWellFormed(a);
    PartsWellFormed(b);
    AllHitsIgnoreOrder(a, b);
    var x, y := Hits(Concat(a), |Concat(a)|), Hits(Concat(b), |Concat(b)|);
    PointsIgnoreOrder(x, y, p, q);
    forall path, line ensures Sum(x, path, line) == Sum(y, path, line) {
      SumIgnoresOrder(x, y, path, line);
    }
  }

  // ---------------------------------------------------------------- the aggregation

  type Counts = map<Str, map<nat, nat>>

  datatype LineCoverage = Resolved(points: seq<Point>) | Unresolved(reason: Reason)

  /** The maps hold exactly the observed lines with their sums, and no empty map. */
  ghost predicate Agrees(counts: Counts, hits: seq<Hit>) {
    && (forall path, line :: (path in counts && line in counts[path]) <==> Observed(hits, path, line))
    && (forall path, line | path in counts && line in counts[path] :: counts[path][line] == Sum(hits, path, line))
    && (forall path | path in counts :: counts[path] != map[])
  }

  lemma AgreesStep(counts: Counts, hits: seq<Hit>, h: Hit, lines: map<nat, nat>)
    requires Agrees(counts, hits)
    requires lines == (if h.path in counts then counts[h.path] else map[])[h.line := Sum(hits, h.path, h.line) + h.count]
    ensures Agrees(counts[h.path := lines], hits + [h])
  {
    hide Sum, Observed;
    assert h.line in lines;
    forall path, line ensures Observed(hits + [h], path, line) <==> Observed(hits, path, line) || (h.path == path && h.line == line) {
      ObservedSnoc(hits, h, path, line);
    }
    forall path, line ensures Sum(hits + [h], path, line) == Sum(hits, path, line) + if h.path == path
        && h.line == line then h.count else 0 {
      SumSnoc(hits, h, path, line);
    }
  }

  lemma ObservedSnoc(hits: seq<Hit>, h: Hit, path: Str, line: nat)
    ensures Observed(hits + [h], path, line) <==> Observed(hits, path, line) || (h.path == path && h.line == line)
  {
    assert h in hits + [h];
    assert forall g | g in hits :: g in hits + [h];
  }

  lemma {:induction false} UnobservedSum(hits: seq<Hit>, path: Str, line: nat)
    requires !Observed(hits, path, line)
    ensures Sum(hits, path, line) == 0
  {
    if hits != [] {
      assert hits[|hits| - 1] in hits;
      assert forall h | h in hits[..|hits| - 1] :: h in hits;
      UnobservedSum(hits[..|hits| - 1], path, line);
    }
  }

  /** Adds to the count of a line, unless the total stops being a safe integer. */
  method AddCount(counts: Counts, path: Str, line: nat, count: nat, ghost hits: seq<Hit>) returns (ok: bool, next: Counts)
    requires Agrees(counts, hits)
    ensures ok <==> Sum(hits, path, line) + count <= MAX_SAFE_INTEGER
    ensures if ok then Agrees(next, hits + [Hit(path, line, count)]) else next == counts
  {
    hide Sum, Observed;
    var lines := if path in counts then counts[path] else map[];
    var total := (if line in lines then lines[line] else 0) + count;
    if line !in lines {
      UnobservedSum(hits, path, line);
    }
    if total > MAX_SAFE_INTEGER {
      return false, counts;
    }
    AgreesStep(counts, hits, Hit(path, line, count), lines[line := total]);
    return true, counts[path := lines[line := total]];
  }

  function NatLe(): (nat, nat) -> bool {
    (a, b) => a <= b
  }

  /** The points of the given lines of one source. */
  function PointsOf(path: Str, numbers: seq<nat>, lines: map<nat, nat>): (r: seq<Point>)
    requires forall n | n in numbers :: n in lines
    ensures |r| == |numbers| && forall k | 0 <= k < |numbers| :: r[k] == Point(path, numbers[k], lines[numbers[k]])
  {
    seq(|numbers|, k requires 0 <= k < |numbers| => Point(path, numbers[k], lines[numbers[k]]))
  }

  lemma PointsOfExactly(path: Str, numbers: seq<nat>, lines: map<nat, nat>)
    requires StrictlySorted(numbers, NatLe()) && forall n :: n in numbers <==> n in lines
    ensures StrictlyOrdered(PointsOf(path, numbers, lines))
    ensures forall p :: p in PointsOf(path, numbers, lines) <==> p.path == path && p.line in lines && p.count == lines[p.line]
  {
    var points := PointsOf(path, numbers, lines);
    forall i, j | 0 <= i < j < |points| ensures PointBefore(points[i], points[j]) {
      assert NatLe()(numbers[i], numbers[j]);
    }
    forall p: Point | p.path == path && p.line in lines && p.count == lines[p.line] ensures p in points {
      var k :| 0 <= k < |numbers| && numbers[k] == p.line;
      assert points[k] == p;
    }
  }

  lemma NatLeIsTotal()
    ensures TotalPreorder(NatLe())
  {
  }

  /** The points of one source, by line. */
  method EmitPath(path: Str, lines: map<nat, nat>) returns (points: seq<Point>)
    ensures StrictlyOrdered(points)
    ensures forall p :: p in points <==> p.path == path && p.line in lines && p.count == lines[p.line]
  {
    hide StrictlyOrdered, NatLe, TotalPreorder, StrictlySorted;
    NatLeIsTotal();
    var numbers := SortedElements(lines.Keys, NatLe());
    points := [];
    for j := 0 to |numbers|
      invariant points == PointsOf(path, numbers, lines)[..j]
    {
      points := points + [Point(path, numbers[j], lines[numbers[j]])];
    }
    assert points == PointsOf(path, numbers, lines);
    PointsOfExactly(path, numbers, lines);
  }

  lemma OrderedConcat(a: seq<Point>, b: seq<Point>, path: Str)
    requires StrictlyOrdered(a) && StrictlyOrdered(b)
    requires forall p | p in a :: p.path != path && LexLe(p.path, path)
    requires forall p | p in b :: p.path == path
    ensures StrictlyOrdered(a + b)
  {
    hide LexLe;
    var c := a + b;
    forall i, j | 0 <= i < j < |c| ensures PointBefore(c[i], c[j]) {
      if i < |a| && j >= |a| {
        assert a[i] in a && b[j - |a|] in b;
      }
    }
  }

  /** All points, by source and line. */
  method EmitPoints(counts: Counts) returns (points: seq<Point>)
    ensures StrictlyOrdered(points)
    ensures forall p :: p in points <==> p.path in counts && p.line in counts[p.path] && p.count == counts[p.path][p.line]
  {
    hide PointBefore, LexLe, StrictlyOrdered;
    TextOrderIsTotal();
    var order := TextOrder();
    var paths := SortedElements(counts.Keys, order);
    points := [];
    NoPoints();
    for i := 0 to |paths|
      invariant StrictlyOrdered(points)
      invariant forall p :: p in points <==> p.path in paths[..i] && p.line in counts[p.path] && p.count == counts[p.path][p.line]
    {
      assert paths[i] in counts;
      var chunk := EmitPath(paths[i], counts[paths[i]]);
      forall q | q in paths[..i] ensures q != paths[i] && LexLe(q, paths[i]) {
        var k :| 0 <= k < i && paths[k] == q;
        assert order(paths[k], paths[i]);
      }
      OrderedConcat(points, chunk, paths[i]);
      assert paths[..i + 1] == paths[..i] + [paths[i]];
      points := points + chunk;
    }
    assert paths[..|paths|] == paths;
  }

  lemma NoPoints()
    ensures StrictlyOrdered([])
  {
  }

  /** Resolved exactly when nothing stops the stream; the first fault is the reason otherwise. */
  method NormalizeLcovLineCoverage(lines: seq<Line>) returns (r: LineCoverage)
    ensures r.Resolved? <==> WellFormed(lines) && InBounds(Hits(lines, |lines|))
    ensures r.Resolved? ==> ArePoints(Hits(lines, |lines|), r.points) && r.points != []
    ensures r.Unresolved? ==>
      || (Faultless(lines, |lines|) && EndFault(lines) == Some(r.reason))
      || (exists i | 0 <= i < |lines| :: Faultless(lines, i) && FaultAt(lines, i) == Some(r.reason))
  {
    hide Sum, Observed, Agrees, InBounds, WellFormed;
    ResolvedExactly(lines);
    var counts: Counts := map[];
    var currentSource: Option<Str> := None;
    var currentRecordHadLineData := false;
    var sawCompleteSourceRecord := false;
    NothingCounted();
    for i := 0 to |lines|
      invariant Faultless(lines, i)
      invariant At(lines, i) == Cursor(currentSource, currentRecordHadLineData, sawCompleteSourceRecord)
      invariant Agrees(counts, Hits(lines, i))
    {
      ghost var fault := FaultAt(lines, i);
      assert fault.Some? ==> !Faultless(lines, |lines|);
      assert lines[i].Data? || Hits(lines, i + 1) == Hits(lines, i);
      match lines[i]
      case Source(path) =>
        if currentSource.Some? {
          return Unresolved(IncompleteRecord);
        }
        if path.None? {
          return Unresolved(SourceUnmappable);
        }
        currentSource := path;
        currentRecordHadLineData := false;
      case EndOfRecord =>
        if currentSource.Some? {
          if !currentRecordHadLineData {
            return Unresolved(NoLineData);
          }
          sawCompleteSourceRecord := true;
          currentSource := None;
          currentRecordHadLineData := false;
        }
      case Data(reading) =>
        if currentSource.None? {
          return Unresolved(MalformedLine);
        }
        if reading.Err? {
          return Unresolved(reading.error);
        }
        var added, next := AddCount(counts, currentSource.value, reading.value.line, reading.value.count, Hits(lines, i));
        if !added {
          return Unresolved(InvalidCount);
        }
        counts := next;
        currentRecordHadLineData := true;
      case Other =>
    }
    if currentSource.Some? {
      return Unresolved(IncompleteRecord);
    }
    CountedSomething(lines, counts);
    if !sawCompleteSourceRecord || counts == map[] {
      return Unresolved(NoLineData);
    }
    var points := EmitPoints(counts);
    EmittedPoints(counts, Hits(lines, |lines|), points);
    return Resolved(points);
  }

  lemma NothingCounted()
    ensures Agrees(map[], [])
  {
  }

  lemma CountedSomething(lines: seq<Line>, counts: Counts)
    requires Faultless(lines, |lines|) && Agrees(counts, Hits(lines, |lines|))
    ensures At(lines, |lines|).complete ==> counts != map[]
  {
    CompleteHasHits(lines, |lines|);
    var hits := Hits(lines, |lines|);
    if hits != [] {
      assert hits[0] in hits;
      assert Observed(hits, hits[0].path, hits[0].line);
    }
  }

  lemma EmittedPoints(counts: Counts, hits: seq<Hit>, points: seq<Point>)
    requires Agrees(counts, hits) && StrictlyOrdered(points)
    requires forall p :: p in points <==> p.path in counts && p.line in counts[p.path] && p.count == counts[p.path][p.line]
    ensures ArePoints(hits, points) && (counts != map[] ==> points != [])
  {
    hide Sum, Observed, StrictlyOrdered;
    if counts != map[] {
      var path :| path in counts;
      assert counts[path] != map[];
      var line :| line in counts[path];
      assert Point(path, line, counts[path][line]) in points;
    }
  }
}
