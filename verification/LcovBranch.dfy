/**
 Branch coverage from LCOV. An unknown observation makes its branch unresolved for good; known
 ones add up. Whether the input resolves can depend on the order of the observations, the points
 of resolved input cannot.
 */
module LcovBranch {
  import opened Wrappers
  import opened Text
  import opened Sorting
  import L = Lcov

  datatype Reason = SourceUnmappable | IncompleteRecord | MalformedSource | MalformedBranch | InvalidTaken | NoBranchData

  /** An observation of one branch; no count when it is unknown. */
  datatype Reading = Reading(line: nat, block: Str, branch: Str, taken: Option<nat>)

  datatype Line = Source(path: Option<Str>) | EndOfRecord | Branch(reading: Result<Reading, Reason>) | Other

  const DASH: CodeUnit := 0x2D

  predicate IsNegative(token: Str) {
    |token| >= 2 && token[0] == DASH && IsDigits(token[1..])
  }

  /** A dash and negative numbers are unknown; digits must denote a safe integer. */
  function ReadTaken(token: Str): Result<Option<nat>, Reason> {
    if token == [DASH] || IsNegative(token) then Ok(None)
    else
      match L.ParseSafeInteger(token)
      case None => Err(InvalidTaken)
      case Some(n) => Ok(Some(n))
  }

  function ReadFields(fields: seq<Str>): Result<Reading, Reason> {
    if |fields| != 4 || fields[1] == [] || fields[2] == [] then Err(MalformedBranch)
    else
      match L.ParseSafeInteger(fields[0])
      case None => Err(MalformedBranch)
      case Some(line) =>
        if line == 0 then Err(MalformedBranch)
        else
          match ReadTaken(fields[3])
          case Err(reason) => Err(reason)
          case Ok(taken) => Ok(Reading(line, fields[1], fields[2], taken))
  }

  predicate NamesBranch(fields: seq<Str>) {
    && |fields| == 4 && fields[1] != [] && fields[2] != []
    && L.ParseSafeInteger(fields[0]).Some? && L.ParseSafeInteger(fields[0]) != Some(0)
  }

  /** A branch line that is not read has an invalid count if it names a branch, and is malformed otherwise. */
  lemma UnreadExactly(fields: seq<Str>)
    ensures ReadFields(fields) == Err(InvalidTaken) <==> NamesBranch(fields) && ReadTaken(fields[3]) == Err(InvalidTaken)
    ensures ReadFields(fields) == Err(MalformedBranch) <==> !NamesBranch(fields)
  {
  }

  /** Unknown is a dash, alone or before digits; a count is a safe integer; anything else is invalid. */
  lemma TakenExactly(token: Str)
    ensures ReadTaken(token) == Ok(None) <==> token != [] && token[0] == '-' as int && (|token| == 1 || AllDigits(token[1..]))
    ensures forall n :: ReadTaken(token) == Ok(Some(n)) <==> L.ParseSafeInteger(token) == Some(n)
    ensures ReadTaken(token).Err? ==> ReadTaken(token) == Err(InvalidTaken)
  {
    if token != [] && token[0] == DASH {
      assert !IsDigits(token);
      assert token == [token[0]] + token[1..];
      assert IsDigits(token[1..]) <==> forall c | c in token[1..] :: '0' as int <= c <= '9' as int by {
        assert forall i | 0 <= i < |token[1..]| :: token[1..][i] in token[1..];
      }
    }
  }

  predicate AllDigits(s: Str) {
    s != [] && forall c | c in s :: '0' as int <= c <= '9' as int
  }

  function Classify(raw: Str, mapSourcePath: Str -> Option<Str>): Line {
    if Lit("SF:") <= raw then Source(mapSourcePath(raw[3..]))
    else if raw == Lit("end_of_record") then EndOfRecord
    else if Lit("BRDA:") <= raw then Branch(ReadFields(SplitOn(raw[5..], COMMA)))
    else Other
  }

  /** The three kinds of line that count, by what they start with or are; all others are skipped. */
  lemma ClassesExactly(raw: Str, mapSourcePath: Str -> Option<Str>)
    ensures Classify(Lit("SF:") + raw, mapSourcePath) == Source(mapSourcePath(raw))
    ensures Classify(Lit("BRDA:") + raw, mapSourcePath) == Branch(ReadFields(SplitOn(raw, COMMA)))
    ensures Classify(raw, mapSourcePath) == EndOfRecord <==> raw == Lit("end_of_record")
    ensures Classify(raw, mapSourcePath) == Other <==>
      raw != Lit("end_of_record") && !(Lit("SF:") <= raw) && !(Lit("BRDA:") <= raw)
  {
    hide ReadFields, SplitOn;
    assert (Lit("SF:") + raw)[3..] == raw && (Lit("BRDA:") + raw)[5..] == raw;
    assert (Lit("BRDA:") + raw)[0] == Lit("BRDA:")[0] == 0x42;
    assert Lit("SF:")[0] == 0x53 && Lit("end_of_record")[0] == 0x65;
  }

  // ---------------------------------------------------------------- meaning of the input

  datatype Key = Key(path: Str, line: nat, block: Str, branch: Str)

  datatype Hit = Hit(key: Key, taken: Option<nat>)

  function SourceAt(lines: seq<Line>, i: nat): Option<Str>
    requires i <= |lines|
  {
    if i == 0 then None
    else
      match lines[i - 1]
      case Source(path) => path
      case EndOfRecord => None
      case _ => SourceAt(lines, i - 1)
  }

  /** The source named in line j is still open before line i. */
  predicate OpenSince(lines: seq<Line>, i: nat, j: nat) {
    && j < i <= |lines| && lines[j].Source? && lines[j].path.Some?
    && forall k | j < k < i :: !lines[k].Source? && !lines[k].EndOfRecord?
  }

  /** The open source is that of the last source line, if no record has ended since. */
  lemma {:induction false} SourceExactly(lines: seq<Line>, i: nat, path: Str)
    requires i <= |lines|
    ensures SourceAt(lines, i) == Some(path) <==> exists j: nat :: OpenSince(lines, i, j) && lines[j].path == Some(path)
  {
    if i > 0 {
      SourceExactly(lines, i - 1, path);
      var last := lines[i - 1];
      if SourceAt(lines, i) == Some(path) {
        if last.Source? {
          assert OpenSince(lines, i, i - 1);
        } else {
          var j: nat :| OpenSince(lines, i - 1, j) && lines[j].path == Some(path);
          assert OpenSince(lines, i, j);
        }
      }
      if j: nat :| OpenSince(lines, i, j) && lines[j].path == Some(path) {
        assert j == i - 1 || OpenSince(lines, i - 1, j);
      }
    }
  }

  function Hits(lines: seq<Line>, i: nat): seq<Hit>
    requires i <= |lines|
  {
    if i == 0 then []
    else
      match lines[i - 1]
      case Branch(Ok(r)) =>
        (match SourceAt(lines, i - 1)
         case None => Hits(lines, i - 1)
         case Some(path) => Hits(lines, i - 1) + [Hit(Key(path, r.line, r.block, r.branch), r.taken)])
      case _ => Hits(lines, i - 1)
  }

  predicate Observed(hits: seq<Hit>, key: Key) {
    exists h | h in hits :: h.key == key
  }

  predicate Unknown(hits: seq<Hit>, key: Key) {
    Hit(key, None) in hits
  }

  /** The sum of the known observations of a branch. */
  function Sum(hits: seq<Hit>, key: Key): nat {
    if hits == [] then 0
    else
      var last := hits[|hits| - 1];
      Sum(hits[..|hits| - 1], key) + if last.key == key && last.taken.Some? then last.taken.value else 0
  }

  /** Unresolved when any observation is unknown, the sum otherwise. */
  function Taken(hits: seq<Hit>, key: Key): Option<nat> {
    if Unknown(hits, key) then None else Some(Sum(hits, key))
  }

  /** Up to its first unknown observation, no branch's sum leaves the safe integers. */
  ghost predicate InBounds(hits: seq<Hit>) {
    forall n, key | 0 <= n <= |hits| && !Unknown(hits[..n], key) :: Sum(hits[..n], key) <= MAX_SAFE_INTEGER
  }

  predicate InPlace(lines: seq<Line>, i: nat)
    requires i < |lines|
  {
    match lines[i]
    case Source(path) => path.Some? && SourceAt(lines, i).None?
    case EndOfRecord => SourceAt(lines, i).Some?
    case Branch(reading) => reading.Ok? && SourceAt(lines, i).Some?
    case Other => true
  }

  predicate WellFormed(lines: seq<Line>) {
    (forall i | 0 <= i < |lines| :: InPlace(lines, i)) && SourceAt(lines, |lines|).None? && Hits(lines, |lines|) != []
  }

  function FaultAt(lines: seq<Line>, i: nat): Option<Reason>
    requires i < |lines|
  {
    match lines[i]
    case Source(path) => if SourceAt(lines, i).Some? then Some(IncompleteRecord) else if path.None? then Some(SourceUnmappable) else None
    case EndOfRecord => if SourceAt(lines, i).None? then Some(MalformedSource) else None
    case Branch(reading) =>
      if SourceAt(lines, i).None? then Some(MalformedBranch)
      else
        (match reading
         case Err(reason) => Some(reason)
         case Ok(r) =>
           var key := Key(SourceAt(lines, i).value, r.line, r.block, r.branch);
           if r.taken.Some? && !Unknown(Hits(lines, i), key) && Sum(Hits(lines, i), key) + r.taken.value > MAX_SAFE_INTEGER
           then Some(InvalidTaken) else None)
    case Other => None
  }

  function EndFault(lines: seq<Line>): Option<Reason> {
    if SourceAt(lines, |lines|).Some? then Some(IncompleteRecord)
    else if Hits(lines, |lines|) == [] then Some(NoBranchData)
    else None
  }

  ghost predicate IsOpen(lines: seq<Line>, i: nat) {
    exists j: nat :: OpenSince(lines, i, j)
  }

  /** What each reason says of the line that it stops at, beside a line that was not read for this reason. */
  ghost predicate Explains(lines: seq<Line>, i: nat, reason: Reason)
    requires i < |lines|
  {
    match reason
    case IncompleteRecord => lines[i].Source? && IsOpen(lines, i)
    case SourceUnmappable => lines[i] == Source(None) && !IsOpen(lines, i)
    case MalformedSource => lines[i] == EndOfRecord && !IsOpen(lines, i)
    case MalformedBranch => lines[i].Branch? && !IsOpen(lines, i)
    case InvalidTaken => exists j: nat :: OpenSince(lines, i, j) && Exceeds(lines, i, lines[j].path.value)
    case NoBranchData => false
  }

  /** The line is read and takes the sum of its branch, which has no unknown observation, beyond the safe integers. */
  predicate Exceeds(lines: seq<Line>, i: nat, path: Str)
    requires i < |lines|
  {
    && lines[i].Branch? && lines[i].reading.Ok? && lines[i].reading.value.taken.Some?
    && var r := lines[i].reading.value;
    && Hit(Key(path, r.line, r.block, r.branch), None) !in Hits(lines, i)
    && Sum(Hits(lines, i), Key(path, r.line, r.block, r.branch)) + r.taken.value > MAX_SAFE_INTEGER
  }

  lemma FaultsExactly(lines: seq<Line>, i: nat, reason: Reason)
    requires i < |lines|
    ensures FaultAt(lines, i) == Some(reason) <==>
      (lines[i] == Branch(Err(reason)) && IsOpen(lines, i)) || Explains(lines, i, reason)
  {
    forall path ensures SourceAt(lines, i) == Some(path) <==> exists j: nat :: OpenSince(lines, i, j) && lines[j].path == Some(path) {
      SourceExactly(lines, i, path);
    }
    hide SourceAt, Sum, Hits;
    if IsOpen(lines, i) {
      var j: nat :| OpenSince(lines, i, j);
      assert SourceAt(lines, i) == Some(lines[j].path.value);
    }
  }

  lemma EndExactly(lines: seq<Line>)
    ensures EndFault(lines) == Some(IncompleteRecord) <==> IsOpen(lines, |lines|)
    ensures EndFault(lines) == Some(NoBranchData) <==> !IsOpen(lines, |lines|) && Hits(lines, |lines|) == []
    ensures EndFault(lines) == None <==> !IsOpen(lines, |lines|) && Hits(lines, |lines|) != []
  {
    forall path
      ensures SourceAt(lines, |lines|) == Some(path) <==> exists j: nat :: OpenSince(lines, |lines|, j) && lines[j].path == Some(path)
    {
      SourceExactly(lines, |lines|, path);
    }
    hide SourceAt, Hits;
    if j: nat :| OpenSince(lines, |lines|, j) {
      assert SourceAt(lines, |lines|) == Some(lines[j].path.value);
    }
  }

  predicate Faultless(lines: seq<Line>, n: nat)
    requires n <= |lines|
  {
    forall i | 0 <= i < n :: FaultAt(lines, i).None?
  }

  lemma SumSnoc(hits: seq<Hit>, h: Hit, key: Key)
    ensures Sum(hits + [h], key) == Sum(hits, key) + if h.key == key && h.taken.Some? then h.taken.value else 0
    ensures Unknown(hits + [h], key) <==> Unknown(hits, key) || h == Hit(key, None)
    ensures Observed(hits + [h], key) <==> Observed(hits, key) || h.key == key
  {
    assert (hits + [h])[..|hits|] == hits;
    assert h in hits + [h];
    assert forall g | g in hits :: g in hits + [h];
  }

  lemma InBoundsSnoc(hits: seq<Hit>, h: Hit)
    ensures InBounds(hits + [h]) <==>
      && InBounds(hits)
      && (h.taken.Some? && !Unknown(hits, h.key) ==> Sum(hits, h.key) + h.taken.value <= MAX_SAFE_INTEGER)
  {
    hide Sum, Unknown;
    var more := hits + [h];
    assert forall n | 0 <= n <= |hits| :: more[..n] == hits[..n];
    assert more[..|more|] == more && hits[..|hits|] == hits;
    forall key ensures Sum(more, key) == Sum(hits, key) + (if h.key == key && h.taken.Some? then h.taken.value else 0)
      && (Unknown(more, key) <==> Unknown(hits, key) || h == Hit(key, None))
    {
      SumSnoc(hits, h, key);
    }
    if InBounds(more) {
      forall n, key | 0 <= n <= |hits| && !Unknown(hits[..n], key) ensures Sum(hits[..n], key) <= MAX_SAFE_INTEGER {
        assert !Unknown(more[..n], key);
      }
      assert h.taken.Some? && !Unknown(hits, h.key) ==> !Unknown(more[..|more|], h.key);
    }
    if InBounds(hits) && (h.taken.Some? && !Unknown(hits, h.key) ==> Sum(hits, h.key) + h.taken.value <= MAX_SAFE_INTEGER) {
      forall n, key | 0 <= n <= |more| && !Unknown(more[..n], key) ensures Sum(more[..n], key) <= MAX_SAFE_INTEGER {
        if n <= |hits| {
          assert !Unknown(hits[..n], key);
        } else {
          assert !Unknown(hits[..|hits|], key);
        }
      }
    }
  }

  lemma {:induction false} FaultlessExactly(lines: seq<Line>, n: nat)
    requires n <= |lines|
    ensures Faultless(lines, n) <==> (forall i | 0 <= i < n :: InPlace(lines, i)) && InBounds(Hits(lines, n))
  {
    hide InBounds;
    if n == 0 {
      NothingInBounds();
    } else {
      FaultlessExactly(lines, n - 1);
      var i := n - 1;
      assert Faultless(lines, n) <==> Faultless(lines, i) && FaultAt(lines, i).None?;
      if lines[i].Branch? && lines[i].reading.Ok? && SourceAt(lines, i).Some? {
        var r := lines[i].reading.value;
        InBoundsSnoc(Hits(lines, i), Hit(Key(SourceAt(lines, i).value, r.line, r.block, r.branch), r.taken));
      }
      assert (forall k | 0 <= k < n :: InPlace(lines, k)) <==> (forall k | 0 <= k < i :: InPlace(lines, k)) && InPlace(lines, i);
    }
  }

  lemma NothingInBounds()
    ensures InBounds([])
  {
  }

  /** The stream runs to its end without a fault exactly on well-formed input within bounds. */
  lemma ResolvedExactly(lines: seq<Line>)
    ensures Faultless(lines, |lines|) && EndFault(lines).None? <==> WellFormed(lines) && InBounds(Hits(lines, |lines|))
  {
    FaultlessExactly(lines, |lines|);
  }

  lemma EmptySum(key: Key)
    ensures Sum([], key) == 0 && !Unknown([], key) && !Observed([], key)
  {
  }

  // ---------------------------------------------------------------- points

  datatype State = Exercised | NotExercised | Unresolved

  function BranchStateFor(taken: Option<nat>): State {
    match taken
    case None => Unresolved
    case Some(n) => if n > 0 then Exercised else NotExercised
  }

  datatype Point = Point(key: Key, taken: Option<nat>, state: State)

  predicate KeyLe(a: Key, b: Key) {
    if a.path != b.path then LexLe(a.path, b.path)
    else if a.line != b.line then a.line < b.line
    else if a.block != b.block then LexLe(a.block, b.block)
    else LexLe(a.branch, b.branch)
  }

  /** Branches are ordered by path, then line, then block, then branch. */
  lemma KeyOrderExactly(a: Key, b: Key)
    ensures KeyLe(a, b) ==> LexLe(a.path, b.path) && (a.path == b.path ==> a.line <= b.line)
    ensures KeyLe(a, b) && a.path == b.path && a.line == b.line ==> LexLe(a.block, b.block)
    ensures KeyLe(a, b) && a.path == b.path && a.line == b.line && a.block == b.block ==> LexLe(a.branch, b.branch)
  {
    LexTotal(a.path, b.path);
    LexTotal(a.block, b.block);
    hide LexLe;
  }

  function KeyOrder(): (Key, Key) -> bool {
    (a, b) => KeyLe(a, b)
  }

  lemma KeyOrderIsTotal()
    ensures TotalPreorder(KeyOrder())
    ensures forall a: Key, b: Key :: KeyLe(a, b) && KeyLe(b, a) ==> a == b
  {
    hide LexLe;
    forall a: Str, b: Str ensures (LexLe(a, b) || LexLe(b, a)) && (LexLe(a, b) && LexLe(b, a) ==> a == b) {
      LexTotal(a, b);
    }
    forall a: Str, b: Str, c: Str | LexLe(a, b) && LexLe(b, c) ensures LexLe(a, c) {
      LexTransitive(a, b, c);
    }
  }

  /** One point for each observed branch, in strict order, unresolved if any observation was unknown. */
  ghost predicate ArePoints(hits: seq<Hit>, points: seq<Point>) {
    && (forall i, j | 0 <= i < j < |points| :: KeyLe(points[i].key, points[j].key) && points[i].key != points[j].key)
    && forall p :: p in points <==> Observed(hits, p.key) && p.taken == Taken(hits, p.key) && p.state == BranchStateFor(p.taken)
  }

  lemma {:induction false} SumRemoves(hits: seq<Hit>, i: nat, key: Key)
    requires i < |hits|
    ensures Sum(hits, key) == Sum(Without(hits, i), key) + if hits[i].key == key && hits[i].taken.Some? then hits[i].taken.value else 0
  {
    hide Sum, Unknown, Observed;
    var rest, last := hits[..|hits| - 1], hits[|hits| - 1];
    assert hits == rest + [last];
    SumSnoc(rest, last, key);
    if i == |rest| {
      assert Without(hits, i) == rest;
    } else {
      SumRemoves(rest, i, key);
      assert Without(hits, i) == Without(rest, i) + [last];
      SumSnoc(Without(rest, i), last, key);
    }
  }

  lemma {:induction false} SumIgnoresOrder(a: seq<Hit>, b: seq<Hit>, key: Key)
    requires multiset(a) == multiset(b)
    ensures Sum(a, key) == Sum(b, key)
    decreases |a|
  {
    SameLength(a, b);
    if a != [] {
      var i := FindLast(a, b);
      SumRemoves(b, i, key);
      SumIgnoresOrder(a[..|a| - 1], Without(b, i), key);
    }
  }

  /** Of two resolved inputs with the same observations, the points agree whatever the order. */
  lemma PointsIgnoreOrder(a: seq<Hit>, b: seq<Hit>, p: seq<Point>, q: seq<Point>)
    requires multiset(a) == multiset(b) && ArePoints(a, p) && ArePoints(b, q)
    ensures p == q
  {
    hide KeyLe, Sum;
    forall h ensures h in a <==> h in b {
      assert h in multiset(a) <==> h in multiset(b);
    }
    forall key ensures Taken(a, key) == Taken(b, key) && (Observed(a, key) <==> Observed(b, key)) {
      SumIgnoresOrder(a, b, key);
    }
    PointsAreUnique(p, q);
  }

  lemma PointsAreUnique(p: seq<Point>, q: seq<Point>)
    requires forall i, j | 0 <= i < j < |p| :: KeyLe(p[i].key, p[j].key) && p[i].key != p[j].key
    requires forall i, j | 0 <= i < j < |q| :: KeyLe(q[i].key, q[j].key) && q[i].key != q[j].key
    requires forall x :: x in p <==> x in q
    ensures p == q
  {
    hide KeyLe;
    KeyOrderIsTotal();
    var lt := (x: Point, y: Point) => KeyLe(x.key, y.key) && x.key != y.key;
    IncreasingIsUnique(p, q, lt);
  }

  // ---------------------------------------------------------------- the aggregation

  datatype BranchCoverage = Resolved(points: seq<Point>) | Unusable(reason: Reason)

  type Observations = map<Key, Option<nat>>

  ghost predicate Agrees(observations: Observations, hits: seq<Hit>) {
    && (forall key :: key in observations <==> Observed(hits, key))
    && (forall key | key in observations :: observations[key] == Taken(hits, key))
  }

  lemma AgreesStep(observations: Observations, hits: seq<Hit>, h: Hit)
    requires Agrees(observations, hits)
    ensures h.taken.None? || Unknown(hits, h.key) ==> Agrees(observations[h.key := None], hits + [h])
    ensures h.taken.Some? && !Unknown(hits, h.key) ==> Agrees(observations[h.key := Some(Sum(hits, h.key) + h.taken.value)], hits + [h])
  {
    hide Sum, Unknown, Observed;
    forall key ensures Sum(hits + [h], key) == Sum(hits, key) + (if h.key == key && h.taken.Some? then h.taken.value else 0)
      && (Unknown(hits + [h], key) <==> Unknown(hits, key) || h == Hit(key, None))
      && (Observed(hits + [h], key) <==> Observed(hits, key) || h.key == key)
    {
      SumSnoc(hits, h, key);
    }
  }

  lemma {:induction false} UnobservedTaken(hits: seq<Hit>, key: Key)
    requires !Observed(hits, key)
    ensures Taken(hits, key) == Some(0)
  {
    if hits != [] {
      assert hits[|hits| - 1] in hits;
      assert forall h | h in hits[..|hits| - 1] :: h in hits;
      UnobservedTaken(hits[..|hits| - 1], key);
    }
  }

  /** An unknown observation decides the branch; a known one adds up unless the branch is unresolved. */
  method AddBranchObservation(observations: Observations, key: Key, taken: Option<nat>, ghost hits: seq<Hit>)
    returns (ok: bool, next: Observations)
    requires Agrees(observations, hits)
    ensures ok <==> taken.None? || Unknown(hits, key) || Sum(hits, key) + taken.value <= MAX_SAFE_INTEGER
    ensures ok ==> Agrees(next, hits + [Hit(key, taken)])
  {
    hide Sum, Unknown, Observed;
    AgreesStep(observations, hits, Hit(key, taken));
    if key !in observations {
      UnobservedTaken(hits, key);
    }
    if taken.None? {
      return true, observations[key := None];
    }
    if key in observations && observations[key].None? {
      assert observations[key := None] == observations;
      return true, observations;
    }
    var total := (if key in observations then observations[key].value else 0) + taken.value;
    if total > MAX_SAFE_INTEGER {
      return false, observations;
    }
    return true, observations[key := Some(total)];
  }

  method NormalizeLcovBranchCoverage(lines: seq<Line>) returns (r: BranchCoverage)
    ensures r.Resolved? <==> WellFormed(lines) && InBounds(Hits(lines, |lines|))
    ensures r.Resolved? ==> ArePoints(Hits(lines, |lines|), r.points) && r.points != []
    ensures r.Unusable? ==>
      || (Faultless(lines, |lines|) && EndFault(lines) == Some(r.reason))
      || (exists i | 0 <= i < |lines| :: Faultless(lines, i) && FaultAt(lines, i) == Some(r.reason))
  {
    hide Sum, Unknown, Observed, Agrees, InBounds, WellFormed;
    ResolvedExactly(lines);
    var observations: Observations := map[];
    var currentSource: Option<Str> := None;
    NothingObserved();
    for i := 0 to |lines|
      invariant Faultless(lines, i)
      invariant SourceAt(lines, i) == currentSource
      invariant Agrees(observations, Hits(lines, i))
    {
      ghost var fault := FaultAt(lines, i);
      assert fault.Some? ==> !Faultless(lines, |lines|);
      assert lines[i].Branch? || Hits(lines, i + 1) == Hits(lines, i);
      match lines[i]
      case Source(path) =>
        if currentSource.Some? {
          return Unusable(IncompleteRecord);
        }
        if path.None? {
          return Unusable(SourceUnmappable);
        }
        currentSource := path;
      case EndOfRecord =>
        if currentSource.None? {
          return Unusable(MalformedSource);
        }
        currentSource := None;
      case Branch(reading) =>
        if currentSource.None? {
          return Unusable(MalformedBranch);
        }
        if reading.Err? {
          return Unusable(reading.error);
        }
        var key := Key(currentSource.value, reading.value.line, reading.value.block, reading.value.branch);
        var added, next := AddBranchObservation(observations, key, reading.value.taken, Hits(lines, i));
        if !added {
          return Unusable(InvalidTaken);
        }
        observations := next;
      case Other =>
    }
    if currentSource.Some? {
      return Unusable(IncompleteRecord);
    }
    SomethingObserved(observations, Hits(lines, |lines|));
    if observations == map[] {
      return Unusable(NoBranchData);
    }
    var points := EmitPoints(observations, Hits(lines, |lines|));
    return Resolved(points);
  }

  lemma NothingObserved()
    ensures Agrees(map[], [])
  {
  }

  lemma SomethingObserved(observations: Observations, hits: seq<Hit>)
    requires Agrees(observations, hits)
    ensures observations == map[] <==> hits == []
  {
    if hits != [] {
      assert hits[0] in hits;
      assert Observed(hits, hits[0].key);
    }
  }

  /** The points of the given branches. */
  function PointsOf(keys: seq<Key>, observations: Observations): (r: seq<Point>)
    requires forall key | key in keys :: key in observations
    ensures |r| == |keys| && forall k | 0 <= k < |keys| :: r[k] == Point(keys[k], observations[keys[k]],
        BranchStateFor(observations[keys[k]]))
  {
    seq(|keys|, k requires 0 <= k < |keys| => Point(keys[k], observations[keys[k]], BranchStateFor(observations[keys[k]])))
  }

  lemma PointsOfExactly(keys: seq<Key>, observations: Observations, hits: seq<Hit>)
    requires Agrees(observations, hits) && StrictlySorted(keys, KeyOrder()) && forall key :: key in keys <==> key in observations
    ensures ArePoints(hits, PointsOf(keys, observations))
  {
    hide KeyLe, Taken, Observed;
    var points := PointsOf(keys, observations);
    forall i, j | 0 <= i < j < |points| ensures KeyLe(points[i].key, points[j].key) && points[i].key != points[j].key {
      assert KeyOrder()(keys[i], keys[j]);
    }
    forall p: Point | Observed(hits, p.key) && p.taken == Taken(hits, p.key) && p.state == BranchStateFor(p.taken) ensures p in points {
      assert p.key in observations;
      var k :| 0 <= k < |keys| && keys[k] == p.key;
      assert points[k] == p;
    }
  }

  method EmitPoints(observations: Observations, ghost hits: seq<Hit>) returns (points: seq<Point>)
    requires Agrees(observations, hits)
    ensures ArePoints(hits, points)
    ensures observations != map[] ==> points != []
  {
    hide KeyOrder, TotalPreorder, StrictlySorted, Agrees, ArePoints, BranchStateFor;
    KeyOrderIsTotal();
    var keys := SortedElements(observations.Keys, KeyOrder());
    points := [];
    for i := 0 to |keys|
      invariant points == PointsOf(keys, observations)[..i]
    {
      points := points + [Point(keys[i], observations[keys[i]], BranchStateFor(observations[keys[i]]))];
    }
    assert points == PointsOf(keys, observations);
    PointsOfExactly(keys, observations, hits);
    if observations != map[] {
      var key :| key in observations;
      assert key in keys;
    }
  }
}
