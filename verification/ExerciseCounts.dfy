/**
 What the counts of an exercise count. With distinct paths every changed line is recorded once, so
 the three counts are the numbers of lines, and of branches, in each state.
 */
module ExerciseCounts {
  import opened Wrappers
  import opened Text
  import opened Sorting
  import opened Exercise
  import opened BranchExercise
  import Lcov
  import B = LcovBranch

  // ---------------------------------------------------------------- sizes

  function Image<T, U>(a: set<T>, f: T -> U): set<U> {
    set x | x in a :: f(x)
  }

  lemma {:induction false} ImageSize<T, U>(a: set<T>, f: T -> U)
    requires forall x, y | x in a && y in a && f(x) == f(y) :: x == y
    ensures |Image(a, f)| == |a|
    decreases a
  {
    if x :| x in a {
      var rest := a - {x};
      ImageSize(rest, f);
      assert Image(a, f) == Image(rest, f) + {f(x)};
    }
  }

  function InState(records: seq<Record>, state: State): set<Record> {
    set r | r in records && r.state == state
  }

  /** No record in the state occurs twice. */
  ghost predicate Once(records: seq<Record>, state: State) {
    forall r: Record | r.state == state :: multiset(records)[r] <= 1
  }

  lemma OnceConcat(a: seq<Record>, b: seq<Record>, state: State)
    requires Once(a, state) && Once(b, state) && forall r | r in a && r.state == state :: r !in b
    ensures Once(a + b, state)
  {
    forall r: Record | r.state == state ensures multiset(a + b)[r] <= 1 {
      assert multiset(a + b)[r] == multiset(a)[r] + multiset(b)[r];
    }
  }

  /** Of records that occur once, as many are counted as there are. */
  lemma {:induction false} CountIsSize(records: seq<Record>, state: State)
    requires Once(records, state)
    ensures CountState(records, state) == |InState(records, state)|
  {
    if records != [] {
      var rest, last := records[..|records| - 1], records[|records| - 1];
      assert records == rest + [last];
      OnceSnoc(rest, last, state);
      hide Once, InState;
      CountIsSize(rest, state);
    }
  }

  lemma OnceSnoc(records: seq<Record>, r: Record, state: State)
    requires Once(records + [r], state)
    ensures Once(records, state)
    ensures r.state == state ==> r !in InState(records, state)
    ensures InState(records + [r], state) == InState(records, state) + if r.state == state then {r} else {}
  {
    forall q: Record | q.state == state ensures multiset(records)[q] <= 1 {
      assert multiset(records + [r])[q] <= 1;
    }
  }

  function BranchesInState(records: seq<B.Point>, state: B.State): set<B.Point> {
    set r | r in records && r.state == state
  }

  lemma {:induction false} BranchCountIsSize(records: seq<B.Point>, state: B.State)
    requires NoRepeats(records)
    ensures CountBranches(records, state) == |BranchesInState(records, state)|
  {
    if records != [] {
      var rest, last := records[..|records| - 1], records[|records| - 1];
      assert records == rest + [last];
      BranchOnceSnoc(rest, last, state);
      hide NoRepeats, BranchesInState;
      BranchCountIsSize(rest, state);
    }
  }

  lemma BranchOnceSnoc(records: seq<B.Point>, r: B.Point, state: B.State)
    requires NoRepeats(records + [r])
    ensures NoRepeats(records)
    ensures r !in BranchesInState(records, state)
    ensures BranchesInState(records + [r], state) == BranchesInState(records, state) + if r.state == state then {r} else {}
  {
    var more := records + [r];
    forall i, j | 0 <= i < j < |records| ensures records[i] != records[j] {
      assert more[i] != more[j];
    }
    forall i | 0 <= i < |records| ensures records[i] != r {
      assert more[i] != more[|records|];
    }
  }

  // ---------------------------------------------------------------- lines are recorded once

  lemma {:induction false} SelectNoRepeats<T(!new)>(items: seq<T>, key: T -> Str, k: Str)
    requires NoRepeats(items)
    ensures NoRepeats(Select(items, key, k))
  {
    if items != [] {
      var rest, last := items[..|items| - 1], items[|items| - 1];
      SelectNoRepeats(rest, key, k);
      assert last !in rest;
    }
  }

  /** Points of one path, one for each line. */
  predicate OnePerLine(points: seq<Lcov.Point>) {
    forall i, j | 0 <= i < j < |points| :: points[i].path == points[j].path ==> points[i].line != points[j].line
  }

  lemma PointsArePerLine(hits: seq<Lcov.Hit>, points: seq<Lcov.Point>)
    requires Lcov.ArePoints(hits, points)
    ensures OnePerLine(points)
  {
  }

  lemma {:induction false} SelectPerLine(points: seq<Lcov.Point>, path: Str)
    requires OnePerLine(points)
    ensures OnePerLine(Select(points, PathOf(), path))
  {
    if points != [] {
      var rest, last := points[..|points| - 1], points[|points| - 1];
      SelectPerLine(rest, path);
      var own := Select(rest, PathOf(), path);
      forall i | 0 <= i < |own| && own[i].path == last.path ensures own[i].line != last.line {
        assert own[i] in rest;
      }
    }
  }

  lemma {:induction false} CoveredOnce(points: seq<Lcov.Point>, ranges: seq<Range>, task: Str, state: State)
    requires OnePerLine(points)
    ensures Once(CoveredRecords(points, ranges, task), state)
  {
    if points != [] {
      var rest, last := points[..|points| - 1], points[|points| - 1];
      CoveredOnce(rest, ranges, task, state);
      assert RecordOf(last, task) !in CoveredRecords(rest, ranges, task);
      OnceConcat(CoveredRecords(rest, ranges, task), [RecordOf(last, task)], state);
    }
  }

  /** No line lies in both ranges. */
  predicate Apart(a: Range, b: Range) {
    a.end < a.start || b.end < b.start || a.end < b.start || b.end < a.start
  }

  predicate Disjoint(ranges: seq<Range>) {
    forall i, j | 0 <= i < j < |ranges| :: Apart(ranges[i], ranges[j])
  }

  lemma {:induction false} LinesOnce(path: Str, start: nat, end: nat, task: Str, state: State)
    ensures Once(UnresolvedLines(path, start, end, task), state)
    decreases end + 1 - start
  {
    if start <= end {
      LinesOnce(path, start + 1, end, task, state);
      OnceConcat([Record(path, start, Unresolved, None, task)], UnresolvedLines(path, start + 1, end, task), state);
    }
  }

  lemma {:induction false} UnresolvedOnce(path: Str, ranges: seq<Range>, task: Str, state: State)
    requires state.Unresolved? ==> Disjoint(ranges)
    ensures Once(UnresolvedRecords(path, ranges, task), state)
  {
    if ranges != [] {
      var first, others := UnresolvedLines(path, ranges[0].start, ranges[0].end, task), UnresolvedRecords(path, ranges[1..], task);
      LinesOnce(path, ranges[0].start, ranges[0].end, task, state);
      UnresolvedOnce(path, ranges[1..], task, state);
      forall r | r in first && r.state == state ensures r !in others {
      }
      OnceConcat(first, others, state);
    }
  }

  predicate AllDisjoint(files: seq<ChangedFile>) {
    forall f | f in files && Applies(f) :: Disjoint(f.ranges)
  }

  lemma FileOnce(f: ChangedFile, points: seq<Lcov.Point>, task: Str, production: ChangedFile -> bool, state: State)
    requires OnePerLine(points) && (state.Unresolved? && Applies(f) ==> Disjoint(f.ranges))
    ensures Once(FileRecords(f, points, task, production), state)
    ensures forall r | r in FileRecords(f, points, task, production) :: r.path == f.path
  {
    hide Once, OnePerLine, Disjoint;
    NothingTwice(state);
    SelectPerLine(points, f.path);
    CoveredOnce(Select(points, PathOf(), f.path), f.ranges, task, state);
    if Applies(f) {
      UnresolvedOnce(f.path, f.ranges, task, state);
    }
  }

  lemma NothingTwice(state: State)
    ensures Once([], state)
  {
  }

  lemma {:induction false} AllOnce(files: seq<ChangedFile>, points: seq<Lcov.Point>, task: Str, production: ChangedFile -> bool,
      state: State)
    requires UniquePaths(files) && OnePerLine(points) && (state.Unresolved? ==> AllDisjoint(files))
    ensures Once(AllRecords(files, points, task, production), state)
    ensures forall r | r in AllRecords(files, points, task, production) :: exists f | f in files :: f.path == r.path
  {
    hide Once, FileRecords, OnePerLine, Disjoint, Applies;
    if files == [] {
      NothingTwice(state);
    } else {
      var rest, last := files[..|files| - 1], files[|files| - 1];
      assert files == rest + [last];
      AllOnce(rest, points, task, production, state);
      FileOnce(last, points, task, production, state);
      OnceConcat(AllRecords(rest, points, task, production), FileRecords(last, points, task, production), state);
    }
  }

  // ---------------------------------------------------------------- the counts of lines

  function Place(): Record -> (Str, nat) {
    (r: Record) => (r.path, r.line)
  }

  predicate Inside(n: nat, range: Range) {
    range.start <= n <= range.end
  }

  function LinesOf(ranges: seq<Range>): (lines: set<nat>)
    ensures forall n: nat :: n in lines <==> LineInRanges(n, ranges)
  {
    if ranges == [] then {}
    else (set n: nat | ranges[0].start <= n <= ranges[0].end && Inside(n, ranges[0])) + LinesOf(ranges[1..])
  }

  /**
   The lines in a state: changed lines whose data records sum to more than zero, or to zero, and
   changed lines of production source that has no data record.
   */
  ghost function LinesIn(files: seq<ChangedFile>, hits: seq<Lcov.Hit>, production: ChangedFile -> bool, state: State): set<(Str, nat)> {
    match state
    case Exercised =>
      set h | h in hits && Changed(files, h.path, h.line) && Lcov.Sum(hits, h.path, h.line) > 0 :: (h.path, h.line)
    case NotExercised =>
      set h | h in hits && Changed(files, h.path, h.line) && Lcov.Sum(hits, h.path, h.line) == 0 :: (h.path, h.line)
    case Unresolved =>
      set f, n | f in files && Applies(f) && production(f) && !HasData(hits, f.path) && n in LinesOf(f.ranges) :: (f.path, n)
  }

  ghost predicate HasData(hits: seq<Lcov.Hit>, path: Str) {
    exists h | h in hits :: h.path == path
  }

  lemma LinesInExactly(files: seq<ChangedFile>, hits: seq<Lcov.Hit>, production: ChangedFile -> bool, path: Str, line: nat)
    ensures (path, line) in LinesIn(files, hits, production, Exercised) <==>
      Changed(files, path, line) && Lcov.Sum(hits, path, line) > 0
    ensures (path, line) in LinesIn(files, hits, production, NotExercised) <==>
      Changed(files, path, line) && Lcov.Observed(hits, path, line) && Lcov.Sum(hits, path, line) == 0
    ensures (path, line) in LinesIn(files, hits, production, Unresolved) <==>
      && !HasData(hits, path)
      && exists f | f in files :: Applies(f) && production(f) && f.path == path && LineInRanges(line, f.ranges)
  {
    hide Changed, Applies, LineInRanges, Lcov.Sum;
    if !Lcov.Observed(hits, path, line) {
      Lcov.UnobservedSum(hits, path, line);
    }
  }

  /** The places of the records in a state are the lines in that state. */
  lemma PlacesExactly(files: seq<ChangedFile>, hits: seq<Lcov.Hit>, points: seq<Lcov.Point>, task: Str,
      production: ChangedFile -> bool, records: seq<Record>, state: State)
    requires Lcov.ArePoints(hits, points) && records == SortBy(AllRecords(files, points, task, production), RecordOrder())
    ensures Image(InState(records, state), Place()) == LinesIn(files, hits, production, state)
  {
    hide Lcov.ArePoints, SortBy, AllRecords, LinesIn, Changed, Applies, LineInRanges, Lcov.Sum, Lcov.Observed, Image, HasRecord;
    forall place: (Str, nat)
      ensures place in Image(InState(records, state), Place()) <==> place in LinesIn(files, hits, production, state)
    {
      var (path, line) := place;
      ExercisedExactly(files, hits, points, task, production, path, line);
      UnresolvedExactly(files, hits, points, task, production, path, line);
      LinesInExactly(files, hits, production, path, line);
      HasPlace(records, path, line, state);
    }
  }

  lemma HasPlace(records: seq<Record>, path: Str, line: nat, state: State)
    ensures HasRecord(records, path, line, state) <==> (path, line) in Image(InState(records, state), Place())
  {
    if r :| r in records && r.path == path && r.line == line && r.state == state {
      assert r in InState(records, state) && Place()(r) == (path, line);
    }
  }

  lemma OneRecordPerPlace(files: seq<ChangedFile>, hits: seq<Lcov.Hit>, points: seq<Lcov.Point>, task: Str,
      production: ChangedFile -> bool, q: Record, r: Record)
    requires Lcov.ArePoints(hits, points) && IsRecord(files, points, task, production, q) && IsRecord(files, points, task, production, r)
    requires Place()(q) == Place()(r) && q.state == r.state
    ensures q == r
  {
    hide Applies, LineInRanges, Lcov.Sum, Lcov.Observed, Lcov.StrictlyOrdered;
  }

  /**
   With distinct paths the counts are numbers of lines: exercised and not exercised ones always, and
   unresolved ones when no file's ranges overlap.
   */
  lemma LineCounts(files: seq<ChangedFile>, hits: seq<Lcov.Hit>, points: seq<Lcov.Point>, task: Str,
      production: ChangedFile -> bool, state: State)
    requires UniquePaths(files) && Lcov.ArePoints(hits, points) && (state.Unresolved? ==> AllDisjoint(files))
    ensures CountState(SortBy(AllRecords(files, points, task, production), RecordOrder()), state) ==
        |LinesIn(files, hits, production, state)|
  {
    hide Lcov.ArePoints, SortBy, AllRecords, LinesIn, IsRecord, OnePerLine, AllDisjoint, CountState;
    var all := AllRecords(files, points, task, production);
    var records := SortBy(all, RecordOrder());
    PointsArePerLine(hits, points);
    AllOnce(files, points, task, production, state);
    SortPermutes(all, RecordOrder());
    assert Once(records, state);
    CountIsSize(records, state);
    PlacesExactly(files, hits, points, task, production, records, state);
    forall q, r | q in InState(records, state) && r in InState(records, state) && Place()(q) == Place()(r) ensures q == r {
      assert q in multiset(records) && r in multiset(records);
      AllRecordsExactly(files, points, task, production, q);
      AllRecordsExactly(files, points, task, production, r);
      OneRecordPerPlace(files, hits, points, task, production, q, r);
    }
    ImageSize(InState(records, state), Place());
  }

  // ---------------------------------------------------------------- the counts of branches

  /** Branches observed on changed lines, by what the observations come to. */
  ghost function BranchesIn(files: seq<ChangedFile>, hits: seq<B.Hit>, state: B.State): set<B.Key> {
    set h | h in hits && Changed(files, h.key.path, h.key.line) && B.BranchStateFor(B.Taken(hits, h.key)) == state :: h.key
  }

  function KeyOf(): B.Point -> B.Key {
    (p: B.Point) => p.key
  }

  lemma BranchPointsOnce(hits: seq<B.Hit>, points: seq<B.Point>)
    requires B.ArePoints(hits, points)
    ensures NoRepeats(points)
  {
  }

  lemma {:induction false} CoveredBranchesOnce(points: seq<B.Point>, ranges: seq<Range>)
    requires NoRepeats(points)
    ensures NoRepeats(Covered(points, ranges))
  {
    if points != [] {
      CoveredBranchesOnce(points[..|points| - 1], ranges);
      assert points[|points| - 1] !in points[..|points| - 1];
    }
  }

  lemma {:induction false} BranchRecordsOnce(listed: seq<ChangedFile>, files: seq<ChangedFile>, points: seq<B.Point>)
    requires UniquePaths(listed) && NoRepeats(points)
    ensures NoRepeats(BranchRecords(listed, files, points))
    ensures forall r | r in BranchRecords(listed, files, points) :: exists f | f in listed :: f.path == r.key.path
  {
    hide RangesOf, Applies;
    if listed != [] {
      var rest, last := listed[..|listed| - 1], listed[|listed| - 1];
      assert listed == rest + [last];
      BranchRecordsOnce(rest, files, points);
      SelectNoRepeats(points, PathOfPoint(), last.path);
      CoveredBranchesOnce(Select(points, PathOfPoint(), last.path), RangesOf(files, last.path));
    }
  }

  /** With distinct paths the three counts are numbers of branches. */
  lemma BranchCounts(files: seq<ChangedFile>, hits: seq<B.Hit>, points: seq<B.Point>, state: B.State)
    requires UniquePaths(files) && B.ArePoints(hits, points)
    ensures CountBranches(SortBy(BranchRecords(files, files, points), BranchOrder()), state) == |BranchesIn(files, hits, state)|
  {
    hide B.ArePoints, SortBy, BranchRecords, Changed, B.Taken, CountBranches, NoRepeats;
    var all := BranchRecords(files, files, points);
    var records := SortBy(all, BranchOrder());
    BranchPointsOnce(hits, points);
    BranchRecordsOnce(files, files, points);
    SortPermutes(all, BranchOrder());
    SortKeepsNoRepeats(all, BranchOrder());
    BranchCountIsSize(records, state);
    forall r ensures r in records <==> r in all {
      assert r in multiset(records) <==> r in multiset(all);
    }
    assert BranchesInState(records, state) == BranchesInState(all, state);
    KeysExactly(files, hits, points, state);
    ImageSize(BranchesInState(all, state), KeyOf());
  }

  lemma HasKey(records: seq<B.Point>, key: B.Key, state: B.State)
    ensures (exists r | r in records :: r.key == key && r.state == state) <==> key in Image(BranchesInState(records, state), KeyOf())
  {
    if r :| r in records && r.key == key && r.state == state {
      assert r in BranchesInState(records, state) && KeyOf()(r) == key;
    }
  }

  lemma KeysExactly(files: seq<ChangedFile>, hits: seq<B.Hit>, points: seq<B.Point>, state: B.State)
    requires UniquePaths(files) && B.ArePoints(hits, points)
    ensures Image(BranchesInState(BranchRecords(files, files, points), state), KeyOf()) == BranchesIn(files, hits, state)
    ensures forall q, r | q in BranchRecords(files, files, points) && r in BranchRecords(files, files, points) && q.key == r.key :: q == r
  {
    hide BranchRecords, Changed, B.Sum, B.Unknown, B.KeyLe, UniquePaths;
    var all := BranchRecords(files, files, points);
    forall q ensures q in all ==> q in points {
      BranchRecordsExactly(files, files, points, q);
    }
    forall key ensures key in Image(BranchesInState(all, state), KeyOf()) <==> key in BranchesIn(files, hits, state) {
      BranchExercisedExactly(files, hits, points, key, state);
      HasKey(all, key, state);
    }
  }
}
