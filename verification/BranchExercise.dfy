/**
 The branch dimension of the exercise: branch points on changed lines, counted by state, and the
 changed files none of whose branches is exercised.
 */
module BranchExercise {
  import opened Text
  import opened Sorting
  import opened Exercise
  import B = LcovBranch

  function PathOfPoint(): B.Point -> Str {
    (p: B.Point) => p.key.path
  }

  /** The ranges the map keeps for a path: those of the last looked-at file under it. */
  function RangesOf(files: seq<ChangedFile>, path: Str): seq<Range> {
    if files == [] then []
    else
      var last := files[|files| - 1];
      if Applies(last) && last.path == path then last.ranges else RangesOf(files[..|files| - 1], path)
  }

  function Covered(points: seq<B.Point>, ranges: seq<Range>): (r: seq<B.Point>)
    ensures forall p :: p in r <==> p in points && LineInRanges(p.key.line, ranges)
  {
    if points == [] then []
    else
      var last := points[|points| - 1];
      Covered(points[..|points| - 1], ranges) + if LineInRanges(last.key.line, ranges) then [last] else []
  }

  /** Branch records of the listed files, under the ranges of all files. */
  function BranchRecords(listed: seq<ChangedFile>, files: seq<ChangedFile>, points: seq<B.Point>): seq<B.Point> {
    if listed == [] then []
    else
      var last := listed[|listed| - 1];
      BranchRecords(listed[..|listed| - 1], files, points) + Covered(Select(points, PathOfPoint(), last.path), RangesOf(files, last.path))
  }

  function BranchOrder(): (B.Point, B.Point) -> bool {
    (a: B.Point, b: B.Point) => B.KeyLe(a.key, b.key)
  }

  function CountBranches(records: seq<B.Point>, state: B.State): nat {
    if records == [] then 0
    else CountBranches(records[..|records| - 1], state) + if records[|records| - 1].state == state then 1 else 0
  }

  lemma {:induction false} BranchCountsAddUp(records: seq<B.Point>)
    ensures CountBranches(records, B.Exercised) + CountBranches(records, B.NotExercised) + CountBranches(records,
        B.Unresolved) == |records|
  {
    if records != [] {
      BranchCountsAddUp(records[..|records| - 1]);
    }
  }

  /** A point is recorded exactly when its line is changed in a listed file. */
  lemma {:induction false} BranchRecordsExactly(listed: seq<ChangedFile>, files: seq<ChangedFile>, points: seq<B.Point>, p: B.Point)
    ensures p in BranchRecords(listed, files, points) <==>
      p in points && (exists f | f in listed :: f.path == p.key.path) && LineInRanges(p.key.line, RangesOf(files, p.key.path))
  {
    if listed != [] {
      var rest, last := listed[..|listed| - 1], listed[|listed| - 1];
      assert listed == rest + [last];
      BranchRecordsExactly(rest, files, points, p);
    }
  }

  /** Files with distinct paths: a path's ranges are those of the file that has it. */
  predicate UniquePaths(files: seq<ChangedFile>) {
    forall i, j | 0 <= i < j < |files| :: files[i].path != files[j].path
  }

  lemma {:induction false} RangesOfUnique(files: seq<ChangedFile>, f: ChangedFile)
    requires UniquePaths(files) && f in files
    ensures RangesOf(files, f.path) == if Applies(f) then f.ranges else []
  {
    var rest, last := files[..|files| - 1], files[|files| - 1];
    assert files == rest + [last];
    if f == last {
      NoRanges(rest, f.path);
    } else {
      assert f in rest;
      RangesOfUnique(rest, f);
    }
  }

  lemma {:induction false} NoRanges(files: seq<ChangedFile>, path: Str)
    requires forall f | f in files :: f.path != path
    ensures RangesOf(files, path) == []
  {
    if files != [] {
      NoRanges(files[..|files| - 1], path);
    }
  }

  /**
   From the observations to the branch exercise: with distinct paths, a branch is recorded exactly
   when it was observed on a changed line of a present text file; it is unresolved exactly when
   some observation was unknown, and exercised exactly when none was and they sum to more than zero.
   */
  lemma BranchExercisedExactly(files: seq<ChangedFile>, hits: seq<B.Hit>, points: seq<B.Point>, key: B.Key, state: B.State)
    requires UniquePaths(files) && B.ArePoints(hits, points)
    ensures (exists r | r in BranchRecords(files, files, points) :: r.key == key && r.state == state) <==>
      && Changed(files, key.path, key.line) && B.Observed(hits, key)
      && (state.Unresolved? <==> B.Unknown(hits, key))
      && (state.Exercised? <==> !B.Unknown(hits, key) && B.Sum(hits, key) > 0)
  {
    hide LineInRanges, Applies, B.Sum, B.Unknown, B.Observed, B.KeyLe, RangesOf;
    var p := B.Point(key, B.Taken(hits, key), B.BranchStateFor(B.Taken(hits, key)));
    forall r ensures r in BranchRecords(files, files, points) <==> r in points && OnChangedLine(files, r.key) {
      BranchRecordsExactly(files, files, points, r);
    }
    ChangedRanges(files, key);
  }

  predicate OnChangedLine(files: seq<ChangedFile>, key: B.Key) {
    (exists f | f in files :: f.path == key.path) && LineInRanges(key.line, RangesOf(files, key.path))
  }

  lemma ChangedRanges(files: seq<ChangedFile>, key: B.Key)
    requires UniquePaths(files)
    ensures OnChangedLine(files, key) <==> Changed(files, key.path, key.line)
  {
    hide RangesOf;
    if f :| f in files && f.path == key.path {
      RangesOfUnique(files, f);
      forall g | g in files && g.path == key.path ensures g == f {
      }
    }
  }

  // ---------------------------------------------------------------- the intersection

  datatype BranchResult = BranchResult(
    records: seq<B.Point>, exercised: nat, notExercised: nat, unresolved: nat, filesWithZero: nat)

  /** Changed paths of which no record is exercised, those without records included. */
  function ZeroPaths(files: seq<ChangedFile>, records: seq<B.Point>): set<Str> {
    set f | f in files && RangesOf(files, f.path) != [] && !(exists r | r in records :: r.key.path == f.path && r.state.Exercised?) :: f.path
  }

  /** The map from changed paths to ranges; later files win. */
  method BuildChangedRangeMap(files: seq<ChangedFile>) returns (ranges: map<Str, seq<Range>>)
    ensures forall path :: path in ranges <==> RangesOf(files, path) != []
    ensures forall path | path in ranges :: ranges[path] == RangesOf(files, path)
  {
    ranges := map[];
    for i := 0 to |files|
      invariant forall path :: path in ranges <==> RangesOf(files[..i], path) != []
      invariant forall path | path in ranges :: ranges[path] == RangesOf(files[..i], path)
    {
      assert files[..i + 1][..i] == files[..i];
      if Applies(files[i]) {
        ranges := ranges[files[i].path := files[i].ranges];
      }
    }
    assert files[..|files|] == files;
  }

  method CollectBranches(points: seq<B.Point>, ranges: seq<Range>) returns (records: seq<B.Point>)
    ensures records == Covered(points, ranges)
  {
    records := [];
    for i := 0 to |points|
      invariant records == Covered(points[..i], ranges)
    {
      assert points[..i + 1][..i] == points[..i];
      if LineInRanges(points[i].key.line, ranges) {
        records := records + [points[i]];
      }
    }
    assert points[..|points|] == points;
  }

  lemma {:induction false} NothingCovered(points: seq<B.Point>, ranges: seq<Range>)
    requires points == [] || ranges == []
    ensures Covered(points, ranges) == []
  {
    if points != [] {
      NothingCovered(points[..|points| - 1], ranges);
    }
  }

  lemma {:induction false} RangesHaveFile(files: seq<ChangedFile>, path: Str)
    requires RangesOf(files, path) != []
    ensures exists f | f in files :: f.path == path
  {
    var last := files[|files| - 1];
    assert last in files;
    if !(Applies(last) && last.path == path) {
      RangesHaveFile(files[..|files| - 1], path);
    }
  }

  method BuildBranchExercise(files: seq<ChangedFile>, points: seq<B.Point>) returns (r: BranchResult)
    ensures r.records == SortBy(BranchRecords(files, files, points), BranchOrder())
    ensures r.exercised == CountBranches(r.records, B.Exercised)
        && r.notExercised == CountBranches(r.records, B.NotExercised) && r.unresolved == CountBranches(r.records, B.Unresolved)
    ensures r.filesWithZero == |ZeroPaths(files, r.records)|
  {
    hide ZeroPaths, SortBy, RangesOf, Covered;
    var pointsByPath := GroupBy(points, PathOfPoint());
    var changedRanges := BuildChangedRangeMap(files);
    var records: seq<B.Point> := [];
    for i := 0 to |files|
      invariant records == BranchRecords(files[..i], files, points)
    {
      assert files[..i + 1][..i] == files[..i];
      var path := files[i].path;
      if path in changedRanges && path in pointsByPath {
        var more := CollectBranches(pointsByPath[path], changedRanges[path]);
        records := records + more;
      } else {
        NothingCovered(Select(points, PathOfPoint(), path), RangesOf(files, path));
      }
    }
    assert files[..|files|] == files;
    records := SortBy(records, BranchOrder());
    var zero := set path | path in changedRanges && !(exists q | q in records :: q.key.path == path && q.state.Exercised?);
    ZeroIsExact(files, records, changedRanges);
    return BranchResult(records, CountBranches(records, B.Exercised), CountBranches(records, B.NotExercised),
        CountBranches(records, B.Unresolved), |zero|);
  }

  lemma ZeroIsExact(files: seq<ChangedFile>, records: seq<B.Point>, ranges: map<Str, seq<Range>>)
    requires forall path :: path in ranges <==> RangesOf(files, path) != []
    ensures (set path | path in ranges && !(exists q | q in records :: q.key.path == path && q.state.Exercised?)) == ZeroPaths(files, records)
  {
    hide RangesOf;
    forall path | path in ranges ensures exists f | f in files :: f.path == path {
      RangesHaveFile(files, path);
    }
  }
}
