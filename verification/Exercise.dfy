/**
 The intersection of coverage points with changed lines. A line is exercised exactly when it lies
 in a changed range of a present text file and the sum of its data records is positive.
 */
module Exercise {
  import opened Wrappers
  import opened Text
  import opened Sorting
  import Lcov

  datatype ChangeKind = Added | Modified | Deleted | Renamed | TypeChanged | Untracked

  datatype LineSemantics = TextLines | BinaryOrNonLine | DeletedOnly

  datatype Range = Range(start: nat, end: nat)

  datatype ChangedFile = ChangedFile(path: Str, kind: ChangeKind, semantics: LineSemantics, ranges: seq<Range>)

  datatype State = Exercised | NotExercised | Unresolved

  datatype Record = Record(path: Str, line: nat, state: State, count: Option<nat>, task: Str)

  // ---------------------------------------------------------------- grouping

  /** The items under one key, in order. */
  function Select<T(!new)>(items: seq<T>, key: T -> Str, k: Str): (r: seq<T>)
    ensures forall x :: x in r <==> x in items && key(x) == k
  {
    if items == [] then []
    else Select(items[..|items| - 1], key, k) + if key(items[|items| - 1]) == k then [items[|items| - 1]] else []
  }

  lemma NothingSelected<T(!new)>(key: T -> Str)
    ensures forall k :: Select([], key, k) == []
  {
  }

  lemma SelectSnoc<T(!new)>(items: seq<T>, key: T -> Str, k: Str, i: nat)
    requires i < |items|
    ensures Select(items[..i + 1], key, k) == Select(items[..i], key, k) + if key(items[i]) == k then [items[i]] else []
  {
    assert items[..i + 1][..i] == items[..i];
  }

  /** Groups items by a key in a map of lists. */
  method GroupBy<T(!new)>(items: seq<T>, key: T -> Str) returns (groups: map<Str, seq<T>>)
    ensures forall k :: k in groups <==> Select(items, key, k) != []
    ensures forall k | k in groups :: groups[k] == Select(items, key, k)
  {
    hide Select;
    groups := map[];
    NothingSelected(key);
    for i := 0 to |items|
      invariant forall k :: k in groups <==> Select(items[..i], key, k) != []
      invariant forall k | k in groups :: groups[k] == Select(items[..i], key, k)
    {
      forall other ensures Select(items[..i + 1], key, other) ==
        Select(items[..i], key, other) + if key(items[i]) == other then [items[i]] else []
      {
        SelectSnoc(items, key, other, i);
      }
      var k := key(items[i]);
      var group := if k in groups then groups[k] else [];
      groups := groups[k := group + [items[i]]];
    }
    assert items[..|items|] == items;
  }

  // ---------------------------------------------------------------- changed lines

  predicate LineInRanges(line: nat, ranges: seq<Range>) {
    exists r | r in ranges :: r.start <= line <= r.end
  }

  /** Files whose changed lines are looked at. */
  predicate Applies(f: ChangedFile) {
    !f.kind.Deleted? && f.semantics.TextLines? && f.ranges != []
  }

  function UnresolvedLines(path: Str, start: nat, end: nat, task: Str): (r: seq<Record>)
    ensures forall x :: x in r <==> start <= x.line <= end && x == Record(path, x.line, Unresolved, None, task)
    decreases end + 1 - start
  {
    if start > end then [] else [Record(path, start, Unresolved, None, task)] + UnresolvedLines(path, start + 1, end, task)
  }

  function UnresolvedRecords(path: Str, ranges: seq<Range>, task: Str): (r: seq<Record>)
    ensures forall x :: x in r <==> LineInRanges(x.line, ranges) && x == Record(path, x.line, Unresolved, None, task)
  {
    if ranges == [] then []
    else UnresolvedLines(path, ranges[0].start, ranges[0].end, task) + UnresolvedRecords(path, ranges[1..], task)
  }

  function RecordOf(p: Lcov.Point, task: Str): Record {
    Record(p.path, p.line, if p.count > 0 then Exercised else NotExercised, Some(p.count), task)
  }

  function CoveredRecords(points: seq<Lcov.Point>, ranges: seq<Range>, task: Str): (r: seq<Record>)
    ensures forall x :: x in r <==> exists p | p in points :: LineInRanges(p.line, ranges) && x == RecordOf(p, task)
  {
    if points == [] then []
    else
      var last := points[|points| - 1];
      CoveredRecords(points[..|points| - 1], ranges, task) + if LineInRanges(last.line, ranges) then [RecordOf(last, task)] else []
  }

  function PathOf(): Lcov.Point -> Str {
    (p: Lcov.Point) => p.path
  }

  function FileRecords(f: ChangedFile, points: seq<Lcov.Point>, task: Str, production: ChangedFile -> bool): seq<Record> {
    if !Applies(f) then []
    else
      var own := Select(points, PathOf(), f.path);
      if own == [] then if production(f) then UnresolvedRecords(f.path, f.ranges, task) else []
      else CoveredRecords(own, f.ranges, task)
  }

  function AllRecords(files: seq<ChangedFile>, points: seq<Lcov.Point>, task: Str, production: ChangedFile -> bool): seq<Record> {
    if files == [] then []
    else AllRecords(files[..|files| - 1], points, task, production) + FileRecords(files[|files| - 1], points, task, production)
  }

  predicate RecordLe(a: Record, b: Record) {
    if a.path != b.path then LexLe(a.path, b.path) else a.line <= b.line
  }

  function RecordOrder(): (Record, Record) -> bool {
    (a, b) => RecordLe(a, b)
  }

  lemma RecordOrderIsTotal()
    ensures TotalPreorder(RecordOrder())
  {
    hide LexLe;
    forall a: Str, b: Str ensures (LexLe(a, b) || LexLe(b, a)) && (LexLe(a, b) && LexLe(b, a) ==> a == b) {
      LexTotal(a, b);
    }
    forall a: Str, b: Str, c: Str | LexLe(a, b) && LexLe(b, c) ensures LexLe(a, c) {
      LexTransitive(a, b, c);
    }
  }

  /** A record for a changed line of a looked-at file: from its point, or unresolved when the source has none. */
  ghost predicate IsRecord(files: seq<ChangedFile>, points: seq<Lcov.Point>, task: Str, production: ChangedFile -> bool, r: Record) {
    exists f | f in files ::
      && Applies(f) && f.path == r.path && LineInRanges(r.line, f.ranges)
      && (if exists p | p in points :: p.path == f.path
          then exists p | p in points :: p.path == r.path && r == RecordOf(p, task)
          else production(f) && r == Record(f.path, r.line, Unresolved, None, task))
  }

  lemma FileRecordsExactly(f: ChangedFile, points: seq<Lcov.Point>, task: Str, production: ChangedFile -> bool, r: Record)
    ensures r in FileRecords(f, points, task, production) <==> IsRecord([f], points, task, production, r)
  {
    var own := Select(points, PathOf(), f.path);
    assert (exists p | p in points :: p.path == f.path) <==> own != [] by {
      if own != [] {
        assert own[0] in points;
      }
    }
    if r in FileRecords(f, points, task, production) {
      assert f in [f];
    }
  }

  lemma IsRecordSnoc(files: seq<ChangedFile>, f: ChangedFile, points: seq<Lcov.Point>, task: Str,
      production: ChangedFile -> bool, r: Record)
    ensures IsRecord(files + [f], points, task, production, r) <==>
      IsRecord(files, points, task, production, r) || IsRecord([f], points, task, production, r)
    ensures !IsRecord([], points, task, production, r)
  {
    hide Applies, LineInRanges, RecordOf;
    assert forall g :: g in files + [f] <==> g in files || g in [f];
  }

  lemma {:induction false} AllRecordsExactly(files: seq<ChangedFile>, points: seq<Lcov.Point>, task: Str,
      production: ChangedFile -> bool, r: Record)
    ensures r in AllRecords(files, points, task, production) <==> IsRecord(files, points, task, production, r)
  {
    hide IsRecord, FileRecords;
    if files == [] {
      IsRecordSnoc([], ChangedFile([], Added, TextLines, []), points, task, production, r);
    } else {
      var rest, last := files[..|files| - 1], files[|files| - 1];
      assert files == rest + [last];
      IsRecordSnoc(rest, last, points, task, production, r);
      AllRecordsExactly(rest, points, task, production, r);
      FileRecordsExactly(last, points, task, production, r);
    }
  }

  // ---------------------------------------------------------------- counting

  function CountState(records: seq<Record>, state: State): nat {
    if records == [] then 0
    else CountState(records[..|records| - 1], state) + if records[|records| - 1].state == state then 1 else 0
  }

  /** Every record is counted under exactly one state. */
  lemma {:induction false} CountsAddUp(records: seq<Record>)
    ensures CountState(records, Exercised) + CountState(records, NotExercised) + CountState(records, Unresolved) == |records|
  {
    if records != [] {
      CountsAddUp(records[..|records| - 1]);
    }
  }

  predicate HasExercised(records: seq<Record>) {
    exists r | r in records :: r.state.Exercised?
  }

  function RecordPath(): Record -> Str {
    (r: Record) => r.path
  }

  /** Paths of records none of which is exercised. */
  function UnexercisedPaths(records: seq<Record>): set<Str> {
    set r | r in records && !(exists q | q in records :: q.path == r.path && q.state.Exercised?) :: r.path
  }

  // ---------------------------------------------------------------- the intersection

  datatype LineExercise = LineExercise(
    records: seq<Record>, exercised: nat, notExercised: nat, unresolved: nat, filesWithZero: nat)

  method CollectLines(records: seq<Record>, path: Str, range: Range, task: Str) returns (more: seq<Record>)
    ensures more == records + UnresolvedLines(path, range.start, range.end, task)
  {
    more := records;
    var line := range.start;
    while line <= range.end
      invariant range.start <= line
      invariant more + UnresolvedLines(path, line, range.end, task) == records + UnresolvedLines(path, range.start, range.end, task)
      decreases range.end + 1 - line
    {
      more := more + [Record(path, line, Unresolved, None, task)];
      line := line + 1;
    }
  }

  /** The loops of unresolvedRecords over ranges and their lines. */
  method CollectUnresolved(path: Str, ranges: seq<Range>, task: Str) returns (records: seq<Record>)
    ensures records == UnresolvedRecords(path, ranges, task)
  {
    hide UnresolvedLines;
    records := [];
    assert ranges[0..] == ranges;
    for i := 0 to |ranges|
      invariant records + UnresolvedRecords(path, ranges[i..], task) == UnresolvedRecords(path, ranges, task)
    {
      assert ranges[i..][0] == ranges[i] && ranges[i..][1..] == ranges[i + 1..];
      records := CollectLines(records, path, ranges[i], task);
    }
  }

  method CollectCovered(points: seq<Lcov.Point>, ranges: seq<Range>, task: Str) returns (records: seq<Record>)
    ensures records == CoveredRecords(points, ranges, task)
  {
    records := [];
    for i := 0 to |points|
      invariant records == CoveredRecords(points[..i], ranges, task)
    {
      assert points[..i + 1][..i] == points[..i];
      var point := points[i];
      if LineInRanges(point.line, ranges) {
        records := records + [RecordOf(point, task)];
      }
    }
    assert points[..|points|] == points;
  }

  lemma GroupedHas<T(!new)>(items: seq<T>, key: T -> Str, groups: map<Str, seq<T>>, x: T)
    requires forall k :: k in groups <==> Select(items, key, k) != []
    requires forall k | k in groups :: groups[k] == Select(items, key, k)
    requires x in items
    ensures key(x) in groups && x in groups[key(x)]
  {
  }

  /** The paths whose group has no exercised record. */
  lemma ZeroGroups(records: seq<Record>, groups: map<Str, seq<Record>>)
    requires forall k :: k in groups <==> Select(records, RecordPath(), k) != []
    requires forall k | k in groups :: groups[k] == Select(records, RecordPath(), k)
    ensures (set k | k in groups && !HasExercised(groups[k])) == UnexercisedPaths(records)
  {
    forall k ensures k in groups && !HasExercised(groups[k]) <==> k in UnexercisedPaths(records) {
      if k in groups {
        assert groups[k][0] in groups[k];
      }
      if k in UnexercisedPaths(records) {
        var r :| r in records && r.path == k;
        GroupedHas(records, RecordPath(), groups, r);
      }
    }
  }

  /**
   The records are those of the changed lines, by path and line; the three counts are exact, and
   a file is counted as unexercised when it has records and none of them is exercised.
   */
  method BuildChangedLineExercise(files: seq<ChangedFile>, points: seq<Lcov.Point>, task: Str, production: ChangedFile -> bool)
    returns (r: LineExercise)
    ensures r.records == SortBy(AllRecords(files, points, task, production), RecordOrder())
    ensures r.exercised == CountState(r.records, Exercised) && r.notExercised == CountState(r.records, NotExercised)
        && r.unresolved == CountState(r.records, Unresolved)
    ensures r.filesWithZero == |UnexercisedPaths(r.records)|
  {
    hide Applies, UnexercisedPaths, SortBy, Select, CoveredRecords, UnresolvedRecords, CountState, HasExercised;
    var pointsByPath := GroupBy(points, PathOf());
    var records: seq<Record> := [];
    for i := 0 to |files|
      invariant records == AllRecords(files[..i], points, task, production)
    {
      assert files[..i + 1][..i] == files[..i];
      var file := files[i];
      if Applies(file) {
        if file.path !in pointsByPath {
          if production(file) {
            var more := CollectUnresolved(file.path, file.ranges, task);
            records := records + more;
          }
        } else {
          var more := CollectCovered(pointsByPath[file.path], file.ranges, task);
          records := records + more;
        }
      }
    }
    assert files[..|files|] == files;
    records := SortBy(records, RecordOrder());
    var recordsByPath := GroupBy(records, RecordPath());
    ZeroGroups(records, recordsByPath);
    var zero := set k | k in recordsByPath && !HasExercised(recordsByPath[k]);
    return LineExercise(records, CountState(records, Exercised), CountState(records, NotExercised), CountState(records,
        Unresolved), |zero|);
  }

  // ---------------------------------------------------------------- end to end

  ghost predicate HasRecord(records: seq<Record>, path: Str, line: nat, state: State) {
    exists r | r in records :: r.path == path && r.line == line && r.state == state
  }

  ghost predicate Changed(files: seq<ChangedFile>, path: Str, line: nat) {
    exists f | f in files :: Applies(f) && f.path == path && LineInRanges(line, f.ranges)
  }

  /** A changed line is one in a range of a file of text lines that was not deleted. */
  lemma ChangedExactly(files: seq<ChangedFile>, path: Str, line: nat)
    ensures Changed(files, path, line) <==>
      exists f, r | f in files && r in f.ranges ::
        f.path == path && f.kind != Deleted && f.semantics == TextLines && r.start <= line <= r.end
  {
  }

  /** Records are ordered by path, under one path by line. */
  lemma OrderExactly(records: seq<Record>, i: nat, j: nat)
    requires SortedBy(records, RecordOrder()) && i < j < |records|
    ensures LexLe(records[i].path, records[j].path) && (records[i].path == records[j].path ==> records[i].line <= records[j].line)
  {
    hide LexLe;
    var le := RecordOrder();
    assert le(records[i], records[j]);
    LexTotal(records[i].path, records[j].path);
  }

  /**
   From the data records to the exercise: a line is exercised exactly when it is a changed line of
   a present text file and its data records sum to more than zero, and not exercised exactly when
   it is a changed line with data records that sum to zero.
   */
  lemma ExercisedExactly(files: seq<ChangedFile>, hits: seq<Lcov.Hit>, points: seq<Lcov.Point>, task: Str,
      production: ChangedFile -> bool, path: Str, line: nat)
    requires Lcov.ArePoints(hits, points)
    ensures var records := SortBy(AllRecords(files, points, task, production), RecordOrder());
      && (HasRecord(records, path, line, Exercised) <==> Changed(files, path, line) && Lcov.Sum(hits, path, line) > 0)
      && (HasRecord(records, path, line, NotExercised) <==>
            Changed(files, path, line) && Lcov.Observed(hits, path, line) && Lcov.Sum(hits, path, line) == 0)
      && SortedBy(records, RecordOrder())
  {
    hide Applies, LineInRanges, Lcov.Sum, Lcov.Observed, Lcov.StrictlyOrdered, SortBy, IsRecord, AllRecords, SortedBy, Changed;
    var all := AllRecords(files, points, task, production);
    var records := SortBy(all, RecordOrder());
    SortPermutes(all, RecordOrder());
    RecordOrderIsTotal();
    SortSorts(all, RecordOrder());
    forall r ensures r in records <==> IsRecord(files, points, task, production, r) {
      AllRecordsExactly(files, points, task, production, r);
      assert r in multiset(records) <==> r in multiset(all);
    }
    if !Lcov.Observed(hits, path, line) {
      Lcov.UnobservedSum(hits, path, line);
    }
    forall r | r in records && r.path == path && r.line == line && !r.state.Unresolved?
      ensures Changed(files, path, line) && Lcov.Observed(hits, path, line)
      ensures r.state == if Lcov.Sum(hits, path, line) > 0 then Exercised else NotExercised
    {
      ResolvedRecord(files, hits, points, task, production, r);
    }
    if Changed(files, path, line) && Lcov.Observed(hits, path, line) {
      var p := Lcov.Point(path, line, Lcov.Sum(hits, path, line));
      PointRecord(files, points, task, production, p);
      assert RecordOf(p, task) in records;
    }
  }

  /** The count of a record is the sum of its line's data records, and its task the given one. */
  lemma RecordedCount(files: seq<ChangedFile>, hits: seq<Lcov.Hit>, points: seq<Lcov.Point>, task: Str,
      production: ChangedFile -> bool, r: Record)
    requires Lcov.ArePoints(hits, points) && r in AllRecords(files, points, task, production)
    ensures r.task == task && r.count == if r.state == Unresolved then None else Some(Lcov.Sum(hits, r.path, r.line))
  {
    hide Applies, LineInRanges, Lcov.Sum, Lcov.Observed, Lcov.StrictlyOrdered, AllRecords;
    AllRecordsExactly(files, points, task, production, r);
  }

  lemma ResolvedRecord(files: seq<ChangedFile>, hits: seq<Lcov.Hit>, points: seq<Lcov.Point>, task: Str,
      production: ChangedFile -> bool, r: Record)
    requires Lcov.ArePoints(hits, points) && IsRecord(files, points, task, production, r) && !r.state.Unresolved?
    ensures Changed(files, r.path, r.line) && Lcov.Observed(hits, r.path, r.line)
    ensures r.state == if Lcov.Sum(hits, r.path, r.line) > 0 then Exercised else NotExercised
  {
    hide Applies, LineInRanges, Lcov.Sum, Lcov.Observed, Lcov.StrictlyOrdered;
  }

  lemma PointRecord(files: seq<ChangedFile>, points: seq<Lcov.Point>, task: Str, production: ChangedFile -> bool, p: Lcov.Point)
    requires p in points && Changed(files, p.path, p.line)
    ensures IsRecord(files, points, task, production, RecordOf(p, task))
  {
    hide Applies, LineInRanges;
    var f :| f in files && Applies(f) && f.path == p.path && LineInRanges(p.line, f.ranges);
  }

  /** A changed line is unresolved exactly when it is in production source without any data record. */
  lemma UnresolvedExactly(files: seq<ChangedFile>, hits: seq<Lcov.Hit>, points: seq<Lcov.Point>, task: Str,
      production: ChangedFile -> bool, path: Str, line: nat)
    requires Lcov.ArePoints(hits, points)
    ensures HasRecord(SortBy(AllRecords(files, points, task, production), RecordOrder()), path, line, Unresolved) <==>
      && !(exists h | h in hits :: h.path == path)
      && exists f | f in files :: Applies(f) && production(f) && f.path == path && LineInRanges(line, f.ranges)
  {
    hide Applies, LineInRanges, Lcov.Sum, Lcov.StrictlyOrdered, SortBy, AllRecords;
    var all := AllRecords(files, points, task, production);
    var records := SortBy(all, RecordOrder());
    var missing := Record(path, line, Unresolved, None, task);
    SortPermutes(all, RecordOrder());
    forall r ensures r in records <==> IsRecord(files, points, task, production, r) {
      AllRecordsExactly(files, points, task, production, r);
      assert r in multiset(records) <==> r in multiset(all);
    }
    assert (exists p | p in points :: p.path == path) <==> exists h | h in hits :: h.path == path by {
      PathsObserved(hits, points, path);
    }
    assert HasRecord(records, path, line, Unresolved) <==> missing in records;
  }

  lemma PathsObserved(hits: seq<Lcov.Hit>, points: seq<Lcov.Point>, path: Str)
    requires Lcov.ArePoints(hits, points)
    ensures (exists p | p in points :: p.path == path) <==> exists h | h in hits :: h.path == path
  {
    if h :| h in hits && h.path == path {
      assert Lcov.Point(path, h.line, Lcov.Sum(hits, path, h.line)) in points;
    }
  }
}
