/**
 Stability verdicts over histories of one candidate on one source tree: the bookkeeping per
 environment decides the same verdict as a declarative reading of the history.
 */
module Stability {
  import opened Wrappers
  import opened Text
  import opened Sorting

  datatype Outcome = Pass | Fail | Unavailable

  datatype Duration = Finite(ms: real) | NotFinite

  datatype Observation = Observation(
    runIndex: int, sourceId: Str, candidateId: Str, testId: Str, environmentId: Str,
    outcome: Outcome, failureClass: Option<Str>, duration: Option<Duration>)

  datatype Verdict =
    | DeterministicPass | DeterministicFail | Flaky | EnvironmentSensitive
    | NoValidRun | NotRun | InsufficientEvidence

  datatype Report = Report(
    verdict: Verdict, sourceId: Option<Str>, candidateId: Option<Str>, testId: Option<Str>,
    runs: nat, passes: nat, failures: nat, unavailable: nat,
    environments: seq<Str>, requiredRuns: int, maxRuns: int)

  // ---------------------------------------------------------------- what is accepted

  predicate BoundsOk(requiredRuns: int, maxRuns: int) {
    requiredRuns >= 2 && maxRuns >= requiredRuns
  }

  predicate ShapeOk(o: Observation) {
    && o.runIndex >= 0 && o.sourceId != [] && o.candidateId != [] && o.testId != [] && o.environmentId != []
    && (if o.outcome.Fail? then o.failureClass != Some([]) else o.failureClass.None?)
    && (if o.outcome.Unavailable? then o.duration.None?
        else o.duration.Some? ==> o.duration.value.Finite? && o.duration.value.ms >= 0.0)
  }

  predicate SameSubject(a: Observation, b: Observation) {
    a.sourceId == b.sourceId && a.candidateId == b.candidateId && a.testId == b.testId
  }

  /** Well-shaped observations of one subject, numbered from zero without gaps. */
  predicate HistoryOk(observations: seq<Observation>) {
    forall i | 0 <= i < |observations| ::
      ShapeOk(observations[i]) && observations[i].runIndex == i && SameSubject(observations[i], observations[0])
  }

  predicate Accepted(observations: seq<Observation>, requiredRuns: int, maxRuns: int) {
    BoundsOk(requiredRuns, maxRuns) && (observations == [] || (|observations| <= maxRuns && HistoryOk(observations)))
  }

  /** Accepted, field by field: what each field needs, wherever it stands. */
  lemma AcceptedExactly(history: seq<Observation>, requiredRuns: int, maxRuns: int)
    ensures Accepted(history, requiredRuns, maxRuns) <==>
      && 2 <= requiredRuns <= maxRuns && |history| <= maxRuns
      && (forall i | 0 <= i < |history| :: history[i].runIndex == i)
      && (forall a, b | a in history && b in history ::
            a.sourceId == b.sourceId && a.candidateId == b.candidateId && a.testId == b.testId)
      && (forall o | o in history :: [] !in {o.sourceId, o.candidateId, o.testId, o.environmentId})
      && (forall o | o in history && o.failureClass.Some? :: o.outcome == Fail && o.failureClass.value != [])
      && (forall o | o in history && o.duration.Some? :: o.outcome != Unavailable && IsDuration(o.duration.value))
  {
    if Accepted(history, requiredRuns, maxRuns) {
      forall o | o in history ensures ShapeOk(o) && SameSubject(o, history[0]) {
        var i :| 0 <= i < |history| && history[i] == o;
      }
    }
  }

  ghost predicate IsDuration(d: Duration) {
    exists ms :: d == Finite(ms) && 0.0 <= ms
  }

  // ---------------------------------------------------------------- the verdict, declaratively

  function Count(observations: seq<Observation>, outcome: Outcome): nat {
    if observations == [] then 0
    else Count(observations[..|observations| - 1], outcome) + if observations[|observations| - 1].outcome == outcome then 1 else 0
  }

  predicate Mixed(a: Observation, b: Observation) {
    a.outcome.Pass? && b.outcome.Fail? && a.environmentId == b.environmentId
  }

  predicate Differ(a: Observation, b: Observation) {
    a.outcome.Fail? && b.outcome.Fail? && a.failureClass != b.failureClass
  }

  /** A pass and a failure in one environment, or two failures of different classes anywhere. */
  predicate Contradicts(observations: seq<Observation>) {
    exists a, b | a in observations && b in observations :: Mixed(a, b) || Differ(a, b)
  }

  function VerdictOf(observations: seq<Observation>, requiredRuns: int): Verdict {
    var passes, failures := Count(observations, Pass), Count(observations, Fail);
    if observations == [] then NotRun
    else if passes + failures == 0 then NoValidRun
    else if passes + failures < 2 then InsufficientEvidence
    else if Contradicts(observations) then Flaky
    else if passes + failures < requiredRuns then InsufficientEvidence
    else if passes > 0 && failures > 0 then EnvironmentSensitive
    else if failures > 0 then DeterministicFail
    else DeterministicPass
  }

  lemma CountSnoc(s: seq<Observation>, o: Observation, outcome: Outcome)
    ensures Count(s + [o], outcome) == Count(s, outcome) + if o.outcome == outcome then 1 else 0
  {
    assert (s + [o])[..|s|] == s;
  }

  lemma {:induction false} CountConcat(a: seq<Observation>, b: seq<Observation>, outcome: Outcome)
    ensures Count(a + b, outcome) == Count(a, outcome) + Count(b, outcome)
  {
    if b == [] {
      assert a + b == a;
    } else {
      assert (a + b)[..|a + b| - 1] == a + b[..|b| - 1];
      CountConcat(a, b[..|b| - 1], outcome);
    }
  }

  lemma {:induction false} CountPositive(s: seq<Observation>, outcome: Outcome)
    ensures Count(s, outcome) > 0 <==> exists o | o in s :: o.outcome == outcome
  {
    if s != [] {
      var n := |s| - 1;
      assert s == s[..n] + [s[n]];
      CountPositive(s[..n], outcome);
    }
  }

  lemma {:induction false} CountsTotal(s: seq<Observation>)
    ensures Count(s, Pass) + Count(s, Fail) + Count(s, Unavailable) == |s|
  {
    if s != [] {
      CountsTotal(s[..|s| - 1]);
    }
  }

  /** Once flaky, every longer history is flaky. */
  lemma FlakyIsAbsorbing(history: seq<Observation>, more: seq<Observation>, requiredRuns: int)
    requires VerdictOf(history, requiredRuns) == Flaky
    ensures VerdictOf(history + more, requiredRuns) == Flaky
  {
    CountConcat(history, more, Pass);
    CountConcat(history, more, Fail);
    var a, b :| a in history && b in history && (Mixed(a, b) || Differ(a, b));
    assert a in history + more && b in history + more;
  }

  /** A failure rules out a deterministic pass for good, and a pass a deterministic failure. */
  lemma OutcomesAreRemembered(history: seq<Observation>, more: seq<Observation>, requiredRuns: int)
    ensures (exists o | o in history :: o.outcome.Fail?) ==> VerdictOf(history + more, requiredRuns) != DeterministicPass
    ensures (exists o | o in history :: o.outcome.Pass?) ==> VerdictOf(history + more, requiredRuns) != DeterministicFail
  {
    CountPositive(history, Pass);
    CountPositive(history, Fail);
    CountConcat(history, more, Pass);
    CountConcat(history, more, Fail);
  }

  /** A deterministic pass is: no failure, and enough passes. */
  lemma DeterministicPassExactly(history: seq<Observation>, requiredRuns: int)
    requires requiredRuns >= 2
    ensures VerdictOf(history, requiredRuns) == DeterministicPass <==> Count(history, Fail) == 0 && Count(history, Pass) >= requiredRuns
  {
    CountPositive(history, Fail);
    if a, b :| a in history && b in history && (Mixed(a, b) || Differ(a, b)) {
      assert b in history;
    }
  }

  /** A deterministic failure is: no pass, enough failures, and one failure class. */
  lemma DeterministicFailExactly(history: seq<Observation>, requiredRuns: int)
    requires requiredRuns >= 2
    ensures VerdictOf(history, requiredRuns) == DeterministicFail <==>
      && Count(history, Pass) == 0 && Count(history, Fail) >= requiredRuns
      && forall a, b | a in history && b in history && a.outcome.Fail? && b.outcome.Fail? :: a.failureClass == b.failureClass
  {
    CountPositive(history, Pass);
    assert Count(history, Pass) == 0 ==>
      (Contradicts(history) <==> exists a, b | a in history && b in history :: Differ(a, b));
  }

  lemma {:induction false} TwoCount(s: seq<Observation>, a: Observation, b: Observation, outcome: Outcome)
    requires a in s && b in s && a != b && a.outcome == b.outcome == outcome
    ensures Count(s, outcome) >= 2
  {
    var rest, last := s[..|s| - 1], s[|s| - 1];
    assert s == rest + [last];
    if last == a || last == b {
      var other := if last == a then b else a;
      assert other in rest;
      CountPositive(rest, outcome);
    } else {
      TwoCount(rest, a, b, outcome);
    }
  }

  lemma ContradictionsAreTwo(history: seq<Observation>)
    requires Contradicts(history)
    ensures Count(history, Pass) + Count(history, Fail) >= 2
  {
    var a, b :| a in history && b in history && (Mixed(a, b) || Differ(a, b));
    CountPositive(history, Pass);
    CountPositive(history, Fail);
    if Differ(a, b) {
      TwoCount(history, a, b, Fail);
    }
  }

  /** Flaky is: a pass and a failure in one environment, or failures of two classes; however few the runs. */
  lemma FlakyExactly(history: seq<Observation>, requiredRuns: int)
    ensures VerdictOf(history, requiredRuns) == Flaky <==>
      exists a, b | a in history && b in history ::
        b.outcome == Fail && if a.outcome == Pass then a.environmentId == b.environmentId
          else a.outcome == Fail && a.failureClass != b.failureClass
  {
    assert forall a, b :: Mixed(a, b) || Differ(a, b) <==> (b.outcome == Fail &&
      if a.outcome == Pass then a.environmentId == b.environmentId else a.outcome == Fail && a.failureClass != b.failureClass);
    if Contradicts(history) {
      ContradictionsAreTwo(history);
    }
  }

  /** The verdicts without a clear outcome, from the counts alone where nothing is contradictory. */
  lemma OpenVerdictsExactly(history: seq<Observation>, requiredRuns: int)
    requires requiredRuns >= 2
    ensures var verdict := VerdictOf(history, requiredRuns);
      var passes, failures := Count(history, Pass), Count(history, Fail);
      && (verdict == NotRun <==> history == [])
      && (verdict == NoValidRun <==> history != [] && forall o | o in history :: o.outcome == Unavailable)
      && (verdict == InsufficientEvidence <==> verdict != Flaky && 0 < passes + failures < requiredRuns)
      && (verdict == EnvironmentSensitive <==>
            verdict != Flaky && passes > 0 && failures > 0 && passes + failures >= requiredRuns)
  {
    CountPositive(history, Pass);
    CountPositive(history, Fail);
    if Contradicts(history) {
      ContradictionsAreTwo(history);
    }
    assert forall o | o in history :: o.outcome in {Pass, Fail, Unavailable};
  }

  /** The observation without its number. */
  function Unnumbered(o: Observation): Observation {
    o.(runIndex := 0)
  }

  function UnnumberedAll(s: seq<Observation>): (r: seq<Observation>)
    ensures |r| == |s| && forall i | 0 <= i < |s| :: r[i] == Unnumbered(s[i])
  {
    seq(|s|, i requires 0 <= i < |s| => Unnumbered(s[i]))
  }

  lemma {:induction false} CountUnnumbered(s: seq<Observation>, outcome: Outcome)
    ensures Count(UnnumberedAll(s), outcome) == Count(s, outcome)
  {
    if s != [] {
      assert UnnumberedAll(s)[..|s| - 1] == UnnumberedAll(s[..|s| - 1]);
      CountUnnumbered(s[..|s| - 1], outcome);
    }
  }

  lemma {:induction false} CountRemoves(s: seq<Observation>, i: nat, outcome: Outcome)
    requires i < |s|
    ensures Count(s, outcome) == Count(Without(s, i), outcome) + if s[i].outcome == outcome then 1 else 0
  {
    var n := |s| - 1;
    if i == n {
      assert Without(s, i) == s[..n];
    } else {
      CountRemoves(s[..n], i, outcome);
      assert Without(s[..n], i) == Without(s, i)[..n - 1];
    }
  }

  lemma {:induction false} CountIgnoresOrder(a: seq<Observation>, b: seq<Observation>, outcome: Outcome)
    requires multiset(a) == multiset(b)
    ensures Count(a, outcome) == Count(b, outcome)
    decreases |a|
  {
    SameLength(a, b);
    if a != [] {
      var i := FindLast(a, b);
      CountRemoves(b, i, outcome);
      CountIgnoresOrder(a[..|a| - 1], Without(b, i), outcome);
    }
  }

  lemma ContradictsUnnumbered(s: seq<Observation>)
    ensures Contradicts(UnnumberedAll(s)) <==> Contradicts(s)
  {
    var u := UnnumberedAll(s);
    if a, b :| a in s && b in s && (Mixed(a, b) || Differ(a, b)) {
      var i, j :| 0 <= i < |s| && 0 <= j < |s| && s[i] == a && s[j] == b;
      assert u[i] in u && u[j] in u && (Mixed(u[i], u[j]) || Differ(u[i], u[j]));
    }
    if a, b :| a in u && b in u && (Mixed(a, b) || Differ(a, b)) {
      var i, j :| 0 <= i < |s| && 0 <= j < |s| && u[i] == a && u[j] == b;
      assert s[i] in s && s[j] in s && (Mixed(s[i], s[j]) || Differ(s[i], s[j]));
    }
  }

  /** The verdict and the counts do not depend on the order of the observations. */
  lemma VerdictIgnoresOrder(a: seq<Observation>, b: seq<Observation>, requiredRuns: int)
    requires multiset(UnnumberedAll(a)) == multiset(UnnumberedAll(b))
    ensures VerdictOf(a, requiredRuns) == VerdictOf(b, requiredRuns)
    ensures forall outcome :: Count(a, outcome) == Count(b, outcome)
    ensures forall e :: e in EnvironmentsOf(a) <==> e in EnvironmentsOf(b)
  {
    hide Mixed, Differ, Contradicts;
    var u, v := UnnumberedAll(a), UnnumberedAll(b);
    SameLength(u, v);
    forall outcome ensures Count(a, outcome) == Count(b, outcome) {
      CountUnnumbered(a, outcome);
      CountUnnumbered(b, outcome);
      CountIgnoresOrder(u, v, outcome);
    }
    forall o ensures o in u <==> o in v {
      assert o in multiset(u) <==> o in multiset(v);
    }
    ContradictsUnnumbered(a);
    ContradictsUnnumbered(b);
    SameMembers(u, v);
    EnvironmentsUnnumbered(a);
    EnvironmentsUnnumbered(b);
  }

  lemma SameMembers(u: seq<Observation>, v: seq<Observation>)
    requires forall o :: o in u <==> o in v
    ensures Contradicts(u) <==> Contradicts(v)
    ensures EnvironmentsOf(u) == EnvironmentsOf(v)
  {
  }

  function EnvironmentsOf(s: seq<Observation>): set<Str> {
    set o | o in s :: o.environmentId
  }

  lemma EnvironmentsUnnumbered(s: seq<Observation>)
    ensures EnvironmentsOf(UnnumberedAll(s)) == EnvironmentsOf(s)
  {
    var u := UnnumberedAll(s);
    forall i | 0 <= i < |s| ensures s[i].environmentId in EnvironmentsOf(u) && u[i].environmentId in EnvironmentsOf(s) {
      assert u[i] in u && s[i] in s;
    }
  }

  // ---------------------------------------------------------------- the evaluation

  datatype Group = Group(passes: nat, failures: nat, failureClasses: seq<Option<Str>>)

  type Groups = map<Str, Group>

  predicate SawPass(s: seq<Observation>, e: Str) {
    exists o | o in s :: o.environmentId == e && o.outcome.Pass?
  }

  predicate SawFail(s: seq<Observation>, e: Str) {
    exists o | o in s :: o.environmentId == e && o.outcome.Fail?
  }

  predicate SawClass(s: seq<Observation>, e: Str, c: Option<Str>) {
    exists o | o in s :: o.environmentId == e && o.outcome.Fail? && o.failureClass == c
  }

  lemma SawSnoc(s: seq<Observation>, o: Observation, e: Str, c: Option<Str>)
    ensures SawPass(s + [o], e) <==> SawPass(s, e) || (o.environmentId == e && o.outcome.Pass?)
    ensures SawFail(s + [o], e) <==> SawFail(s, e) || (o.environmentId == e && o.outcome.Fail?)
    ensures SawClass(s + [o], e, c) <==> SawClass(s, e, c) || (o.environmentId == e && o.outcome.Fail? && o.failureClass == c)
    ensures SawClass(s, e, c) ==> SawFail(s, e)
  {
    assert forall p :: p in s + [o] <==> p in s || p == o;
  }

  /** The groups hold what was seen in each environment. */
  ghost predicate Grouped(groups: Groups, s: seq<Observation>) {
    && (forall e :: e in groups <==> SawPass(s, e) || SawFail(s, e))
    && (forall e | e in groups :: (groups[e].passes > 0 <==> SawPass(s, e)) && (groups[e].failures > 0 <==> SawFail(s, e)))
    && (forall e, c | e in groups :: c in groups[e].failureClasses <==> SawClass(s, e, c))
  }

  function Recorded(groups: Groups, o: Observation): Groups {
    var g := if o.environmentId in groups then groups[o.environmentId] else Group(0, 0, []);
    match o.outcome
    case Pass => groups[o.environmentId := g.(passes := g.passes + 1)]
    case Fail => groups[o.environmentId := g.(failures := g.failures + 1, failureClasses := g.failureClasses + [o.failureClass])]
    case Unavailable => groups
  }

  lemma RecordedGroups(groups: Groups, s: seq<Observation>, o: Observation)
    requires Grouped(groups, s)
    ensures Grouped(Recorded(groups, o), s + [o])
  {
    hide SawPass, SawFail, SawClass;
    forall e
      ensures SawPass(s + [o], e) <==> SawPass(s, e) || (o.environmentId == e && o.outcome.Pass?)
      ensures SawFail(s + [o], e) <==> SawFail(s, e) || (o.environmentId == e && o.outcome.Fail?)
    {
      SawSnoc(s, o, e, None);
    }
    forall e, c
      ensures SawClass(s + [o], e, c) <==> SawClass(s, e, c) || (o.environmentId == e && o.outcome.Fail? && o.failureClass == c)
      ensures SawClass(s, e, c) ==> SawFail(s, e)
    {
      SawSnoc(s, o, e, c);
    }
  }

  /** The number of different classes, found by a growing list. */
  method DistinctFailureClasses(classes: seq<Option<Str>>) returns (n: nat)
    ensures n == |set c | c in classes|
  {
    var distinct: seq<Option<Str>> := [];
    for i := 0 to |classes|
      invariant NoRepeats(distinct)
      invariant forall c :: c in distinct <==> c in classes[..i]
    {
      assert classes[..i + 1] == classes[..i] + [classes[i]];
      if classes[i] !in distinct {
        distinct := distinct + [classes[i]];
      }
    }
    assert classes[..|classes|] == classes;
    NoRepeatsSize(distinct);
    assert (set c | c in classes) == (set c | c in distinct);
    n := |distinct|;
  }

  lemma {:induction false} NoRepeatsSize(s: seq<Option<Str>>)
    requires NoRepeats(s)
    ensures |set c | c in s| == |s|
  {
    if s != [] {
      NoRepeatsSize(s[1..]);
      assert s == [s[0]] + s[1..];
      assert (set c | c in s) == {s[0]} + (set c | c in s[1..]);
      assert s[0] !in s[1..];
    }
  }

  lemma {:induction false} SizeAtMostOne(s: set<Option<Str>>)
    ensures |s| > 1 <==> exists a, b | a in s && b in s :: a != b
  {
    if |s| > 1 {
      var a :| a in s;
      assert |s - {a}| > 0;
      var b :| b in s - {a};
      assert a in s && b in s && a != b;
    }
    if a, b :| a in s && b in s && a != b {
      assert {a, b} <= s;
      assert |s - {a, b}| == |s| - 2;
    }
  }

  /** More than one class in a list: two of its members differ. */
  predicate ManyClasses(classes: seq<Option<Str>>) {
    exists a, b | a in classes && b in classes :: a != b
  }

  method HasManyClasses(classes: seq<Option<Str>>) returns (many: bool)
    ensures many <==> ManyClasses(classes)
  {
    var n := DistinctFailureClasses(classes);
    ghost var members := set c | c in classes;
    SizeAtMostOne(members);
    many := n > 1;
    if a, b :| a in classes && b in classes && a != b {
      assert a in members && b in members;
    }
    if a, b :| a in members && b in members && a != b {
      assert a in classes && b in classes;
    }
  }

  /** The search for a contradiction: environment by environment, then over all failures. */
  method FindsContradiction(groups: Groups, ghost s: seq<Observation>) returns (flaky: bool)
    requires Grouped(groups, s)
    ensures flaky <==> Contradicts(s)
  {
    hide ManyClasses;
    var left := groups.Keys;
    var all: seq<Option<Str>> := [];
    while left != {}
      invariant left <= groups.Keys
      invariant forall e | e in groups && e !in left :: groups[e].passes == 0 || groups[e].failures == 0
      invariant forall c :: c in all <==> exists e | e in groups && e !in left :: c in groups[e].failureClasses
      decreases left
    {
      var e :| e in left;
      left := left - {e};
      var group := groups[e];
      if group.passes > 0 && group.failures > 0 {
        MixedGroup(groups, s, e);
        return true;
      }
      var many := HasManyClasses(group.failureClasses);
      if many {
        ManyInGroup(groups, s, e);
        return true;
      }
      all := all + group.failureClasses;
    }
    flaky := HasManyClasses(all);
    AllClasses(groups, s, all);
  }

  lemma MixedGroup(groups: Groups, s: seq<Observation>, e: Str)
    requires Grouped(groups, s) && e in groups && groups[e].passes > 0 && groups[e].failures > 0
    ensures Contradicts(s)
  {
    var a :| a in s && a.environmentId == e && a.outcome.Pass?;
    var b :| b in s && b.environmentId == e && b.outcome.Fail?;
    assert Mixed(a, b);
  }

  lemma ManyInGroup(groups: Groups, s: seq<Observation>, e: Str)
    requires Grouped(groups, s) && e in groups && ManyClasses(groups[e].failureClasses)
    ensures Contradicts(s)
  {
    var c, d :| c in groups[e].failureClasses && d in groups[e].failureClasses && c != d;
    var a :| a in s && a.environmentId == e && a.outcome.Fail? && a.failureClass == c;
    var b :| b in s && b.environmentId == e && b.outcome.Fail? && b.failureClass == d;
    assert Differ(a, b);
  }

  lemma SeenInGroup(groups: Groups, s: seq<Observation>, o: Observation)
    requires Grouped(groups, s) && o in s && !o.outcome.Unavailable?
    ensures o.environmentId in groups
    ensures o.outcome.Pass? ==> groups[o.environmentId].passes > 0
    ensures o.outcome.Fail? ==> groups[o.environmentId].failures > 0 && o.failureClass in groups[o.environmentId].failureClasses
  {
  }

  lemma AllClasses(groups: Groups, s: seq<Observation>, all: seq<Option<Str>>)
    requires Grouped(groups, s)
    requires forall e | e in groups :: groups[e].passes == 0 || groups[e].failures == 0
    requires forall c :: c in all <==> exists e | e in groups :: c in groups[e].failureClasses
    ensures ManyClasses(all) <==> Contradicts(s)
  {
    forall c ensures c in all <==> exists o | o in s :: o.outcome.Fail? && o.failureClass == c {
      if o :| o in s && o.outcome.Fail? && o.failureClass == c {
        assert o.environmentId in groups;
        assert c in groups[o.environmentId].failureClasses;
      }
    }
    if ManyClasses(all) {
      var c, d :| c in all && d in all && c != d;
      var a :| a in s && a.outcome.Fail? && a.failureClass == c;
      var b :| b in s && b.outcome.Fail? && b.failureClass == d;
      assert Differ(a, b);
    }
    if Contradicts(s) {
      ContradictionIsDiffering(groups, s);
      var a, b :| a in s && b in s && Differ(a, b);
      assert a.failureClass in all && b.failureClass in all;
    }
  }

  /** Where no environment is mixed, a contradiction is two failures of different classes. */
  lemma ContradictionIsDiffering(groups: Groups, s: seq<Observation>)
    requires Grouped(groups, s) && Contradicts(s)
    requires forall e | e in groups :: groups[e].passes == 0 || groups[e].failures == 0
    ensures exists a, b | a in s && b in s :: Differ(a, b)
  {
    var a, b :| a in s && b in s && (Mixed(a, b) || Differ(a, b));
    SeenInGroup(groups, s, a);
    SeenInGroup(groups, s, b);
  }

  /** Whether some environment passed and another failed. */
  method OutcomesDisagree(groups: Groups, ghost s: seq<Observation>) returns (disagree: bool)
    requires Grouped(groups, s) && !Contradicts(s)
    ensures disagree <==> Count(s, Pass) > 0 && Count(s, Fail) > 0
  {
    var left := groups.Keys;
    var passed, failed := false, false;
    while left != {}
      invariant left <= groups.Keys
      invariant passed <==> exists e | e in groups && e !in left :: groups[e].failures == 0
      invariant failed <==> exists e | e in groups && e !in left :: groups[e].failures > 0
      decreases left
    {
      var e :| e in left;
      left := left - {e};
      if groups[e].failures > 0 {
        failed := true;
      } else {
        passed := true;
      }
    }
    PassesAndFailures(groups, s);
    disagree := passed && failed;
  }

  lemma PassesAndFailures(groups: Groups, s: seq<Observation>)
    requires Grouped(groups, s) && !Contradicts(s)
    ensures Count(s, Fail) > 0 <==> exists e | e in groups :: groups[e].failures > 0
    ensures Count(s, Pass) > 0 <==> exists e | e in groups :: groups[e].failures == 0
  {
    CountPositive(s, Pass);
    CountPositive(s, Fail);
    if o :| o in s && o.outcome.Fail? {
      assert o.environmentId in groups;
    }
    if o :| o in s && o.outcome.Pass? {
      assert o.environmentId in groups;
      if groups[o.environmentId].failures > 0 {
        assert groups[o.environmentId].passes > 0;
        MixedGroup(groups, s, o.environmentId);
      }
    }
    if e :| e in groups && groups[e].failures == 0 {
      var o :| o in s && o.environmentId == e && !o.outcome.Unavailable?;
      assert o.outcome.Pass?;
    }
  }

  /** The report of an accepted history: its verdict, exact counts, and environments in order. */
  ghost predicate IsReport(r: Report, s: seq<Observation>, requiredRuns: int, maxRuns: int) {
    && r.verdict == VerdictOf(s, requiredRuns)
    && r.runs == |s| && r.passes == Count(s, Pass) && r.failures == Count(s, Fail) && r.unavailable == Count(s, Unavailable)
    && r.requiredRuns == requiredRuns && r.maxRuns == maxRuns
    && StrictlySorted(r.environments, TextOrder()) && (forall e :: e in r.environments <==> e in EnvironmentsOf(s))
    && (if s == [] then r.sourceId.None? && r.candidateId.None? && r.testId.None?
        else r.sourceId == Some(s[0].sourceId) && r.candidateId == Some(s[0].candidateId) && r.testId == Some(s[0].testId))
  }

  /**
   An error exactly for what is not accepted; otherwise the report of the history, in which every
   run is a pass, a failure or unavailable.
   */
  method EvaluateStability(observations: seq<Observation>, requiredRuns: int, maxRuns: int) returns (r: Option<Report>)
    ensures r.Some? <==> Accepted(observations, requiredRuns, maxRuns)
    ensures r.Some? ==> IsReport(r.value, observations, requiredRuns, maxRuns)
    ensures r.Some? ==> r.value.passes + r.value.failures + r.value.unavailable == r.value.runs
  {
    hide ShapeOk, Grouped, Contradicts, Recorded, LexLe, Count, EnvironmentsOf, SameSubject;
    NothingCounted();
    if !BoundsOk(requiredRuns, maxRuns) {
      return None;
    }
    if observations == [] {
      return Some(Report(NotRun, None, None, None, 0, 0, 0, 0, [], requiredRuns, maxRuns));
    }
    if |observations| > maxRuns {
      return None;
    }
    var first := observations[0];
    var environments: set<Str> := {};
    var passes, failures, unavailable := 0, 0, 0;
    var byEnvironment: Groups := map[];
    NothingGrouped();
    for index := 0 to |observations|
      invariant HistoryOk(observations[..index])
      invariant environments == EnvironmentsOf(observations[..index])
      invariant passes == Count(observations[..index], Pass) && failures == Count(observations[..index], Fail)
          && unavailable == Count(observations[..index], Unavailable)
      invariant Grouped(byEnvironment, observations[..index])
    {
      var observation := observations[index];
      assert observations[..index + 1] == observations[..index] + [observation];
      if !ShapeOk(observation) || observation.runIndex != index || !SameSubject(observation, first) {
        return None;
      }
      CountSnoc(observations[..index], observation, Pass);
      CountSnoc(observations[..index], observation, Fail);
      CountSnoc(observations[..index], observation, Unavailable);
      RecordedGroups(byEnvironment, observations[..index], observation);
      EnvironmentsSnoc(observations[..index], observation);
      environments := environments + {observation.environmentId};
      byEnvironment := Recorded(byEnvironment, observation);
      match observation.outcome
      case Pass => passes := passes + 1;
      case Fail => failures := failures + 1;
      case Unavailable => unavailable := unavailable + 1;
    }
    assert observations[..|observations|] == observations;
    CountsTotal(observations);
    TextOrderIsTotal();
    var ordered := SortedElements(environments, TextOrder());
    var verdict := Decide(byEnvironment, passes, failures, requiredRuns, observations);
    return Some(Report(verdict, Some(first.sourceId), Some(first.candidateId), Some(first.testId),
                       |observations|, passes, failures, unavailable, ordered, requiredRuns, maxRuns));
  }

  lemma NothingCounted()
    ensures Count([], Pass) == Count([], Fail) == Count([], Unavailable) == 0 && EnvironmentsOf([]) == {}
  {
  }

  lemma EnvironmentsSnoc(s: seq<Observation>, o: Observation)
    ensures EnvironmentsOf(s + [o]) == EnvironmentsOf(s) + {o.environmentId}
  {
  }

  lemma NothingGrouped()
    ensures Grouped(map[], [])
  {
  }

  /** The order of the checks after the counting. */
  method Decide(groups: Groups, passes: nat, failures: nat, requiredRuns: int, ghost s: seq<Observation>) returns (v: Verdict)
    requires Grouped(groups, s) && s != [] && passes == Count(s, Pass) && failures == Count(s, Fail)
    ensures v == VerdictOf(s, requiredRuns)
  {
    hide Grouped, Contradicts;
    var valid := passes + failures;
    if valid == 0 {
      return NoValidRun;
    }
    if valid < 2 {
      return InsufficientEvidence;
    }
    var flaky := FindsContradiction(groups, s);
    if flaky {
      return Flaky;
    }
    if valid < requiredRuns {
      return InsufficientEvidence;
    }
    var disagree := OutcomesDisagree(groups, s);
    if disagree {
      return EnvironmentSensitive;
    }
    return if failures > 0 then DeterministicFail else DeterministicPass;
  }

  /** Reports of two accepted histories that differ only in order and numbering are equal. */
  lemma ReportIgnoresOrder(a: seq<Observation>, b: seq<Observation>, requiredRuns: int, maxRuns: int, p: Report, q: Report)
    requires multiset(UnnumberedAll(a)) == multiset(UnnumberedAll(b))
    requires HistoryOk(a) && HistoryOk(b) && IsReport(p, a, requiredRuns, maxRuns) && IsReport(q, b, requiredRuns, maxRuns)
    ensures p == q
  {
    hide VerdictOf, ShapeOk, LexLe;
    VerdictIgnoresOrder(a, b, requiredRuns);
    SameLength(UnnumberedAll(a), UnnumberedAll(b));
    var lt := (x: Str, y: Str) => LexLe(x, y) && x != y;
    forall x: Str, y: Str ensures lt(x, y) ==> !lt(y, x) {
      LexTotal(x, y);
    }
    assert forall x: Str, y: Str :: TextOrder()(x, y) == LexLe(x, y);
    IncreasingIsUnique(p.environments, q.environments, lt);
    if a != [] {
      SameFirst(a, b);
    }
  }

  lemma SameFirst(a: seq<Observation>, b: seq<Observation>)
    requires a != [] && |a| == |b| && HistoryOk(a) && HistoryOk(b) && multiset(UnnumberedAll(a)) == multiset(UnnumberedAll(b))
    ensures SameSubject(a[0], b[0])
  {
    var u, v := UnnumberedAll(a), UnnumberedAll(b);
    assert u[0] in multiset(v);
    var i :| 0 <= i < |v| && v[i] == u[0];
    assert SameSubject(b[i], b[0]);
  }
}
