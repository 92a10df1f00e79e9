/**
 Test passes, targeted reruns of one failing test, and the verdict over all observations. Whatever
 the passes and reruns do, at most two reruns are made, none after a first pass, and the evidence
 of everything that ran is numbered apart.
 */
module Reproduction {
  import opened Wrappers
  import opened Text
  import opened Sorting

  datatype Identity = Identity(path: Str, fullName: Str)

  datatype Outcome = Passed | Failed

  datatype Observation = Observation(identity: Identity, outcome: Outcome, evidence: nat)

  datatype Status = PASS | FAIL | FLAKY | ERROR

  /** A valid machine result: the evidence it was recorded under and its assertions. */
  datatype Machine = Machine(evidence: nat, assertions: seq<(Identity, Outcome)>)

  datatype Executed = Executed(status: Status, exitCode: Option<int>, runs: nat, failures: nat, evidence: seq<nat>,
      machines: seq<Machine>)

  // ---------------------------------------------------------------- passes

  /** How the process of a pass ended. */
  datatype Process = Exited(code: int) | Broken

  /** A generated artifact: not recorded, recorded but not usable, or usable. */
  datatype Artifact<T> = Missing | Unusable | Usable(content: T)

  datatype Attempt = Attempt(process: Process, planned: bool, machine: Artifact<seq<(Identity, Outcome)>>, coverage: Artifact<()>)

  /** One full pass. Its two captures and up to two generated artifacts are numbered from 1 or 5. */
  function ExecutePass(second: bool, a: Attempt): Executed {
    var start := if second then 5 else 1;
    var captures := [start, start + 1];
    if a.process.Broken? then Executed(ERROR, None, 1, 0, captures, [])
    else
      var code := a.process.code;
      var failures := if code == 0 then 0 else 1;
      var invalid := (e: seq<nat>) => Executed(ERROR, Some(code), 1, failures, e, []);
      if !a.planned || a.machine.Missing? then invalid(captures)
      else if a.machine.Unusable? || a.coverage.Missing? then invalid(captures + [start + 2])
      else if a.coverage.Unusable? then invalid(captures + [start + 2, start + 3])
      else Executed(if code == 0 then PASS else FAIL, Some(code), 1, failures, captures + [start + 2, start + 3],
          [Machine(start + 2, a.machine.content)])
  }

  function NonZero(code: Option<int>): bool {
    code.Some? && code.value != 0
  }

  function CombineTestPasses(first: Executed, second: Executed): Executed {
    var status := if first.status.ERROR? || second.status.ERROR? then ERROR
        else if first.status.FAIL? || second.status.FAIL? then FAIL else PASS;
    var errorExit := if second.status.ERROR? then second.exitCode else first.exitCode;
    var failingExit := if NonZero(second.exitCode) then second.exitCode else if NonZero(first.exitCode) then first.exitCode else None;
    Executed(status, if status.PASS? then Some(0) else if status.FAIL? then failingExit else errorExit,
             first.runs + second.runs, first.failures + second.failures, first.evidence + second.evidence,
                 first.machines + second.machines)
  }

  /** The exit code and the count of failures say what the status says. */
  predicate Consistent(e: Executed) {
    && (e.status.PASS? ==> e.exitCode == Some(0) && e.failures == 0)
    && (e.status.FAIL? ==> NonZero(e.exitCode) && e.failures > 0)
    && e.failures <= e.runs
  }

  predicate Increasing(s: seq<nat>, low: nat, high: nat) {
    && (forall i | 0 <= i < |s| :: low <= s[i] < high)
    && forall i, j | 0 <= i < j < |s| :: s[i] < s[j]
  }

  lemma IncreasingConcat(a: seq<nat>, b: seq<nat>, low: nat, mid: nat, high: nat)
    requires Increasing(a, low, mid) && Increasing(b, mid, high) && low <= mid <= high
    ensures Increasing(a + b, low, high)
  {
  }

  lemma PassIsConsistent(second: bool, a: Attempt)
    ensures var e := ExecutePass(second, a);
      && Consistent(e) && Increasing(e.evidence, if second then 5 else 1, if second then 9 else 5)
      && (forall m | m in e.machines :: m.evidence in e.evidence)
      && (e.status.ERROR? <==> e.machines == [])
  {
  }

  /** The pass ran to its end and all it was to leave behind can be used. */
  predicate Conclusive(a: Attempt) {
    a.process.Exited? && a.planned && a.machine.Usable? && a.coverage.Usable?
  }

  function CodeOf(a: Attempt): Option<int> {
    if a.process.Exited? then Some(a.process.code) else None
  }

  /** A conclusive pass passes or fails with its process; any other is an error. What was recorded is evidence. */
  lemma PassExactly(second: bool, a: Attempt)
    ensures var e := ExecutePass(second, a);
      && (e.status.PASS? <==> Conclusive(a) && a.process.code == 0)
      && (e.status.FAIL? <==> Conclusive(a) && a.process.code != 0)
      && (e.status.ERROR? <==> !Conclusive(a))
      && e.exitCode == CodeOf(a)
      && (e.failures == 1 <==> a.process.Exited? && a.process.code != 0)
      && (Conclusive(a) ==> e.machines == [Machine((if second then 5 else 1) + 2, a.machine.content)])
      && forall n :: n in e.evidence <==> Recorded(a, n - if second then 5 else 1)
  {
  }

  /** What a pass leaves behind: two captures, then the machine result if recorded, then the coverage looked at after it. */
  predicate Recorded(a: Attempt, offset: int) {
    || offset == 0
    || offset == 1
    || (offset == 2 && a.process.Exited? && a.planned && !a.machine.Missing?)
    || (offset == 3 && a.process.Exited? && a.planned && a.machine.Usable? && !a.coverage.Missing?)
  }

  /** The exit code of two passes: an error's, the later one first, else the later non-zero one. */
  lemma CombinedExitCode(a: Attempt, b: Attempt)
    ensures CombineTestPasses(ExecutePass(false, a), ExecutePass(true, b)).exitCode ==
      CodeOf(if !Conclusive(b) then b else if !Conclusive(a) then a else if b.process.code != 0 then b else a)
  {
    PassExactly(false, a);
    PassExactly(true, b);
  }

  /** Nothing that either pass recorded is lost: evidence from 1 and from 5, machine results in order. */
  lemma CombinedKeepsAll(a: Attempt, b: Attempt)
    ensures var e := CombineTestPasses(ExecutePass(false, a), ExecutePass(true, b));
      && (forall n :: n in e.evidence <==> Recorded(a, n - 1) || Recorded(b, n - 5))
      && e.machines == (if Conclusive(a) then [Machine(3, a.machine.content)] else [])
           + (if Conclusive(b) then [Machine(7, b.machine.content)] else [])
  {
    PassExactly(false, a);
    PassExactly(true, b);
    PassIsConsistent(false, a);
    PassIsConsistent(true, b);
    hide ExecutePass, Recorded, Conclusive;
  }

  /** Two passes combine consistently: no failure or error is lost, and their evidence stays apart. */
  lemma CombinedIsConsistent(a: Attempt, b: Attempt)
    ensures var first, second := ExecutePass(false, a), ExecutePass(true, b);
      var e := CombineTestPasses(first, second);
      && Consistent(e) && e.runs == 2 && Increasing(e.evidence, 1, 9)
      && (e.status.PASS? <==> first.status.PASS? && second.status.PASS?)
      && (e.status.ERROR? <==> first.status.ERROR? || second.status.ERROR?)
      && e.failures == first.failures + second.failures
  {
    PassIsConsistent(false, a);
    PassIsConsistent(true, b);
    IncreasingConcat(ExecutePass(false, a).evidence, ExecutePass(true, b).evidence, 1, 5, 9);
  }

  // ---------------------------------------------------------------- targeted reruns

  /** One targeted rerun as it may turn out: not planned, or a process and a machine result with matching assertions. */
  datatype Rerun = Rerun(planned: bool, process: Process, machine: Artifact<seq<Outcome>>)

  /** The observation of a rerun, if its machine result has exactly one match that agrees with the process. */
  function Observed(r: Rerun): Option<Outcome> {
    if !r.planned || r.process.Broken? || !r.machine.Usable? || |r.machine.content| != 1 then None
    else if r.machine.content[0].Failed? != (r.process.code != 0) then None
    else Some(r.machine.content[0])
  }

  /** Second observations are numbered from 9, third ones from 12. */
  function SequenceStart(ordinal: nat): nat {
    if ordinal == 2 then 9 else 12
  }

  function RerunEvidence(ordinal: nat, r: Rerun): seq<nat> {
    var start := SequenceStart(ordinal);
    if !r.planned then []
    else if r.process.Broken? || r.machine.Missing? then [start, start + 1]
    else [start, start + 1, start + 2]
  }

  predicate AllFailed(outcomes: seq<Outcome>) {
    forall i | 0 <= i < |outcomes| :: outcomes[i].Failed?
  }

  /** The reruns go on while there are one or two observations, all failed, and a rerun gives one. */
  predicate GoesOn(outcomes: seq<Outcome>) {
    0 < |outcomes| < 3 && AllFailed(outcomes)
  }

  /** The outcomes that reruns add to those of the passes. */
  function Extras(outcomes: seq<Outcome>, reruns: nat -> Rerun): seq<Outcome>
    decreases 3 - |outcomes|
  {
    if !GoesOn(outcomes) then []
    else
      match Observed(reruns(|outcomes| + 1))
      case None => []
      case Some(o) => [o] + Extras(outcomes + [o], reruns)
  }

  function ExtraEvidence(outcomes: seq<Outcome>, reruns: nat -> Rerun): seq<nat>
    decreases 3 - |outcomes|
  {
    if !GoesOn(outcomes) then []
    else
      var ordinal := |outcomes| + 1;
      RerunEvidence(ordinal, reruns(ordinal)) +
      match Observed(reruns(ordinal))
      case None => []
      case Some(o) => ExtraEvidence(outcomes + [o], reruns)
  }

  /** The rerun ended, and its machine result has one match, failed exactly when the process failed. */
  predicate Observes(r: Rerun, o: Outcome) {
    r.planned && r.process.Exited? && r.machine == Usable([o]) && (o == Failed <==> r.process.code != 0)
  }

  lemma ObservedExactly(r: Rerun, o: Outcome)
    ensures Observed(r) == Some(o) <==> Observes(r, o)
  {
    if Observed(r) == Some(o) {
      assert r.machine.content == [o];
    }
  }

  /** One or two observations, and none of them a pass. */
  predicate WorthRerunning(outcomes: seq<Outcome>) {
    1 <= |outcomes| <= 2 && Passed !in outcomes
  }

  predicate GivesNothing(r: Rerun) {
    forall o :: !Observes(r, o)
  }

  /** Each rerun was worth making and gave its outcome, and no further one was worth making or gave any. */
  ghost predicate AreReruns(outcomes: seq<Outcome>, reruns: nat -> Rerun, extras: seq<Outcome>) {
    && (forall i | 0 <= i < |extras| :: WorthRerunning(outcomes + extras[..i]) && Observes(reruns(|outcomes| + i + 1), extras[i]))
    && (WorthRerunning(outcomes + extras) ==> GivesNothing(reruns(|outcomes| + |extras| + 1)))
  }

  /** The outcomes that are added are those of the reruns that are made, and of no others. */
  lemma {:induction false} ExtrasAreReruns(outcomes: seq<Outcome>, reruns: nat -> Rerun)
    ensures AreReruns(outcomes, reruns, Extras(outcomes, reruns))
    decreases 3 - |outcomes|
  {
    hide Observed, Observes;
    assert outcomes + [] == outcomes;
    WorthExactly(outcomes);
    if GoesOn(outcomes) {
      var next := reruns(|outcomes| + 1);
      forall o ensures Observed(next) == Some(o) <==> Observes(next, o) {
        ObservedExactly(next, o);
      }
      if Observed(next).Some? {
        var o := Observed(next).value;
        ExtrasAreReruns(outcomes + [o], reruns);
        FirstRerun(outcomes, reruns, o, Extras(outcomes + [o], reruns));
      }
    }
  }

  lemma WorthExactly(outcomes: seq<Outcome>)
    ensures WorthRerunning(outcomes) <==> GoesOn(outcomes)
  {
  }

  lemma FirstRerun(outcomes: seq<Outcome>, reruns: nat -> Rerun, o: Outcome, rest: seq<Outcome>)
    requires WorthRerunning(outcomes) && Observes(reruns(|outcomes| + 1), o) && AreReruns(outcomes + [o], reruns, rest)
    ensures AreReruns(outcomes, reruns, [o] + rest)
  {
    hide Observes, WorthRerunning;
    var extras := [o] + rest;
    forall i | 0 <= i < |extras|
      ensures WorthRerunning(outcomes + extras[..i]) && Observes(reruns(|outcomes| + i + 1), extras[i])
    {
      if i == 0 {
        assert outcomes + extras[..0] == outcomes;
      } else {
        assert outcomes + extras[..i] == (outcomes + [o]) + rest[..i - 1];
      }
    }
    assert outcomes + extras == (outcomes + [o]) + rest;
  }

  /** The ordinals of the reruns, up to n of them, whose process failed. */
  function FailedOrdinals(seen: nat, reruns: nat -> Rerun, n: nat): set<nat> {
    set k: nat | seen < k <= seen + n && reruns(k).process.Exited? && reruns(k).process.code != 0
  }

  /** The failures that reruns add are the reruns whose process failed. */
  lemma FailuresAreProcesses(outcomes: seq<Outcome>, reruns: nat -> Rerun)
    ensures var extras := Extras(outcomes, reruns);
      CountFailed(extras) == |FailedOrdinals(|outcomes|, reruns, |extras|)|
  {
    var extras := Extras(outcomes, reruns);
    ExtrasAreReruns(outcomes, reruns);
    FailedPrefix(outcomes, reruns, extras, |extras|);
    assert extras[..|extras|] == extras;
  }

  lemma {:induction false} FailedPrefix(outcomes: seq<Outcome>, reruns: nat -> Rerun, extras: seq<Outcome>, n: nat)
    requires AreReruns(outcomes, reruns, extras) && n <= |extras|
    ensures CountFailed(extras[..n]) == |FailedOrdinals(|outcomes|, reruns, n)|
  {
    if n > 0 {
      FailedPrefix(outcomes, reruns, extras, n - 1);
      assert extras[..n][..n - 1] == extras[..n - 1];
      assert Observes(reruns(|outcomes| + (n - 1) + 1), extras[n - 1]);
      hide AreReruns, FailedOrdinals, Observes;
      OrdinalsStep(|outcomes|, reruns, n, extras[n - 1]);
    }
  }

  lemma OrdinalsStep(seen: nat, reruns: nat -> Rerun, n: nat, o: Outcome)
    requires n > 0 && Observes(reruns(seen + n), o)
    ensures |FailedOrdinals(seen, reruns, n)| == |FailedOrdinals(seen, reruns, n - 1)| + if o == Failed then 1 else 0
  {
    assert FailedOrdinals(seen, reruns, n) == FailedOrdinals(seen, reruns, n - 1) + if o == Failed then {seen + n} else {};
  }

  /** At most two reruns, only after failures alone, and none after the first that passed. */
  lemma {:induction false} ExtrasAreBounded(outcomes: seq<Outcome>, reruns: nat -> Rerun)
    ensures var extras := Extras(outcomes, reruns);
      && |extras| <= 2 && (extras != [] ==> |outcomes| + |extras| <= 3)
      && (extras != [] ==> outcomes != [] && AllFailed(outcomes))
      && AllFailed(extras[..if extras == [] then 0 else |extras| - 1])
    decreases 3 - |outcomes|
  {
    if GoesOn(outcomes) && Observed(reruns(|outcomes| + 1)).Some? {
      var o := Observed(reruns(|outcomes| + 1)).value;
      ExtrasAreBounded(outcomes + [o], reruns);
      var rest := Extras(outcomes + [o], reruns);
      if rest != [] {
        assert (outcomes + [o])[|outcomes|] == o;
        assert ([o] + rest)[..|rest|] == [o] + rest[..|rest| - 1];
      }
    }
  }

  /** Rerun evidence is numbered apart from all pass evidence and among itself. */
  lemma {:induction false} ExtraEvidenceIncreases(outcomes: seq<Outcome>, reruns: nat -> Rerun)
    ensures Increasing(ExtraEvidence(outcomes, reruns), if |outcomes| <= 1 then 9 else 12, 15)
    decreases 3 - |outcomes|
  {
    if GoesOn(outcomes) {
      var ordinal := |outcomes| + 1;
      match Observed(reruns(ordinal)) {
        case None =>
        case Some(o) =>
          ExtraEvidenceIncreases(outcomes + [o], reruns);
          if ordinal == 2 {
            IncreasingConcat(RerunEvidence(ordinal, reruns(ordinal)), ExtraEvidence(outcomes + [o], reruns), 9, 12, 15);
          } else {
            assert ExtraEvidence(outcomes + [o], reruns) == [];
          }
      }
    }
  }

  /** Evidence of a rerun: two captures if it was planned, and its machine result if that was recorded. */
  lemma RerunEvidenceExactly(ordinal: nat, r: Rerun)
    requires ordinal == 2 || ordinal == 3
    ensures var e, first := RerunEvidence(ordinal, r), if ordinal == 2 then 9 else 12;
      && (first in e <==> r.planned) && (first + 1 in e <==> r.planned)
      && (first + 2 in e <==> r.planned && r.process.Exited? && !r.machine.Missing?)
      && Increasing(e, first, first + 3)
  {
  }

  /** What a rerun observed is recorded under evidence of that rerun. */
  lemma {:induction false} ObservedIsEvidence(outcomes: seq<Outcome>, reruns: nat -> Rerun, i: nat)
    requires i < |Extras(outcomes, reruns)|
    ensures SequenceStart(|outcomes| + i + 1) + 2 in ExtraEvidence(outcomes, reruns)
    decreases 3 - |outcomes|
  {
    if i > 0 {
      ObservedIsEvidence(outcomes + [Observed(reruns(|outcomes| + 1)).value], reruns, i - 1);
    } else {
      assert SequenceStart(|outcomes| + 1) + 2 in RerunEvidence(|outcomes| + 1, reruns(|outcomes| + 1));
    }
  }

  function EvidenceId(sequence: nat): Str {
    Lit("test.e") + Decimal(sequence)
  }

  /** The identifiers of all evidence of a task are distinct: passes, second pass and reruns. */
  lemma EvidenceIdsAreDistinct(a: Attempt, b: Option<Attempt>, outcomes: seq<Outcome>, reruns: nat -> Rerun)
    ensures var passes := if b.None? then ExecutePass(false, a) else CombineTestPasses(ExecutePass(false, a), ExecutePass(true, b.value));
      var all := passes.evidence + ExtraEvidence(outcomes, reruns);
      forall i, j | 0 <= i < j < |all| :: EvidenceId(all[i]) != EvidenceId(all[j])
  {
    hide ExecutePass, CombineTestPasses, ExtraEvidence;
    var passes := if b.None? then ExecutePass(false, a) else CombineTestPasses(ExecutePass(false, a), ExecutePass(true, b.value));
    PassIsConsistent(false, a);
    if b.Some? {
      CombinedIsConsistent(a, b.value);
    }
    ExtraEvidenceIncreases(outcomes, reruns);
    IncreasingConcat(passes.evidence, ExtraEvidence(outcomes, reruns), 1, 9, 15);
    var all := passes.evidence + ExtraEvidence(outcomes, reruns);
    forall i, j | 0 <= i < j < |all| ensures EvidenceId(all[i]) != EvidenceId(all[j]) {
      EvidenceIdInjective(all[i], all[j]);
    }
  }

  lemma EvidenceIdInjective(m: nat, n: nat)
    ensures EvidenceId(m) == EvidenceId(n) ==> m == n
  {
    hide Decimal;
    assert EvidenceId(m)[6..] == Decimal(m) && EvidenceId(n)[6..] == Decimal(n);
    if Decimal(m) == Decimal(n) {
      DecimalInjective(m, n);
    }
  }

  // ---------------------------------------------------------------- observations and findings

  function Assertions(m: Machine, n: nat): seq<Observation>
    requires n <= |m.assertions|
  {
    if n == 0 then [] else Assertions(m, n - 1) + [Observation(m.assertions[n - 1].0, m.assertions[n - 1].1, m.evidence)]
  }

  function Baseline(machines: seq<Machine>): seq<Observation> {
    if machines == [] then [] else Baseline(machines[..|machines| - 1]) + Assertions(machines[|machines| - 1],
        |machines[|machines| - 1].assertions|)
  }

  function OfIdentity(s: seq<Observation>, id: Identity): (r: seq<Observation>)
    ensures forall o :: o in r <==> o in s && o.identity == id
  {
    if s == [] then [] else OfIdentity(s[..|s| - 1], id) + if s[|s| - 1].identity == id then [s[|s| - 1]] else []
  }

  function Outcomes(s: seq<Observation>): (r: seq<Outcome>)
    ensures |r| == |s| && forall i | 0 <= i < |s| :: r[i] == s[i].outcome
  {
    seq(|s|, i requires 0 <= i < |s| => s[i].outcome)
  }

  /** The outcomes of one test, in order. */
  function Seen(s: seq<Observation>, id: Identity): seq<Outcome> {
    Outcomes(OfIdentity(s, id))
  }

  /** Failing identities, each once, in order of their first failure. */
  function Failing(s: seq<Observation>): (r: seq<Identity>)
    ensures NoRepeats(r)
    ensures forall id :: id in r <==> exists o | o in s :: o.identity == id && o.outcome.Failed?
  {
    if s == [] then []
    else
      var rest, last := Failing(s[..|s| - 1]), s[|s| - 1];
      assert s == s[..|s| - 1] + [last];
      if last.outcome.Failed? && last.identity !in rest then rest + [last.identity] else rest
  }

  datatype Reproduced = Yes | No | Unknown

  datatype Finding = Finding(identity: Identity, runs: nat, failures: nat, reproduced: Reproduced, nondeterministic: bool)

  function CountFailed(outcomes: seq<Outcome>): nat {
    if outcomes == [] then 0 else CountFailed(outcomes[..|outcomes| - 1]) + if outcomes[|outcomes| - 1].Failed? then 1 else 0
  }

  function NormalizeTestReproduction(id: Identity, outcomes: seq<Outcome>): Finding {
    var runs, failures := |outcomes|, CountFailed(outcomes);
    if runs < 2 then Finding(id, runs, failures, Unknown, false)
    else if failures == runs then Finding(id, runs, failures, Yes, false)
    else if failures > 0 then Finding(id, runs, failures, No, true)
    else Finding(id, runs, failures, Unknown, false)
  }

  lemma {:induction false} CountFailedBounds(outcomes: seq<Outcome>)
    ensures CountFailed(outcomes) <= |outcomes|
    ensures CountFailed(outcomes) == |outcomes| <==> AllFailed(outcomes)
    ensures CountFailed(outcomes) == 0 <==> forall i | 0 <= i < |outcomes| :: outcomes[i].Passed?
  {
    if outcomes != [] {
      CountFailedBounds(outcomes[..|outcomes| - 1]);
    }
  }

  /** Reproduced is: at least two observations, all failed. Contradicted is: a failure and a pass. */
  lemma ReproductionExactly(id: Identity, outcomes: seq<Outcome>)
    ensures var f := NormalizeTestReproduction(id, outcomes);
      && (f.reproduced.Yes? <==> |outcomes| >= 2 && AllFailed(outcomes))
      && (f.reproduced.No? <==> Failed in outcomes && Passed in outcomes)
      && (f.nondeterministic <==> f.reproduced.No?)
  {
    CountFailedBounds(outcomes);
    if |outcomes| == 1 {
      assert outcomes == [outcomes[0]];
    }
  }

  function Findings(ids: seq<Identity>, all: seq<Observation>): (r: seq<Finding>)
    ensures |r| == |ids| && forall i | 0 <= i < |ids| :: r[i] == NormalizeTestReproduction(ids[i], Seen(all, ids[i]))
  {
    seq(|ids|, i requires 0 <= i < |ids| => NormalizeTestReproduction(ids[i], Seen(all, ids[i])))
  }

  predicate AllContradictory(findings: seq<Finding>) {
    findings != [] && forall i | 0 <= i < |findings| :: findings[i].reproduced.No? && findings[i].nondeterministic
  }

  ghost predicate Saw(s: seq<Observation>, id: Identity, outcome: Outcome) {
    exists o | o in s :: o.identity == id && o.outcome == outcome
  }

  lemma SawOutcomes(s: seq<Observation>, id: Identity, outcome: Outcome)
    ensures outcome in Seen(s, id) <==> Saw(s, id, outcome)
  {
    var own := OfIdentity(s, id);
    if Saw(s, id, outcome) {
      var o :| o in s && o.identity == id && o.outcome == outcome;
      var i :| 0 <= i < |own| && own[i] == o;
      assert Outcomes(own)[i] == outcome;
    }
    if outcome in Outcomes(own) {
      var i :| 0 <= i < |own| && Outcomes(own)[i] == outcome;
      assert own[i] in own;
    }
  }

  /** Contradictory throughout is: some identity failed, and each that failed also passed. */
  lemma ContradictoryExactly(ids: seq<Identity>, all: seq<Observation>)
    requires forall id | id in ids :: Saw(all, id, Failed)
    ensures AllContradictory(Findings(ids, all)) <==> ids != [] && forall id | id in ids :: Saw(all, id, Passed)
  {
    hide Saw, NormalizeTestReproduction;
    forall i | 0 <= i < |ids| ensures Findings(ids, all)[i].reproduced.No? && Findings(ids, all)[i].nondeterministic <==> Saw(all, ids[i], Passed) {
      assert ids[i] in ids;
      SawOutcomes(all, ids[i], Passed);
      SawOutcomes(all, ids[i], Failed);
      ReproductionExactly(ids[i], Seen(all, ids[i]));
    }
  }

  // ---------------------------------------------------------------- the rerun loop

  /** The observations that reruns add, after n observations of the target. */
  function ExtraObservations(target: Identity, extras: seq<Outcome>, n: nat): (r: seq<Observation>)
    ensures |r| == |extras|
  {
    seq(|extras|, i requires 0 <= i < |extras| => Observation(target, extras[i], SequenceStart(n + i + 1) + 2))
  }

  /** Every observation the verdict is about. */
  function AllObservations(machines: seq<Machine>, target: Identity, reruns: nat -> Rerun): seq<Observation> {
    var base := Baseline(machines);
    var start := Seen(base, target);
    base + ExtraObservations(target, Extras(start, reruns), |start|)
  }

  lemma OneMoreObservation(s: seq<Observation>, o: Observation)
    ensures Seen(s + [o], o.identity) == Seen(s, o.identity) + [o.outcome]
  {
    assert (s + [o])[..|s|] == s;
  }

  lemma CountFailedSnoc(outcomes: seq<Outcome>, o: Outcome)
    ensures CountFailed(outcomes + [o]) == CountFailed(outcomes) + if o.Failed? then 1 else 0
  {
    assert (outcomes + [o])[..|outcomes|] == outcomes;
  }

  lemma RerunUnfolds(outcomes: seq<Outcome>, reruns: nat -> Rerun)
    ensures !GoesOn(outcomes) ==> Extras(outcomes, reruns) == [] && ExtraEvidence(outcomes, reruns) == []
    ensures GoesOn(outcomes) ==>
      var ordinal := |outcomes| + 1;
      match Observed(reruns(ordinal))
      case None => Extras(outcomes, reruns) == [] && ExtraEvidence(outcomes, reruns) == RerunEvidence(ordinal, reruns(ordinal))
      case Some(o) =>
        && Extras(outcomes, reruns) == [o] + Extras(outcomes + [o], reruns)
        && ExtraEvidence(outcomes, reruns) == RerunEvidence(ordinal, reruns(ordinal)) + ExtraEvidence(outcomes + [o], reruns)
  {
  }

  lemma ExtraObservationsSnoc(target: Identity, extras: seq<Outcome>, n: nat, o: Outcome)
    ensures ExtraObservations(target, extras + [o], n)
         == ExtraObservations(target, extras, n) + [Observation(target, o, SequenceStart(n + |extras| + 1) + 2)]
    ensures ExtraObservations(target, [], n) == []
  {
  }

  /** What has been done and what is left make up the whole, after the reruns in extras. */
  ghost predicate AtRerun(base: seq<Observation>, target: Identity, reruns: nat -> Rerun,
                          all: seq<Observation>, evidence: seq<nat>, extras: seq<Outcome>) {
    var start := Seen(base, target);
    && Seen(all, target) == start + extras
    && all == base + ExtraObservations(target, extras, |start|)
    && Extras(start, reruns) == extras + Extras(start + extras, reruns)
    && ExtraEvidence(start, reruns) == evidence + ExtraEvidence(start + extras, reruns)
  }

  lemma RerunStart(base: seq<Observation>, target: Identity, reruns: nat -> Rerun)
    ensures AtRerun(base, target, reruns, base, [], [])
  {
    hide Seen, Extras, ExtraEvidence;
    var start := Seen(base, target);
    assert start + [] == start;
    assert ExtraObservations(target, [], |start|) == [];
  }

  lemma Regroup<T>(a: seq<T>, b: seq<T>, c: seq<T>)
    ensures a + (b + c) == (a + b) + c && a + [] == a
  {
  }

  /** A rerun that gives an observation. */
  lemma RerunStep(base: seq<Observation>, target: Identity, reruns: nat -> Rerun, all: seq<Observation>, evidence: seq<nat>,
      extras: seq<Outcome>)
    requires AtRerun(base, target, reruns, all, evidence, extras)
    requires var outcomes := Seen(all, target);
      GoesOn(outcomes) && Observed(reruns(|outcomes| + 1)).Some?
    ensures var ordinal := |Seen(all, target)| + 1;
      var o := Observed(reruns(ordinal)).value;
      AtRerun(base, target, reruns, all + [Observation(target, o, SequenceStart(ordinal) + 2)],
          evidence + RerunEvidence(ordinal, reruns(ordinal)), extras + [o])
  {
    hide Seen, Observed, RerunEvidence, SequenceStart, Extras, ExtraEvidence, ExtraObservations, GoesOn;
    var start := Seen(base, target);
    var outcomes := Seen(all, target);
    var ordinal := |outcomes| + 1;
    var o := Observed(reruns(ordinal)).value;
    var x := Observation(target, o, SequenceStart(ordinal) + 2);
    assert Seen(all + [x], target) == start + (extras + [o]) by {
      OneMoreObservation(all, x);
      Regroup(start, extras, [o]);
    }
    assert all + [x] == base + ExtraObservations(target, extras + [o], |start|) by {
      ExtraObservationsSnoc(target, extras, |start|, o);
      Regroup(base, ExtraObservations(target, extras, |start|), [x]);
    }
    assert start + (extras + [o]) == outcomes + [o] by {
      Regroup(start, extras, [o]);
    }
    assert Extras(start, reruns) == (extras + [o]) + Extras(outcomes + [o], reruns) by {
      RerunUnfolds(outcomes, reruns);
      Regroup(extras, [o], Extras(outcomes + [o], reruns));
    }
    assert ExtraEvidence(start, reruns) == (evidence + RerunEvidence(ordinal,
        reruns(ordinal))) + ExtraEvidence(outcomes + [o], reruns) by {
      RerunUnfolds(outcomes, reruns);
      Regroup(evidence, RerunEvidence(ordinal, reruns(ordinal)), ExtraEvidence(outcomes + [o], reruns));
    }
  }

  /** A rerun without an observation, or none at all. */
  lemma RerunEnd(base: seq<Observation>, target: Identity, reruns: nat -> Rerun, all: seq<Observation>, evidence: seq<nat>,
      extras: seq<Outcome>)
    requires AtRerun(base, target, reruns, all, evidence, extras)
    ensures var outcomes := Seen(all, target);
      var ordinal := |outcomes| + 1;
      && (GoesOn(outcomes) && Observed(reruns(ordinal)).None? ==>
            RerunsAre(base, target, reruns, all, evidence + RerunEvidence(ordinal, reruns(ordinal)), extras))
      && (!GoesOn(outcomes) ==> RerunsAre(base, target, reruns, all, evidence, extras))
  {
    hide Seen, Observed, RerunEvidence, SequenceStart, Extras, ExtraEvidence, ExtraObservations, GoesOn;
    RerunUnfolds(Seen(all, target), reruns);
    Regroup(extras, [], []);
    Regroup(evidence, [], []);
  }

  ghost predicate RerunsAre(base: seq<Observation>, target: Identity, reruns: nat -> Rerun,
                            all: seq<Observation>, evidence: seq<nat>, extras: seq<Outcome>) {
    var start := Seen(base, target);
    && extras == Extras(start, reruns) && evidence == ExtraEvidence(start, reruns)
    && all == base + ExtraObservations(target, extras, |start|)
  }

  /** Reruns the target while its observations all failed and there are fewer than three. */
  method RerunTarget(base: seq<Observation>, target: Identity, reruns: nat -> Rerun)
    returns (all: seq<Observation>, evidence: seq<nat>, runs: nat, failures: nat)
    ensures var start := Seen(base, target);
      && all == base + ExtraObservations(target, Extras(start, reruns), |start|)
      && evidence == ExtraEvidence(start, reruns)
      && runs == |Extras(start, reruns)| && failures == CountFailed(Extras(start, reruns))
  {
    hide Seen, Observed, RerunEvidence, SequenceStart, Extras, ExtraEvidence, ExtraObservations, GoesOn, CountFailed, AtRerun;
    all, evidence, runs, failures := base, [], 0, 0;
    ghost var extras: seq<Outcome> := [];
    RerunStart(base, target, reruns);
    StillGoing([]);
    var outcomes := Seen(all, target);
    while GoesOn(outcomes)
      invariant outcomes == Seen(all, target)
      invariant AtRerun(base, target, reruns, all, evidence, extras)
      invariant runs == |extras| && failures == CountFailed(extras)
      decreases 3 - |outcomes|
    {
      StillGoing(outcomes);
      RerunEnd(base, target, reruns, all, evidence, extras);
      var ordinal := |outcomes| + 1;
      var rerun := reruns(ordinal);
      ghost var before := evidence;
      evidence := evidence + RerunEvidence(ordinal, rerun);
      var observed := Observed(rerun);
      if observed.None? {
        return;
      }
      RerunStep(base, target, reruns, all, before, extras);
      var o := Observation(target, observed.value, SequenceStart(ordinal) + 2);
      OneMoreObservation(all, o);
      CountFailedSnoc(extras, o.outcome);
      all := all + [o];
      extras := extras + [o.outcome];
      runs := runs + 1;
      failures := failures + if o.outcome.Failed? then 1 else 0;
      outcomes := Seen(all, target);
    }
    RerunEnd(base, target, reruns, all, evidence, extras);
  }

  lemma StillGoing(outcomes: seq<Outcome>)
    ensures GoesOn(outcomes) ==> 0 < |outcomes| < 3
    ensures CountFailed([]) == 0
  {
  }

  method BaselineObservations(machines: seq<Machine>) returns (s: seq<Observation>)
    ensures s == Baseline(machines)
  {
    s := [];
    for i := 0 to |machines|
      invariant s == Baseline(machines[..i])
    {
      assert machines[..i + 1][..i] == machines[..i];
      ghost var before := s;
      var m := machines[i];
      for k := 0 to |m.assertions|
        invariant s == before + Assertions(m, k)
      {
        s := s + [Observation(m.assertions[k].0, m.assertions[k].1, m.evidence)];
      }
    }
    assert machines[..|machines|] == machines;
  }

  method FailingTestIdentities(s: seq<Observation>, order: (Identity, Identity) -> bool) returns (ids: seq<Identity>)
    ensures ids == SortBy(Failing(s), order)
  {
    var found: seq<Identity> := [];
    for i := 0 to |s|
      invariant found == Failing(s[..i])
    {
      assert s[..i + 1][..i] == s[..i];
      if s[i].outcome.Failed? && s[i].identity !in found {
        found := found + [s[i].identity];
      }
    }
    assert s[..|s|] == s;
    return SortBy(found, order);
  }

  /** A failed test task whose machine results name failing tests. */
  predicate HasFailing(e: Executed) {
    e.status.FAIL? && e.machines != [] && Failing(Baseline(e.machines)) != []
  }

  lemma {:induction false} AssertionsExactly(m: Machine, n: nat, o: Observation)
    requires n <= |m.assertions|
    ensures o in Assertions(m, n) <==> exists a | a in m.assertions[..n] :: o == Observation(a.0, a.1, m.evidence)
  {
    if n > 0 {
      AssertionsExactly(m, n - 1, o);
      assert m.assertions[..n] == m.assertions[..n - 1] + [m.assertions[n - 1]];
    }
  }

  /** The observations are the assertions of the machine results, each with the evidence of its result. */
  lemma {:induction false} BaselineExactly(machines: seq<Machine>, o: Observation)
    ensures o in Baseline(machines) <==> exists m | m in machines :: m.evidence == o.evidence && (o.identity, o.outcome) in m.assertions
  {
    if machines != [] {
      var n := |machines| - 1;
      var last := machines[n];
      BaselineExactly(machines[..n], o);
      AssertionsExactly(last, |last.assertions|, o);
      assert last.assertions[..|last.assertions|] == last.assertions;
      assert machines == machines[..n] + [last];
      assert o in Assertions(last, |last.assertions|) <==> last.evidence == o.evidence && (o.identity, o.outcome) in last.assertions;
    }
  }

  predicate Reports(m: Machine, id: Identity) {
    (id, Failed) in m.assertions
  }

  /** There is something to look at again exactly if the task failed and a machine result reports a failing test. */
  lemma HasFailingExactly(e: Executed)
    ensures HasFailing(e) <==> e.status == FAIL && exists m, id | m in e.machines :: Reports(m, id)
  {
    var all := Baseline(e.machines);
    if HasFailing(e) {
      assert Failing(all)[0] in Failing(all);
      var o :| o in all && o.identity == Failing(all)[0] && o.outcome.Failed?;
      BaselineExactly(e.machines, o);
      var m :| m in e.machines && m.evidence == o.evidence && (o.identity, o.outcome) in m.assertions;
      assert Reports(m, o.identity);
    }
    if m, id :| m in e.machines && Reports(m, id) {
      var o := Observation(id, Failed, m.evidence);
      BaselineExactly(e.machines, o);
      assert o in all && id in Failing(all);
    }
  }

  /**
   The outcome of normalization. Only a failed task with failing tests is looked at again: its first
   failing test is rerun, every failing test gets a finding over all observations, and the result is
   flaky exactly when each failing test has also been seen to pass.
   */
  ghost predicate IsNormalized(e: Executed, reruns: nat -> Rerun, order: (Identity, Identity) -> bool, r: Executed, findings: seq<Finding>) {
    && (!HasFailing(e) ==> r == e && findings == [])
    && (HasFailing(e) ==>
      var ids := SortBy(Failing(Baseline(e.machines)), order);
      var start := Seen(Baseline(e.machines), ids[0]);
      var all := AllObservations(e.machines, ids[0], reruns);
      && findings == Findings(ids, all)
      && r.evidence == e.evidence + ExtraEvidence(start, reruns)
      && r.runs == e.runs + |Extras(start, reruns)|
      && r.failures == e.failures + |FailedOrdinals(|start|, reruns, |Extras(start, reruns)|)|
      && r.exitCode == e.exitCode && r.machines == e.machines
      && (r.status.FLAKY? || r.status.FAIL?)
      && (r.status.FLAKY? <==> forall id | id in Failing(Baseline(e.machines)) :: Saw(all, id, Passed)))
  }

  /** One failing test, seen once, whose first rerun passes: the task is flaky, with one run more and no failure more. */
  lemma PassingRerunIsFlaky(e: Executed, reruns: nat -> Rerun, order: (Identity, Identity) -> bool, r: Executed,
      findings: seq<Finding>, id: Identity)
    requires IsNormalized(e, reruns, order, r, findings) && HasFailing(e)
    requires Failing(Baseline(e.machines)) == [id] && Seen(Baseline(e.machines), id) == [Failed]
    requires reruns(2).planned && reruns(2).process == Exited(0) && reruns(2).machine == Usable([Passed])
    ensures r.status == FLAKY && r.runs == e.runs + 1 && r.failures == e.failures
    ensures findings == [Finding(id, 2, 1, No, true)]
  {
    hide Seen, Saw, Baseline, Failing;
    OneFailing(e, order, id);
    var extras := Extras([Failed], reruns);
    ObservedExactly(reruns(2), Passed);
    RerunUnfolds([Failed], reruns);
    RerunUnfolds([Failed] + [Passed], reruns);
    assert !GoesOn([Failed] + [Passed]) by {
      assert ([Failed] + [Passed])[1] == Passed;
    }
    assert extras == [Passed];
    assert FailedOrdinals(1, reruns, 1) == {};
    OneTest(e, reruns, id, extras);
    CountFailedSnoc([], Failed);
    CountFailedSnoc([Failed], Passed);
    assert [] + [Failed] == [Failed] && [Failed] + [Passed] == [Failed, Passed];
  }

  /** One failing test, seen once, that fails in both reruns: the failure is reproduced. */
  lemma FailingRerunsReproduce(e: Executed, reruns: nat -> Rerun, order: (Identity, Identity) -> bool, r: Executed,
      findings: seq<Finding>, id: Identity)
    requires IsNormalized(e, reruns, order, r, findings) && HasFailing(e)
    requires Failing(Baseline(e.machines)) == [id] && Seen(Baseline(e.machines), id) == [Failed]
    requires forall k | k == 2 || k == 3 :: Observes(reruns(k), Failed)
    ensures r.status == FAIL && r.runs == e.runs + 2 && r.failures == e.failures + 2
    ensures findings == [Finding(id, 3, 3, Yes, false)]
  {
    hide Seen, Saw, Baseline, Failing;
    OneFailing(e, order, id);
    hide Extras, Observes, GoesOn, CountFailed, NormalizeTestReproduction, Findings, AllObservations, FailedOrdinals;
    ObservedExactly(reruns(2), Failed);
    ObservedExactly(reruns(3), Failed);
    assert [Failed] + [Failed] == [Failed, Failed] && [Failed, Failed] + [Failed] == [Failed, Failed, Failed];
    RerunUnfolds([Failed], reruns);
    RerunUnfolds([Failed, Failed], reruns);
    RerunUnfolds([Failed, Failed, Failed], reruns);
    WorthExactly([Failed]);
    WorthExactly([Failed, Failed]);
    WorthExactly([Failed, Failed, Failed]);
    var extras := Extras([Failed], reruns);
    assert extras == [Failed, Failed];
    FailedBoth(reruns);
    OneTest(e, reruns, id, extras);
    assert [Failed] + [Failed, Failed] == [Failed, Failed, Failed];
    ThreeFailures(id);
  }

  lemma ThreeFailures(id: Identity)
    ensures NormalizeTestReproduction(id, [Failed, Failed, Failed]) == Finding(id, 3, 3, Yes, false)
  {
    var outcomes := [Failed, Failed, Failed];
    CountFailedBounds(outcomes);
    assert AllFailed(outcomes);
  }

  lemma FailedBoth(reruns: nat -> Rerun)
    requires Observes(reruns(2), Failed) && Observes(reruns(3), Failed)
    ensures FailedOrdinals(1, reruns, 2) == {2, 3}
  {
  }

  lemma OneFailing(e: Executed, order: (Identity, Identity) -> bool, id: Identity)
    requires Failing(Baseline(e.machines)) == [id]
    ensures SortBy(Failing(Baseline(e.machines)), order) == [id]
  {
    hide Failing, Baseline;
    assert [id][1..] == [];
    assert SortBy([id][1..], order) == [];
  }

  /** What has been seen of the only failing test after the reruns. */
  lemma OneTest(e: Executed, reruns: nat -> Rerun, id: Identity, extras: seq<Outcome>)
    requires extras == Extras(Seen(Baseline(e.machines), id), reruns)
    ensures var all := AllObservations(e.machines, id, reruns);
      && Seen(all, id) == Seen(Baseline(e.machines), id) + extras
      && Findings([id], all) == [NormalizeTestReproduction(id, Seen(all, id))]
      && (Saw(all, id, Passed) <==> Passed in Seen(all, id))
  {
    hide Seen, Saw, Baseline, Extras, ExtraObservations;
    var start := Seen(Baseline(e.machines), id);
    SeenOfExtras(Baseline(e.machines), id, extras, |start|);
    SawOutcomes(AllObservations(e.machines, id, reruns), id, Passed);
  }

  lemma {:induction false} SeenOfExtras(base: seq<Observation>, id: Identity, extras: seq<Outcome>, n: nat)
    ensures Seen(base + ExtraObservations(id, extras, n), id) == Seen(base, id) + extras
  {
    hide Seen;
    if extras == [] {
      assert base + ExtraObservations(id, extras, n) == base;
      assert Seen(base, id) + extras == Seen(base, id);
    } else {
      var rest, last := extras[..|extras| - 1], extras[|extras| - 1];
      assert extras == rest + [last];
      SeenOfExtras(base, id, rest, n);
      ExtraObservationsSnoc(id, rest, n, last);
      var x := Observation(id, last, SequenceStart(n + |rest| + 1) + 2);
      assert base + ExtraObservations(id, extras, n) == (base + ExtraObservations(id, rest, n)) + [x];
      OneMoreObservation(base + ExtraObservations(id, rest, n), x);
      assert (Seen(base, id) + rest) + [last] == Seen(base, id) + extras;
    }
  }

  method NormalizeFailedTestExecution(e: Executed, reruns: nat -> Rerun, order: (Identity, Identity) -> bool)
    returns (r: Executed, findings: seq<Finding>)
    ensures IsNormalized(e, reruns, order, r, findings)
  {
    hide SortBy, Baseline, Failing, Seen, Extras, ExtraEvidence, Saw, AllContradictory, ExtraObservations, FailedOrdinals;
    if !e.status.FAIL? || |e.machines| == 0 {
      return e, [];
    }
    var base := BaselineObservations(e.machines);
    var ids := FailingTestIdentities(base, order);
    SortPermutes(Failing(base), order);
    if |ids| == 0 {
      return e, [];
    }
    var all, evidence, runs, failures := RerunTarget(base, ids[0], reruns);
    findings := Findings(ids, all);
    StillFailing(base, all, ids, order);
    FailuresAreProcesses(Seen(base, ids[0]), reruns);
    ContradictoryExactly(ids, all);
    r := e.(status := if AllContradictory(findings) then FLAKY else FAIL,
            runs := e.runs + runs, failures := e.failures + failures, evidence := e.evidence + evidence);
  }

  /** Later observations do not undo a failure. */
  lemma StillFailing(base: seq<Observation>, all: seq<Observation>, ids: seq<Identity>, order: (Identity, Identity) -> bool)
    requires base <= all && ids == SortBy(Failing(base), order)
    ensures forall id :: id in ids <==> id in Failing(base)
    ensures forall id | id in ids :: Saw(all, id, Failed)
  {
    hide SortBy;
    SortPermutes(Failing(base), order);
    forall id ensures id in ids <==> id in Failing(base) {
      assert id in multiset(ids) <==> id in multiset(Failing(base));
    }
    assert all == base + all[|base|..];
  }
}
