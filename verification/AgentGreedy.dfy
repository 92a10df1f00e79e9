/**
 The greedy selection as a function of the receipt and the budget, and its maximality: no record
 it left out could be added to the final projection without exceeding the budget.
 */
module AgentGreedy {
  import opened Wrappers
  import opened Text
  import opened AgentReceipt

  datatype Kind = Errors | Findings | Admissions | Gaps | Changes | EvidenceRecords

  /** One record the greedy pass considers, with everything that is kept along with it. */
  datatype Unit = Unit(kind: Kind, index: nat)

  function Size(r: Receipt, kind: Kind): nat {
    match kind
    case Errors => |r.tasks|
    case Findings => |r.findings|
    case Admissions => |r.tasks|
    case Gaps => |MaterialGaps(r.exercise)|
    case Changes => |r.testChanges|
    case EvidenceRecords => |r.evidence|
  }

  predicate Candidate(r: Receipt, u: Unit) {
    u.index < Size(r, u.kind) &&
    match u.kind
    case Errors => r.tasks[u.index].isError && TaskEvidence(r, u.index).Some?
    case Findings => FindingEvidence(r, u.index).Some?
    case Admissions => r.tasks[u.index].admission.Some?
    case _ => true
  }

  function MaskOf(s: Selection, kind: Kind): Mask {
    match kind
    case Errors => s.errors
    case Findings => s.findings
    case Admissions => s.admissions
    case Gaps => s.gaps
    case Changes => s.changes
    case EvidenceRecords => s.evidence
  }

  predicate Has(r: Receipt, s: Selection, u: Unit)
    requires Fits(r, s) && u.index < Size(r, u.kind)
  {
    MaskOf(s, u.kind)[u.index]
  }

  /** An error brings its task's admission and its evidence line, a finding its evidence line. */
  function Add(r: Receipt, s: Selection, u: Unit): (t: Selection)
    requires Fits(r, s) && Candidate(r, u)
    ensures Fits(r, t) && Within(s, t) && Has(r, t, u)
  {
    var i := u.index;
    match u.kind
    case Errors =>
      s.(errors := s.errors[i := true],
         admissions := if r.tasks[i].admission.Some? then s.admissions[i := true] else s.admissions,
         evidence := s.evidence[TaskEvidence(r, i).value := true])
    case Findings =>
      s.(findings := s.findings[i := true], evidence := s.evidence[FindingEvidence(r, i).value := true])
    case Admissions => s.(admissions := s.admissions[i := true])
    case Gaps => s.(gaps := s.gaps[i := true])
    case Changes => s.(changes := s.changes[i := true])
    case EvidenceRecords => s.(evidence := s.evidence[i := true])
  }

  function Consider(r: Receipt, max: nat, s: Selection, u: Unit): (t: Selection)
    requires Fits(r, s) && |r.statusCounts| == 7
    ensures Fits(r, t)
  {
    if Candidate(r, u) && !Has(r, s, u) && Cost(r, Add(r, s, u)) <= max then Add(r, s, u) else s
  }

  /** The first `n` records of one class, in receipt order. */
  function Sweep(r: Receipt, max: nat, s: Selection, kind: Kind, n: nat): (t: Selection)
    requires Fits(r, s) && |r.statusCounts| == 7
    ensures Fits(r, t) && (n == 0 ==> t == s)
  {
    if n == 0 then s else Consider(r, max, Sweep(r, max, s, kind, n - 1), Unit(kind, n - 1))
  }

  /** The classes in priority order. */
  function PhaseKind(k: nat): Kind {
    if k == 0 then Errors else if k == 1 then Findings else if k == 2 then Admissions
    else if k == 3 then Gaps else if k == 4 then Changes else EvidenceRecords
  }

  function PhaseOf(kind: Kind): (k: nat)
    ensures k < 6 && PhaseKind(k) == kind
  {
    match kind
    case Errors => 0
    case Findings => 1
    case Admissions => 2
    case Gaps => 3
    case Changes => 4
    case EvidenceRecords => 5
  }

  /** The first `k` classes in priority order. */
  function Phases(r: Receipt, max: nat, k: nat): (t: Selection)
    requires |r.statusCounts| == 7 && k <= 6
    ensures Fits(r, t)
  {
    if k == 0 then Empty(r)
    else Sweep(r, max, Phases(r, max, k - 1), PhaseKind(k - 1), Size(r, PhaseKind(k - 1)))
  }

  function Greedy(r: Receipt, max: nat): Selection
    requires |r.statusCounts| == 7
  {
    Phases(r, max, 6)
  }

  // ---------------------------------------------------------------- maximality

  lemma AddMonotone(r: Receipt, a: Selection, b: Selection, u: Unit)
    requires Fits(r, a) && Fits(r, b) && Within(a, b) && Candidate(r, u)
    ensures Within(Add(r, a, u), Add(r, b, u))
  {
  }

  /** Too expensive once, too expensive for ever: the selection only grows. */
  lemma StillTooExpensive(r: Receipt, max: nat, a: Selection, b: Selection, u: Unit)
    requires Fits(r, a) && Fits(r, b) && Within(a, b) && Candidate(r, u) && |r.statusCounts| == 7
    requires Cost(r, Add(r, a, u)) > max
    ensures Cost(r, Add(r, b, u)) > max
  {
    AddMonotone(r, a, b, u);
    CostGrows(r, Add(r, a, u), Add(r, b, u));
  }

  /** Every considered candidate of the class is kept or would break the budget. */
  ghost predicate Settled(r: Receipt, max: nat, s: Selection, kind: Kind, n: nat)
    requires Fits(r, s) && |r.statusCounts| == 7
  {
    forall i | 0 <= i < n && Candidate(r, Unit(kind, i)) ::
      Has(r, s, Unit(kind, i)) || Cost(r, Add(r, s, Unit(kind, i))) > max
  }

  lemma SettledStays(r: Receipt, max: nat, a: Selection, b: Selection, kind: Kind, n: nat)
    requires Fits(r, a) && Fits(r, b) && Within(a, b) && |r.statusCounts| == 7 && Settled(r, max, a, kind, n)
    ensures Settled(r, max, b, kind, n)
  {
    hide Cost, Add;
    forall i | 0 <= i < n && Candidate(r, Unit(kind, i))
      ensures Has(r, b, Unit(kind, i)) || Cost(r, Add(r, b, Unit(kind, i))) > max
    {
      if !Has(r, a, Unit(kind, i)) {
        StillTooExpensive(r, max, a, b, Unit(kind, i));
      }
    }
  }

  lemma {:induction false} SweepGrows(r: Receipt, max: nat, s: Selection, kind: Kind, n: nat)
    requires Fits(r, s) && |r.statusCounts| == 7 && Cost(r, s) <= max
    ensures Within(s, Sweep(r, max, s, kind, n)) && Cost(r, Sweep(r, max, s, kind, n)) <= max
  {
    hide Cost, Add;
    if n > 0 {
      SweepGrows(r, max, s, kind, n - 1);
      WithinTransitive(s, Sweep(r, max, s, kind, n - 1), Sweep(r, max, s, kind, n));
    }
  }

  lemma WithinTransitive(a: Selection, b: Selection, c: Selection)
    requires Within(a, b) && Within(b, c)
    ensures Within(a, c)
  {
  }

  lemma ConsiderSettles(r: Receipt, max: nat, s: Selection, kind: Kind, n: nat)
    requires Fits(r, s) && |r.statusCounts| == 7 && Settled(r, max, s, kind, n)
    ensures Settled(r, max, Consider(r, max, s, Unit(kind, n)), kind, n + 1)
  {
    SettledStays(r, max, s, Consider(r, max, s, Unit(kind, n)), kind, n);
  }

  lemma {:induction false} SweepSettles(r: Receipt, max: nat, s: Selection, kind: Kind, n: nat)
    requires Fits(r, s) && |r.statusCounts| == 7
    ensures Settled(r, max, Sweep(r, max, s, kind, n), kind, n)
  {
    hide Cost, Add;
    if n > 0 {
      SweepSettles(r, max, s, kind, n - 1);
      ConsiderSettles(r, max, Sweep(r, max, s, kind, n - 1), kind, n - 1);
    }
  }

  lemma {:induction false} PhasesSettle(r: Receipt, max: nat, k: nat)
    requires |r.statusCounts| == 7 && k <= 6 && Cost(r, Empty(r)) <= max
    ensures Cost(r, Phases(r, max, k)) <= max
    ensures forall p | 0 <= p < k :: Settled(r, max, Phases(r, max, k), PhaseKind(p), Size(r, PhaseKind(p)))
  {
    hide Cost, Add, Settled, Sweep;
    if k > 0 {
      PhasesSettle(r, max, k - 1);
      var a, b := Phases(r, max, k - 1), Phases(r, max, k);
      SweepGrows(r, max, a, PhaseKind(k - 1), Size(r, PhaseKind(k - 1)));
      SweepSettles(r, max, a, PhaseKind(k - 1), Size(r, PhaseKind(k - 1)));
      forall p | 0 <= p < k - 1 ensures Settled(r, max, b, PhaseKind(p), Size(r, PhaseKind(p))) {
        SettledStays(r, max, a, b, PhaseKind(p), Size(r, PhaseKind(p)));
      }
    }
  }

  /** The final selection fits, and adding any omitted candidate unit exceeds the budget. */
  lemma GreedyIsMaximal(r: Receipt, max: nat, u: Unit)
    requires |r.statusCounts| == 7 && Utf8Length(Render(r, Empty(r))) <= max
    requires Candidate(r, u) && !Has(r, Greedy(r, max), u)
    ensures Utf8Length(Render(r, Greedy(r, max))) <= max
    ensures Utf8Length(Render(r, Add(r, Greedy(r, max), u))) > max
  {
    CostIsRenderedSize(r, Empty(r));
    PhasesSettle(r, max, 6);
    var p := PhaseOf(u.kind);
    assert Settled(r, max, Greedy(r, max), PhaseKind(p), Size(r, PhaseKind(p)));
    assert u == Unit(u.kind, u.index);
    CostIsRenderedSize(r, Greedy(r, max));
    CostIsRenderedSize(r, Add(r, Greedy(r, max), u));
  }

  function AllOf(n: nat): (m: Mask)
    ensures |m| == n && forall i | 0 <= i < n :: m[i]
  {
    seq(n, _ => true)
  }

  /** Every record kept. */
  function Everything(r: Receipt): (s: Selection)
    ensures Fits(r, s)
  {
    Selection(AllOf(|r.tasks|), AllOf(|r.findings|), AllOf(|r.tasks|), AllOf(|MaterialGaps(r.exercise)|), AllOf(|r.testChanges|),
              AllOf(|r.evidence|))
  }

  /** Where everything would fit, no candidate is omitted. */
  lemma AmpleBudgetKeepsAll(r: Receipt, max: nat, u: Unit)
    requires |r.statusCounts| == 7 && Cost(r, Everything(r)) <= max && Candidate(r, u)
    ensures Has(r, Greedy(r, max), u)
  {
    hide Cost, Phases, Add;
    CostGrows(r, Empty(r), Everything(r));
    CostIsRenderedSize(r, Empty(r));
    if !Has(r, Greedy(r, max), u) {
      GreedyIsMaximal(r, max, u);
      CostIsRenderedSize(r, Add(r, Greedy(r, max), u));
      CostGrows(r, Add(r, Greedy(r, max), u), Everything(r));
    }
  }

  // ---------------------------------------------------------------- shape of the intermediate selections

  predicate IsKept(s: Selection, e: Option<nat>) {
    e.Some? && e.value < |s.evidence| && s.evidence[e.value]
  }

  /**
   Only tasks that ended in an error are kept as errors, each with its admission and the evidence it
   owns; findings are kept with the evidence of their task, and of admissions those that are not normal.
   */
  predicate Linked(r: Receipt, s: Selection)
    requires Fits(r, s)
  {
    && (forall i | 0 <= i < |r.tasks| && s.errors[i] ::
          && r.tasks[i].isError && IsKept(s, TaskEvidence(r, i))
          && (r.tasks[i].admission.Some? ==> s.admissions[i]))
    && (forall i | 0 <= i < |r.tasks| && s.admissions[i] :: r.tasks[i].admission.Some?)
    && (forall i | 0 <= i < |r.findings| && s.findings[i] :: IsKept(s, FindingEvidence(r, i)))
  }

  predicate NothingFrom(m: Mask, n: nat) {
    forall i | n <= i < |m| :: !m[i]
  }

  /** Before record `n` of phase `k` nothing later has been selected, except linked evidence and paired admissions. */
  predicate Untouched(r: Receipt, s: Selection, k: nat, n: nat)
    requires Fits(r, s)
  {
    && Linked(r, s)
    && (k == 0 ==> NothingFrom(s.errors, n))
    && (k <= 1 ==> NothingFrom(s.findings, if k == 1 then n else 0))
    && (k <= 2 ==> NothingFrom(Without(s.admissions, s.errors), if k == 2 then n else 0))
    && (k <= 3 ==> NothingFrom(s.gaps, if k == 3 then n else 0))
    && (k <= 4 ==> NothingFrom(s.changes, if k == 4 then n else 0))
  }

  lemma AddKeepsLinked(r: Receipt, s: Selection, u: Unit)
    requires Fits(r, s) && Candidate(r, u) && Linked(r, s)
    ensures Linked(r, Add(r, s, u))
  {
  }

  /** Keeping a candidate brings what belongs to it and nothing else. */
  lemma AddIsLeast(r: Receipt, s: Selection, u: Unit, t: Selection)
    requires Fits(r, s) && Candidate(r, u) && Fits(r, t) && Linked(r, t) && Within(s, t) && Has(r, t, u)
    ensures Within(Add(r, s, u), t)
  {
    hide TaskEvidence, FindingEvidence, MaterialGaps;
    forall a: Mask, b: Mask, i | Below(a, b) && 0 <= i < |a| && b[i] ensures Below(a[i := true], b) {
    }
    hide Below;
    match u.kind
    case Errors =>
    case Findings =>
    case Admissions =>
    case Gaps =>
    case Changes =>
    case EvidenceRecords =>
  }

  /** A candidate is what can be kept at all with everything that belongs to it. */
  lemma CandidatesExactly(r: Receipt, u: Unit)
    requires u.index < Size(r, u.kind)
    ensures Candidate(r, u) <==> exists t :: Fits(r, t) && Linked(r, t) && Has(r, t, u)
  {
    hide TaskEvidence, FindingEvidence, MaterialGaps, Add;
    assert Linked(r, Empty(r));
    if Candidate(r, u) {
      AddKeepsLinked(r, Empty(r), u);
      assert Has(r, Add(r, Empty(r), u), u);
    }
  }

  lemma AddStaysUntouched(r: Receipt, s: Selection, k: nat, n: nat)
    requires Fits(r, s) && k < 6 && n < Size(r, PhaseKind(k)) && Untouched(r, s, k, n)
    requires Candidate(r, Unit(PhaseKind(k), n))
    ensures Untouched(r, Add(r, s, Unit(PhaseKind(k), n)), k, n + 1)
  {
    AddKeepsLinked(r, s, Unit(PhaseKind(k), n));
  }

  lemma SkipStaysUntouched(r: Receipt, s: Selection, k: nat, n: nat)
    requires Fits(r, s) && k < 6 && n < Size(r, PhaseKind(k)) && Untouched(r, s, k, n)
    ensures Untouched(r, s, k, n + 1)
  {
  }

  lemma UntouchedNextPhase(r: Receipt, s: Selection, k: nat)
    requires Fits(r, s) && k < 6 && Untouched(r, s, k, Size(r, PhaseKind(k)))
    ensures Untouched(r, s, k + 1, 0)
  {
  }

  // ---------------------------------------------------------------- priority

  /** Nothing is kept of the classes after this one; evidence and admissions only with what they belong to. */
  predicate KeepsNothingAfter(r: Receipt, s: Selection, kind: Kind)
    requires Fits(r, s)
  {
    match kind
    case Errors =>
      true !in s.findings && true !in Without(s.admissions, s.errors) && true !in s.gaps && true !in s.changes
    case Findings => true !in Without(s.admissions, s.errors) && true !in s.gaps && true !in s.changes
    case Admissions => true !in s.gaps && true !in s.changes
    case Gaps => true !in s.changes
    case _ => true
  }

  lemma {:induction false} SweepStaysUntouched(r: Receipt, max: nat, s: Selection, k: nat, n: nat)
    requires Fits(r, s) && |r.statusCounts| == 7 && k < 6 && n <= Size(r, PhaseKind(k)) && Untouched(r, s, k, 0)
    ensures Untouched(r, Sweep(r, max, s, PhaseKind(k), n), k, n)
  {
    hide Cost, Add, Untouched, PhaseKind;
    if n > 0 {
      SweepStaysUntouched(r, max, s, k, n - 1);
      var t := Sweep(r, max, s, PhaseKind(k), n - 1);
      SkipStaysUntouched(r, t, k, n - 1);
      if Candidate(r, Unit(PhaseKind(k), n - 1)) {
        AddStaysUntouched(r, t, k, n - 1);
      }
    }
  }

  lemma {:induction false} PhasesUntouched(r: Receipt, max: nat, k: nat)
    requires |r.statusCounts| == 7 && k <= 6
    ensures Untouched(r, Phases(r, max, k), k, 0)
  {
    hide Sweep, Cost, PhaseKind;
    if k > 0 {
      PhasesUntouched(r, max, k - 1);
      SweepStaysUntouched(r, max, Phases(r, max, k - 1), k - 1, Size(r, PhaseKind(k - 1)));
      UntouchedNextPhase(r, Phases(r, max, k), k - 1);
    }
  }

  lemma {:induction false} PhasesGrow(r: Receipt, max: nat, j: nat, k: nat)
    requires |r.statusCounts| == 7 && j <= k <= 6 && Cost(r, Empty(r)) <= max
    ensures Within(Phases(r, max, j), Phases(r, max, k))
  {
    hide Sweep, Cost, PhaseKind;
    if j < k {
      PhasesGrow(r, max, j, k - 1);
      PhasesSettle(r, max, k - 1);
      SweepGrows(r, max, Phases(r, max, k - 1), PhaseKind(k - 1), Size(r, PhaseKind(k - 1)));
      WithinTransitive(Phases(r, max, j), Phases(r, max, k - 1), Phases(r, max, k));
    }
  }

  /**
   No record is omitted for the sake of a class after its own: a part of what is kept, without any of
   the later classes, already leaves no room for it.
   */
  lemma OmittedForNothingLater(r: Receipt, max: nat, u: Unit) returns (s: Selection)
    requires |r.statusCounts| == 7 && Cost(r, Empty(r)) <= max && Candidate(r, u) && !Has(r, Greedy(r, max), u)
    ensures Fits(r, s) && Within(s, Greedy(r, max)) && KeepsNothingAfter(r, s, u.kind)
    ensures Cost(r, Add(r, s, u)) > max
  {
    hide Cost, Add, Phases, PhaseKind;
    var k := PhaseOf(u.kind) + 1;
    s := Phases(r, max, k);
    PhasesUntouched(r, max, k);
    PhasesGrow(r, max, k, 6);
    PhasesSettle(r, max, k);
    assert Settled(r, max, s, PhaseKind(k - 1), Size(r, PhaseKind(k - 1)));
    assert u == Unit(PhaseKind(k - 1), u.index);
  }
}
