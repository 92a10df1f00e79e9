/**
 The six selection loops of renderReceiptAgent and the final rendering. Each loop refines one
 sweep of the greedy selection; the byte-accounting check at the end can never fail.
 */
module AgentRenderer {
  import opened Wrappers
  import opened Text
  import opened AgentReceipt
  import opened AgentGreedy
  import opened AgentProjection

  lemma ErrorListed(r: Receipt, s: Selection, i: nat, e: seq<DetailRecord>, f: seq<DetailRecord>,
                    a: seq<DetailRecord>, g: seq<Str>, c: seq<Str>)
    requires Accepted(r) && ListsMatch(r, s, e, f, a, g, c)
    requires Candidate(r, Unit(Errors, i)) && NothingFrom(s.errors, i)
    requires Linked(r, s) && NothingFrom(Without(s.admissions, s.errors), 0)
    ensures var task := r.tasks[i];
            ListsMatch(r, Add(r, s, Unit(Errors, i)),
              e + [DetailRecord(ErrorLine(r, i), Some(task.id))], f,
              if task.admission.Some? then a + [DetailRecord(AdmissionLine(task), Some(task.id))] else a, g, c)
  {
    hide ErrorLine, FindingLine, AdmissionLine, GapLine, TestChangeLine;
    var t := Add(r, s, Unit(Errors, i));
    PickOneMore(ErrorLines(r), s.errors, i);
    OneMoreRecord(e, DetailRecord(ErrorLine(r, i), Some(r.tasks[i].id)));
    PairedAdmissionListed(r, s, i);
    OneMoreRecord(a, DetailRecord(AdmissionLine(r.tasks[i]), Some(r.tasks[i].id)));
  }

  lemma PairedAdmissionListed(r: Receipt, s: Selection, i: nat)
    requires Fits(r, s) && Candidate(r, Unit(Errors, i)) && NothingFrom(s.errors, i)
    requires Linked(r, s) && NothingFrom(Without(s.admissions, s.errors), 0)
    ensures SelectedAdmissions(r, Add(r, s, Unit(Errors, i))) ==
            SelectedAdmissions(r, s) + if r.tasks[i].admission.Some? then [AdmissionLine(r.tasks[i])] else []
  {
    hide AdmissionLine;
    var t := Add(r, s, Unit(Errors, i));
    assert !Without(s.admissions, s.errors)[i];
    PickNothing(AdmissionLines(r), Without(s.admissions, s.errors));
    assert forall j | 0 <= j < |r.tasks| :: Without(t.admissions, t.errors)[j] ==> Without(s.admissions, s.errors)[j];
    PickNothing(AdmissionLines(r), Without(t.admissions, t.errors));
    if r.tasks[i].admission.Some? {
      assert Both(t.admissions, t.errors) == Both(s.admissions, s.errors)[i := true];
      PickOneMore(AdmissionLines(r), Both(s.admissions, s.errors), i);
    } else {
      assert Both(t.admissions, t.errors) == Both(s.admissions, s.errors);
    }
  }

  lemma FindingListed(r: Receipt, s: Selection, i: nat, e: seq<DetailRecord>, f: seq<DetailRecord>,
                      a: seq<DetailRecord>, g: seq<Str>, c: seq<Str>)
    requires ListsMatch(r, s, e, f, a, g, c) && Candidate(r, Unit(Findings, i)) && NothingFrom(s.findings, i)
    ensures ListsMatch(r, Add(r, s, Unit(Findings, i)), e, f + [DetailRecord(FindingLine(r, i), None)], a, g, c)
  {
    hide ErrorLine, FindingLine, AdmissionLine, GapLine, TestChangeLine;
    PickOneMore(FindingLines(r), s.findings, i);
    OneMoreRecord(f, DetailRecord(FindingLine(r, i), None));
  }

  lemma AdmissionListed(r: Receipt, s: Selection, i: nat, e: seq<DetailRecord>, f: seq<DetailRecord>,
                        a: seq<DetailRecord>, g: seq<Str>, c: seq<Str>)
    requires Accepted(r) && ListsMatch(r, s, e, f, a, g, c) && Candidate(r, Unit(Admissions, i))
    requires Linked(r, s) && NothingFrom(Without(s.admissions, s.errors), i) && !s.admissions[i]
    ensures ListsMatch(r, Add(r, s, Unit(Admissions, i)), e, f,
                       a + [DetailRecord(AdmissionLine(r.tasks[i]), Some(r.tasks[i].id))], g, c)
  {
    hide ErrorLine, FindingLine, AdmissionLine, GapLine, TestChangeLine;
    var t := Add(r, s, Unit(Admissions, i));
    assert Both(t.admissions, t.errors) == Both(s.admissions, s.errors);
    assert Without(t.admissions, t.errors) == Without(s.admissions, s.errors)[i := true];
    PickOneMore(AdmissionLines(r), Without(s.admissions, s.errors), i);
    OneMoreRecord(a, DetailRecord(AdmissionLine(r.tasks[i]), Some(r.tasks[i].id)));
  }

  lemma GapListed(r: Receipt, s: Selection, i: nat, e: seq<DetailRecord>, f: seq<DetailRecord>,
                  a: seq<DetailRecord>, g: seq<Str>, c: seq<Str>)
    requires ListsMatch(r, s, e, f, a, g, c) && Candidate(r, Unit(Gaps, i)) && NothingFrom(s.gaps, i)
    ensures ListsMatch(r, Add(r, s, Unit(Gaps, i)), e, f, a, g + [GapLine(MaterialGaps(r.exercise)[i])], c)
  {
    hide ErrorLine, FindingLine, AdmissionLine, GapLine, TestChangeLine;
    PickOneMore(GapLines(r), s.gaps, i);
  }

  lemma ChangeListed(r: Receipt, s: Selection, i: nat, e: seq<DetailRecord>, f: seq<DetailRecord>,
                     a: seq<DetailRecord>, g: seq<Str>, c: seq<Str>)
    requires ListsMatch(r, s, e, f, a, g, c) && Candidate(r, Unit(Changes, i)) && NothingFrom(s.changes, i)
    ensures ListsMatch(r, Add(r, s, Unit(Changes, i)), e, f, a, g, c + [TestChangeLine(r.testChanges[i])])
  {
    hide ErrorLine, FindingLine, AdmissionLine, GapLine, TestChangeLine;
    PickOneMore(TestChangeLines(r), s.changes, i);
  }

  lemma EvidenceListed(r: Receipt, s: Selection, i: nat, e: seq<DetailRecord>, f: seq<DetailRecord>,
                       a: seq<DetailRecord>, g: seq<Str>, c: seq<Str>)
    requires ListsMatch(r, s, e, f, a, g, c) && Candidate(r, Unit(EvidenceRecords, i))
    ensures ListsMatch(r, Add(r, s, Unit(EvidenceRecords, i)), e, f, a, g, c)
  {
    hide ErrorLine, FindingLine, AdmissionLine, GapLine, TestChangeLine;
  }

  lemma AdmissionIsListed(r: Receipt, s: Selection, i: nat, e: seq<DetailRecord>, f: seq<DetailRecord>,
                          a: seq<DetailRecord>, g: seq<Str>, c: seq<Str>)
    requires ListsMatch(r, s, e, f, a, g, c) && i < |r.tasks|
    ensures ListedFor(a, r.tasks[i].id) <==> Has(r, s, Unit(Admissions, i))
  {
  }

  /** A record that is no candidate, or has been kept already, is passed over. */
  lemma PassOver(r: Receipt, max: nat, s: Selection, k: nat, i: nat)
    requires Fits(r, s) && |r.statusCounts| == 7 && k < 6 && i < Size(r, PhaseKind(k))
    ensures var cur := Sweep(r, max, s, PhaseKind(k), i);
            && (!Candidate(r, Unit(PhaseKind(k), i)) || Has(r, cur, Unit(PhaseKind(k), i)) ==>
                  Sweep(r, max, s, PhaseKind(k), i + 1) == cur)
            && (Untouched(r, cur, k, i) ==> Untouched(r, cur, k, i + 1))
  {
    hide Cost;
    var cur := Sweep(r, max, s, PhaseKind(k), i);
    if Untouched(r, cur, k, i) {
      SkipStaysUntouched(r, cur, k, i);
    }
  }

  /** A candidate is kept exactly when the selection with it fits. */
  lemma Offer(r: Receipt, max: nat, s: Selection, k: nat, i: nat)
    requires Fits(r, s) && Accepted(r) && k < 6 && i < Size(r, PhaseKind(k))
    requires Untouched(r, Sweep(r, max, s, PhaseKind(k), i), k, i)
    requires Candidate(r, Unit(PhaseKind(k), i)) && !Has(r, Sweep(r, max, s, PhaseKind(k), i), Unit(PhaseKind(k), i))
    ensures var cur := Sweep(r, max, s, PhaseKind(k), i);
            var t := Add(r, cur, Unit(PhaseKind(k), i));
            && Fits(r, t) && Sweep(r, max, s, PhaseKind(k), i + 1) == (if Cost(r, t) <= max then t else cur)
            && Untouched(r, t, k, i + 1) && Untouched(r, cur, k, i + 1)
  {
    hide Cost;
    var cur := Sweep(r, max, s, PhaseKind(k), i);
    AddStaysUntouched(r, cur, k, i);
    SkipStaysUntouched(r, cur, k, i);
  }

  /** What the next loop may assume of the sets it has not reached. */
  lemma UntouchedFacts(r: Receipt, s: Selection, k: nat, n: nat)
    requires Fits(r, s) && k < 6 && n < Size(r, PhaseKind(k)) && Untouched(r, s, k, n)
    ensures Linked(r, s)
    ensures k == 0 ==> NothingFrom(s.errors, n) && NothingFrom(Without(s.admissions, s.errors), 0)
    ensures k == 1 ==> NothingFrom(s.findings, n)
    ensures k == 2 ==> NothingFrom(Without(s.admissions, s.errors), n)
    ensures k == 3 ==> NothingFrom(s.gaps, n)
    ensures k == 4 ==> NothingFrom(s.changes, n)
    ensures k != 2 && k != 5 ==> !Has(r, s, Unit(PhaseKind(k), n))
  {
  }

  method SelectErrors(r: Receipt, max: nat, fixedBytes: nat, state: ProjectionState, ghost s: Selection)
    requires Accepted(r) && fixedBytes == FixedBytes(r) && Fits(r, s) && state.Matches(r, s) && Untouched(r, s, 0, 0)
    modifies state
    ensures state.Matches(r, Sweep(r, max, s, Errors, |r.tasks|))
    ensures Untouched(r, Sweep(r, max, s, Errors, |r.tasks|), 1, 0)
  {
    hide ErrorLine, FindingLine, AdmissionLine, GapLine, TestChangeLine, EvidenceLine, LineCost, DetailBytes, Cost, Add;
    hide Sweep, Consider, Untouched, ListsMatch, ListedFor, CountersMatch, WithinTotals, After;
    hide Linked, NothingFrom, Fits, FixedBytes;
    ghost var cur := s;
    for i := 0 to |r.tasks|
      invariant cur == Sweep(r, max, s, Errors, i)
      invariant state.Matches(r, cur) && Untouched(r, cur, 0, i)
    {
      PassOver(r, max, s, 0, i);
      UntouchedFacts(r, cur, 0, i);
      var task := r.tasks[i];
      var e := TaskEvidence(r, i);
      if !task.isError || e.None? { continue; }
      var linked := r.evidence[e.value];
      ghost var t := Add(r, cur, Unit(Errors, i));
      var changes := SelectionChanges(Some(task.id), false, false, false, Some(linked.id), LineCost(EvidenceLine(linked)));
      var recordBytes := LineCost(ErrorLine(r, i)) +
        if task.admission.Some? then LineCost(AdmissionLine(task)) else 0;
      ErrorCounted(r, cur, state.Snapshot(), i);
      Offer(r, max, s, 0, i);
      ErrorListed(r, cur, i, state.errors, state.findings, state.admissions, state.gaps, state.testChanges);
      var fits := state.CanAdd(fixedBytes, r, max, recordBytes, changes, t);
      if fits {
        state.errors := state.errors + [DetailRecord(ErrorLine(r, i), Some(task.id))];
        if task.admission.Some? {
          state.admissions := state.admissions + [DetailRecord(AdmissionLine(task), Some(task.id))];
        }
        state.CommitSelection(recordBytes, changes);
        cur := t;
      }
    }
    UntouchedNextPhase(r, cur, 0);
  }

  method SelectFindings(r: Receipt, max: nat, fixedBytes: nat, state: ProjectionState, ghost s: Selection)
    requires Accepted(r) && fixedBytes == FixedBytes(r) && Fits(r, s) && state.Matches(r, s) && Untouched(r, s, 1, 0)
    modifies state
    ensures state.Matches(r, Sweep(r, max, s, Findings, |r.findings|))
    ensures Untouched(r, Sweep(r, max, s, Findings, |r.findings|), 2, 0)
  {
    hide ErrorLine, FindingLine, AdmissionLine, GapLine, TestChangeLine, EvidenceLine, LineCost, DetailBytes, Cost, Add;
    hide Sweep, Consider, Untouched, ListsMatch, ListedFor, CountersMatch, WithinTotals, After;
    hide Linked, NothingFrom, Fits, FixedBytes;
    ghost var cur := s;
    for i := 0 to |r.findings|
      invariant cur == Sweep(r, max, s, Findings, i)
      invariant state.Matches(r, cur) && Untouched(r, cur, 1, i)
    {
      PassOver(r, max, s, 1, i);
      UntouchedFacts(r, cur, 1, i);
      var e := FindingEvidence(r, i);
      if e.None? { continue; }
      var linked := r.evidence[e.value];
      ghost var t := Add(r, cur, Unit(Findings, i));
      var changes := SelectionChanges(None, true, false, false, Some(linked.id), LineCost(EvidenceLine(linked)));
      var recordBytes := LineCost(FindingLine(r, i));
      FindingCounted(r, cur, state.Snapshot(), i);
      Offer(r, max, s, 1, i);
      FindingListed(r, cur, i, state.errors, state.findings, state.admissions, state.gaps, state.testChanges);
      var fits := state.CanAdd(fixedBytes, r, max, recordBytes, changes, t);
      if fits {
        state.findings := state.findings + [DetailRecord(FindingLine(r, i), None)];
        state.CommitSelection(recordBytes, changes);
        cur := t;
      }
    }
    UntouchedNextPhase(r, cur, 1);
  }

  method SelectAdmissions(r: Receipt, max: nat, fixedBytes: nat, state: ProjectionState, ghost s: Selection)
    requires Accepted(r) && fixedBytes == FixedBytes(r) && Fits(r, s) && state.Matches(r, s) && Untouched(r, s, 2, 0)
    modifies state
    ensures state.Matches(r, Sweep(r, max, s, Admissions, |r.tasks|))
    ensures Untouched(r, Sweep(r, max, s, Admissions, |r.tasks|), 3, 0)
  {
    hide ErrorLine, FindingLine, AdmissionLine, GapLine, TestChangeLine, EvidenceLine, LineCost, DetailBytes, Cost, Add;
    hide Sweep, Consider, Untouched, ListsMatch, ListedFor, CountersMatch, WithinTotals, After;
    hide Linked, NothingFrom, Fits, FixedBytes;
    ghost var cur := s;
    for i := 0 to |r.tasks|
      invariant cur == Sweep(r, max, s, Admissions, i)
      invariant state.Matches(r, cur) && Untouched(r, cur, 2, i)
    {
      PassOver(r, max, s, 2, i);
      UntouchedFacts(r, cur, 2, i);
      var task := r.tasks[i];
      AdmissionIsListed(r, cur, i, state.errors, state.findings, state.admissions, state.gaps, state.testChanges);
      if ListedFor(state.admissions, task.id) { continue; }
      if task.admission.None? { continue; }
      ghost var t := Add(r, cur, Unit(Admissions, i));
      var changes := SelectionChanges(Some(task.id), false, false, false, None, 0);
      var recordBytes := LineCost(AdmissionLine(task));
      AdmissionCounted(r, cur, state.Snapshot(), i);
      Offer(r, max, s, 2, i);
      AdmissionListed(r, cur, i, state.errors, state.findings, state.admissions, state.gaps, state.testChanges);
      var fits := state.CanAdd(fixedBytes, r, max, recordBytes, changes, t);
      if fits {
        state.admissions := state.admissions + [DetailRecord(AdmissionLine(task), Some(task.id))];
        state.CommitSelection(recordBytes, changes);
        cur := t;
      }
    }
    UntouchedNextPhase(r, cur, 2);
  }

  method SelectGaps(r: Receipt, max: nat, fixedBytes: nat, state: ProjectionState, ghost s: Selection)
    requires Accepted(r) && fixedBytes == FixedBytes(r) && Fits(r, s) && state.Matches(r, s) && Untouched(r, s, 3, 0)
    modifies state
    ensures state.Matches(r, Sweep(r, max, s, Gaps, |MaterialGaps(r.exercise)|))
    ensures Untouched(r, Sweep(r, max, s, Gaps, |MaterialGaps(r.exercise)|), 4, 0)
  {
    hide ErrorLine, FindingLine, AdmissionLine, GapLine, TestChangeLine, EvidenceLine, LineCost, DetailBytes, Cost, Add;
    hide Sweep, Consider, Untouched, ListsMatch, ListedFor, CountersMatch, WithinTotals, After;
    hide Linked, NothingFrom, Fits, FixedBytes;
    ghost var cur := s;
    var materialGaps := MaterialGaps(r.exercise);
    for i := 0 to |materialGaps|
      invariant cur == Sweep(r, max, s, Gaps, i)
      invariant state.Matches(r, cur) && Untouched(r, cur, 3, i)
    {
      PassOver(r, max, s, 3, i);
      UntouchedFacts(r, cur, 3, i);
      var line := GapLine(materialGaps[i]);
      ghost var t := Add(r, cur, Unit(Gaps, i));
      var changes := SelectionChanges(None, false, true, false, None, 0);
      GapCounted(r, cur, state.Snapshot(), i);
      Offer(r, max, s, 3, i);
      GapListed(r, cur, i, state.errors, state.findings, state.admissions, state.gaps, state.testChanges);
      var fits := state.CanAdd(fixedBytes, r, max, LineCost(line), changes, t);
      if fits {
        state.gaps := state.gaps + [line];
        state.CommitSelection(LineCost(line), changes);
        cur := t;
      }
    }
    UntouchedNextPhase(r, cur, 3);
  }

  method SelectTestChanges(r: Receipt, max: nat, fixedBytes: nat, state: ProjectionState, ghost s: Selection)
    requires Accepted(r) && fixedBytes == FixedBytes(r) && Fits(r, s) && state.Matches(r, s) && Untouched(r, s, 4, 0)
    modifies state
    ensures state.Matches(r, Sweep(r, max, s, Changes, |r.testChanges|))
    ensures Untouched(r, Sweep(r, max, s, Changes, |r.testChanges|), 5, 0)
  {
    hide ErrorLine, FindingLine, AdmissionLine, GapLine, TestChangeLine, EvidenceLine, LineCost, DetailBytes, Cost, Add;
    hide Sweep, Consider, Untouched, ListsMatch, ListedFor, CountersMatch, WithinTotals, After;
    hide Linked, NothingFrom, Fits, FixedBytes;
    ghost var cur := s;
    for i := 0 to |r.testChanges|
      invariant cur == Sweep(r, max, s, Changes, i)
      invariant state.Matches(r, cur) && Untouched(r, cur, 4, i)
    {
      PassOver(r, max, s, 4, i);
      UntouchedFacts(r, cur, 4, i);
      var line := TestChangeLine(r.testChanges[i]);
      ghost var t := Add(r, cur, Unit(Changes, i));
      var changes := SelectionChanges(None, false, false, true, None, 0);
      ChangeCounted(r, cur, state.Snapshot(), i);
      Offer(r, max, s, 4, i);
      ChangeListed(r, cur, i, state.errors, state.findings, state.admissions, state.gaps, state.testChanges);
      var fits := state.CanAdd(fixedBytes, r, max, LineCost(line), changes, t);
      if fits {
        state.testChanges := state.testChanges + [line];
        state.CommitSelection(LineCost(line), changes);
        cur := t;
      }
    }
    UntouchedNextPhase(r, cur, 4);
  }

  lemma EvidenceIsRecorded(r: Receipt, s: Selection, c: Counters, i: nat)
    requires Accepted(r) && CountersMatch(r, s, c) && i < |r.evidence|
    ensures r.evidence[i].id in c.evidenceIds <==> Has(r, s, Unit(EvidenceRecords, i))
  {
  }

  method SelectEvidence(r: Receipt, max: nat, fixedBytes: nat, state: ProjectionState, ghost s: Selection)
    requires Accepted(r) && fixedBytes == FixedBytes(r) && Fits(r, s) && state.Matches(r, s) && Untouched(r, s, 5, 0)
    modifies state
    ensures state.Matches(r, Sweep(r, max, s, EvidenceRecords, |r.evidence|))
  {
    hide ErrorLine, FindingLine, AdmissionLine, GapLine, TestChangeLine, EvidenceLine, LineCost, DetailBytes, Cost, Add;
    hide Sweep, Consider, Untouched, ListsMatch, ListedFor, CountersMatch, WithinTotals, After;
    hide Linked, NothingFrom, Fits, FixedBytes;
    ghost var cur := s;
    for i := 0 to |r.evidence|
      invariant cur == Sweep(r, max, s, EvidenceRecords, i)
      invariant state.Matches(r, cur) && Untouched(r, cur, 5, i)
    {
      PassOver(r, max, s, 5, i);
      EvidenceIsRecorded(r, cur, state.Snapshot(), i);
      var evidence := r.evidence[i];
      if evidence.id in state.evidenceIds { continue; }
      ghost var t := Add(r, cur, Unit(EvidenceRecords, i));
      var changes := SelectionChanges(None, false, false, false, Some(evidence.id), LineCost(EvidenceLine(evidence)));
      EvidenceCounted(r, cur, state.Snapshot(), i);
      EvidenceListed(r, cur, i, state.errors, state.findings, state.admissions, state.gaps, state.testChanges);
      Offer(r, max, s, 5, i);
      var fits := state.CanAdd(fixedBytes, r, max, 0, changes, t);
      if fits {
        state.CommitSelection(0, changes);
        cur := t;
      }
    }
  }

  lemma {:induction false} PickLast(lines: seq<Str>, m: Mask, i: nat)
    requires |lines| == |m| && i < |m|
    ensures Pick(lines[..i + 1], m[..i + 1]) == Pick(lines[..i], m[..i]) + if m[i] then [lines[i]] else []
  {
    if i > 0 {
      assert lines[..i + 1][1..] == lines[1..][..i] && m[..i + 1][1..] == m[1..][..i];
      assert lines[..i][1..] == lines[1..][..i - 1] && m[..i][1..] == m[1..][..i - 1];
      PickLast(lines[1..], m[1..], i - 1);
    }
  }

  /** renderSelectedProjection: the kept lines class by class, evidence in receipt order, the footer last. */
  method RenderSelectedProjection(r: Receipt, state: ProjectionState, ghost s: Selection) returns (text: Str)
    requires Accepted(r) && state.Matches(r, s)
    ensures text == Render(r, s)
  {
    hide ErrorLine, FindingLine, AdmissionLine, GapLine, TestChangeLine, EvidenceLine, DetailBytes, Header, Summary;
    var fixed := [Header(r), Summary(r)];
    var evidenceLines: seq<Str> := [];
    for i := 0 to |r.evidence|
      invariant evidenceLines == Pick(EvidenceLines(r)[..i], s.evidence[..i])
    {
      PickLast(EvidenceLines(r), s.evidence, i);
      if r.evidence[i].id in state.evidenceIds {
        evidenceLines := evidenceLines + [EvidenceLine(r.evidence[i])];
      }
    }
    assert EvidenceLines(r)[..|r.evidence|] == EvidenceLines(r) && s.evidence[..|r.evidence|] == s.evidence;
    var kept := Lines(state.errors) + Lines(state.findings) + Lines(state.admissions) + state.gaps + state.testChanges +
                evidenceLines;
    assert kept == SelectedLines(r, s);
    var footer := state.OmissionLineOf(r, s);
    text := Join(fixed + kept + [footer], NEWLINE);
  }

  lemma EmptyMatches(r: Receipt)
    requires |r.statusCounts| == 7
    ensures CountersMatch(r, Empty(r), Counters({}, {}, 0, 0, 0, 0, 0)) && Untouched(r, Empty(r), 0, 0)
    ensures SelectedLines(r, Empty(r)) == [] && SelectedAdmissions(r, Empty(r)) == []
  {
    var s := Empty(r);
    PickNothing(ErrorLines(r), s.errors);
    PickNothing(FindingLines(r), s.findings);
    PickNothing(AdmissionLines(r), s.admissions);
    PickNothing(GapLines(r), s.gaps);
    PickNothing(TestChangeLines(r), s.changes);
    PickNothing(EvidenceLines(r), s.evidence);
    PickNothing(AdmissionLines(r), Both(s.admissions, s.errors));
    PickNothing(AdmissionLines(r), Without(s.admissions, s.errors));
    PickNothing(AdmissionLines(r), Either(s.errors, s.admissions));
  }

  /**
   renderReceiptAgent on an accepted receipt. The text is the rendering of the greedy selection and
   fits the budget; it is refused exactly when the identity, summary and omission lines alone do not
   fit; and no omitted candidate could be added within the budget.
   */
  method RenderReceiptAgent(r: Receipt, maxUtf8Bytes: Option<int>) returns (res: Result<Str, RenderError>)
    requires Accepted(r)
    ensures var max := if maxUtf8Bytes.Some? then maxUtf8Bytes.value else AGENT_RECEIPT_MAX_UTF8_BYTES;
            if !(0 < max <= AGENT_RECEIPT_MAX_UTF8_BYTES) then res == Err(BudgetRange)
            else if Utf8Length(Render(r, Empty(r))) > max then res == Err(BudgetExceeded(max))
            else
              && res == Ok(Render(r, Greedy(r, max))) && Utf8Length(res.value) <= max && Linked(r, Greedy(r, max))
              && |Pick(GapLines(r), Greedy(r, max).gaps)| + Omitted(r, Greedy(r, max)).gaps == Unexercised(r.exercise)
              && (forall u | Candidate(r, u) && !Has(r, Greedy(r, max), u) ::
                    Utf8Length(Render(r, Add(r, Greedy(r, max), u))) > max)
  {
    hide Cost, Render, Add, SelectedLines, Header, Summary, Phases, LineCost, OmissionLine, Linked;
    var max := if maxUtf8Bytes.Some? then maxUtf8Bytes.value else AGENT_RECEIPT_MAX_UTF8_BYTES;
    if max <= 0 || max > AGENT_RECEIPT_MAX_UTF8_BYTES { return Err(BudgetRange); }
    var fixedBytes := Utf8Length(Header(r)) + 1 + Utf8Length(Summary(r));
    var state := new ProjectionState();
    EmptyMatches(r);
    EmptyState(r, state);
    EmptyCost(r);
    CostIsRenderedSize(r, Empty(r));
    var base := state.OmissionLineOf(r, Empty(r));
    if fixedBytes + state.lineContributionBytes + LineCost(base) > max { return Err(BudgetExceeded(max)); }
    PhasesUnfold(r, max);
    SelectErrors(r, max, fixedBytes, state, Empty(r));
    SelectFindings(r, max, fixedBytes, state, Phases(r, max, 1));
    SelectAdmissions(r, max, fixedBytes, state, Phases(r, max, 2));
    SelectGaps(r, max, fixedBytes, state, Phases(r, max, 3));
    SelectTestChanges(r, max, fixedBytes, state, Phases(r, max, 4));
    SelectEvidence(r, max, fixedBytes, state, Phases(r, max, 5));
    var rendered := RenderSelectedProjection(r, state, Phases(r, max, 6));
    GreedyRenders(r, max);
    assert Utf8Length(rendered) <= max;
    PickBytes(GapLines(r), Greedy(r, max).gaps);
    GapsAreTheUnexercised(r.exercise);
    PhasesUntouched(r, max, 6);
    res := Ok(rendered);
  }

  /** The rendering of the greedy selection fits, and no candidate could be added to it. */
  lemma GreedyRenders(r: Receipt, max: nat)
    requires Accepted(r) && Utf8Length(Render(r, Empty(r))) <= max
    ensures Utf8Length(Render(r, Greedy(r, max))) <= max
    ensures forall u | Candidate(r, u) && !Has(r, Greedy(r, max), u) ::
              Utf8Length(Render(r, Add(r, Greedy(r, max), u))) > max
  {
    hide Cost, Render, Add, Phases;
    CostIsRenderedSize(r, Empty(r));
    PhasesSettle(r, max, 6);
    CostIsRenderedSize(r, Greedy(r, max));
    forall u | Candidate(r, u) && !Has(r, Greedy(r, max), u)
      ensures Utf8Length(Render(r, Add(r, Greedy(r, max), u))) > max
    {
      GreedyIsMaximal(r, max, u);
    }
  }

  lemma EmptyState(r: Receipt, state: ProjectionState)
    requires |r.statusCounts| == 7 && state.Snapshot() == Counters({}, {}, 0, 0, 0, 0, 0)
    requires state.errors == state.findings == state.admissions == [] && state.gaps == state.testChanges == []
    ensures state.Matches(r, Empty(r))
  {
    var s := Empty(r);
    EmptyMatches(r);
    PickNothing(ErrorLines(r), s.errors);
    PickNothing(FindingLines(r), s.findings);
    PickNothing(GapLines(r), s.gaps);
    PickNothing(TestChangeLines(r), s.changes);
  }

  lemma EmptyCost(r: Receipt)
    requires |r.statusCounts| == 7
    ensures Cost(r, Empty(r)) == FixedBytes(r) + LineCost(OmissionLine(r, Empty(r)))
  {
    hide FixedBytes, LineCost, OmissionLine;
    EmptyMatches(r);
    BytesMatch(r, Empty(r), Counters({}, {}, 0, 0, 0, 0, 0));
  }

  lemma PhasesUnfold(r: Receipt, max: nat)
    requires |r.statusCounts| == 7
    ensures Phases(r, max, 1) == Sweep(r, max, Empty(r), Errors, |r.tasks|)
    ensures Phases(r, max, 2) == Sweep(r, max, Phases(r, max, 1), Findings, |r.findings|)
    ensures Phases(r, max, 3) == Sweep(r, max, Phases(r, max, 2), Admissions, |r.tasks|)
    ensures Phases(r, max, 4) == Sweep(r, max, Phases(r, max, 3), Gaps, |MaterialGaps(r.exercise)|)
    ensures Phases(r, max, 5) == Sweep(r, max, Phases(r, max, 4), Changes, |r.testChanges|)
    ensures Phases(r, max, 6) == Sweep(r, max, Phases(r, max, 5), EvidenceRecords, |r.evidence|)
  {
    hide Cost, Sweep;
    assert Phases(r, max, 0) == Empty(r);
  }
}
