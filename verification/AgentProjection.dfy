/**
 renderReceiptAgent as the program runs it: a mutable projection state, a trial addition that is
 rolled back, and one loop per record class. Its result is the rendering of the greedy selection.
 */
module AgentProjection {
  import opened Wrappers
  import opened Text
  import opened AgentReceipt
  import opened AgentGreedy

  const AGENT_RECEIPT_MAX_UTF8_BYTES: nat := 16 * 1024

  datatype RenderError = BudgetRange | BudgetExceeded(maxUtf8Bytes: nat)

  datatype DetailRecord = DetailRecord(line: Str, taskId: Option<Str>)

  datatype SelectionChanges = SelectionChanges(
    representedTaskId: Option<Str>, finding: bool, gap: bool, testChange: bool,
    evidenceId: Option<Str>, evidenceLineBytes: nat)

  const NO_CHANGES := SelectionChanges(None, false, false, false, None, 0)

  function Lines(records: seq<DetailRecord>): (l: seq<Str>)
    ensures |l| == |records|
  {
    seq(|records|, i requires 0 <= i < |records| => records[i].line)
  }

  predicate ListedFor(records: seq<DetailRecord>, taskId: Str) {
    exists k :: 0 <= k < |records| && records[k].taskId == Some(taskId)
  }

  lemma OneMoreRecord(records: seq<DetailRecord>, rec: DetailRecord)
    ensures Lines(records + [rec]) == Lines(records) + [rec.line]
    ensures forall id :: ListedFor(records + [rec], id) <==> ListedFor(records, id) || rec.taskId == Some(id)
  {
    forall id
      ensures ListedFor(records + [rec], id) <==> ListedFor(records, id) || rec.taskId == Some(id)
    {
      if rec.taskId == Some(id) {
        assert (records + [rec])[|records|].taskId == Some(id);
      } else if ListedFor(records, id) {
        var k :| 0 <= k < |records| && records[k].taskId == Some(id);
        assert (records + [rec])[k].taskId == Some(id);
      }
    }
  }

  // ---------------------------------------------------------------- the counters as a value

  datatype Counters = Counters(
    evidenceIds: set<Str>, representedTaskIds: set<Str>,
    retainedFindings: nat, retainedGaps: nat, retainedTestChanges: nat, retainedEvidence: nat,
    lineContributionBytes: nat)

  function AddOptional(s: set<Str>, x: Option<Str>): set<Str> {
    if x.Some? then s + {x.value} else s
  }

  function One(flag: bool): nat {
    if flag then 1 else 0
  }

  predicate EvidenceIsNew(c: Counters, ch: SelectionChanges) {
    ch.evidenceId.Some? && ch.evidenceId.value !in c.evidenceIds
  }

  /** What committing a selection does to the counters. */
  function After(c: Counters, recordBytes: nat, ch: SelectionChanges): Counters {
    Counters(
      AddOptional(c.evidenceIds, ch.evidenceId),
      AddOptional(c.representedTaskIds, ch.representedTaskId),
      c.retainedFindings + One(ch.finding),
      c.retainedGaps + One(ch.gap),
      c.retainedTestChanges + One(ch.testChange),
      c.retainedEvidence + One(EvidenceIsNew(c, ch)),
      c.lineContributionBytes + recordBytes + (if EvidenceIsNew(c, ch) then ch.evidenceLineBytes else 0))
  }

  predicate WithinTotals(r: Receipt, c: Counters) {
    && |c.representedTaskIds| <= |r.tasks| && c.retainedFindings <= |r.findings|
    && c.retainedGaps <= |MaterialGaps(r.exercise)| && c.retainedTestChanges <= |r.testChanges|
    && c.retainedEvidence <= |r.evidence|
  }

  function CountedOmissions(r: Receipt, c: Counters): Omissions
    requires WithinTotals(r, c)
  {
    Omissions(|r.tasks| - |c.representedTaskIds|, |r.findings| - c.retainedFindings,
              |MaterialGaps(r.exercise)| - c.retainedGaps, |r.testChanges| - c.retainedTestChanges,
              |r.evidence| - c.retainedEvidence)
  }

  /** The counters describe the selection exactly. */
  ghost predicate CountersMatch(r: Receipt, s: Selection, c: Counters) {
    && Fits(r, s)
    && (forall i | 0 <= i < |r.evidence| :: s.evidence[i] <==> r.evidence[i].id in c.evidenceIds)
    && (forall i | 0 <= i < |r.tasks| :: (s.errors[i] || s.admissions[i]) <==> r.tasks[i].id in c.representedTaskIds)
    && |c.representedTaskIds| == Represented(s)
    && c.retainedFindings == Count(s.findings) && c.retainedGaps == Count(s.gaps)
    && c.retainedTestChanges == Count(s.changes) && c.retainedEvidence == Count(s.evidence)
    && c.lineContributionBytes == DetailBytes(r, s)
  }

  lemma MatchedOmissions(r: Receipt, s: Selection, c: Counters)
    requires |r.statusCounts| == 7 && CountersMatch(r, s, c)
    ensures WithinTotals(r, c) && CountedOmissions(r, c) == Omitted(r, s)
  {
  }

  lemma BytesMatch(r: Receipt, s: Selection, c: Counters)
    requires CountersMatch(r, s, c)
    ensures Fits(r, s) && c.lineContributionBytes == DetailBytes(r, s)
  {
  }

  // ---------------------------------------------------------------- one more record in a mask

  lemma {:induction false} SetOne(lines: seq<Str>, m: Mask, i: nat)
    requires |lines| == |m| && i < |m|
    ensures MaskBytes(lines, m[i := true]) == MaskBytes(lines, m) + if m[i] then 0 else LineCost(lines[i])
    ensures Count(m[i := true]) == Count(m) + if m[i] then 0 else 1
  {
    if i > 0 {
      assert m[i := true][1..] == m[1..][i - 1 := true];
      SetOne(lines[1..], m[1..], i - 1);
    } else {
      assert m[0 := true][1..] == m[1..];
    }
  }

  lemma {:induction false} PickOneMore(lines: seq<Str>, m: Mask, i: nat)
    requires |lines| == |m| && i < |m| && NothingFrom(m, i)
    ensures Pick(lines, m[i := true]) == Pick(lines, m) + [lines[i]]
  {
    if i > 0 {
      assert m[i := true][1..] == m[1..][i - 1 := true];
      PickOneMore(lines[1..], m[1..], i - 1);
    } else {
      assert m[0 := true][1..] == m[1..];
      PickNothing(lines, m);
      PickNothing(lines[1..], m[1..]);
    }
  }

  lemma {:induction false} PickNothing(lines: seq<Str>, m: Mask)
    requires |lines| == |m| && NothingFrom(m, 0)
    ensures Pick(lines, m) == [] && Count(m) == 0 && MaskBytes(lines, m) == 0
  {
    if m != [] {
      PickNothing(lines[1..], m[1..]);
    }
  }

  lemma EvidenceKept(r: Receipt, s: Selection, c: Counters, e: nat)
    requires Accepted(r) && CountersMatch(r, s, c) && e < |r.evidence|
    ensures forall i | 0 <= i < |r.evidence| ::
              s.evidence[e := true][i] <==> r.evidence[i].id in c.evidenceIds + {r.evidence[e].id}
    ensures MaskBytes(EvidenceLines(r), s.evidence[e := true]) == MaskBytes(EvidenceLines(r), s.evidence) +
              if r.evidence[e].id in c.evidenceIds then 0 else LineCost(EvidenceLine(r.evidence[e]))
    ensures Count(s.evidence[e := true]) == Count(s.evidence) + if r.evidence[e].id in c.evidenceIds then 0 else 1
  {
    hide ErrorLine, FindingLine, AdmissionLine, GapLine, TestChangeLine, EvidenceLine, LineCost, MaskBytes, Count;
    SetOne(EvidenceLines(r), s.evidence, e);
  }

  lemma TaskRepresented(r: Receipt, s: Selection, c: Counters, errors: Mask, admissions: Mask, i: nat)
    requires Accepted(r) && CountersMatch(r, s, c) && i < |r.tasks| && |errors| == |admissions| == |r.tasks|
    requires Either(errors, admissions) == Either(s.errors, s.admissions)[i := true]
    ensures forall j | 0 <= j < |r.tasks| ::
              (errors[j] || admissions[j]) <==> r.tasks[j].id in c.representedTaskIds + {r.tasks[i].id}
    ensures |c.representedTaskIds + {r.tasks[i].id}| == Count(Either(errors, admissions))
  {
    hide ErrorLine, FindingLine, AdmissionLine, GapLine, TestChangeLine, EvidenceLine, LineCost, MaskBytes, Count;
    var m := Either(s.errors, s.admissions);
    SetOne(TaskIds(r), m, i);
    assert m[i] <==> r.tasks[i].id in c.representedTaskIds;
    forall j | 0 <= j < |r.tasks|
      ensures (errors[j] || admissions[j]) <==> r.tasks[j].id in c.representedTaskIds + {r.tasks[i].id}
    {
      assert Either(errors, admissions)[j] == m[i := true][j];
    }
    if m[i] {
      assert c.representedTaskIds + {r.tasks[i].id} == c.representedTaskIds;
    }
  }

  // ---------------------------------------------------------------- what each loop tries to add

  function ErrorBytes(r: Receipt, i: nat): nat
    requires i < |r.tasks|
  {
    LineCost(ErrorLine(r, i)) + if r.tasks[i].admission.Some? then LineCost(AdmissionLine(r.tasks[i])) else 0
  }

  function WithEvidence(ch: SelectionChanges, e: Evidence): SelectionChanges {
    ch.(evidenceId := Some(e.id), evidenceLineBytes := LineCost(EvidenceLine(e)))
  }

  lemma ErrorCounted(r: Receipt, s: Selection, c: Counters, i: nat)
    requires Accepted(r) && CountersMatch(r, s, c) && Candidate(r, Unit(Errors, i)) && Linked(r, s)
    requires NothingFrom(s.errors, i) && NothingFrom(Without(s.admissions, s.errors), 0)
    ensures CountersMatch(r, Add(r, s, Unit(Errors, i)),
              After(c, ErrorBytes(r, i),
                    WithEvidence(NO_CHANGES.(representedTaskId := Some(r.tasks[i].id)), r.evidence[TaskEvidence(r, i).value])))
  {
    hide ErrorLine, FindingLine, AdmissionLine, GapLine, TestChangeLine, EvidenceLine, LineCost, MaskBytes, Count;
    var t := Add(r, s, Unit(Errors, i));
    EvidenceKept(r, s, c, TaskEvidence(r, i).value);
    SetOne(ErrorLines(r), s.errors, i);
    assert !Without(s.admissions, s.errors)[i];
    SetOne(AdmissionLines(r), s.admissions, i);
    assert Either(t.errors, t.admissions) == Either(s.errors, s.admissions)[i := true];
    TaskRepresented(r, s, c, t.errors, t.admissions, i);
  }

  lemma FindingCounted(r: Receipt, s: Selection, c: Counters, i: nat)
    requires Accepted(r) && CountersMatch(r, s, c) && Candidate(r, Unit(Findings, i)) && !s.findings[i]
    ensures CountersMatch(r, Add(r, s, Unit(Findings, i)),
              After(c, LineCost(FindingLine(r, i)),
                    WithEvidence(NO_CHANGES.(finding := true), r.evidence[FindingEvidence(r, i).value])))
  {
    hide ErrorLine, FindingLine, AdmissionLine, GapLine, TestChangeLine, EvidenceLine, LineCost, MaskBytes, Count;
    EvidenceKept(r, s, c, FindingEvidence(r, i).value);
    SetOne(FindingLines(r), s.findings, i);
  }

  lemma AdmissionCounted(r: Receipt, s: Selection, c: Counters, i: nat)
    requires Accepted(r) && CountersMatch(r, s, c) && Candidate(r, Unit(Admissions, i)) && !s.admissions[i]
    ensures CountersMatch(r, Add(r, s, Unit(Admissions, i)),
              After(c, LineCost(AdmissionLine(r.tasks[i])), NO_CHANGES.(representedTaskId := Some(r.tasks[i].id))))
  {
    hide ErrorLine, FindingLine, AdmissionLine, GapLine, TestChangeLine, EvidenceLine, LineCost, MaskBytes, Count;
    var t := Add(r, s, Unit(Admissions, i));
    SetOne(AdmissionLines(r), s.admissions, i);
    assert Either(t.errors, t.admissions) == Either(s.errors, s.admissions)[i := true];
    TaskRepresented(r, s, c, t.errors, t.admissions, i);
  }

  lemma GapCounted(r: Receipt, s: Selection, c: Counters, i: nat)
    requires Accepted(r) && CountersMatch(r, s, c) && Candidate(r, Unit(Gaps, i)) && !s.gaps[i]
    ensures CountersMatch(r, Add(r, s, Unit(Gaps, i)),
              After(c, LineCost(GapLine(MaterialGaps(r.exercise)[i])), NO_CHANGES.(gap := true)))
  {
    hide ErrorLine, FindingLine, AdmissionLine, GapLine, TestChangeLine, EvidenceLine, LineCost, MaskBytes, Count;
    SetOne(GapLines(r), s.gaps, i);
  }

  lemma ChangeCounted(r: Receipt, s: Selection, c: Counters, i: nat)
    requires Accepted(r) && CountersMatch(r, s, c) && Candidate(r, Unit(Changes, i)) && !s.changes[i]
    ensures CountersMatch(r, Add(r, s, Unit(Changes, i)),
              After(c, LineCost(TestChangeLine(r.testChanges[i])), NO_CHANGES.(testChange := true)))
  {
    hide ErrorLine, FindingLine, AdmissionLine, GapLine, TestChangeLine, EvidenceLine, LineCost, MaskBytes, Count;
    SetOne(TestChangeLines(r), s.changes, i);
  }

  lemma EvidenceCounted(r: Receipt, s: Selection, c: Counters, i: nat)
    requires Accepted(r) && CountersMatch(r, s, c) && Candidate(r, Unit(EvidenceRecords, i)) && !s.evidence[i]
    ensures CountersMatch(r, Add(r, s, Unit(EvidenceRecords, i)), After(c, 0, WithEvidence(NO_CHANGES, r.evidence[i])))
  {
    hide ErrorLine, FindingLine, AdmissionLine, GapLine, TestChangeLine, EvidenceLine, LineCost, MaskBytes, Count;
    EvidenceKept(r, s, c, i);
  }

  /** The collected lines are the lines of the selection, and every listed admission names its task. */
  ghost predicate ListsMatch(r: Receipt, s: Selection, errors: seq<DetailRecord>, findings: seq<DetailRecord>,
                             admissions: seq<DetailRecord>, gaps: seq<Str>, testChanges: seq<Str>)
  {
    && Fits(r, s)
    && Lines(errors) == Pick(ErrorLines(r), s.errors)
    && Lines(findings) == Pick(FindingLines(r), s.findings)
    && Lines(admissions) == SelectedAdmissions(r, s)
    && gaps == Pick(GapLines(r), s.gaps)
    && testChanges == Pick(TestChangeLines(r), s.changes)
    && (forall i | 0 <= i < |r.tasks| :: s.admissions[i] <==> ListedFor(admissions, r.tasks[i].id))
  }

  // ---------------------------------------------------------------- the projection state

  class ProjectionState {
    var errors: seq<DetailRecord>
    var findings: seq<DetailRecord>
    var admissions: seq<DetailRecord>
    var gaps: seq<Str>
    var testChanges: seq<Str>
    var evidenceIds: set<Str>
    var representedTaskIds: set<Str>
    var retainedFindings: nat
    var retainedGaps: nat
    var retainedTestChanges: nat
    var retainedEvidence: nat
    var lineContributionBytes: nat

    constructor ()
      ensures errors == findings == admissions == [] && gaps == testChanges == []
      ensures Snapshot() == Counters({}, {}, 0, 0, 0, 0, 0)
    {
      errors, findings, admissions, gaps, testChanges := [], [], [], [], [];
      evidenceIds, representedTaskIds := {}, {};
      retainedFindings, retainedGaps, retainedTestChanges, retainedEvidence := 0, 0, 0, 0;
      lineContributionBytes := 0;
    }

    function Snapshot(): Counters
      reads this
    {
      Counters(evidenceIds, representedTaskIds, retainedFindings, retainedGaps, retainedTestChanges, retainedEvidence,
               lineContributionBytes)
    }

    /** The state is the selection: same lines, same counts, and the bytes those lines take. */
    ghost predicate Matches(r: Receipt, s: Selection)
      reads this
    {
      ListsMatch(r, s, errors, findings, admissions, gaps, testChanges) && CountersMatch(r, s, Snapshot())
    }

    /** The footer of the selection that the counters describe. */
    method OmissionLineOf(r: Receipt, ghost s: Selection) returns (line: Str)
      requires |r.statusCounts| == 7 && CountersMatch(r, s, Snapshot())
      ensures line == OmissionLine(r, s)
    {
      hide OmissionText;
      MatchedOmissions(r, s, Snapshot());
      line := OmissionText(Omissions(
        |r.tasks| - |representedTaskIds|, |r.findings| - retainedFindings, |MaterialGaps(r.exercise)| - retainedGaps,
        |r.testChanges| - retainedTestChanges, |r.evidence| - retainedEvidence));
    }

    /** The first half of a trial: makes the changes and remembers which ids were new. */
    method ApplyTrial(recordLineBytes: nat, changes: SelectionChanges) returns (taskWasNew: bool, evidenceWasNew: bool)
      modifies this`lineContributionBytes, this`representedTaskIds, this`retainedFindings, this`retainedGaps
      modifies this`retainedTestChanges, this`evidenceIds, this`retainedEvidence
      ensures Snapshot() == After(old(Snapshot()), recordLineBytes, changes)
      ensures taskWasNew == (changes.representedTaskId.Some? && changes.representedTaskId.value !in old(representedTaskIds))
      ensures evidenceWasNew == EvidenceIsNew(old(Snapshot()), changes)
    {
      taskWasNew := changes.representedTaskId.Some? && changes.representedTaskId.value !in representedTaskIds;
      evidenceWasNew := changes.evidenceId.Some? && changes.evidenceId.value !in evidenceIds;
      ghost var before := Snapshot();
      if taskWasNew { representedTaskIds := representedTaskIds + {changes.representedTaskId.value}; }
      assert representedTaskIds == AddOptional(before.representedTaskIds, changes.representedTaskId);
      retainedFindings := retainedFindings + One(changes.finding);
      retainedGaps := retainedGaps + One(changes.gap);
      retainedTestChanges := retainedTestChanges + One(changes.testChange);
      if evidenceWasNew { evidenceIds := evidenceIds + {changes.evidenceId.value}; }
      assert evidenceIds == AddOptional(before.evidenceIds, changes.evidenceId);
      retainedEvidence := retainedEvidence + One(evidenceWasNew);
      var evidenceBytes := if evidenceWasNew then changes.evidenceLineBytes else 0;
      lineContributionBytes := lineContributionBytes + recordLineBytes + evidenceBytes;
    }

    /** The second half: takes every change back. */
    method UndoTrial(recordLineBytes: nat, changes: SelectionChanges, taskWasNew: bool, evidenceWasNew: bool,
                     ghost before: Counters)
      requires Snapshot() == After(before, recordLineBytes, changes)
      requires taskWasNew == (changes.representedTaskId.Some? && changes.representedTaskId.value !in before.representedTaskIds)
      requires evidenceWasNew == EvidenceIsNew(before, changes)
      modifies this`lineContributionBytes, this`representedTaskIds, this`retainedFindings, this`retainedGaps
      modifies this`retainedTestChanges, this`evidenceIds, this`retainedEvidence
      ensures Snapshot() == before
    {
      var evidenceBytes := if evidenceWasNew then changes.evidenceLineBytes else 0;
      lineContributionBytes := lineContributionBytes - (recordLineBytes + evidenceBytes);
      if evidenceWasNew { evidenceIds := evidenceIds - {changes.evidenceId.value}; }
      retainedEvidence := retainedEvidence - One(evidenceWasNew);
      retainedTestChanges := retainedTestChanges - One(changes.testChange);
      retainedGaps := retainedGaps - One(changes.gap);
      retainedFindings := retainedFindings - One(changes.finding);
      if taskWasNew { representedTaskIds := representedTaskIds - {changes.representedTaskId.value}; }
      assert evidenceIds == before.evidenceIds && representedTaskIds == before.representedTaskIds;
    }

    /**
     Tries the changes on the state itself, measures, and takes every one of them back: does the
     selection that the changes lead to fit?
     */
    method CanAdd(fixedBytes: nat, r: Receipt, maxUtf8Bytes: nat, recordLineBytes: nat, changes: SelectionChanges,
                  ghost grown: Selection)
      returns (fits: bool)
      requires |r.statusCounts| == 7 && fixedBytes == FixedBytes(r)
      requires CountersMatch(r, grown, After(Snapshot(), recordLineBytes, changes))
      modifies this`lineContributionBytes, this`representedTaskIds, this`retainedFindings, this`retainedGaps
      modifies this`retainedTestChanges, this`evidenceIds, this`retainedEvidence
      ensures Snapshot() == old(Snapshot())
      ensures fits <==> Cost(r, grown) <= maxUtf8Bytes
    {
      hide OmissionLine, LineCost, MaterialGaps, FixedBytes, CountersMatch, After, Represented;
      BytesMatch(r, grown, After(Snapshot(), recordLineBytes, changes));
      ghost var before := Snapshot();
      var taskWasNew, evidenceWasNew := ApplyTrial(recordLineBytes, changes);
      var footer := OmissionLineOf(r, grown);
      fits := fixedBytes + lineContributionBytes + LineCost(footer) <= maxUtf8Bytes;
      UndoTrial(recordLineBytes, changes, taskWasNew, evidenceWasNew, before);
    }

    method CommitSelection(recordLineBytes: nat, changes: SelectionChanges)
      modifies this`lineContributionBytes, this`representedTaskIds, this`retainedFindings, this`retainedGaps
      modifies this`retainedTestChanges, this`evidenceIds, this`retainedEvidence
      ensures Snapshot() == After(old(Snapshot()), recordLineBytes, changes)
    {
      lineContributionBytes := lineContributionBytes + recordLineBytes;
      if changes.representedTaskId.Some? {
        representedTaskIds := representedTaskIds + {changes.representedTaskId.value};
      }
      retainedFindings := retainedFindings + One(changes.finding);
      retainedGaps := retainedGaps + One(changes.gap);
      retainedTestChanges := retainedTestChanges + One(changes.testChange);
      if changes.evidenceId.Some? && changes.evidenceId.value !in evidenceIds {
        evidenceIds := evidenceIds + {changes.evidenceId.value};
        retainedEvidence := retainedEvidence + 1;
        lineContributionBytes := lineContributionBytes + changes.evidenceLineBytes;
      }
      assert AddOptional(old(evidenceIds), changes.evidenceId) == evidenceIds;
    }
  }
}
