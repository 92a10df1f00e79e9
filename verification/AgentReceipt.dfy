/**
 The receipt as the agent projection reads it, the text of every record line, and the projection
 as a function of what has been selected: which lines are printed, what the omission footer says
 and how many UTF-8 bytes the whole text takes.
 */
module AgentReceipt {
  import opened Wrappers
  import opened Text
  import opened AgentFields

  /** `admission` names a non-normal execution admission; enumerated fields are kept as spelled. */
  datatype Task = Task(id: Str, isError: bool, reason: Option<Str>, evidenceIds: seq<Str>,
                       admission: Option<Str>, authority: seq<Str>)

  datatype Finding = Finding(id: Str, task: Str, severity: Str, evidenceIds: seq<Str>)

  datatype ExerciseState = Exercised | NotExercised | Unresolved

  datatype ExerciseRecord = ExerciseRecord(state: ExerciseState, path: Str, line: nat, reason: Option<Str>)

  datatype TestChange = TestChange(kind: Str, path: Str)

  datatype Evidence = Evidence(id: Str, task: Str, kind: Str)

  datatype Receipt = Receipt(
    repositoryId: Str, headSha: Str, stability: Str, completeness: Str, exitCode: nat, statusCounts: seq<nat>,
    tasks: seq<Task>, findings: seq<Finding>, exercise: seq<ExerciseRecord>,
    testChanges: seq<TestChange>, evidence: seq<Evidence>)

  /** What receipt acceptance guarantees and the projection relies on. */
  ghost predicate Accepted(r: Receipt) {
    && |r.statusCounts| == 7
    && (forall i, j | 0 <= i < j < |r.tasks| :: r.tasks[i].id != r.tasks[j].id)
    && (forall i, j | 0 <= i < j < |r.evidence| :: r.evidence[i].id != r.evidence[j].id)
    && (forall i | 0 <= i < |r.tasks| :: r.tasks[i].admission.Some? ==> r.tasks[i].authority != [])
  }

  // ---------------------------------------------------------------- candidates

  /** The map from evidence ids to evidence: a later entry would replace an earlier one. */
  function EvidenceIndex(evidence: seq<Evidence>, id: Str): (r: Option<nat>)
    ensures r.Some? ==> r.value < |evidence| && evidence[r.value].id == id
    ensures r.None? ==> forall e | e in evidence :: e.id != id
  {
    if evidence == [] then None
    else if evidence[|evidence| - 1].id == id then Some(|evidence| - 1)
    else EvidenceIndex(evidence[..|evidence| - 1], id)
  }

  /** The first listed evidence that belongs to a task. */
  function FirstOwnedEvidence(evidence: seq<Evidence>, task: Str, ids: seq<Str>): (r: Option<nat>)
    ensures r.Some? ==> r.value < |evidence| && evidence[r.value].task == task && evidence[r.value].id in ids
  {
    if ids == [] then None
    else
      var e := EvidenceIndex(evidence, ids[0]);
      if e.Some? && evidence[e.value].task == task then e else FirstOwnedEvidence(evidence, task, ids[1..])
  }

  function TaskEvidence(r: Receipt, i: nat): (e: Option<nat>)
    requires i < |r.tasks|
    ensures e.Some? ==> e.value < |r.evidence|
  {
    FirstOwnedEvidence(r.evidence, r.tasks[i].id, r.tasks[i].evidenceIds)
  }

  function FindingEvidence(r: Receipt, i: nat): (e: Option<nat>)
    requires i < |r.findings|
    ensures e.Some? ==> e.value < |r.evidence|
  {
    FirstOwnedEvidence(r.evidence, r.findings[i].task, r.findings[i].evidenceIds)
  }

  function MaterialGaps(records: seq<ExerciseRecord>): seq<ExerciseRecord> {
    if records == [] then []
    else (if records[0].state.Exercised? then [] else [records[0]]) + MaterialGaps(records[1..])
  }

  /** The positions of the records that are not exercised or unresolved, in order. */
  ghost predicate ArePositionsOfGaps(positions: seq<nat>, records: seq<ExerciseRecord>) {
    && (forall k | 0 <= k < |positions| :: positions[k] < |records|)
    && (forall j, k | 0 <= j < k < |positions| :: positions[j] < positions[k])
    && forall i | 0 <= i < |records| ::
         i in positions <==> records[i].state == NotExercised || records[i].state == Unresolved
  }

  /** How many records are not exercised. */
  function Unexercised(records: seq<ExerciseRecord>): nat {
    |set i | 0 <= i < |records| && records[i].state != Exercised|
  }

  lemma {:induction false} MaterialGapsSnoc(records: seq<ExerciseRecord>, last: ExerciseRecord)
    ensures MaterialGaps(records + [last]) == MaterialGaps(records) + if last.state.Exercised? then [] else [last]
  {
    if records != [] {
      assert (records + [last])[1..] == records[1..] + [last];
      MaterialGapsSnoc(records[1..], last);
    }
  }

  /** The material gaps are the records at these positions, each once, in order. */
  lemma {:induction false} GapsArePositions(records: seq<ExerciseRecord>) returns (positions: seq<nat>)
    ensures ArePositionsOfGaps(positions, records)
    ensures |MaterialGaps(records)| == |positions|
    ensures forall k | 0 <= k < |positions| :: MaterialGaps(records)[k] == records[positions[k]]
  {
    if records == [] {
      positions := [];
    } else {
      var n := |records| - 1;
      positions := GapsArePositions(records[..n]);
      assert records == records[..n] + [records[n]];
      MaterialGapsSnoc(records[..n], records[n]);
      hide MaterialGaps;
      if !records[n].state.Exercised? {
        positions := positions + [n];
        assert positions[|positions| - 1] == n;
      }
    }
  }

  lemma {:induction false} IncreasingSize(positions: seq<int>, chosen: set<int>)
    requires forall j, k | 0 <= j < k < |positions| :: positions[j] < positions[k]
    requires forall i :: i in chosen <==> i in positions
    ensures |chosen| == |positions|
  {
    if positions == [] {
      assert forall i :: i in chosen ==> i in positions;
      assert chosen == {};
    } else {
      var rest, last := positions[..|positions| - 1], positions[|positions| - 1];
      IncreasingSize(rest, chosen - {last});
    }
  }

  /** There are as many material gaps as records that are not exercised. */
  lemma GapsAreTheUnexercised(records: seq<ExerciseRecord>)
    ensures |MaterialGaps(records)| == Unexercised(records)
  {
    var positions := GapsArePositions(records);
    IncreasingSize(positions, set i | 0 <= i < |records| && records[i].state != Exercised);
  }

  // ---------------------------------------------------------------- record lines

  function EvidenceIdOf(r: Receipt, e: Option<nat>): Str
    requires e.Some? ==> e.value < |r.evidence|
  {
    if e.Some? then r.evidence[e.value].id else []
  }

  function ErrorLine(r: Receipt, i: nat): Str
    requires i < |r.tasks|
  {
    var t := r.tasks[i];
    Lit("ERROR task=") + Encode(t.id) +
    Lit(" reason=") + Encode(if t.reason.Some? then t.reason.value else Lit("unknown")) +
    Lit(" evidence=") + Encode(EvidenceIdOf(r, TaskEvidence(r, i)))
  }

  function FindingLine(r: Receipt, i: nat): Str
    requires i < |r.findings|
  {
    var f := r.findings[i];
    Lit("FINDING id=") + Encode(f.id) + Lit(" task=") + Encode(f.task) + Lit(" severity=") + f.severity +
    Lit(" evidence=") + Encode(EvidenceIdOf(r, FindingEvidence(r, i)))
  }

  function AdmissionLine(t: Task): Str {
    Lit("ADMISSION task=") + Encode(t.id) +
    Lit(" state=") + (if t.admission.Some? then t.admission.value else []) +
    Lit(" authority=") + AuthorityField(t.authority)
  }

  function GapLine(g: ExerciseRecord): Str {
    var base := Lit("GAP kind=") + Lit(if g.state.NotExercised? then "NOT_EXERCISED" else "UNRESOLVED") +
                Lit(" path=") + Encode(g.path) + Lit(" line=") + Decimal(g.line);
    if g.state.NotExercised? then base
    else base + Lit(" reason=") + Encode(if g.reason.Some? then g.reason.value else Lit("unknown"))
  }

  function TestChangeLine(c: TestChange): Str {
    Lit("TEST_CHANGE kind=") + c.kind + Lit(" path=") + Encode(c.path)
  }

  function EvidenceLine(e: Evidence): Str {
    Lit("EVIDENCE id=") + Encode(e.id) + Lit(" task=") + Encode(e.task) + Lit(" kind=") + e.kind
  }

  function Header(r: Receipt): Str {
    Lit("ASCOUT_AGENT_V1 repo=") + Encode(r.repositoryId) + Lit(" head=") + r.headSha + Lit(" stability=") + r.stability
  }

  const STATUS_ORDER: seq<string> := ["PASS", "FAIL", "FLAKY", "BLOCKED", "ERROR", "NOT_APPLICABLE", "NOT_RUN"]

  function StatusFields(counts: seq<nat>): seq<Str>
    requires |counts| == 7
  {
    seq(7, i requires 0 <= i < 7 => Lit(STATUS_ORDER[i]) + Lit("=") + Decimal(counts[i]))
  }

  function Summary(r: Receipt): Str
    requires |r.statusCounts| == 7
  {
    Join([Lit("SUMMARY"),
          Lit("completeness=") + r.completeness,
          Lit("exit=") + Decimal(r.exitCode),
          Lit("tasks=") + Decimal(|r.tasks|),
          Lit("findings=") + Decimal(|r.findings|),
          Lit("exercise_gaps=") + Decimal(|MaterialGaps(r.exercise)|),
          Lit("test_changes=") + Decimal(|r.testChanges|),
          Lit("evidence=") + Decimal(|r.evidence|)] + StatusFields(r.statusCounts), SPACE)
  }

  function ErrorLines(r: Receipt): (l: seq<Str>)
    ensures |l| == |r.tasks|
  {
    seq(|r.tasks|, i requires 0 <= i < |r.tasks| => ErrorLine(r, i))
  }

  function TaskIds(r: Receipt): (l: seq<Str>)
    ensures |l| == |r.tasks| && forall i | 0 <= i < |l| :: l[i] == r.tasks[i].id
  {
    seq(|r.tasks|, i requires 0 <= i < |r.tasks| => r.tasks[i].id)
  }

  function FindingLines(r: Receipt): (l: seq<Str>)
    ensures |l| == |r.findings|
  {
    seq(|r.findings|, i requires 0 <= i < |r.findings| => FindingLine(r, i))
  }

  function AdmissionLines(r: Receipt): (l: seq<Str>)
    ensures |l| == |r.tasks|
  {
    seq(|r.tasks|, i requires 0 <= i < |r.tasks| => AdmissionLine(r.tasks[i]))
  }

  function GapLines(r: Receipt): (l: seq<Str>)
    ensures |l| == |MaterialGaps(r.exercise)|
  {
    var g := MaterialGaps(r.exercise);
    seq(|g|, i requires 0 <= i < |g| => GapLine(g[i]))
  }

  function TestChangeLines(r: Receipt): (l: seq<Str>)
    ensures |l| == |r.testChanges|
  {
    seq(|r.testChanges|, i requires 0 <= i < |r.testChanges| => TestChangeLine(r.testChanges[i]))
  }

  function EvidenceLines(r: Receipt): (l: seq<Str>)
    ensures |l| == |r.evidence|
  {
    seq(|r.evidence|, i requires 0 <= i < |r.evidence| => EvidenceLine(r.evidence[i]))
  }

  // ---------------------------------------------------------------- selections

  type Mask = seq<bool>

  /** Which records of each class have been kept, by position in the receipt. */
  datatype Selection = Selection(errors: Mask, findings: Mask, admissions: Mask, gaps: Mask, changes: Mask, evidence: Mask)

  function NoneOf(n: nat): (m: Mask)
    ensures |m| == n && forall i | 0 <= i < n :: !m[i]
  {
    seq(n, _ => false)
  }

  function Empty(r: Receipt): Selection {
    Selection(NoneOf(|r.tasks|), NoneOf(|r.findings|), NoneOf(|r.tasks|), NoneOf(|MaterialGaps(r.exercise)|),
              NoneOf(|r.testChanges|), NoneOf(|r.evidence|))
  }

  predicate Fits(r: Receipt, s: Selection) {
    && |s.errors| == |r.tasks| && |s.findings| == |r.findings| && |s.admissions| == |r.tasks|
    && |s.gaps| == |MaterialGaps(r.exercise)| && |s.changes| == |r.testChanges| && |s.evidence| == |r.evidence|
  }

  function Count(m: Mask): (n: nat)
    ensures n <= |m|
  {
    if m == [] then 0 else (if m[0] then 1 else 0) + Count(m[1..])
  }

  function Pick(lines: seq<Str>, m: Mask): seq<Str>
    requires |lines| == |m|
  {
    if m == [] then [] else (if m[0] then [lines[0]] else []) + Pick(lines[1..], m[1..])
  }

  function Either(a: Mask, b: Mask): (m: Mask)
    requires |a| == |b|
    ensures |m| == |a| && forall i | 0 <= i < |a| :: m[i] == (a[i] || b[i])
  {
    seq(|a|, i requires 0 <= i < |a| => a[i] || b[i])
  }

  function Both(a: Mask, b: Mask): (m: Mask)
    requires |a| == |b|
    ensures |m| == |a| && forall i | 0 <= i < |a| :: m[i] == (a[i] && b[i])
  {
    seq(|a|, i requires 0 <= i < |a| => a[i] && b[i])
  }

  function Without(a: Mask, b: Mask): (m: Mask)
    requires |a| == |b|
    ensures |m| == |a| && forall i | 0 <= i < |a| :: m[i] == (a[i] && !b[i])
  {
    seq(|a|, i requires 0 <= i < |a| => a[i] && !b[i])
  }

  // ---------------------------------------------------------------- the projection of a selection

  /** The five numbers of the omission footer. */
  datatype Omissions = Omissions(tasks: nat, findings: nat, gaps: nat, changes: nat, evidence: nat)

  function OmissionText(o: Omissions): Str {
    Lit("OMITTED") +
    (Lit(" tasks=") + Decimal(o.tasks)) +
    (Lit(" findings=") + Decimal(o.findings)) +
    (Lit(" exercise_gaps=") + Decimal(o.gaps)) +
    (Lit(" test_changes=") + Decimal(o.changes)) +
    (Lit(" evidence=") + Decimal(o.evidence))
  }

  /** Tasks with at least one ERROR or ADMISSION line. */
  function Represented(s: Selection): nat
    requires |s.errors| == |s.admissions|
  {
    Count(Either(s.errors, s.admissions))
  }

  function Omitted(r: Receipt, s: Selection): Omissions
    requires Fits(r, s)
  {
    Omissions(|r.tasks| - Represented(s), |r.findings| - Count(s.findings),
              |MaterialGaps(r.exercise)| - Count(s.gaps), |r.testChanges| - Count(s.changes),
              |r.evidence| - Count(s.evidence))
  }

  function OmissionLine(r: Receipt, s: Selection): Str
    requires Fits(r, s)
  {
    OmissionText(Omitted(r, s))
  }

  /** Admissions paired with a kept error come first, in task order, then the others in task order. */
  function SelectedAdmissions(r: Receipt, s: Selection): seq<Str>
    requires Fits(r, s)
  {
    Pick(AdmissionLines(r), Both(s.admissions, s.errors)) + Pick(AdmissionLines(r), Without(s.admissions, s.errors))
  }

  function SelectedLines(r: Receipt, s: Selection): seq<Str>
    requires Fits(r, s)
  {
    Pick(ErrorLines(r), s.errors) +
    Pick(FindingLines(r), s.findings) +
    SelectedAdmissions(r, s) +
    Pick(GapLines(r), s.gaps) +
    Pick(TestChangeLines(r), s.changes) +
    Pick(EvidenceLines(r), s.evidence)
  }

  function ProjectionLines(r: Receipt, s: Selection): seq<Str>
    requires Fits(r, s) && |r.statusCounts| == 7
  {
    [Header(r), Summary(r)] + SelectedLines(r, s) + [OmissionLine(r, s)]
  }

  /** The text the agent sees when exactly `s` is kept. */
  function Render(r: Receipt, s: Selection): Str
    requires Fits(r, s) && |r.statusCounts| == 7
  {
    Join(ProjectionLines(r, s), NEWLINE)
  }

  // ---------------------------------------------------------------- its size

  function FixedBytes(r: Receipt): nat
    requires |r.statusCounts| == 7
  {
    Utf8Length(Header(r)) + 1 + Utf8Length(Summary(r))
  }

  function LineCost(line: Str): nat {
    1 + Utf8Length(line)
  }

  function MaskBytes(lines: seq<Str>, m: Mask): nat
    requires |lines| == |m|
  {
    if m == [] then 0 else (if m[0] then LineCost(lines[0]) else 0) + MaskBytes(lines[1..], m[1..])
  }

  function DetailBytes(r: Receipt, s: Selection): nat
    requires Fits(r, s)
  {
    MaskBytes(ErrorLines(r), s.errors) + MaskBytes(FindingLines(r), s.findings) +
    MaskBytes(AdmissionLines(r), s.admissions) + MaskBytes(GapLines(r), s.gaps) +
    MaskBytes(TestChangeLines(r), s.changes) + MaskBytes(EvidenceLines(r), s.evidence)
  }

  function Cost(r: Receipt, s: Selection): nat
    requires Fits(r, s) && |r.statusCounts| == 7
  {
    FixedBytes(r) + DetailBytes(r, s) + LineCost(OmissionLine(r, s))
  }

  lemma {:induction false} PickBytes(lines: seq<Str>, m: Mask)
    requires |lines| == |m|
    ensures LineBytes(Pick(lines, m)) == MaskBytes(lines, m)
    ensures |Pick(lines, m)| == Count(m)
  {
    if m != [] {
      PickBytes(lines[1..], m[1..]);
      LineBytesConcat(if m[0] then [lines[0]] else [], Pick(lines[1..], m[1..]));
    }
  }

  lemma {:induction false} SplitMaskBytes(lines: seq<Str>, a: Mask, b: Mask)
    requires |lines| == |a| == |b|
    ensures MaskBytes(lines, a) == MaskBytes(lines, Both(a, b)) + MaskBytes(lines, Without(a, b))
    ensures Count(a) == Count(Both(a, b)) + Count(Without(a, b))
  {
    if a != [] {
      assert Both(a, b)[1..] == Both(a[1..], b[1..]);
      assert Without(a, b)[1..] == Without(a[1..], b[1..]);
      SplitMaskBytes(lines[1..], a[1..], b[1..]);
    }
  }

  lemma SelectedBytes(r: Receipt, s: Selection)
    requires Fits(r, s)
    ensures LineBytes(SelectedLines(r, s)) == DetailBytes(r, s)
  {
    var e, f, g := Pick(ErrorLines(r), s.errors), Pick(FindingLines(r), s.findings), Pick(GapLines(r), s.gaps);
    var c, v := Pick(TestChangeLines(r), s.changes), Pick(EvidenceLines(r), s.evidence);
    var a1 := Pick(AdmissionLines(r), Both(s.admissions, s.errors));
    var a2 := Pick(AdmissionLines(r), Without(s.admissions, s.errors));
    PickBytes(ErrorLines(r), s.errors);
    PickBytes(FindingLines(r), s.findings);
    PickBytes(GapLines(r), s.gaps);
    PickBytes(TestChangeLines(r), s.changes);
    PickBytes(EvidenceLines(r), s.evidence);
    PickBytes(AdmissionLines(r), Both(s.admissions, s.errors));
    PickBytes(AdmissionLines(r), Without(s.admissions, s.errors));
    SplitMaskBytes(AdmissionLines(r), s.admissions, s.errors);
    LineBytesConcat(e, f);
    LineBytesConcat(a1, a2);
    LineBytesConcat(e + f, a1 + a2);
    LineBytesConcat(e + f + (a1 + a2), g);
    LineBytesConcat(e + f + (a1 + a2) + g, c);
    LineBytesConcat(e + f + (a1 + a2) + g + c, v);
  }

  /** The accounting formula is the UTF-8 size of the rendered text, for every selection. */
  lemma CostIsRenderedSize(r: Receipt, s: Selection)
    requires Fits(r, s) && |r.statusCounts| == 7
    ensures Utf8Length(Render(r, s)) == Cost(r, s)
  {
    var fixed, footer := [Header(r), Summary(r)], [OmissionLine(r, s)];
    JoinedBytes(ProjectionLines(r, s));
    LineBytesConcat(fixed + SelectedLines(r, s), footer);
    LineBytesConcat(fixed, SelectedLines(r, s));
    LineBytesConcat([Header(r)], [Summary(r)]);
    assert fixed == [Header(r)] + [Summary(r)];
    SelectedBytes(r, s);
  }

  // ---------------------------------------------------------------- growth

  predicate Below(a: Mask, b: Mask) {
    |a| == |b| && forall i | 0 <= i < |a| :: a[i] ==> b[i]
  }

  predicate Within(a: Selection, b: Selection) {
    && Below(a.errors, b.errors) && Below(a.findings, b.findings) && Below(a.admissions, b.admissions)
    && Below(a.gaps, b.gaps) && Below(a.changes, b.changes) && Below(a.evidence, b.evidence)
  }

  /** Every record line costs at least two bytes. */
  predicate Costly(lines: seq<Str>) {
    forall i | 0 <= i < |lines| :: LineCost(lines[i]) >= 2
  }

  lemma {:induction false} MaskGrowth(lines: seq<Str>, a: Mask, b: Mask)
    requires |lines| == |a| && Below(a, b) && Costly(lines)
    ensures Count(a) <= Count(b)
    ensures MaskBytes(lines, a) + 2 * (Count(b) - Count(a)) <= MaskBytes(lines, b)
  {
    if a != [] {
      MaskGrowth(lines[1..], a[1..], b[1..]);
    }
  }

  lemma {:induction false} EitherGrowth(a: Mask, b: Mask, c: Mask, d: Mask)
    requires |a| == |b| && Below(a, c) && Below(b, d)
    ensures Count(a) <= Count(c) && Count(b) <= Count(d)
    ensures Count(Either(a, b)) <= Count(Either(c, d)) <= Count(Either(a, b)) + (Count(c) - Count(a)) + (Count(d) - Count(b))
  {
    if a != [] {
      assert Either(a, b)[1..] == Either(a[1..], b[1..]);
      assert Either(c, d)[1..] == Either(c[1..], d[1..]);
      EitherGrowth(a[1..], b[1..], c[1..], d[1..]);
    }
  }

  lemma NonEmptyCosts(s: Str)
    requires s != []
    ensures LineCost(s) >= 2
  {
  }

  lemma LinesAreCostly(r: Receipt)
    ensures Costly(ErrorLines(r)) && Costly(FindingLines(r)) && Costly(AdmissionLines(r))
    ensures Costly(GapLines(r)) && Costly(TestChangeLines(r)) && Costly(EvidenceLines(r))
  {
    forall l | l in ErrorLines(r) + FindingLines(r) + AdmissionLines(r) ensures LineCost(l) >= 2 {
      NonEmptyCosts(l);
    }
    forall l | l in GapLines(r) + TestChangeLines(r) + EvidenceLines(r) ensures LineCost(l) >= 2 {
      NonEmptyCosts(l);
    }
  }

  function OmissionDigits(o: Omissions): nat {
    |Decimal(o.tasks)| + |Decimal(o.findings)| + |Decimal(o.gaps)| + |Decimal(o.changes)| + |Decimal(o.evidence)|
  }

  function OmissionTotal(o: Omissions): nat {
    o.tasks + o.findings + o.gaps + o.changes + o.evidence
  }

  lemma OmissionSize(o: Omissions)
    ensures LineCost(OmissionText(o)) == 64 + OmissionDigits(o)
  {
    AsciiBytes(OmissionText(o));
  }

  /** Lowering the omitted numbers shortens the footer by at most the amount they drop. */
  lemma OmissionShrinks(o: Omissions, p: Omissions)
    requires p.tasks <= o.tasks && p.findings <= o.findings && p.gaps <= o.gaps
    requires p.changes <= o.changes && p.evidence <= o.evidence
    ensures LineCost(OmissionText(o)) + OmissionTotal(p) <= LineCost(OmissionText(p)) + OmissionTotal(o)
  {
    OmissionSize(o);
    OmissionSize(p);
    DecimalShrinks(o.tasks, o.tasks - p.tasks);
    DecimalShrinks(o.findings, o.findings - p.findings);
    DecimalShrinks(o.gaps, o.gaps - p.gaps);
    DecimalShrinks(o.changes, o.changes - p.changes);
    DecimalShrinks(o.evidence, o.evidence - p.evidence);
  }

  /**
   Keeping more always costs more, by at least one byte for every record added, although every
   number in the omission footer may lose digits.
   */
  lemma CostGrows(r: Receipt, a: Selection, b: Selection)
    requires Fits(r, a) && |r.statusCounts| == 7 && Within(a, b)
    ensures Fits(r, b) && Cost(r, b) - Cost(r, a) >= Kept(b) - Kept(a)
    ensures if a == b then Kept(a) == Kept(b) else Kept(a) < Kept(b)
  {
    LinesAreCostly(r);
    MaskGrowth(ErrorLines(r), a.errors, b.errors);
    MaskGrowth(FindingLines(r), a.findings, b.findings);
    MaskGrowth(AdmissionLines(r), a.admissions, b.admissions);
    MaskGrowth(GapLines(r), a.gaps, b.gaps);
    MaskGrowth(TestChangeLines(r), a.changes, b.changes);
    MaskGrowth(EvidenceLines(r), a.evidence, b.evidence);
    EitherGrowth(a.errors, a.admissions, b.errors, b.admissions);
    FooterShrinks(r, a, b);
    if a != b {
      SomeCountGrows(a, b);
    }
  }

  function Kept(s: Selection): nat {
    Count(s.errors) + Count(s.findings) + Count(s.admissions) + Count(s.gaps) + Count(s.changes) + Count(s.evidence)
  }

  lemma FooterShrinks(r: Receipt, a: Selection, b: Selection)
    requires Fits(r, a) && Fits(r, b) && Within(a, b)
    ensures LineCost(OmissionLine(r, a)) + Kept(a) <= LineCost(OmissionLine(r, b)) + Kept(b)
  {
    EitherGrowth(a.errors, a.admissions, b.errors, b.admissions);
    EqualCounts(a.findings, b.findings);
    EqualCounts(a.gaps, b.gaps);
    EqualCounts(a.changes, b.changes);
    EqualCounts(a.evidence, b.evidence);
    OmissionShrinks(Omitted(r, a), Omitted(r, b));
  }

  lemma {:induction false} EqualCounts(a: Mask, b: Mask)
    requires Below(a, b)
    ensures Count(a) <= Count(b)
    ensures Count(a) == Count(b) ==> a == b
  {
    if a != [] {
      EqualCounts(a[1..], b[1..]);
      assert a == [a[0]] + a[1..] && b == [b[0]] + b[1..];
    }
  }

  lemma SomeCountGrows(a: Selection, b: Selection)
    requires Within(a, b) && a != b
    ensures Kept(a) < Kept(b)
  {
    EqualCounts(a.errors, b.errors);
    EqualCounts(a.findings, b.findings);
    EqualCounts(a.admissions, b.admissions);
    EqualCounts(a.gaps, b.gaps);
    EqualCounts(a.changes, b.changes);
    EqualCounts(a.evidence, b.evidence);
  }

  /** In every class the printed lines and the number in the omission footer add up to the receipt. */
  lemma RetainedPlusOmitted(r: Receipt, s: Selection)
    requires Fits(r, s)
    ensures exists o: Omissions ::
              && OmissionLine(r, s) == OmissionText(o)
              && |Pick(TaskIds(r), Either(s.errors, s.admissions))| + o.tasks == |r.tasks|
              && |Pick(FindingLines(r), s.findings)| + o.findings == |r.findings|
              && |Pick(GapLines(r), s.gaps)| + o.gaps == Unexercised(r.exercise)
              && |Pick(TestChangeLines(r), s.changes)| + o.changes == |r.testChanges|
              && |Pick(EvidenceLines(r), s.evidence)| + o.evidence == |r.evidence|
  {
    PickBytes(FindingLines(r), s.findings);
    PickBytes(GapLines(r), s.gaps);
    PickBytes(TestChangeLines(r), s.changes);
    PickBytes(EvidenceLines(r), s.evidence);
    PickBytes(TaskIds(r), Either(s.errors, s.admissions));
    GapsAreTheUnexercised(r.exercise);
    assert OmissionLine(r, s) == OmissionText(Omitted(r, s));
  }

  ghost predicate LinesAt(r: Receipt, positions: seq<nat>) {
    && |positions| == |GapLines(r)|
    && forall k | 0 <= k < |positions| :: positions[k] < |r.exercise| && GapLines(r)[k] == GapLine(r.exercise[positions[k]])
  }

  /** The summary's numbers, the one of exercise gaps included, read back from its fields. */
  lemma SummaryCounts(r: Receipt)
    requires |r.statusCounts| == 7 && SPACE !in r.completeness
    ensures var fields := SplitOn(Summary(r), SPACE);
      && |fields| == 15
      && fields[0] == Lit("SUMMARY") && fields[1] == Lit("completeness=") + r.completeness
      && fields[2] == Lit("exit=") + Decimal(r.exitCode)
      && fields[3] == Lit("tasks=") + Decimal(|r.tasks|) && fields[4] == Lit("findings=") + Decimal(|r.findings|)
      && fields[5] == Lit("exercise_gaps=") + Decimal(Unexercised(r.exercise))
      && fields[6] == Lit("test_changes=") + Decimal(|r.testChanges|) && fields[7] == Lit("evidence=") + Decimal(|r.evidence|)
      && fields[8..] == StatusFields(r.statusCounts)
  {
    hide Join, SplitOn, MaterialGaps, Unexercised, StatusFields, Decimal, Lit;
    GapsAreTheUnexercised(r.exercise);
    var fields := [Lit("SUMMARY"),
          Lit("completeness=") + r.completeness,
          Lit("exit=") + Decimal(r.exitCode),
          Lit("tasks=") + Decimal(|r.tasks|),
          Lit("findings=") + Decimal(|r.findings|),
          Lit("exercise_gaps=") + Decimal(|MaterialGaps(r.exercise)|),
          Lit("test_changes=") + Decimal(|r.testChanges|),
          Lit("evidence=") + Decimal(|r.evidence|)];
    StatusFieldsSpaceFree(r.statusCounts);
    SummaryFieldsSpaceFree(r);
    forall f | f in fields + StatusFields(r.statusCounts) ensures SPACE !in f {
    }
    JoinedSplits(fields + StatusFields(r.statusCounts), SPACE);
    assert (fields + StatusFields(r.statusCounts))[8..] == StatusFields(r.statusCounts);
  }

  /** The seven statuses by name, each with its count. */
  lemma StatusFieldsExactly(counts: seq<nat>, i: nat, name: string)
    requires |counts| == 7 && i < 7
    requires name == ["PASS", "FAIL", "FLAKY", "BLOCKED", "ERROR", "NOT_APPLICABLE", "NOT_RUN"][i]
    ensures StatusFields(counts)[i] == Lit(name + "=") + Decimal(counts[i])
  {
    hide Decimal;
    assert Lit(name + "=") == Lit(name) + Lit("=");
  }

  lemma SummaryFieldsSpaceFree(r: Receipt)
    ensures SPACE !in Lit("SUMMARY") && SPACE !in Lit("completeness=") && forall n :: SPACE !in Decimal(n)
    ensures SPACE !in Lit("exit=") && SPACE !in Lit("tasks=") && SPACE !in Lit("findings=")
    ensures SPACE !in Lit("exercise_gaps=") && SPACE !in Lit("test_changes=") && SPACE !in Lit("evidence=")
  {
  }

  lemma StatusFieldsSpaceFree(counts: seq<nat>)
    requires |counts| == 7
    ensures |StatusFields(counts)| == 7 && forall f | f in StatusFields(counts) :: SPACE !in f
  {
    forall i | 0 <= i < 7 ensures SPACE !in StatusFields(counts)[i] {
      assert SPACE !in Lit(STATUS_ORDER[i]) && SPACE !in Lit("=");
    }
  }

  /** The candidate lines of gaps are those of the records that are not exercised or unresolved, in order. */
  lemma GapLinesExactly(r: Receipt)
    ensures |GapLines(r)| == Unexercised(r.exercise)
    ensures exists positions :: ArePositionsOfGaps(positions, r.exercise) && LinesAt(r, positions)
  {
    hide MaterialGaps, Unexercised, GapLine;
    GapsAreTheUnexercised(r.exercise);
    var positions := GapsArePositions(r.exercise);
    assert LinesAt(r, positions);
  }
}
