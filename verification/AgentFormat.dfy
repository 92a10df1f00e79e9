/**
 The printed form of the agent receipt, read back: the fields of a line are what its record says,
 whatever the values are, every record is one line of the text, and the classes come in their order.
 */
module AgentFormat {
  import opened Text
  import opened AgentFields
  import opened AgentReceipt
  import opened AgentGreedy

  // ---------------------------------------------------------------- fields

  function Fields(line: Str): seq<Str> {
    SplitOn(line, SPACE)
  }

  lemma {:induction false} LastField(front: Str, last: Str)
    requires SPACE !in last
    ensures Fields(front + [SPACE] + last) == Fields(front) + [last]
  {
    var whole := front + [SPACE] + last;
    if front == [] {
      OneField(last);
      assert whole[1..] == last;
    } else {
      assert whole[1..] == front[1..] + [SPACE] + last;
      LastField(front[1..], last);
    }
  }

  lemma {:induction false} OneField(s: Str)
    requires SPACE !in s
    ensures Fields(s) == [s]
  {
    if s != [] {
      OneField(s[1..]);
      assert [s[0]] + s[1..] == s;
    }
  }

  /** A line that ends in a space, a name with its equals sign and a value. */
  lemma NextField(front: Str, spaced: string, name: string, value: Str)
    requires spaced == " " + name && ' ' !in name && SPACE !in value
    ensures Fields(front + Lit(spaced) + value) == Fields(front) + [Lit(name) + value]
  {
    hide Fields;
    assert Lit(spaced) == [SPACE] + Lit(name);
    assert SPACE !in Lit(name);
    assert front + Lit(spaced) + value == front + [SPACE] + (Lit(name) + value);
    LastField(front, Lit(name) + value);
  }

  lemma FirstWord(word: string)
    requires ' ' !in word
    ensures Fields(Lit(word)) == [Lit(word)]
  {
    assert SPACE !in Lit(word);
    OneField(Lit(word));
  }

  lemma FirstField(both: string, word: string, name: string, value: Str)
    requires both == word + " " + name && ' ' !in word && ' ' !in name && SPACE !in value
    ensures Fields(Lit(both) + value) == [Lit(word), Lit(name) + value]
  {
    hide Fields;
    assert Lit(both) == Lit(word) + Lit(" " + name);
    FirstWord(word);
    NextField(Lit(word), " " + name, name, value);
    assert Lit(both) + value == Lit(word) + Lit(" " + name) + value;
  }

  /** The header: the version, repository, head and stability. */
  lemma HeaderFields(r: Receipt)
    requires SPACE !in r.headSha && SPACE !in r.stability
    ensures Fields(Header(r)) == [
      Lit("ASCOUT_AGENT_V1"), Lit("repo=") + Encode(r.repositoryId), Lit("head=") + r.headSha, Lit("stability=") + r.stability]
  {
    hide Encode, Lit, Fields;
    EncodeHasNoSeparator(r.repositoryId);
    var a := Lit("ASCOUT_AGENT_V1 repo=") + Encode(r.repositoryId);
    var b := a + Lit(" head=") + r.headSha;
    FirstField("ASCOUT_AGENT_V1 repo=", "ASCOUT_AGENT_V1", "repo=", Encode(r.repositoryId));
    NextField(a, " head=", "head=", r.headSha);
    NextField(b, " stability=", "stability=", r.stability);
  }

  /** An ERROR line: task, reason and evidence. */
  lemma ErrorFields(r: Receipt, i: nat)
    requires i < |r.tasks|
    ensures Fields(ErrorLine(r, i)) == [
      Lit("ERROR"), Lit("task=") + Encode(r.tasks[i].id),
      Lit("reason=") + Encode(if r.tasks[i].reason.Some? then r.tasks[i].reason.value else Lit("unknown")),
      Lit("evidence=") + Encode(EvidenceIdOf(r, TaskEvidence(r, i)))]
  {
    hide Encode, Lit, Fields, TaskEvidence, EvidenceIdOf;
    var t := r.tasks[i];
    var reason := if t.reason.Some? then t.reason.value else Lit("unknown");
    var evidence := EvidenceIdOf(r, TaskEvidence(r, i));
    EncodeHasNoSeparator(t.id);
    EncodeHasNoSeparator(reason);
    EncodeHasNoSeparator(evidence);
    var a := Lit("ERROR task=") + Encode(t.id);
    var b := a + Lit(" reason=") + Encode(reason);
    FirstField("ERROR task=", "ERROR", "task=", Encode(t.id));
    NextField(a, " reason=", "reason=", Encode(reason));
    NextField(b, " evidence=", "evidence=", Encode(evidence));
  }

  /** A FINDING line: identifier, task, severity and evidence. */
  lemma FindingFields(r: Receipt, i: nat)
    requires i < |r.findings| && SPACE !in r.findings[i].severity
    ensures Fields(FindingLine(r, i)) == [
      Lit("FINDING"), Lit("id=") + Encode(r.findings[i].id), Lit("task=") + Encode(r.findings[i].task),
      Lit("severity=") + r.findings[i].severity, Lit("evidence=") + Encode(EvidenceIdOf(r, FindingEvidence(r, i)))]
  {
    hide Encode, Lit, Fields, FindingEvidence, EvidenceIdOf;
    var f := r.findings[i];
    var evidence := EvidenceIdOf(r, FindingEvidence(r, i));
    EncodeHasNoSeparator(f.id);
    EncodeHasNoSeparator(f.task);
    EncodeHasNoSeparator(evidence);
    var a := Lit("FINDING id=") + Encode(f.id);
    var b := a + Lit(" task=") + Encode(f.task);
    var c := b + Lit(" severity=") + f.severity;
    FirstField("FINDING id=", "FINDING", "id=", Encode(f.id));
    NextField(a, " task=", "task=", Encode(f.task));
    NextField(b, " severity=", "severity=", f.severity);
    NextField(c, " evidence=", "evidence=", Encode(evidence));
  }

  /** An ADMISSION line: task, state and the changed authority paths. */
  lemma AdmissionFields(t: Task)
    requires t.admission.Some? && SPACE !in t.admission.value
    ensures Fields(AdmissionLine(t)) == [
      Lit("ADMISSION"), Lit("task=") + Encode(t.id), Lit("state=") + t.admission.value,
      Lit("authority=") + AuthorityField(t.authority)]
  {
    hide Encode, Lit, Fields, AuthorityField;
    EncodeHasNoSeparator(t.id);
    AuthorityIsOneField(t.authority);
    var a := Lit("ADMISSION task=") + Encode(t.id);
    var b := a + Lit(" state=") + t.admission.value;
    FirstField("ADMISSION task=", "ADMISSION", "task=", Encode(t.id));
    NextField(a, " state=", "state=", t.admission.value);
    NextField(b, " authority=", "authority=", AuthorityField(t.authority));
  }

  lemma AuthorityIsOneField(paths: seq<Str>)
    ensures SPACE !in AuthorityField(paths) && NEWLINE !in AuthorityField(paths)
  {
    hide Encode, Join;
    forall i | 0 <= i < |paths| ensures SPACE !in EncodeAll(paths)[i] && NEWLINE !in EncodeAll(paths)[i] {
      EncodeHasNoSeparator(paths[i]);
    }
    JoinHasNone(EncodeAll(paths), COMMA, SPACE);
    JoinHasNone(EncodeAll(paths), COMMA, NEWLINE);
  }

  lemma {:induction false} JoinHasNone(parts: seq<Str>, sep: CodeUnit, unit: CodeUnit)
    requires sep != unit && forall p | p in parts :: unit !in p
    ensures unit !in Join(parts, sep)
  {
    if |parts| > 1 {
      JoinHasNone(parts[1..], sep, unit);
    }
  }

  /** A GAP line: what is missing, path and line; and the reason where the line is unresolved. */
  lemma GapFields(g: ExerciseRecord)
    requires g.state != Exercised
    ensures Fields(GapLine(g)) == [
      Lit("GAP"), Lit("kind=") + Lit(if g.state == NotExercised then "NOT_EXERCISED" else "UNRESOLVED"),
      Lit("path=") + Encode(g.path), Lit("line=") + Decimal(g.line)]
      + if g.state == NotExercised then [] else [Lit("reason=") + Encode(if g.reason.Some? then g.reason.value else Lit("unknown"))]
  {
    hide Encode, Fields, Decimal;
    var kind := Lit(if g.state == NotExercised then "NOT_EXERCISED" else "UNRESOLVED");
    assert SPACE !in kind && SPACE !in Decimal(g.line);
    hide Lit;
    var reason := if g.reason.Some? then g.reason.value else Lit("unknown");
    EncodeHasNoSeparator(g.path);
    EncodeHasNoSeparator(reason);
    var a := Lit("GAP kind=") + kind;
    var b := a + Lit(" path=") + Encode(g.path);
    var c := b + Lit(" line=") + Decimal(g.line);
    FirstField("GAP kind=", "GAP", "kind=", kind);
    NextField(a, " path=", "path=", Encode(g.path));
    NextField(b, " line=", "line=", Decimal(g.line));
    NextField(c, " reason=", "reason=", Encode(reason));
  }

  /** A TEST_CHANGE line: kind and path. */
  lemma TestChangeFields(c: TestChange)
    requires SPACE !in c.kind
    ensures Fields(TestChangeLine(c)) == [Lit("TEST_CHANGE"), Lit("kind=") + c.kind, Lit("path=") + Encode(c.path)]
  {
    hide Encode, Lit, Fields;
    EncodeHasNoSeparator(c.path);
    FirstField("TEST_CHANGE kind=", "TEST_CHANGE", "kind=", c.kind);
    NextField(Lit("TEST_CHANGE kind=") + c.kind, " path=", "path=", Encode(c.path));
  }

  /** An EVIDENCE line: identifier, task and kind. */
  lemma EvidenceFields(e: Evidence)
    requires SPACE !in e.kind
    ensures Fields(EvidenceLine(e)) == [
      Lit("EVIDENCE"), Lit("id=") + Encode(e.id), Lit("task=") + Encode(e.task), Lit("kind=") + e.kind]
  {
    hide Encode, Lit, Fields;
    EncodeHasNoSeparator(e.id);
    EncodeHasNoSeparator(e.task);
    var a := Lit("EVIDENCE id=") + Encode(e.id);
    var b := a + Lit(" task=") + Encode(e.task);
    FirstField("EVIDENCE id=", "EVIDENCE", "id=", Encode(e.id));
    NextField(a, " task=", "task=", Encode(e.task));
    NextField(b, " kind=", "kind=", e.kind);
  }

  /** The footer: the five numbers of omitted records. */
  lemma FooterFields(o: Omissions)
    ensures Fields(OmissionText(o)) == [
      Lit("OMITTED"), Lit("tasks=") + Decimal(o.tasks), Lit("findings=") + Decimal(o.findings),
      Lit("exercise_gaps=") + Decimal(o.gaps), Lit("test_changes=") + Decimal(o.changes), Lit("evidence=") + Decimal(o.evidence)]
  {
    hide Lit, Fields, Decimal;
    assert forall n :: SPACE !in Decimal(n);
    FirstWord("OMITTED");
    var a := Lit("OMITTED");
    var b := a + Lit(" tasks=") + Decimal(o.tasks);
    var c := b + Lit(" findings=") + Decimal(o.findings);
    var d := c + Lit(" exercise_gaps=") + Decimal(o.gaps);
    var e := d + Lit(" test_changes=") + Decimal(o.changes);
    NextField(a, " tasks=", "tasks=", Decimal(o.tasks));
    NextField(b, " findings=", "findings=", Decimal(o.findings));
    NextField(c, " exercise_gaps=", "exercise_gaps=", Decimal(o.gaps));
    NextField(d, " test_changes=", "test_changes=", Decimal(o.changes));
    NextField(e, " evidence=", "evidence=", Decimal(o.evidence));
    assert OmissionText(o) == e + Lit(" evidence=") + Decimal(o.evidence);
  }

  // ---------------------------------------------------------------- which evidence

  predicate Owns(r: Receipt, task: Str, id: Str) {
    exists e | e in r.evidence :: e.id == id && e.task == task
  }

  /** The evidence of a task is the first of its listed identifiers that names evidence of that task. */
  lemma {:induction false} FirstOwnedExactly(r: Receipt, task: Str, ids: seq<Str>)
    requires Accepted(r)
    ensures var e := FirstOwnedEvidence(r.evidence, task, ids);
      && (e.Some? <==> exists id | id in ids :: Owns(r, task, id))
      && (e.Some? ==> exists i :: IsFirstOwned(r, task, ids, i) && EvidenceIdOf(r, e) == ids[i])
  {
    if ids != [] {
      assert ids == [ids[0]] + ids[1..];
      FirstOwnedExactly(r, task, ids[1..]);
      IndexedIsOwned(r, task, ids[0]);
      var e := FirstOwnedEvidence(r.evidence, task, ids);
      if Owns(r, task, ids[0]) {
        assert IsFirstOwned(r, task, ids, 0);
      } else if e.Some? {
        var i :| IsFirstOwned(r, task, ids[1..], i) && EvidenceIdOf(r, e) == ids[1..][i];
        assert IsFirstOwned(r, task, ids, i + 1);
      }
    }
  }

  predicate IsFirstOwned(r: Receipt, task: Str, ids: seq<Str>, i: int) {
    0 <= i < |ids| && Owns(r, task, ids[i]) && forall j | 0 <= j < i :: !Owns(r, task, ids[j])
  }

  lemma IndexedIsOwned(r: Receipt, task: Str, id: Str)
    requires Accepted(r)
    ensures var e := EvidenceIndex(r.evidence, id); e.Some? && r.evidence[e.value].task == task <==> Owns(r, task, id)
  {
    var e := EvidenceIndex(r.evidence, id);
    if e.Some? {
      assert r.evidence[e.value] in r.evidence;
    }
    if Owns(r, task, id) {
      var o :| o in r.evidence && o.id == id && o.task == task;
      var i :| 0 <= i < |r.evidence| && r.evidence[i] == o;
      assert e.Some?;
    }
  }

  predicate OwnsOne(r: Receipt, task: Str, ids: seq<Str>) {
    exists id | id in ids :: Owns(r, task, id)
  }

  /** Where everything would fit, the kept records are exactly these. */
  lemma AmpleBudgetPrints(r: Receipt, max: nat)
    requires Accepted(r) && Cost(r, Everything(r)) <= max
    ensures var s := Greedy(r, max);
      && (forall i | 0 <= i < |r.tasks| ::
            s.errors[i] <==> r.tasks[i].isError && OwnsOne(r, r.tasks[i].id, r.tasks[i].evidenceIds))
      && (forall i | 0 <= i < |r.findings| :: s.findings[i] <==> OwnsOne(r, r.findings[i].task, r.findings[i].evidenceIds))
      && (forall i | 0 <= i < |r.tasks| :: s.admissions[i] <==> r.tasks[i].admission.Some?)
      && (forall m | m in s.gaps + s.changes + s.evidence :: m)
  {
    hide Cost, Everything, Phases, OwnsOne;
    var s := Greedy(r, max);
    PhasesUntouched(r, max, 6);
    forall u | Candidate(r, u) ensures Has(r, s, u) {
      AmpleBudgetKeepsAll(r, max, u);
    }
    forall task, ids ensures FirstOwnedEvidence(r.evidence, task, ids).Some? <==> OwnsOne(r, task, ids) {
      OwnsOneExactly(r, task, ids);
    }
    hide FirstOwnedEvidence;
    forall i | 0 <= i < |r.tasks| ensures s.errors[i] <==> r.tasks[i].isError && OwnsOne(r, r.tasks[i].id, r.tasks[i].evidenceIds) {
      assert Candidate(r, Unit(Errors, i)) ==> Has(r, s, Unit(Errors, i));
    }
    forall i | 0 <= i < |r.findings| ensures s.findings[i] <==> OwnsOne(r, r.findings[i].task, r.findings[i].evidenceIds) {
      assert Candidate(r, Unit(Findings, i)) ==> Has(r, s, Unit(Findings, i));
    }
    forall i | 0 <= i < |r.tasks| ensures s.admissions[i] <==> r.tasks[i].admission.Some? {
      assert Candidate(r, Unit(Admissions, i)) ==> Has(r, s, Unit(Admissions, i));
    }
    forall i | 0 <= i < |s.gaps| ensures s.gaps[i] {
      assert Has(r, s, Unit(Gaps, i));
    }
    forall i | 0 <= i < |s.changes| ensures s.changes[i] {
      assert Has(r, s, Unit(Changes, i));
    }
    forall i | 0 <= i < |s.evidence| ensures s.evidence[i] {
      assert Has(r, s, Unit(EvidenceRecords, i));
    }
  }

  lemma OwnsOneExactly(r: Receipt, task: Str, ids: seq<Str>)
    requires Accepted(r)
    ensures FirstOwnedEvidence(r.evidence, task, ids).Some? <==> OwnsOne(r, task, ids)
  {
    FirstOwnedExactly(r, task, ids);
  }

  // ---------------------------------------------------------------- lines

  predicate StartsWith(line: Str, word: string) {
    Lit(word) + [SPACE] <= line
  }

  predicate AllStartWith(lines: seq<Str>, word: string) {
    forall l | l in lines :: StartsWith(l, word)
  }

  lemma {:induction false} PickedFrom(lines: seq<Str>, m: Mask)
    requires |lines| == |m|
    ensures forall l | l in Pick(lines, m) :: l in lines
  {
    if m != [] {
      PickedFrom(lines[1..], m[1..]);
      assert lines == [lines[0]] + lines[1..];
    }
  }

  lemma Spaced(both: string, word: string, name: string, rest: Str)
    requires both == word + " " + name
    ensures StartsWith(Lit(both) + rest, word)
  {
    assert Lit(both) == Lit(word) + [SPACE] + Lit(name);
  }

  lemma LinesStartWith(r: Receipt)
    ensures AllStartWith(ErrorLines(r), "ERROR") && AllStartWith(FindingLines(r), "FINDING")
    ensures AllStartWith(AdmissionLines(r), "ADMISSION") && AllStartWith(GapLines(r), "GAP")
    ensures AllStartWith(TestChangeLines(r), "TEST_CHANGE") && AllStartWith(EvidenceLines(r), "EVIDENCE")
  {
    hide Lit, Encode, MaterialGaps, TaskEvidence, FindingEvidence;
    forall i | 0 <= i < |r.tasks|
      ensures StartsWith(ErrorLine(r, i), "ERROR") && StartsWith(AdmissionLine(r.tasks[i]), "ADMISSION")
    {
      Spaced("ERROR task=", "ERROR", "task=", ErrorLine(r, i)[|Lit("ERROR task=")|..]);
      Spaced("ADMISSION task=", "ADMISSION", "task=", AdmissionLine(r.tasks[i])[|Lit("ADMISSION task=")|..]);
    }
    forall i | 0 <= i < |r.findings| ensures StartsWith(FindingLine(r, i), "FINDING") {
      Spaced("FINDING id=", "FINDING", "id=", FindingLine(r, i)[|Lit("FINDING id=")|..]);
    }
    forall g ensures StartsWith(GapLine(g), "GAP") {
      Spaced("GAP kind=", "GAP", "kind=", GapLine(g)[|Lit("GAP kind=")|..]);
    }
    forall c ensures StartsWith(TestChangeLine(c), "TEST_CHANGE") {
      Spaced("TEST_CHANGE kind=", "TEST_CHANGE", "kind=", TestChangeLine(c)[|Lit("TEST_CHANGE kind=")|..]);
    }
    forall e ensures StartsWith(EvidenceLine(e), "EVIDENCE") {
      Spaced("EVIDENCE id=", "EVIDENCE", "id=", EvidenceLine(e)[|Lit("EVIDENCE id=")|..]);
    }
  }

  /** The text's lines: header and summary, then errors, findings, admissions, gaps, test changes and evidence, then the footer. */
  lemma ClassesInOrder(r: Receipt, s: Selection) returns (classes: seq<seq<Str>>)
    requires Fits(r, s) && |r.statusCounts| == 7
    ensures |classes| == 6
    ensures ProjectionLines(r, s) == [Header(r), Summary(r)] + classes[0] + classes[1] + classes[2] + classes[3] + classes[4]
      + classes[5] + [OmissionLine(r, s)]
    ensures AllStartWith(classes[0], "ERROR") && AllStartWith(classes[1], "FINDING") && AllStartWith(classes[2], "ADMISSION")
    ensures AllStartWith(classes[3], "GAP") && AllStartWith(classes[4], "TEST_CHANGE") && AllStartWith(classes[5], "EVIDENCE")
  {
    hide Header, Summary, OmissionLine, Pick, StartsWith;
    hide ErrorLines, FindingLines, AdmissionLines, GapLines, TestChangeLines, EvidenceLines;
    LinesStartWith(r);
    PickedFrom(ErrorLines(r), s.errors);
    PickedFrom(FindingLines(r), s.findings);
    PickedFrom(AdmissionLines(r), Both(s.admissions, s.errors));
    PickedFrom(AdmissionLines(r), Without(s.admissions, s.errors));
    PickedFrom(GapLines(r), s.gaps);
    PickedFrom(TestChangeLines(r), s.changes);
    PickedFrom(EvidenceLines(r), s.evidence);
    classes := [Pick(ErrorLines(r), s.errors), Pick(FindingLines(r), s.findings), SelectedAdmissions(r, s), Pick(GapLines(r), s.gaps),
                Pick(TestChangeLines(r), s.changes), Pick(EvidenceLines(r), s.evidence)];
  }

  /** The fields that are printed as spelled have no line break. */
  ghost predicate SingleLine(r: Receipt) {
    && NEWLINE !in r.headSha && NEWLINE !in r.stability && NEWLINE !in r.completeness
    && (forall t | t in r.tasks && t.admission.Some? :: NEWLINE !in t.admission.value)
    && (forall f | f in r.findings :: NEWLINE !in f.severity)
    && (forall c | c in r.testChanges :: NEWLINE !in c.kind)
    && (forall e | e in r.evidence :: NEWLINE !in e.kind)
  }

  predicate Unbroken(lines: seq<Str>) {
    forall l | l in lines :: NEWLINE !in l
  }

  lemma NoBreaks(text: string)
    requires '\n' !in text
    ensures NEWLINE !in Lit(text)
  {
    forall i | 0 <= i < |text| ensures Lit(text)[i] != NEWLINE {
      assert text[i] in text;
    }
  }

  lemma TaskLinesHaveNoBreak(r: Receipt, i: nat)
    requires i < |r.tasks| && SingleLine(r)
    ensures NEWLINE !in ErrorLine(r, i) && NEWLINE !in AdmissionLine(r.tasks[i])
  {
    hide Lit, Encode, AuthorityField, TaskEvidence, EvidenceIdOf;
    var t := r.tasks[i];
    EncodeHasNoSeparator(t.id);
    EncodeHasNoSeparator(if t.reason.Some? then t.reason.value else Lit("unknown"));
    EncodeHasNoSeparator(EvidenceIdOf(r, TaskEvidence(r, i)));
    AuthorityIsOneField(t.authority);
    NoBreaks("ERROR task=");
    NoBreaks(" reason=");
    NoBreaks(" evidence=");
    NoBreaks("ADMISSION task=");
    NoBreaks(" state=");
    NoBreaks(" authority=");
  }

  lemma FindingLineHasNoBreak(r: Receipt, i: nat)
    requires i < |r.findings| && SingleLine(r)
    ensures NEWLINE !in FindingLine(r, i)
  {
    hide Lit, Encode, FindingEvidence, EvidenceIdOf;
    EncodeHasNoSeparator(r.findings[i].id);
    EncodeHasNoSeparator(r.findings[i].task);
    EncodeHasNoSeparator(EvidenceIdOf(r, FindingEvidence(r, i)));
    NoBreaks("FINDING id=");
    NoBreaks(" task=");
    NoBreaks(" severity=");
    NoBreaks(" evidence=");
  }

  lemma DecimalHasNoBreak(n: nat)
    ensures NEWLINE !in Decimal(n)
  {
  }

  lemma GapLineHasNoBreak(g: ExerciseRecord)
    ensures NEWLINE !in GapLine(g)
  {
    hide Lit, Encode, Decimal;
    EncodeHasNoSeparator(g.path);
    EncodeHasNoSeparator(if g.reason.Some? then g.reason.value else Lit("unknown"));
    DecimalHasNoBreak(g.line);
    NoBreaks("NOT_EXERCISED");
    NoBreaks("UNRESOLVED");
    NoBreaks("GAP kind=");
    NoBreaks(" path=");
    NoBreaks(" line=");
    NoBreaks(" reason=");
  }

  lemma OtherLinesHaveNoBreak(r: Receipt)
    requires SingleLine(r)
    ensures forall c | c in r.testChanges :: NEWLINE !in TestChangeLine(c)
    ensures forall e | e in r.evidence :: NEWLINE !in EvidenceLine(e)
  {
    hide Lit, Encode;
    NoBreaks("TEST_CHANGE kind=");
    NoBreaks(" path=");
    forall c | c in r.testChanges ensures NEWLINE !in TestChangeLine(c) {
      EncodeHasNoSeparator(c.path);
    }
    NoBreaks("EVIDENCE id=");
    NoBreaks(" task=");
    NoBreaks(" kind=");
    forall e | e in r.evidence ensures NEWLINE !in EvidenceLine(e) {
      EncodeHasNoSeparator(e.id);
      EncodeHasNoSeparator(e.task);
    }
  }

  lemma HeaderHasNoBreak(r: Receipt)
    requires SingleLine(r)
    ensures NEWLINE !in Header(r)
  {
    hide Lit, Encode;
    EncodeHasNoSeparator(r.repositoryId);
    NoBreaks("ASCOUT_AGENT_V1 repo=");
    NoBreaks(" head=");
    NoBreaks(" stability=");
  }

  lemma StatusFieldsHaveNoBreak(counts: seq<nat>)
    requires |counts| == 7
    ensures Unbroken(StatusFields(counts))
  {
    hide Lit, Decimal;
    NoBreaks("=");
    forall i | 0 <= i < 7 ensures NEWLINE !in StatusFields(counts)[i] {
      assert '\n' !in STATUS_ORDER[i];
      NoBreaks(STATUS_ORDER[i]);
      DecimalHasNoBreak(counts[i]);
    }
  }

  lemma SummaryHasNoBreak(r: Receipt)
    requires |r.statusCounts| == 7 && SingleLine(r)
    ensures NEWLINE !in Summary(r)
  {
    hide Lit, Decimal, MaterialGaps, Join, StatusFields;
    forall n ensures NEWLINE !in Decimal(n) {
      DecimalHasNoBreak(n);
    }
    NoBreaks("SUMMARY");
    NoBreaks("completeness=");
    NoBreaks("exit=");
    NoBreaks("tasks=");
    NoBreaks("findings=");
    NoBreaks("exercise_gaps=");
    NoBreaks("test_changes=");
    NoBreaks("evidence=");
    var fields := [Lit("SUMMARY"),
          Lit("completeness=") + r.completeness,
          Lit("exit=") + Decimal(r.exitCode),
          Lit("tasks=") + Decimal(|r.tasks|),
          Lit("findings=") + Decimal(|r.findings|),
          Lit("exercise_gaps=") + Decimal(|MaterialGaps(r.exercise)|),
          Lit("test_changes=") + Decimal(|r.testChanges|),
          Lit("evidence=") + Decimal(|r.evidence|)];
    assert Unbroken(fields);
    StatusFieldsHaveNoBreak(r.statusCounts);
    JoinHasNone(fields + StatusFields(r.statusCounts), SPACE, NEWLINE);
  }

  lemma FooterHasNoBreak(o: Omissions)
    ensures NEWLINE !in OmissionText(o)
  {
    hide Lit, Decimal;
    forall n ensures NEWLINE !in Decimal(n) {
      DecimalHasNoBreak(n);
    }
    NoBreaks("OMITTED");
    NoBreaks(" tasks=");
    NoBreaks(" findings=");
    NoBreaks(" exercise_gaps=");
    NoBreaks(" test_changes=");
    NoBreaks(" evidence=");
  }

  lemma CandidatesHaveNoBreak(r: Receipt)
    requires SingleLine(r)
    ensures Unbroken(ErrorLines(r)) && Unbroken(FindingLines(r)) && Unbroken(AdmissionLines(r))
    ensures Unbroken(GapLines(r)) && Unbroken(TestChangeLines(r)) && Unbroken(EvidenceLines(r))
  {
    hide ErrorLine, FindingLine, AdmissionLine, GapLine, TestChangeLine, EvidenceLine, MaterialGaps, SingleLine;
    forall i | 0 <= i < |r.tasks| ensures NEWLINE !in ErrorLine(r, i) && NEWLINE !in AdmissionLine(r.tasks[i]) {
      TaskLinesHaveNoBreak(r, i);
    }
    forall i | 0 <= i < |r.findings| ensures NEWLINE !in FindingLine(r, i) {
      FindingLineHasNoBreak(r, i);
    }
    forall g ensures NEWLINE !in GapLine(g) {
      GapLineHasNoBreak(g);
    }
    OtherLinesHaveNoBreak(r);
  }

  lemma LinesHaveNoBreak(r: Receipt, s: Selection)
    requires Fits(r, s) && |r.statusCounts| == 7 && SingleLine(r)
    ensures ProjectionLines(r, s) != [] && Unbroken(ProjectionLines(r, s))
  {
    hide Header, Summary, OmissionText, Pick, SingleLine;
    hide ErrorLines, FindingLines, AdmissionLines, GapLines, TestChangeLines, EvidenceLines;
    HeaderHasNoBreak(r);
    SummaryHasNoBreak(r);
    FooterHasNoBreak(Omitted(r, s));
    CandidatesHaveNoBreak(r);
    PickedFrom(ErrorLines(r), s.errors);
    PickedFrom(FindingLines(r), s.findings);
    PickedFrom(AdmissionLines(r), Both(s.admissions, s.errors));
    PickedFrom(AdmissionLines(r), Without(s.admissions, s.errors));
    PickedFrom(GapLines(r), s.gaps);
    PickedFrom(TestChangeLines(r), s.changes);
    PickedFrom(EvidenceLines(r), s.evidence);
    assert Unbroken([Header(r), Summary(r)]);
    hide Omitted;
    assert Unbroken(SelectedLines(r, s));
  }

  /** Splitting the text at its line breaks gives the projected lines: no value breaks a line in two. */
  lemma EveryRecordIsOneLine(r: Receipt, s: Selection)
    requires Fits(r, s) && |r.statusCounts| == 7 && SingleLine(r)
    ensures SplitOn(Render(r, s), NEWLINE) == ProjectionLines(r, s)
  {
    hide ProjectionLines, Join, SplitOn;
    LinesHaveNoBreak(r, s);
    JoinedSplits(ProjectionLines(r, s), NEWLINE);
  }
}
