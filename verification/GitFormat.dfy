/**
 Git's printed forms, read field by field: the metadata record as its space-separated fields, what
 each status letter makes of the records behind it, and the lines that patch blocks are known by.
 */
module GitFormat {
  import opened Wrappers
  import opened Text
  import opened GitRecords
  import opened GitDiff

  // ---------------------------------------------------------------- metadata records

  predicate OnlyOf(s: Bytes, units: string) {
    forall b | b in s :: b in Lit(units)
  }

  /** Five fields: a colon and the old mode, the new mode, two objects, and the status letter with its score. */
  predicate HasFields(rec: Bytes, m: Metadata) {
    SplitOn(rec, SPACE) == [Lit(":") + m.oldMode, m.newMode, m.oldOid, m.newOid, [m.status] + m.score]
  }

  predicate IsSpelled(m: Metadata) {
    && |m.oldMode| == |m.newMode| == 6 && OnlyOf(m.oldMode + m.newMode, "01234567")
    && |m.oldOid| in {40, 64} && |m.newOid| in {40, 64} && OnlyOf(m.oldOid + m.newOid, "0123456789abcdef")
    && 'A' as int <= m.status <= 'Z' as int && |m.score| <= 3 && OnlyOf(m.score, "0123456789")
  }

  lemma Digits(b: Byte)
    ensures b in Lit("01234567") <==> 0x30 <= b <= 0x37
    ensures b in Lit("0123456789") <==> 0x30 <= b <= 0x39
  {
    assert Lit("01234567") == [0x30, 0x31, 0x32, 0x33, 0x34, 0x35, 0x36, 0x37];
    assert Lit("0123456789") == Lit("01234567") + [0x38, 0x39];
  }

  lemma HexDigits(b: Byte)
    ensures b in Lit("0123456789abcdef") <==> 0x30 <= b <= 0x39 || 0x61 <= b <= 0x66
  {
    assert Lit("0123456789abcdef") ==
      [0x30, 0x31, 0x32, 0x33, 0x34, 0x35, 0x36, 0x37, 0x38, 0x39, 0x61, 0x62, 0x63, 0x64, 0x65, 0x66];
  }

  lemma SpelledExactly(m: Metadata)
    ensures IsSpelled(m) <==> IsMetadata(m)
  {
    hide Lit;
    forall b: Byte
      ensures b in Lit("01234567") <==> 0x30 <= b <= 0x37
      ensures b in Lit("0123456789") <==> 0x30 <= b <= 0x39
      ensures b in Lit("0123456789abcdef") <==> 0x30 <= b <= 0x39 || 0x61 <= b <= 0x66
    {
      Digits(b);
      HexDigits(b);
    }
    assert forall i | 0 <= i < |m.score| :: m.score[i] in m.score;
    assert OnlyOf(m.oldMode + m.newMode, "01234567") <==> OnlyOf(m.oldMode, "01234567") && OnlyOf(m.newMode, "01234567");
    assert OnlyOf(m.oldOid + m.newOid, "0123456789abcdef") <==>
      OnlyOf(m.oldOid, "0123456789abcdef") && OnlyOf(m.newOid, "0123456789abcdef");
  }

  function MetadataFields(m: Metadata): seq<Bytes> {
    [Lit(":") + m.oldMode, m.newMode, m.oldOid, m.newOid, [m.status] + m.score]
  }

  lemma PrintedFields(m: Metadata)
    ensures PrintMetadata(m) == Join(MetadataFields(m), SPACE)
  {
    var f := MetadataFields(m);
    assert Lit(":") == [0x3A];
    assert f[1..][0] == f[1] && f[1..][1..] == f[2..];
    assert f[2..][0] == f[2] && f[2..][1..] == f[3..];
    assert f[3..][0] == f[3] && f[3..][1..] == f[4..];
    assert Join(f[4..], SPACE) == f[4];
    assert Join(f[3..], SPACE) == f[3] + [SPACE] + f[4];
    assert Join(f[2..], SPACE) == f[2] + [SPACE] + Join(f[3..], SPACE);
    assert Join(f[1..], SPACE) == f[1] + [SPACE] + Join(f[2..], SPACE);
  }

  /** The expression matches exactly the records of five fields that are spelled this way. */
  lemma MetadataExactly(rec: Bytes, m: Metadata)
    ensures MatchMetadata(rec) == Some(m) <==> HasFields(rec, m) && IsSpelled(m)
  {
    hide MatchMetadata, SplitOn, Join, PrintMetadata, IsSpelled;
    MatchExactly(rec, m);
    SpelledExactly(m);
    PrintedFields(m);
    var f := MetadataFields(m);
    if IsMetadata(m) && rec == PrintMetadata(m) {
      assert SPACE !in Lit(":");
      JoinedSplits(f, SPACE);
    }
    if HasFields(rec, m) {
      SplitOnJoins(rec, SPACE);
    }
  }

  // ---------------------------------------------------------------- entries

  /** The status a letter stands for. */
  function Named(letter: Byte): Option<Status> {
    if letter == 'A' as int then Some(Added)
    else if letter == 'M' as int then Some(Status.Modified)
    else if letter == 'D' as int then Some(Status.Deleted)
    else if letter == 'R' as int then Some(Renamed)
    else if letter == 'T' as int then Some(TypeChanged)
    else None
  }

  lemma NamedExactly(letter: Byte)
    ensures StatusOf(letter) == Named(letter)
  {
  }

  /** Without its five fields no record is metadata. */
  lemma MalformedExactly(records: seq<Bytes>, canonical: Bytes -> bool)
    requires records != []
    ensures ParseEntry(records, canonical) == Err(MalformedMetadata) <==> !exists m :: HasFields(records[0], m) && IsSpelled(m)
  {
    hide MatchMetadata, HasFields, IsSpelled;
    forall m ensures MatchMetadata(records[0]) == Some(m) <==> HasFields(records[0], m) && IsSpelled(m) {
      MetadataExactly(records[0], m);
    }
    if MatchMetadata(records[0]).Some? {
      assert MatchMetadata(records[0]) == Some(MatchMetadata(records[0]).value);
    }
  }

  /** What is read from a metadata record and the paths behind it, error by error. */
  lemma EntryExactly(records: seq<Bytes>, canonical: Bytes -> bool, m: Metadata)
    requires records != [] && HasFields(records[0], m) && IsSpelled(m) && IsDigits(m.score)
    ensures var r, status := ParseEntry(records, canonical), Named(m.status);
      && (r == Err(Unmerged) <==> m.status == 'U' as int)
      && (r == Err(UnsupportedStatus) <==> status.None? && m.status != 'U' as int)
      && (r == Err(MissingScore) <==> status == Some(Renamed) && m.score == [])
      && (r == Err(InvalidScore) <==> status == Some(Renamed) && m.score != [] && DecimalValue(m.score) > 100)
      && (r == Err(UnexpectedScore) <==> status.Some? && status != Some(Renamed) && m.score != [])
      && (status == Some(Renamed) && m.score != [] && DecimalValue(m.score) <= 100 ==>
            r == if |records| < 3 then Err(IncompleteRename)
                 else if !canonical(records[1]) || !canonical(records[2]) then Err(NonCanonicalPath)
                 else Ok(Entry(records[2], Some(records[1]), Renamed, m.oldMode, m.newMode, m.oldOid, m.newOid,
                               Some(DecimalValue(m.score)))))
      && (status.Some? && status != Some(Renamed) && m.score == [] ==>
            r == if |records| < 2 then Err(IncompletePath)
                 else if !canonical(records[1]) then Err(NonCanonicalPath)
                 else Ok(Entry(records[1], None, status.value, m.oldMode, m.newMode, m.oldOid, m.newOid, None)))
  {
    hide MatchMetadata, HasFields, IsSpelled;
    MetadataExactly(records[0], m);
    NamedExactly(m.status);
  }

  // ---------------------------------------------------------------- patches

  /** Blocks start with the words "diff --git", a line break stands between them, two NULs before the first. */
  lemma HeadersExactly()
    ensures PATCH_BLOCK_HEADER == Lit("diff --git ")
    ensures PATCH_BLOCK_SEPARATOR == Lit("\ndiff --git ")
    ensures COMBINED_DIFF_BOUNDARY == [0, 0] + Lit("diff --git ")
  {
  }

  lemma ThreeWords(words: string, a: string, b: string, c: string, mode: Bytes, line: Bytes)
    requires words == a + " " + b + " " + c + " " && ' ' !in a && ' ' !in b && ' ' !in c && SPACE !in mode
    ensures line == Lit(words) + mode <==> SplitOn(line, SPACE) == [Lit(a), Lit(b), Lit(c), mode]
  {
    hide SplitOn, Join;
    var f := [Lit(a), Lit(b), Lit(c), mode];
    assert Lit(words) + mode == Lit(a) + [SPACE] + (Lit(b) + [SPACE] + (Lit(c) + [SPACE] + mode));
    FourJoined(Lit(a), Lit(b), Lit(c), mode);
    if line == Lit(words) + mode {
      assert SPACE !in Lit(a) && SPACE !in Lit(b) && SPACE !in Lit(c);
      JoinedSplits(f, SPACE);
    }
    if SplitOn(line, SPACE) == f {
      SplitOnJoins(line, SPACE);
    }
  }

  lemma FourJoined(a: Bytes, b: Bytes, c: Bytes, d: Bytes)
    ensures Join([a, b, c, d], SPACE) == a + [SPACE] + (b + [SPACE] + (c + [SPACE] + d))
  {
    var f := [a, b, c, d];
    assert f[1..] == [b, c, d] && f[1..][1..] == f[2..] && f[2..][1..] == f[3..];
    assert Join(f[3..], SPACE) == d;
    assert Join(f[2..], SPACE) == c + [SPACE] + Join(f[3..], SPACE);
    assert Join(f[1..], SPACE) == b + [SPACE] + Join(f[2..], SPACE);
  }

  /** A line of four words: this one, file, mode, and the mode. */
  predicate NamesMode(line: Bytes, word: string, mode: Bytes) {
    SplitOn(line, SPACE) == [Lit(word), Lit("file"), Lit("mode"), mode]
  }

  /** The first block of a type change has a line that names the deleted old mode, the second one that names the new mode. */
  lemma TypeChangeExactly(e: Entry, first: Bytes, second: Bytes)
    requires SPACE !in e.oldMode && SPACE !in e.newMode
    ensures IsTypeChangePair(e, first, second) <==>
      && (exists l | l in SplitOn(first, NEWLINE) :: NamesMode(l, "deleted", e.oldMode))
      && (exists l | l in SplitOn(second, NEWLINE) :: NamesMode(l, "new", e.newMode))
  {
    hide SplitOn, Lit;
    forall l: Bytes
      ensures NamesMode(l, "deleted", e.oldMode) <==> l == DeletedMode(e.oldMode)
      ensures NamesMode(l, "new", e.newMode) <==> l == NewMode(e.newMode)
    {
      ThreeWords("deleted file mode ", "deleted", "file", "mode", e.oldMode, l);
      ThreeWords("new file mode ", "new", "file", "mode", e.newMode, l);
    }
    assert NamesMode(DeletedMode(e.oldMode), "deleted", e.oldMode) && NamesMode(NewMode(e.newMode), "new", e.newMode);
    hide NamesMode, DeletedMode, NewMode;
  }
}
