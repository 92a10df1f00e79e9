/**
 When the order of branch observations matters: exactly if some branch's known observations add up
 to more than a safe integer, but each such branch also has an unknown observation.
 */
module LcovBranchOrder {
  import opened Wrappers
  import opened Text
  import opened Sorting
  import opened LcovBranch
  import Lcov

  // ---------------------------------------------------------------- orders of observations

  ghost predicate TotalsSafe(hits: seq<Hit>) {
    forall key :: Sum(hits, key) <= MAX_SAFE_INTEGER
  }

  /** A branch without unknown observations whose sum is no safe integer. */
  ghost predicate KnownOverflows(hits: seq<Hit>) {
    exists key :: Overflows(hits, key)
  }

  predicate Overflows(hits: seq<Hit>, key: Key) {
    !Unknown(hits, key) && Sum(hits, key) > MAX_SAFE_INTEGER
  }

  /** All orders of the observations are within bounds, or none is. */
  ghost predicate OrderFree(hits: seq<Hit>) {
    forall order | multiset(order) == multiset(hits) :: InBounds(order) <==> InBounds(hits)
  }

  /** The observations that are known, or those that are not. */
  function Part(hits: seq<Hit>, known: bool): seq<Hit> {
    if hits == [] then []
    else
      var last := hits[|hits| - 1];
      Part(hits[..|hits| - 1], known) + if last.taken.Some? == known then [last] else []
  }

  lemma {:induction false} PartsPermute(hits: seq<Hit>)
    ensures multiset(Part(hits, false) + Part(hits, true)) == multiset(hits)
    ensures multiset(Part(hits, true) + Part(hits, false)) == multiset(hits)
    ensures forall h | h in Part(hits, false) :: h.taken.None?
    ensures forall h | h in Part(hits, true) :: h.taken.Some?
  {
    if hits != [] {
      var rest := hits[..|hits| - 1];
      assert hits == rest + [hits[|hits| - 1]];
      PartsPermute(rest);
    }
  }

  lemma {:induction false} PrefixSum(hits: seq<Hit>, n: nat, key: Key)
    requires n <= |hits|
    ensures Sum(hits[..n], key) <= Sum(hits, key)
    ensures Unknown(hits[..n], key) ==> Unknown(hits, key)
  {
    if n < |hits| {
      assert hits[..|hits| - 1][..n] == hits[..n];
      PrefixSum(hits[..|hits| - 1], n, key);
    } else {
      assert hits[..n] == hits;
    }
  }

  lemma {:induction false} UnknownsAddNothing(hits: seq<Hit>, unknowns: seq<Hit>, key: Key)
    requires forall h | h in unknowns :: h.taken.None?
    ensures Sum(hits + unknowns, key) == Sum(hits, key)
  {
    if unknowns == [] {
      assert hits + unknowns == hits;
    } else {
      var rest, last := unknowns[..|unknowns| - 1], unknowns[|unknowns| - 1];
      assert hits + unknowns == (hits + rest) + [last];
      assert last in unknowns;
      SumSnoc(hits + rest, last, key);
      UnknownsAddNothing(hits, rest, key);
    }
  }

  lemma SameObservations(a: seq<Hit>, b: seq<Hit>, key: Key)
    requires multiset(a) == multiset(b)
    ensures Sum(a, key) == Sum(b, key) && (Unknown(a, key) <==> Unknown(b, key))
  {
    SumIgnoresOrder(a, b, key);
    assert Hit(key, None) in multiset(a) <==> Hit(key, None) in multiset(b);
  }

  lemma SafeTotalsAreInBounds(hits: seq<Hit>, order: seq<Hit>)
    requires TotalsSafe(hits) && multiset(order) == multiset(hits)
    ensures InBounds(order)
  {
    hide Sum, Unknown;
    forall n, key | 0 <= n <= |order| && !Unknown(order[..n], key) ensures Sum(order[..n], key) <= MAX_SAFE_INTEGER {
      PrefixSum(order, n, key);
      SameObservations(order, hits, key);
    }
  }

  lemma KnownOverflowIsOutOfBounds(hits: seq<Hit>, order: seq<Hit>)
    requires KnownOverflows(hits) && multiset(order) == multiset(hits)
    ensures !InBounds(order)
  {
    hide Sum, Unknown;
    var key :| Overflows(hits, key);
    SameObservations(order, hits, key);
    assert order[..|order|] == order;
  }

  /** With the unknown observations first, no overflow that they cover is noticed. */
  lemma UnknownsFirst(hits: seq<Hit>)
    requires !KnownOverflows(hits)
    ensures InBounds(Part(hits, false) + Part(hits, true))
  {
    hide Sum, Unknown, Part;
    var unknowns, order := Part(hits, false), Part(hits, false) + Part(hits, true);
    PartsPermute(hits);
    forall n, key | 0 <= n <= |order| && !Unknown(order[..n], key) ensures Sum(order[..n], key) <= MAX_SAFE_INTEGER {
      PrefixSum(order, n, key);
      SameObservations(order, hits, key);
      assert !Overflows(hits, key);
      if n <= |unknowns| {
        assert order[..n] == [] + unknowns[..n];
        UnknownsAddNothing([], unknowns[..n], key);
        EmptySum(key);
      } else if Unknown(hits, key) {
        UnknownIsEarly(hits, order, n, key);
        assert false;
      }
    }
  }

  lemma UnknownIsEarly(hits: seq<Hit>, order: seq<Hit>, n: nat, key: Key)
    requires order == Part(hits, false) + Part(hits, true) && |Part(hits, false)| <= n <= |order| && Unknown(hits, key)
    ensures Unknown(order[..n], key)
  {
    hide Part;
    PartsPermute(hits);
    var h := Hit(key, None);
    assert h in multiset(hits);
    assert h in order;
    assert h in Part(hits, false);
    var k :| 0 <= k < |Part(hits, false)| && Part(hits, false)[k] == h;
    assert order[..n][k] == h;
  }

  /** With the unknown observations last, every overflow is noticed. */
  lemma UnknownsLast(hits: seq<Hit>)
    requires !TotalsSafe(hits)
    ensures !InBounds(Part(hits, true) + Part(hits, false))
  {
    hide Sum, Part;
    var knowns, order := Part(hits, true), Part(hits, true) + Part(hits, false);
    PartsPermute(hits);
    var key :| Sum(hits, key) > MAX_SAFE_INTEGER;
    SameObservations(order, hits, key);
    UnknownsAddNothing(knowns, Part(hits, false), key);
    assert order[..|knowns|] == knowns;
    assert !Unknown(knowns, key);
  }

  /** The order of observations cannot matter exactly if all sums are safe or one is surely not. */
  lemma OrderFreeExactly(hits: seq<Hit>)
    ensures OrderFree(hits) <==> TotalsSafe(hits) || KnownOverflows(hits)
  {
    hide InBounds, TotalsSafe, KnownOverflows, Part;
    if TotalsSafe(hits) {
      forall order | multiset(order) == multiset(hits) ensures InBounds(order) && InBounds(hits) {
        SafeTotalsAreInBounds(hits, order);
        SafeTotalsAreInBounds(hits, hits);
      }
    } else if KnownOverflows(hits) {
      forall order | multiset(order) == multiset(hits) ensures !InBounds(order) && !InBounds(hits) {
        KnownOverflowIsOutOfBounds(hits, order);
        KnownOverflowIsOutOfBounds(hits, hits);
      }
    } else {
      PartsPermute(hits);
      UnknownsFirst(hits);
      UnknownsLast(hits);
    }
  }

  // ---------------------------------------------------------------- lines that print observations

  function Input(raw: seq<Str>, mapSourcePath: Str -> Option<Str>): (lines: seq<Line>)
    ensures |lines| == |raw| && forall i | 0 <= i < |raw| :: lines[i] == Classify(raw[i], mapSourcePath)
  {
    seq(|raw|, i requires 0 <= i < |raw| => Classify(raw[i], mapSourcePath))
  }

  function Observations(raw: seq<Str>, mapSourcePath: Str -> Option<Str>): seq<Hit> {
    Hits(Input(raw, mapSourcePath), |raw|)
  }

  predicate Proper(raw: seq<Str>, mapSourcePath: Str -> Option<Str>) {
    WellFormed(Input(raw, mapSourcePath))
  }

  ghost predicate Resolves(raw: seq<Str>, mapSourcePath: Str -> Option<Str>) {
    Proper(raw, mapSourcePath) && InBounds(Observations(raw, mapSourcePath))
  }

  function TakenToken(taken: Option<nat>): Str {
    match taken
    case None => [DASH]
    case Some(n) => Decimal(n)
  }

  function BranchLine(r: Reading): Str {
    Lit("BRDA:") + Join([Decimal(r.line), r.block, r.branch, TakenToken(r.taken)], COMMA)
  }

  predicate Printable(r: Reading) {
    && 0 < r.line <= MAX_SAFE_INTEGER && r.block != [] && r.branch != [] && COMMA !in r.block && COMMA !in r.branch
    && (r.taken.Some? ==> r.taken.value <= MAX_SAFE_INTEGER)
  }

  lemma BranchPrefix(rest: Str)
    ensures !(Lit("SF:") <= Lit("BRDA:") + rest) && Lit("BRDA:") + rest != Lit("end_of_record")
    ensures Lit("BRDA:") <= Lit("BRDA:") + rest && (Lit("BRDA:") + rest)[5..] == rest
  {
    var raw := Lit("BRDA:") + rest;
    assert raw[0] == Lit("BRDA:")[0] == 0x42 && Lit("SF:")[0] == 0x53 && Lit("end_of_record")[0] == 0x65;
  }

  lemma TokenReads(taken: Option<nat>)
    requires taken.Some? ==> taken.value <= MAX_SAFE_INTEGER
    ensures ReadTaken(TakenToken(taken)) == Ok(taken) && COMMA !in TakenToken(taken)
  {
    hide Lcov.ParseSafeInteger, Decimal;
    if taken.Some? {
      Lcov.DecimalParses(taken.value);
      assert Decimal(taken.value)[0] != DASH;
    }
  }

  /** A line that prints an observation is read back as that observation. */
  lemma PrintedBranchReads(r: Reading, mapSourcePath: Str -> Option<Str>)
    requires Printable(r)
    ensures Classify(BranchLine(r), mapSourcePath) == Branch(Ok(r))
  {
    hide Lit, Join, SplitOn, Decimal, TakenToken, ReadTaken, Lcov.ParseSafeInteger;
    var fields := [Decimal(r.line), r.block, r.branch, TakenToken(r.taken)];
    BranchPrefix(Join(fields, COMMA));
    Lcov.DecimalParses(r.line);
    TokenReads(r.taken);
    JoinedSplits(fields, COMMA);
  }

  /** Some source path is mapped to this one. */
  ghost predicate Mapped(path: Str, mapSourcePath: Str -> Option<Str>) {
    exists source :: mapSourcePath(source) == Some(path)
  }

  ghost function SourceOf(path: Str, mapSourcePath: Str -> Option<Str>): (source: Str)
    requires Mapped(path, mapSourcePath)
    ensures mapSourcePath(source) == Some(path)
  {
    var source :| mapSourcePath(source) == Some(path);
    source
  }

  function ReadingOf(h: Hit): Reading {
    Reading(h.key.line, h.key.block, h.key.branch, h.taken)
  }

  ghost predicate HitPrintable(h: Hit, mapSourcePath: Str -> Option<Str>) {
    Printable(ReadingOf(h)) && Mapped(h.key.path, mapSourcePath)
  }

  ghost predicate AllPrintable(hits: seq<Hit>, mapSourcePath: Str -> Option<Str>) {
    forall h | h in hits :: HitPrintable(h, mapSourcePath)
  }

  lemma ReadIsPrintable(raw: Str, mapSourcePath: Str -> Option<Str>)
    ensures Classify(raw, mapSourcePath).Branch? && Classify(raw, mapSourcePath).reading.Ok? ==>
      Printable(Classify(raw, mapSourcePath).reading.value)
    ensures Classify(raw, mapSourcePath).Source? && Classify(raw, mapSourcePath).path.Some? ==>
      Mapped(Classify(raw, mapSourcePath).path.value, mapSourcePath)
  {
    hide Lit, SplitOn, DecimalValue;
  }

  /** What is read can be printed. */
  lemma {:induction false} ObservationsArePrintable(raw: seq<Str>, mapSourcePath: Str -> Option<Str>, i: nat)
    requires i <= |raw|
    ensures var lines := Input(raw, mapSourcePath);
      && AllPrintable(Hits(lines, i), mapSourcePath)
      && (SourceAt(lines, i).Some? ==> Mapped(SourceAt(lines, i).value, mapSourcePath))
  {
    hide Classify, Printable, Mapped, Input;
    if i > 0 {
      ObservationsArePrintable(raw, mapSourcePath, i - 1);
      ReadIsPrintable(raw[i - 1], mapSourcePath);
    }
  }

  ghost function RecordOf(h: Hit, mapSourcePath: Str -> Option<Str>): seq<Str>
    requires HitPrintable(h, mapSourcePath)
  {
    [Lit("SF:") + SourceOf(h.key.path, mapSourcePath), BranchLine(ReadingOf(h)), Lit("end_of_record")]
  }

  /** One record for each observation. */
  ghost function Print(hits: seq<Hit>, mapSourcePath: Str -> Option<Str>): seq<Str>
    requires AllPrintable(hits, mapSourcePath)
  {
    if hits == [] then []
    else Print(hits[..|hits| - 1], mapSourcePath) + RecordOf(hits[|hits| - 1], mapSourcePath)
  }

  predicate AllInPlace(lines: seq<Line>) {
    forall i | 0 <= i < |lines| :: InPlace(lines, i)
  }

  lemma {:induction false} PrefixKept(a: seq<Line>, b: seq<Line>, i: nat)
    requires i <= |a|
    ensures SourceAt(a + b, i) == SourceAt(a, i) && Hits(a + b, i) == Hits(a, i)
  {
    if i > 0 {
      PrefixKept(a, b, i - 1);
      assert (a + b)[i - 1] == a[i - 1];
    }
  }

  /** A record of one branch line after complete records. */
  lemma RecordAdds(a: seq<Line>, path: Str, r: Reading)
    requires AllInPlace(a) && SourceAt(a, |a|).None?
    ensures var lines := a + [Source(Some(path)), Branch(Ok(r)), EndOfRecord];
      && AllInPlace(lines) && SourceAt(lines, |lines|).None?
      && Hits(lines, |lines|) == Hits(a, |a|) + [Hit(Key(path, r.line, r.block, r.branch), r.taken)]
  {
    var b := [Source(Some(path)), Branch(Ok(r)), EndOfRecord];
    var lines, n := a + b, |a|;
    PrefixKept(a, b, n);
    assert lines[n] == b[0] && lines[n + 1] == b[1] && lines[n + 2] == b[2];
    assert SourceAt(lines, n + 1) == Some(path) && SourceAt(lines, n + 2) == Some(path);
    assert Hits(lines, n + 1) == Hits(a, n);
    forall i | 0 <= i < |lines| ensures InPlace(lines, i) {
      if i < n {
        PrefixKept(a, b, i);
        assert InPlace(a, i);
      }
    }
  }

  lemma SourcePrefix(rest: Str, mapSourcePath: Str -> Option<Str>)
    ensures Classify(Lit("SF:") + rest, mapSourcePath) == Source(mapSourcePath(rest))
  {
    assert (Lit("SF:") + rest)[3..] == rest;
  }

  lemma EndReads(mapSourcePath: Str -> Option<Str>)
    ensures Classify(Lit("end_of_record"), mapSourcePath) == EndOfRecord
  {
    assert Lit("SF:")[0] == 0x53 && Lit("end_of_record")[0] == 0x65;
  }

  lemma RecordReads(h: Hit, mapSourcePath: Str -> Option<Str>)
    requires HitPrintable(h, mapSourcePath)
    ensures Input(RecordOf(h, mapSourcePath), mapSourcePath) == [Source(Some(h.key.path)), Branch(Ok(ReadingOf(h))), EndOfRecord]
  {
    hide Classify, BranchLine, Printable, Mapped, Lit;
    SourcePrefix(SourceOf(h.key.path, mapSourcePath), mapSourcePath);
    PrintedBranchReads(ReadingOf(h), mapSourcePath);
    EndReads(mapSourcePath);
  }

  lemma InputConcat(a: seq<Str>, b: seq<Str>, mapSourcePath: Str -> Option<Str>)
    ensures Input(a + b, mapSourcePath) == Input(a, mapSourcePath) + Input(b, mapSourcePath)
  {
    hide Classify;
  }

  /** The printed records are in place and read back as the observations. */
  lemma {:induction false} PrintedReads(hits: seq<Hit>, mapSourcePath: Str -> Option<Str>)
    requires AllPrintable(hits, mapSourcePath)
    ensures var lines := Input(Print(hits, mapSourcePath), mapSourcePath);
      AllInPlace(lines) && SourceAt(lines, |lines|).None? && Hits(lines, |lines|) == hits
  {
    hide AllInPlace, Input, RecordOf, HitPrintable, SourceAt, Hits;
    if hits == [] {
      NothingPrinted(mapSourcePath);
    } else {
      var rest, last := hits[..|hits| - 1], hits[|hits| - 1];
      assert hits == rest + [last];
      PrintedReads(rest, mapSourcePath);
      RecordReads(last, mapSourcePath);
      InputConcat(Print(rest, mapSourcePath), RecordOf(last, mapSourcePath), mapSourcePath);
      RecordAdds(Input(Print(rest, mapSourcePath), mapSourcePath), last.key.path, ReadingOf(last));
    }
  }

  lemma NothingPrinted(mapSourcePath: Str -> Option<Str>)
    ensures AllInPlace(Input([], mapSourcePath)) && SourceAt(Input([], mapSourcePath), 0).None? && Hits(Input([], mapSourcePath), 0) == []
  {
  }

  // ---------------------------------------------------------------- orders of input

  /** All proper inputs with these observations resolve, or none does. */
  ghost predicate OrderNeverMatters(raw: seq<Str>, mapSourcePath: Str -> Option<Str>) {
    forall other | Proper(other, mapSourcePath)
      && multiset(Observations(other, mapSourcePath)) == multiset(Observations(raw, mapSourcePath)) ::
      Resolves(other, mapSourcePath) <==> Resolves(raw, mapSourcePath)
  }

  /** The order of a proper input cannot matter exactly if all sums are safe or one is surely not. */
  lemma OrderNeverMattersExactly(raw: seq<Str>, mapSourcePath: Str -> Option<Str>)
    requires Proper(raw, mapSourcePath)
    ensures OrderNeverMatters(raw, mapSourcePath) <==>
      TotalsSafe(Observations(raw, mapSourcePath)) || KnownOverflows(Observations(raw, mapSourcePath))
  {
    hide InBounds, TotalsSafe, KnownOverflows, Observations, Proper;
    var hits := Observations(raw, mapSourcePath);
    OrderFreeExactly(hits);
    if OrderNeverMatters(raw, mapSourcePath) {
      forall order | multiset(order) == multiset(hits) ensures InBounds(order) <==> InBounds(hits) {
        var other := InputWith(raw, order, mapSourcePath);
        assert Resolves(other, mapSourcePath) <==> Resolves(raw, mapSourcePath);
      }
    }
  }

  /** Every order of the observations is that of some proper input. */
  lemma InputWith(raw: seq<Str>, order: seq<Hit>, mapSourcePath: Str -> Option<Str>) returns (other: seq<Str>)
    requires Proper(raw, mapSourcePath) && multiset(order) == multiset(Observations(raw, mapSourcePath))
    ensures Proper(other, mapSourcePath) && Observations(other, mapSourcePath) == order
  {
    hide HitPrintable, Hits, Input, SourceAt, InPlace;
    ObservationsArePrintable(raw, mapSourcePath, |raw|);
    forall h | h in order ensures HitPrintable(h, mapSourcePath) {
      assert h in multiset(order);
      assert h in Observations(raw, mapSourcePath);
    }
    SameLength(order, Observations(raw, mapSourcePath));
    other := Print(order, mapSourcePath);
    PrintedReads(order, mapSourcePath);
  }

  function Shielded(path: Str): (hits: seq<Hit>) {
    var key := Key(path, 1, Lit("0"), Lit("0"));
    [Hit(key, Some(MAX_SAFE_INTEGER)), Hit(key, Some(1)), Hit(key, None)]
  }

  lemma ShieldedPrintable(path: Str, mapSourcePath: Str -> Option<Str>)
    requires Mapped(path, mapSourcePath)
    ensures AllPrintable(Shielded(path), mapSourcePath)
  {
    hide Mapped;
    assert Lit("0")[0] == 0x30;
  }

  lemma ShieldedSum(path: Str, key: Key)
    ensures Sum(Shielded(path), key) == if key == Shielded(path)[0].key then MAX_SAFE_INTEGER + 1 else 0
  {
    hide Lit, Sum, Unknown;
    var hits := Shielded(path);
    EmptySum(key);
    SumSnoc([], hits[0], key);
    SumSnoc([hits[0]], hits[1], key);
    SumSnoc([hits[0], hits[1]], hits[2], key);
    assert [] + [hits[0]] == [hits[0]] && [hits[0]] + [hits[1]] == [hits[0], hits[1]] && [hits[0], hits[1]] + [hits[2]] == hits;
  }

  lemma ShieldedOverflow(path: Str)
    ensures !TotalsSafe(Shielded(path)) && !KnownOverflows(Shielded(path))
  {
    hide Lit, Sum;
    var hits := Shielded(path);
    ShieldedSum(path, hits[0].key);
    forall key ensures !Overflows(hits, key) {
      ShieldedSum(path, key);
      assert hits[2] in hits;
    }
  }

  lemma ShieldedParts(path: Str)
    ensures Part(Shielded(path), true) + Part(Shielded(path), false) == Shielded(path)
  {
    hide Lit;
    var hits := Shielded(path);
    assert hits[..2][..1] == hits[..1] && hits[..1][..0] == [];
    assert Part(hits[..1], true) == hits[..1] && Part(hits[..1], false) == [];
    assert Part(hits[..2], true) == hits[..2] && Part(hits[..2], false) == [];
  }

  /**
   2^53 - 1, 1 and an unknown observation of one branch: an input that prints them in this order
   does not resolve, one that prints the unknown observation first does.
   */
  lemma OrderCanDecide(path: Str, mapSourcePath: Str -> Option<Str>) returns (raw: seq<Str>, other: seq<Str>)
    requires Mapped(path, mapSourcePath)
    ensures Proper(raw, mapSourcePath) && Observations(raw, mapSourcePath) == Shielded(path)
    ensures Proper(other, mapSourcePath) && multiset(Observations(other, mapSourcePath)) == multiset(Shielded(path))
    ensures !Resolves(raw, mapSourcePath) && Resolves(other, mapSourcePath)
  {
    hide InBounds, HitPrintable, Hits, Input, SourceAt, InPlace, Sum, Unknown, Part;
    var hits := Shielded(path);
    ShieldedPrintable(path, mapSourcePath);
    ShieldedOverflow(path);
    ShieldedParts(path);
    PartsPermute(hits);
    UnknownsFirst(hits);
    UnknownsLast(hits);
    raw := Print(hits, mapSourcePath);
    PrintedReads(hits, mapSourcePath);
    other := InputWith(raw, Part(hits, false) + Part(hits, true), mapSourcePath);
  }
}
