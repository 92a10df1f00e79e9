/**
 Bounded retention of trace artifacts: what is too old expires, then the oldest are evicted until
 count and bytes are within bounds. Bytes are added and subtracted in doubles. The outcome is the
 longest newest part that fits exactly when no running total is misjudged, as when the bytes left
 by the count bound are at most 2^53.
 */
module TraceRetention {
  import opened Wrappers
  import opened Text
  import opened Sorting
  import opened Doubles

  datatype Artifact = Artifact(id: Str, bytes: int, capturedAt: int)

  datatype Policy = Policy(maxArtifacts: nat, maxTotalBytes: nat, maxAge: nat)

  datatype Decision = Decision(expired: seq<Str>, evictedByCount: seq<Str>, evictedByBytes: seq<Str>, retained: seq<Str>,
      retainedBytes: int)

  predicate IsSafeCount(n: int) {
    0 <= n <= MAX_SAFE_INTEGER
  }

  predicate ArtifactOk(a: Artifact) {
    IsSafeCount(a.bytes) && IsSafeCount(a.capturedAt)
  }

  predicate UniqueIds(artifacts: seq<Artifact>) {
    forall i, j | 0 <= i < j < |artifacts| :: artifacts[i].id != artifacts[j].id
  }

  /** Identifiers are distinct, sizes and times safe counts. */
  predicate InRange(artifacts: seq<Artifact>, now: int) {
    IsSafeCount(now) && UniqueIds(artifacts) && forall i | 0 <= i < |artifacts| :: ArtifactOk(artifacts[i])
  }

  predicate Accepted(artifacts: seq<Artifact>, now: int, canonicalId: Str -> bool) {
    InRange(artifacts, now) && forall i | 0 <= i < |artifacts| :: canonicalId(artifacts[i].id)
  }

  /** Accepted, one bound for all numbers: below 2^53; and no identifier stands for two artifacts. */
  lemma AcceptedExactly(artifacts: seq<Artifact>, now: int, canonicalId: Str -> bool)
    ensures Accepted(artifacts, now, canonicalId) <==>
      && 0 <= now < 0x20_0000_0000_0000
      && (forall a | a in artifacts :: canonicalId(a.id))
      && (forall a | a in artifacts :: 0 <= a.bytes < 0x20_0000_0000_0000 && 0 <= a.capturedAt < 0x20_0000_0000_0000)
      && (forall i, j | 0 <= i < |artifacts| && 0 <= j < |artifacts| && artifacts[i].id == artifacts[j].id :: i == j)
  {
    if Accepted(artifacts, now, canonicalId) {
      forall i, j | 0 <= i < |artifacts| && 0 <= j < |artifacts| && artifacts[i].id == artifacts[j].id ensures i == j {
        assert !(i < j) && !(j < i);
      }
    }
  }

  predicate IsExpired(policy: Policy, now: int, a: Artifact) {
    now - a.capturedAt > policy.maxAge
  }

  function Ids(s: seq<Artifact>): (r: seq<Str>)
    ensures |r| == |s| && forall i | 0 <= i < |s| :: r[i] == s[i].id
  {
    seq(|s|, i requires 0 <= i < |s| => s[i].id)
  }

  function TotalBytes(s: seq<Artifact>): int {
    if s == [] then 0 else s[0].bytes + TotalBytes(s[1..])
  }

  function Unexpired(policy: Policy, now: int, s: seq<Artifact>): (r: seq<Artifact>)
    ensures forall a :: a in r <==> a in s && !IsExpired(policy, now, a)
  {
    if s == [] then []
    else Unexpired(policy, now, s[..|s| - 1]) + if IsExpired(policy, now, s[|s| - 1]) then [] else [s[|s| - 1]]
  }

  function Expired(policy: Policy, now: int, s: seq<Artifact>): (r: seq<Artifact>)
    ensures forall a :: a in r <==> a in s && IsExpired(policy, now, a)
  {
    if s == [] then []
    else Expired(policy, now, s[..|s| - 1]) + if IsExpired(policy, now, s[|s| - 1]) then [s[|s| - 1]] else []
  }

  /** Older first; the identifier decides between equal times. */
  predicate OlderLe(a: Artifact, b: Artifact) {
    if a.capturedAt != b.capturedAt then a.capturedAt < b.capturedAt else LexLe(a.id, b.id)
  }

  function AgeOrder(): (Artifact, Artifact) -> bool {
    (a, b) => OlderLe(a, b)
  }

  lemma AgeOrderIsTotal()
    ensures TotalPreorder(AgeOrder())
  {
    hide LexLe;
    TextOrderIsTotal();
    var le := TextOrder();
    assert forall a: Str, b: Str :: le(a, b) == LexLe(a, b);
  }

  /** The artifacts still young enough, oldest first. */
  function ByAge(policy: Policy, now: int, artifacts: seq<Artifact>): seq<Artifact> {
    SortBy(Unexpired(policy, now, artifacts), AgeOrder())
  }

  predicate Fits(policy: Policy, s: seq<Artifact>) {
    |s| <= policy.maxArtifacts && TotalBytes(s) <= policy.maxTotalBytes
  }

  /** The suffix from k fits, and no longer one does. */
  predicate IsLongestFitting(policy: Policy, sorted: seq<Artifact>, k: nat)
    requires k <= |sorted|
  {
    Fits(policy, sorted[k..]) && forall j | 0 <= j < k :: !Fits(policy, sorted[j..])
  }

  /** What the policy asks for: the longest fitting suffix by age with its exact bytes. */
  ghost predicate IsExactDecision(policy: Policy, now: int, artifacts: seq<Artifact>, d: Decision) {
    exists k: nat :: k <= |ByAge(policy, now, artifacts)| && IsLongestFitting(policy, ByAge(policy, now, artifacts), k)
      && CutsAt(policy, now, artifacts, d, k, TotalBytes(ByAge(policy, now, artifacts)[k..]))
  }

  /** Artifacts over the count bound. */
  function Excess(policy: Policy, n: nat): (c: nat)
    ensures c <= n
  {
    if n > policy.maxArtifacts then n - policy.maxArtifacts else 0
  }

  /** The decision that keeps the sorted artifacts from k on and reports these bytes. */
  predicate CutsAt(policy: Policy, now: int, artifacts: seq<Artifact>, d: Decision, k: nat, bytes: int) {
    var sorted := ByAge(policy, now, artifacts);
    && k <= |sorted|
    && d.retained == Ids(sorted[k..]) && d.retainedBytes == bytes
    && d.evictedByCount + d.evictedByBytes == Ids(sorted[..k])
    && |d.evictedByCount| == Excess(policy, |sorted|)
    && d.expired == SortBy(Ids(Expired(policy, now, artifacts)), TextOrder())
  }

  // ---------------------------------------------------------------- totals in doubles

  /** The sum as reduce computes it, oldest first. */
  function DoubleSum(s: seq<Artifact>): int {
    if s == [] then 0 else Round(DoubleSum(s[..|s| - 1]) + s[|s| - 1].bytes)
  }

  /** The running total after the artifacts from c to k have been shifted out. */
  function Running(sorted: seq<Artifact>, c: nat, k: nat): int
    requires c <= k <= |sorted|
    decreases k
  {
    if k == c then DoubleSum(sorted[c..]) else Round(Running(sorted, c, k - 1) - sorted[k - 1].bytes)
  }

  /** Shifting stops at the first running total within the bound, or when nothing is left. */
  predicate StopsAt(policy: Policy, sorted: seq<Artifact>, k: nat) {
    var c := Excess(policy, |sorted|);
    && c <= k <= |sorted|
    && (k < |sorted| ==> Running(sorted, c, k) <= policy.maxTotalBytes)
    && forall j | c <= j < k :: Running(sorted, c, j) > policy.maxTotalBytes
  }

  /** The decision for accepted artifacts, with the totals that doubles give. */
  ghost predicate IsDecision(policy: Policy, now: int, artifacts: seq<Artifact>, d: Decision) {
    exists k: nat :: StopsWith(policy, now, artifacts, d, k)
  }

  predicate StopsWith(policy: Policy, now: int, artifacts: seq<Artifact>, d: Decision, k: nat) {
    var sorted := ByAge(policy, now, artifacts);
    StopsAt(policy, sorted, k) && CutsAt(policy, now, artifacts, d, k, Running(sorted, Excess(policy, |sorted|), k))
  }

  /** The loop can stop at one place only. */
  lemma StopIsUnique(policy: Policy, sorted: seq<Artifact>, j: nat, k: nat)
    requires StopsAt(policy, sorted, j) && StopsAt(policy, sorted, k)
    ensures j == k
  {
  }

  /** Every running total is exact, or over the bound together with the true one. */
  predicate NeverMisjudged(policy: Policy, sorted: seq<Artifact>) {
    var c := Excess(policy, |sorted|);
    forall k | c <= k <= |sorted| :: Judged(policy, sorted, c, k)
  }

  predicate Judged(policy: Policy, sorted: seq<Artifact>, c: nat, k: nat)
    requires c <= k <= |sorted|
  {
    || Running(sorted, c, k) == TotalBytes(sorted[k..])
    || (Running(sorted, c, k) > policy.maxTotalBytes && TotalBytes(sorted[k..]) > policy.maxTotalBytes)
  }

  lemma {:induction false} TotalSnoc(s: seq<Artifact>, a: Artifact)
    ensures TotalBytes(s + [a]) == TotalBytes(s) + a.bytes
  {
    if s != [] {
      assert (s + [a])[1..] == s[1..] + [a];
      TotalSnoc(s[1..], a);
    }
  }

  predicate NonNegative(s: seq<Artifact>) {
    forall a | a in s :: a.bytes >= 0
  }

  lemma {:induction false} TotalNonNegative(s: seq<Artifact>)
    requires NonNegative(s)
    ensures TotalBytes(s) >= 0
  {
    if s != [] {
      TotalNonNegative(s[1..]);
    }
  }

  /** A sum up to 2^53 is exact. */
  lemma {:induction false} SumIsExact(s: seq<Artifact>)
    requires NonNegative(s) && TotalBytes(s) <= EXACT
    ensures DoubleSum(s) == TotalBytes(s)
  {
    hide Round;
    if s != [] {
      var rest, last := s[..|s| - 1], s[|s| - 1];
      assert s == rest + [last];
      TotalSnoc(rest, last);
      TotalNonNegative(rest);
      assert last in s;
      SumIsExact(rest);
      RoundIsExact(TotalBytes(s));
    }
  }

  /** From an exact total up to 2^53 on, every running total is exact. */
  lemma StaysExact(sorted: seq<Artifact>, c: nat, k: nat)
    requires c <= k < |sorted| && NonNegative(sorted)
    requires Running(sorted, c, k) == TotalBytes(sorted[k..]) <= EXACT
    ensures Running(sorted, c, k + 1) == TotalBytes(sorted[k + 1..]) <= TotalBytes(sorted[k..])
  {
    hide Round;
    assert sorted[k..][1..] == sorted[k + 1..];
    assert sorted[k] in sorted;
    assert NonNegative(sorted[k + 1..]);
    TotalNonNegative(sorted[k + 1..]);
    RoundIsExact(TotalBytes(sorted[k + 1..]));
  }

  /** With at most 2^53 bytes after the count bound no running total is misjudged. */
  lemma SmallTotalsAreJudged(policy: Policy, sorted: seq<Artifact>)
    requires NonNegative(sorted) && TotalBytes(sorted[Excess(policy, |sorted|)..]) <= EXACT
    ensures NeverMisjudged(policy, sorted)
  {
    hide Round, DoubleSum;
    var c := Excess(policy, |sorted|);
    forall k | c <= k <= |sorted| ensures Judged(policy, sorted, c, k) {
      ExactFrom(sorted, c, k);
    }
  }

  lemma {:induction false} ExactFrom(sorted: seq<Artifact>, c: nat, k: nat)
    requires c <= k <= |sorted| && NonNegative(sorted) && TotalBytes(sorted[c..]) <= EXACT
    ensures Running(sorted, c, k) == TotalBytes(sorted[k..]) <= EXACT
    decreases k
  {
    hide Round;
    if k == c {
      assert NonNegative(sorted[c..]);
      SumIsExact(sorted[c..]);
    } else {
      ExactFrom(sorted, c, k - 1);
      StaysExact(sorted, c, k - 1);
    }
  }

  /** Nothing misjudged: shifting stops where the true totals say, with the true bytes. */
  lemma JudgedStopsExactly(policy: Policy, sorted: seq<Artifact>, k: nat)
    requires StopsAt(policy, sorted, k) && NeverMisjudged(policy, sorted)
    ensures IsLongestFitting(policy, sorted, k)
    ensures Running(sorted, Excess(policy, |sorted|), k) == TotalBytes(sorted[k..])
  {
    hide Running;
    var c := Excess(policy, |sorted|);
    NoBytes();
    assert Judged(policy, sorted, c, k);
    forall j | c <= j < k ensures TotalBytes(sorted[j..]) > policy.maxTotalBytes {
      assert Judged(policy, sorted, c, j);
    }
    CountFirst(policy, sorted, c, k);
  }

  /** Where the loop stops rightly and reports rightly, nothing before or after was misjudged. */
  lemma ExactStopIsJudged(policy: Policy, sorted: seq<Artifact>, k: nat)
    requires NonNegative(sorted) && policy.maxTotalBytes <= EXACT
    requires StopsAt(policy, sorted, k) && IsLongestFitting(policy, sorted, k)
    requires Running(sorted, Excess(policy, |sorted|), k) == TotalBytes(sorted[k..])
    ensures NeverMisjudged(policy, sorted)
  {
    hide Running, DoubleSum;
    var c := Excess(policy, |sorted|);
    forall j | c <= j <= |sorted| ensures Judged(policy, sorted, c, j) {
      if j < k {
        assert !Fits(policy, sorted[j..]);
      } else {
        StaysExactTo(policy, sorted, c, k, j);
      }
    }
  }

  lemma {:induction false} StaysExactTo(policy: Policy, sorted: seq<Artifact>, c: nat, k: nat, j: nat)
    requires c <= k <= j <= |sorted| && NonNegative(sorted)
    requires Running(sorted, c, k) == TotalBytes(sorted[k..]) <= EXACT
    ensures Running(sorted, c, j) == TotalBytes(sorted[j..]) <= EXACT
    decreases j
  {
    hide Running;
    if j > k {
      StaysExactTo(policy, sorted, c, k, j - 1);
      StaysExact(sorted, c, j - 1);
    }
  }

  /**
   Under a bound that a policy can have, the decision is the one the policy asks for exactly when
   no running total is misjudged.
   */
  lemma ExactDecisionExactly(policy: Policy, now: int, artifacts: seq<Artifact>, d: Decision)
    requires InRange(artifacts, now) && policy.maxTotalBytes <= MAX_SAFE_INTEGER && IsDecision(policy, now, artifacts, d)
    ensures IsExactDecision(policy, now, artifacts, d) <==> NeverMisjudged(policy, ByAge(policy, now, artifacts))
  {
    hide Running, NeverMisjudged, StopsAt, IsLongestFitting, TotalBytes, ByAge, Ids, Expired;
    var sorted := ByAge(policy, now, artifacts);
    var c := Excess(policy, |sorted|);
    SortedInRange(policy, now, artifacts);
    var k: nat :| StopsWith(policy, now, artifacts, d, k);
    if NeverMisjudged(policy, sorted) {
      JudgedStopsExactly(policy, sorted, k);
    }
    if IsExactDecision(policy, now, artifacts, d) {
      var e: nat :| e <= |sorted| && IsLongestFitting(policy, sorted, e) && CutsAt(policy, now, artifacts, d, e, TotalBytes(sorted[e..]));
      assert |sorted[e..]| == |sorted[k..]|;
      ExactStopIsJudged(policy, sorted, k);
    }
  }

  /** The true bytes that the count bound leaves. */
  function LeftByCount(policy: Policy, now: int, artifacts: seq<Artifact>): int {
    var sorted := ByAge(policy, now, artifacts);
    TotalBytes(sorted[Excess(policy, |sorted|)..])
  }

  lemma SmallTotalsAreExact(policy: Policy, now: int, artifacts: seq<Artifact>, d: Decision)
    requires InRange(artifacts, now) && IsDecision(policy, now, artifacts, d) && LeftByCount(policy, now, artifacts) <= EXACT
    ensures IsExactDecision(policy, now, artifacts, d)
  {
    hide StopsAt, Running, ByAge, Ids, IsLongestFitting;
    var sorted := ByAge(policy, now, artifacts);
    SortedInRange(policy, now, artifacts);
    SmallTotalsAreJudged(policy, sorted);
    var k: nat :| StopsWith(policy, now, artifacts, d, k);
    JudgedStopsExactly(policy, sorted, k);
  }

  // ---------------------------------------------------------------- where rounding decides

  /** Young artifacts in order of age are what is sorted. */
  lemma OrderedByAge(policy: Policy, now: int, s: seq<Artifact>)
    requires SortedBy(s, AgeOrder()) && forall a | a in s :: !IsExpired(policy, now, a)
    ensures ByAge(policy, now, s) == s
  {
    AllUnexpired(policy, now, s);
    SortedStays(s, AgeOrder());
  }

  lemma {:induction false} AllUnexpired(policy: Policy, now: int, s: seq<Artifact>)
    requires forall a | a in s :: !IsExpired(policy, now, a)
    ensures Unexpired(policy, now, s) == s
  {
    if s != [] {
      var rest, last := s[..|s| - 1], s[|s| - 1];
      assert s == rest + [last];
      assert !IsExpired(policy, now, last);
      AllUnexpired(policy, now, rest);
      hide IsExpired;
      assert Unexpired(policy, now, s) == rest + [last];
    }
  }

  lemma StopsAfterOne(policy: Policy, s: seq<Artifact>)
    requires 2 <= |s| <= policy.maxArtifacts && policy.maxTotalBytes == MAX_SAFE_INTEGER
    requires DoubleSum(s) == EXACT && 1 <= s[0].bytes <= EXACT
    ensures StopsAt(policy, s, 1) && Running(s, 0, 1) == EXACT - s[0].bytes
  {
    hide Round, DoubleSum;
    assert s[0..] == s;
    RoundIsExact(EXACT - s[0].bytes);
  }

  lemma Misjudged(policy: Policy, sorted: seq<Artifact>, k: nat)
    requires Excess(policy, |sorted|) <= k <= |sorted| && !Judged(policy, sorted, Excess(policy, |sorted|), k)
    ensures !NeverMisjudged(policy, sorted)
  {
  }

  function ThreeArtifacts(x: Str, y: Str, z: Str): seq<Artifact> {
    [Artifact(x, 1, 0), Artifact(y, MAX_SAFE_INTEGER, 1), Artifact(z, 1, 2)]
  }

  /**
   Sizes 1, 2^53 - 1 and 1 under a bound of 2^53 - 1: the sum rounds down to 2^53, so evicting one
   byte seems to be enough. What is retained is over the bound, and reported as meeting it.
   */
  lemma BoundExceeded(x: Str, y: Str, z: Str, d: Decision)
    requires x != y && x != z && y != z
    requires IsDecision(Policy(3, MAX_SAFE_INTEGER, 2), 2, ThreeArtifacts(x, y, z), d)
    ensures d.retained == [y, z] && d.retainedBytes == MAX_SAFE_INTEGER
    ensures TotalBytes(ThreeArtifacts(x, y, z)[1..]) == MAX_SAFE_INTEGER + 1
    ensures !IsExactDecision(Policy(3, MAX_SAFE_INTEGER, 2), 2, ThreeArtifacts(x, y, z), d)
  {
    hide LexLe, SortBy, Round, Expired, NeverMisjudged, IsExactDecision, DoubleSum, StopsAt, ByAge, Ids;
    var policy := Policy(3, MAX_SAFE_INTEGER, 2);
    var s := ThreeArtifacts(x, y, z);
    ThreeByAge(policy, x, y, z);
    SumOfThree(s);
    StopsAfterOne(policy, s);
    var k: nat :| StopsWith(policy, 2, s, d, k);
    StopIsUnique(policy, s, k, 1);
    Misjudged(policy, s, 1);
    ExactDecisionExactly(policy, 2, s, d);
  }

  lemma ThreeByAge(policy: Policy, x: Str, y: Str, z: Str)
    requires x != y && x != z && y != z && policy.maxAge == 2
    ensures ByAge(policy, 2, ThreeArtifacts(x, y, z)) == ThreeArtifacts(x, y, z) && InRange(ThreeArtifacts(x, y, z), 2)
    ensures Ids(ThreeArtifacts(x, y, z)[1..]) == [y, z]
    ensures TotalBytes(ThreeArtifacts(x, y, z)[1..]) == MAX_SAFE_INTEGER + 1
  {
    hide LexLe, SortBy;
    var s := ThreeArtifacts(x, y, z);
    OrderedByAge(policy, 2, s);
    assert s[1..] == [s[1], s[2]];
    assert s[1..][1..] == [s[2]] && [s[2]][1..] == [];
    assert TotalBytes([s[2]]) == 1;
  }

  lemma SumOfThree(s: seq<Artifact>)
    requires |s| == 3 && s[0].bytes == 1 && s[1].bytes == MAX_SAFE_INTEGER && s[2].bytes == 1
    ensures DoubleSum(s) == EXACT
  {
    hide Round;
    assert s[..2][..1] == s[..1] && s[..1][..0] == [];
    RoundIsExact(1);
    RoundIsExact(EXACT);
    TieGoesDown();
    assert DoubleSum(s[..1]) == 1;
    assert DoubleSum(s[..2]) == EXACT;
  }

  function Name(n: nat): Str {
    seq(n, _ => 0x61)
  }

  lemma {:induction false} NamesInOrder(i: nat, j: nat)
    ensures LexLe(Name(i), Name(j)) <==> i <= j
  {
    if i > 0 && j > 0 {
      assert Name(i)[1..] == Name(i - 1) && Name(j)[1..] == Name(j - 1);
      NamesInOrder(i - 1, j - 1);
    }
  }

  /** The largest size first, then n times one byte, all of one age. */
  function OnesAfterLargest(n: nat): (s: seq<Artifact>)
    ensures |s| == n + 1
  {
    seq(n + 1, i requires 0 <= i < n + 1 => Artifact(Name(i + 1), if i == 0 then MAX_SAFE_INTEGER else 1, 0))
  }

  lemma OnesInRange(n: nat)
    ensures InRange(OnesAfterLargest(n), 0) && SortedBy(OnesAfterLargest(n), AgeOrder())
  {
    hide LexLe;
    var s := OnesAfterLargest(n);
    forall i, j | 0 <= i < j < |s| ensures s[i].id != s[j].id && AgeOrder()(s[i], s[j]) {
      assert |Name(i + 1)| == i + 1;
      NamesInOrder(i + 1, j + 1);
    }
  }

  /** Each further byte is lost in the rounding. */
  lemma {:induction false} OnesAreLost(n: nat)
    requires n >= 1
    ensures DoubleSum(OnesAfterLargest(n)) == EXACT && TotalBytes(OnesAfterLargest(n)) == MAX_SAFE_INTEGER + n
  {
    hide Round;
    var s := OnesAfterLargest(n);
    var rest := OnesAfterLargest(n - 1);
    assert s[..n] == rest && s == rest + [s[n]];
    TotalSnoc(rest, s[n]);
    if n == 1 {
      assert rest[..0] == [] && rest[1..] == [];
      assert TotalBytes(rest) == MAX_SAFE_INTEGER;
      assert DoubleSum(rest) == Round(MAX_SAFE_INTEGER);
      RoundIsExact(MAX_SAFE_INTEGER);
      RoundIsExact(EXACT);
    } else {
      OnesAreLost(n - 1);
      TieGoesDown();
    }
  }

  /** Whatever is accepted and leaves this many bytes under a bound that a policy can have is decided rightly. */
  ghost predicate AlwaysExact(total: int) {
    forall policy: Policy, now, artifacts, d |
      policy.maxTotalBytes <= MAX_SAFE_INTEGER && InRange(artifacts, now) && IsDecision(policy, now, artifacts, d) ::
      LeftByCount(policy, now, artifacts) == total ==> IsExactDecision(policy, now, artifacts, d)
  }

  /** Totals up to 2^53, and no others, are always decided as the policy asks. */
  lemma AlwaysExactExactly(total: int)
    ensures AlwaysExact(total) <==> total <= EXACT
  {
    if total <= EXACT {
      SmallTotalsAlwaysExact(total);
    } else {
      LargeTotalMisjudged(total);
    }
  }

  lemma SmallTotalsAlwaysExact(total: int)
    requires total <= EXACT
    ensures AlwaysExact(total)
  {
    hide InRange, IsDecision, LeftByCount, IsExactDecision;
    forall policy: Policy, now, artifacts, d | policy.maxTotalBytes <= MAX_SAFE_INTEGER && InRange(artifacts, now)
      && IsDecision(policy, now, artifacts, d) && LeftByCount(policy, now, artifacts) == total
      ensures IsExactDecision(policy, now, artifacts, d)
    {
      SmallTotalsAreExact(policy, now, artifacts, d);
    }
  }

  lemma LargeTotalMisjudged(total: int)
    requires total > EXACT
    ensures !AlwaysExact(total)
  {
    hide LexLe, SortBy, Expired, Unexpired, DoubleSum, Round, OnesAfterLargest, InRange, NeverMisjudged, IsExactDecision;
    var n := total - MAX_SAFE_INTEGER;
    var s := OnesAfterLargest(n);
    var policy := Policy(|s|, MAX_SAFE_INTEGER, 0);
    OnesInRange(n);
    OnesAreLost(n);
    YoungOnes(n);
    OrderedByAge(policy, 0, s);
    StopsAfterOne(policy, s);
    var d := Decision(SortBy(Ids(Expired(policy, 0, s)), TextOrder()), [], Ids(s[..1]), Ids(s[1..]), Running(s, 0, 1));
    assert StopsWith(policy, 0, s, d, 1);
    assert s[0..] == s;
    Misjudged(policy, s, 1);
    ExactDecisionExactly(policy, 0, s, d);
  }

  lemma YoungOnes(n: nat)
    ensures forall a | a in OnesAfterLargest(n) :: a.capturedAt == 0
    ensures OnesAfterLargest(n)[0].bytes == MAX_SAFE_INTEGER
  {
  }

  // ---------------------------------------------------------------- the true totals

  lemma SortedInRange(policy: Policy, now: int, artifacts: seq<Artifact>)
    requires InRange(artifacts, now)
    ensures forall a | a in ByAge(policy, now, artifacts) :: ArtifactOk(a)
    ensures NonNegative(ByAge(policy, now, artifacts))
  {
    hide SortBy, ArtifactOk;
    var sorted := ByAge(policy, now, artifacts);
    SortPermutes(Unexpired(policy, now, artifacts), AgeOrder());
    forall a | a in sorted ensures ArtifactOk(a) {
      assert a in multiset(sorted);
      assert a in artifacts;
    }
    SizesNonNegative(sorted);
  }

  lemma SizesNonNegative(s: seq<Artifact>)
    requires forall a | a in s :: ArtifactOk(a)
    ensures NonNegative(s)
  {
  }

  lemma {:induction false} BytesDrop(s: seq<Artifact>, j: nat, k: nat)
    requires j <= k <= |s| && forall a | a in s :: ArtifactOk(a)
    ensures TotalBytes(s[j..]) >= TotalBytes(s[k..]) >= 0
    decreases |s| - j
  {
    if j < |s| {
      assert s[j..][1..] == s[j + 1..];
      assert s[j] in s;
      BytesDrop(s, j + 1, if k > j then k else j + 1);
    }
  }

  /** Fitting suffixes are exactly those of the longest one, so keeping the newest is optimal. */
  lemma FittingSuffixes(policy: Policy, sorted: seq<Artifact>, k: nat, j: nat)
    requires k <= |sorted| && j <= |sorted| && IsLongestFitting(policy, sorted, k) && forall a | a in sorted :: ArtifactOk(a)
    ensures Fits(policy, sorted[j..]) <==> j >= k
  {
    if j >= k {
      BytesDrop(sorted, k, j);
    }
  }

  lemma IdsSnoc(s: seq<Artifact>, a: Artifact)
    ensures Ids(s + [a]) == Ids(s) + [a.id]
  {
  }

  lemma {:induction false} FilterSplits(policy: Policy, now: int, s: seq<Artifact>)
    ensures multiset(Ids(Expired(policy, now, s))) + multiset(Ids(Unexpired(policy, now, s))) == multiset(Ids(s))
  {
    if s != [] {
      var n := |s| - 1;
      hide Ids;
      FilterSplits(policy, now, s[..n]);
      assert s == s[..n] + [s[n]];
      IdsSnoc(s[..n], s[n]);
      IdsSnoc(Expired(policy, now, s[..n]), s[n]);
      IdsSnoc(Unexpired(policy, now, s[..n]), s[n]);
      if IsExpired(policy, now, s[n]) {
        assert Unexpired(policy, now, s) == Unexpired(policy, now, s[..n]);
      } else {
        assert Expired(policy, now, s) == Expired(policy, now, s[..n]);
      }
    }
  }

  lemma IdsCons(s: seq<Artifact>)
    requires s != []
    ensures Ids(s) == [s[0].id] + Ids(s[1..])
  {
  }

  lemma {:induction false} InsertIds(a: Artifact, s: seq<Artifact>)
    ensures multiset(Ids(Insert(a, s, AgeOrder()))) == multiset(Ids(s)) + multiset{a.id}
  {
    hide OlderLe, Ids;
    var r := Insert(a, s, AgeOrder());
    IdsCons(r);
    if s == [] {
      assert r[1..] == [];
    } else if AgeOrder()(a, s[0]) {
      assert r[1..] == s;
    } else {
      IdsCons(s);
      InsertIds(a, s[1..]);
      assert r[1..] == Insert(a, s[1..], AgeOrder());
    }
  }

  lemma {:induction false} SortIds(s: seq<Artifact>)
    ensures multiset(Ids(SortBy(s, AgeOrder()))) == multiset(Ids(s))
  {
    hide OlderLe, Ids;
    if s != [] {
      SortIds(s[1..]);
      InsertIds(s[0], SortBy(s[1..], AgeOrder()));
      IdsCons(s);
    }
  }

  /** Every artifact is in exactly one of expired, evicted and retained. */
  lemma DecisionPartitions(policy: Policy, now: int, artifacts: seq<Artifact>, d: Decision)
    requires IsDecision(policy, now, artifacts, d)
    ensures multiset(d.expired) + multiset(d.evictedByCount) + multiset(d.evictedByBytes) + multiset(d.retained) ==
        multiset(Ids(artifacts))
  {
    hide StopsAt, SortBy, Ids;
    var sorted := ByAge(policy, now, artifacts);
    var k: nat :| StopsWith(policy, now, artifacts, d, k);
    FilterSplits(policy, now, artifacts);
    SortIds(Unexpired(policy, now, artifacts));
    SortPermutes(Ids(Expired(policy, now, artifacts)), TextOrder());
    IdsSplit(sorted, k);
  }

  /** What expires is what was captured longer than the maximum age ago. */
  lemma ExpiredExactly(policy: Policy, now: int, artifacts: seq<Artifact>, d: Decision, id: Str)
    requires IsDecision(policy, now, artifacts, d)
    ensures id in d.expired <==> exists a | a in artifacts :: a.id == id && a.capturedAt + policy.maxAge < now
  {
    hide StopsAt, SortBy, LexLe;
    var k: nat :| StopsWith(policy, now, artifacts, d, k);
    var stale := Expired(policy, now, artifacts);
    SortPermutes(Ids(stale), TextOrder());
    assert id in d.expired <==> id in multiset(Ids(stale));
    if id in Ids(stale) {
      var i :| 0 <= i < |stale| && Ids(stale)[i] == id;
      assert stale[i] in stale;
    }
    if a :| a in artifacts && a.id == id && a.capturedAt + policy.maxAge < now {
      assert IsExpired(policy, now, a) && a in stale;
      var i :| 0 <= i < |stale| && stale[i] == a;
      assert Ids(stale)[i] == id;
    }
  }

  /** What is retained was captured no earlier than what is evicted; at the same time the identifier decides. */
  lemma RetainedAreNewest(policy: Policy, now: int, artifacts: seq<Artifact>, d: Decision, a: Artifact, b: Artifact)
    requires IsDecision(policy, now, artifacts, d) && UniqueIds(artifacts) && a in artifacts && b in artifacts
    requires a.id in d.retained && b.id in d.evictedByCount + d.evictedByBytes
    ensures b.capturedAt < a.capturedAt || (b.capturedAt == a.capturedAt && LexLe(b.id, a.id))
  {
    hide StopsAt, SortBy, LexLe, Ids, ByAge, Expired, Unexpired, Running, UniqueIds;
    var k: nat :| StopsWith(policy, now, artifacts, d, k);
    var sorted := ByAge(policy, now, artifacts);
    ByAgeFacts(policy, now, artifacts);
    IdsIn(sorted, k, a.id);
    IdsIn(sorted, k, b.id);
    var i :| k <= i < |sorted| && sorted[i].id == a.id;
    var j :| 0 <= j < k && sorted[j].id == b.id;
    UniqueMembers(artifacts);
    assert sorted[i] == a && sorted[j] == b;
    assert OlderLe(sorted[j], sorted[i]);
  }

  lemma ByAgeFacts(policy: Policy, now: int, artifacts: seq<Artifact>)
    ensures var sorted := ByAge(policy, now, artifacts);
      && (forall x | x in sorted :: x in artifacts)
      && forall i, j | 0 <= i < j < |sorted| :: OlderLe(sorted[i], sorted[j])
  {
    hide SortBy, OlderLe;
    var sorted := ByAge(policy, now, artifacts);
    AgeOrderIsTotal();
    SortSorts(Unexpired(policy, now, artifacts), AgeOrder());
    SortPermutes(Unexpired(policy, now, artifacts), AgeOrder());
    forall x | x in sorted ensures x in artifacts {
      assert x in multiset(sorted);
    }
    forall i, j | 0 <= i < j < |sorted| ensures OlderLe(sorted[i], sorted[j]) {
      assert AgeOrder()(sorted[i], sorted[j]);
    }
  }

  lemma IdsIn(s: seq<Artifact>, k: nat, id: Str)
    requires k <= |s|
    ensures id in Ids(s[k..]) <==> exists i :: k <= i < |s| && s[i].id == id
    ensures id in Ids(s[..k]) <==> exists j :: 0 <= j < k && s[j].id == id
  {
    if i :| k <= i < |s| && s[i].id == id {
      assert Ids(s[k..])[i - k] == id;
    }
    if j :| 0 <= j < k && s[j].id == id {
      assert Ids(s[..k])[j] == id;
    }
    if id in Ids(s[k..]) {
      var i :| 0 <= i < |s| - k && Ids(s[k..])[i] == id;
      assert s[k + i].id == id;
    }
  }

  lemma IdsSplit(s: seq<Artifact>, k: nat)
    requires k <= |s|
    ensures Ids(s) == Ids(s[..k]) + Ids(s[k..])
  {
  }

  lemma {:induction false} FilterIgnoresOrder(policy: Policy, now: int, s: seq<Artifact>, a: Artifact)
    ensures multiset(Unexpired(policy, now, s))[a] == if IsExpired(policy, now, a) then 0 else multiset(s)[a]
    ensures multiset(Expired(policy, now, s))[a] == if IsExpired(policy, now, a) then multiset(s)[a] else 0
  {
    if s != [] {
      assert s == s[..|s| - 1] + [s[|s| - 1]];
      FilterIgnoresOrder(policy, now, s[..|s| - 1], a);
    }
  }

  lemma UniqueMembers(s: seq<Artifact>)
    requires UniqueIds(s)
    ensures forall a, b | a in s && b in s && a.id == b.id :: a == b
  {
  }

  /** The decision does not depend on the order in which the artifacts are given. */
  lemma DecisionIgnoresOrder(policy: Policy, now: int, a: seq<Artifact>, b: seq<Artifact>, d: Decision, e: Decision)
    requires multiset(a) == multiset(b) && UniqueIds(a)
    requires IsDecision(policy, now, a, d) && IsDecision(policy, now, b, e)
    ensures d == e
  {
    hide LexLe, SortBy, Fits;
    AgeOrderIsTotal();
    TextOrderIsTotal();
    UniqueMembers(a);
    var u, v := Unexpired(policy, now, a), Unexpired(policy, now, b);
    var x, y := Expired(policy, now, a), Expired(policy, now, b);
    forall z ensures multiset(u)[z] == multiset(v)[z] && multiset(x)[z] == multiset(y)[z] {
      FilterIgnoresOrder(policy, now, a, z);
      FilterIgnoresOrder(policy, now, b, z);
    }
    assert multiset(u) == multiset(v) && multiset(x) == multiset(y);
    SortIgnoresOrder(u, v, AgeOrder());
    SameIds(x, y);
    SortIgnoresOrder(Ids(x), Ids(y), TextOrder());
    SameCut(policy, now, a, b, d, e);
  }

  lemma SameCut(policy: Policy, now: int, a: seq<Artifact>, b: seq<Artifact>, d: Decision, e: Decision)
    requires IsDecision(policy, now, a, d) && IsDecision(policy, now, b, e) && ByAge(policy, now, a) == ByAge(policy, now, b)
    requires SortBy(Ids(Expired(policy, now, a)), TextOrder()) == SortBy(Ids(Expired(policy, now, b)), TextOrder())
    ensures d == e
  {
    hide SortBy, ByAge, Ids, StopsAt, Running;
    var sorted := ByAge(policy, now, a);
    var j: nat :| StopsWith(policy, now, a, d, j);
    var k: nat :| StopsWith(policy, now, b, e, k);
    StopIsUnique(policy, sorted, j, k);
    assert d.evictedByCount == Ids(sorted[..j])[..|d.evictedByCount|] && d.evictedByBytes == Ids(sorted[..j])[|d.evictedByCount|..];
    assert e.evictedByCount == Ids(sorted[..j])[..|e.evictedByCount|] && e.evictedByBytes == Ids(sorted[..j])[|e.evictedByCount|..];
  }

  lemma SameIds(x: seq<Artifact>, y: seq<Artifact>)
    requires multiset(x) == multiset(y) && forall a, b | a in x && b in x && a.id == b.id :: a == b
    ensures multiset(Ids(x)) == multiset(Ids(y))
  {
    hide SortBy, Ids, LexLe;
    AgeOrderIsTotal();
    TextOrderIsTotal();
    SortIds(x);
    SortIds(y);
    SortIgnoresOrder(x, y, AgeOrder());
  }

  // ---------------------------------------------------------------- the evaluation

  /** The loop over the artifacts that rejects what is not accepted. */
  method CheckArtifacts(artifacts: seq<Artifact>, now: int, canonicalId: Str -> bool) returns (ok: bool)
    ensures ok <==> Accepted(artifacts, now, canonicalId)
  {
    if !IsSafeCount(now) {
      return false;
    }
    var seen: set<Str> := {};
    for i := 0 to |artifacts|
      invariant UniqueIds(artifacts[..i])
      invariant forall k | 0 <= k < i :: ArtifactOk(artifacts[k]) && canonicalId(artifacts[k].id)
      invariant forall x :: x in seen <==> exists k :: 0 <= k < i && artifacts[k].id == x
    {
      var artifact := artifacts[i];
      if !canonicalId(artifact.id) || artifact.id in seen || !ArtifactOk(artifact) {
        return false;
      }
      seen := seen + {artifact.id};
    }
    assert artifacts[..|artifacts|] == artifacts;
    return true;
  }

  lemma Evict(sorted: seq<Artifact>, k: nat)
    requires k < |sorted|
    ensures sorted[k..][0] == sorted[k] && sorted[k..][1..] == sorted[k + 1..]
    ensures Ids(sorted[..k + 1]) == Ids(sorted[..k]) + [sorted[k].id]
    ensures TotalBytes(sorted[k..]) == sorted[k].bytes + TotalBytes(sorted[k + 1..])
  {
    assert sorted[k..][1..] == sorted[k + 1..];
  }

  /** Filtering in input order. */
  method SplitExpired(policy: Policy, artifacts: seq<Artifact>, now: int) returns (expired: seq<Str>, candidates: seq<Artifact>)
    ensures expired == Ids(Expired(policy, now, artifacts)) && candidates == Unexpired(policy, now, artifacts)
  {
    hide Ids;
    expired, candidates := [], [];
    NoIds([]);
    for i := 0 to |artifacts|
      invariant expired == Ids(Expired(policy, now, artifacts[..i])) && candidates == Unexpired(policy, now, artifacts[..i])
    {
      assert artifacts[..i + 1][..i] == artifacts[..i];
      IdsSnoc(Expired(policy, now, artifacts[..i]), artifacts[i]);
      if IsExpired(policy, now, artifacts[i]) {
        expired := expired + [artifacts[i].id];
      } else {
        candidates := candidates + [artifacts[i]];
      }
    }
    assert artifacts[..|artifacts|] == artifacts;
  }

  lemma CountFirst(policy: Policy, sorted: seq<Artifact>, c: nat, k: nat)
    requires c <= k <= |sorted| && c == Excess(policy, |sorted|)
    requires TotalBytes(sorted[k..]) <= policy.maxTotalBytes
    requires forall j | c <= j < k :: TotalBytes(sorted[j..]) > policy.maxTotalBytes
    ensures IsLongestFitting(policy, sorted, k)
  {
  }

  /** Shifts the oldest out while there are too many. */
  method EvictByCount(policy: Policy, sorted: seq<Artifact>) returns (evicted: seq<Str>, candidates: seq<Artifact>, ghost k: nat)
    ensures k == Excess(policy, |sorted|)
    ensures evicted == Ids(sorted[..k]) && candidates == sorted[k..]
  {
    hide Ids, TotalBytes;
    candidates, evicted, k := sorted, [], 0;
    NoIds(sorted);
    while |candidates| > policy.maxArtifacts
      invariant k <= |sorted| && candidates == sorted[k..]
      invariant evicted == Ids(sorted[..k])
      invariant k > 0 ==> |candidates| >= policy.maxArtifacts
      decreases |candidates|
    {
      Evict(sorted, k);
      evicted := evicted + [candidates[0].id];
      candidates := candidates[1..];
      k := k + 1;
    }
  }

  lemma NoIds(s: seq<Artifact>)
    ensures Ids(s[..0]) == [] && s[0..] == s
  {
  }

  /** Shifts the oldest out while the running total is over the byte bound. */
  method EvictByBytes(policy: Policy, remaining: seq<Artifact>, ghost sorted: seq<Artifact>)
    returns (evicted: seq<Str>, candidates: seq<Artifact>, retainedBytes: int, ghost k: nat)
    requires remaining == sorted[Excess(policy, |sorted|)..]
    ensures StopsAt(policy, sorted, k) && k <= |sorted| && candidates == sorted[k..]
    ensures retainedBytes == Running(sorted, Excess(policy, |sorted|), k)
    ensures Ids(sorted[..Excess(policy, |sorted|)]) + evicted == Ids(sorted[..k])
  {
    hide Ids, DoubleSum, Round;
    ghost var c := Excess(policy, |sorted|);
    candidates, evicted, k := remaining, [], c;
    retainedBytes := SumBytes(candidates);
    while retainedBytes > policy.maxTotalBytes && |candidates| > 0
      invariant c <= k <= |sorted| && candidates == sorted[k..]
      invariant Ids(sorted[..c]) + evicted == Ids(sorted[..k])
      invariant retainedBytes == Running(sorted, c, k)
      invariant forall j | c <= j < k :: Running(sorted, c, j) > policy.maxTotalBytes
      decreases |candidates|
    {
      Evict(sorted, k);
      evicted := evicted + [candidates[0].id];
      retainedBytes := Round(retainedBytes - candidates[0].bytes);
      candidates := candidates[1..];
      k := k + 1;
    }
  }

  lemma NoBytes()
    ensures TotalBytes([]) == 0
  {
  }

  /**
   An error exactly for what is not accepted; otherwise the decision, by two eviction loops. It is
   the one the policy asks for when the bytes left by the count bound are at most 2^53.
   */
  method EvaluateRetention(policy: Policy, artifacts: seq<Artifact>, now: int, canonicalId: Str -> bool)
    returns (r: Option<Decision>)
    ensures r.Some? <==> Accepted(artifacts, now, canonicalId)
    ensures r.Some? ==> IsDecision(policy, now, artifacts, r.value)
    ensures r.Some? && LeftByCount(policy, now, artifacts) <= EXACT ==> IsExactDecision(policy, now, artifacts, r.value)
  {
    hide SortBy, Expired, Unexpired, StopsAt, InRange, TotalBytes, Ids, OlderLe, Running, DoubleSum, IsExactDecision, LeftByCount;
    var ok := CheckArtifacts(artifacts, now, canonicalId);
    if !ok {
      return None;
    }
    var expired, unexpired := SplitExpired(policy, artifacts, now);
    var candidates := SortBy(unexpired, AgeOrder());
    ghost var sorted := candidates;
    var evictedByCount, evictedByBytes;
    ghost var c, k;
    var retainedBytes;
    evictedByCount, candidates, c := EvictByCount(policy, candidates);
    evictedByBytes, candidates, retainedBytes, k := EvictByBytes(policy, candidates, sorted);
    var decision := Decision(SortBy(expired, TextOrder()), evictedByCount, evictedByBytes, Ids(candidates), retainedBytes);
    assert StopsWith(policy, now, artifacts, decision, k);
    if LeftByCount(policy, now, artifacts) <= EXACT {
      SmallTotalsAreExact(policy, now, artifacts, decision);
    }
    return Some(decision);
  }

  method SumBytes(s: seq<Artifact>) returns (total: int)
    ensures total == DoubleSum(s)
  {
    hide Round;
    total := 0;
    for i := 0 to |s|
      invariant total == DoubleSum(s[..i])
    {
      assert s[..i + 1][..i] == s[..i];
      total := Round(total + s[i].bytes);
    }
    assert s[..|s|] == s;
  }
}
