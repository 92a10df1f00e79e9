/**
 The combined working-tree diff: raw records, a NUL, and a patch. The patch is split into blocks
 at its headers and the blocks are aligned with the entries, a type change consuming two.
 */
module GitDiff {
  import opened Wrappers
  import opened Text
  import opened GitRecords

  // ---------------------------------------------------------------- searching

  predicate OccursAt(s: Bytes, needle: Bytes, at: nat) {
    at + |needle| <= |s| && s[at..at + |needle|] == needle
  }

  /** Buffer.indexOf: the first occurrence at or after an index. */
  function IndexOf(s: Bytes, needle: Bytes, start: nat): (r: Option<nat>)
    ensures r.Some? ==> start <= r.value && OccursAt(s, needle, r.value)
    ensures forall at: nat | start <= at && OccursAt(s, needle, at) :: r.Some? && r.value <= at
    decreases |s| - start
  {
    if OccursAt(s, needle, start) then Some(start)
    else if start < |s| then IndexOf(s, needle, start + 1)
    else None
  }

  function HeaderBytes(): (b: Bytes)
    ensures |b| == 11 && 0x0A !in b && 0 !in b
  {
    [0x64, 0x69, 0x66, 0x66, 0x20, 0x2D, 0x2D, 0x67, 0x69, 0x74, 0x20]
  }

  /** "diff --git " starts every block; a line break before it separates blocks. */
  const PATCH_BLOCK_HEADER: Bytes := HeaderBytes()
  const PATCH_BLOCK_SEPARATOR: Bytes := [0x0A] + HeaderBytes()
  const COMBINED_DIFF_BOUNDARY: Bytes := [0, 0] + HeaderBytes()

  // ---------------------------------------------------------------- patch blocks

  function Concat(blocks: seq<Bytes>): Bytes {
    if blocks == [] then [] else blocks[0] + Concat(blocks[1..])
  }

  lemma {:induction false} ConcatAppend(a: seq<Bytes>, b: seq<Bytes>)
    ensures Concat(a + b) == Concat(a) + Concat(b)
  {
    if a == [] {
      assert a + b == b;
    } else {
      assert (a + b)[1..] == a[1..] + b;
      ConcatAppend(a[1..], b);
    }
  }

  /** A block starts with the header and no later line of it does. */
  ghost predicate IsBlock(b: Bytes) {
    PATCH_BLOCK_HEADER <= b && forall at: nat :: !OccursAt(b, PATCH_BLOCK_SEPARATOR, at)
  }

  predicate LineEnded(b: Bytes) {
    b != [] && b[|b| - 1] == 0x0A
  }

  /** Blocks that make up a patch: every one but the last ends its line. */
  ghost predicate IsSplit(patch: Bytes, blocks: seq<Bytes>) {
    && Concat(blocks) == patch
    && (forall i | 0 <= i < |blocks| :: IsBlock(blocks[i]))
    && (forall i | 0 <= i < |blocks| - 1 :: LineEnded(blocks[i]))
  }

  lemma SameOccurrence(b: Bytes, rest: Bytes, at: nat)
    requires at + 12 <= |b|
    ensures OccursAt(b, PATCH_BLOCK_SEPARATOR, at) <==> OccursAt(b + rest, PATCH_BLOCK_SEPARATOR, at)
  {
    assert (b + rest)[at..at + 12] == b[at..at + 12];
  }

  /** A separator has one line break, at its start. */
  lemma LineBreaksInSeparator(s: Bytes, at: nat, j: nat)
    requires OccursAt(s, PATCH_BLOCK_SEPARATOR, at) && at <= j < at + 12
    ensures s[j] == 0x0A <==> j == at
  {
    assert s[j] == s[at..at + 12][j - at] == PATCH_BLOCK_SEPARATOR[j - at];
    assert j > at ==> PATCH_BLOCK_SEPARATOR[j - at] in PATCH_BLOCK_HEADER;
  }

  lemma HeaderHasNoLineBreak(b: Bytes, j: nat)
    requires PATCH_BLOCK_HEADER <= b && j < 11
    ensures b[j] != 0x0A
  {
    assert b[j] == PATCH_BLOCK_HEADER[j] && PATCH_BLOCK_HEADER[j] in PATCH_BLOCK_HEADER;
  }

  /** Where a line-ended block meets the next one there is a separator, and none before it. */
  lemma SeparatorBetween(b: Bytes, next: Bytes, tail: Bytes)
    requires IsBlock(b) && PATCH_BLOCK_HEADER <= next && LineEnded(b)
    ensures |b| > 11 && OccursAt(b + (next + tail), PATCH_BLOCK_SEPARATOR, |b| - 1)
    ensures forall at: nat | OccursAt(b + (next + tail), PATCH_BLOCK_SEPARATOR, at) :: at >= |b| - 1
  {
    var s := b + (next + tail);
    HeaderHasNoLineBreak(b, 10);
    assert next[..11] == PATCH_BLOCK_HEADER;
    assert s[|b| - 1..|b| + 11] == [b[|b| - 1]] + next[..11];
    forall at: nat | OccursAt(s, PATCH_BLOCK_SEPARATOR, at) ensures at >= |b| - 1 {
      if at + 12 <= |b| {
        SameOccurrence(b, next + tail, at);
      } else if at < |b| - 1 {
        LineBreaksInSeparator(s, at, |b| - 1);
      }
    }
  }

  /** In a split patch, the first block ends at the first separator, or with the patch. */
  lemma FirstBlock(patch: Bytes, blocks: seq<Bytes>)
    requires IsSplit(patch, blocks) && blocks != []
    ensures IsSplit(patch[|blocks[0]|..], blocks[1..])
    ensures blocks[0] == match IndexOf(patch, PATCH_BLOCK_SEPARATOR, 11)
                         case None => patch
                         case Some(at) => patch[..at + 1]
    ensures |blocks| == 1 <==> IndexOf(patch, PATCH_BLOCK_SEPARATOR, 11).None?
  {
    hide IndexOf, OccursAt;
    var b, rest := blocks[0], Concat(blocks[1..]);
    assert patch == b + rest && patch[|b|..] == rest;
    assert IsBlock(b);
    forall i | 0 <= i < |blocks[1..]| ensures IsBlock(blocks[1..][i]) {
      assert blocks[1..][i] == blocks[i + 1];
    }
    if |blocks| == 1 {
      assert patch == b;
    } else {
      assert rest == blocks[1] + Concat(blocks[2..]) by {
        assert blocks[1..][1..] == blocks[2..];
      }
      assert IsBlock(blocks[1]);
      SeparatorBetween(b, blocks[1], Concat(blocks[2..]));
      assert patch[..|b|] == b;
    }
  }

  lemma EmptySplit(patch: Bytes, blocks: seq<Bytes>)
    requires IsSplit(patch, blocks)
    ensures blocks == [] <==> patch == []
  {
    if blocks != [] {
      assert IsBlock(blocks[0]);
    }
  }

  /** A patch splits into blocks in at most one way. */
  lemma {:induction false} SplitIsUnique(patch: Bytes, a: seq<Bytes>, b: seq<Bytes>)
    requires IsSplit(patch, a) && IsSplit(patch, b)
    ensures a == b
    decreases |a|
  {
    hide IndexOf;
    EmptySplit(patch, a);
    EmptySplit(patch, b);
    if a != [] {
      FirstBlock(patch, a);
      FirstBlock(patch, b);
      SplitIsUnique(patch[|a[0]|..], a[1..], b[1..]);
      assert a == [a[0]] + a[1..] && b == [b[0]] + b[1..];
    }
  }

  lemma SliceOfSlice(s: Bytes, start: nat, end: nat, i: nat, j: nat)
    requires start <= end <= |s| && i <= j <= end - start
    ensures s[start..end][i..j] == s[start + i..start + j]
  {
    var a, b := s[start..end][i..j], s[start + i..start + j];
    assert |a| == |b| && forall k | 0 <= k < |a| :: a[k] == s[start + i + k] == b[k];
  }

  /** What the search cuts off is a block. */
  lemma CutIsBlock(patch: Bytes, start: nat, end: nat)
    requires start <= end <= |patch| && |patch| - start >= 11 && PATCH_BLOCK_HEADER <= patch[start..]
    requires start + 11 < end || end == |patch|
    requires forall at: nat | start + 11 <= at && OccursAt(patch, PATCH_BLOCK_SEPARATOR, at) :: at >= end - 1
    ensures IsBlock(patch[start..end])
  {
    var b := patch[start..end];
    assert patch[start..][..11] == b[..11];
    forall at: nat ensures !OccursAt(b, PATCH_BLOCK_SEPARATOR, at) {
      if at + 12 <= |b| {
        assert OccursAt(patch, PATCH_BLOCK_SEPARATOR, start + at) <==> OccursAt(b, PATCH_BLOCK_SEPARATOR, at) by {
          SliceOfSlice(patch, start, end, at, at + 12);
        }
        if at < 11 {
          HeaderHasNoLineBreak(b, at);
          NoSeparatorAt(b, at);
        }
      }
    }
  }

  lemma NoSeparatorAt(b: Bytes, at: nat)
    requires at + 12 <= |b| && b[at] != PATCH_BLOCK_SEPARATOR[0]
    ensures !OccursAt(b, PATCH_BLOCK_SEPARATOR, at)
  {
    assert b[at..at + 12][0] == b[at];
  }

  /** Another block, which starts where the last one ended its line. */
  lemma ExtendSplit(done: Bytes, blocks: seq<Bytes>, block: Bytes)
    requires IsSplit(done, blocks) && IsBlock(block)
    requires blocks != [] ==> LineEnded(blocks[|blocks| - 1])
    ensures IsSplit(done + block, blocks + [block]) && (blocks + [block])[|blocks|] == block
  {
    ConcatAppend(blocks, [block]);
    assert Concat([block]) == block + Concat([]) == block;
  }

  lemma NextHeader(patch: Bytes, at: nat)
    requires OccursAt(patch, PATCH_BLOCK_SEPARATOR, at)
    ensures at + 12 <= |patch| && PATCH_BLOCK_HEADER <= patch[at + 1..] && patch[at] == 0x0A
  {
    assert patch[at + 1..][..11] == patch[at..at + 12][1..];
    assert patch[at] == patch[at..at + 12][0];
  }

  lemma NoBlocks()
    ensures IsSplit([], [])
  {
  }

  /** The blocks of a patch, exactly when it is empty or starts with a header. */
  method SplitTrackedPatchBlocks(patch: Bytes) returns (r: Result<seq<Bytes>, DiffError>)
    ensures r.Ok? <==> patch == [] || PATCH_BLOCK_HEADER <= patch
    ensures r.Ok? ==> IsSplit(patch, r.value)
    ensures r.Err? ==> r.error == MissingHeader
  {
    hide IndexOf, OccursAt, IsBlock, IsSplit, Concat, HeaderBytes;
    NoBlocks();
    if |patch| == 0 {
      return Ok([]);
    }
    if !(PATCH_BLOCK_HEADER <= patch) {
      return Err(MissingHeader);
    }
    var blocks: seq<Bytes> := [];
    var start := 0;
    assert patch[0..] == patch;
    assert patch[..0] == [];
    while start < |patch|
      invariant 0 <= start < |patch| && |patch| - start >= 11
      invariant PATCH_BLOCK_HEADER <= patch[start..]
      invariant IsSplit(patch[..start], blocks)
      invariant blocks != [] ==> LineEnded(blocks[|blocks| - 1])
      decreases |patch| - start
    {
      var separator := IndexOf(patch, PATCH_BLOCK_SEPARATOR, start + 11);
      if separator.None? {
        CutIsBlock(patch, start, |patch|);
        assert patch[start..|patch|] == patch[start..];
        ExtendSplit(patch[..start], blocks, patch[start..]);
        assert patch[..start] + patch[start..] == patch;
        return Ok(blocks + [patch[start..]]);
      }
      var end := separator.value + 1;
      NextHeader(patch, separator.value);
      CutIsBlock(patch, start, end);
      ExtendSplit(patch[..start], blocks, patch[start..end]);
      assert patch[..start] + patch[start..end] == patch[..end];
      blocks := blocks + [patch[start..end]];
      start := end;
    }
    assert false;
  }

  // ---------------------------------------------------------------- aligning blocks with entries

  function DeletedMode(mode: Bytes): Bytes {
    Lit("deleted file mode ") + mode
  }

  function NewMode(mode: Bytes): Bytes {
    Lit("new file mode ") + mode
  }

  /** A type change is printed as a deletion and a creation that name the entry's two modes. */
  predicate IsTypeChangePair(e: Entry, first: Bytes, second: Bytes) {
    DeletedMode(e.oldMode) in SplitOn(first, NEWLINE) && NewMode(e.newMode) in SplitOn(second, NEWLINE)
  }

  function BlocksOf(e: Entry): nat {
    if e.status.TypeChanged? then 2 else 1
  }

  /** Index of the first raw block of the entry at an index. */
  function Offset(entries: seq<Entry>, i: nat): (n: nat)
    requires i <= |entries|
    ensures n >= i
  {
    if i == 0 then 0 else Offset(entries, i - 1) + BlocksOf(entries[i - 1])
  }

  lemma {:induction false} OffsetGrows(entries: seq<Entry>, i: nat, j: nat)
    requires i <= j <= |entries|
    ensures Offset(entries, i) <= Offset(entries, j)
  {
    if i < j {
      OffsetGrows(entries, i, j - 1);
    }
  }

  /** The entry at an index gets its own raw blocks, joined. */
  ghost predicate EntryAligned(entries: seq<Entry>, raws: seq<Bytes>, i: nat, block: Bytes)
    requires i < |entries|
  {
    var at := Offset(entries, i);
    if entries[i].status.TypeChanged?
    then at + 1 < |raws| && IsTypeChangePair(entries[i], raws[at], raws[at + 1]) && block == raws[at] + raws[at + 1]
    else at < |raws| && block == raws[at]
  }

  /** One block per entry, a type change taking two raw ones, and none left over. */
  ghost predicate IsAligned(entries: seq<Entry>, raws: seq<Bytes>, blocks: seq<Bytes>) {
    && |blocks| == |entries| && |raws| == Offset(entries, |entries|)
    && forall i | 0 <= i < |entries| :: EntryAligned(entries, raws, i, blocks[i])
  }

  lemma AlignedIsUnique(entries: seq<Entry>, raws: seq<Bytes>, a: seq<Bytes>, b: seq<Bytes>)
    requires IsAligned(entries, raws, a) && IsAligned(entries, raws, b)
    ensures a == b
  {
    hide Offset, IsTypeChangePair;
    forall i | 0 <= i < |entries| ensures a[i] == b[i] {
      assert EntryAligned(entries, raws, i, a[i]) && EntryAligned(entries, raws, i, b[i]);
    }
  }

  /** Aligning loses nothing: the first blocks are the first raw blocks. */
  lemma {:induction false} AlignedPrefix(entries: seq<Entry>, raws: seq<Bytes>, blocks: seq<Bytes>, n: nat)
    requires IsAligned(entries, raws, blocks) && n <= |entries|
    ensures Offset(entries, n) <= |raws| && Concat(blocks[..n]) == Concat(raws[..Offset(entries, n)])
  {
    hide IsTypeChangePair, Concat;
    OffsetGrows(entries, n, |entries|);
    if n == 0 {
      assert blocks[..0] == raws[..0];
    } else {
      AlignedPrefix(entries, raws, blocks, n - 1);
      var at, end := Offset(entries, n - 1), Offset(entries, n);
      assert EntryAligned(entries, raws, n - 1, blocks[n - 1]);
      assert blocks[..n] == blocks[..n - 1] + [blocks[n - 1]];
      assert raws[..end] == raws[..at] + raws[at..end];
      ConcatAppend(blocks[..n - 1], [blocks[n - 1]]);
      ConcatAppend(raws[..at], raws[at..end]);
      ConcatOne(blocks[n - 1]);
      if end == at + 1 {
        assert raws[at..end] == [raws[at]];
      } else {
        assert raws[at..end] == [raws[at]] + [raws[at + 1]];
        ConcatAppend([raws[at]], [raws[at + 1]]);
        ConcatOne(raws[at]);
        ConcatOne(raws[at + 1]);
      }
    }
  }

  lemma ConcatOne(block: Bytes)
    ensures Concat([block]) == block
  {
    assert Concat([block]) == block + Concat([]);
  }

  /** The aligned blocks concatenate to what the raw blocks do. */
  lemma AlignedConcatenates(entries: seq<Entry>, raws: seq<Bytes>, blocks: seq<Bytes>)
    requires IsAligned(entries, raws, blocks)
    ensures Concat(blocks) == Concat(raws)
  {
    AlignedPrefix(entries, raws, blocks, |entries|);
    assert blocks[..|entries|] == blocks && raws[..|raws|] == raws;
  }

  lemma NotAligned(entries: seq<Entry>, raws: seq<Bytes>, i: nat)
    requires i < |entries|
    requires forall block :: !EntryAligned(entries, raws, i, block)
    ensures forall blocks :: !IsAligned(entries, raws, blocks)
  {
    hide EntryAligned;
    forall blocks ensures !IsAligned(entries, raws, blocks) {
      if |blocks| == |entries| {
        assert !EntryAligned(entries, raws, i, blocks[i]);
      }
    }
  }

  /** The aligned blocks, exactly when every entry finds its raw blocks and none is left. */
  method AlignTrackedPatchBlocks(entries: seq<Entry>, raws: seq<Bytes>) returns (r: Result<seq<Bytes>, DiffError>)
    ensures r.Ok? ==> IsAligned(entries, raws, r.value)
    ensures forall blocks | IsAligned(entries, raws, blocks) :: r == Ok(blocks)
    ensures r.Err? ==> r.error in {MissingBlock, IncompletePair, ModeMismatch, Misaligned}
  {
    hide Offset, SplitOn, DeletedMode, NewMode;
    var aligned: seq<Bytes> := [];
    var blockIndex := 0;
    OffsetSteps(entries);
    for i := 0 to |entries|
      invariant blockIndex == Offset(entries, i) && |aligned| == i
      invariant forall k | 0 <= k < i :: EntryAligned(entries, raws, k, aligned[k])
    {
      var entry := entries[i];
      if blockIndex >= |raws| {
        NotAligned(entries, raws, i);
        return Err(MissingBlock);
      }
      var first := raws[blockIndex];
      if !entry.status.TypeChanged? {
        aligned := aligned + [first];
        blockIndex := blockIndex + 1;
      } else {
        if blockIndex + 1 >= |raws| {
          NotAligned(entries, raws, i);
          return Err(IncompletePair);
        }
        var second := raws[blockIndex + 1];
        if DeletedMode(entry.oldMode) !in SplitOn(first, NEWLINE) || NewMode(entry.newMode) !in SplitOn(second, NEWLINE) {
          NotAligned(entries, raws, i);
          return Err(ModeMismatch);
        }
        aligned := aligned + [first + second];
        blockIndex := blockIndex + 2;
      }
    }
    if blockIndex != |raws| {
      return Err(Misaligned);
    }
    forall blocks | IsAligned(entries, raws, blocks) ensures blocks == aligned {
      AlignedIsUnique(entries, raws, blocks, aligned);
    }
    return Ok(aligned);
  }

  lemma OffsetSteps(entries: seq<Entry>)
    ensures Offset(entries, 0) == 0
    ensures forall i | 0 <= i < |entries| :: Offset(entries, i + 1) == Offset(entries, i) + BlocksOf(entries[i])
  {
  }

  // ---------------------------------------------------------------- the combined diff

  datatype TrackedDiff = TrackedDiff(entries: seq<Entry>, blocks: seq<Bytes>)

  /** The output splits into printed entries and the patch that goes with them. */
  ghost predicate IsCombined(output: Bytes, raw: Bytes, patch: Bytes, raws: seq<Bytes>, diff: TrackedDiff, canonical: Bytes -> bool) {
    && output == raw + [0] + patch && raw != [] && PATCH_BLOCK_HEADER <= patch
    && IsRawDiff(raw, diff.entries, canonical) && IsSplit(patch, raws) && IsAligned(diff.entries, raws, diff.blocks)
  }

  /** Nothing for no output; otherwise printed entries, a NUL, and a patch with their blocks. */
  ghost predicate IsTrackedDiff(output: Bytes, diff: TrackedDiff, canonical: Bytes -> bool) {
    if output == [] then diff == TrackedDiff([], [])
    else exists raw, patch, raws :: IsCombined(output, raw, patch, raws, diff, canonical)
  }

  /** Terminated records hold no two NULs in a row and do not start with one. */
  lemma {:induction false} NoDoubleNul(records: seq<Bytes>, i: nat)
    requires AllRecords(records) && i < |Terminate(records)| && Terminate(records)[i] == 0
    ensures i > 0 && (i + 1 < |Terminate(records)| ==> Terminate(records)[i + 1] != 0)
  {
    var head, tail := records[0] + [0], Terminate(records[1..]);
    assert IsRecord(records[0]);
    assert Terminate(records) == head + tail;
    assert forall k | 0 <= k < |records[0]| :: records[0][k] in records[0];
    if i >= |head| {
      NoDoubleNul(records[1..], i - |head|);
    } else {
      if tail != [] {
        StartsNonZero(records[1..]);
      }
    }
  }

  /** The first boundary is the end of the raw part. */
  lemma BoundaryEndsRaw(raw: Bytes, patch: Bytes, entries: seq<Entry>, canonical: Bytes -> bool)
    requires raw != [] && PATCH_BLOCK_HEADER <= patch && IsRawDiff(raw, entries, canonical)
    ensures IndexOf(raw + [0] + patch, COMBINED_DIFF_BOUNDARY, 0) == Some(|raw| - 1)
  {
    hide IndexOf, IsEntry, IsScore, PrintEntries, HeaderBytes;
    var scores :| Printable(entries, scores, canonical) && IsTerminated(raw, PrintEntries(entries, scores));
    var records := PrintEntries(entries, scores);
    LastByte(records);
    var output := raw + [0] + patch;
    assert patch[..11] == PATCH_BLOCK_HEADER;
    assert output[|raw| - 1..|raw| + 12] == [raw[|raw| - 1], 0] + patch[..11];
    assert OccursAt(output, COMBINED_DIFF_BOUNDARY, |raw| - 1);
    forall at: nat | OccursAt(output, COMBINED_DIFF_BOUNDARY, at) ensures at >= |raw| - 1 {
      assert output[at] == output[at..at + 13][0] && output[at + 1] == output[at..at + 13][1];
      if at < |raw| - 1 {
        NoDoubleNul(records, at);
      }
    }
  }

  /** The combined diff parses exactly when it is the printed form of one, and to what was printed. */
  method ParseWorkingTreeTrackedDiff(output: Bytes, canonical: Bytes -> bool) returns (r: Result<TrackedDiff, DiffError>)
    ensures r.Ok? ==> IsTrackedDiff(output, r.value, canonical)
    ensures forall diff | IsTrackedDiff(output, diff, canonical) :: r == Ok(diff)
  {
    hide IndexOf, OccursAt, IsRawDiff, IsSplit, IsAligned, HeaderBytes;
    if |output| == 0 {
      return Ok(TrackedDiff([], []));
    }
    var boundary := IndexOf(output, COMBINED_DIFF_BOUNDARY, 0);
    forall raw, patch, raws, diff | IsCombined(output, raw, patch, raws, diff, canonical)
      ensures boundary == Some(|raw| - 1) && raw == output[..boundary.value + 1] && patch == output[boundary.value + 2..]
    {
      BoundaryEndsRaw(raw, patch, diff.entries, canonical);
    }
    if boundary.None? {
      return Err(MissingBoundary);
    }
    BoundaryCuts(output, boundary.value);
    var raw := output[..boundary.value + 1];
    var patch := output[boundary.value + 2..];
    var entries := ParseWorkingTreeRawDiff(raw, canonical);
    if entries.Err? {
      return Err(entries.error);
    }
    var raws := SplitTrackedPatchBlocks(patch);
    assert raws.Ok?;
    forall other | IsSplit(patch, other) ensures other == raws.value {
      SplitIsUnique(patch, other, raws.value);
    }
    var blocks := AlignTrackedPatchBlocks(entries.value, raws.value);
    if blocks.Err? {
      return Err(blocks.error);
    }
    assert IsCombined(output, raw, patch, raws.value, TrackedDiff(entries.value, blocks.value), canonical);
    return Ok(TrackedDiff(entries.value, blocks.value));
  }

  lemma BoundaryCuts(output: Bytes, at: nat)
    requires OccursAt(output, COMBINED_DIFF_BOUNDARY, at)
    ensures at + 13 <= |output| && PATCH_BLOCK_HEADER <= output[at + 2..]
    ensures output == output[..at + 1] + [0] + output[at + 2..]
  {
    hide HeaderBytes;
    assert output[at + 2..][..11] == output[at..at + 13][2..];
    assert output[at + 1] == output[at..at + 13][1] == 0;
  }

  /** A tracked diff is determined by its output, has one block per entry, and its blocks make up the patch. */
  lemma TrackedDiffFacts(output: Bytes, raw: Bytes, patch: Bytes, raws: seq<Bytes>, diff: TrackedDiff, canonical: Bytes -> bool)
    requires IsCombined(output, raw, patch, raws, diff, canonical)
    ensures |diff.blocks| == |diff.entries| > 0
    ensures Concat(diff.blocks) == patch
    ensures |raws| == |diff.entries| + Count(diff.entries)
  {
    AlignedConcatenates(diff.entries, raws, diff.blocks);
    OffsetCounts(diff.entries, |diff.entries|);
    assert diff.entries[..|diff.entries|] == diff.entries;
    EmptySplit(patch, raws);
  }

  /** Type changes among the entries. */
  function Count(entries: seq<Entry>): nat {
    if entries == [] then 0
    else Count(entries[..|entries| - 1]) + if entries[|entries| - 1].status.TypeChanged? then 1 else 0
  }

  lemma {:induction false} OffsetCounts(entries: seq<Entry>, n: nat)
    requires n <= |entries|
    ensures Offset(entries, n) == n + Count(entries[..n])
  {
    if n > 0 {
      OffsetCounts(entries, n - 1);
      assert entries[..n][..n - 1] == entries[..n - 1];
    }
  }
}
