/**
 The byte stream of the tree digest, field by field: which labels and values stand where, in which
 order the entries come, and which untracked entries are in it.
 */
module TreeFormat {
  import opened Wrappers
  import opened Text
  import opened Sorting
  import opened TreeDigest

  const SLASH: CodeUnit := 0x2F

  /** Streams of fields concatenate, and a field alone is its length, a colon and its bytes. */
  lemma FramesExactly(fields: seq<Bytes>, last: Bytes)
    ensures FrameAll([]) == []
    ensures FrameAll(fields + [last]) == FrameAll(fields) + Decimal(|last|) + Ascii(":") + last
  {
    hide Decimal;
    FrameAllConcat(fields, [last]);
    assert Ascii(":") == [0x3A];
    assert FrameAll([last]) == Frame(last) + FrameAll([]);
  }

  // ---------------------------------------------------------------- blocks of fields

  /** Five fields for each index entry, in this order. */
  lemma {:induction false} IndexBlock(s: seq<IndexEntry>, i: nat)
    ensures |IndexFields(s)| == 5 * |s|
    ensures i < |s| ==>
              IndexFields(s)[5 * i..5 * i + 5] == [Ascii("index-entry"), s[i].mode, s[i].oid, Decimal(s[i].stage), s[i].path]
  {
    hide Ascii, Decimal;
    if s != [] {
      var rest := IndexFields(s[1..]);
      IndexBlock(s[1..], if i == 0 then 0 else i - 1);
      if 0 < i < |s| {
        assert IndexFields(s)[5 * i..5 * i + 5] == rest[5 * (i - 1)..5 * (i - 1) + 5];
      }
    }
  }

  /** Five fields for each untracked entry, in this order. */
  lemma {:induction false} UntrackedBlock(s: seq<UntrackedEntry>, i: nat)
    ensures |UntrackedFields(s)| == 5 * |s|
    ensures i < |s| ==>
              UntrackedFields(s)[5 * i..5 * i + 5] == [Ascii("untracked-entry"), s[i].path, s[i].kind, s[i].mode, s[i].digest]
  {
    hide Ascii;
    if s != [] {
      var rest := UntrackedFields(s[1..]);
      UntrackedBlock(s[1..], if i == 0 then 0 else i - 1);
      if 0 < i < |s| {
        assert UntrackedFields(s)[5 * i..5 * i + 5] == rest[5 * (i - 1)..5 * (i - 1) + 5];
      }
    }
  }

  /** Incomplete is an entry that was not deleted and lacks its type, mode or digest. */
  lemma CompleteExactly(s: seq<UnstagedEntry>)
    ensures AllComplete(s) <==> forall e | e in s && e.state != Deleted :: e.kind != None && e.mode != None && e.digest != None
  {
    if AllComplete(s) {
      forall e | e in s && e.state != Deleted ensures e.kind != None && e.mode != None && e.digest != None {
        var i :| 0 <= i < |s| && s[i] == e;
        assert Complete(s[i]);
      }
    }
  }

  /** The fields of one more unstaged entry: four if it was deleted, six otherwise. */
  lemma UnstagedBlock(s: seq<UnstagedEntry>, path: Bytes, state: UnstagedState, kind: Bytes, mode: Bytes, digest: Bytes)
    requires AllComplete(s)
    ensures UnstagedFields([]) == []
    ensures var all := s + [UnstagedEntry(path, state, Some(kind), Some(mode), Some(digest))];
      AllComplete(all) && UnstagedFields(all) == UnstagedFields(s) + [Ascii("unstaged-entry"), path]
        + match state
          case Modified => [Ascii("modified"), kind, mode, digest]
          case Deleted => [Ascii("deleted"), Ascii("deleted")]
          case TypeChanged => [Ascii("type_changed"), kind, mode, digest]
    ensures var all := s + [UnstagedEntry(path, Deleted, None, None, None)];
      AllComplete(all) && UnstagedFields(all) == UnstagedFields(s) + [Ascii("unstaged-entry"), path, Ascii("deleted"), Ascii("deleted")]
  {
    hide Ascii;
    UnstagedSnoc(s, UnstagedEntry(path, state, Some(kind), Some(mode), Some(digest)));
    UnstagedSnoc(s, UnstagedEntry(path, Deleted, None, None, None));
  }

  lemma Flattened(a: seq<Bytes>, b: seq<Bytes>, c: seq<Bytes>, d: seq<Bytes>, e: seq<Bytes>, f: seq<Bytes>)
    ensures a + (b + (c + (d + (e + f)))) == a + b + c + d + e + f
  {
    assert d + (e + f) == d + e + f;
    assert c + (d + e + f) == c + d + e + f;
    assert b + (c + d + e + f) == b + c + d + e + f;
  }

  /** Each of the three lists stands after its label and its number of entries. */
  lemma FieldsExactly(head: Bytes, index: seq<IndexEntry>, unstaged: seq<UnstagedEntry>, untracked: seq<UntrackedEntry>)
    requires AllComplete(unstaged)
    ensures FieldsOf(head, index, unstaged, untracked) ==
      [Ascii("ascout-tree-v1"), head] + [Ascii("index"), Decimal(|index|)] + IndexFields(index)
      + [Ascii("unstaged"), Decimal(|unstaged|)] + UnstagedFields(unstaged)
      + [Ascii("untracked"), Decimal(|untracked|)] + UntrackedFields(untracked)
  {
    hide Ascii, Decimal, IndexFields, UnstagedFields, UntrackedFields;
    var first := [Ascii("ascout-tree-v1"), head, Ascii("index"), Decimal(|index|)];
    assert first == [Ascii("ascout-tree-v1"), head] + [Ascii("index"), Decimal(|index|)];
    Flattened(first, IndexFields(index), [Ascii("unstaged"), Decimal(|unstaged|)], UnstagedFields(unstaged),
              [Ascii("untracked"), Decimal(|untracked|)], UntrackedFields(untracked));
  }

  // ---------------------------------------------------------------- order and choice

  /** Index entries by path, then stage, then mode, then object. */
  predicate InIndexOrder(a: IndexEntry, b: IndexEntry) {
    && LexLe(a.path, b.path)
    && (a.path == b.path ==> a.stage <= b.stage)
    && (a.path == b.path && a.stage == b.stage ==> LexLe(a.mode, b.mode))
    && (a.path == b.path && a.stage == b.stage && a.mode == b.mode ==> LexLe(a.oid, b.oid))
  }

  lemma OrderExactly(a: IndexEntry, b: IndexEntry)
    ensures IndexLe(a, b) ==> InIndexOrder(a, b)
  {
    hide LexLe;
    LexFacts();
  }

  /** The entries of the stream are those of the state, in ascending order; of untracked ones those that are included. */
  lemma CanonicalOrder(s: TreeState)
    ensures var index, unstaged, untracked := CanonicalIndex(s), CanonicalUnstaged(s), CanonicalUntracked(s);
      && multiset(index) == multiset(s.index) && multiset(unstaged) == multiset(s.unstaged)
      && (forall i, j | 0 <= i < j < |index| :: InIndexOrder(index[i], index[j]))
      && (forall i, j | 0 <= i < j < |unstaged| :: LexLe(unstaged[i].path, unstaged[j].path))
      && (forall i, j | 0 <= i < j < |untracked| :: LexLe(untracked[i].path, untracked[j].path))
      && (forall e :: multiset(untracked)[e] ==
            if !e.ignored && SplitOn(e.path, SLASH)[0] != Ascii(".ascout") then multiset(s.untracked)[e] else 0)
  {
    hide LexLe, SortBy, Filter, InIndexOrder, IndexLe, SplitOn, Ascii;
    CanonicalFacts(s);
    IndexOrder();
    PathOrders();
    SortSorts(s.index, IndexLe);
    SortSorts(s.unstaged, UnstagedLe);
    SortSorts(Filter(s.untracked), UntrackedLe);
    forall a, b | IndexLe(a, b) ensures InIndexOrder(a, b) {
      OrderExactly(a, b);
    }
    forall e ensures Included(e) <==> !e.ignored && SplitOn(e.path, SLASH)[0] != Ascii(".ascout") {
      RuntimeExactly(e.path);
    }
  }

  lemma {:induction false} FirstPart(s: Str, part: Str, sep: CodeUnit)
    requires sep !in part
    ensures SplitOn(s, sep) != [] && (SplitOn(s, sep)[0] == part <==> s == part || part + [sep] <= s)
  {
    if s != [] && s[0] != sep {
      if part != [] && part[0] == s[0] {
        FirstPart(s[1..], part[1..], sep);
        assert s == [s[0]] + s[1..] && part == [s[0]] + part[1..];
        assert part + [sep] == [s[0]] + (part[1..] + [sep]);
      } else {
        FirstPart(s[1..], [], sep);
        assert SplitOn(s, sep)[0][0] == s[0];
      }
    }
  }

  /** A runtime path is one whose first component is .ascout. */
  lemma RuntimeExactly(path: Bytes)
    ensures SplitOn(path, SLASH) != [] && (IsAscoutRuntimePath(path) <==> SplitOn(path, SLASH)[0] == Ascii(".ascout"))
  {
    FirstPart(path, Ascii(".ascout"), SLASH);
    assert Ascii(".ascout/") == Ascii(".ascout") + [SLASH];
  }
}
