/**
 The preimage of the tree digest: length-framed fields in a canonical order. The byte stream
 determines the tree state it was built from, and does not depend on the order of its inputs.
 */
module TreeDigest {
  import opened Wrappers
  import opened Text
  import opened Sorting

  type Bytes = seq<Byte>

  datatype IndexEntry = IndexEntry(path: Bytes, mode: Bytes, oid: Bytes, stage: nat)

  datatype UnstagedState = Modified | Deleted | TypeChanged

  datatype UnstagedEntry = UnstagedEntry(path: Bytes, state: UnstagedState, kind: Option<Bytes>, mode: Option<Bytes>,
      digest: Option<Bytes>)

  datatype UntrackedEntry = UntrackedEntry(path: Bytes, kind: Bytes, mode: Bytes, digest: Bytes, ignored: bool)

  datatype TreeState = TreeState(head: Bytes, index: seq<IndexEntry>, unstaged: seq<UnstagedEntry>, untracked: seq<UntrackedEntry>)

  datatype DigestError = NonCanonicalPath | IncompleteEntry

  /** The digest's inputs and the three counts reported beside it. */
  datatype TreeDigest = TreeDigest(preimage: Bytes, indexCount: nat, unstagedCount: nat, untrackedCount: nat)

  function Ascii(s: string): (b: Bytes)
    ensures |b| == |s|
  {
    Lit(s)
  }

  function Number(n: nat): (b: Bytes)
    ensures b == Decimal(n)
  {
    Decimal(n)
  }

  // ---------------------------------------------------------------- framing

  /** The length in decimal, a colon, the bytes. */
  function Frame(field: Bytes): Bytes {
    Number(|field|) + [0x3A] + field
  }

  function FrameAll(fields: seq<Bytes>): Bytes {
    if fields == [] then [] else Frame(fields[0]) + FrameAll(fields[1..])
  }

  lemma {:induction false} FrameAllConcat(a: seq<Bytes>, b: seq<Bytes>)
    ensures FrameAll(a + b) == FrameAll(a) + FrameAll(b)
  {
    if a == [] {
      assert a + b == b;
    } else {
      assert (a + b)[1..] == a[1..] + b;
      FrameAllConcat(a[1..], b);
    }
  }

  /** A frame can be split off the front of a stream in only one way. */
  lemma FrameSplits(a: Bytes, x: Bytes, b: Bytes, y: Bytes)
    requires Frame(a) + x == Frame(b) + y
    ensures a == b && x == y
  {
    var s := Frame(a) + x;
    var m, n := |Number(|a|)|, |Number(|b|)|;
    assert forall i | 0 <= i < m :: s[i] == Number(|a|)[i];
    assert forall i | 0 <= i < n :: s[i] == Number(|b|)[i];
    assert s[m] == 0x3A && s[n] == 0x3A;
    assert m == n;
    assert Number(|a|) == s[..m] && Number(|b|) == s[..n];
    DecimalInjective(|a|, |b|);
    assert a == s[m + 1..m + 1 + |a|] && b == s[n + 1..n + 1 + |b|];
    assert x == s[m + 1 + |a|..] && y == s[n + 1 + |b|..];
  }

  /** Framed field lists can be read back. */
  lemma {:induction false} FrameAllInjective(a: seq<Bytes>, b: seq<Bytes>)
    requires FrameAll(a) == FrameAll(b)
    ensures a == b
  {
    if a != [] && b != [] {
      FrameSplits(a[0], FrameAll(a[1..]), b[0], FrameAll(b[1..]));
      FrameAllInjective(a[1..], b[1..]);
      assert a == [a[0]] + a[1..] && b == [b[0]] + b[1..];
    } else {
      assert a == [] <==> FrameAll(a) == [];
      assert b == [] <==> FrameAll(b) == [];
    }
  }

  // ---------------------------------------------------------------- canonical order

  predicate IndexLe(a: IndexEntry, b: IndexEntry) {
    if a.path != b.path then LexLe(a.path, b.path)
    else if a.stage != b.stage then a.stage < b.stage
    else if a.mode != b.mode then LexLe(a.mode, b.mode)
    else LexLe(a.oid, b.oid)
  }

  predicate UnstagedLe(a: UnstagedEntry, b: UnstagedEntry) {
    LexLe(a.path, b.path)
  }

  predicate UntrackedLe(a: UntrackedEntry, b: UntrackedEntry) {
    LexLe(a.path, b.path)
  }

  lemma LexFacts()
    ensures forall a, b :: LexLe(a, b) || LexLe(b, a)
    ensures forall a, b :: LexLe(a, b) && LexLe(b, a) ==> a == b
    ensures forall a, b, c :: LexLe(a, b) && LexLe(b, c) ==> LexLe(a, c)
  {
    forall a, b ensures (LexLe(a, b) || LexLe(b, a)) && (LexLe(a, b) && LexLe(b, a) ==> a == b) {
      LexTotal(a, b);
    }
    forall a, b, c | LexLe(a, b) && LexLe(b, c) ensures LexLe(a, c) {
      LexTransitive(a, b, c);
    }
  }

  /** The order of index entries is total and tells all entries apart. */
  lemma IndexOrder()
    ensures TotalPreorder(IndexLe) && forall s :: Distinguishes(s, IndexLe)
  {
    hide LexLe;
    LexFacts();
  }

  lemma PathOrders()
    ensures TotalPreorder(UnstagedLe) && TotalPreorder(UntrackedLe)
  {
    hide LexLe;
    LexFacts();
  }

  predicate IsAscoutRuntimePath(path: Bytes) {
    path == Ascii(".ascout") || Ascii(".ascout/") <= path
  }

  predicate Included(e: UntrackedEntry) {
    !e.ignored && !IsAscoutRuntimePath(e.path)
  }

  function Filter(s: seq<UntrackedEntry>): seq<UntrackedEntry> {
    if s == [] then [] else (if Included(s[0]) then [s[0]] else []) + Filter(s[1..])
  }

  function CanonicalIndex(s: TreeState): seq<IndexEntry> {
    SortBy(s.index, IndexLe)
  }

  function CanonicalUnstaged(s: TreeState): seq<UnstagedEntry> {
    SortBy(s.unstaged, UnstagedLe)
  }

  function CanonicalUntracked(s: TreeState): seq<UntrackedEntry> {
    SortBy(Filter(s.untracked), UntrackedLe)
  }

  // ---------------------------------------------------------------- fields

  function StateName(s: UnstagedState): Bytes {
    match s
    case Modified => Ascii("modified")
    case Deleted => Ascii("deleted")
    case TypeChanged => Ascii("type_changed")
  }

  predicate Complete(e: UnstagedEntry) {
    e.state.Deleted? || (e.kind.Some? && e.mode.Some? && e.digest.Some?)
  }

  function IndexEntryFields(e: IndexEntry): seq<Bytes> {
    [Ascii("index-entry"), e.mode, e.oid, Number(e.stage), e.path]
  }

  function UnstagedEntryFields(e: UnstagedEntry): seq<Bytes>
    requires Complete(e)
  {
    [Ascii("unstaged-entry"), e.path, StateName(e.state)] +
    if e.state.Deleted? then [Ascii("deleted")] else [e.kind.value, e.mode.value, e.digest.value]
  }

  function UntrackedEntryFields(e: UntrackedEntry): seq<Bytes> {
    [Ascii("untracked-entry"), e.path, e.kind, e.mode, e.digest]
  }

  function IndexFields(s: seq<IndexEntry>): seq<Bytes> {
    if s == [] then [] else IndexEntryFields(s[0]) + IndexFields(s[1..])
  }

  predicate AllComplete(s: seq<UnstagedEntry>) {
    forall i | 0 <= i < |s| :: Complete(s[i])
  }

  function UnstagedFields(s: seq<UnstagedEntry>): seq<Bytes>
    requires AllComplete(s)
  {
    if s == [] then [] else UnstagedEntryFields(s[0]) + UnstagedFields(s[1..])
  }

  function UntrackedFields(s: seq<UntrackedEntry>): seq<Bytes> {
    if s == [] then [] else UntrackedEntryFields(s[0]) + UntrackedFields(s[1..])
  }

  function FieldsOf(head: Bytes, index: seq<IndexEntry>, unstaged: seq<UnstagedEntry>, untracked: seq<UntrackedEntry>): seq<Bytes>
    requires AllComplete(unstaged)
  {
    [Ascii("ascout-tree-v1"), head, Ascii("index"), Number(|index|)] +
    (IndexFields(index) +
     ([Ascii("unstaged"), Number(|unstaged|)] +
      (UnstagedFields(unstaged) + ([Ascii("untracked"), Number(|untracked|)] + UntrackedFields(untracked)))))
  }

  /** The byte stream fed to the hash. */
  function Preimage(s: TreeState): Bytes
    requires AllComplete(CanonicalUnstaged(s))
  {
    FrameAll(FieldsOf(s.head, CanonicalIndex(s), CanonicalUnstaged(s), CanonicalUntracked(s)))
  }

  // ---------------------------------------------------------------- injectivity

  /** What the stream shows of an unstaged entry: a deleted one only by its path. */
  function Visible(e: UnstagedEntry): UnstagedEntry {
    if e.state.Deleted? then e.(kind := None, mode := None, digest := None) else e
  }

  function VisibleAll(s: seq<UnstagedEntry>): (r: seq<UnstagedEntry>)
    ensures |r| == |s| && forall i | 0 <= i < |s| :: r[i] == Visible(s[i])
  {
    seq(|s|, i requires 0 <= i < |s| => Visible(s[i]))
  }

  lemma {:induction false} IndexFieldsSplit(a: seq<IndexEntry>, x: seq<Bytes>, b: seq<IndexEntry>, y: seq<Bytes>)
    requires |a| == |b| && IndexFields(a) + x == IndexFields(b) + y
    ensures a == b && x == y
  {
    if a == [] {
      assert x == IndexFields(a) + x && y == IndexFields(b) + y;
    } else {
      var s := IndexFields(a) + x;
      assert s[..5] == IndexEntryFields(a[0]) && s[..5] == IndexEntryFields(b[0]);
      assert s[5..] == IndexFields(a[1..]) + x && s[5..] == IndexFields(b[1..]) + y;
      var p, q := IndexEntryFields(a[0]), IndexEntryFields(b[0]);
      assert p[1] == q[1] && p[2] == q[2] && p[3] == q[3] && p[4] == q[4];
      DecimalInjective(a[0].stage, b[0].stage);
      IndexFieldsSplit(a[1..], x, b[1..], y);
      assert a == [a[0]] + a[1..] && b == [b[0]] + b[1..];
    }
  }

  lemma StateNameInjective(s: UnstagedState, t: UnstagedState)
    requires StateName(s) == StateName(t)
    ensures s == t
  {
  }

  lemma UnstagedEntrySplit(a: UnstagedEntry, x: seq<Bytes>, b: UnstagedEntry, y: seq<Bytes>)
    requires Complete(a) && Complete(b) && UnstagedEntryFields(a) + x == UnstagedEntryFields(b) + y
    ensures Visible(a) == Visible(b) && x == y
  {
    var s := UnstagedEntryFields(a) + x;
    var p, q := UnstagedEntryFields(a), UnstagedEntryFields(b);
    assert p[1] == s[1] == q[1] && p[2] == s[2] == q[2];
    StateNameInjective(a.state, b.state);
    assert |p| == |q|;
    assert p == s[..|p|] && q == s[..|q|] && x == s[|p|..] && y == s[|q|..];
    if !a.state.Deleted? {
      assert p[3] == q[3] && p[4] == q[4] && p[5] == q[5];
    }
  }

  lemma UnstagedFieldsCons(a: seq<UnstagedEntry>, x: seq<Bytes>)
    requires AllComplete(a) && a != []
    ensures AllComplete(a[1..]) && UnstagedFields(a) + x == UnstagedEntryFields(a[0]) + (UnstagedFields(a[1..]) + x)
  {
    hide UnstagedEntryFields;
  }

  lemma {:induction false} UnstagedFieldsSplit(a: seq<UnstagedEntry>, x: seq<Bytes>, b: seq<UnstagedEntry>, y: seq<Bytes>)
    requires AllComplete(a) && AllComplete(b)
    requires |a| == |b| && UnstagedFields(a) + x == UnstagedFields(b) + y
    ensures VisibleAll(a) == VisibleAll(b) && x == y
  {
    hide UnstagedEntryFields, Visible;
    if a == [] {
      assert x == UnstagedFields(a) + x && y == UnstagedFields(b) + y;
    } else {
      UnstagedFieldsCons(a, x);
      UnstagedFieldsCons(b, y);
      UnstagedEntrySplit(a[0], UnstagedFields(a[1..]) + x, b[0], UnstagedFields(b[1..]) + y);
      UnstagedFieldsSplit(a[1..], x, b[1..], y);
      assert VisibleAll(a) == [Visible(a[0])] + VisibleAll(a[1..]);
      assert VisibleAll(b) == [Visible(b[0])] + VisibleAll(b[1..]);
    }
  }

  lemma {:induction false} UntrackedFieldsInjective(a: seq<UntrackedEntry>, b: seq<UntrackedEntry>)
    requires |a| == |b| && UntrackedFields(a) == UntrackedFields(b)
    requires forall e | e in a + b :: !e.ignored
    ensures a == b
  {
    if a != [] {
      var s := UntrackedFields(a);
      var p, q := UntrackedEntryFields(a[0]), UntrackedEntryFields(b[0]);
      assert p == s[..5] && q == s[..5];
      assert p[1] == q[1] && p[2] == q[2] && p[3] == q[3] && p[4] == q[4];
      assert s[5..] == UntrackedFields(a[1..]) && s[5..] == UntrackedFields(b[1..]);
      assert a[0] in a + b && b[0] in a + b;
      assert forall e | e in a[1..] + b[1..] :: e in a + b;
      UntrackedFieldsInjective(a[1..], b[1..]);
      assert a == [a[0]] + a[1..] && b == [b[0]] + b[1..];
    }
  }

  lemma PrefixSplit<T>(p: seq<T>, x: seq<T>, q: seq<T>, y: seq<T>)
    requires |p| == |q| && p + x == q + y
    ensures p == q && x == y
  {
    assert p == (p + x)[..|p|] && q == (q + y)[..|q|];
    assert x == (p + x)[|p|..] && y == (q + y)[|q|..];
  }

  lemma FieldsInjective(h: Bytes, i: seq<IndexEntry>, u: seq<UnstagedEntry>, t: seq<UntrackedEntry>,
                        h': Bytes, i': seq<IndexEntry>, u': seq<UnstagedEntry>, t': seq<UntrackedEntry>)
    requires AllComplete(u) && AllComplete(u') && (forall e | e in t + t' :: !e.ignored)
    requires FieldsOf(h, i, u, t) == FieldsOf(h', i', u', t')
    ensures h == h' && i == i' && VisibleAll(u) == VisibleAll(u') && t == t'
  {
    hide IndexFields, UnstagedFields, UntrackedFields, Ascii, Number;
    var r := UnstagedFields(u) + ([Ascii("untracked"), Number(|t|)] + UntrackedFields(t));
    var r' := UnstagedFields(u') + ([Ascii("untracked"), Number(|t'|)] + UntrackedFields(t'));
    PrefixSplit([Ascii("ascout-tree-v1"), h, Ascii("index"), Number(|i|)], IndexFields(i) + ([Ascii("unstaged"), Number(|u|)] + r),
                [Ascii("ascout-tree-v1"), h', Ascii("index"), Number(|i'|)], IndexFields(i') + ([Ascii("unstaged"), Number(|u'|)] + r'));
    assert [Ascii("ascout-tree-v1"), h, Ascii("index"), Number(|i|)][1] == h;
    assert [Ascii("ascout-tree-v1"), h, Ascii("index"), Number(|i|)][3] == Number(|i|);
    NumberInjective(|i|, |i'|);
    IndexFieldsSplit(i, [Ascii("unstaged"), Number(|u|)] + r, i', [Ascii("unstaged"), Number(|u'|)] + r');
    PrefixSplit([Ascii("unstaged"), Number(|u|)], r, [Ascii("unstaged"), Number(|u'|)], r');
    assert [Ascii("unstaged"), Number(|u|)][1] == Number(|u|);
    NumberInjective(|u|, |u'|);
    UnstagedFieldsSplit(u, [Ascii("untracked"), Number(|t|)] + UntrackedFields(t),
                        u', [Ascii("untracked"), Number(|t'|)] + UntrackedFields(t'));
    PrefixSplit([Ascii("untracked"), Number(|t|)], UntrackedFields(t), [Ascii("untracked"), Number(|t'|)], UntrackedFields(t'));
    assert [Ascii("untracked"), Number(|t|)][1] == Number(|t|);
    NumberInjective(|t|, |t'|);
    UntrackedFieldsInjective(t, t');
  }

  lemma NumberInjective(m: nat, n: nat)
    requires Number(m) == Number(n)
    ensures m == n
  {
    DecimalInjective(m, n);
  }

  lemma {:induction false} FilterIncludes(s: seq<UntrackedEntry>)
    ensures forall e | e in Filter(s) :: Included(e)
    ensures forall e :: multiset(Filter(s))[e] == if Included(e) then multiset(s)[e] else 0
  {
    if s != [] {
      assert s == [s[0]] + s[1..];
      FilterIncludes(s[1..]);
    }
  }

  /**
   Two tree states that feed the same byte stream have the same head, the same index entries, the
   same unstaged entries (deleted ones by path only) and the same included untracked entries.
   */
  lemma PreimageInjective(s: TreeState, t: TreeState)
    requires AllComplete(CanonicalUnstaged(s)) && AllComplete(CanonicalUnstaged(t)) && Preimage(s) == Preimage(t)
    ensures s.head == t.head
    ensures multiset(s.index) == multiset(t.index)
    ensures VisibleAll(CanonicalUnstaged(s)) == VisibleAll(CanonicalUnstaged(t))
    ensures multiset(CanonicalUnstaged(s)) == multiset(s.unstaged) && multiset(CanonicalUnstaged(t)) == multiset(t.unstaged)
    ensures forall e | Included(e) :: multiset(s.untracked)[e] == multiset(t.untracked)[e]
  {
    hide SortBy;
    FrameAllInjective(FieldsOf(s.head, CanonicalIndex(s), CanonicalUnstaged(s), CanonicalUntracked(s)),
                      FieldsOf(t.head, CanonicalIndex(t), CanonicalUnstaged(t), CanonicalUntracked(t)));
    CanonicalFacts(s);
    CanonicalFacts(t);
    FieldsInjective(s.head, CanonicalIndex(s), CanonicalUnstaged(s), CanonicalUntracked(s),
                    t.head, CanonicalIndex(t), CanonicalUnstaged(t), CanonicalUntracked(t));
  }

  lemma CanonicalFacts(s: TreeState)
    ensures multiset(CanonicalIndex(s)) == multiset(s.index)
    ensures multiset(CanonicalUnstaged(s)) == multiset(s.unstaged)
    ensures forall e :: multiset(CanonicalUntracked(s))[e] == if Included(e) then multiset(s.untracked)[e] else 0
    ensures forall e | e in CanonicalUntracked(s) :: !e.ignored
  {
    SortPermutes(s.index, IndexLe);
    SortPermutes(s.unstaged, UnstagedLe);
    SortPermutes(Filter(s.untracked), UntrackedLe);
    FilterIncludes(s.untracked);
    forall e | e in CanonicalUntracked(s) ensures !e.ignored {
      assert e in multiset(CanonicalUntracked(s));
    }
  }

  predicate UniquePaths(s: TreeState) {
    && (forall a, b | a in s.unstaged && b in s.unstaged :: a.path == b.path ==> a == b)
    && (forall a, b | a in s.untracked && b in s.untracked :: a.path == b.path ==> a == b)
  }

  predicate SameUpToOrder(s: TreeState, t: TreeState) {
    && s.head == t.head && multiset(s.index) == multiset(t.index)
    && multiset(s.unstaged) == multiset(t.unstaged) && multiset(s.untracked) == multiset(t.untracked)
  }

  lemma FilterIgnoresOrder(a: seq<UntrackedEntry>, b: seq<UntrackedEntry>)
    requires multiset(a) == multiset(b)
    ensures multiset(Filter(a)) == multiset(Filter(b))
    ensures forall e | e in Filter(a) :: e in a
  {
    hide Filter, Included;
    FilterIncludes(a);
    FilterIncludes(b);
    forall e | e in Filter(a) ensures e in a {
      assert multiset(Filter(a))[e] > 0;
    }
  }

  lemma CanonicalIgnoresOrder(s: TreeState, t: TreeState)
    requires SameUpToOrder(s, t) && UniquePaths(s)
    ensures CanonicalIndex(s) == CanonicalIndex(t) && CanonicalUnstaged(s) == CanonicalUnstaged(t)
        && CanonicalUntracked(s) == CanonicalUntracked(t)
  {
    hide LexLe, SortBy, Filter;
    LexFacts();
    IndexOrder();
    PathOrders();
    SortIgnoresOrder(s.index, t.index, IndexLe);
    SortIgnoresOrder(s.unstaged, t.unstaged, UnstagedLe);
    FilterIgnoresOrder(s.untracked, t.untracked);
    SortIgnoresOrder(Filter(s.untracked), Filter(t.untracked), UntrackedLe);
  }

  /** Reordering the inputs leaves the stream unchanged when unstaged and untracked paths are unique. */
  lemma PreimageIgnoresOrder(s: TreeState, t: TreeState)
    requires SameUpToOrder(s, t) && UniquePaths(s) && AllComplete(CanonicalUnstaged(s))
    ensures AllComplete(CanonicalUnstaged(t)) && Preimage(s) == Preimage(t)
  {
    hide CanonicalIndex, CanonicalUnstaged, CanonicalUntracked, FieldsOf, FrameAll;
    CanonicalIgnoresOrder(s, t);
  }

  // ---------------------------------------------------------------- the running hash

  /** The hash is seen only through the bytes fed to it. */
  class RunningHash {
    var fed: Bytes

    constructor ()
      ensures fed == []
    {
      fed := [];
    }

    method Update(bytes: Bytes)
      modifies this
      ensures fed == old(fed) + bytes
    {
      fed := fed + bytes;
    }

    method UpdateFramedTreeField(value: Bytes)
      modifies this
      ensures fed == old(fed) + Frame(value)
    {
      Update(Number(|value|) + [0x3A]);
      Update(value);
    }

    method UpdateAll(values: seq<Bytes>)
      modifies this
      ensures fed == old(fed) + FrameAll(values)
    {
      for i := 0 to |values|
        invariant fed + FrameAll(values[i..]) == old(fed) + FrameAll(values)
      {
        assert FrameAll(values[i..]) == Frame(values[i]) + FrameAll(values[i + 1..]) by {
          assert values[i..][1..] == values[i + 1..];
        }
        UpdateFramedTreeField(values[i]);
      }
    }
  }

  // ---------------------------------------------------------------- computing the digest

  predicate CanonicalPaths(s: TreeState, canonical: Bytes -> bool) {
    && (forall e | e in s.index :: canonical(e.path))
    && (forall e | e in s.unstaged :: canonical(e.path))
    && (forall e | e in s.untracked :: canonical(e.path))
  }

  lemma SortKeepsComplete(s: seq<UnstagedEntry>)
    ensures AllComplete(SortBy(s, UnstagedLe)) <==> AllComplete(s)
  {
    hide SortBy, Complete;
    var t := SortBy(s, UnstagedLe);
    SortPermutes(s, UnstagedLe);
    forall i | 0 <= i < |t| ensures t[i] in s {
      assert t[i] in multiset(t);
    }
    forall i | 0 <= i < |s| ensures s[i] in t {
      assert s[i] in multiset(s);
    }
    assert AllComplete(t) <==> forall e | e in t :: Complete(e);
    assert AllComplete(s) <==> forall e | e in s :: Complete(e);
  }

  lemma FramePrefix(fields: seq<Bytes>, s: Bytes)
    ensures FrameAll(fields + []) == FrameAll(fields)
    ensures s + FrameAll([]) == s
  {
    assert fields + [] == fields;
  }

  /** Appending one entry's fields after those already fed. */
  lemma FeedStep(done: Bytes, first: seq<Bytes>, rest: seq<Bytes>, total: Bytes)
    requires done + FrameAll(first + rest) == total
    ensures (done + FrameAll(first)) + FrameAll(rest) == total
  {
    FrameAllConcat(first, rest);
  }

  method FeedIndex(hash: RunningHash, index: seq<IndexEntry>)
    modifies hash
    ensures hash.fed == old(hash.fed) + FrameAll(IndexFields(index))
  {
    hide Frame, FrameAll, IndexEntryFields;
    ghost var total := hash.fed + FrameAll(IndexFields(index));
    assert index[0..] == index;
    for i := 0 to |index|
      invariant hash.fed + FrameAll(IndexFields(index[i..])) == total
    {
      var e := index[i];
      assert index[i..][0] == e && index[i..][1..] == index[i + 1..];
      FeedStep(hash.fed, IndexEntryFields(e), IndexFields(index[i + 1..]), total);
      hash.UpdateAll(IndexEntryFields(e));
    }
    FramePrefix([], hash.fed);
  }

  method FeedUnstaged(hash: RunningHash, unstaged: seq<UnstagedEntry>) returns (ok: bool)
    modifies hash
    ensures ok <==> AllComplete(unstaged)
    ensures ok ==> hash.fed == old(hash.fed) + FrameAll(UnstagedFields(unstaged))
  {
    hide Frame, FrameAll, UnstagedEntryFields, Complete;
    ghost var before := hash.fed;
    FramePrefix([], hash.fed);
    for i := 0 to |unstaged|
      invariant AllComplete(unstaged[..i])
      invariant hash.fed == before + FrameAll(UnstagedFields(unstaged[..i]))
    {
      var e := unstaged[i];
      if !Complete(e) {
        return false;
      }
      UnstagedSnoc(unstaged[..i], e);
      assert unstaged[..i + 1] == unstaged[..i] + [e];
      FrameAllConcat(UnstagedFields(unstaged[..i]), UnstagedEntryFields(e));
      hash.UpdateAll(UnstagedEntryFields(e));
    }
    assert unstaged[..|unstaged|] == unstaged;
    return true;
  }

  lemma {:induction false} UnstagedSnoc(s: seq<UnstagedEntry>, e: UnstagedEntry)
    requires AllComplete(s) && Complete(e)
    ensures AllComplete(s + [e]) && UnstagedFields(s + [e]) == UnstagedFields(s) + UnstagedEntryFields(e)
  {
    hide UnstagedEntryFields;
    if s == [] {
      assert UnstagedFields([e]) == UnstagedEntryFields(e) + UnstagedFields([]);
    } else {
      assert (s + [e])[1..] == s[1..] + [e];
      UnstagedSnoc(s[1..], e);
    }
  }

  method FeedUntracked(hash: RunningHash, untracked: seq<UntrackedEntry>)
    modifies hash
    ensures hash.fed == old(hash.fed) + FrameAll(UntrackedFields(untracked))
  {
    hide Frame, FrameAll, UntrackedEntryFields;
    ghost var total := hash.fed + FrameAll(UntrackedFields(untracked));
    assert untracked[0..] == untracked;
    for i := 0 to |untracked|
      invariant hash.fed + FrameAll(UntrackedFields(untracked[i..])) == total
    {
      var e := untracked[i];
      assert untracked[i..][0] == e && untracked[i..][1..] == untracked[i + 1..];
      FeedStep(hash.fed, UntrackedEntryFields(e), UntrackedFields(untracked[i + 1..]), total);
      hash.UpdateAll(UntrackedEntryFields(e));
    }
    FramePrefix([], hash.fed);
  }

  lemma PiecesAreFields(head: Bytes, index: seq<IndexEntry>, unstaged: seq<UnstagedEntry>, untracked: seq<UntrackedEntry>)
    requires AllComplete(unstaged)
    ensures FrameAll([Ascii("ascout-tree-v1"), head, Ascii("index"), Number(|index|)])
         + FrameAll(IndexFields(index))
         + FrameAll([Ascii("unstaged"), Number(|unstaged|)])
         + FrameAll(UnstagedFields(unstaged))
         + FrameAll([Ascii("untracked"), Number(|untracked|)])
         + FrameAll(UntrackedFields(untracked))
         == FrameAll(FieldsOf(head, index, unstaged, untracked))
  {
    hide FrameAll, IndexFields, UnstagedFields, UntrackedFields, Ascii, Number;
    var a, b := [Ascii("ascout-tree-v1"), head, Ascii("index"), Number(|index|)], IndexFields(index);
    var c, d := [Ascii("unstaged"), Number(|unstaged|)], UnstagedFields(unstaged);
    var e, f := [Ascii("untracked"), Number(|untracked|)], UntrackedFields(untracked);
    FrameAllConcat(e, f);
    FrameAllConcat(d, e + f);
    FrameAllConcat(c, d + (e + f));
    FrameAllConcat(b, c + (d + (e + f)));
    FrameAllConcat(a, b + (c + (d + (e + f))));
  }

  method PathsCanonical(s: TreeState, canonical: Bytes -> bool) returns (ok: bool)
    ensures ok <==> CanonicalPaths(s, canonical)
  {
    for i := 0 to |s.index|
      invariant forall k | 0 <= k < i :: canonical(s.index[k].path)
    {
      if !canonical(s.index[i].path) { return false; }
    }
    for i := 0 to |s.unstaged|
      invariant forall k | 0 <= k < i :: canonical(s.unstaged[k].path)
    {
      if !canonical(s.unstaged[i].path) { return false; }
    }
    for i := 0 to |s.untracked|
      invariant forall k | 0 <= k < i :: canonical(s.untracked[k].path)
    {
      if !canonical(s.untracked[i].path) { return false; }
    }
    return true;
  }

  /**
   The digest fails on the first path that is not canonical, ignored entries included, then on an
   unstaged entry that lacks a type, mode or digest; otherwise the stream it hashed is the
   preimage of the state.
   */
  method TreeDigestV1FromState(state: TreeState, canonical: Bytes -> bool) returns (r: Result<TreeDigest, DigestError>)
    ensures r.Ok? <==> CanonicalPaths(state, canonical) && AllComplete(state.unstaged)
    ensures r.Err? ==> r.error == if CanonicalPaths(state, canonical) then IncompleteEntry else NonCanonicalPath
    ensures r.Ok? ==>
      && AllComplete(CanonicalUnstaged(state))
      && r.value == TreeDigest(Preimage(state), |state.index|, |state.unstaged|, |Filter(state.untracked)|)
  {
    hide SortBy, Filter, FrameAll, IndexFields, UnstagedFields, UntrackedFields, Ascii, Number, CanonicalPaths, AllComplete, FieldsOf;
    var canonicalPaths := PathsCanonical(state, canonical);
    if !canonicalPaths {
      return Err(NonCanonicalPath);
    }
    var index, unstaged, untracked := CanonicalIndex(state), CanonicalUnstaged(state), CanonicalUntracked(state);
    SortKeepsComplete(state.unstaged);
    var hash := new RunningHash();
    hash.UpdateAll([Ascii("ascout-tree-v1"), state.head, Ascii("index"), Number(|index|)]);
    FeedIndex(hash, index);
    hash.UpdateAll([Ascii("unstaged"), Number(|unstaged|)]);
    var complete := FeedUnstaged(hash, unstaged);
    if !complete {
      return Err(IncompleteEntry);
    }
    hash.UpdateAll([Ascii("untracked"), Number(|untracked|)]);
    FeedUntracked(hash, untracked);
    PiecesAreFields(state.head, index, unstaged, untracked);
    return Ok(TreeDigest(hash.fed, |index|, |unstaged|, |untracked|));
  }
}
