/**
 Stable sorting by a comparison, as Array.prototype.sort performs it: a sorted permutation, and
 the only one when the comparison distinguishes the elements.
 */
module Sorting {
  import opened Text

  /** The comparison is total and transitive; equivalent elements may differ. */
  ghost predicate TotalPreorder<T(!new)>(le: (T, T) -> bool) {
    && (forall x, y :: le(x, y) || le(y, x))
    && (forall x, y, z :: le(x, y) && le(y, z) ==> le(x, z))
  }

  predicate SortedBy<T>(s: seq<T>, le: (T, T) -> bool) {
    forall i, j | 0 <= i < j < |s| :: le(s[i], s[j])
  }

  /** Inserts an element before the elements it precedes or equals. */
  function Insert<T>(x: T, s: seq<T>, le: (T, T) -> bool): (r: seq<T>)
    ensures |r| == |s| + 1
  {
    if s == [] then [x]
    else if le(x, s[0]) then [x] + s
    else [s[0]] + Insert(x, s[1..], le)
  }

  /** Stable sort. */
  function SortBy<T>(s: seq<T>, le: (T, T) -> bool): (r: seq<T>)
    ensures |r| == |s|
  {
    if s == [] then [] else Insert(s[0], SortBy(s[1..], le), le)
  }

  lemma {:induction false} InsertAdds<T>(x: T, s: seq<T>, le: (T, T) -> bool)
    ensures multiset(Insert(x, s, le)) == multiset(s) + multiset{x}
  {
    if s != [] {
      assert s == [s[0]] + s[1..];
      InsertAdds(x, s[1..], le);
    }
  }

  lemma {:induction false} SortPermutes<T>(s: seq<T>, le: (T, T) -> bool)
    ensures multiset(SortBy(s, le)) == multiset(s)
  {
    if s != [] {
      assert s == [s[0]] + s[1..];
      SortPermutes(s[1..], le);
      InsertAdds(s[0], SortBy(s[1..], le), le);
    }
  }

  lemma {:induction false} InsertKeepsSorted<T(!new)>(x: T, s: seq<T>, le: (T, T) -> bool)
    requires TotalPreorder(le) && SortedBy(s, le)
    ensures SortedBy(Insert(x, s, le), le)
  {
    if s != [] && !le(x, s[0]) {
      InsertKeepsSorted(x, s[1..], le);
      var rest := Insert(x, s[1..], le);
      InsertAdds(x, s[1..], le);
      forall i | 0 <= i < |rest| ensures le(s[0], rest[i]) {
        assert rest[i] in multiset(rest);
        assert rest[i] == x || rest[i] in s[1..];
      }
    } else if s != [] {
      assert forall j | 0 <= j < |s| :: le(s[0], s[j]);
    }
  }

  lemma {:induction false} SortSorts<T(!new)>(s: seq<T>, le: (T, T) -> bool)
    requires TotalPreorder(le)
    ensures SortedBy(SortBy(s, le), le)
  {
    if s != [] {
      SortSorts(s[1..], le);
      InsertKeepsSorted(s[0], SortBy(s[1..], le), le);
    }
  }

  /** What is sorted stays as it is. */
  lemma {:induction false} SortedStays<T>(s: seq<T>, le: (T, T) -> bool)
    requires SortedBy(s, le)
    ensures SortBy(s, le) == s
  {
    if s != [] {
      SortedStays(s[1..], le);
    }
  }

  /** Equivalent elements of the sequence are equal. */
  ghost predicate Distinguishes<T(!new)>(s: seq<T>, le: (T, T) -> bool) {
    forall x, y | x in s && y in s :: le(x, y) && le(y, x) ==> x == y
  }

  /** Two sorted permutations of distinguished elements are the same sequence. */
  lemma {:induction false} SortedIsUnique<T(!new)>(a: seq<T>, b: seq<T>, le: (T, T) -> bool)
    requires SortedBy(a, le) && SortedBy(b, le) && multiset(a) == multiset(b)
    requires TotalPreorder(le) && Distinguishes(a, le)
    ensures a == b
  {
    SameLength(a, b);
    if a != [] {
      LeastFirst(a, b, le);
      LeastFirst(b, a, le);
      TailElements(a);
      TailElements(b);
      SortedIsUnique(a[1..], b[1..], le);
    }
  }

  lemma TailElements<T>(s: seq<T>)
    requires s != []
    ensures multiset(s[1..]) == multiset(s) - multiset{s[0]} && s == [s[0]] + s[1..]
    ensures forall x | x in s[1..] :: x in s
  {
    assert s == [s[0]] + s[1..];
  }

  lemma LeastFirst<T(!new)>(a: seq<T>, b: seq<T>, le: (T, T) -> bool)
    requires SortedBy(a, le) && multiset(a) == multiset(b) && TotalPreorder(le) && a != [] && b != []
    ensures b[0] in a && le(a[0], b[0])
  {
    assert b[0] in multiset(b);
    assert b[0] in a;
    assert le(a[0], a[0]);
  }

  lemma SameLength<T>(a: seq<T>, b: seq<T>)
    requires multiset(a) == multiset(b)
    ensures |a| == |b|
  {
    assert |multiset(a)| == |a| && |multiset(b)| == |b|;
  }

  /** The order of the input does not matter when the comparison distinguishes its elements. */
  lemma SortIgnoresOrder<T(!new)>(a: seq<T>, b: seq<T>, le: (T, T) -> bool)
    requires multiset(a) == multiset(b) && TotalPreorder(le) && Distinguishes(a, le)
    ensures SortBy(a, le) == SortBy(b, le)
  {
    SortPermutes(a, le);
    SortPermutes(b, le);
    SortSorts(a, le);
    SortSorts(b, le);
    forall x | x in SortBy(a, le) ensures x in a {
      assert x in multiset(SortBy(a, le));
    }
    SortedIsUnique(SortBy(a, le), SortBy(b, le), le);
  }

  // ---------------------------------------------------------------- elements of a set in order

  predicate StrictlySorted<T(==)>(s: seq<T>, le: (T, T) -> bool) {
    forall i, j | 0 <= i < j < |s| :: le(s[i], s[j]) && s[i] != s[j]
  }

  predicate NoRepeats<T(==)>(s: seq<T>) {
    forall i, j | 0 <= i < j < |s| :: s[i] != s[j]
  }

  lemma {:induction false} NoRepeatsOnce<T>(s: seq<T>, x: T)
    requires NoRepeats(s)
    ensures multiset(s)[x] <= 1
  {
    if s != [] {
      assert s == [s[0]] + s[1..];
      NoRepeatsOnce(s[1..], x);
      assert s[0] !in s[1..];
    }
  }

  lemma TwiceInSeq<T>(s: seq<T>, i: nat, j: nat)
    requires i < j < |s| && s[i] == s[j]
    ensures multiset(s)[s[i]] >= 2
  {
    assert s == s[..j] + [s[j]] + s[j + 1..];
    assert multiset(s) == multiset(s[..j]) + multiset{s[j]} + multiset(s[j + 1..]);
    assert s[i] == s[..j][i];
    assert s[i] in s[..j];
  }

  lemma SortKeepsNoRepeats<T>(s: seq<T>, le: (T, T) -> bool)
    requires NoRepeats(s)
    ensures NoRepeats(SortBy(s, le))
  {
    hide SortBy;
    SortPermutes(s, le);
    var t := SortBy(s, le);
    forall i, j | 0 <= i < j < |t| ensures t[i] != t[j] {
      if t[i] == t[j] {
        TwiceInSeq(t, i, j);
        NoRepeatsOnce(s, t[i]);
      }
    }
  }

  predicate Increasing<T>(s: seq<T>, lt: (T, T) -> bool) {
    forall i, j | 0 <= i < j < |s| :: lt(s[i], s[j])
  }

  ghost predicate Asymmetric<T(!new)>(lt: (T, T) -> bool) {
    forall x, y :: lt(x, y) ==> !lt(y, x)
  }

  lemma TailMembers<T(!new)>(s: seq<T>, lt: (T, T) -> bool)
    requires Increasing(s, lt) && Asymmetric(lt) && s != []
    ensures forall x :: x in s[1..] <==> x in s && x != s[0]
  {
    assert forall i | 1 <= i < |s| :: lt(s[0], s[i]);
    assert s == [s[0]] + s[1..];
  }

  lemma FirstIsLeast<T>(s: seq<T>, lt: (T, T) -> bool, x: T)
    requires Increasing(s, lt) && x in s
    ensures x == s[0] || lt(s[0], x)
  {
  }

  /** An increasing sequence is determined by its members. */
  lemma {:induction false} IncreasingIsUnique<T(!new)>(a: seq<T>, b: seq<T>, lt: (T, T) -> bool)
    requires Increasing(a, lt) && Increasing(b, lt) && Asymmetric(lt) && forall x :: x in a <==> x in b
    ensures a == b
  {
    assert a != [] ==> a[0] in b;
    assert b != [] ==> b[0] in a;
    if a != [] {
      TailMembers(a, lt);
      TailMembers(b, lt);
      FirstIsLeast(a, lt, b[0]);
      FirstIsLeast(b, lt, a[0]);
      IncreasingIsUnique(a[1..], b[1..], lt);
      assert a == [a[0]] + a[1..] && b == [b[0]] + b[1..];
    }
  }

  function Without<T>(s: seq<T>, i: nat): seq<T>
    requires i < |s|
  {
    s[..i] + s[i + 1..]
  }

  lemma WithoutOne<T>(s: seq<T>, i: nat)
    requires i < |s|
    ensures multiset(Without(s, i)) == multiset(s) - multiset{s[i]}
  {
    assert s == s[..i] + [s[i]] + s[i + 1..];
    assert multiset(s) == multiset(s[..i]) + multiset{s[i]} + multiset(s[i + 1..]);
  }

  /** A permutation holds the last element of the other sequence somewhere. */
  lemma FindLast<T>(a: seq<T>, b: seq<T>) returns (i: nat)
    requires multiset(a) == multiset(b) && a != []
    ensures i < |b| && b[i] == a[|a| - 1] && multiset(a[..|a| - 1]) == multiset(Without(b, i))
  {
    assert a == a[..|a| - 1] + [a[|a| - 1]];
    assert a[|a| - 1] in multiset(b);
    i :| 0 <= i < |b| && b[i] == a[|a| - 1];
    WithoutOne(b, i);
  }

  /** The elements of a set, in strictly increasing order. */
  method SortedElements<T(==, !new)>(elements: set<T>, le: (T, T) -> bool) returns (r: seq<T>)
    requires TotalPreorder(le)
    ensures StrictlySorted(r, le) && forall x :: x in r <==> x in elements
  {
    hide TotalPreorder, SortBy;
    var listed: seq<T> := [];
    var left := elements;
    while left != {}
      invariant left <= elements && NoRepeats(listed)
      invariant forall x :: x in listed <==> x in elements && x !in left
      decreases left
    {
      var x :| x in left;
      left := left - {x};
      listed := listed + [x];
    }
    r := SortBy(listed, le);
    SortSorts(listed, le);
    SortKeepsNoRepeats(listed, le);
    SortPermutes(listed, le);
    forall x ensures x in r <==> x in elements {
      assert x in multiset(r) <==> x in multiset(listed);
    }
  }

  // ---------------------------------------------------------------- lexicographic order

  /** Buffer.compare and the comparison of strings by code unit. */
  predicate LexLe(a: seq<int>, b: seq<int>) {
    a == [] || (b != [] && (a[0] < b[0] || (a[0] == b[0] && LexLe(a[1..], b[1..]))))
  }

  /** The first difference decides; a beginning comes first. */
  predicate DiffersAt(a: seq<int>, b: seq<int>, k: nat) {
    k < |a| && k < |b| && a[..k] == b[..k] && a[k] < b[k]
  }

  lemma SameStart(a: seq<int>, b: seq<int>, k: nat)
    requires DiffersAt(a, b, k) && k > 0
    ensures a[0] == b[0]
  {
    assert a[0] == a[..k][0] && b[0] == b[..k][0];
  }

  lemma {:induction false} LexExactly(a: seq<int>, b: seq<int>)
    ensures LexLe(a, b) <==> a <= b || exists k: nat :: DiffersAt(a, b, k)
  {
    if a != [] && b != [] && a[0] == b[0] {
      var x, y := a[1..], b[1..];
      LexExactly(x, y);
      assert a == [a[0]] + x && b == [b[0]] + y;
      forall k: nat | k < |x| && k < |y| ensures DiffersAt(x, y, k) <==> DiffersAt(a, b, k + 1) {
        assert a[..k + 1] == [a[0]] + a[1..][..k] && b[..k + 1] == [b[0]] + b[1..][..k];
        if a[..k + 1] == b[..k + 1] {
          assert x[..k] == a[..k + 1][1..] && y[..k] == b[..k + 1][1..];
        }
      }
      assert a <= b <==> x <= y;
      if k: nat :| DiffersAt(a, b, k) {
        assert DiffersAt(x, y, k - 1);
      }
    } else if a != [] && b != [] {
      assert DiffersAt(a, b, 0) || a[0] > b[0];
      if k: nat :| DiffersAt(a, b, k) {
        if k > 0 {
          SameStart(a, b, k);
        }
      }
    }
  }

  lemma {:induction false} LexTotal(a: seq<int>, b: seq<int>)
    ensures LexLe(a, b) || LexLe(b, a)
    ensures LexLe(a, b) && LexLe(b, a) ==> a == b
  {
    if a != [] && b != [] && a[0] == b[0] {
      LexTotal(a[1..], b[1..]);
      assert a == [a[0]] + a[1..] && b == [b[0]] + b[1..];
    }
  }

  lemma {:induction false} LexTransitive(a: seq<int>, b: seq<int>, c: seq<int>)
    requires LexLe(a, b) && LexLe(b, c)
    ensures LexLe(a, c)
  {
    if a != [] && a[0] == b[0] == c[0] {
      LexTransitive(a[1..], b[1..], c[1..]);
    }
  }

  /** Strings by code unit. */
  function TextOrder(): (Str, Str) -> bool {
    (a, b) => LexLe(a, b)
  }

  lemma TextOrderIsTotal()
    ensures TotalPreorder(TextOrder())
    ensures forall x: Str, y: Str :: LexLe(x, y) && LexLe(y, x) ==> x == y
  {
    hide LexLe;
    var le := TextOrder();
    forall x: Str, y: Str ensures (le(x, y) || le(y, x)) && (LexLe(x, y) && LexLe(y, x) ==> x == y) {
      LexTotal(x, y);
    }
    forall x: Str, y: Str, z: Str | le(x, y) && le(y, z) ensures le(x, z) {
      LexTransitive(x, y, z);
    }
  }
}
