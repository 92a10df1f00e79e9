/**
 The issue-collecting evaluator of JSON Schema against a declarative semantics of the supported
 keywords, and the condition under which it terminates: no chain of references and in-place
 applicators returns to the same schema without descending into the value.
 */
module JsonSchema {
  import opened Wrappers
  import opened Text
  import opened Json
  import Rfc3339

  // ---------------------------------------------------------------- in-place chains

  function Target(s: Schema, root: Schema): Option<Schema> {
    match s.ref
    case None => None
    case Some(r) => ResolveLocalRef(root, r)
  }

  /** The schemas applied to the same value: reference target, allOf, oneOf, not, if, then, else. */
  function InPlace(s: Schema, root: Schema): seq<Schema> {
    SchemaOfOption(Target(s, root)) + s.allOf + s.oneOf + SchemaOfOption(s.negated) +
    SchemaOfOption(s.condition) + SchemaOfOption(s.consequent) + SchemaOfOption(s.alternative)
  }

  /** Loading checks that every reference resolves to a schema node. */
  predicate Loaded(root: Schema) {
    forall s | s in Nodes(root) :: s.ref.Some? ==> Target(s, root).Some?
  }

  /** Length of the longest in-place chain from `s`, or None if some chain returns to a schema it has passed. */
  function Chain(s: Schema, root: Schema, seen: set<Schema>): Option<nat>
    decreases |Nodes(root) - seen|, 1, 0
  {
    if s in seen || s !in Nodes(root) then None
    else
      assert Nodes(root) - (seen + {s}) == (Nodes(root) - seen) - {s};
      match LongestOf(InPlace(s, root), root, seen + {s})
      case None => None
      case Some(n) => Some(n + 1)
  }

  function LongestOf(list: seq<Schema>, root: Schema, seen: set<Schema>): Option<nat>
    decreases |Nodes(root) - seen|, 2, |list|
  {
    if list == [] then Some(0)
    else
      match (Chain(list[0], root, seen), LongestOf(list[1..], root, seen))
      case (Some(m), Some(n)) => Some(if m > n then m else n)
      case _ => None
  }

  /** No in-place chain from any node returns to the same schema. */
  predicate NoInPlaceLoop(root: Schema) {
    forall s | s in Nodes(root) :: Chain(s, root, {}).Some?
  }

  predicate Ready(root: Schema) {
    Loaded(root) && NoInPlaceLoop(root)
  }

  function Rank(s: Schema, root: Schema): nat
    requires NoInPlaceLoop(root) && s in Nodes(root)
  {
    Chain(s, root, {}).value
  }

  lemma {:induction false} LongestBounds(list: seq<Schema>, root: Schema, seen: set<Schema>)
    requires LongestOf(list, root, seen).Some?
    ensures forall t | t in list :: Chain(t, root, seen).Some? && Chain(t, root, seen).value <= LongestOf(list, root, seen).value
  {
    if list != [] {
      LongestBounds(list[1..], root, seen);
      assert list == [list[0]] + list[1..];
    }
  }

  /** A chain that avoids more schemas is the same chain. */
  lemma {:induction false} ChainIgnoresSeen(s: Schema, root: Schema, seen: set<Schema>, fewer: set<Schema>)
    requires fewer <= seen && Chain(s, root, seen).Some?
    ensures Chain(s, root, fewer) == Chain(s, root, seen)
    decreases |Nodes(root) - seen|, 1, 0
  {
    hide Nodes, InPlace;
    assert Nodes(root) - (seen + {s}) == (Nodes(root) - seen) - {s};
    LongestIgnoresSeen(InPlace(s, root), root, seen + {s}, fewer + {s});
  }

  lemma {:induction false} LongestIgnoresSeen(list: seq<Schema>, root: Schema, seen: set<Schema>, fewer: set<Schema>)
    requires fewer <= seen && LongestOf(list, root, seen).Some?
    ensures LongestOf(list, root, fewer) == LongestOf(list, root, seen)
    decreases |Nodes(root) - seen|, 2, |list|
  {
    hide Nodes, InPlace;
    if list != [] {
      ChainIgnoresSeen(list[0], root, seen, fewer);
      LongestIgnoresSeen(list[1..], root, seen, fewer);
    }
  }

  lemma {:induction false} FollowStaysInside(root: Schema, s: Schema, tokens: seq<Str>)
    requires s in Nodes(root)
    ensures Follow(s, tokens).Some? ==> Follow(s, tokens).value in Nodes(root)
    decreases |tokens|
  {
    if tokens != [] && Follow(s, tokens).Some? {
      NodesClosed(root, s);
      if tokens[0] == Lit("properties") || tokens[0] == Lit("$defs") {
        var list := if tokens[0] == Lit("$defs") then s.defs else s.properties;
        LookupFinds(list, tokens[1]);
        var t := Lookup(list, tokens[1]).value;
        ChildNodes(t, s);
        FollowStaysInside(root, t, tokens[2..]);
      } else {
        var t := Under(s, tokens[0]).value;
        ChildNodes(t, s);
        FollowStaysInside(root, t, tokens[1..]);
      }
    }
  }

  lemma InPlaceInside(s: Schema, root: Schema)
    requires s in Nodes(root)
    ensures forall t | t in InPlace(s, root) :: t in Nodes(root)
  {
    hide Nodes;
    NodesClosed(root, s);
    forall t | t in InPlace(s, root) ensures t in Nodes(root) {
      if Target(s, root) == Some(t) {
        RootIsNode(root);
        FollowStaysInside(root, root, PointerTokens(s.ref.value).value);
      } else {
        assert IsChild(t, s);
        ChildNodes(t, s);
      }
    }
  }

  lemma RootIsNode(root: Schema)
    ensures root in Nodes(root)
  {
  }

  /** In-place successors have a smaller rank, written-below schemas stay inside the root. */
  lemma Graded(s: Schema, root: Schema)
    requires NoInPlaceLoop(root) && s in Nodes(root)
    ensures forall t | t in InPlace(s, root) :: t in Nodes(root) && Rank(t, root) < Rank(s, root)
    ensures forall c | IsChild(c, s) :: c in Nodes(root)
  {
    hide Nodes, InPlace, IsChild;
    InPlaceInside(s, root);
    LongestBounds(InPlace(s, root), root, {} + {s});
    forall t | t in InPlace(s, root) ensures Rank(t, root) < Rank(s, root) {
      ChainIgnoresSeen(t, root, {} + {s}, {});
    }
    forall c | IsChild(c, s) ensures c in Nodes(root) {
      ChildNodes(c, s);
      NodesClosed(root, s);
    }
  }

  // ---------------------------------------------------------------- chains as paths

  ghost predicate InPlacePath(p: seq<Schema>, root: Schema) {
    p != [] && forall i | 0 <= i < |p| - 1 :: p[i + 1] in InPlace(p[i], root)
  }

  lemma {:induction false} RankDropsAlongPath(p: seq<Schema>, root: Schema, n: nat)
    requires NoInPlaceLoop(root) && InPlacePath(p, root) && p[0] in Nodes(root) && n < |p|
    ensures p[n] in Nodes(root) && Rank(p[n], root) + n <= Rank(p[0], root)
  {
    hide Rank, InPlace, Nodes, NoInPlaceLoop;
    if n > 0 {
      RankDropsAlongPath(p, root, n - 1);
      Graded(p[n - 1], root);
    }
  }

  /** A None chain exhibits a path from `s` that ends on a schema already passed. */
  lemma {:induction false} LoopWitness(s: Schema, root: Schema, seen: set<Schema>) returns (p: seq<Schema>)
    requires s in Nodes(root) && Chain(s, root, seen).None?
    ensures InPlacePath(p, root) && p[0] == s
    ensures p[|p| - 1] in seen || exists i :: 0 <= i < |p| - 1 && p[i] == p[|p| - 1]
    decreases |Nodes(root) - seen|
  {
    hide Nodes, InPlace, LongestOf;
    if s in seen {
      p := [s];
    } else {
      assert Nodes(root) - (seen + {s}) == (Nodes(root) - seen) - {s};
      InPlaceInside(s, root);
      var t := LoopingMember(InPlace(s, root), root, seen + {s});
      var q := LoopWitness(t, root, seen + {s});
      p := [s] + q;
      assert p[|p| - 1] == q[|q| - 1];
      if q[|q| - 1] == s {
        assert p[0] == p[|p| - 1] && 0 < |p| - 1;
      } else if q[|q| - 1] !in seen {
        var i :| 0 <= i < |q| - 1 && q[i] == q[|q| - 1];
        assert p[i + 1] == p[|p| - 1];
      }
    }
  }

  lemma {:induction false} LoopingMember(list: seq<Schema>, root: Schema, seen: set<Schema>) returns (t: Schema)
    requires LongestOf(list, root, seen).None?
    ensures t in list && Chain(t, root, seen).None?
  {
    if Chain(list[0], root, seen).None? {
      t := list[0];
    } else {
      t := LoopingMember(list[1..], root, seen);
    }
  }

  /** The condition in graph terms: no in-place path from a node comes back to where it started. */
  lemma NoInPlaceLoopExactly(root: Schema)
    ensures NoInPlaceLoop(root) <==>
            !exists p :: |p| >= 2 && InPlacePath(p, root) && p[0] in Nodes(root) && p[0] == p[|p| - 1]
  {
    hide Nodes, InPlacePath, NoInPlaceLoop, Chain;
    if NoInPlaceLoop(root) {
      forall p | |p| >= 2 && InPlacePath(p, root) && p[0] in Nodes(root) ensures p[0] != p[|p| - 1] {
        RankDropsAlongPath(p, root, |p| - 1);
      }
    } else {
      var p := ClosedPath(root);
    }
  }

  /** Where a chain returns, a path that closes can be cut out. */
  lemma ClosedPath(root: Schema) returns (q: seq<Schema>)
    requires !NoInPlaceLoop(root)
    ensures |q| >= 2 && InPlacePath(q, root) && q[0] in Nodes(root) && q[0] == q[|q| - 1]
  {
    hide Nodes, InPlace, Chain;
    var s :| s in Nodes(root) && Chain(s, root, {}).None?;
    var p := LoopWitness(s, root, {});
    var i :| 0 <= i < |p| - 1 && p[i] == p[|p| - 1];
    q := p[i..];
    PathStaysInside(p, root, i);
    forall k | 0 <= k < |q| - 1 ensures q[k + 1] in InPlace(q[k], root) {
      assert p[i + k + 1] in InPlace(p[i + k], root);
    }
  }

  lemma {:induction false} PathStaysInside(p: seq<Schema>, root: Schema, n: nat)
    requires InPlacePath(p, root) && p[0] in Nodes(root) && n < |p|
    ensures p[n] in Nodes(root)
  {
    if n > 0 {
      PathStaysInside(p, root, n - 1);
      InPlaceInside(p[n - 1], root);
    }
  }

  // ---------------------------------------------------------------- equality of values

  /** The value with every negative zero read as zero: equality of JSON instances ignores that sign. */
  function Unsigned(v: Json): Json {
    match v
    case NegativeZero => Num(0.0)
    case Array(items) => Array(seq(|items|, i requires 0 <= i < |items| => Unsigned(items[i])))
    case Object(members) => Object(map k | k in members :: Unsigned(members[k]))
    case _ => v
  }

  predicate FreeOfNegativeZero(v: Json) {
    match v
    case NegativeZero => false
    case Array(items) => forall i | 0 <= i < |items| :: FreeOfNegativeZero(items[i])
    case Object(members) => forall k | k in members :: FreeOfNegativeZero(members[k])
    case _ => true
  }

  /** A value equals its unsigned reading exactly when no negative zero occurs in it. */
  lemma {:induction false} UnsignedIsIdentityExactly(v: Json)
    ensures Unsigned(v) == v <==> FreeOfNegativeZero(v)
    decreases v
  {
    match v
    case Array(items) =>
      forall i | 0 <= i < |items| ensures Unsigned(items[i]) == items[i] <==> FreeOfNegativeZero(items[i]) {
        UnsignedIsIdentityExactly(items[i]);
      }
    case Object(members) =>
      forall k | k in members ensures Unsigned(members[k]) == members[k] <==> FreeOfNegativeZero(members[k]) {
        UnsignedIsIdentityExactly(members[k]);
      }
      if Unsigned(v) == v {
        assert forall k | k in members :: Unsigned(v).members[k] == members[k];
      }
    case _ =>
  }

  /** At every place where both values have a number, both or neither have a negative zero. */
  predicate SignsAgree(a: Json, b: Json)
    decreases a
  {
    match a
    case NegativeZero => !b.Num?
    case Num(_) => !b.NegativeZero?
    case Array(items) => b.Array? ==> forall i | 0 <= i < |items| && i < |b.items| :: SignsAgree(items[i], b.items[i])
    case Object(members) => b.Object? ==> forall k | k in members && k in b.members :: SignsAgree(members[k], b.members[k])
    case _ => true
  }

  /**
   const, enum and uniqueItems compare with deep strict equality, which tells -0 from 0 although
   they are the same JSON number. It is equality of JSON instances, and nowhere -0 against 0.
   */
  lemma {:induction false} DeepEqualityExactly(a: Json, b: Json)
    ensures a == b <==> Unsigned(a) == Unsigned(b) && SignsAgree(a, b)
    decreases a
  {
    match a
    case Array(items) =>
      if b.Array? && |items| == |b.items| {
        forall i | 0 <= i < |items|
          ensures items[i] == b.items[i] <==> (Unsigned(items[i]) == Unsigned(b.items[i]) && SignsAgree(items[i], b.items[i]))
        {
          DeepEqualityExactly(items[i], b.items[i]);
        }
        ArraysUnsigned(a, b);
      } else if b.Array? {
        assert |Unsigned(a).items| == |items| && |Unsigned(b).items| == |b.items|;
      }
    case Object(members) =>
      if b.Object? && members.Keys == b.members.Keys {
        forall k | k in members
          ensures members[k] == b.members[k] <==> (Unsigned(members[k]) == Unsigned(b.members[k]) && SignsAgree(members[k], b.members[k]))
        {
          DeepEqualityExactly(members[k], b.members[k]);
        }
        ObjectsUnsigned(a, b);
      } else if b.Object? {
        assert Unsigned(a).members.Keys == members.Keys && Unsigned(b).members.Keys == b.members.Keys;
      }
    case _ =>
  }

  lemma UnsignedItems(v: Json)
    requires v.Array?
    ensures Unsigned(v).Array? && |Unsigned(v).items| == |v.items|
    ensures forall i | 0 <= i < |v.items| :: Unsigned(v).items[i] == Unsigned(v.items[i])
  {
  }

  lemma UnsignedMembers(v: Json)
    requires v.Object?
    ensures Unsigned(v).Object? && Unsigned(v).members.Keys == v.members.Keys
    ensures forall k | k in v.members :: Unsigned(v).members[k] == Unsigned(v.members[k])
  {
  }

  lemma ArraysUnsigned(a: Json, b: Json)
    requires a.Array? && b.Array? && |a.items| == |b.items|
    ensures Unsigned(a) == Unsigned(b) <==> forall i | 0 <= i < |a.items| :: Unsigned(a.items[i]) == Unsigned(b.items[i])
    ensures a == b <==> forall i | 0 <= i < |a.items| :: a.items[i] == b.items[i]
  {
    hide Unsigned;
    UnsignedItems(a);
    UnsignedItems(b);
    assert Unsigned(a) == Unsigned(b) <==> Unsigned(a).items == Unsigned(b).items;
    assert a == b <==> a.items == b.items;
  }

  lemma ObjectsUnsigned(a: Json, b: Json)
    requires a.Object? && b.Object? && a.members.Keys == b.members.Keys
    ensures Unsigned(a) == Unsigned(b) <==> forall k | k in a.members :: Unsigned(a.members[k]) == Unsigned(b.members[k])
    ensures a == b <==> forall k | k in a.members :: a.members[k] == b.members[k]
  {
    hide Unsigned;
    UnsignedMembers(a);
    UnsignedMembers(b);
    assert Unsigned(a) == Unsigned(b) <==> Unsigned(a).members == Unsigned(b).members;
    assert a == b <==> a.members == b.members;
  }

  /** The program's equality, and the one of JSON instances. */
  datatype Equality = DeepStrict | Instance

  predicate Same(equality: Equality, a: Json, b: Json) {
    match equality
    case DeepStrict => a == b
    case Instance => Unsigned(a) == Unsigned(b)
  }

  // ---------------------------------------------------------------- declarative semantics

  /** The loaded root schema, the regular-expression engine, and how values are compared. */
  datatype Env = Env(root: Schema, matches: (Str, Str) -> bool, equality: Equality)

  predicate StringOk(v: Json, s: Schema, env: Env) {
    v.String? ==>
      && (s.minLength.Some? ==> CodePointLength(v.text) >= s.minLength.value)
      && (s.maxLength.Some? ==> CodePointLength(v.text) <= s.maxLength.value)
      && (s.pattern.Some? ==> env.matches(s.pattern.value, v.text))
      && (s.dateTimeFormat ==> Rfc3339.IsValidRfc3339DateTime(v.text))
  }

  predicate NumberOk(v: Json, s: Schema) {
    IsNumber(v) ==>
      && (s.minimum.Some? ==> NumericValue(v) >= s.minimum.value)
      && (s.maximum.Some? ==> NumericValue(v) <= s.maximum.value)
  }

  predicate AllDistinct(items: seq<Json>, equality: Equality) {
    forall i, j | 0 <= i < j < |items| :: !Same(equality, items[i], items[j])
  }

  /** Section 8.2.3 ($ref) and the assertions that hold of any type. */
  ghost predicate AssertionsOk(v: Json, s: Schema, env: Env)
    requires Ready(env.root) && s in Nodes(env.root)
    decreases v, Rank(s, env.root), 0
  {
    Graded(s, env.root);
    && (s.ref.Some? ==> Satisfies(v, Target(s, env.root).value, env))
    && (s.types.Some? ==> exists t | t in s.types.value :: MatchesType(v, t))
    && (s.constant.Some? ==> Same(env.equality, v, s.constant.value))
    && (s.enumeration.Some? ==> exists e | e in s.enumeration.value :: Same(env.equality, v, e))
  }

  /** Section 10.2.1.1: every subschema accepts. */
  ghost predicate AllOfOk(v: Json, s: Schema, env: Env)
    requires Ready(env.root) && s in Nodes(env.root)
    decreases v, Rank(s, env.root), 0
  {
    Graded(s, env.root);
    forall c | c in s.allOf :: Satisfies(v, c, env)
  }

  /** Branch `i` of oneOf accepts, and no other does. */
  ghost predicate OnlyBranch(v: Json, s: Schema, env: Env, i: nat)
    requires Ready(env.root) && s in Nodes(env.root)
    decreases v, Rank(s, env.root), 0, 0
  {
    Graded(s, env.root);
    i < |s.oneOf| && Satisfies(v, s.oneOf[i], env) &&
    forall j | 0 <= j < |s.oneOf| && j != i :: !Satisfies(v, s.oneOf[j], env)
  }

  /** Section 10.2.1.3: exactly one subschema accepts. */
  ghost predicate OneOfOk(v: Json, s: Schema, env: Env)
    requires Ready(env.root) && s in Nodes(env.root)
    decreases v, Rank(s, env.root), 0, 1
  {
    s.oneOf != [] ==> exists i: nat :: OnlyBranch(v, s, env, i)
  }

  /** Section 10.2.1.4: the subschema does not accept. */
  ghost predicate NotOk(v: Json, s: Schema, env: Env)
    requires Ready(env.root) && s in Nodes(env.root)
    decreases v, Rank(s, env.root), 0
  {
    Graded(s, env.root);
    s.negated.Some? ==> !Satisfies(v, s.negated.value, env)
  }

  /** Section 10.2.2: if, then and else. */
  ghost predicate ConditionOk(v: Json, s: Schema, env: Env)
    requires Ready(env.root) && s in Nodes(env.root)
    decreases v, Rank(s, env.root), 0
  {
    Graded(s, env.root);
    && (s.condition.Some? && s.consequent.Some? ==>
          (Satisfies(v, s.condition.value, env) ==> Satisfies(v, s.consequent.value, env)))
    && (s.condition.Some? && s.alternative.Some? ==>
          (!Satisfies(v, s.condition.value, env) ==> Satisfies(v, s.alternative.value, env)))
  }

  /** Section 10.3.1: prefixItems position by position, items for the rest. */
  ghost predicate ItemsOk(v: Json, s: Schema, env: Env)
    requires Ready(env.root) && s in Nodes(env.root) && v.Array?
    decreases v, Rank(s, env.root), 0
  {
    Graded(s, env.root);
    && (forall i | 0 <= i < |v.items| && i < |s.prefixItems| :: Satisfies(v.items[i], s.prefixItems[i], env))
    && (s.items.NoItems? ==> |v.items| <= |s.prefixItems|)
    && (s.items.EachItem? ==> forall i | |s.prefixItems| <= i < |v.items| :: Satisfies(v.items[i], s.items.schema, env))
  }

  ghost predicate ArrayOk(v: Json, s: Schema, env: Env)
    requires Ready(env.root) && s in Nodes(env.root)
    decreases v, Rank(s, env.root), 1
  {
    v.Array? ==>
      && (s.minItems.Some? ==> |v.items| >= s.minItems.value)
      && (s.maxItems.Some? ==> |v.items| <= s.maxItems.value)
      && (s.uniqueItems ==> AllDistinct(v.items, env.equality))
      && ItemsOk(v, s, env)
  }

  /** Section 10.3.2.1: properties by name. */
  ghost predicate PropertiesOk(v: Json, s: Schema, env: Env)
    requires Ready(env.root) && s in Nodes(env.root) && v.Object?
    decreases v, Rank(s, env.root), 0
  {
    Graded(s, env.root);
    forall p | p in s.properties && p.name in v.members :: Satisfies(v.members[p.name], p.schema, env)
  }

  /** The closed case of additionalProperties (section 10.3.2.3) forbids every other name. */
  ghost predicate ObjectOk(v: Json, s: Schema, env: Env)
    requires Ready(env.root) && s in Nodes(env.root)
    decreases v, Rank(s, env.root), 1
  {
    v.Object? ==>
      && (forall k | k in s.required :: k in v.members)
      && PropertiesOk(v, s, env)
      && (s.closed ==> forall k | k in v.members :: exists p | p in s.properties :: p.name == k)
  }

  ghost predicate InPlaceOk(v: Json, s: Schema, env: Env)
    requires Ready(env.root) && s in Nodes(env.root)
    decreases v, Rank(s, env.root), 1
  {
    AssertionsOk(v, s, env) && AllOfOk(v, s, env) && OneOfOk(v, s, env) && NotOk(v, s, env) && ConditionOk(v, s, env)
  }

  /** The value satisfies the schema. */
  ghost predicate Satisfies(v: Json, s: Schema, env: Env)
    requires Ready(env.root) && s in Nodes(env.root)
    decreases v, Rank(s, env.root), 2
  {
    InPlaceOk(v, s, env) && StringOk(v, s, env) && NumberOk(v, s) && ArrayOk(v, s, env) && ObjectOk(v, s, env)
  }

  // ---------------------------------------------------------------- what the keywords decide

  /** Equal bounds leave one length in code points: both are inclusive. */
  lemma TextBoundsMeet(v: Json, s: Schema, env: Env, n: nat)
    requires v.String? && s.minLength == s.maxLength == Some(n) && s.pattern.None? && !s.dateTimeFormat
    ensures StringOk(v, s, env) <==> |CodePointStarts(v.text)| == n
  {
    hide CodePointStarts, CodePointLength;
    CodePointLengthExactly(v.text);
  }

  /** Equal bounds leave one number, and one size of a list. */
  lemma BoundsMeet(v: Json, s: Schema, env: Env, x: real, n: nat)
    requires Ready(env.root) && s in Nodes(env.root)
    requires s.minimum == s.maximum == Some(x) && s.minItems == s.maxItems == Some(n)
    requires !s.uniqueItems && s.prefixItems == [] && s.items.AnyItems?
    ensures NumberOk(v, s) <==> (IsNumber(v) ==> NumericValue(v) == x)
    ensures ArrayOk(v, s, env) <==> (v.Array? ==> |v.items| == n)
  {
    hide Ready, Nodes;
  }

  /** One more item keeps a list distinct exactly if it is the same as none of the others. */
  lemma DistinctSnoc(items: seq<Json>, last: Json, equality: Equality)
    ensures AllDistinct(items + [last], equality) <==>
            AllDistinct(items, equality) && forall v | v in items :: !Same(equality, v, last)
  {
    hide Same;
    var all := items + [last];
    if AllDistinct(all, equality) {
      forall i, j | 0 <= i < j < |items| ensures !Same(equality, items[i], items[j]) {
        assert !Same(equality, all[i], all[j]);
      }
      forall i | 0 <= i < |items| ensures !Same(equality, items[i], last) {
        assert !Same(equality, all[i], all[|items|]);
      }
    }
  }

  /** With then and else, if chooses the one that has to accept. */
  lemma IfChooses(v: Json, s: Schema, env: Env)
    requires Ready(env.root) && s in Nodes(env.root)
    requires s.condition.Some? && s.consequent.Some? && s.alternative.Some?
    ensures (Graded(s, env.root);
      ConditionOk(v, s, env) <==>
        Satisfies(v, if Satisfies(v, s.condition.value, env) then s.consequent.value else s.alternative.value, env))
  {
    hide Satisfies, NoInPlaceLoop, Nodes, Rank;
    Graded(s, env.root);
  }

  // ---------------------------------------------------------------- where the equalities differ

  predicate ComparesUnsigned(s: Schema) {
    && (s.constant.Some? ==> FreeOfNegativeZero(s.constant.value))
    && (s.enumeration.Some? ==> forall e | e in s.enumeration.value :: FreeOfNegativeZero(e))
  }

  /** No schema compares with a negative zero. */
  ghost predicate AllCompareUnsigned(root: Schema) {
    forall t | t in Nodes(root) :: ComparesUnsigned(t)
  }

  /**
   Two readings of one JSON instance, the second under instance equality. The first may be under deep
   strict equality where no negative zero occurs.
   */
  ghost predicate Twins(v: Json, env: Env, w: Json, other: Env) {
    && other == env.(equality := Instance) && Ready(env.root) && Unsigned(v) == Unsigned(w)
    && (env.equality.DeepStrict? ==> FreeOfNegativeZero(v) && FreeOfNegativeZero(w) && AllCompareUnsigned(env.root))
  }

  lemma UnsignedKind(v: Json)
    ensures v.Array? == Unsigned(v).Array? && v.Object? == Unsigned(v).Object?
    ensures IsNumber(v) == Unsigned(v).Num? && (IsNumber(v) ==> Unsigned(v).value == NumericValue(v))
    ensures !IsNumber(v) && !v.Array? && !v.Object? ==> Unsigned(v) == v
  {
  }

  lemma EqualTypes(v: Json, w: Json, t: JsonType)
    requires Unsigned(v) == Unsigned(w)
    ensures MatchesType(v, t) == MatchesType(w, t)
  {
    hide Unsigned;
    UnsignedKind(v);
    UnsignedKind(w);
  }

  /** Equal instances have the same type, number, text, length and names, and equal parts. */
  lemma EqualInstances(v: Json, w: Json)
    requires Unsigned(v) == Unsigned(w)
    ensures IsNumber(v) == IsNumber(w) && (IsNumber(v) ==> NumericValue(v) == NumericValue(w))
    ensures forall t :: MatchesType(v, t) == MatchesType(w, t)
    ensures v.String? || w.String? ==> v == w
    ensures v.Array? == w.Array? && v.Object? == w.Object?
    ensures v.Array? ==> |v.items| == |w.items| && forall i | 0 <= i < |v.items| :: Unsigned(v.items[i]) == Unsigned(w.items[i])
    ensures v.Object? ==>
      v.members.Keys == w.members.Keys && forall k | k in v.members :: Unsigned(v.members[k]) == Unsigned(w.members[k])
  {
    hide Unsigned, MatchesType, NumericValue;
    UnsignedKind(v);
    UnsignedKind(w);
    forall t ensures MatchesType(v, t) == MatchesType(w, t) {
      EqualTypes(v, w, t);
    }
    if v.Array? {
      UnsignedItems(v);
      UnsignedItems(w);
    }
    if v.Object? {
      UnsignedMembers(v);
      UnsignedMembers(w);
    }
  }

  lemma TwinsCompare(v: Json, env: Env, w: Json, other: Env, c: Json, d: Json)
    requires Twins(v, env, w, other) && Unsigned(c) == Unsigned(d)
    requires env.equality.DeepStrict? ==> FreeOfNegativeZero(c) && FreeOfNegativeZero(d)
    ensures Same(env.equality, v, c) == Same(Instance, w, d)
  {
    UnsignedIsIdentityExactly(v);
    UnsignedIsIdentityExactly(w);
    UnsignedIsIdentityExactly(c);
    UnsignedIsIdentityExactly(d);
  }

  lemma TwinItems(v: Json, env: Env, w: Json, other: Env)
    requires Twins(v, env, w, other) && v.Array?
    ensures w.Array? && |v.items| == |w.items| && forall i | 0 <= i < |v.items| :: Twins(v.items[i], env, w.items[i], other)
    ensures AllDistinct(v.items, env.equality) == AllDistinct(w.items, Instance)
  {
    hide Unsigned, Nodes, Ready, AllCompareUnsigned;
    EqualInstances(v, w);
    forall i, j | 0 <= i < j < |v.items|
      ensures Same(env.equality, v.items[i], v.items[j]) == Same(Instance, w.items[i], w.items[j])
    {
      TwinsCompare(v.items[i], env, w.items[i], other, v.items[j], w.items[j]);
    }
  }

  lemma TwinMembers(v: Json, env: Env, w: Json, other: Env)
    requires Twins(v, env, w, other) && v.Object?
    ensures w.Object? && v.members.Keys == w.members.Keys
    ensures forall k | k in v.members :: Twins(v.members[k], env, w.members[k], other)
  {
    hide Unsigned, Nodes, Ready, AllCompareUnsigned;
    EqualInstances(v, w);
  }

  ghost predicate Agree(v: Json, env: Env, w: Json, other: Env, s: Schema)
    requires Twins(v, env, w, other)
  {
    s in Nodes(env.root) && Satisfies(v, s, env) == Satisfies(w, s, other)
  }

  lemma TargetIsInPlace(s: Schema, root: Schema)
    requires Loaded(root) && s in Nodes(root)
    ensures s.ref.Some? ==> Target(s, root).Some? && Target(s, root).value in InPlace(s, root)
  {
    hide Nodes, Target;
  }

  lemma AssertionsAgree(v: Json, env: Env, w: Json, other: Env, s: Schema)
    requires Twins(v, env, w, other) && s in Nodes(env.root)
    requires s.ref.Some? ==> Agree(v, env, w, other, Target(s, env.root).value)
    ensures AssertionsOk(v, s, env) == AssertionsOk(w, s, other)
  {
    hide Satisfies, Rank, Same, FreeOfNegativeZero, Target, Nodes, MatchesType, Unsigned, NoInPlaceLoop, Loaded;
    EqualInstances(v, w);
    if s.constant.Some? {
      TwinsCompare(v, env, w, other, s.constant.value, s.constant.value);
    }
    if s.enumeration.Some? {
      forall e | e in s.enumeration.value ensures Same(env.equality, v, e) == Same(Instance, w, e) {
        TwinsCompare(v, env, w, other, e, e);
      }
    }
  }

  lemma AllOfAgrees(v: Json, env: Env, w: Json, other: Env, s: Schema)
    requires Twins(v, env, w, other) && s in Nodes(env.root) && forall c | c in s.allOf :: Agree(v, env, w, other, c)
    ensures AllOfOk(v, s, env) == AllOfOk(w, s, other)
  {
    hide Satisfies, Rank, Nodes, Unsigned, FreeOfNegativeZero, AllCompareUnsigned, NoInPlaceLoop, Loaded, InPlace;
  }

  lemma OneOfAgrees(v: Json, env: Env, w: Json, other: Env, s: Schema)
    requires Twins(v, env, w, other) && s in Nodes(env.root) && forall c | c in s.oneOf :: Agree(v, env, w, other, c)
    ensures OneOfOk(v, s, env) == OneOfOk(w, s, other)
  {
    hide Satisfies, Rank, Nodes, Unsigned, FreeOfNegativeZero, AllCompareUnsigned, NoInPlaceLoop, Loaded, InPlace;
    assert forall i | 0 <= i < |s.oneOf| :: Agree(v, env, w, other, s.oneOf[i]);
    forall i: nat ensures OnlyBranch(v, s, env, i) <==> OnlyBranch(w, s, other, i) {
    }
  }

  lemma NotAgrees(v: Json, env: Env, w: Json, other: Env, s: Schema)
    requires Twins(v, env, w, other) && s in Nodes(env.root) && (s.negated.Some? ==> Agree(v, env, w, other, s.negated.value))
    ensures NotOk(v, s, env) == NotOk(w, s, other)
  {
    hide Satisfies, Rank, Nodes, Unsigned, FreeOfNegativeZero, AllCompareUnsigned, NoInPlaceLoop, Loaded, InPlace;
  }

  lemma ConditionAgrees(v: Json, env: Env, w: Json, other: Env, s: Schema)
    requires Twins(v, env, w, other) && s in Nodes(env.root) && (s.condition.Some? ==> Agree(v, env, w, other, s.condition.value))
    requires s.consequent.Some? ==> Agree(v, env, w, other, s.consequent.value)
    requires s.alternative.Some? ==> Agree(v, env, w, other, s.alternative.value)
    ensures ConditionOk(v, s, env) == ConditionOk(w, s, other)
  {
    hide Satisfies, Rank, Nodes, Unsigned, FreeOfNegativeZero, AllCompareUnsigned, NoInPlaceLoop, Loaded, InPlace;
  }

  ghost predicate ItemsTwin(v: Json, env: Env, w: Json, other: Env)
    requires v.Array? && w.Array?
  {
    && |v.items| == |w.items|
    && forall i, c | 0 <= i < |v.items| && c in Nodes(env.root) ::
         Twins(v.items[i], env, w.items[i], other) && Agree(v.items[i], env, w.items[i], other, c)
  }

  lemma ArrayAgrees(v: Json, env: Env, w: Json, other: Env, s: Schema)
    requires Twins(v, env, w, other) && s in Nodes(env.root) && v.Array? && w.Array? && ItemsTwin(v, env, w, other)
    ensures ArrayOk(v, s, env) == ArrayOk(w, s, other)
  {
    hide Satisfies, Rank, Nodes, Unsigned, FreeOfNegativeZero, AllCompareUnsigned, NoInPlaceLoop, Loaded, InPlace, AllDistinct, Twins;
    assert Ready(env.root) && other.root == env.root && other.equality == Instance by {
      TwinsShareRoot(v, env, w, other);
    }
    Graded(s, env.root);
    TwinItems(v, env, w, other);
    forall i | 0 <= i < |v.items| && i < |s.prefixItems| ensures Agree(v.items[i], env, w.items[i], other, s.prefixItems[i]) {
      assert IsChild(s.prefixItems[i], s);
    }
    if s.items.EachItem? {
      assert IsChild(s.items.schema, s);
      assert forall i | 0 <= i < |v.items| :: Agree(v.items[i], env, w.items[i], other, s.items.schema);
    }
  }

  lemma TwinsShareRoot(v: Json, env: Env, w: Json, other: Env)
    requires Twins(v, env, w, other)
    ensures Ready(env.root) && other == env.(equality := Instance)
  {
  }

  lemma ObjectAgrees(v: Json, env: Env, w: Json, other: Env, s: Schema)
    requires Twins(v, env, w, other) && s in Nodes(env.root) && v.Object? && w.Object? && v.members.Keys == w.members.Keys
    requires forall k, c | k in v.members && c in Nodes(env.root) ::
      Twins(v.members[k], env, w.members[k], other) && Agree(v.members[k], env, w.members[k], other, c)
    ensures ObjectOk(v, s, env) == ObjectOk(w, s, other)
  {
    hide Satisfies, Rank, Nodes, Unsigned, FreeOfNegativeZero, AllCompareUnsigned, NoInPlaceLoop, Loaded, InPlace, Twins;
    assert Ready(env.root) && other.root == env.root by {
      TwinsShareRoot(v, env, w, other);
    }
    Graded(s, env.root);
    assert forall k :: k in v.members <==> k in w.members;
    forall p | p in s.properties && p.name in v.members ensures Agree(v.members[p.name], env, w.members[p.name], other, p.schema) {
      assert IsChild(p.schema, s);
    }
  }

  /** Two readings of one instance satisfy the same schemas. */
  lemma {:induction false} TwinsAgree(v: Json, env: Env, w: Json, other: Env, s: Schema)
    requires Twins(v, env, w, other) && s in Nodes(env.root)
    ensures Satisfies(v, s, env) == Satisfies(w, s, other)
    decreases v, Rank(s, env.root)
  {
    hide Nodes, NoInPlaceLoop, Loaded, Rank, Satisfies, AssertionsOk, AllOfOk, OneOfOk, NotOk, ConditionOk, ArrayOk, ObjectOk;
    hide Unsigned, FreeOfNegativeZero, AllCompareUnsigned;
    Graded(s, env.root);
    forall t | t in InPlace(s, env.root) ensures Agree(v, env, w, other, t) {
      TwinsAgree(v, env, w, other, t);
    }
    TargetIsInPlace(s, env.root);
    AssertionsAgree(v, env, w, other, s);
    AllOfAgrees(v, env, w, other, s);
    OneOfAgrees(v, env, w, other, s);
    NotAgrees(v, env, w, other, s);
    ConditionAgrees(v, env, w, other, s);
    EqualInstances(v, w);
    if v.Array? {
      TwinItems(v, env, w, other);
      forall i, c | 0 <= i < |v.items| && c in Nodes(env.root) ensures Agree(v.items[i], env, w.items[i], other, c) {
        TwinsAgree(v.items[i], env, w.items[i], other, c);
      }
      ArrayAgrees(v, env, w, other, s);
    }
    if v.Object? {
      TwinMembers(v, env, w, other);
      forall k, c | k in v.members && c in Nodes(env.root) ensures Agree(v.members[k], env, w.members[k], other, c) {
        TwinsAgree(v.members[k], env, w.members[k], other, c);
      }
      ObjectAgrees(v, env, w, other, s);
    }
    PartsAgree(v, env, w, other, s);
  }

  lemma PartsAgree(v: Json, env: Env, w: Json, other: Env, s: Schema)
    requires Twins(v, env, w, other) && s in Nodes(env.root)
    requires AssertionsOk(v, s, env) == AssertionsOk(w, s, other) && AllOfOk(v, s, env) == AllOfOk(w, s, other)
    requires OneOfOk(v, s, env) == OneOfOk(w, s, other) && NotOk(v, s, env) == NotOk(w, s, other)
    requires ConditionOk(v, s, env) == ConditionOk(w, s, other)
    requires v.Array? ==> ArrayOk(v, s, env) == ArrayOk(w, s, other)
    requires v.Object? ==> ObjectOk(v, s, env) == ObjectOk(w, s, other)
    ensures Satisfies(v, s, env) == Satisfies(w, s, other)
  {
    hide Nodes, Rank, AllCompareUnsigned, AssertionsOk, AllOfOk, OneOfOk, NotOk, ConditionOk, ItemsOk, PropertiesOk, Unsigned;
    EqualInstances(v, w);
  }

  /** The two environments that differ in how values are compared. */
  ghost predicate Counterparts(env: Env, other: Env) {
    env.equality == DeepStrict && other == env.(equality := Instance) && Ready(env.root) && AllCompareUnsigned(env.root)
  }

  /** Without negative zeros in the value and the schema, the program decides what the standard asks for. */
  lemma EqualitiesAgree(v: Json, s: Schema, env: Env, other: Env)
    requires Counterparts(env, other) && s in Nodes(env.root) && FreeOfNegativeZero(v)
    ensures Satisfies(v, s, env) == Satisfies(v, s, other)
  {
    hide Nodes, Ready, Rank, Satisfies, Unsigned, FreeOfNegativeZero, AllCompareUnsigned;
    TwinsAgree(v, env, v, other, s);
  }

  /** Under instance equality no schema tells two readings of one instance apart. */
  lemma InstanceEqualityIgnoresSigns(v: Json, w: Json, s: Schema, env: Env)
    requires env.equality == Instance && Ready(env.root) && s in Nodes(env.root) && Unsigned(v) == Unsigned(w)
    ensures Satisfies(v, s, env) == Satisfies(w, s, env)
  {
    hide Nodes, Ready, Rank, Satisfies, Unsigned, FreeOfNegativeZero, AllCompareUnsigned;
    TwinsAgree(v, env, w, env, s);
  }

  /** A schema that demands the constant 0 refuses the JSON number -0, which instance equality accepts if it accepts 0. */
  lemma NegativeZeroIsNotZero(env: Env, s: Schema)
    requires Ready(env.root) && s in Nodes(env.root) && s.constant == Some(Num(0.0)) && env.equality == DeepStrict
    ensures Unsigned(NegativeZero) == Unsigned(Num(0.0)) && !Satisfies(NegativeZero, s, env)
    ensures var standard := env.(equality := Instance); Satisfies(NegativeZero, s, standard) == Satisfies(Num(0.0), s, standard)
  {
    hide Nodes, Ready, Rank, AllOfOk, OneOfOk, NotOk, ConditionOk, StringOk, NumberOk, ArrayOk, ObjectOk;
    assert !AssertionsOk(NegativeZero, s, env);
    InstanceEqualityIgnoresSigns(NegativeZero, Num(0.0), s, env.(equality := Instance));
  }

  /** The schema whose only keyword is const. */
  function ConstSchema(c: Json): Schema {
    Schema(None, None, Some(c), None, [], [], None, None, None, None, None, None, None, false, None, None, None, None, false,
           [], AnyItems, [], [], false, [])
  }

  lemma ConstIsReady(c: Json)
    ensures Nodes(ConstSchema(c)) == {ConstSchema(c)} && Ready(ConstSchema(c))
  {
    var s := ConstSchema(c);
    assert Children(s) == [];
    assert InPlace(s, s) == [];
  }

  lemma ConstDecides(v: Json, env: Env, c: Json)
    requires env.root == ConstSchema(c)
    ensures Ready(env.root) && env.root in Nodes(env.root) && (Satisfies(v, env.root, env) <==> Same(env.equality, v, c))
  {
    hide Nodes, Ready, Same;
    ConstIsReady(c);
    var s := env.root;
    assert AssertionsOk(v, s, env) <==> Same(env.equality, v, c);
    assert AllOfOk(v, s, env) && OneOfOk(v, s, env) && NotOk(v, s, env) && ConditionOk(v, s, env);
    assert v.Array? ==> ItemsOk(v, s, env);
    assert v.Object? ==> PropertiesOk(v, s, env);
  }

  lemma {:induction false} UnsignedTwice(v: Json)
    ensures Unsigned(Unsigned(v)) == Unsigned(v)
    decreases v
  {
    match v
    case Array(items) =>
      forall i | 0 <= i < |items| ensures Unsigned(Unsigned(items[i])) == Unsigned(items[i]) {
        UnsignedTwice(items[i]);
      }
    case Object(members) =>
      forall k | k in members ensures Unsigned(Unsigned(members[k])) == Unsigned(members[k]) {
        UnsignedTwice(members[k]);
      }
      assert Unsigned(Unsigned(v)).members == Unsigned(v).members;
    case _ =>
  }

  /** The schemas that compare with no negative zero decide the value alike under both equalities. */
  ghost predicate DecidedAlike(v: Json, matches: (Str, Str) -> bool) {
    forall root | Ready(root) && root in Nodes(root) && AllCompareUnsigned(root) ::
      Satisfies(v, root, Env(root, matches, DeepStrict)) == Satisfies(v, root, Env(root, matches, Instance))
  }

  /** Freedom from negative zero is what it takes for the program to decide every such schema as the standard does. */
  lemma DecidedAlikeExactly(v: Json, matches: (Str, Str) -> bool)
    ensures DecidedAlike(v, matches) <==> FreeOfNegativeZero(v)
  {
    hide Nodes, Ready, Rank, Satisfies, Unsigned, FreeOfNegativeZero, AllCompareUnsigned;
    if FreeOfNegativeZero(v) {
      forall root | Ready(root) && root in Nodes(root) && AllCompareUnsigned(root)
        ensures Satisfies(v, root, Env(root, matches, DeepStrict)) == Satisfies(v, root, Env(root, matches, Instance))
      {
        EqualitiesAgree(v, root, Env(root, matches, DeepStrict), Env(root, matches, Instance));
      }
    } else {
      var root := ConstSchema(Unsigned(v));
      UnsignedTwice(v);
      UnsignedIsIdentityExactly(v);
      ConstDecides(v, Env(root, matches, DeepStrict), Unsigned(v));
      ConstDecides(v, Env(root, matches, Instance), Unsigned(v));
      ConstComparesUnsigned(v);
    }
  }

  lemma ConstComparesUnsigned(v: Json)
    ensures AllCompareUnsigned(ConstSchema(Unsigned(v)))
  {
    hide Nodes, Ready, Unsigned, FreeOfNegativeZero;
    ConstIsReady(Unsigned(v));
    UnsignedTwice(v);
    UnsignedIsIdentityExactly(Unsigned(v));
  }
}
