/**
 JSON values as the evaluator sees them, the supported part of JSON Schema 2020-12 after loading,
 local references, and the condition under which evaluation terminates.
 */
module Json {
  import opened Wrappers
  import opened Text

  /**
   Numbers are the reals they denote, with negative zero kept apart: it is what isDeepStrictEqual
   distinguishes. Objects are maps, so equality of values is deep strict equality.
   */
  datatype Json =
    | Null
    | Bool(truth: bool)
    | Num(value: real)
    | NegativeZero
    | String(text: Str)
    | Array(items: seq<Json>)
    | Object(members: map<Str, Json>)

  predicate IsNumber(v: Json) {
    v.Num? || v.NegativeZero?
  }

  function NumericValue(v: Json): real
    requires IsNumber(v)
  {
    if v.Num? then v.value else 0.0
  }

  datatype JsonType = ArrayType | BooleanType | IntegerType | NullType | NumberType | ObjectType | StringType

  predicate MatchesType(v: Json, t: JsonType) {
    match t
    case ArrayType => v.Array?
    case BooleanType => v.Bool?
    case IntegerType => IsNumber(v) && NumericValue(v) == NumericValue(v).Floor as real
    case NullType => v.Null?
    case NumberType => IsNumber(v)
    case ObjectType => v.Object?
    case StringType => v.String?
  }

  /** Length in code points: a surrogate pair counts once. */
  function CodePointLength(s: Str): nat {
    if s == [] then 0 else if StartsPair(s) then 1 + CodePointLength(s[2..]) else 1 + CodePointLength(s[1..])
  }

  /** Positions at which a code point starts: all but the second half of a surrogate pair. */
  function CodePointStarts(s: Str): set<int> {
    set i | 0 <= i < |s| && !(i > 0 && IsHigh(s[i - 1]) && IsLow(s[i]))
  }

  lemma {:induction false} CodePointSnoc(s: Str, c: CodeUnit)
    ensures CodePointLength(s + [c]) == CodePointLength(s) + if s != [] && IsHigh(s[|s| - 1]) && IsLow(c) then 0 else 1
    decreases |s|
  {
    var whole := s + [c];
    if s == [] {
      assert whole[1..] == [];
    } else if StartsPair(s) {
      assert whole[2..] == s[2..] + [c];
      CodePointSnoc(s[2..], c);
    } else if |s| == 1 && StartsPair(whole) {
      assert whole[2..] == [] && s[1..] == [];
    } else {
      assert whole[1..] == s[1..] + [c];
      CodePointSnoc(s[1..], c);
    }
  }

  lemma StartsSnoc(s: Str, c: CodeUnit)
    ensures |CodePointStarts(s + [c])| == |CodePointStarts(s)| + if s != [] && IsHigh(s[|s| - 1]) && IsLow(c) then 0 else 1
  {
    hide IsHigh, IsLow;
    var all, front := CodePointStarts(s + [c]), CodePointStarts(s);
    forall i | 0 <= i < |s| ensures i in all <==> i in front {
      assert (s + [c])[i] == s[i] && (i > 0 ==> (s + [c])[i - 1] == s[i - 1]);
    }
    if |s| in all {
      assert all == front + {|s|};
    } else {
      assert all == front;
    }
  }

  /** The length counts the positions at which a code point starts. */
  lemma {:induction false} CodePointLengthExactly(s: Str)
    ensures CodePointLength(s) == |CodePointStarts(s)|
  {
    if s == [] {
      assert CodePointStarts(s) == {};
    } else {
      var n := |s| - 1;
      assert s == s[..n] + [s[n]];
      hide CodePointLength, CodePointStarts, IsHigh, IsLow;
      CodePointSnoc(s[..n], s[n]);
      StartsSnoc(s[..n], s[n]);
      CodePointLengthExactly(s[..n]);
    }
  }

  predicate IsWhole(v: Json, n: int) {
    v == Num(n as real)
  }

  /** Every value has exactly one type of the six, and integers are the numbers without a fraction. */
  lemma TypesExactly(v: Json)
    ensures MatchesType(v, ArrayType) <==> exists items :: v == Array(items)
    ensures MatchesType(v, ObjectType) <==> exists members :: v == Object(members)
    ensures MatchesType(v, StringType) <==> exists text :: v == String(text)
    ensures MatchesType(v, BooleanType) <==> v == Bool(true) || v == Bool(false)
    ensures MatchesType(v, NullType) <==> v == Null
    ensures MatchesType(v, NumberType) <==> v == NegativeZero || exists x :: v == Num(x)
    ensures MatchesType(v, IntegerType) <==> v == NegativeZero || exists n :: IsWhole(v, n)
  {
    if v.Num? && MatchesType(v, IntegerType) {
      assert IsWhole(v, v.value.Floor);
    }
    if n :| IsWhole(v, n) {
      assert (n as real).Floor == n;
    }
    match v
    case Array(items) =>
    case Object(members) =>
    case String(text) =>
    case Num(x) =>
    case _ =>
  }

  // ---------------------------------------------------------------- schemas

  datatype Items = AnyItems | NoItems | EachItem(schema: Schema)

  datatype Property = Property(name: Str, schema: Schema)

  /** One schema node that has passed assertSupportedSchema; absent list keywords are empty lists. */
  datatype Schema = Schema(
    ref: Option<Str>,
    types: Option<seq<JsonType>>,
    constant: Option<Json>,
    enumeration: Option<seq<Json>>,
    allOf: seq<Schema>,
    oneOf: seq<Schema>,
    negated: Option<Schema>,
    condition: Option<Schema>,
    consequent: Option<Schema>,
    alternative: Option<Schema>,
    minLength: Option<nat>,
    maxLength: Option<nat>,
    pattern: Option<Str>,
    dateTimeFormat: bool,
    minimum: Option<real>,
    maximum: Option<real>,
    minItems: Option<nat>,
    maxItems: Option<nat>,
    uniqueItems: bool,
    prefixItems: seq<Schema>,
    items: Items,
    required: seq<Str>,
    properties: seq<Property>,
    closed: bool,
    defs: seq<Property>)

  function SchemaOfOption(o: Option<Schema>): seq<Schema> {
    match o
    case None => []
    case Some(s) => [s]
  }

  function SchemasOf(list: seq<Property>): (r: seq<Schema>)
    ensures |r| == |list| && forall i | 0 <= i < |list| :: r[i] == list[i].schema
  {
    seq(|list|, i requires 0 <= i < |list| => list[i].schema)
  }

  /** The schemas written directly below a schema. */
  function Children(s: Schema): seq<Schema> {
    s.allOf + s.oneOf + s.prefixItems +
    SchemaOfOption(s.negated) + SchemaOfOption(s.condition) + SchemaOfOption(s.consequent) + SchemaOfOption(s.alternative) +
    (if s.items.EachItem? then [s.items.schema] else []) + SchemasOf(s.properties) + SchemasOf(s.defs)
  }

  ghost predicate AllWithin(list: seq<Schema>, parent: Schema) {
    forall i | 0 <= i < |list| :: list[i] < parent
  }

  lemma ConcatWithin(a: seq<Schema>, b: seq<Schema>, parent: Schema)
    requires AllWithin(a, parent) && AllWithin(b, parent)
    ensures AllWithin(a + b, parent)
  {
  }

  lemma PropertiesWithin(s: Schema)
    ensures AllWithin(SchemasOf(s.properties), s) && AllWithin(SchemasOf(s.defs), s)
  {
    forall i | 0 <= i < |s.properties| ensures s.properties[i].schema < s {
      assert s.properties[i] < s;
    }
    forall i | 0 <= i < |s.defs| ensures s.defs[i].schema < s {
      assert s.defs[i] < s;
    }
  }

  lemma ChildrenAreSmaller(s: Schema)
    ensures AllWithin(Children(s), s)
  {
    PropertiesWithin(s);
    var n, c, t, e := SchemaOfOption(s.negated), SchemaOfOption(s.condition), SchemaOfOption(s.consequent), SchemaOfOption(s.alternative);
    var items := if s.items.EachItem? then [s.items.schema] else [];
    hide AllWithin, SchemasOf;
    assert AllWithin(s.allOf, s) && AllWithin(s.oneOf, s) && AllWithin(s.prefixItems, s) && AllWithin(items, s) by {
      ListsWithin(s);
    }
    assert AllWithin(n, s) && AllWithin(c, s) && AllWithin(t, s) && AllWithin(e, s) by {
      OptionsWithin(s);
    }
    ConcatWithin(s.allOf, s.oneOf, s);
    ConcatWithin(s.allOf + s.oneOf, s.prefixItems, s);
    var lists := s.allOf + s.oneOf + s.prefixItems;
    ConcatWithin(lists, n, s);
    ConcatWithin(lists + n, c, s);
    ConcatWithin(lists + n + c, t, s);
    ConcatWithin(lists + n + c + t, e, s);
    ConcatWithin(lists + n + c + t + e, items, s);
    ConcatWithin(lists + n + c + t + e + items, SchemasOf(s.properties), s);
    ConcatWithin(lists + n + c + t + e + items + SchemasOf(s.properties), SchemasOf(s.defs), s);
  }

  lemma ListsWithin(s: Schema)
    ensures AllWithin(s.allOf, s) && AllWithin(s.oneOf, s) && AllWithin(s.prefixItems, s)
    ensures AllWithin(if s.items.EachItem? then [s.items.schema] else [], s)
  {
  }

  lemma OptionsWithin(s: Schema)
    ensures AllWithin(SchemaOfOption(s.negated), s) && AllWithin(SchemaOfOption(s.condition), s)
    ensures AllWithin(SchemaOfOption(s.consequent), s) && AllWithin(SchemaOfOption(s.alternative), s)
  {
  }

  /** The node and every schema written below it. */
  function Nodes(s: Schema): set<Schema>
    decreases s, 0
  {
    ChildrenAreSmaller(s);
    {s} + NodesOfAll(s, Children(s))
  }

  function NodesOfAll(parent: Schema, list: seq<Schema>): set<Schema>
    requires AllWithin(list, parent)
    decreases parent, 0, |list|
  {
    if list == [] then {} else Nodes(list[0]) + NodesOfAll(parent, list[1..])
  }

  function Lookup(list: seq<Property>, name: Str): Option<Schema> {
    if list == [] then None else if list[0].name == name then Some(list[0].schema) else Lookup(list[1..], name)
  }

  // ---------------------------------------------------------------- local references

  const SLASH: CodeUnit := 0x2F
  const TILDE: CodeUnit := 0x7E

  /** `replace(/~d/g, sub)`: every non-overlapping `~d`, from the left. */
  function ReplaceEscape(s: Str, digit: CodeUnit, sub: CodeUnit): Str {
    if |s| < 2 then s
    else if s[0] == TILDE && s[1] == digit then [sub] + ReplaceEscape(s[2..], digit, sub)
    else [s[0]] + ReplaceEscape(s[1..], digit, sub)
  }

  /** Decodes one reference token: `~1` first, then `~0`. */
  function Unescape(token: Str): Str {
    ReplaceEscape(ReplaceEscape(token, Digit(1), SLASH), Digit(0), TILDE)
  }

  function UnescapeAll(tokens: seq<Str>): seq<Str> {
    seq(|tokens|, i requires 0 <= i < |tokens| => Unescape(tokens[i]))
  }

  /** The decoded tokens of a local reference. */
  function PointerTokens(ref: Str): Option<seq<Str>> {
    if |ref| >= 2 && ref[0] == 0x23 && ref[1] == SLASH then Some(UnescapeAll(SplitOn(ref[2..], SLASH))) else None
  }

  /** The subschema under a keyword that holds a single schema. */
  function Under(s: Schema, keyword: Str): Option<Schema> {
    if keyword == Lit("items") then (if s.items.EachItem? then Some(s.items.schema) else None)
    else if keyword == Lit("not") then s.negated
    else if keyword == Lit("if") then s.condition
    else if keyword == Lit("then") then s.consequent
    else if keyword == Lit("else") then s.alternative
    else None
  }

  /** Follows decoded tokens from a schema node; only paths that end on a schema node resolve. */
  function Follow(s: Schema, tokens: seq<Str>): Option<Schema>
    decreases |tokens|
  {
    if tokens == [] then Some(s)
    else if tokens[0] == Lit("properties") || tokens[0] == Lit("$defs") then
      if |tokens| < 2 then None
      else
        match Lookup(if tokens[0] == Lit("$defs") then s.defs else s.properties, tokens[1])
        case None => None
        case Some(t) => Follow(t, tokens[2..])
    else
      match Under(s, tokens[0])
      case None => None
      case Some(t) => Follow(t, tokens[1..])
  }

  function ResolveLocalRef(root: Schema, ref: Str): Option<Schema> {
    match PointerTokens(ref)
    case None => None
    case Some(tokens) => Follow(root, tokens)
  }

  /** The encoding of a name as a reference token. */
  function Escape(name: Str): Str {
    if name == [] then []
    else (if name[0] == TILDE then [TILDE, Digit(0)] else if name[0] == SLASH then [TILDE, Digit(1)] else [name[0]])
         + Escape(name[1..])
  }

  function EscapeTildes(name: Str): Str {
    if name == [] then [] else (if name[0] == TILDE then [TILDE, Digit(0)] else [name[0]]) + EscapeTildes(name[1..])
  }

  lemma {:induction false} SlashesDecode(name: Str)
    ensures ReplaceEscape(Escape(name), Digit(1), SLASH) == EscapeTildes(name)
  {
    if name != [] {
      SlashesDecode(name[1..]);
      var e := Escape(name);
      if name[0] == TILDE {
        assert e[0] == TILDE && e[1] == Digit(0) && e[1..][1..] == Escape(name[1..]);
        assert e[1..] == [Digit(0)] + Escape(name[1..]);
        SkipPlain(Digit(0), Escape(name[1..]), Digit(1), SLASH);
      } else if name[0] == SLASH {
        assert e[2..] == Escape(name[1..]);
      } else {
        assert e == [name[0]] + Escape(name[1..]);
        SkipPlain(name[0], Escape(name[1..]), Digit(1), SLASH);
      }
    }
  }

  lemma SkipPlain(c: CodeUnit, rest: Str, digit: CodeUnit, sub: CodeUnit)
    requires c != TILDE
    ensures ReplaceEscape([c] + rest, digit, sub) == [c] + ReplaceEscape(rest, digit, sub)
  {
    assert ([c] + rest)[1..] == rest;
  }

  lemma {:induction false} TildesDecode(name: Str)
    ensures ReplaceEscape(EscapeTildes(name), Digit(0), TILDE) == name
  {
    if name != [] {
      TildesDecode(name[1..]);
      var e := EscapeTildes(name);
      if name[0] == TILDE {
        assert e[2..] == EscapeTildes(name[1..]);
      } else {
        assert e == [name[0]] + EscapeTildes(name[1..]);
        SkipPlain(name[0], EscapeTildes(name[1..]), Digit(0), TILDE);
      }
      assert name == [name[0]] + name[1..];
    }
  }

  /** Every property name can be referred to: decoding its encoding gives it back. */
  lemma UnescapeInvertsEscape(name: Str)
    ensures Unescape(Escape(name)) == name
  {
    SlashesDecode(name);
    TildesDecode(name);
  }

  // ---------------------------------------------------------------- nodes and successors

  lemma {:induction false} NodesOfAllContain(parent: Schema, list: seq<Schema>)
    requires AllWithin(list, parent)
    ensures forall c | c in list :: Nodes(c) <= NodesOfAll(parent, list)
    ensures forall t | t in NodesOfAll(parent, list) :: exists c :: c in list && t in Nodes(c)
  {
    hide Nodes;
    if list != [] {
      NodesOfAllContain(parent, list[1..]);
      assert list == [list[0]] + list[1..];
      forall t | t in NodesOfAll(parent, list) ensures exists c :: c in list && t in Nodes(c) {
        if t in Nodes(list[0]) {
          assert list[0] in list;
        } else {
          var c :| c in list[1..] && t in Nodes(c);
          assert c in list;
        }
      }
    }
  }

  /** `c` is written directly below `s`. */
  predicate IsChild(c: Schema, s: Schema) {
    || c in s.allOf || c in s.oneOf || c in s.prefixItems
    || s.negated == Some(c) || s.condition == Some(c) || s.consequent == Some(c) || s.alternative == Some(c)
    || s.items == EachItem(c)
    || (exists p :: p in s.properties && p.schema == c) || (exists p :: p in s.defs && p.schema == c)
  }

  lemma SchemasOfMembers(list: seq<Property>, c: Schema)
    requires exists p :: p in list && p.schema == c
    ensures c in SchemasOf(list)
  {
    var p :| p in list && p.schema == c;
    var i :| 0 <= i < |list| && list[i] == p;
    assert SchemasOf(list)[i] == c;
  }

  lemma ChildIsListed(c: Schema, s: Schema)
    requires IsChild(c, s)
    ensures c in Children(s)
  {
    hide SchemasOf;
    if exists p :: p in s.properties && p.schema == c {
      SchemasOfMembers(s.properties, c);
    } else if exists p :: p in s.defs && p.schema == c {
      SchemasOfMembers(s.defs, c);
    }
  }

  lemma ChildNodes(c: Schema, s: Schema)
    requires IsChild(c, s)
    ensures Nodes(c) <= Nodes(s) && c in Nodes(s)
  {
    hide IsChild, Children;
    ChildIsListed(c, s);
    ChildrenAreSmaller(s);
    NodesOfAllContain(s, Children(s));
    assert c in Nodes(c);
  }

  lemma {:induction false} NodesClosed(s: Schema, t: Schema)
    requires t in Nodes(s)
    ensures Nodes(t) <= Nodes(s)
    decreases s
  {
    hide Children;
    if t != s {
      ChildrenAreSmaller(s);
      NodesOfAllContain(s, Children(s));
      var c :| c in Children(s) && t in Nodes(c);
      var i :| 0 <= i < |Children(s)| && Children(s)[i] == c;
      NodesClosed(c, t);
    }
  }

  // ---------------------------------------------------------------- references as paths

  /** A step from a schema to one written below it, by keyword or by keyword and name. */
  datatype Turn = ToProperty(name: Str) | ToDefinition(name: Str) | ToItems | ToNot | ToIf | ToThen | ToElse

  /** The step leads from one schema to the other. */
  ghost predicate Takes(s: Schema, turn: Turn, t: Schema) {
    match turn
    case ToProperty(name) => exists p | p in s.properties :: p.name == name && p.schema == t
    case ToDefinition(name) => exists p | p in s.defs :: p.name == name && p.schema == t
    case ToItems => s.items == EachItem(t)
    case ToNot => s.negated == Some(t)
    case ToIf => s.condition == Some(t)
    case ToThen => s.consequent == Some(t)
    case ToElse => s.alternative == Some(t)
  }

  ghost predicate Leads(s: Schema, path: seq<Turn>, t: Schema) {
    if path == [] then s == t else exists next :: Takes(s, path[0], next) && Leads(next, path[1..], t)
  }

  /** Each name occurs at most once in a list of properties or definitions, as in an object. */
  predicate NamedOnce(list: seq<Property>) {
    forall i, j | 0 <= i < j < |list| :: list[i].name != list[j].name
  }

  ghost predicate AllNamedOnce(root: Schema) {
    forall s | s in Nodes(root) :: NamedOnce(s.properties) && NamedOnce(s.defs)
  }

  /** The reference tokens of a step. */
  function TurnTokens(turn: Turn): (tokens: seq<Str>)
    ensures tokens != []
  {
    match turn
    case ToProperty(name) => [Lit("properties"), Escape(name)]
    case ToDefinition(name) => [Lit("$defs"), Escape(name)]
    case ToItems => [Lit("items")]
    case ToNot => [Lit("not")]
    case ToIf => [Lit("if")]
    case ToThen => [Lit("then")]
    case ToElse => [Lit("else")]
  }

  function PathTokens(path: seq<Turn>): seq<Str> {
    if path == [] then [] else TurnTokens(path[0]) + PathTokens(path[1..])
  }

  /** The local reference that a path is written as. */
  function PathRef(path: seq<Turn>): Str {
    Lit("#/") + Join(PathTokens(path), SLASH)
  }

  lemma {:induction false} LookupExactly(list: seq<Property>, name: Str, t: Schema)
    requires NamedOnce(list)
    ensures Lookup(list, name) == Some(t) <==> exists p | p in list :: p.name == name && p.schema == t
  {
    if list != [] {
      assert list == [list[0]] + list[1..];
      LookupExactly(list[1..], name, t);
    }
  }

  lemma {:induction false} EscapedIsPlain(name: Str)
    ensures SLASH !in Escape(name)
    ensures TILDE !in name && SLASH !in name ==> Escape(name) == name
  {
    if name != [] {
      EscapedIsPlain(name[1..]);
      assert name == [name[0]] + name[1..];
    }
  }

  /** The tokens of a step without the encoding of names. */
  function Decoded(turn: Turn): (tokens: seq<Str>)
    ensures |tokens| == |TurnTokens(turn)|
  {
    match turn
    case ToProperty(name) => [Lit("properties"), name]
    case ToDefinition(name) => [Lit("$defs"), name]
    case _ => TurnTokens(turn)
  }

  lemma KeywordsArePlain(turn: Turn)
    ensures TILDE !in TurnTokens(turn)[0] && SLASH !in TurnTokens(turn)[0]
  {
  }

  lemma TurnDecodes(turn: Turn)
    ensures UnescapeAll(TurnTokens(turn)) == Decoded(turn)
    ensures forall token | token in TurnTokens(turn) :: SLASH !in token
  {
    hide Lit, Escape, Unescape;
    KeywordsArePlain(turn);
    var keyword := TurnTokens(turn)[0];
    EscapedIsPlain(keyword);
    UnescapeInvertsEscape(keyword);
    if turn.ToProperty? || turn.ToDefinition? {
      EscapedIsPlain(turn.name);
      UnescapeInvertsEscape(turn.name);
    }
  }

  function PathDecoded(path: seq<Turn>): seq<Str> {
    if path == [] then [] else Decoded(path[0]) + PathDecoded(path[1..])
  }

  lemma {:induction false} PathDecodes(path: seq<Turn>)
    ensures UnescapeAll(PathTokens(path)) == PathDecoded(path)
    ensures forall token | token in PathTokens(path) :: SLASH !in token
  {
    hide TurnTokens, Unescape, Decoded;
    if path != [] {
      TurnDecodes(path[0]);
      PathDecodes(path[1..]);
    }
  }

  lemma RefDecodes(path: seq<Turn>)
    requires path != []
    ensures PointerTokens(PathRef(path)) == Some(PathDecoded(path))
  {
    hide Join, SplitOn, UnescapeAll, PathTokens;
    PathDecodes(path);
    assert PathTokens(path) != [] by {
      TokensNonEmpty(path);
    }
    JoinedSplits(PathTokens(path), SLASH);
    var ref := PathRef(path);
    assert ref[0] == 0x23 && ref[1] == SLASH && ref[2..] == Join(PathTokens(path), SLASH);
  }

  lemma TokensNonEmpty(path: seq<Turn>)
    requires path != []
    ensures PathTokens(path) != []
  {
  }

  lemma TakesInside(root: Schema, s: Schema, turn: Turn, t: Schema)
    requires s in Nodes(root) && Takes(s, turn, t)
    ensures t in Nodes(root)
  {
    hide Nodes;
    assert IsChild(t, s);
    ChildNodes(t, s);
    NodesClosed(root, s);
  }

  lemma KeywordsDiffer()
    ensures Lit("properties") != Lit("$defs") && Lit("items") !in {Lit("properties"), Lit("$defs")}
    ensures Lit("not") !in {Lit("properties"), Lit("$defs"), Lit("items")}
    ensures Lit("if") !in {Lit("properties"), Lit("$defs"), Lit("items"), Lit("not")}
    ensures Lit("then") !in {Lit("properties"), Lit("$defs"), Lit("items"), Lit("not"), Lit("if")}
    ensures Lit("else") !in {Lit("properties"), Lit("$defs"), Lit("items"), Lit("not"), Lit("if"), Lit("then")}
  {
    assert Lit("properties")[0] == 0x70 && Lit("$defs")[0] == 0x24 && Lit("items")[0] == 0x69 && Lit("not")[0] == 0x6E;
    assert Lit("if")[0] == 0x69 && Lit("then")[0] == 0x74 && Lit("else")[0] == 0x65;
    assert |Lit("if")| == 2 && |Lit("items")| == 5;
  }

  /** Following the tokens of one step goes where the step leads, and then on. */
  lemma FollowTurn(s: Schema, turn: Turn, rest: seq<Str>, t: Schema)
    requires NamedOnce(s.properties) && NamedOnce(s.defs)
    ensures Follow(s, Decoded(turn) + rest) == Some(t) <==> exists next :: Takes(s, turn, next) && Follow(next, rest) == Some(t)
  {
    hide Lit, NamedOnce, Lookup;
    KeywordsDiffer();
    var tokens := Decoded(turn) + rest;
    if turn.ToProperty? || turn.ToDefinition? {
      assert tokens[2..] == rest;
      var list := if turn.ToProperty? then s.properties else s.defs;
      forall next ensures Lookup(list, turn.name) == Some(next) <==> Takes(s, turn, next) {
        LookupExactly(list, turn.name, next);
      }
    } else {
      assert tokens[1..] == rest;
      assert forall next :: Under(s, tokens[0]) == Some(next) <==> Takes(s, turn, next);
    }
  }

  lemma {:induction false} FollowPath(root: Schema, s: Schema, path: seq<Turn>, t: Schema)
    requires AllNamedOnce(root) && s in Nodes(root)
    ensures Follow(s, PathDecoded(path)) == Some(t) <==> Leads(s, path, t)
    decreases |path|
  {
    hide Nodes, Follow, Decoded, Takes, NamedOnce;
    if path == [] {
      FollowNothing(s);
    } else {
      FollowTurn(s, path[0], PathDecoded(path[1..]), t);
      forall next | Takes(s, path[0], next)
        ensures Follow(next, PathDecoded(path[1..])) == Some(t) <==> Leads(next, path[1..], t)
      {
        TakesInside(root, s, path[0], next);
        FollowPath(root, next, path[1..], t);
      }
    }
  }

  lemma FollowNothing(s: Schema)
    ensures Follow(s, []) == Some(s)
  {
  }

  /** A written path resolves to exactly the schema it leads to, and to nothing when it leads nowhere. */
  lemma PathResolvesExactly(root: Schema, path: seq<Turn>, t: Schema)
    requires AllNamedOnce(root) && path != []
    ensures ResolveLocalRef(root, PathRef(path)) == Some(t) <==> Leads(root, path, t)
  {
    hide Follow, PathRef, PathDecoded, Leads, AllNamedOnce;
    assert root in Nodes(root);
    RefDecodes(path);
    FollowPath(root, root, path, t);
  }

  /** The two forms of reference into the root's own lists. */
  lemma NamedReferences(root: Schema, name: Str, t: Schema)
    requires AllNamedOnce(root)
    ensures ResolveLocalRef(root, Lit("#/$defs/") + Escape(name)) == Some(t) <==>
      exists p | p in root.defs :: p.name == name && p.schema == t
    ensures ResolveLocalRef(root, Lit("#/properties/") + Escape(name)) == Some(t) <==>
      exists p | p in root.properties :: p.name == name && p.schema == t
  {
    hide ResolveLocalRef, AllNamedOnce, Escape, Takes;
    PathResolvesExactly(root, [ToDefinition(name)], t);
    PathResolvesExactly(root, [ToProperty(name)], t);
    OneTurn(root, ToDefinition(name), t);
    OneTurn(root, ToProperty(name), t);
    assert Takes(root, ToDefinition(name), t) <==> exists p | p in root.defs :: p.name == name && p.schema == t by {
      NamedTurns(root, name, t);
    }
    assert Takes(root, ToProperty(name), t) <==> exists p | p in root.properties :: p.name == name && p.schema == t by {
      NamedTurns(root, name, t);
    }
    NamedRefs(name);
  }

  lemma NamedTurns(s: Schema, name: Str, t: Schema)
    ensures Takes(s, ToDefinition(name), t) <==> exists p | p in s.defs :: p.name == name && p.schema == t
    ensures Takes(s, ToProperty(name), t) <==> exists p | p in s.properties :: p.name == name && p.schema == t
  {
  }

  lemma NamedRefs(name: Str)
    ensures PathRef([ToDefinition(name)]) == Lit("#/$defs/") + Escape(name)
    ensures PathRef([ToProperty(name)]) == Lit("#/properties/") + Escape(name)
  {
    hide Escape;
    OneTurnTokens(ToDefinition(name));
    OneTurnTokens(ToProperty(name));
    TwoTokens(Lit("$defs"), Escape(name));
    TwoTokens(Lit("properties"), Escape(name));
    assert Lit("#/") + Lit("$defs") + [SLASH] == Lit("#/$defs/");
    assert Lit("#/") + Lit("properties") + [SLASH] == Lit("#/properties/");
  }

  lemma OneTurnTokens(turn: Turn)
    ensures PathTokens([turn]) == TurnTokens(turn)
  {
    assert [turn][1..] == [];
  }

  lemma TwoTokens(a: Str, b: Str)
    ensures Join([a, b], SLASH) == a + [SLASH] + b
  {
    assert [a, b][1..] == [b];
  }

  lemma OneTurn(s: Schema, turn: Turn, t: Schema)
    ensures Leads(s, [turn], t) <==> Takes(s, turn, t)
  {
    hide Takes;
    assert [turn][1..] == [];
    if Takes(s, turn, t) {
      assert Takes(s, [turn][0], t) && Leads(t, [turn][1..], t);
    }
  }

  /** Whatever resolves is a schema that some path leads to. */
  lemma {:induction false} FollowedIsLedTo(s: Schema, tokens: seq<Str>) returns (path: seq<Turn>)
    requires Follow(s, tokens).Some?
    ensures Leads(s, path, Follow(s, tokens).value)
    decreases |tokens|
  {
    hide Lit;
    if tokens == [] {
      path := [];
    } else if tokens[0] == Lit("properties") || tokens[0] == Lit("$defs") {
      var list := if tokens[0] == Lit("$defs") then s.defs else s.properties;
      var next := Lookup(list, tokens[1]).value;
      LookupFinds(list, tokens[1]);
      var rest := FollowedIsLedTo(next, tokens[2..]);
      var turn := if tokens[0] == Lit("$defs") then ToDefinition(tokens[1]) else ToProperty(tokens[1]);
      path := [turn] + rest;
      assert Takes(s, path[0], next) && path[1..] == rest;
    } else {
      var next := Under(s, tokens[0]).value;
      var rest := FollowedIsLedTo(next, tokens[1..]);
      var turn := if tokens[0] == Lit("items") then ToItems else if tokens[0] == Lit("not") then ToNot
        else if tokens[0] == Lit("if") then ToIf else if tokens[0] == Lit("then") then ToThen else ToElse;
      path := [turn] + rest;
      assert Takes(s, path[0], next) && path[1..] == rest;
    }
  }

  lemma {:induction false} LookupFinds(list: seq<Property>, name: Str)
    ensures Lookup(list, name).Some? ==> exists p | p in list :: p.name == name && p.schema == Lookup(list, name).value
  {
    if list != [] {
      assert list == [list[0]] + list[1..];
      LookupFinds(list[1..], name);
    }
  }
}
