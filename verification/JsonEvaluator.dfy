/**
 validateAgainstSchema as the program runs it: a recursive walk that pushes issues into a shared
 list. It adds no issue exactly when the value satisfies the schema, and never removes one.
 */
module JsonEvaluator {
  import opened Text
  import opened Json
  import opened JsonSchema
  import Rfc3339

  datatype Step = Index(index: nat) | Key(key: Str)

  datatype Issue = Issue(path: seq<Step>, keyword: string)

  class IssueList {
    var issues: seq<Issue>

    constructor ()
      ensures issues == []
    {
      issues := [];
    }

    method Push(path: seq<Step>, keyword: string)
      modifies this
      ensures issues == old(issues) + [Issue(path, keyword)]
    {
      issues := issues + [Issue(path, keyword)];
    }
  }

  /** The list has only grown, by issues at or below `path`, and it has grown exactly if `ok` fails. */
  predicate Reported(before: seq<Issue>, after: seq<Issue>, path: seq<Step>, ok: bool) {
    && before <= after
    && (forall i | |before| <= i < |after| :: path <= after[i].path)
    && (|before| == |after| <==> ok)
  }

  lemma ReportedThen(a: seq<Issue>, b: seq<Issue>, c: seq<Issue>, path: seq<Step>, below: seq<Step>, ok1: bool, ok2: bool)
    requires Reported(a, b, path, ok1) && Reported(b, c, below, ok2) && path <= below
    ensures Reported(a, c, path, ok1 && ok2)
  {
  }

  method Check(holds: bool, path: seq<Step>, keyword: string, log: IssueList)
    modifies log
    ensures Reported(old(log.issues), log.issues, path, holds)
  {
    if !holds {
      log.Push(path, keyword);
    }
  }

  method IsValidAgainst(v: Json, s: Schema, env: Env) returns (valid: bool)
    requires Ready(env.root) && s in Nodes(env.root)
    ensures valid <==> Satisfies(v, s, env)
    decreases v, Rank(s, env.root), 3
  {
    var issues := new IssueList();
    ValidateAgainstSchema(v, s, env, [], issues);
    valid := |issues.issues| == 0;
  }

  method ValidateAgainstSchema(v: Json, s: Schema, env: Env, path: seq<Step>, log: IssueList)
    requires Ready(env.root) && s in Nodes(env.root)
    modifies log
    ensures Reported(old(log.issues), log.issues, path, Satisfies(v, s, env))
    decreases v, Rank(s, env.root), 2
  {
    var stop := ValidateInPlace(v, s, env, path, log);
    if stop { return; }
    label inPlace:
    ValidateString(v, s, env, path, log);
    ReportedThen(old(log.issues), old@inPlace(log.issues), log.issues, path, path, InPlaceOk(v, s, env), StringOk(v, s, env));
    label strings:
    ValidateNumber(v, s, path, log);
    ReportedThen(old(log.issues), old@strings(log.issues), log.issues, path, path,
                 InPlaceOk(v, s, env) && StringOk(v, s, env), NumberOk(v, s));
    label numbers:
    ValidateArray(v, s, env, path, log);
    ReportedThen(old(log.issues), old@numbers(log.issues), log.issues, path, path,
                 InPlaceOk(v, s, env) && StringOk(v, s, env) && NumberOk(v, s), ArrayOk(v, s, env));
    label arrays:
    ValidateObject(v, s, env, path, log);
    ReportedThen(old(log.issues), old@arrays(log.issues), log.issues, path, path,
                 InPlaceOk(v, s, env) && StringOk(v, s, env) && NumberOk(v, s) && ArrayOk(v, s, env), ObjectOk(v, s, env));
  }

  method ValidateString(v: Json, s: Schema, env: Env, path: seq<Step>, log: IssueList)
    modifies log
    ensures Reported(old(log.issues), log.issues, path, StringOk(v, s, env))
  {
    if v.String? {
      var codePointLength := CodePointLength(v.text);
      Check(s.minLength.Some? ==> codePointLength >= s.minLength.value, path, "minLength", log);
      Check(s.maxLength.Some? ==> codePointLength <= s.maxLength.value, path, "maxLength", log);
      Check(s.pattern.Some? ==> env.matches(s.pattern.value, v.text), path, "pattern", log);
      Check(s.dateTimeFormat ==> Rfc3339.IsValidRfc3339DateTime(v.text), path, "format", log);
    }
  }

  method ValidateNumber(v: Json, s: Schema, path: seq<Step>, log: IssueList)
    modifies log
    ensures Reported(old(log.issues), log.issues, path, NumberOk(v, s))
  {
    if IsNumber(v) {
      Check(s.minimum.Some? ==> NumericValue(v) >= s.minimum.value, path, "minimum", log);
      Check(s.maximum.Some? ==> NumericValue(v) <= s.maximum.value, path, "maximum", log);
    }
  }

  /** Reference, type, const and enum; a type mismatch stops the whole walk. */
  method ValidateAssertions(v: Json, s: Schema, env: Env, path: seq<Step>, log: IssueList) returns (stop: bool)
    requires Ready(env.root) && s in Nodes(env.root)
    modifies log
    ensures Reported(old(log.issues), log.issues, path, AssertionsOk(v, s, env))
    ensures stop ==> !AssertionsOk(v, s, env)
    decreases v, Rank(s, env.root), 0
  {
    hide Satisfies, Nodes, NoInPlaceLoop, Rank, Target, MatchesType;
    Graded(s, env.root);
    if s.ref.Some? {
      ValidateAgainstSchema(v, Target(s, env.root).value, env, path, log);
    }
    if s.types.Some? && !exists t | t in s.types.value :: MatchesType(v, t) {
      log.Push(path, "type");
      return true;
    }
    stop := false;
    Check(s.constant.Some? ==> Same(env.equality, v, s.constant.value), path, "const", log);
    Check(s.enumeration.Some? ==> exists e | e in s.enumeration.value :: Same(env.equality, v, e), path, "enum", log);
  }

  /** The keywords that apply schemas to the same value are reported one group after the other. */
  method ValidateInPlace(v: Json, s: Schema, env: Env, path: seq<Step>, log: IssueList) returns (stop: bool)
    requires Ready(env.root) && s in Nodes(env.root)
    modifies log
    ensures Reported(old(log.issues), log.issues, path, InPlaceOk(v, s, env))
    ensures stop ==> !InPlaceOk(v, s, env)
    decreases v, Rank(s, env.root), 1
  {
    hide Satisfies, Nodes, Ready, Rank, AssertionsOk, AllOfOk, OneOfOk, NotOk, ConditionOk, Reported;
    stop := ValidateAssertions(v, s, env, path, log);
    if stop {
      return;
    }
    ghost var a := log.issues;
    ValidateAllOf(v, s, env, path, log);
    ReportedThen(old(log.issues), a, log.issues, path, path, AssertionsOk(v, s, env), AllOfOk(v, s, env));
    ghost var b := log.issues;
    ValidateOneOf(v, s, env, path, log);
    ReportedThen(old(log.issues), b, log.issues, path, path, AssertionsOk(v, s, env) && AllOfOk(v, s, env), OneOfOk(v, s, env));
    ghost var c := log.issues;
    ValidateNot(v, s, env, path, log);
    ReportedThen(old(log.issues), c, log.issues, path, path,
                 AssertionsOk(v, s, env) && AllOfOk(v, s, env) && OneOfOk(v, s, env), NotOk(v, s, env));
    ghost var d := log.issues;
    ValidateCondition(v, s, env, path, log);
    ReportedThen(old(log.issues), d, log.issues, path, path,
                 AssertionsOk(v, s, env) && AllOfOk(v, s, env) && OneOfOk(v, s, env) && NotOk(v, s, env), ConditionOk(v, s, env));
  }

  method ValidateNot(v: Json, s: Schema, env: Env, path: seq<Step>, log: IssueList)
    requires Ready(env.root) && s in Nodes(env.root)
    modifies log
    ensures Reported(old(log.issues), log.issues, path, NotOk(v, s, env))
    decreases v, Rank(s, env.root), 0
  {
    hide Satisfies, Nodes, NoInPlaceLoop, Rank;
    Graded(s, env.root);
    if s.negated.Some? {
      var matched := IsValidAgainst(v, s.negated.value, env);
      Check(!matched, path, "not", log);
    }
  }

  method ValidateCondition(v: Json, s: Schema, env: Env, path: seq<Step>, log: IssueList)
    requires Ready(env.root) && s in Nodes(env.root)
    modifies log
    ensures Reported(old(log.issues), log.issues, path, ConditionOk(v, s, env))
    decreases v, Rank(s, env.root), 0
  {
    hide Satisfies, Nodes, NoInPlaceLoop, Loaded, Rank;
    Graded(s, env.root);
    if s.condition.Some? {
      var condition := IsValidAgainst(v, s.condition.value, env);
      if condition && s.consequent.Some? {
        ValidateAgainstSchema(v, s.consequent.value, env, path, log);
      } else if !condition && s.alternative.Some? {
        ValidateAgainstSchema(v, s.alternative.value, env, path, log);
      }
    }
  }

  method ValidateAllOf(v: Json, s: Schema, env: Env, path: seq<Step>, log: IssueList)
    requires Ready(env.root) && s in Nodes(env.root)
    modifies log
    ensures Reported(old(log.issues), log.issues, path, AllOfOk(v, s, env))
    decreases v, Rank(s, env.root), 0
  {
    hide Satisfies, Nodes, NoInPlaceLoop, Loaded, Rank;
    Graded(s, env.root);
    for i := 0 to |s.allOf|
      invariant Reported(old(log.issues), log.issues, path, forall k | 0 <= k < i :: Satisfies(v, s.allOf[k], env))
    {
      ghost var before := log.issues;
      ghost var sofar := forall k | 0 <= k < i :: Satisfies(v, s.allOf[k], env);
      ValidateAgainstSchema(v, s.allOf[i], env, path, log);
      ReportedThen(old(log.issues), before, log.issues, path, path, sofar, Satisfies(v, s.allOf[i], env));
    }
  }

  function CountTrue(verdicts: seq<bool>): nat {
    if verdicts == [] then 0 else CountTrue(verdicts[..|verdicts| - 1]) + if verdicts[|verdicts| - 1] then 1 else 0
  }

  lemma {:induction false} CountZero(verdicts: seq<bool>)
    ensures CountTrue(verdicts) == 0 <==> forall i | 0 <= i < |verdicts| :: !verdicts[i]
  {
    if verdicts != [] {
      CountZero(verdicts[..|verdicts| - 1]);
    }
  }

  /** Counting one accepting branch is the same as there being exactly one. */
  lemma {:induction false} CountOne(verdicts: seq<bool>)
    ensures CountTrue(verdicts) == 1 <==> exists i: nat :: OnlyTrueAt(verdicts, i)
  {
    if verdicts != [] {
      var init := verdicts[..|verdicts| - 1];
      CountOne(init);
      CountZero(init);
      assert forall j | 0 <= j < |init| :: init[j] == verdicts[j];
      if CountTrue(verdicts) == 1 {
        if verdicts[|verdicts| - 1] {
          assert OnlyTrueAt(verdicts, |verdicts| - 1);
        } else {
          var i: nat :| OnlyTrueAt(init, i);
          assert OnlyTrueAt(verdicts, i);
        }
      }
      if i: nat :| OnlyTrueAt(verdicts, i) {
        if i < |init| {
          assert OnlyTrueAt(init, i);
        }
      }
    }
  }

  /** Exactly one of the verdicts is true, and it is number `i`. */
  predicate OnlyTrueAt(verdicts: seq<bool>, i: nat) {
    i < |verdicts| && verdicts[i] && forall j | 0 <= j < |verdicts| && j != i :: !verdicts[j]
  }

  lemma OneOfCounted(v: Json, s: Schema, env: Env, verdicts: seq<bool>)
    requires Ready(env.root) && s in Nodes(env.root) && s.oneOf != [] && |verdicts| == |s.oneOf|
    requires forall b | b in s.oneOf :: b in Nodes(env.root)
    requires forall k | 0 <= k < |s.oneOf| :: verdicts[k] <==> Satisfies(v, s.oneOf[k], env)
    ensures CountTrue(verdicts) == 1 <==> OneOfOk(v, s, env)
  {
    hide Satisfies, Nodes, NoInPlaceLoop, Loaded, Rank, CountTrue;
    CountOne(verdicts);
    forall i: nat ensures OnlyTrueAt(verdicts, i) <==> OnlyBranch(v, s, env, i) {
    }
  }

  method ValidateOneOf(v: Json, s: Schema, env: Env, path: seq<Step>, log: IssueList)
    requires Ready(env.root) && s in Nodes(env.root)
    modifies log
    ensures Reported(old(log.issues), log.issues, path, OneOfOk(v, s, env))
    decreases v, Rank(s, env.root), 0
  {
    hide OnlyBranch;
    hide Satisfies, Nodes, NoInPlaceLoop, Loaded, Rank;
    Graded(s, env.root);
    if s.oneOf != [] {
      var matched := 0;
      ghost var verdicts: seq<bool> := [];
      for i := 0 to |s.oneOf|
        invariant |verdicts| == i && forall k | 0 <= k < i :: verdicts[k] <==> Satisfies(v, s.oneOf[k], env)
        invariant matched == CountTrue(verdicts)
        invariant log.issues == old(log.issues)
      {
        var accepts := IsValidAgainst(v, s.oneOf[i], env);
        if accepts {
          matched := matched + 1;
        }
        assert (verdicts + [accepts])[..i] == verdicts;
        verdicts := verdicts + [accepts];
      }
      OneOfCounted(v, s, env, verdicts);
      Check(matched == 1, path, "oneOf", log);
    }
  }

  method ValidateArray(v: Json, s: Schema, env: Env, path: seq<Step>, log: IssueList)
    requires Ready(env.root) && s in Nodes(env.root)
    modifies log
    ensures Reported(old(log.issues), log.issues, path, ArrayOk(v, s, env))
    decreases v, Rank(s, env.root), 1
  {
    Graded(s, env.root);
    if v.Array? {
      Check(s.minItems.Some? ==> |v.items| >= s.minItems.value, path, "minItems", log);
      Check(s.maxItems.Some? ==> |v.items| <= s.maxItems.value, path, "maxItems", log);
      ghost var ok := (s.minItems.Some? ==> |v.items| >= s.minItems.value) && (s.maxItems.Some? ==> |v.items| <= s.maxItems.value);
      assert Reported(old(log.issues), log.issues, path, ok);
      label afterBounds:
      if s.uniqueItems {
        CheckUnique(v.items, env.equality, path, log);
      }
      ReportedThen(old(log.issues), old@afterBounds(log.issues), log.issues, path, path, ok,
                   s.uniqueItems ==> AllDistinct(v.items, env.equality));
      ok := ok && (s.uniqueItems ==> AllDistinct(v.items, env.equality));
      label afterUnique:
      ValidateItems(v, s, env, path, log);
      ReportedThen(old(log.issues), old@afterUnique(log.issues), log.issues, path, path, ok, ItemsOk(v, s, env));
    }
  }

  method CheckUnique(items: seq<Json>, equality: Equality, path: seq<Step>, log: IssueList)
    modifies log
    ensures Reported(old(log.issues), log.issues, path, AllDistinct(items, equality))
  {
    for left := 0 to |items|
      invariant log.issues == old(log.issues)
      invariant forall i, j | 0 <= i < left && i < j < |items| :: !Same(equality, items[i], items[j])
    {
      for right := left + 1 to |items|
        invariant log.issues == old(log.issues)
        invariant forall j | left < j < right :: !Same(equality, items[left], items[j])
      {
        if Same(equality, items[left], items[right]) {
          log.Push(path + [Index(right)], "uniqueItems");
          return;
        }
      }
    }
  }

  method ValidateItems(v: Json, s: Schema, env: Env, path: seq<Step>, log: IssueList)
    requires Ready(env.root) && s in Nodes(env.root) && v.Array?
    modifies log
    ensures Reported(old(log.issues), log.issues, path, ItemsOk(v, s, env))
    decreases v, Rank(s, env.root), 0
  {
    hide Satisfies, Nodes, NoInPlaceLoop, Loaded, Rank;
    Graded(s, env.root);
    var prefixes := if |s.prefixItems| < |v.items| then |s.prefixItems| else |v.items|;
    for i := 0 to prefixes
      invariant Reported(old(log.issues), log.issues, path, forall k | 0 <= k < i :: Satisfies(v.items[k], s.prefixItems[k], env))
    {
      ghost var before := log.issues;
      ghost var sofar := forall k | 0 <= k < i :: Satisfies(v.items[k], s.prefixItems[k], env);
      ValidateAgainstSchema(v.items[i], s.prefixItems[i], env, path + [Index(i)], log);
      ReportedThen(old(log.issues), before, log.issues, path, path + [Index(i)], sofar,
                   Satisfies(v.items[i], s.prefixItems[i], env));
    }
    ghost var prefixOk := forall k | 0 <= k < prefixes :: Satisfies(v.items[k], s.prefixItems[k], env);
    ghost var mid := log.issues;
    if s.items.NoItems? {
      if |v.items| > |s.prefixItems| {
        log.Push(path + [Index(|s.prefixItems|)], "items");
      }
    } else if s.items.EachItem? {
      var start := |s.prefixItems|;
      var i := start;
      while i < |v.items|
        invariant start <= i && (i <= |v.items| || i == start)
        invariant Reported(mid, log.issues, path, forall k | start <= k < i
            && k < |v.items| :: Satisfies(v.items[k], s.items.schema, env))
      {
        ghost var before := log.issues;
        ghost var sofar := forall k | start <= k < i && k < |v.items| :: Satisfies(v.items[k], s.items.schema, env);
        ValidateAgainstSchema(v.items[i], s.items.schema, env, path + [Index(i)], log);
        ReportedThen(mid, before, log.issues, path, path + [Index(i)], sofar, Satisfies(v.items[i], s.items.schema, env));
        i := i + 1;
      }
      ReportedThen(old(log.issues), mid, log.issues, path, path, prefixOk,
                   forall k | start <= k < i && k < |v.items| :: Satisfies(v.items[k], s.items.schema, env));
    }
  }

  method ValidateObject(v: Json, s: Schema, env: Env, path: seq<Step>, log: IssueList)
    requires Ready(env.root) && s in Nodes(env.root)
    modifies log
    ensures Reported(old(log.issues), log.issues, path, ObjectOk(v, s, env))
    decreases v, Rank(s, env.root), 1
  {
    Graded(s, env.root);
    if v.Object? {
      CheckRequired(v.members, s.required, path, log);
      ghost var ok := forall k | k in s.required :: k in v.members;
      label afterRequired:
      ValidateProperties(v, s, env, path, log);
      ReportedThen(old(log.issues), old@afterRequired(log.issues), log.issues, path, path, ok, PropertiesOk(v, s, env));
      ok := ok && PropertiesOk(v, s, env);
      label afterProperties:
      if s.closed {
        CheckAdditional(v.members, s.properties, path, log);
      }
      ReportedThen(old(log.issues), old@afterProperties(log.issues), log.issues, path, path, ok,
                   s.closed ==> forall k | k in v.members :: exists p | p in s.properties :: p.name == k);
    }
  }

  method CheckRequired(members: map<Str, Json>, required: seq<Str>, path: seq<Step>, log: IssueList)
    modifies log
    ensures Reported(old(log.issues), log.issues, path, forall k | k in required :: k in members)
  {
    for i := 0 to |required|
      invariant Reported(old(log.issues), log.issues, path, forall j | 0 <= j < i :: required[j] in members)
    {
      if required[i] !in members {
        log.Push(path + [Key(required[i])], "required");
      }
    }
  }

  method ValidateProperties(v: Json, s: Schema, env: Env, path: seq<Step>, log: IssueList)
    requires Ready(env.root) && s in Nodes(env.root) && v.Object?
    modifies log
    ensures Reported(old(log.issues), log.issues, path, PropertiesOk(v, s, env))
    decreases v, Rank(s, env.root), 0
  {
    hide Satisfies, Nodes, NoInPlaceLoop, Loaded, Rank;
    Graded(s, env.root);
    for i := 0 to |s.properties|
      invariant Reported(old(log.issues), log.issues, path,
                  forall k | 0 <= k < i && s.properties[k].name in v.members ::
                    Satisfies(v.members[s.properties[k].name], s.properties[k].schema, env))
    {
      var p := s.properties[i];
      if p.name in v.members {
        ghost var before := log.issues;
        ghost var sofar := forall k | 0 <= k < i && s.properties[k].name in v.members ::
                             Satisfies(v.members[s.properties[k].name], s.properties[k].schema, env);
        ValidateAgainstSchema(v.members[p.name], p.schema, env, path + [Key(p.name)], log);
        ReportedThen(old(log.issues), before, log.issues, path, path + [Key(p.name)], sofar,
                     Satisfies(v.members[p.name], p.schema, env));
      }
    }
  }

  method CheckAdditional(members: map<Str, Json>, properties: seq<Property>, path: seq<Step>, log: IssueList)
    modifies log
    ensures Reported(old(log.issues), log.issues, path, forall k | k in members :: exists p | p in properties :: p.name == k)
  {
    var keys := members.Keys;
    while keys != {}
      invariant keys <= members.Keys
      invariant Reported(old(log.issues), log.issues, path,
                  forall k | k in members && k !in keys :: exists p | p in properties :: p.name == k)
      decreases |keys|
    {
      var key :| key in keys;
      if !exists p | p in properties :: p.name == key {
        log.Push(path + [Key(key)], "additionalProperties");
      }
      keys := keys - {key};
    }
  }

  /**
   validateReceiptJsonSchema: the verdict and the issues of one evaluation from the root. With deep
   strict equality, and no negative zero in the value and the schema, it is the standard's verdict.
   */
  method ValidateJsonSchema(v: Json, env: Env) returns (valid: bool, issues: seq<Issue>)
    requires Ready(env.root)
    ensures env.root in Nodes(env.root)
    ensures valid <==> Satisfies(v, env.root, env)
    ensures valid <==> issues == []
    ensures var standard := env.(equality := Instance);
      Counterparts(env, standard) && FreeOfNegativeZero(v) ==> (valid <==> Satisfies(v, env.root, standard))
  {
    hide Satisfies, FreeOfNegativeZero, Nodes, Counterparts;
    RootIsNode(env.root);
    if Counterparts(env, env.(equality := Instance)) && FreeOfNegativeZero(v) {
      EqualitiesAgree(v, env.root, env, env.(equality := Instance));
    }
    var log := new IssueList();
    ValidateAgainstSchema(v, env.root, env, [], log);
    issues := log.issues;
    valid := |issues| == 0;
  }
}
