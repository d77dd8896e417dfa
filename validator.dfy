/** The validation walk: which objects of a Go value are examined, which rule set each
    one is checked against, and which errors are collected. Runtime values are an abstract
    tree; the CEL library (compiling, evaluating, building environments) and the user's
    type adapters are oracles whose answers the walk consumes. */
module Validation {
  import opened Wrappers
  import opened Text
  import opened Rules
  import opened Errors
  import Registry

  // ---------------------------------------------------------------------------
  // Runtime values

  /** The identity of a Go type as reflection reports it. */
  datatype TypeId = TypeId(pkgPath: string, pkgName: string, name: string)

  /** A Go value. A pointer holds None when nil; an interface-typed slot holds the dynamic
      value it carries; the entries of a map come in the order one iteration visits them. */
  datatype Value =
    | StructV(typ: TypeId, fields: seq<FieldV>)
    | PtrV(elem: Option<Value>)
    | SliceV(elems: seq<Value>)
    | MapV(entries: seq<Entry>)
    | IfaceV(dyn: Option<Value>)
    | ScalarV(lit: string)

  /** A struct field; `exported` says whether reflection may hand out its value, `embedded`
      whether it is an anonymous field whose own fields are promoted to the outer struct. */
  datatype FieldV = FieldV(name: string, exported: bool, embedded: bool, value: Value)

  datatype Entry = Entry(key: Value, val: Value)

  /** reflect.Type.String for a defined type: the package name, a dot and the name. */
  function TypeText(t: TypeId): string {
    if t.pkgName == "" then t.name else t.pkgName + "." + t.name
  }

  // ---------------------------------------------------------------------------
  // The CEL library and the user's adapters, as oracles

  /** The three kinds of environment a rule is compiled in. */
  datatype Env = ObjectEnv | FieldEnv | NativeEnv(typ: TypeId)

  /** What `self` is bound to: CEL null, a Go value, or the map an adapter produced. */
  datatype Bound = Null | Plain(v: Value) | AdaptedMap(m: Option<map<string, Value>>)

  /** The variables of one evaluation: `self` as a map of adapted values (type rules on
      the adapter path), or `self` as one bound value. */
  datatype Input = MapInput(m: map<string, Bound>) | SelfInput(b: Bound)

  /** The outcome of evaluating a compiled rule. */
  datatype EvalResult = EvalBool(b: bool) | NonBool | EvalError(msg: string)

  /** The engine: compilation (None when a rule compiles), evaluation, creation of each
      environment (None when it succeeds), and the text fmt's %T prints for a bound value. */
  class Engine {
    const compileError: (Env, string) -> Option<string>
    const eval: (Env, string, Input) -> EvalResult
    const nativeEnvError: TypeId -> Option<string>
    const objectEnvError: Option<string>
    const fieldEnvError: Option<string>
    const typeText: Bound -> string

    constructor(compileError: (Env, string) -> Option<string>, eval: (Env, string, Input) -> EvalResult,
                nativeEnvError: TypeId -> Option<string>, objectEnvError: Option<string>,
                fieldEnvError: Option<string>, typeText: Bound -> string)
      ensures this.compileError == compileError && this.eval == eval
      ensures this.nativeEnvError == nativeEnvError && this.objectEnvError == objectEnvError
      ensures this.fieldEnvError == fieldEnvError && this.typeText == typeText
    {
      this.compileError := compileError;
      this.eval := eval;
      this.nativeEnvError := nativeEnvError;
      this.objectEnvError := objectEnvError;
      this.fieldEnvError := fieldEnvError;
      this.typeText := typeText;
    }
  }

  /** A TypeAdapterFunc: a map (possibly nil) or an error message. */
  class AdapterFunc {
    const run: Value -> Result<Option<map<string, Value>>, string>

    constructor(run: Value -> Result<Option<map<string, Value>>, string>)
      ensures this.run == run
    {
      this.run := run;
    }
  }

  /** TypeAdapterTarget: the rule set to use and the function producing `self`. */
  datatype AdapterTarget = AdapterTarget(targetName: string, adapter: AdapterFunc)

  // ---------------------------------------------------------------------------
  // Collected errors

  /** An entry of the collected error list: a rule violation, a fatal error, or the
      context's own error. */
  datatype Err = Invalid(v: ValidationError) | Fatal(f: FatalError) | Cancelled

  const NoOverload: string := "no matching overload"
  const UnsupportedConversion: string := "unsupported conversion"

  /** One type rule: compile, evaluate, and report. On the native path a compile or
      evaluation error mentioning "no matching overload" is dropped silently. */
  function TypeRuleErrors(engine: Engine, env: Env, rule: string, input: Input, typeName: string, native: bool)
    : seq<Err>
  {
    match engine.compileError(env, rule)
    case Some(msg) =>
      if native && Contains(msg, NoOverload) then []
      else [Fatal(NewFatalError("type rule compilation error for " + typeName + ": " + msg))]
    case None =>
      match engine.eval(env, rule, input)
      case EvalError(msg) =>
        if native && Contains(msg, NoOverload) then []
        else [Invalid(NewValidationError(typeName, "", "evaluation error: " + msg))]
      case EvalBool(b) => if b then [] else [Invalid(NewValidationError(typeName, "", rule))]
      case NonBool => [Invalid(NewValidationError(typeName, "", rule))]
  }

  /** One field rule. On the native path an evaluation error mentioning "unsupported
      conversion" is reported with the %T of the bound value instead. */
  function FieldRuleErrors(engine: Engine, rule: string, b: Bound, typeName: string, fieldName: string, native: bool)
    : seq<Err>
  {
    match engine.compileError(FieldEnv, rule)
    case Some(msg) =>
      [Fatal(NewFatalError("field rule compilation error for " + typeName + "." + fieldName + ": " + msg))]
    case None =>
      match engine.eval(FieldEnv, rule, SelfInput(b))
      case EvalError(msg) =>
        if native && Contains(msg, UnsupportedConversion) then
          [Invalid(NewValidationError(typeName, fieldName, "unsupported type for native validation: " + engine.typeText(b)))]
        else [Invalid(NewValidationError(typeName, fieldName, "evaluation error: " + msg))]
      case EvalBool(ok) => if ok then [] else [Invalid(NewValidationError(typeName, fieldName, rule))]
      case NonBool => [Invalid(NewValidationError(typeName, fieldName, rule))]
  }

  /** The type rules of a rule set, in order. */
  function TypeRulesErrors(engine: Engine, env: Env, rules: seq<string>, input: Input, typeName: string, native: bool)
    : seq<Err>
  {
    if rules == [] then []
    else
      TypeRuleErrors(engine, env, rules[0], input, typeName, native)
        + TypeRulesErrors(engine, env, rules[1..], input, typeName, native)
  }

  /** The rules of one field, in order. */
  function FieldRulesErrors(engine: Engine, rules: seq<string>, b: Bound, typeName: string, fieldName: string, native: bool)
    : seq<Err>
  {
    if rules == [] then []
    else
      FieldRuleErrors(engine, rules[0], b, typeName, fieldName, native)
        + FieldRulesErrors(engine, rules[1..], b, typeName, fieldName, native)
  }

  /** A type rule that adds nothing: it compiles and holds, or its failure is the
      "no matching overload" one that the native path ignores. */
  predicate TypeRuleSilent(engine: Engine, env: Env, rule: string, input: Input, native: bool) {
    match engine.compileError(env, rule)
    case Some(msg) => native && Contains(msg, NoOverload)
    case None =>
      match engine.eval(env, rule, input)
      case EvalError(msg) => native && Contains(msg, NoOverload)
      case EvalBool(b) => b
      case NonBool => false
  }

  lemma TypeRuleErrorsOne(engine: Engine, env: Env, rule: string, input: Input, typeName: string, native: bool)
    ensures var errs := TypeRuleErrors(engine, env, rule, input, typeName, native);
      |errs| <= 1 && (errs == [] <==> TypeRuleSilent(engine, env, rule, input, native))
      && Cancelled !in errs
      && (forall e :: e in errs && e.Invalid? ==> e.v.typeName == typeName && e.v.fieldName == "")
  {
  }

  /** Type rules add no error exactly when every one of them is silent, and never more
      than one error per rule; every violation names the type and no field. */
  lemma {:induction false} TypeRulesErrorsSpec(engine: Engine, env: Env, rules: seq<string>, input: Input, typeName: string, native: bool)
    ensures var errs := TypeRulesErrors(engine, env, rules, input, typeName, native);
      (errs == [] <==> forall i :: 0 <= i < |rules| ==> TypeRuleSilent(engine, env, rules[i], input, native))
      && |errs| <= |rules|
      && Cancelled !in errs
      && (forall e :: e in errs && e.Invalid? ==> e.v.typeName == typeName && e.v.fieldName == "")
  {
    if rules != [] {
      TypeRuleErrorsOne(engine, env, rules[0], input, typeName, native);
      TypeRulesErrorsSpec(engine, env, rules[1..], input, typeName, native);
      var rest := rules[1..];
      assert forall i :: 1 <= i < |rules| ==> rules[i] == rest[i - 1];
    }
  }

  /** A field rule adds nothing exactly when it compiles and evaluates to true. */
  predicate FieldRuleHolds(engine: Engine, rule: string, b: Bound) {
    engine.compileError(FieldEnv, rule).None? && engine.eval(FieldEnv, rule, SelfInput(b)) == EvalBool(true)
  }

  lemma FieldRuleErrorsOne(engine: Engine, rule: string, b: Bound, typeName: string, fieldName: string, native: bool)
    ensures var errs := FieldRuleErrors(engine, rule, b, typeName, fieldName, native);
      |errs| <= 1 && (errs == [] <==> FieldRuleHolds(engine, rule, b))
      && Cancelled !in errs
      && (forall e :: e in errs && e.Invalid? ==> e.v.typeName == typeName && e.v.fieldName == fieldName)
  {
  }

  /** Field rules add no error exactly when every one of them holds, at most one error
      per rule, and every violation names the type and the field. */
  lemma {:induction false} FieldRulesErrorsSpec(engine: Engine, rules: seq<string>, b: Bound, typeName: string, fieldName: string, native: bool)
    ensures var errs := FieldRulesErrors(engine, rules, b, typeName, fieldName, native);
      (errs == [] <==> forall i :: 0 <= i < |rules| ==> FieldRuleHolds(engine, rules[i], b))
      && |errs| <= |rules|
      && Cancelled !in errs
      && (forall e :: e in errs && e.Invalid? ==> e.v.typeName == typeName && e.v.fieldName == fieldName)
  {
    if rules != [] {
      FieldRuleErrorsOne(engine, rules[0], b, typeName, fieldName, native);
      FieldRulesErrorsSpec(engine, rules[1..], b, typeName, fieldName, native);
      var rest := rules[1..];
      assert forall i :: 1 <= i < |rules| ==> rules[i] == rest[i - 1];
    }
  }

  /** The body of the type-rule loop: what one rule appends. */
  method EvalTypeRule(engine: Engine, env: Env, rule: string, input: Input, typeName: string, native: bool)
      returns (added: seq<Err>)
    ensures added == TypeRuleErrors(engine, env, rule, input, typeName, native)
  {
    added := [];
    var compileError := engine.compileError(env, rule);
    if compileError.Some? {
      if !(native && Contains(compileError.value, NoOverload)) {
        added := [Fatal(NewFatalError("type rule compilation error for " + typeName + ": " + compileError.value))];
      }
      return;
    }
    var result := engine.eval(env, rule, input);
    if result.EvalError? {
      if !(native && Contains(result.msg, NoOverload)) {
        added := [Invalid(NewValidationError(typeName, "", "evaluation error: " + result.msg))];
      }
      return;
    }
    if result != EvalBool(true) {
      added := [Invalid(NewValidationError(typeName, "", rule))];
    }
  }

  /** The type-rule loop of validateNative and validateWithAdapter. */
  method EvalTypeRules(engine: Engine, env: Env, rules: seq<string>, input: Input, typeName: string, native: bool,
                       errs: seq<Err>) returns (out: seq<Err>)
    ensures out == errs + TypeRulesErrors(engine, env, rules, input, typeName, native)
  {
    out := errs;
    for i := 0 to |rules|
      invariant errs + TypeRulesErrors(engine, env, rules, input, typeName, native)
        == out + TypeRulesErrors(engine, env, rules[i..], input, typeName, native)
    {
      assert rules[i..][1..] == rules[i + 1..];
      var added := EvalTypeRule(engine, env, rules[i], input, typeName, native);
      ghost var rest := TypeRulesErrors(engine, env, rules[i + 1..], input, typeName, native);
      assert TypeRulesErrors(engine, env, rules[i..], input, typeName, native) == added + rest;
      assert out + (added + rest) == out + added + rest;
      out := out + added;
    }
    assert rules[|rules|..] == [];
  }

  /** The body of a field's rule loop: what one rule appends. */
  method EvalFieldRule(engine: Engine, rule: string, b: Bound, typeName: string, fieldName: string, native: bool)
      returns (added: seq<Err>)
    ensures added == FieldRuleErrors(engine, rule, b, typeName, fieldName, native)
  {
    added := [];
    var compileError := engine.compileError(FieldEnv, rule);
    if compileError.Some? {
      added := [Fatal(NewFatalError("field rule compilation error for " + typeName + "." + fieldName + ": " + compileError.value))];
      return;
    }
    var result := engine.eval(FieldEnv, rule, SelfInput(b));
    if result.EvalError? {
      if native && Contains(result.msg, UnsupportedConversion) {
        added := [Invalid(NewValidationError(typeName, fieldName, "unsupported type for native validation: " + engine.typeText(b)))];
      } else {
        added := [Invalid(NewValidationError(typeName, fieldName, "evaluation error: " + result.msg))];
      }
      return;
    }
    if result != EvalBool(true) {
      added := [Invalid(NewValidationError(typeName, fieldName, rule))];
    }
  }

  /** The rule loop of one field. */
  method EvalFieldRules(engine: Engine, rules: seq<string>, b: Bound, typeName: string, fieldName: string, native: bool,
                        errs: seq<Err>) returns (out: seq<Err>)
    ensures out == errs + FieldRulesErrors(engine, rules, b, typeName, fieldName, native)
  {
    out := errs;
    for i := 0 to |rules|
      invariant errs + FieldRulesErrors(engine, rules, b, typeName, fieldName, native)
        == out + FieldRulesErrors(engine, rules[i..], b, typeName, fieldName, native)
    {
      assert rules[i..][1..] == rules[i + 1..];
      var added := EvalFieldRule(engine, rules[i], b, typeName, fieldName, native);
      ghost var rest := FieldRulesErrors(engine, rules[i + 1..], b, typeName, fieldName, native);
      assert FieldRulesErrors(engine, rules[i..], b, typeName, fieldName, native) == added + rest;
      assert out + (added + rest) == out + added + rest;
      out := out + added;
    }
    assert rules[|rules|..] == [];
  }

  // ---------------------------------------------------------------------------
  // Sums over the keys of a Go map, whose iteration order is unspecified

  ghost function SumOver(keys: set<string>, f: string -> multiset<Err>): multiset<Err>
    decreases keys
  {
    if keys == {} then multiset{}
    else
      var k :| k in keys;
      f(k) + SumOver(keys - {k}, f)
  }

  /** The sum does not depend on the order the keys are taken in. */
  lemma {:induction false} SumOverPick(keys: set<string>, f: string -> multiset<Err>, k: string)
    requires k in keys
    ensures SumOver(keys, f) == f(k) + SumOver(keys - {k}, f)
    decreases keys
  {
    var j :| j in keys && SumOver(keys, f) == f(j) + SumOver(keys - {j}, f);
    if j != k {
      SumOverPick(keys - {j}, f, k);
      SumOverPick(keys - {k}, f, j);
      assert keys - {j} - {k} == keys - {k} - {j};
    }
  }

  /** One turn of a loop over a key set: adding the picked key's errors and dropping the
      key keeps the running total. */
  lemma SumOverStep(keys: set<string>, f: string -> multiset<Err>, k: string,
                    before: multiset<Err>, after: multiset<Err>)
    requires k in keys && after == before + f(k)
    ensures after + SumOver(keys - {k}, f) == before + SumOver(keys, f)
  {
    SumOverPick(keys, f, k);
  }

  /** Every error of the sum comes from one of the keys. */
  lemma {:induction false} SumOverMember(keys: set<string>, f: string -> multiset<Err>, e: Err)
    requires e in SumOver(keys, f)
    ensures exists k :: k in keys && e in f(k)
    decreases keys
  {
    var j :| j in keys && SumOver(keys, f) == f(j) + SumOver(keys - {j}, f);
    if e !in f(j) {
      SumOverMember(keys - {j}, f, e);
    }
  }

  /** The errors of one rule set in the order it runs them: the type rules' errors, in
      rule order, come first; the field rules' errors follow, in whatever order the map of
      field rules yields its keys, so only their multiset is fixed. */
  predicate TypeThenFields(es: seq<Err>, typeErrs: seq<Err>, fieldErrs: multiset<Err>) {
    |typeErrs| <= |es| && es[..|typeErrs|] == typeErrs && multiset(es[|typeErrs|..]) == fieldErrs
  }

  lemma TypeThenFieldsMultiset(es: seq<Err>, typeErrs: seq<Err>, fieldErrs: multiset<Err>)
    requires TypeThenFields(es, typeErrs, fieldErrs)
    ensures multiset(es) == multiset(typeErrs) + fieldErrs
  {
    assert es == es[..|typeErrs|] + es[|typeErrs|..];
  }

  /** Appending to a list adds the multiset of what was appended. */
  lemma TypeThenFieldsIntro(typeErrs: seq<Err>, rest: seq<Err>, fieldErrs: multiset<Err>)
    requires multiset(rest) == fieldErrs
    ensures TypeThenFields(typeErrs + rest, typeErrs, fieldErrs)
  {
    assert (typeErrs + rest)[..|typeErrs|] == typeErrs;
    assert (typeErrs + rest)[|typeErrs|..] == rest;
  }

  lemma MultisetSuffix(errs: seq<Err>, out: seq<Err>)
    requires |errs| <= |out| && out[..|errs|] == errs
    ensures multiset(out) == multiset(errs) + multiset(out[|errs|..])
  {
    assert out == errs + out[|errs|..];
  }

  /** Two appends in a row: what the second call added after the first. */
  lemma AppendedTwice(errs: seq<Err>, mid: seq<Err>, out: seq<Err>)
    requires |errs| <= |mid| && mid[..|errs|] == errs
    requires |mid| <= |out| && out[..|mid|] == mid
    ensures |errs| <= |out| && out[..|errs|] == errs
    ensures out[|errs|..] == mid[|errs|..] + out[|mid|..]
  {
    assert out[..|errs|] == mid[..|errs|];
  }

  /** What an append added, read back from the multiset of the whole. */
  lemma SuffixMultiset(errs: seq<Err>, out: seq<Err>, added: multiset<Err>)
    requires |errs| <= |out| && out[..|errs|] == errs
    requires multiset(out) == multiset(errs) + added
    ensures multiset(out[|errs|..]) == added
  {
    MultisetSuffix(errs, out);
    var r := multiset(out[|errs|..]);
    forall e
      ensures r[e] == added[e]
    {
      assert (multiset(errs) + r)[e] == (multiset(errs) + added)[e];
    }
  }

  // ---------------------------------------------------------------------------
  // Walking values

  /** The number of constructors on the way to every struct a value holds directly or
      behind a pointer: what shrinks from one embedding level to the next. */
  function Size(v: Value): nat
    decreases v, 1
  {
    match v
    case StructV(_, fs) => 1 + FieldsSize(fs)
    case PtrV(Some(x)) => 1 + Size(x)
    case _ => 1
  }

  function FieldsSize(fs: seq<FieldV>): nat
    decreases fs, 0
  {
    if fs == [] then 0 else Size(fs[0].value) + FieldsSize(fs[1..])
  }

  /** The fields an embedded field promotes: those of the struct it holds, directly or
      behind a non-nil pointer. Other fields promote nothing. */
  function Inner(f: FieldV): (r: seq<FieldV>)
    ensures FieldsSize(r) < Size(f.value)
  {
    if !f.embedded then []
    else
      match f.value
      case StructV(_, fs) => fs
      case PtrV(Some(StructV(_, fs))) => fs
      case _ => []
  }

  /** The next embedding level: the promoted fields of every field, in field order. */
  function Promoted(fs: seq<FieldV>): seq<FieldV> {
    if fs == [] then [] else Inner(fs[0]) + Promoted(fs[1..])
  }

  /** The fields at embedding depth `d`: the struct's own fields at depth 0. */
  function Level(fs: seq<FieldV>, d: nat): seq<FieldV> {
    if d == 0 then fs else Promoted(Level(fs, d - 1))
  }

  /** The fields of one level that carry the name, in order. */
  function Named(fs: seq<FieldV>, name: string): (r: seq<FieldV>)
    ensures forall f :: f in r ==> f in fs && f.name == name
    ensures r == [] <==> forall i :: 0 <= i < |fs| ==> fs[i].name != name
  {
    if fs == [] then []
    else
      var rest := Named(fs[1..], name);
      assert forall i :: 1 <= i < |fs| ==> fs[i] == fs[1..][i - 1];
      if fs[0].name == name then [fs[0]] + rest else rest
  }

  lemma {:induction false} FieldsSizeAppend(a: seq<FieldV>, b: seq<FieldV>)
    ensures FieldsSize(a + b) == FieldsSize(a) + FieldsSize(b)
  {
    if a == [] {
      assert a + b == b;
    } else {
      assert (a + b)[0] == a[0] && (a + b)[1..] == a[1..] + b;
      FieldsSizeAppend(a[1..], b);
    }
  }

  /** Each level is smaller than the one above it, so the search below ends. */
  lemma {:induction false} PromotedShrinks(fs: seq<FieldV>)
    ensures FieldsSize(Promoted(fs)) + |fs| <= FieldsSize(fs)
  {
    if fs != [] {
      PromotedShrinks(fs[1..]);
      FieldsSizeAppend(Inner(fs[0]), Promoted(fs[1..]));
    }
  }

  /** Once a level is empty, so is every level below it. */
  lemma {:induction false} EmptyLevelStays(fs: seq<FieldV>, d: nat, e: nat)
    requires Level(fs, d) == [] && d <= e
    ensures Level(fs, e) == []
    decreases e - d
  {
    if d < e {
      assert Level(fs, d + 1) == Promoted([]) == [];
      EmptyLevelStays(fs, d + 1, e);
    }
  }

  /** `e` is the shallowest depth from `d` on where some field carries the name. */
  predicate FirstDepth(fs: seq<FieldV>, name: string, d: nat, e: nat) {
    d <= e && Named(Level(fs, e), name) != []
    && forall e': nat :: d <= e' < e ==> Named(Level(fs, e'), name) == []
  }

  /** No field from depth `d` on carries the name. */
  ghost predicate AbsentFrom(fs: seq<FieldV>, name: string, d: nat) {
    forall e: nat :: d <= e ==> Named(Level(fs, e), name) == []
  }

  /** A depth without the name passes both facts up one level. */
  lemma NoNameHere(fs: seq<FieldV>, name: string, d: nat)
    requires Named(Level(fs, d), name) == []
    ensures forall e: nat :: FirstDepth(fs, name, d + 1, e) ==> FirstDepth(fs, name, d, e)
    ensures AbsentFrom(fs, name, d + 1) ==> AbsentFrom(fs, name, d)
  {
  }

  /** The search from depth `d` down: the first level holding the name decides. */
  function FindFrom(fs: seq<FieldV>, name: string, d: nat): Option<FieldV>
    decreases FieldsSize(Level(fs, d))
  {
    var here := Named(Level(fs, d), name);
    if |here| == 1 then Some(here[0])
    else if here != [] || Level(fs, d) == [] then None
    else
      PromotedShrinks(Level(fs, d));
      FindFrom(fs, name, d + 1)
  }

  /** The search finds the only field of the first depth holding the name; it finds
      nothing when that depth holds several or no depth holds one. */
  lemma {:induction false} FindFromSpec(fs: seq<FieldV>, name: string, d: nat)
    ensures var r := FindFrom(fs, name, d);
      && (r.Some? ==> exists e: nat :: FirstDepth(fs, name, d, e) && Named(Level(fs, e), name) == [r.value])
      && (r.None? ==> (AbsentFrom(fs, name, d)
        || exists e: nat :: FirstDepth(fs, name, d, e) && |Named(Level(fs, e), name)| > 1))
    decreases FieldsSize(Level(fs, d))
  {
    var here := Named(Level(fs, d), name);
    if here != [] {
      assert FirstDepth(fs, name, d, d);
    } else if Level(fs, d) == [] {
      forall e: nat | d <= e
        ensures Named(Level(fs, e), name) == []
      {
        EmptyLevelStays(fs, d, e);
      }
    } else {
      PromotedShrinks(Level(fs, d));
      FindFromSpec(fs, name, d + 1);
      NoNameHere(fs, name, d);
    }
  }

  /** reflect's FieldByName: the field carrying the name at the shallowest embedding depth
      where one does, provided it is the only one there. The name is not found when no
      depth has it, or when two fields share the shallowest depth that does. */
  function FieldByName(fs: seq<FieldV>, name: string): (r: Option<FieldV>)
    ensures r.Some? ==> r.value.name == name
    ensures r.Some? ==> exists d: nat :: FirstDepth(fs, name, 0, d) && Named(Level(fs, d), name) == [r.value]
    ensures r.None? ==> (AbsentFrom(fs, name, 0)
      || exists d: nat :: FirstDepth(fs, name, 0, d) && |Named(Level(fs, d), name)| > 1)
    ensures |Named(fs, name)| == 1 ==> r == Some(Named(fs, name)[0])
  {
    FindFromSpec(fs, name, 0);
    FindFrom(fs, name, 0)
  }

  /** Whether validateNative panics on one field rule: reflection refuses to hand out the
      value of an unexported field it found; a nil pointer is bound to null without that. */
  predicate FieldPanics(fs: seq<FieldV>, name: string) {
    match FieldByName(fs, name)
    case None => false
    case Some(f) => !f.exported && f.value != PtrV(None)
  }

  lemma {:induction false} NamedAppend(a: seq<FieldV>, b: seq<FieldV>, name: string)
    ensures Named(a + b, name) == Named(a, name) + Named(b, name)
  {
    if a == [] {
      assert a + b == b;
    } else {
      assert (a + b)[0] == a[0] && (a + b)[1..] == a[1..] + b;
      NamedAppend(a[1..], b, name);
    }
  }

  /** A field of an embedded struct is found through the outer struct when nothing nearer
      carries its name: an embedded `Base` lends its `ID` to the struct embedding it. */
  lemma PromotedFieldFound(baseName: string, exported: bool, t: TypeId, inner: FieldV, own: seq<FieldV>)
    requires baseName != inner.name
    requires Named(own, inner.name) == [] && Named(Promoted(own), inner.name) == []
    ensures FieldByName([FieldV(baseName, exported, true, StructV(t, [inner]))] + own, inner.name) == Some(inner)
  {
    var name := inner.name;
    var base := FieldV(baseName, exported, true, StructV(t, [inner]));
    var fs := [base] + own;
    assert Named([base], name) == [] by {
      assert [base][1..] == [];
    }
    NamedAppend([base], own, name);
    assert fs != [] && fs[0] == base && fs[1..] == own;
    assert Promoted(fs) == [inner] + Promoted(own);
    NamedAppend([inner], Promoted(own), name);
    assert Named([inner], name) == [inner] by {
      assert [inner][1..] == [];
    }
    assert Named(Level(fs, 1), name) == [inner];
    assert FindFrom(fs, name, 0) == FindFrom(fs, name, 1);
  }

  /** Two embedded structs lending a field of the same name at the same depth make the
      name ambiguous: it is not found, though each struct has it. */
  lemma AmbiguousPromotionNotFound(a: FieldV, b: FieldV, f: FieldV, g: FieldV)
    requires a.embedded && a.value.StructV? && a.value.fields == [f]
    requires b.embedded && b.value.StructV? && b.value.fields == [g]
    requires f.name == g.name && a.name != f.name && b.name != f.name
    ensures FieldByName([a, b], f.name) == None
  {
    var name := f.name;
    var fs := [a, b];
    assert fs[1..] == [b] && fs[1..][1..] == [];
    assert Named(fs, name) == [];
    assert Inner(a) == [f] && Inner(b) == [g];
    assert Promoted([b]) == [g];
    assert Promoted(fs) == [f] + [g];
    NamedAppend([f], [g], name);
    assert [f][1..] == [] && [g][1..] == [];
    assert Named(Level(fs, 1), name) == [f, g];
    assert FindFrom(fs, name, 0) == FindFrom(fs, name, 1);
  }

  /** When every field at every depth is exported, no lookup panics. */
  lemma ExportedFieldsDoNotPanic(fs: seq<FieldV>, name: string)
    requires forall d: nat, i :: 0 <= i < |Level(fs, d)| ==> Level(fs, d)[i].exported
    ensures !FieldPanics(fs, name)
  {
    var r := FieldByName(fs, name);
    if r.Some? {
      var d: nat :| FirstDepth(fs, name, 0, d) && Named(Level(fs, d), name) == [r.value];
      assert r.value in Named(Level(fs, d), name);
    }
  }

  /** What a field's rules see on the native path: null for a nil pointer, the pointee of
      any other pointer, the dynamic value of an interface, or the value itself. */
  function NativeBound(v: Value): (b: Bound)
    ensures v == PtrV(None) ==> b == Null
    ensures v.PtrV? && v.elem.Some? ==> b == Plain(v.elem.value)
    ensures !v.PtrV? && !v.IfaceV? ==> b == Plain(v)
  {
    match v
    case PtrV(None) => Null
    case PtrV(Some(x)) => Plain(x)
    case IfaceV(None) => Null
    case IfaceV(Some(x)) => Plain(x)
    case _ => Plain(v)
  }

  /** The full name of a type: `pkgPath.Name`, or the bare name without a package path. */
  function FullName(t: TypeId): string {
    if t.pkgPath == "" then t.name else t.pkgPath + "." + t.name
  }

  /** For an instantiated generic type (`Box[string]`), the full name of its base (`pkg.Box`). */
  function GenericBase(t: TypeId): Option<string> {
    var i := IndexOf(t.name, '[');
    if i == -1 then None
    else Some(if t.pkgPath == "" then t.name[..i] else t.pkgPath + "." + t.name[..i])
  }

  /** A struct, or a non-nil pointer to one: the values Validate examines. */
  predicate IsStructLike(v: Value) {
    v.StructV? || (v.PtrV? && v.elem.Some? && v.elem.value.StructV?)
  }

  /** The message getNativeEnv wraps a failed environment creation in. */
  function NativeEnvMessage(t: TypeId, msg: string): string {
    "failed to create native CEL environment for type " + TypeText(t) + ": " + msg
  }

  // ---------------------------------------------------------------------------
  // The validator

  /** Validator. `nativeTypes` is the set of types passed to WithTypes (their native
      environments are created while the validator is built); `nativeEnvs` is the cache of
      native environments, recorded by the types it holds one for. */
  class Validator {
    const engine: Engine
    const rules: map<string, RuleSet>
    const adapters: map<TypeId, AdapterTarget>
    const nativeTypes: set<TypeId>
    var nativeEnvs: set<TypeId>

    /** The cache only holds environments that could be created. */
    ghost predicate Valid()
      reads this
    {
      forall t :: t in nativeEnvs ==> engine.nativeEnvError(t).None?
    }

    constructor(engine: Engine, rules: map<string, RuleSet>, adapters: map<TypeId, AdapterTarget>,
                nativeTypes: set<TypeId>)
      ensures this.engine == engine && this.rules == rules && this.adapters == adapters
      ensures this.nativeTypes == nativeTypes && nativeEnvs == {}
      ensures Valid()
    {
      this.engine := engine;
      this.rules := rules;
      this.adapters := adapters;
      this.nativeTypes := nativeTypes;
      nativeEnvs := {};
    }

    /** getNativeEnv: the cache is transparent, the answer is the one a fresh creation
        would give, and only a successful creation is cached. */
    method GetNativeEnv(typ: TypeId) returns (err: Option<string>)
      requires Valid()
      modifies this
      ensures Valid()
      ensures err.None? <==> engine.nativeEnvError(typ).None?
      ensures err.Some? ==> err.value == NativeEnvMessage(typ, engine.nativeEnvError(typ).value)
      ensures nativeEnvs == if err.None? then old(nativeEnvs) + {typ} else old(nativeEnvs)
    {
      if typ in nativeEnvs {
        return None;
      }
      var created := engine.nativeEnvError(typ);
      if created.Some? {
        return Some(NativeEnvMessage(typ, created.value));
      }
      nativeEnvs := nativeEnvs + {typ};
      return None;
    }

    /** isNativeType */
    predicate IsNativeType(typ: TypeId) {
      typ in nativeTypes
    }

    /** No rule key is a proper prefix-plus-bracket of another, so that searching the rule
        keys for `base[` has at most one answer and Go's map order cannot matter. */
    ghost predicate UnambiguousGenerics() {
      forall k1, k2, i ::
        k1 in rules && k2 in rules && 0 <= i < |k1| && k1[i] == '[' && HasPrefix(k2, k1[..i + 1]) ==> k1 == k2
    }

    /** A rule key standing for instantiations of the generic `baseName`, if there is one. */
    ghost function GenericKey(baseName: string): Option<string> {
      if exists k :: k in rules && HasPrefix(k, baseName + "[") then
        Some(var k :| k in rules && HasPrefix(k, baseName + "["); k)
      else
        None
    }

    /** With unambiguous keys, any key with the prefix is the one GenericKey names. */
    lemma GenericKeyUnique(baseName: string, key: string)
      requires UnambiguousGenerics()
      requires key in rules && HasPrefix(key, baseName + "[")
      ensures GenericKey(baseName) == Some(key)
    {
      var p := baseName + "[";
      var k := GenericKey(baseName).value;
      assert k in rules && HasPrefix(k, p);
      var i := |baseName|;
      assert key[..i + 1] == p && key[i] == '[';
      assert HasPrefix(k, key[..i + 1]);
      assert key == k;
    }

    /** getGenericTypeName: the first key met with the prefix `baseName[`. */
    method GetGenericTypeName(baseName: string) returns (key: string, ok: bool)
      ensures ok ==> key in rules && HasPrefix(key, baseName + "[")
      ensures !ok ==> key == "" && forall k :: k in rules ==> !HasPrefix(k, baseName + "[")
      ensures ok <==> GenericKey(baseName).Some?
      ensures UnambiguousGenerics() && ok ==> GenericKey(baseName) == Some(key)
    {
      var todo := rules.Keys;
      while todo != {}
        invariant todo <= rules.Keys
        invariant forall k :: k in rules && k !in todo ==> !HasPrefix(k, baseName + "[")
        decreases todo
      {
        var k :| k in todo;
        if HasPrefix(k, baseName + "[") {
          if UnambiguousGenerics() {
            GenericKeyUnique(baseName, k);
          }
          return k, true;
        }
        todo := todo - {k};
      }
      return "", false;
    }

    /** The name getTypeName settles on, when the rule keys are unambiguous. */
    ghost function TypeNameOf(t: TypeId): string {
      match GenericBase(t)
      case None => FullName(t)
      case Some(base) =>
        match GenericKey(base)
        case Some(key) => key
        case None => FullName(t)
    }

    /** getTypeName: the full name, or for an instantiation of a generic type the rule key
        written for the generic type. */
    method GetTypeName(t: TypeId) returns (name: string)
      ensures name == FullName(t) || (GenericBase(t).Some? && name in rules && HasPrefix(name, GenericBase(t).value + "["))
      ensures GenericBase(t).None? ==> name == FullName(t)
      ensures UnambiguousGenerics() ==> name == TypeNameOf(t)
    {
      name := t.name;
      if t.pkgPath != "" {
        name := t.pkgPath + "." + t.name;
      }
      var pos := IndexOf(t.name, '[');
      if pos != -1 {
        var baseName := t.name[..pos];
        var fullBaseName := baseName;
        if t.pkgPath != "" {
          fullBaseName := t.pkgPath + "." + baseName;
        }
        var key, ok := GetGenericTypeName(fullBaseName);
        if ok {
          return key;
        }
      }
    }

    /** Running an adapter inside dereferenceAndAdapt: its map on success, otherwise the
        struct itself. */
    function Adapted(s: Value): (b: Bound)
      requires s.StructV? && s.typ in adapters
      ensures b.AdaptedMap? <==> adapters[s.typ].adapter.run(s).Success?
      ensures b.AdaptedMap? ==> b.m == adapters[s.typ].adapter.run(s).value
      ensures !b.AdaptedMap? ==> b == Plain(s)
    {
      match adapters[s.typ].adapter.run(s)
      case Success(m) => AdaptedMap(m)
      case Failure(_) => Plain(s)
    }

    /** dereferenceAndAdapt: a nil pointer becomes null; any other pointer is followed
        once; a struct with an adapter becomes the adapter's map when the adapter succeeds;
        everything else is passed through. */
    function DereferenceAndAdapt(value: Value): (b: Bound)
      ensures b == Null <==> value == PtrV(None)
      ensures b.AdaptedMap? <==>
                (var s := if value.PtrV? && value.elem.Some? then value.elem.value else value;
                 s.StructV? && s.typ in adapters && adapters[s.typ].adapter.run(s).Success?)
      ensures b.Plain? ==> b.v == if value.PtrV? && value.elem.Some? then value.elem.value else value
    {
      match value
      case PtrV(None) => Null
      case PtrV(Some(e)) =>
        if e.StructV? && e.typ in adapters then Adapted(e) else Plain(e)
      case StructV(t, _) =>
        if t in adapters then Adapted(value) else Plain(value)
      case _ => Plain(value)
    }
  
    // -------------------------------------------------------------------------
    // What validating one object contributes

    /** adaptedMapForTypeRules: every value of the adapter's map, dereferenced and adapted. */
    function AdaptAll(m: map<string, Value>): (r: map<string, Bound>)
      ensures r.Keys == m.Keys
      ensures forall k :: k in m ==> r[k] == DereferenceAndAdapt(m[k])
    {
      map k | k in m :: DereferenceAndAdapt(m[k])
    }

    /** The adapter path's errors for one field rule entry. */
    function AdapterFieldErrors(typeName: string, m: map<string, Value>, rs: RuleSet, fieldName: string): multiset<Err> {
      if fieldName !in rs.fieldRules || fieldName !in m then multiset{}
      else multiset(FieldRulesErrors(engine, rs.fieldRules[fieldName], DereferenceAndAdapt(m[fieldName]), typeName, fieldName, false))
    }

    function AdapterFieldFn(typeName: string, m: map<string, Value>, rs: RuleSet): string -> multiset<Err> {
      k => AdapterFieldErrors(typeName, m, rs, k)
    }

    /** validateWithAdapter, as the multiset of errors it appends. */
    ghost function AdapterErrors(s: Value): multiset<Err>
      requires s.StructV?
    {
      if s.typ !in adapters then multiset{}
      else
        var name := adapters[s.typ].targetName;
        if name !in rules then multiset{}
        else
          match adapters[s.typ].adapter.run(s)
          case Failure(msg) => multiset{Fatal(NewFatalError("TypeAdapter error for " + name + ": " + msg))}
          case Success(None) => multiset{}
          case Success(Some(m)) =>
            multiset(TypeRulesErrors(engine, ObjectEnv, rules[name].typeRules, MapInput(AdaptAll(m)), name, false))
            + SumOver(rules[name].fieldRules.Keys, AdapterFieldFn(name, m, rules[name]))
    }

    /** The native path's errors for one field rule entry. */
    function NativeFieldErrors(typeName: string, fs: seq<FieldV>, rs: RuleSet, fieldName: string): multiset<Err> {
      if fieldName !in rs.fieldRules then multiset{}
      else
        match FieldByName(fs, fieldName)
        case None => multiset{}
        case Some(f) =>
          var b := NativeBound(f.value);
          if b.Plain? && b.v.StructV? && IsNativeType(b.v.typ) then multiset{}
          else multiset(FieldRulesErrors(engine, rs.fieldRules[fieldName], b, typeName, fieldName, true))
    }

    function NativeFieldFn(typeName: string, fs: seq<FieldV>, rs: RuleSet): string -> multiset<Err> {
      k => NativeFieldErrors(typeName, fs, rs, k)
    }

    /** validateNative, as the multiset of errors it appends. */
    ghost function NativeErrors(s: Value): multiset<Err>
      requires s.StructV?
    {
      var name := TypeNameOf(s.typ);
      if name !in rules then multiset{}
      else
        match engine.nativeEnvError(s.typ)
        case Some(msg) =>
          multiset{Fatal(NewFatalError("env creation error for " + name + ": " + NativeEnvMessage(s.typ, msg)))}
        case None =>
          multiset(TypeRulesErrors(engine, NativeEnv(s.typ), rules[name].typeRules, SelfInput(Plain(s)), name, true))
          + SumOver(rules[name].fieldRules.Keys, NativeFieldFn(name, s.fields, rules[name]))
    }

    /** The errors of the struct's own rules, on the path its type selects. */
    ghost function OwnErrors(s: Value): multiset<Err>
      requires s.StructV?
    {
      if IsNativeType(s.typ) then NativeErrors(s) else AdapterErrors(s)
    }

    // -------------------------------------------------------------------------
    // The walk, counted: the multiset of errors each step appends. The order they
    // are appended in is stated by the `...Order` predicates further down, and each
    // of those is proved to agree with the multiset here.

    /** validateRecursive, as the multiset of errors it appends for `obj`. */
    ghost function Walk(ctxDone: bool, obj: Value): multiset<Err>
      decreases obj, 1
    {
      if ctxDone then multiset{Cancelled}
      else
        match obj
        case StructV(_, _) => StructWalk(ctxDone, obj)
        case PtrV(Some(x)) => if x.StructV? then StructWalk(ctxDone, x) else multiset{}
        case _ => multiset{}
    }

    /** A struct's own errors, then its fields'. */
    ghost function StructWalk(ctxDone: bool, s: Value): multiset<Err>
      requires s.StructV?
      decreases s, 0
    {
      OwnErrors(s) + FieldsWalk(ctxDone, s.fields)
    }

    ghost function FieldsWalk(ctxDone: bool, fs: seq<FieldV>): multiset<Err>
      decreases fs, 2
    {
      if fs == [] then multiset{}
      else ChildWalk(ctxDone, fs[0]) + FieldsWalk(ctxDone, fs[1..])
    }

    /** The recursion step for one field: only exported fields holding a struct, a non-nil
        pointer to a struct, a slice or a map are entered. */
    ghost function ChildWalk(ctxDone: bool, f: FieldV): multiset<Err>
      decreases f, 0
    {
      if !f.exported then multiset{}
      else
        match f.value
        case StructV(_, _) => Walk(ctxDone, f.value)
        case PtrV(Some(x)) => if x.StructV? then Walk(ctxDone, f.value) else multiset{}
        case SliceV(es) => ElemsWalk(ctxDone, es)
        case MapV(entries) => EntriesWalk(ctxDone, entries)
        case _ => multiset{}
    }

    /** What `elem.Interface()` hands to the recursion: the dynamic value of an interface
        slot, otherwise the element itself. */
    ghost function AnyWalk(ctxDone: bool, e: Value): multiset<Err>
      decreases e, 2
    {
      match e
      case IfaceV(Some(x)) => Walk(ctxDone, x)
      case _ => Walk(ctxDone, e)
    }

    ghost function ElemsWalk(ctxDone: bool, es: seq<Value>): multiset<Err>
      decreases es, 3
    {
      if es == [] then multiset{}
      else AnyWalk(ctxDone, es[0]) + ElemsWalk(ctxDone, es[1..])
    }

    /** Map values are walked; map keys never are. */
    ghost function EntriesWalk(ctxDone: bool, entries: seq<Entry>): multiset<Err>
      decreases entries, 4
    {
      if entries == [] then multiset{}
      else EntryWalk(ctxDone, entries[0]) + EntriesWalk(ctxDone, entries[1..])
    }

    ghost function EntryWalk(ctxDone: bool, entry: Entry): multiset<Err>
      decreases entry, 3
    {
      AnyWalk(ctxDone, entry.val)
    }

    // -------------------------------------------------------------------------
    // Where the walk panics

    /** validateNative panics when, once its environment exists, one of the rule set's
        field rules finds a field whose value reflection refuses to hand out. */
    ghost predicate NativePanics(s: Value)
      requires s.StructV?
    {
      var name := TypeNameOf(s.typ);
      name in rules && engine.nativeEnvError(s.typ).None?
      && exists k :: k in rules[name].fieldRules && FieldPanics(s.fields, k)
    }

    /** Whether validateRecursive panics on `obj`: the panic ends the whole walk, whatever
        was collected before it. */
    ghost predicate WalkPanics(ctxDone: bool, obj: Value)
      decreases obj, 1
    {
      !ctxDone &&
      match obj
      case StructV(_, _) => StructPanics(ctxDone, obj)
      case PtrV(Some(x)) => x.StructV? && StructPanics(ctxDone, x)
      case _ => false
    }

    ghost predicate StructPanics(ctxDone: bool, s: Value)
      requires s.StructV?
      decreases s, 0
    {
      (IsNativeType(s.typ) && NativePanics(s)) || FieldsPanic(ctxDone, s.fields)
    }

    ghost predicate FieldsPanic(ctxDone: bool, fs: seq<FieldV>)
      decreases fs, 2
    {
      fs != [] && (ChildPanics(ctxDone, fs[0]) || FieldsPanic(ctxDone, fs[1..]))
    }

    ghost predicate ChildPanics(ctxDone: bool, f: FieldV)
      decreases f, 0
    {
      f.exported &&
      match f.value
      case StructV(_, _) => WalkPanics(ctxDone, f.value)
      case PtrV(Some(x)) => x.StructV? && WalkPanics(ctxDone, f.value)
      case SliceV(es) => ElemsPanic(ctxDone, es)
      case MapV(entries) => EntriesPanic(ctxDone, entries)
      case _ => false
    }

    ghost predicate AnyPanics(ctxDone: bool, e: Value)
      decreases e, 2
    {
      match e
      case IfaceV(Some(x)) => WalkPanics(ctxDone, x)
      case _ => WalkPanics(ctxDone, e)
    }

    ghost predicate ElemsPanic(ctxDone: bool, es: seq<Value>)
      decreases es, 3
    {
      es != [] && (AnyPanics(ctxDone, es[0]) || ElemsPanic(ctxDone, es[1..]))
    }

    ghost predicate EntriesPanic(ctxDone: bool, entries: seq<Entry>)
      decreases entries, 4
    {
      entries != [] && (EntryPanics(ctxDone, entries[0]) || EntriesPanic(ctxDone, entries[1..]))
    }

    ghost predicate EntryPanics(ctxDone: bool, entry: Entry)
      decreases entry, 3
    {
      AnyPanics(ctxDone, entry.val)
    }

    // -------------------------------------------------------------------------
    // The order of the walk

    /** validateNative's errors in the order it appends them. */
    ghost predicate NativeOrder(s: Value, es: seq<Err>)
      requires s.StructV?
    {
      var name := TypeNameOf(s.typ);
      if name !in rules then es == []
      else
        match engine.nativeEnvError(s.typ)
        case Some(msg) =>
          es == [Fatal(NewFatalError("env creation error for " + name + ": " + NativeEnvMessage(s.typ, msg)))]
        case None =>
          TypeThenFields(es, TypeRulesErrors(engine, NativeEnv(s.typ), rules[name].typeRules, SelfInput(Plain(s)), name, true),
                         SumOver(rules[name].fieldRules.Keys, NativeFieldFn(name, s.fields, rules[name])))
    }

    /** validateWithAdapter's errors in the order it appends them. */
    ghost predicate AdapterOrder(s: Value, es: seq<Err>)
      requires s.StructV?
    {
      if s.typ !in adapters || adapters[s.typ].targetName !in rules then es == []
      else
        var name := adapters[s.typ].targetName;
        match adapters[s.typ].adapter.run(s)
        case Failure(msg) => es == [Fatal(NewFatalError("TypeAdapter error for " + name + ": " + msg))]
        case Success(None) => es == []
        case Success(Some(m)) =>
          TypeThenFields(es, TypeRulesErrors(engine, ObjectEnv, rules[name].typeRules, MapInput(AdaptAll(m)), name, false),
                         SumOver(rules[name].fieldRules.Keys, AdapterFieldFn(name, m, rules[name])))
    }

    ghost predicate OwnOrder(s: Value, es: seq<Err>)
      requires s.StructV?
    {
      if IsNativeType(s.typ) then NativeOrder(s, es) else AdapterOrder(s, es)
    }

    /** The errors validateRecursive appends for `obj`, in order: a cancellation alone,
        or a struct's own errors followed by its fields' errors. */
    ghost predicate WalkOrder(ctxDone: bool, obj: Value, es: seq<Err>)
      decreases obj, 1
    {
      if ctxDone then es == [Cancelled]
      else
        match obj
        case StructV(_, _) => StructOrder(ctxDone, obj, es)
        case PtrV(Some(x)) => if x.StructV? then StructOrder(ctxDone, x, es) else es == []
        case _ => es == []
    }

    ghost predicate StructOrder(ctxDone: bool, s: Value, es: seq<Err>)
      requires s.StructV?
      decreases s, 0
    {
      exists i :: 0 <= i <= |es| && OwnOrder(s, es[..i]) && FieldsOrder(ctxDone, s.fields, es[i..])
    }

    /** The fields' errors, field after field in declaration order. */
    ghost predicate FieldsOrder(ctxDone: bool, fs: seq<FieldV>, es: seq<Err>)
      decreases fs, 2
    {
      if fs == [] then es == []
      else exists i :: 0 <= i <= |es| && ChildOrder(ctxDone, fs[0], es[..i]) && FieldsOrder(ctxDone, fs[1..], es[i..])
    }

    ghost predicate ChildOrder(ctxDone: bool, f: FieldV, es: seq<Err>)
      decreases f, 0
    {
      if !f.exported then es == []
      else
        match f.value
        case StructV(_, _) => WalkOrder(ctxDone, f.value, es)
        case PtrV(Some(x)) => if x.StructV? then WalkOrder(ctxDone, f.value, es) else es == []
        case SliceV(vs) => ElemsOrder(ctxDone, vs, es)
        case MapV(entries) => EntriesOrder(ctxDone, entries, es)
        case _ => es == []
    }

    ghost predicate AnyOrder(ctxDone: bool, e: Value, es: seq<Err>)
      decreases e, 2
    {
      match e
      case IfaceV(Some(x)) => WalkOrder(ctxDone, x, es)
      case _ => WalkOrder(ctxDone, e, es)
    }

    /** A slice's elements' errors, by ascending index. */
    ghost predicate ElemsOrder(ctxDone: bool, vs: seq<Value>, es: seq<Err>)
      decreases vs, 3
    {
      if vs == [] then es == []
      else exists i :: 0 <= i <= |es| && AnyOrder(ctxDone, vs[0], es[..i]) && ElemsOrder(ctxDone, vs[1..], es[i..])
    }

    /** A map's values' errors, in the order one iteration visits the entries. */
    ghost predicate EntriesOrder(ctxDone: bool, entries: seq<Entry>, es: seq<Err>)
      decreases entries, 4
    {
      if entries == [] then es == []
      else exists i :: 0 <= i <= |es| && EntryOrder(ctxDone, entries[0], es[..i]) && EntriesOrder(ctxDone, entries[1..], es[i..])
    }

    ghost predicate EntryOrder(ctxDone: bool, entry: Entry, es: seq<Err>)
      decreases entry, 3
    {
      AnyOrder(ctxDone, entry.val, es)
    }

    /** The ordered description agrees with the multiset one. */
    lemma OwnOrderMultiset(s: Value, es: seq<Err>)
      requires s.StructV? && OwnOrder(s, es)
      ensures multiset(es) == OwnErrors(s)
    {
      if IsNativeType(s.typ) {
        var name := TypeNameOf(s.typ);
        if name in rules && engine.nativeEnvError(s.typ).None? {
          TypeThenFieldsMultiset(es, TypeRulesErrors(engine, NativeEnv(s.typ), rules[name].typeRules, SelfInput(Plain(s)), name, true),
                                 SumOver(rules[name].fieldRules.Keys, NativeFieldFn(name, s.fields, rules[name])));
        }
      } else if s.typ in adapters && adapters[s.typ].targetName in rules {
        var name := adapters[s.typ].targetName;
        var run := adapters[s.typ].adapter.run(s);
        if run.Success? && run.value.Some? {
          var m := run.value.value;
          TypeThenFieldsMultiset(es, TypeRulesErrors(engine, ObjectEnv, rules[name].typeRules, MapInput(AdaptAll(m)), name, false),
                                 SumOver(rules[name].fieldRules.Keys, AdapterFieldFn(name, m, rules[name])));
        }
      }
    }

    lemma {:induction false} WalkOrderMultiset(ctxDone: bool, obj: Value, es: seq<Err>)
      requires WalkOrder(ctxDone, obj, es)
      ensures multiset(es) == Walk(ctxDone, obj)
      decreases obj, 1
    {
      if !ctxDone {
        match obj
        case StructV(_, _) => StructOrderMultiset(ctxDone, obj, es);
        case PtrV(Some(x)) => if x.StructV? { StructOrderMultiset(ctxDone, x, es); }
        case _ =>
      }
    }

    lemma {:induction false} StructOrderMultiset(ctxDone: bool, s: Value, es: seq<Err>)
      requires s.StructV? && StructOrder(ctxDone, s, es)
      ensures multiset(es) == StructWalk(ctxDone, s)
      decreases s, 0
    {
      var i :| 0 <= i <= |es| && OwnOrder(s, es[..i]) && FieldsOrder(ctxDone, s.fields, es[i..]);
      OwnOrderMultiset(s, es[..i]);
      FieldsOrderMultiset(ctxDone, s.fields, es[i..]);
      assert es == es[..i] + es[i..];
    }

    lemma {:induction false} FieldsOrderMultiset(ctxDone: bool, fs: seq<FieldV>, es: seq<Err>)
      requires FieldsOrder(ctxDone, fs, es)
      ensures multiset(es) == FieldsWalk(ctxDone, fs)
      decreases fs, 2
    {
      if fs != [] {
        var i :| 0 <= i <= |es| && ChildOrder(ctxDone, fs[0], es[..i]) && FieldsOrder(ctxDone, fs[1..], es[i..]);
        ChildOrderMultiset(ctxDone, fs[0], es[..i]);
        FieldsOrderMultiset(ctxDone, fs[1..], es[i..]);
        assert es == es[..i] + es[i..];
      }
    }

    lemma {:induction false} ChildOrderMultiset(ctxDone: bool, f: FieldV, es: seq<Err>)
      requires ChildOrder(ctxDone, f, es)
      ensures multiset(es) == ChildWalk(ctxDone, f)
      decreases f, 0
    {
      if f.exported {
        match f.value
        case StructV(_, _) => WalkOrderMultiset(ctxDone, f.value, es);
        case PtrV(Some(x)) => if x.StructV? { WalkOrderMultiset(ctxDone, f.value, es); }
        case SliceV(vs) => ElemsOrderMultiset(ctxDone, vs, es);
        case MapV(entries) => EntriesOrderMultiset(ctxDone, entries, es);
        case _ =>
      }
    }

    lemma {:induction false} AnyOrderMultiset(ctxDone: bool, e: Value, es: seq<Err>)
      requires AnyOrder(ctxDone, e, es)
      ensures multiset(es) == AnyWalk(ctxDone, e)
      decreases e, 2
    {
      match e
      case IfaceV(Some(x)) => WalkOrderMultiset(ctxDone, x, es);
      case _ => WalkOrderMultiset(ctxDone, e, es);
    }

    lemma {:induction false} ElemsOrderMultiset(ctxDone: bool, vs: seq<Value>, es: seq<Err>)
      requires ElemsOrder(ctxDone, vs, es)
      ensures multiset(es) == ElemsWalk(ctxDone, vs)
      decreases vs, 3
    {
      if vs != [] {
        var i :| 0 <= i <= |es| && AnyOrder(ctxDone, vs[0], es[..i]) && ElemsOrder(ctxDone, vs[1..], es[i..]);
        AnyOrderMultiset(ctxDone, vs[0], es[..i]);
        ElemsOrderMultiset(ctxDone, vs[1..], es[i..]);
        assert es == es[..i] + es[i..];
      }
    }

    lemma {:induction false} EntriesOrderMultiset(ctxDone: bool, entries: seq<Entry>, es: seq<Err>)
      requires EntriesOrder(ctxDone, entries, es)
      ensures multiset(es) == EntriesWalk(ctxDone, entries)
      decreases entries, 4
    {
      if entries != [] {
        var i :| 0 <= i <= |es| && EntryOrder(ctxDone, entries[0], es[..i]) && EntriesOrder(ctxDone, entries[1..], es[i..]);
        EntryOrderMultiset(ctxDone, entries[0], es[..i]);
        EntriesOrderMultiset(ctxDone, entries[1..], es[i..]);
        assert es == es[..i] + es[i..];
      }
    }

    lemma {:induction false} EntryOrderMultiset(ctxDone: bool, entry: Entry, es: seq<Err>)
      requires EntryOrder(ctxDone, entry, es)
      ensures multiset(es) == EntryWalk(ctxDone, entry)
      decreases entry, 3
    {
      AnyOrderMultiset(ctxDone, entry.val, es);
    }

    /** One more field, element or entry appends its errors after the earlier ones. */
    lemma {:induction false} FieldsOrderSnoc(ctxDone: bool, fs: seq<FieldV>, f: FieldV, a: seq<Err>, b: seq<Err>)
      requires FieldsOrder(ctxDone, fs, a) && ChildOrder(ctxDone, f, b)
      ensures FieldsOrder(ctxDone, fs + [f], a + b)
      decreases |fs|
    {
      if fs == [] {
        assert [f][1..] == [] && [f][0] == f;
        assert (a + b)[..|b|] == b && (a + b)[|b|..] == [];
        assert fs + [f] == [f];
      } else {
        var i :| 0 <= i <= |a| && ChildOrder(ctxDone, fs[0], a[..i]) && FieldsOrder(ctxDone, fs[1..], a[i..]);
        FieldsOrderSnoc(ctxDone, fs[1..], f, a[i..], b);
        assert (fs + [f])[0] == fs[0] && (fs + [f])[1..] == fs[1..] + [f];
        assert (a + b)[..i] == a[..i] && (a + b)[i..] == a[i..] + b;
      }
    }

    lemma {:induction false} ElemsOrderSnoc(ctxDone: bool, vs: seq<Value>, v: Value, a: seq<Err>, b: seq<Err>)
      requires ElemsOrder(ctxDone, vs, a) && AnyOrder(ctxDone, v, b)
      ensures ElemsOrder(ctxDone, vs + [v], a + b)
      decreases |vs|
    {
      if vs == [] {
        assert [v][1..] == [] && [v][0] == v;
        assert (a + b)[..|b|] == b && (a + b)[|b|..] == [];
        assert vs + [v] == [v];
      } else {
        var i :| 0 <= i <= |a| && AnyOrder(ctxDone, vs[0], a[..i]) && ElemsOrder(ctxDone, vs[1..], a[i..]);
        ElemsOrderSnoc(ctxDone, vs[1..], v, a[i..], b);
        assert (vs + [v])[0] == vs[0] && (vs + [v])[1..] == vs[1..] + [v];
        assert (a + b)[..i] == a[..i] && (a + b)[i..] == a[i..] + b;
      }
    }

    lemma {:induction false} EntriesOrderSnoc(ctxDone: bool, entries: seq<Entry>, e: Entry, a: seq<Err>, b: seq<Err>)
      requires EntriesOrder(ctxDone, entries, a) && EntryOrder(ctxDone, e, b)
      ensures EntriesOrder(ctxDone, entries + [e], a + b)
      decreases |entries|
    {
      if entries == [] {
        assert [e][1..] == [] && [e][0] == e;
        assert (a + b)[..|b|] == b && (a + b)[|b|..] == [];
        assert entries + [e] == [e];
      } else {
        var i :| 0 <= i <= |a| && EntryOrder(ctxDone, entries[0], a[..i]) && EntriesOrder(ctxDone, entries[1..], a[i..]);
        EntriesOrderSnoc(ctxDone, entries[1..], e, a[i..], b);
        assert (entries + [e])[0] == entries[0] && (entries + [e])[1..] == entries[1..] + [e];
        assert (a + b)[..i] == a[..i] && (a + b)[i..] == a[i..] + b;
      }
    }

    /** A struct's own errors followed by its fields' errors. */
    lemma StructOrderIntro(ctxDone: bool, s: Value, own: seq<Err>, rest: seq<Err>)
      requires s.StructV? && OwnOrder(s, own) && FieldsOrder(ctxDone, s.fields, rest)
      ensures StructOrder(ctxDone, s, own + rest)
    {
      assert (own + rest)[..|own|] == own && (own + rest)[|own|..] == rest;
    }

    // -------------------------------------------------------------------------
    // The validation methods

    /** The loop building adaptedMapForTypeRules. */
    method AdaptMap(m: map<string, Value>) returns (r: map<string, Bound>)
      ensures r == AdaptAll(m)
    {
      r := map[];
      var todo := m.Keys;
      while todo != {}
        invariant todo <= m.Keys
        invariant r == map k | k in m && k !in todo :: DereferenceAndAdapt(m[k])
        decreases todo
      {
        var k :| k in todo;
        r := r[k := DereferenceAndAdapt(m[k])];
        todo := todo - {k};
      }
    }

    /** The field-rule loop of validateWithAdapter, over the rule set's field names in
        whatever order the map yields them. */
    method AdapterFieldRules(typeName: string, m: map<string, Value>, rs: RuleSet, errs: seq<Err>)
      returns (out: seq<Err>)
      ensures |errs| <= |out| && out[..|errs|] == errs
      ensures multiset(out) == multiset(errs) + SumOver(rs.fieldRules.Keys, AdapterFieldFn(typeName, m, rs))
    {
      ghost var f := AdapterFieldFn(typeName, m, rs);
      out := errs;
      var todo := rs.fieldRules.Keys;
      while todo != {}
        invariant todo <= rs.fieldRules.Keys
        invariant |errs| <= |out| && out[..|errs|] == errs
        invariant multiset(out) + SumOver(todo, f) == multiset(errs) + SumOver(rs.fieldRules.Keys, f)
        decreases todo
      {
        var fieldName :| fieldName in todo;
        var before := out;
        out := AdapterField(typeName, m, rs, fieldName, out);
        assert f(fieldName) == AdapterFieldErrors(typeName, m, rs, fieldName);
        SumOverStep(todo, f, fieldName, multiset(before), multiset(out));
        assert out[..|errs|] == before[..|errs|];
        todo := todo - {fieldName};
      }
    }

    /** One turn of validateWithAdapter's field-rule loop: the field's rules run only
        when the adapter's map has the field. */
    method AdapterField(typeName: string, m: map<string, Value>, rs: RuleSet, fieldName: string, errs: seq<Err>)
      returns (out: seq<Err>)
      requires fieldName in rs.fieldRules
      ensures |errs| <= |out| && out[..|errs|] == errs
      ensures multiset(out) == multiset(errs) + AdapterFieldErrors(typeName, m, rs, fieldName)
    {
      out := errs;
      if fieldName in m {
        out := EvalFieldRules(engine, rs.fieldRules[fieldName], DereferenceAndAdapt(m[fieldName]), typeName, fieldName, false, out);
        assert out[..|errs|] == errs;
      }
    }

    /** validateWithAdapter. */
    method ValidateWithAdapter(s: Value, errs: seq<Err>) returns (out: seq<Err>)
      requires s.StructV?
      ensures |errs| <= |out| && out[..|errs|] == errs
      ensures AdapterOrder(s, out[|errs|..])
      ensures multiset(out) == multiset(errs) + AdapterErrors(s)
    {
      out := errs;
      assert out[|errs|..] == [];
      var typeName := GetTypeName(s.typ);
      var pos := LastIndexOf(typeName, '[');
      if pos != -1 {
        var typeSpecName, ok := GetGenericTypeName(typeName[..pos]);
        if ok {
          typeName := typeSpecName;
        }
      }
      var hasAdapter := s.typ in adapters;
      var hasRules := typeName in rules;
      if hasAdapter {
        typeName := adapters[s.typ].targetName;
        hasRules := typeName in rules;
      }
      if !hasRules || !hasAdapter {
        return;
      }
      var ruleSet := rules[typeName];
      var adapted := adapters[s.typ].adapter.run(s);
      if adapted.Failure? {
        out := errs + [Fatal(NewFatalError("TypeAdapter error for " + typeName + ": " + adapted.error))];
        assert out[|errs|..] == [Fatal(NewFatalError("TypeAdapter error for " + typeName + ": " + adapted.error))];
        return;
      }
      if adapted.value.Some? {
        var objMap := adapted.value.value;
        out := AdapterRules(typeName, objMap, ruleSet, errs);
        TypeThenFieldsMultiset(out[|errs|..], TypeRulesErrors(engine, ObjectEnv, ruleSet.typeRules, MapInput(AdaptAll(objMap)), typeName, false),
                               SumOver(ruleSet.fieldRules.Keys, AdapterFieldFn(typeName, objMap, ruleSet)));
        MultisetSuffix(errs, out);
      }
    }

    /** The rules validateWithAdapter runs on the adapter's map: the type rules, then
        the field rules. */
    method AdapterRules(typeName: string, objMap: map<string, Value>, ruleSet: RuleSet, errs: seq<Err>)
      returns (out: seq<Err>)
      ensures |errs| <= |out| && out[..|errs|] == errs
      ensures TypeThenFields(out[|errs|..],
                             TypeRulesErrors(engine, ObjectEnv, ruleSet.typeRules, MapInput(AdaptAll(objMap)), typeName, false),
                             SumOver(ruleSet.fieldRules.Keys, AdapterFieldFn(typeName, objMap, ruleSet)))
    {
      var adaptedMap := AdaptMap(objMap);
      out := EvalTypeRules(engine, ObjectEnv, ruleSet.typeRules, MapInput(adaptedMap), typeName, false, errs);
      var before := out;
      out := AdapterFieldRules(typeName, objMap, ruleSet, out);
      AppendedTwice(errs, before, out);
      SuffixMultiset(before, out, SumOver(ruleSet.fieldRules.Keys, AdapterFieldFn(typeName, objMap, ruleSet)));
      TypeThenFieldsIntro(before[|errs|..], out[|before|..], SumOver(ruleSet.fieldRules.Keys, AdapterFieldFn(typeName, objMap, ruleSet)));
    }

    /** The field-rule loop of validateNative. It stops at the first field whose value
        reflection refuses to hand out. */
    method NativeFieldRules(typeName: string, fs: seq<FieldV>, rs: RuleSet, errs: seq<Err>)
      returns (out: seq<Err>, panicked: bool)
      ensures panicked <==> exists k :: k in rs.fieldRules && FieldPanics(fs, k)
      ensures |errs| <= |out| && out[..|errs|] == errs
      ensures !panicked ==> multiset(out) == multiset(errs) + SumOver(rs.fieldRules.Keys, NativeFieldFn(typeName, fs, rs))
    {
      ghost var f := NativeFieldFn(typeName, fs, rs);
      out := errs;
      panicked := false;
      var todo := rs.fieldRules.Keys;
      while todo != {}
        invariant todo <= rs.fieldRules.Keys
        invariant forall k :: k in rs.fieldRules && k !in todo ==> !FieldPanics(fs, k)
        invariant |errs| <= |out| && out[..|errs|] == errs
        invariant multiset(out) + SumOver(todo, f) == multiset(errs) + SumOver(rs.fieldRules.Keys, f)
        decreases todo
      {
        var fieldName :| fieldName in todo;
        var before := out;
        out, panicked := NativeField(typeName, fs, rs, fieldName, out);
        assert out[..|errs|] == before[..|errs|];
        if panicked {
          return;
        }
        assert f(fieldName) == NativeFieldErrors(typeName, fs, rs, fieldName);
        SumOverStep(todo, f, fieldName, multiset(before), multiset(out));
        todo := todo - {fieldName};
      }
    }

    /** One turn of validateNative's field-rule loop: a missing field and a field holding
        a struct the native path validates itself are skipped; an unexported field that is
        not a nil pointer panics when its value is asked for. */
    method NativeField(typeName: string, fs: seq<FieldV>, rs: RuleSet, fieldName: string, errs: seq<Err>)
      returns (out: seq<Err>, panicked: bool)
      requires fieldName in rs.fieldRules
      ensures panicked == FieldPanics(fs, fieldName)
      ensures |errs| <= |out| && out[..|errs|] == errs
      ensures !panicked ==> multiset(out) == multiset(errs) + NativeFieldErrors(typeName, fs, rs, fieldName)
    {
      out := errs;
      panicked := false;
      var fieldVal := FieldByName(fs, fieldName);
      if fieldVal.Some? {
        var field := fieldVal.value;
        if !field.exported && field.value != PtrV(None) {
          panicked := true;
          return;
        }
        var b := NativeBound(field.value);
        if !(b.Plain? && b.v.StructV? && IsNativeType(b.v.typ)) {
          out := EvalFieldRules(engine, rs.fieldRules[fieldName], b, typeName, fieldName, true, out);
          assert out[..|errs|] == errs;
        }
      }
    }

    /** validateNative. The rule set is found by getTypeName; when the rule keys are
        unambiguous that is the name TypeNameOf gives. */
    method ValidateNative(s: Value, errs: seq<Err>) returns (out: seq<Err>, panicked: bool)
      requires s.StructV? && Valid()
      modifies this
      ensures Valid()
      ensures |errs| <= |out| && out[..|errs|] == errs
      ensures UnambiguousGenerics() ==> panicked == NativePanics(s)
      ensures UnambiguousGenerics() && !panicked ==> NativeOrder(s, out[|errs|..])
      ensures UnambiguousGenerics() && !panicked ==> multiset(out) == multiset(errs) + NativeErrors(s)
    {
      out := errs;
      panicked := false;
      assert out[|errs|..] == [];
      var typeName := GetTypeName(s.typ);
      if typeName !in rules {
        return;
      }
      var ruleSet := rules[typeName];
      var envErr := GetNativeEnv(s.typ);
      if envErr.Some? {
        out := errs + [Fatal(NewFatalError("env creation error for " + typeName + ": " + envErr.value))];
        assert out[|errs|..] == [Fatal(NewFatalError("env creation error for " + typeName + ": " + envErr.value))];
        return;
      }
      out, panicked := NativeRules(s, typeName, ruleSet, errs);
      if !panicked {
        TypeThenFieldsMultiset(out[|errs|..], TypeRulesErrors(engine, NativeEnv(s.typ), ruleSet.typeRules, SelfInput(Plain(s)), typeName, true),
                               SumOver(ruleSet.fieldRules.Keys, NativeFieldFn(typeName, s.fields, ruleSet)));
        MultisetSuffix(errs, out);
      }
    }

    /** The rules validateNative runs once the environment exists: the type rules, then
        the field rules. */
    method NativeRules(s: Value, typeName: string, ruleSet: RuleSet, errs: seq<Err>) returns (out: seq<Err>, panicked: bool)
      requires s.StructV?
      ensures |errs| <= |out| && out[..|errs|] == errs
      ensures panicked <==> exists k :: k in ruleSet.fieldRules && FieldPanics(s.fields, k)
      ensures !panicked ==>
        TypeThenFields(out[|errs|..],
                       TypeRulesErrors(engine, NativeEnv(s.typ), ruleSet.typeRules, SelfInput(Plain(s)), typeName, true),
                       SumOver(ruleSet.fieldRules.Keys, NativeFieldFn(typeName, s.fields, ruleSet)))
    {
      out := EvalTypeRules(engine, NativeEnv(s.typ), ruleSet.typeRules, SelfInput(Plain(s)), typeName, true, errs);
      var before := out;
      out, panicked := NativeFieldRules(typeName, s.fields, ruleSet, out);
      AppendedTwice(errs, before, out);
      if !panicked {
        SuffixMultiset(before, out, SumOver(ruleSet.fieldRules.Keys, NativeFieldFn(typeName, s.fields, ruleSet)));
        TypeThenFieldsIntro(before[|errs|..], out[|before|..], SumOver(ruleSet.fieldRules.Keys, NativeFieldFn(typeName, s.fields, ruleSet)));
      }
    }

    /** validateRecursive: the object's own rules, then every exported field in order. A
        panic on the way ends the walk. */
    method ValidateRecursive(ctxDone: bool, obj: Value, errs: seq<Err>) returns (out: seq<Err>, panicked: bool)
      requires Valid()
      modifies this
      ensures Valid()
      ensures |errs| <= |out| && out[..|errs|] == errs
      ensures ctxDone ==> out == errs + [Cancelled] && !panicked
      ensures UnambiguousGenerics() ==> panicked == WalkPanics(ctxDone, obj)
      ensures UnambiguousGenerics() && !panicked ==> WalkOrder(ctxDone, obj, out[|errs|..])
      ensures UnambiguousGenerics() && !panicked ==> multiset(out) == multiset(errs) + Walk(ctxDone, obj)
      decreases obj, 1
    {
      panicked := false;
      if ctxDone {
        out := errs + [Cancelled];
        assert out[|errs|..] == [Cancelled];
        return;
      }
      out := errs;
      assert out[|errs|..] == [];
      var val := obj;
      if val.PtrV? {
        if val.elem.None? {
          return;
        }
        val := val.elem.value;
      }
      if !val.StructV? {
        return;
      }
      out, panicked := ValidateStruct(ctxDone, val, errs);
    }

    /** The struct part of validateRecursive: the path its type selects, then the fields. */
    method ValidateStruct(ctxDone: bool, s: Value, errs: seq<Err>) returns (out: seq<Err>, panicked: bool)
      requires s.StructV? && Valid()
      modifies this
      ensures Valid()
      ensures |errs| <= |out| && out[..|errs|] == errs
      ensures UnambiguousGenerics() ==> panicked == StructPanics(ctxDone, s)
      ensures UnambiguousGenerics() && !panicked ==> StructOrder(ctxDone, s, out[|errs|..])
      ensures UnambiguousGenerics() && !panicked ==> multiset(out) == multiset(errs) + StructWalk(ctxDone, s)
      decreases s, 0
    {
      panicked := false;
      if IsNativeType(s.typ) {
        out, panicked := ValidateNative(s, errs);
        if panicked {
          return;
        }
      } else {
        out := ValidateWithAdapter(s, errs);
      }
      var own := out;
      out, panicked := ValidateFields(ctxDone, s.fields, own);
      AppendedTwice(errs, own, out);
      if UnambiguousGenerics() && !panicked {
        StructOrderIntro(ctxDone, s, own[|errs|..], out[|own|..]);
        StructOrderMultiset(ctxDone, s, out[|errs|..]);
        MultisetSuffix(errs, out);
      }
    }

    /** The field loop of validateRecursive: every field in declaration order. */
    method ValidateFields(ctxDone: bool, fs: seq<FieldV>, errs: seq<Err>) returns (out: seq<Err>, panicked: bool)
      requires Valid()
      modifies this
      ensures Valid()
      ensures |errs| <= |out| && out[..|errs|] == errs
      ensures UnambiguousGenerics() ==> panicked == FieldsPanic(ctxDone, fs)
      ensures UnambiguousGenerics() && !panicked ==> FieldsOrder(ctxDone, fs, out[|errs|..])
      ensures UnambiguousGenerics() && !panicked ==> multiset(out) == multiset(errs) + FieldsWalk(ctxDone, fs)
      decreases fs, 2
    {
      out := errs;
      panicked := false;
      assert out[|errs|..] == [];
      for i := 0 to |fs|
        invariant Valid() && !panicked
        invariant |errs| <= |out| && out[..|errs|] == errs
        invariant UnambiguousGenerics() ==> (FieldsPanic(ctxDone, fs) <==> FieldsPanic(ctxDone, fs[i..]))
        invariant UnambiguousGenerics() ==> FieldsOrder(ctxDone, fs[..i], out[|errs|..])
      {
        assert fs[i..][1..] == fs[i + 1..];
        var before := out;
        out, panicked := ValidateField(ctxDone, fs[i], out);
        AppendedTwice(errs, before, out);
        if panicked {
          return;
        }
        if UnambiguousGenerics() {
          FieldsOrderSnoc(ctxDone, fs[..i], fs[i], before[|errs|..], out[|before|..]);
          assert fs[..i + 1] == fs[..i] + [fs[i]];
        }
      }
      if UnambiguousGenerics() {
        assert fs[..|fs|] == fs;
        FieldsOrderMultiset(ctxDone, fs, out[|errs|..]);
        MultisetSuffix(errs, out);
      }
    }

    /** The switch on one field's kind in validateRecursive. */
    method ValidateField(ctxDone: bool, f: FieldV, errs: seq<Err>) returns (out: seq<Err>, panicked: bool)
      requires Valid()
      modifies this
      ensures Valid()
      ensures |errs| <= |out| && out[..|errs|] == errs
      ensures UnambiguousGenerics() ==> panicked == ChildPanics(ctxDone, f)
      ensures UnambiguousGenerics() && !panicked ==> ChildOrder(ctxDone, f, out[|errs|..])
      ensures UnambiguousGenerics() && !panicked ==> multiset(out) == multiset(errs) + ChildWalk(ctxDone, f)
      decreases f, 0
    {
      out := errs;
      panicked := false;
      assert out[|errs|..] == [];
      if !f.exported {
        return;
      }
      match f.value
      case StructV(_, _) =>
        out, panicked := ValidateRecursive(ctxDone, f.value, errs);
      case PtrV(Some(x)) =>
        if x.StructV? {
          out, panicked := ValidateRecursive(ctxDone, f.value, errs);
        }
      case SliceV(es) =>
        out, panicked := ValidateElems(ctxDone, es, errs);
      case MapV(entries) =>
        out, panicked := ValidateEntries(ctxDone, entries, errs);
      case _ =>
    }

    /** The loop over a slice field's elements. */
    method ValidateElems(ctxDone: bool, es: seq<Value>, errs: seq<Err>) returns (out: seq<Err>, panicked: bool)
      requires Valid()
      modifies this
      ensures Valid()
      ensures |errs| <= |out| && out[..|errs|] == errs
      ensures UnambiguousGenerics() ==> panicked == ElemsPanic(ctxDone, es)
      ensures UnambiguousGenerics() && !panicked ==> ElemsOrder(ctxDone, es, out[|errs|..])
      ensures UnambiguousGenerics() && !panicked ==> multiset(out) == multiset(errs) + ElemsWalk(ctxDone, es)
      decreases es, 3
    {
      out := errs;
      panicked := false;
      assert out[|errs|..] == [];
      for j := 0 to |es|
        invariant Valid() && !panicked
        invariant |errs| <= |out| && out[..|errs|] == errs
        invariant UnambiguousGenerics() ==> (ElemsPanic(ctxDone, es) <==> ElemsPanic(ctxDone, es[j..]))
        invariant UnambiguousGenerics() ==> ElemsOrder(ctxDone, es[..j], out[|errs|..])
      {
        assert es[j..][1..] == es[j + 1..];
        var before := out;
        out, panicked := ValidateAny(ctxDone, es[j], out);
        AppendedTwice(errs, before, out);
        if panicked {
          return;
        }
        if UnambiguousGenerics() {
          ElemsOrderSnoc(ctxDone, es[..j], es[j], before[|errs|..], out[|before|..]);
          assert es[..j + 1] == es[..j] + [es[j]];
        }
      }
      if UnambiguousGenerics() {
        assert es[..|es|] == es;
        ElemsOrderMultiset(ctxDone, es, out[|errs|..]);
        MultisetSuffix(errs, out);
      }
    }

    /** The loop over a map field's entries, in the order one iteration visits them. */
    method ValidateEntries(ctxDone: bool, entries: seq<Entry>, errs: seq<Err>) returns (out: seq<Err>, panicked: bool)
      requires Valid()
      modifies this
      ensures Valid()
      ensures |errs| <= |out| && out[..|errs|] == errs
      ensures UnambiguousGenerics() ==> panicked == EntriesPanic(ctxDone, entries)
      ensures UnambiguousGenerics() && !panicked ==> EntriesOrder(ctxDone, entries, out[|errs|..])
      ensures UnambiguousGenerics() && !panicked ==> multiset(out) == multiset(errs) + EntriesWalk(ctxDone, entries)
      decreases entries, 4
    {
      out := errs;
      panicked := false;
      assert out[|errs|..] == [];
      for j := 0 to |entries|
        invariant Valid() && !panicked
        invariant |errs| <= |out| && out[..|errs|] == errs
        invariant UnambiguousGenerics() ==> (EntriesPanic(ctxDone, entries) <==> EntriesPanic(ctxDone, entries[j..]))
        invariant UnambiguousGenerics() ==> EntriesOrder(ctxDone, entries[..j], out[|errs|..])
      {
        assert entries[j..][1..] == entries[j + 1..];
        var before := out;
        out, panicked := ValidateEntry(ctxDone, entries[j], out);
        AppendedTwice(errs, before, out);
        if panicked {
          return;
        }
        if UnambiguousGenerics() {
          EntriesOrderSnoc(ctxDone, entries[..j], entries[j], before[|errs|..], out[|before|..]);
          assert entries[..j + 1] == entries[..j] + [entries[j]];
        }
      }
      if UnambiguousGenerics() {
        assert entries[..|entries|] == entries;
        EntriesOrderMultiset(ctxDone, entries, out[|errs|..]);
        MultisetSuffix(errs, out);
      }
    }

    /** One map value handed to the recursion. */
    method ValidateEntry(ctxDone: bool, entry: Entry, errs: seq<Err>) returns (out: seq<Err>, panicked: bool)
      requires Valid()
      modifies this
      ensures Valid()
      ensures |errs| <= |out| && out[..|errs|] == errs
      ensures UnambiguousGenerics() ==> panicked == EntryPanics(ctxDone, entry)
      ensures UnambiguousGenerics() && !panicked ==> EntryOrder(ctxDone, entry, out[|errs|..])
      ensures UnambiguousGenerics() && !panicked ==> multiset(out) == multiset(errs) + EntryWalk(ctxDone, entry)
      decreases entry, 3
    {
      out, panicked := ValidateAny(ctxDone, entry.val, errs);
    }

    /** One slice element or map value handed to the recursion through `Interface()`. */
    method ValidateAny(ctxDone: bool, e: Value, errs: seq<Err>) returns (out: seq<Err>, panicked: bool)
      requires Valid()
      modifies this
      ensures Valid()
      ensures |errs| <= |out| && out[..|errs|] == errs
      ensures UnambiguousGenerics() ==> panicked == AnyPanics(ctxDone, e)
      ensures UnambiguousGenerics() && !panicked ==> AnyOrder(ctxDone, e, out[|errs|..])
      ensures UnambiguousGenerics() && !panicked ==> multiset(out) == multiset(errs) + AnyWalk(ctxDone, e)
      decreases e, 2
    {
      match e
      case IfaceV(Some(x)) =>
        out, panicked := ValidateRecursive(ctxDone, x, errs);
      case _ =>
        out, panicked := ValidateRecursive(ctxDone, e, errs);
    }

    /** Validate's result as a multiset: nothing for a nil pointer or a non-struct,
        otherwise everything the walk collects. */
    ghost function Validated(ctxDone: bool, obj: Value): multiset<Err> {
      if IsStructLike(obj) then Walk(ctxDone, obj) else multiset{}
    }

    /** Validate: nil pointers and values that are not structs are not examined; otherwise
        the joined error holds every error the walk appended, and there is no error when it
        appended none. When the walk panics, Validate returns nothing. */
    method Validate(ctxDone: bool, obj: Value) returns (err: Option<seq<Err>>, panicked: bool)
      requires Valid()
      modifies this
      ensures Valid()
      ensures !IsStructLike(obj) ==> err == None && !panicked
      ensures panicked ==> err == None
      ensures err.Some? ==> |err.value| > 0
      ensures IsStructLike(obj) && ctxDone ==> err == Some([Cancelled]) && !panicked
      ensures UnambiguousGenerics() ==> panicked == (IsStructLike(obj) && WalkPanics(ctxDone, obj))
      ensures UnambiguousGenerics() && !panicked && IsStructLike(obj) ==>
        WalkOrder(ctxDone, obj, if err.Some? then err.value else [])
      ensures UnambiguousGenerics() && !panicked ==>
        (if err.Some? then multiset(err.value) else multiset{}) == Validated(ctxDone, obj)
    {
      panicked := false;
      var val := obj;
      if val.PtrV? {
        if val.elem.None? {
          return None, false;
        }
        val := val.elem.value;
      }
      if !val.StructV? {
        return None, false;
      }
      var allErrors;
      allErrors, panicked := ValidateRecursive(ctxDone, obj, []);
      assert allErrors[0..] == allErrors;
      if panicked {
        return None, true;
      }
      if |allErrors| > 0 {
        return Some(allErrors), false;
      }
      return None, false;
    }

    // -------------------------------------------------------------------------
    // Properties of the walk

    /** Every error of the adapter path is about the adapter's target rule set: a
        violation names the target type and either no field or a field with rules. */
    lemma AdapterErrorsShape(s: Value, e: Err)
      requires s.StructV? && e in AdapterErrors(s)
      ensures e != Cancelled
      ensures s.typ in adapters && adapters[s.typ].targetName in rules
      ensures e.Invalid? ==> (e.v.typeName == adapters[s.typ].targetName
        && (e.v.fieldName == "" || e.v.fieldName in rules[adapters[s.typ].targetName].fieldRules))
    {
      var name := adapters[s.typ].targetName;
      var rs := rules[name];
      var run := adapters[s.typ].adapter.run(s);
      if run.Success? && run.value.Some? {
        var m := run.value.value;
        var input := MapInput(AdaptAll(m));
        AdaptedErrorsSplit(s, e, m);
        if e in TypeRulesErrors(engine, ObjectEnv, rs.typeRules, input, name, false) {
          TypeRulesErrorsSpec(engine, ObjectEnv, rs.typeRules, input, name, false);
        } else {
          AdapterFieldsShape(name, m, rs, e);
        }
      }
    }

    lemma AdaptedErrorsSplit(s: Value, e: Err, m: map<string, Value>)
      requires s.StructV? && e in AdapterErrors(s)
      requires adapters[s.typ].adapter.run(s) == Success(Some(m))
      ensures var name := adapters[s.typ].targetName; var rs := rules[name];
        e in TypeRulesErrors(engine, ObjectEnv, rs.typeRules, MapInput(AdaptAll(m)), name, false)
        || e in SumOver(rs.fieldRules.Keys, AdapterFieldFn(name, m, rs))
    {
    }

    /** An error of the adapter path's field rules names a field that has rules. */
    lemma AdapterFieldsShape(name: string, m: map<string, Value>, rs: RuleSet, e: Err)
      requires e in SumOver(rs.fieldRules.Keys, AdapterFieldFn(name, m, rs))
      ensures e != Cancelled && (e.Invalid? ==> e.v.typeName == name && e.v.fieldName in rs.fieldRules)
    {
      var f := AdapterFieldFn(name, m, rs);
      SumOverMember(rs.fieldRules.Keys, f, e);
      var k :| k in rs.fieldRules.Keys && e in f(k);
      FieldEntryShape(rs.fieldRules[k], DereferenceAndAdapt(m[k]), name, k, false, e);
    }

    /** An error of one field's rules names that field. */
    lemma FieldEntryShape(fieldRules: seq<string>, b: Bound, typeName: string, fieldName: string, native: bool, e: Err)
      requires e in multiset(FieldRulesErrors(engine, fieldRules, b, typeName, fieldName, native))
      ensures e != Cancelled
      ensures e.Invalid? ==> e.v.typeName == typeName && e.v.fieldName == fieldName
    {
      FieldRulesErrorsSpec(engine, fieldRules, b, typeName, fieldName, native);
    }

    /** Every error of the native path is about the type's own rule set. */
    lemma NativeErrorsShape(s: Value, e: Err)
      requires s.StructV? && e in NativeErrors(s)
      ensures e != Cancelled
      ensures TypeNameOf(s.typ) in rules
      ensures e.Invalid? ==> (e.v.typeName == TypeNameOf(s.typ)
        && (e.v.fieldName == "" || e.v.fieldName in rules[TypeNameOf(s.typ)].fieldRules))
    {
      var name := TypeNameOf(s.typ);
      var rs := rules[name];
      if engine.nativeEnvError(s.typ).None? {
        var input := SelfInput(Plain(s));
        NativeErrorsSplit(s, e);
        if e in TypeRulesErrors(engine, NativeEnv(s.typ), rs.typeRules, input, name, true) {
          TypeRulesErrorsSpec(engine, NativeEnv(s.typ), rs.typeRules, input, name, true);
        } else {
          NativeFieldsShape(name, s.fields, rs, e);
        }
      }
    }

    lemma NativeErrorsSplit(s: Value, e: Err)
      requires s.StructV? && e in NativeErrors(s) && engine.nativeEnvError(s.typ).None?
      ensures var name := TypeNameOf(s.typ); var rs := rules[name];
        e in TypeRulesErrors(engine, NativeEnv(s.typ), rs.typeRules, SelfInput(Plain(s)), name, true)
        || e in SumOver(rs.fieldRules.Keys, NativeFieldFn(name, s.fields, rs))
    {
    }

    /** An error of the native path's field rules names a field that has rules. */
    lemma NativeFieldsShape(name: string, fs: seq<FieldV>, rs: RuleSet, e: Err)
      requires e in SumOver(rs.fieldRules.Keys, NativeFieldFn(name, fs, rs))
      ensures e != Cancelled && (e.Invalid? ==> e.v.typeName == name && e.v.fieldName in rs.fieldRules)
    {
      var f := NativeFieldFn(name, fs, rs);
      SumOverMember(rs.fieldRules.Keys, f, e);
      var k :| k in rs.fieldRules.Keys && e in f(k);
      var b := NativeBound(FieldByName(fs, k).value.value);
      FieldEntryShape(rs.fieldRules[k], b, name, k, true, e);
    }

    /** A struct with no rule set of its own, or on the adapter path without an adapter,
        contributes nothing itself; its fields are still walked. */
    lemma UnruledStructWalksFields(ctxDone: bool, s: Value)
      requires s.StructV? && !ctxDone
      requires if IsNativeType(s.typ) then TypeNameOf(s.typ) !in rules
               else s.typ !in adapters || adapters[s.typ].targetName !in rules
      ensures Walk(ctxDone, s) == FieldsWalk(ctxDone, s.fields)
      ensures Walk(ctxDone, PtrV(Some(s))) == FieldsWalk(ctxDone, s.fields)
    {
      if IsNativeType(s.typ) {
        assert NativeErrors(s) == multiset{};
      } else {
        assert AdapterErrors(s) == multiset{};
      }
    }

    /** An adapter that fails yields exactly one fatal error for the object. */
    lemma AdapterFailureIsFatal(s: Value, msg: string)
      requires s.StructV? && !IsNativeType(s.typ) && s.typ in adapters
      requires adapters[s.typ].targetName in rules
      requires adapters[s.typ].adapter.run(s) == Failure(msg)
      ensures OwnErrors(s) == multiset{Fatal(NewFatalError("TypeAdapter error for " + adapters[s.typ].targetName + ": " + msg))}
    {
    }

    /** A rule on an unexported field that is not a nil pointer makes the walk panic once
        the struct is on the native path and its environment exists, whether the struct is
        given directly or behind a pointer. */
    lemma UnexportedRuledFieldPanics(s: Value, f: FieldV)
      requires s.StructV? && IsNativeType(s.typ) && engine.nativeEnvError(s.typ).None?
      requires TypeNameOf(s.typ) in rules && f.name in rules[TypeNameOf(s.typ)].fieldRules
      requires Named(s.fields, f.name) == [f] && !f.exported && f.value != PtrV(None)
      ensures WalkPanics(false, s) && WalkPanics(false, PtrV(Some(s)))
    {
      assert FieldPanics(s.fields, f.name);
    }

    /** The walk reports a cancelled context once for the object and nothing else. */
    lemma CancelledWalk(obj: Value)
      ensures Walk(true, obj) == multiset{Cancelled}
      ensures IsStructLike(obj) ==> Validated(true, obj) == multiset{Cancelled}
    {
    }

    /** Recursion reaches every exported field: what the walk collects for such a field is
        part of what it collects for the struct holding it. */
    lemma {:induction false} FieldsWalkIncludes(ctxDone: bool, fs: seq<FieldV>, i: int)
      requires 0 <= i < |fs|
      ensures ChildWalk(ctxDone, fs[i]) <= FieldsWalk(ctxDone, fs)
    {
      if i > 0 {
        FieldsWalkIncludes(ctxDone, fs[1..], i - 1);
        assert fs[1..][i - 1] == fs[i];
      }
    }

    /** Every element of an exported slice field is walked. */
    lemma {:induction false} ElemsWalkIncludes(ctxDone: bool, es: seq<Value>, j: int)
      requires 0 <= j < |es|
      ensures AnyWalk(ctxDone, es[j]) <= ElemsWalk(ctxDone, es)
    {
      if j > 0 {
        ElemsWalkIncludes(ctxDone, es[1..], j - 1);
        assert es[1..][j - 1] == es[j];
      }
    }

    /** Every value of an exported map field is walked. */
    lemma {:induction false} EntriesWalkIncludes(ctxDone: bool, entries: seq<Entry>, j: int)
      requires 0 <= j < |entries|
      ensures AnyWalk(ctxDone, entries[j].val) <= EntriesWalk(ctxDone, entries)
    {
      if j > 0 {
        EntriesWalkIncludes(ctxDone, entries[1..], j - 1);
        assert entries[1..][j - 1] == entries[j];
      }
    }

    /** Nested structs are validated whether or not the outer type has rules: a struct
        field, a non-nil pointer-to-struct field, and the struct elements of slice and map
        fields all contribute their whole walk. */
    lemma NestedStructsWalked(s: Value, i: int)
      requires s.StructV? && 0 <= i < |s.fields| && s.fields[i].exported
      ensures var v := s.fields[i].value;
        (v.StructV? || (v.PtrV? && v.elem.Some? && v.elem.value.StructV?)) ==> Walk(false, v) <= Walk(false, s)
      ensures var v := s.fields[i].value;
        v.SliceV? ==> forall j :: 0 <= j < |v.elems| ==> AnyWalk(false, v.elems[j]) <= Walk(false, s)
      ensures var v := s.fields[i].value;
        v.MapV? ==> forall j :: 0 <= j < |v.entries| ==> AnyWalk(false, v.entries[j].val) <= Walk(false, s)
    {
      FieldsWalkIncludes(false, s.fields, i);
      var v := s.fields[i].value;
      if v.SliceV? {
        forall j | 0 <= j < |v.elems|
          ensures AnyWalk(false, v.elems[j]) <= Walk(false, s)
        {
          ElemsWalkIncludes(false, v.elems, j);
        }
      }
      if v.MapV? {
        forall j | 0 <= j < |v.entries|
          ensures AnyWalk(false, v.entries[j].val) <= Walk(false, s)
        {
          EntriesWalkIncludes(false, v.entries, j);
        }
      }
    }

    /** Map keys are never walked: two maps with the same values in the same iteration
        order collect the same errors. */
    lemma {:induction false} EntriesWalkIgnoresKeys(ctxDone: bool, a: seq<Entry>, b: seq<Entry>)
      requires |a| == |b| && forall j :: 0 <= j < |a| ==> a[j].val == b[j].val
      ensures EntriesWalk(ctxDone, a) == EntriesWalk(ctxDone, b)
    {
      if a != [] {
        EntriesWalkIgnoresKeys(ctxDone, a[1..], b[1..]);
      }
    }

    /** With the context live, the walk never reports cancellation: the own errors of every
        struct visited are rule errors only. */
    lemma OwnErrorsNotCancelled(s: Value)
      requires s.StructV?
      ensures Cancelled !in OwnErrors(s)
    {
      if Cancelled in OwnErrors(s) {
        if IsNativeType(s.typ) {
          NativeErrorsShape(s, Cancelled);
        } else {
          AdapterErrorsShape(s, Cancelled);
        }
      }
    }

    lemma {:induction false} WalkNotCancelled(obj: Value)
      ensures Cancelled !in Walk(false, obj)
      decreases obj, 1
    {
      match obj
      case StructV(_, _) => StructWalkNotCancelled(obj);
      case PtrV(Some(x)) =>
        if x.StructV? {
          StructWalkNotCancelled(x);
        }
      case _ =>
    }

    lemma {:induction false} StructWalkNotCancelled(s: Value)
      requires s.StructV?
      ensures Cancelled !in StructWalk(false, s)
      decreases s, 0
    {
      OwnErrorsNotCancelled(s);
      FieldsWalkNotCancelled(s.fields);
    }

    lemma {:induction false} FieldsWalkNotCancelled(fs: seq<FieldV>)
      ensures Cancelled !in FieldsWalk(false, fs)
      decreases fs, 2
    {
      if fs != [] {
        ChildWalkNotCancelled(fs[0]);
        FieldsWalkNotCancelled(fs[1..]);
      }
    }

    lemma {:induction false} ChildWalkNotCancelled(f: FieldV)
      ensures Cancelled !in ChildWalk(false, f)
      decreases f, 0
    {
      if f.exported {
        match f.value
        case StructV(_, _) => WalkNotCancelled(f.value);
        case PtrV(Some(x)) => WalkNotCancelled(f.value);
        case SliceV(es) => ElemsWalkNotCancelled(es);
        case MapV(entries) => EntriesWalkNotCancelled(entries);
        case _ =>
      }
    }

    lemma {:induction false} AnyWalkNotCancelled(e: Value)
      ensures Cancelled !in AnyWalk(false, e)
      decreases e, 2
    {
      match e
      case IfaceV(Some(x)) => WalkNotCancelled(x);
      case _ => WalkNotCancelled(e);
    }

    lemma {:induction false} ElemsWalkNotCancelled(es: seq<Value>)
      ensures Cancelled !in ElemsWalk(false, es)
      decreases es, 3
    {
      if es != [] {
        AnyWalkNotCancelled(es[0]);
        ElemsWalkNotCancelled(es[1..]);
      }
    }

    lemma {:induction false} EntriesWalkNotCancelled(entries: seq<Entry>)
      ensures Cancelled !in EntriesWalk(false, entries)
      decreases entries, 4
    {
      if entries != [] {
        EntryWalkNotCancelled(entries[0]);
        EntriesWalkNotCancelled(entries[1..]);
      }
    }

    lemma {:induction false} EntryWalkNotCancelled(entry: Entry)
      ensures Cancelled !in EntryWalk(false, entry)
      decreases entry, 3
    {
      AnyWalkNotCancelled(entry.val);
    }
  }

  // ---------------------------------------------------------------------------
  // Options and construction

  /** A ValidatorOption. A rule provider is given by the answer its GetRuleSets gives; the
      logger only affects logging; a WithTypes argument is given by its type, a pointer
      argument by its element type. */
  datatype ValidatorOption =
    | WithEngine(engine: Engine)
    | WithRuleProvider(answer: Result<map<string, RuleSet>, string>)
    | WithLogger
    | WithTypeAdapters(adapters: map<TypeId, AdapterTarget>)
    | WithTypes(types: seq<TypeId>)

  /** The contents of validatorOptions. */
  datatype Settings = Settings(engine: Option<Engine>, provider: Option<Result<map<string, RuleSet>, string>>,
                               adapters: map<TypeId, AdapterTarget>, types: seq<TypeId>)

  const DefaultSettings := Settings(None, None, map[], [])

  /** What one option does to the options: engine and provider are replaced, adapters are
      merged in with the option's entries winning, types are appended. */
  function ApplyOption(s: Settings, opt: ValidatorOption): (r: Settings)
    ensures opt.WithTypeAdapters? ==> r.adapters.Keys == s.adapters.Keys + opt.adapters.Keys
  {
    match opt
    case WithEngine(e) => s.(engine := Some(e))
    case WithRuleProvider(p) => s.(provider := Some(p))
    case WithLogger => s
    case WithTypeAdapters(a) => s.(adapters := s.adapters + a)
    case WithTypes(ts) => s.(types := s.types + ts)
  }

  /** The options after applying `opts` in order to the defaults. */
  function Applied(opts: seq<ValidatorOption>): Settings {
    if opts == [] then DefaultSettings
    else ApplyOption(Applied(opts[..|opts| - 1]), opts[|opts| - 1])
  }

  /** validatorOptions, updated in place by each option. */
  class ValidatorOptions {
    var engine: Option<Engine>
    var provider: Option<Result<map<string, RuleSet>, string>>
    var adapters: map<TypeId, AdapterTarget>
    var types: seq<TypeId>

    function Current(): Settings
      reads this
    {
      Settings(engine, provider, adapters, types)
    }

    constructor()
      ensures Current() == DefaultSettings
    {
      engine := None;
      provider := None;
      adapters := map[];
      types := [];
    }

    /** Calling one option on the options. */
    method Apply(opt: ValidatorOption)
      modifies this
      ensures Current() == ApplyOption(old(Current()), opt)
    {
      match opt
      case WithEngine(e) => engine := Some(e);
      case WithRuleProvider(p) => provider := Some(p);
      case WithLogger =>
      case WithTypeAdapters(a) => adapters := MergeAdapters(adapters, a);
      case WithTypes(ts) => types := types + ts;
    }
  }

  /** The copy loop of WithTypeAdapters: every entry of `added` overwrites. */
  method MergeAdapters(into: map<TypeId, AdapterTarget>, added: map<TypeId, AdapterTarget>)
    returns (r: map<TypeId, AdapterTarget>)
    ensures r.Keys == into.Keys + added.Keys
    ensures forall t :: t in added ==> r[t] == added[t]
    ensures forall t :: t in into && t !in added ==> r[t] == into[t]
  {
    r := into;
    var todo := added.Keys;
    while todo != {}
      invariant todo <= added.Keys
      invariant r.Keys == into.Keys + (added.Keys - todo)
      invariant forall t :: t in added && t !in todo ==> r[t] == added[t]
      invariant forall t :: t in into && t !in added ==> r[t] == into[t]
      decreases todo
    {
      var t :| t in todo;
      r := r[t := added[t]];
      todo := todo - {t};
    }
  }

  /** Adapter options merge with the last one winning: a type has an adapter exactly when
      some WithTypeAdapters option names it, and it is the one from the last such option. */
  lemma {:induction false} AppliedAdapters(opts: seq<ValidatorOption>, t: TypeId)
    ensures t in Applied(opts).adapters <==>
      (exists i :: 0 <= i < |opts| && opts[i].WithTypeAdapters? && t in opts[i].adapters)
    ensures forall i ::
              0 <= i < |opts| && opts[i].WithTypeAdapters? && t in opts[i].adapters
              && (forall j :: i < j < |opts| && opts[j].WithTypeAdapters? ==> t !in opts[j].adapters)
              ==> Applied(opts).adapters[t] == opts[i].adapters[t]
  {
    if opts != [] {
      var init := opts[..|opts| - 1];
      var last := opts[|opts| - 1];
      AppliedAdapters(init, t);
      assert forall i :: 0 <= i < |init| ==> init[i] == opts[i];
      assert Applied(opts) == ApplyOption(Applied(init), last);
      if last.WithTypeAdapters? && t in last.adapters {
        assert Applied(opts).adapters[t] == last.adapters[t];
        forall i | 0 <= i < |opts| && opts[i].WithTypeAdapters? && t in opts[i].adapters
                   && (forall j :: i < j < |opts| && opts[j].WithTypeAdapters? ==> t !in opts[j].adapters)
          ensures Applied(opts).adapters[t] == opts[i].adapters[t]
        {
          assert i == |opts| - 1 by {
            assert opts[|opts| - 1] == last;
          }
        }
      } else {
        assert t in Applied(opts).adapters <==> t in Applied(init).adapters;
        assert t in Applied(opts).adapters ==> Applied(opts).adapters[t] == Applied(init).adapters[t];
        forall i | 0 <= i < |opts| && opts[i].WithTypeAdapters? && t in opts[i].adapters
                   && (forall j :: i < j < |opts| && opts[j].WithTypeAdapters? ==> t !in opts[j].adapters)
          ensures Applied(opts).adapters[t] == opts[i].adapters[t]
        {
          assert i < |init|;
          assert init[i] == opts[i];
        }
      }
    }
  }

  /** WithTypes options accumulate: the native types are exactly the ones some WithTypes
      option names. */
  lemma {:induction false} AppliedTypes(opts: seq<ValidatorOption>, t: TypeId)
    ensures t in Applied(opts).types <==>
      (exists i :: 0 <= i < |opts| && opts[i].WithTypes? && t in opts[i].types)
  {
    if opts != [] {
      var init := opts[..|opts| - 1];
      AppliedTypes(init, t);
      assert forall i :: 0 <= i < |init| ==> init[i] == opts[i];
    }
  }

  /** The last WithEngine option decides the engine. */
  lemma {:induction false} AppliedEngine(opts: seq<ValidatorOption>)
    ensures Applied(opts).engine.None? <==> forall i :: 0 <= i < |opts| ==> !opts[i].WithEngine?
    ensures forall i ::
              0 <= i < |opts| && opts[i].WithEngine? && (forall j :: i < j < |opts| ==> !opts[j].WithEngine?)
              ==> Applied(opts).engine == Some(opts[i].engine)
  {
    if opts != [] {
      var init := opts[..|opts| - 1];
      AppliedEngine(init);
      assert forall i :: 0 <= i < |init| ==> init[i] == opts[i];
    }
  }

  /** The first of `types` whose native environment cannot be created, if any. */
  function FirstEnvFailure(engine: Engine, types: seq<TypeId>): (r: Option<TypeId>)
    ensures r.None? <==> forall i :: 0 <= i < |types| ==> engine.nativeEnvError(types[i]).None?
    ensures r.Some? ==> r.value in types && engine.nativeEnvError(r.value).Some?
  {
    if types == [] then None
    else if engine.nativeEnvError(types[0]).Some? then Some(types[0])
    else
      var r := FirstEnvFailure(engine, types[1..]);
      assert forall i :: 1 <= i < |types| ==> types[i] == types[1..][i - 1];
      r
  }

  /** The engine NewValidator uses: the option's, or the default one. */
  function ChosenEngine(s: Settings, newEngine: Result<Engine, string>): Result<Engine, string> {
    match s.engine
    case Some(e) => Success(e)
    case None => newEngine
  }

  /** The rule sets NewValidator loads: the provider's answer, or the registry's contents. */
  function LoadedRules(s: Settings, registry: map<string, RuleSet>): Result<map<string, RuleSet>, string> {
    match s.provider
    case Some(answer) => answer
    case None => Success(registry)
  }

  /** The error NewValidator returns, if any: the checks in the order the constructor makes
      them. `newEngine` is what creating the default engine gives. */
  function ConstructionError(opts: seq<ValidatorOption>, newEngine: Result<Engine, string>,
                             registry: map<string, RuleSet>): Option<string>
  {
    var s := Applied(opts);
    match ChosenEngine(s, newEngine)
    case Failure(e) => Some("failed to create default engine: " + e)
    case Success(engine) =>
      match LoadedRules(s, registry)
      case Failure(e) => Some("failed to get rule sets: " + e)
      case Success(_) => EnvError(engine, s.types)
  }

  /** The environment checks that close NewValidator, once engine and rules are known. */
  function EnvError(engine: Engine, types: seq<TypeId>): Option<string> {
    if engine.objectEnvError.Some? then
      Some("failed to create object CEL environment: " + engine.objectEnvError.value)
    else if engine.fieldEnvError.Some? then
      Some("failed to create field CEL environment: " + engine.fieldEnvError.value)
    else
      match FirstEnvFailure(engine, types)
      case Some(t) =>
        Some("failed to create initial native env for " + TypeText(t) + ": "
             + NativeEnvMessage(t, engine.nativeEnvError(t).value))
      case None => None
  }

  /** The option loop at the start of NewValidator. */
  method ApplyOptions(opts: seq<ValidatorOption>) returns (options: ValidatorOptions)
    ensures fresh(options) && options.Current() == Applied(opts)
  {
    options := new ValidatorOptions();
    for i := 0 to |opts|
      invariant options.Current() == Applied(opts[..i])
    {
      assert opts[..i + 1][..i] == opts[..i];
      options.Apply(opts[i]);
    }
    assert opts[..|opts|] == opts;
  }

  /** The loop pre-creating a native environment for each WithTypes type, in order; it
      stops at the first failure. */
  method CreateInitialEnvs(v: Validator, types: seq<TypeId>) returns (err: Option<string>)
    requires v.Valid() && v.nativeEnvs == {}
    modifies v
    ensures v.Valid()
    ensures err.None? <==> FirstEnvFailure(v.engine, types).None?
    ensures err.Some? ==> var t := FirstEnvFailure(v.engine, types).value;
      err.value == "failed to create initial native env for " + TypeText(t) + ": "
                   + NativeEnvMessage(t, v.engine.nativeEnvError(t).value)
    ensures err.None? ==> v.nativeEnvs == set t | t in types
  {
    for i := 0 to |types|
      invariant v.Valid()
      invariant v.nativeEnvs == set t | t in types[..i]
      invariant FirstEnvFailure(v.engine, types) == FirstEnvFailure(v.engine, types[i..])
    {
      var envErr := v.GetNativeEnv(types[i]);
      if envErr.Some? {
        return Some("failed to create initial native env for " + TypeText(types[i]) + ": " + envErr.value);
      }
      assert types[i..][1..] == types[i + 1..];
      assert types[..i + 1] == types[..i] + [types[i]];
    }
    assert types[..|types|] == types;
    return None;
  }

  /** NewValidator: either an error, or a validator holding the chosen engine, the loaded
      rule sets, the merged adapters and the WithTypes types, with a native environment
      created for each of those types. */
  method NewValidator(opts: seq<ValidatorOption>, newEngine: Result<Engine, string>, registry: Registry.Registry)
    returns (v: Validator?, err: Option<string>)
    ensures err == ConstructionError(opts, newEngine, registry.entries)
    ensures v == null <==> err.Some?
    ensures v != null ==> (fresh(v) && v.Valid()
      && v.engine == ChosenEngine(Applied(opts), newEngine).value
      && v.rules == LoadedRules(Applied(opts), registry.entries).value
      && v.adapters == Applied(opts).adapters
      && v.nativeTypes == (set t | t in Applied(opts).types)
      && v.nativeEnvs == v.nativeTypes)
  {
    var options := ApplyOptions(opts);
    ghost var s := Applied(opts);

    var engine: Engine;
    if options.engine.None? {
      if newEngine.Failure? {
        return null, Some("failed to create default engine: " + newEngine.error);
      }
      engine := newEngine.value;
    } else {
      engine := options.engine.value;
    }
    assert ChosenEngine(s, newEngine) == Success(engine);

    var rules: map<string, RuleSet>;
    if options.provider.None? {
      var provider := new Registry.RegistryProvider(registry);
      var got, getErr := provider.GetRuleSets();
      rules := got;
    } else {
      if options.provider.value.Failure? {
        return null, Some("failed to get rule sets: " + options.provider.value.error);
      }
      rules := options.provider.value.value;
    }
    assert LoadedRules(s, registry.entries) == Success(rules);

    v, err := BuildValidator(engine, rules, options.adapters, options.types);
  }

  /** The end of NewValidator: check the shared environments, then build the validator
      and pre-create the native environments of the WithTypes types. */
  method BuildValidator(engine: Engine, rules: map<string, RuleSet>, adapters: map<TypeId, AdapterTarget>,
                        types: seq<TypeId>) returns (v: Validator?, err: Option<string>)
    ensures err == EnvError(engine, types)
    ensures v == null <==> err.Some?
    ensures v != null ==> (fresh(v) && v.Valid()
      && v.engine == engine && v.rules == rules && v.adapters == adapters
      && v.nativeTypes == (set t | t in types)
      && v.nativeEnvs == v.nativeTypes)
  {
    if engine.objectEnvError.Some? {
      return null, Some("failed to create object CEL environment: " + engine.objectEnvError.value);
    }
    if engine.fieldEnvError.Some? {
      return null, Some("failed to create field CEL environment: " + engine.fieldEnvError.value);
    }
    v := new Validator(engine, rules, adapters, set t | t in types);
    err := CreateInitialEnvs(v, types);
    if err.Some? {
      v := null;
    }
  }
}
