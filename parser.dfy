/** The tag-to-CEL rule extractor of the code generator: type categories, shorthand
    expansion, the directive tree built from the comma-split `validate` tag, its
    rendering to CEL text, and the grouping of rendered pieces into per-field rules. */
module Parser {
  import opened Wrappers
  import opened Text

  // ---------------------------------------------------------------------------
  // Go types, as far as the extractor looks at them

  datatype BasicKind =
    | Bool | Int | Int8 | Int16 | Int32 | Int64
    | Uint | Uint8 | Uint16 | Uint32 | Uint64 | Uintptr
    | Float32 | Float64 | Complex64 | Complex128 | String | UnsafePointer
    | UntypedBool | UntypedInt | UntypedRune | UntypedFloat | UntypedComplex
    | UntypedString | UntypedNil | Invalid

  predicate IsStringKind(k: BasicKind) { k == String || k == UntypedString }

  predicate IsIntegerKind(k: BasicKind) {
    k in {Int, Int8, Int16, Int32, Int64, Uint, Uint8, Uint16, Uint32, Uint64, Uintptr, UntypedInt, UntypedRune}
  }

  predicate IsUnsignedKind(k: BasicKind) {
    k in {Uint, Uint8, Uint16, Uint32, Uint64, Uintptr}
  }

  predicate IsFloatKind(k: BasicKind) { k == Float32 || k == Float64 || k == UntypedFloat }

  predicate IsBooleanKind(k: BasicKind) { k == Bool || k == UntypedBool }

  /** A Go type. `Other` stands for arrays, channels, functions, structs and the rest. */
  datatype GoType =
    | Named(pkgPath: string, name: string, underlying: GoType)
    | TypeParam(paramName: string)
    | Interface
    | Basic(kind: BasicKind)
    | Pointer(elem: GoType)
    | Slice(elem: GoType)
    | Map(key: GoType, elem: GoType)
    | Other

  /** The type reached by unwrapping named types. */
  function Unnamed(t: GoType): (u: GoType)
    ensures !u.Named?
  {
    if t.Named? then Unnamed(t.underlying) else t
  }

  /** types.Type.Underlying: a type parameter's underlying type is its constraint interface. */
  function Underlying(t: GoType): (u: GoType)
    ensures !u.Named? && !u.TypeParam?
    ensures Unnamed(t).TypeParam? ==> u == Interface
    ensures !Unnamed(t).TypeParam? ==> u == Unnamed(t)
  {
    var u := Unnamed(t);
    if u.TypeParam? then Interface else u
  }

  // ---------------------------------------------------------------------------
  // Type categories

  datatype Category = StringCat | IntCat | UintCat | FloatCat | BoolCat | PtrCat | SliceCat | MapCat | OtherCat

  /** The category of a type that is not named. */
  function CategoryOfUnnamed(t: GoType): Category
    requires !t.Named?
  {
    match t
    case TypeParam(_) => PtrCat
    case Basic(k) =>
      if IsStringKind(k) then StringCat
      else if IsIntegerKind(k) then (if IsUnsignedKind(k) then UintCat else IntCat)
      else if IsFloatKind(k) then FloatCat
      else if IsBooleanKind(k) then BoolCat
      else OtherCat
    case Pointer(_) => PtrCat
    case Slice(_) => SliceCat
    case Map(_, _) => MapCat
    case Interface => PtrCat
    case Other => OtherCat
  }

  /** The category categorizeType computes. */
  function CategoryOf(t: GoType): Category {
    CategoryOfUnnamed(Unnamed(t))
  }

  /** categorizeType: unwrap named types in a loop, then classify. */
  method CategorizeType(tv: GoType) returns (c: Category)
    ensures c == CategoryOf(tv)
  {
    var t := tv;
    while t.Named?
      invariant Unnamed(t) == Unnamed(tv)
      decreases t
    {
      t := t.underlying;
    }
    match t {
      case TypeParam(_) => c := PtrCat;
      case Basic(k) =>
        if IsStringKind(k) {
          c := StringCat;
        } else if IsIntegerKind(k) {
          c := if IsUnsignedKind(k) then UintCat else IntCat;
        } else if IsFloatKind(k) {
          c := FloatCat;
        } else if IsBooleanKind(k) {
          c := BoolCat;
        } else {
          c := OtherCat;
        }
      case Pointer(_) => c := PtrCat;
      case Slice(_) => c := SliceCat;
      case Map(_, _) => c := MapCat;
      case Interface => c := PtrCat;
      case Other => c := OtherCat;
    }
  }

  /** What each category means, stated on the type reached after unwrapping names. */
  lemma CategoryClassification(t: GoType)
    ensures CategoryOf(t) == PtrCat <==>
      (Unnamed(t).TypeParam? || Unnamed(t).Pointer? || Unnamed(t).Interface?)
    ensures CategoryOf(t) == UintCat <==> Unnamed(t).Basic? && IsUnsignedKind(Unnamed(t).kind)
    ensures CategoryOf(t) == IntCat <==>
      Unnamed(t).Basic? && IsIntegerKind(Unnamed(t).kind) && !IsUnsignedKind(Unnamed(t).kind)
    ensures CategoryOf(t) == StringCat <==> Unnamed(t).Basic? && IsStringKind(Unnamed(t).kind)
    ensures CategoryOf(t) == SliceCat <==> Unnamed(t).Slice?
    ensures CategoryOf(t) == MapCat <==> Unnamed(t).Map?
  {
  }

  /** Naming a type does not change its category, however deep the naming goes. */
  lemma {:induction false} CategoryThroughNames(pkgPath: string, name: string, u: GoType)
    ensures CategoryOf(Named(pkgPath, name, u)) == CategoryOf(u)
  {
  }

  // ---------------------------------------------------------------------------
  // Shorthands

  /** A shorthand's CEL template: one for every category, or one per applicable category. */
  datatype Template = Uniform(text: string) | PerCategory(texts: map<Category, string>)

  const EmailTemplate: string := @"self.matches('^[^\\s@]+@[^\\s@]+\\.[^\\s@]+$')"

  const ShorthandCELMap: map<string, Template> := map[
    "required" := PerCategory(map[PtrCat := "self != null"]),
    "nonzero" := PerCategory(map[
      StringCat := "self != \"\"",
      IntCat := "self != 0",
      UintCat := "self != 0",
      FloatCat := "self != 0.0",
      PtrCat := "self != null",
      SliceCat := "self.size() > 0",
      MapCat := "self.size() > 0",
      BoolCat := "self"]),
    "email" := Uniform(EmailTemplate)
  ]

  /** shorthandToCEL: a `cel:` text or a shorthand's template, with every "self"
      replaced by the scope variable; "" when the shorthand is unknown or does not
      apply to the type's category. */
  function ShorthandToCEL(shorthand: string, tv: GoType, varName: string): string {
    if HasPrefix(shorthand, "cel:") then ReplaceAll(TrimPrefix(shorthand, "cel:"), "self", varName)
    else if shorthand !in ShorthandCELMap then ""
    else match ShorthandCELMap[shorthand]
      case Uniform(tpl) => ReplaceAll(tpl, "self", varName)
      case PerCategory(texts) =>
        var c := CategoryOf(tv);
        if c in texts then ReplaceAll(texts[c], "self", varName) else ""
  }

  /** `required` yields a condition exactly for pointer-like categories, and then it is
      the null check on the scope variable. */
  lemma RequiredOnlyForPtr(tv: GoType, varName: string)
    requires varName != ""
    ensures ShorthandToCEL("required", tv, varName) != "" <==> CategoryOf(tv) == PtrCat
    ensures CategoryOf(tv) == PtrCat ==>
      ShorthandToCEL("required", tv, varName) == ReplaceAll("self != null", "self", varName)
  {
    NotCel("required");
    if CategoryOf(tv) == PtrCat {
      NonEmptyReplace("self != null", varName);
    }
  }

  /** `email` expands the same way whatever the type. */
  lemma EmailUniform(tv1: GoType, tv2: GoType, varName: string)
    ensures ShorthandToCEL("email", tv1, varName) == ShorthandToCEL("email", tv2, varName)
            == ReplaceAll(EmailTemplate, "self", varName)
  {
    NotCel("email");
  }

  /** `nonzero` applies to every category except `other`. */
  lemma NonzeroCategories(tv: GoType, varName: string)
    requires varName != ""
    ensures ShorthandToCEL("nonzero", tv, varName) == "" <==> CategoryOf(tv) == OtherCat
  {
    NotCel("nonzero");
    var texts := ShorthandCELMap["nonzero"].texts;
    var c := CategoryOf(tv);
    NonzeroKeys(c);
    if c != OtherCat {
      NonEmptyReplace(texts[c], varName);
    }
  }

  lemma NonzeroKeys(c: Category)
    ensures ShorthandCELMap["nonzero"].PerCategory?
    ensures c in ShorthandCELMap["nonzero"].texts <==> c != OtherCat
  {
  }

  /** An unknown shorthand (anything not a key of the table and not a `cel:` text,
      including a known one with surrounding spaces) expands to nothing. */
  lemma UnknownShorthandDropped(shorthand: string, tv: GoType, varName: string)
    requires !HasPrefix(shorthand, "cel:") && shorthand !in ShorthandCELMap
    ensures ShorthandToCEL(shorthand, tv, varName) == ""
  {
  }

  /** At the top level the scope variable is `self`, so templates come out verbatim. */
  lemma {:induction false} TopLevelVerbatim(shorthand: string, tv: GoType)
    requires HasPrefix(shorthand, "cel:")
    ensures ShorthandToCEL(shorthand, tv, "self") == shorthand[4..]
  {
    ReplaceAllIdentity(shorthand[4..], "self");
  }

  /** Inside a directive the scope variable replaces every `self`: none is left. */
  lemma ScopedConditionHasNoSelf(shorthand: string, tv: GoType, varName: string)
    requires varName in {"x", "k", "v"}
    ensures !Contains(ShorthandToCEL(shorthand, tv, varName), "self")
  {
    assert forall i :: 0 <= i < |varName| ==> varName[i] !in "self";
    var r := ShorthandToCEL(shorthand, tv, varName);
    if HasPrefix(shorthand, "cel:") {
      ReplaceLeavesNoSelf(TrimPrefix(shorthand, "cel:"), varName);
    } else if shorthand !in ShorthandCELMap {
      assert r == "";
    } else {
      match ShorthandCELMap[shorthand] {
        case Uniform(tpl) =>
          ReplaceLeavesNoSelf(tpl, varName);
        case PerCategory(texts) =>
          if CategoryOf(tv) in texts {
            ReplaceLeavesNoSelf(texts[CategoryOf(tv)], varName);
          } else {
            assert r == "";
          }
      }
    }
  }

  lemma NonEmptyReplace(t: string, v: string)
    requires t != [] && v != []
    ensures ReplaceAll(t, "self", v) != ""
  {
  }

  lemma NotCel(s: string)
    requires s != [] && s[0] != 'c'
    ensures !HasPrefix(s, "cel:")
  {
    assert "cel:"[0] == 'c';
  }

  // ---------------------------------------------------------------------------
  // The rule tree

  datatype Directive = NoDirective | Dive | Keys | Values

  /** A parsed node. `NilRule` is the nil *Rule that parseRule returns for no input
      (for `keys` or `values` as the last token it becomes the node's only child). */
  datatype Rule =
    | NilRule
    | Rule(tv: GoType, baseVar: string, directive: Directive, subRules: seq<string>, nested: seq<Rule>)

  datatype ParseError = NonSlice(tv: GoType) | NonMap(directive: Directive, tv: GoType)

  datatype Parsed = Parsed(rule: Rule, rest: seq<string>)

  predicate IsDirectiveToken(t: string) {
    var trimmed := TrimSpace(t);
    trimmed == "dive" || trimmed == "keys" || trimmed == "values"
  }

  /** A token that ends a run of shorthands. */
  predicate EndsShorthands(t: string) {
    IsDirectiveToken(t) || HasPrefix(TrimSpace(t), "cel:")
  }

  /** Number of leading tokens a `cel:` expression absorbs: up to the next directive. */
  function CelEnd(ts: seq<string>): (end: nat)
    ensures end <= |ts|
    ensures forall i :: 0 <= i < end ==> !IsDirectiveToken(ts[i])
    ensures end < |ts| ==> IsDirectiveToken(ts[end])
  {
    if ts == [] || IsDirectiveToken(ts[0]) then 0 else 1 + CelEnd(ts[1..])
  }

  /** Number of leading tokens in a run of shorthands. */
  function ShorthandEnd(ts: seq<string>): (end: nat)
    ensures end <= |ts|
    ensures forall i :: 0 <= i < end ==> !EndsShorthands(ts[i])
    ensures end < |ts| ==> EndsShorthands(ts[end])
  {
    if ts == [] || EndsShorthands(ts[0]) then 0 else 1 + ShorthandEnd(ts[1..])
  }

  /** Each token preceded by a comma, as the `cel:` builder writes them. */
  function CommaPrefixed(ts: seq<string>): string {
    if ts == [] then "" else CommaPrefixed(ts[..|ts| - 1]) + "," + ts[|ts| - 1]
  }

  lemma {:induction false} CommaPrefixedIsJoin(ts: seq<string>)
    ensures CommaPrefixed(ts) == if ts == [] then "" else "," + Join(ts, ",")
  {
    if ts != [] {
      var init, last := ts[..|ts| - 1], ts[|ts| - 1];
      CommaPrefixedIsJoin(init);
      JoinAppend(init, last, ",");
      assert init + [last] == ts;
      if init == [] {
        assert CommaPrefixed(ts) == "" + "," + last;
      } else {
        assert CommaPrefixed(ts) == "," + Join(init, ",") + "," + last;
        AppendAssociative(",", Join(init, ",") + ",", last);
      }
    }
  }

  /** parseRule: one node from the front of the token list, and the tokens it left. */
  function ParseTree(raw: seq<string>, tv: GoType): (r: Result<Parsed, ParseError>)
    ensures r.Success? ==> |r.value.rest| <= |raw| && r.value.rest == raw[|raw| - |r.value.rest|..]
    ensures r.Success? && raw != [] ==> |r.value.rest| < |raw|
    decreases |raw|, 0
  {
    if raw == [] then Success(Parsed(NilRule, []))
    else
      var token := TrimSpace(raw[0]);
      if token == "dive" then
        match Underlying(tv)
        case Slice(elem) =>
          (match ParseAll(raw[1..], elem)
           case Success(nested) => Success(Parsed(Rule(tv, "self", Dive, [], nested), []))
           case Failure(e) => Failure(e))
        case _ => Failure(NonSlice(tv))
      else if token == "keys" || token == "values" then
        var d := if token == "keys" then Keys else Values;
        match Underlying(tv)
        case Map(key, elem) =>
          (match ParseTree(raw[1..], if d == Keys then key else elem)
           case Success(p) =>
             TailSuffix(raw, p.rest);
             Success(Parsed(Rule(tv, "self", d, [], [p.rule]), p.rest))
           case Failure(e) => Failure(e))
        case _ => Failure(NonMap(d, tv))
      else if HasPrefix(token, "cel:") then Success(CelNode(raw, tv))
      else Success(ShorthandNode(raw, tv))
  }

  /** A `cel:` node: the expression takes the following tokens, comma-joined, up to the
      next directive. */
  function CelNode(raw: seq<string>, tv: GoType): (p: Parsed)
    requires raw != []
    ensures |p.rest| < |raw| && p.rest == raw[|raw| - |p.rest|..]
  {
    var end := CelEnd(raw[1..]);
    var expr := TrimPrefix(TrimSpace(raw[0]), "cel:") + CommaPrefixed(raw[1..1 + end]);
    Parsed(Rule(tv, "self", NoDirective, ["cel:" + expr], []), raw[1 + end..])
  }

  /** A node of shorthands: the raw tokens up to the next directive or `cel:` token. */
  function ShorthandNode(raw: seq<string>, tv: GoType): (p: Parsed)
    requires raw != []
    ensures |p.rest| < |raw| ==> p.rest == raw[|raw| - |p.rest|..]
    ensures !EndsShorthands(raw[0]) ==> |p.rest| < |raw|
  {
    var end := ShorthandEnd(raw);
    Parsed(Rule(tv, "self", NoDirective, raw[..end], []), raw[end..])
  }

  /** A suffix of the tokens after the first is a suffix of all of them. */
  lemma TailSuffix(raw: seq<string>, rest: seq<string>)
    requires raw != [] && |rest| <= |raw| - 1 && rest == raw[1..][|raw| - 1 - |rest|..]
    ensures |rest| < |raw| && rest == raw[|raw| - |rest|..]
  {
  }

  /** The loop under `dive`: nodes parsed one after another until no token is left. */
  function ParseAll(ts: seq<string>, elem: GoType): (r: Result<seq<Rule>, ParseError>)
    decreases |ts|, 1
  {
    if ts == [] then Success([])
    else match ParseTree(ts, elem)
      case Failure(e) => Failure(e)
      case Success(p) =>
        match ParseAll(p.rest, elem)
        case Failure(e) => Failure(e)
        case Success(more) => Success([p.rule] + more)
  }

  /** Prepend already parsed nodes to the outcome of parsing the rest. */
  function PrependRules(done: seq<Rule>, r: Result<seq<Rule>, ParseError>): Result<seq<Rule>, ParseError> {
    match r
    case Success(more) => Success(done + more)
    case Failure(e) => Failure(e)
  }

  lemma PrependNothing(r: Result<seq<Rule>, ParseError>)
    ensures PrependRules([], r) == r
  {
    if r.Success? {
      assert [] + r.value == r.value;
    }
  }

  lemma PrependRulesTwice(a: seq<Rule>, b: seq<Rule>, r: Result<seq<Rule>, ParseError>)
    ensures PrependRules(a, PrependRules(b, r)) == PrependRules(a + b, r)
  {
    if r.Success? {
      assert a + (b + r.value) == a + b + r.value;
    }
  }

  /** parseRule as the generator runs it: dispatch on the trimmed first token. */
  method ParseRule(raw: seq<string>, tv: GoType) returns (r: Result<Parsed, ParseError>)
    ensures r == ParseTree(raw, tv)
    decreases |raw|, 1
  {
    if |raw| == 0 {
      return Success(Parsed(NilRule, []));
    }
    var token := TrimSpace(raw[0]);
    if token == "dive" {
      r := ParseDive(raw, tv);
    } else if token == "keys" || token == "values" {
      r := ParseKeysValues(raw, tv);
    } else if HasPrefix(token, "cel:") {
      r := ParseCel(raw, tv);
    } else {
      r := ParseShorthands(raw, tv);
    }
  }

  /** The `dive` case: nested rules are parsed at the element type until no token is left. */
  method ParseDive(raw: seq<string>, tv: GoType) returns (r: Result<Parsed, ParseError>)
    requires raw != [] && TrimSpace(raw[0]) == "dive"
    ensures r == ParseTree(raw, tv)
    decreases |raw|, 0
  {
    var u := Underlying(tv);
    if !u.Slice? {
      return Failure(NonSlice(tv));
    }
    var nestedRules: seq<Rule> := [];
    var remaining := raw[1..];
    PrependNothing(ParseAll(raw[1..], u.elem));
    while |remaining| > 0
      invariant |remaining| < |raw|
      invariant ParseAll(raw[1..], u.elem) == PrependRules(nestedRules, ParseAll(remaining, u.elem))
      decreases |remaining|
    {
      ghost var before := remaining;
      var nested := ParseRule(remaining, u.elem);
      if nested.Failure? {
        return Failure(nested.error);
      }
      assert ParseAll(before, u.elem) == PrependRules([nested.value.rule], ParseAll(nested.value.rest, u.elem));
      PrependRulesTwice(nestedRules, [nested.value.rule], ParseAll(nested.value.rest, u.elem));
      nestedRules := nestedRules + [nested.value.rule];
      remaining := nested.value.rest;
    }
    assert nestedRules + [] == nestedRules;
    return Success(Parsed(Rule(tv, "self", Dive, [], nestedRules), remaining));
  }

  /** The `keys` and `values` cases: one nested rule at the key or element type. */
  method ParseKeysValues(raw: seq<string>, tv: GoType) returns (r: Result<Parsed, ParseError>)
    requires raw != [] && (TrimSpace(raw[0]) == "keys" || TrimSpace(raw[0]) == "values")
    ensures r == ParseTree(raw, tv)
    decreases |raw|, 0
  {
    var d := if TrimSpace(raw[0]) == "keys" then Keys else Values;
    var u := Underlying(tv);
    if !u.Map? {
      return Failure(NonMap(d, tv));
    }
    var nested := ParseRule(raw[1..], if d == Keys then u.key else u.elem);
    if nested.Failure? {
      return Failure(nested.error);
    }
    return Success(Parsed(Rule(tv, "self", d, [], [nested.value.rule]), nested.value.rest));
  }

  /** The `cel:` case: the expression takes the following raw tokens, comma-joined, up to
      the next directive. */
  method ParseCel(raw: seq<string>, tv: GoType) returns (r: Result<Parsed, ParseError>)
    requires raw != [] && !IsDirectiveToken(raw[0]) && HasPrefix(TrimSpace(raw[0]), "cel:")
    ensures r == ParseTree(raw, tv)
  {
    var token := TrimSpace(raw[0]);
    var remaining := raw[1..];
    var built, end := AbsorbCel(TrimPrefix(token, "cel:"), remaining);
    assert remaining[..end] == raw[1..1 + end] && remaining[end..] == raw[1 + end..];
    return Success(Parsed(Rule(tv, "self", NoDirective, ["cel:" + built], []), remaining[end..]));
  }

  /** The loop of the `cel:` case: each following token up to the next directive is added
      to the expression after a comma. */
  method AbsorbCel(expr: string, remaining: seq<string>) returns (built: string, end: nat)
    ensures end == CelEnd(remaining)
    ensures built == expr + CommaPrefixed(remaining[..end])
  {
    built := expr;
    end := 0;
    while end < |remaining| && !IsDirectiveToken(remaining[end])
      invariant end <= CelEnd(remaining)
      invariant built == expr + CommaPrefixed(remaining[..end])
    {
      assert remaining[..end + 1][..end] == remaining[..end];
      AppendAssociative(expr, CommaPrefixed(remaining[..end]), "," + remaining[end]);
      built := built + ("," + remaining[end]);
      end := end + 1;
    }
  }

  /** A run of shorthands, kept as the raw tokens. */
  method ParseShorthands(raw: seq<string>, tv: GoType) returns (r: Result<Parsed, ParseError>)
    requires raw != [] && !EndsShorthands(raw[0])
    ensures r == ParseTree(raw, tv)
  {
    var end := 0;
    while end < |raw| && !EndsShorthands(raw[end])
      invariant end <= ShorthandEnd(raw)
    {
      end := end + 1;
    }
    return Success(Parsed(Rule(tv, "self", NoDirective, raw[..end], []), raw[end..]));
  }

  // ---------------------------------------------------------------------------
  // Properties of parsing

  /** `dive` takes every remaining token as its nested rules. */
  lemma DiveConsumesAll(raw: seq<string>, tv: GoType)
    requires raw != [] && TrimSpace(raw[0]) == "dive"
    ensures ParseTree(raw, tv).Success? <==> Underlying(tv).Slice? && ParseAll(raw[1..], Underlying(tv).elem).Success?
    ensures ParseTree(raw, tv).Success? ==>
      ParseTree(raw, tv).value.rest == [] &&
      ParseTree(raw, tv).value.rule.nested == ParseAll(raw[1..], Underlying(tv).elem).value
  {
  }

  /** `keys` and `values` take exactly one nested node, parsed at the key or element type. */
  lemma KeysValuesTakeOneGroup(raw: seq<string>, tv: GoType)
    requires raw != [] && TrimSpace(raw[0]) in {"keys", "values"}
    ensures !Underlying(tv).Map? ==> ParseTree(raw, tv).Failure?
    ensures Underlying(tv).Map? ==>
      var sub := if TrimSpace(raw[0]) == "keys" then Underlying(tv).key else Underlying(tv).elem;
      var inner := ParseTree(raw[1..], sub);
      (ParseTree(raw, tv).Success? <==> inner.Success?) &&
      (inner.Success? ==>
        ParseTree(raw, tv).value.rule.nested == [inner.value.rule] &&
        ParseTree(raw, tv).value.rest == inner.value.rest)
  {
  }

  /** `keys` or `values` as the last token gives a node whose only child is nil. */
  lemma TrailingKeysGivesNilChild(tok: string, key: GoType, elem: GoType)
    requires tok in {"keys", "values"}
    ensures ParseTree([tok], Map(key, elem)).Success?
    ensures ParseTree([tok], Map(key, elem)).value.rule.nested == [NilRule]
  {
    TrimSpaceWord(tok);
  }

  /** `dive` on anything but a slice, and `keys`/`values` on anything but a map, are errors. */
  lemma DirectiveOnWrongType(raw: seq<string>, tv: GoType)
    requires raw != []
    ensures TrimSpace(raw[0]) == "dive" && !Underlying(tv).Slice? ==> ParseTree(raw, tv) == Failure(NonSlice(tv))
    ensures TrimSpace(raw[0]) == "keys" && !Underlying(tv).Map? ==> ParseTree(raw, tv) == Failure(NonMap(Keys, tv))
    ensures TrimSpace(raw[0]) == "values" && !Underlying(tv).Map? ==> ParseTree(raw, tv) == Failure(NonMap(Values, tv))
  {
  }

  /** A run of shorthands stops at the first directive or `cel:` token; its tokens are
      kept as written, spaces included. */
  lemma ShorthandGroupStops(raw: seq<string>, tv: GoType)
    requires raw != [] && !EndsShorthands(raw[0])
    ensures var p := ParseTree(raw, tv).value;
      p.rule.subRules + p.rest == raw && p.rule.subRules != [] &&
      (forall t :: t in p.rule.subRules ==> !EndsShorthands(t)) &&
      (p.rest != [] ==> EndsShorthands(p.rest[0]))
  {
    var end := ShorthandEnd(raw);
    assert raw[..end] + raw[end..] == raw;
    forall t | t in raw[..end] ensures !EndsShorthands(t) {
      var i :| 0 <= i < end && raw[..end][i] == t;
    }
  }

  /** A `cel:` token takes the following tokens, re-joined with commas, up to the next
      directive; a further `cel:` token does not stop it. */
  lemma CelAbsorbsUntilDirective(raw: seq<string>, tv: GoType)
    requires raw != [] && HasPrefix(TrimSpace(raw[0]), "cel:") && !IsDirectiveToken(raw[0])
    ensures ParseTree(raw, tv).Success?
    ensures var p := ParseTree(raw, tv).value;
      var end := |raw| - 1 - |p.rest|;
      0 <= end && p.rest == raw[1 + end..]
    ensures var p := ParseTree(raw, tv).value;
      var end := |raw| - 1 - |p.rest|;
      p.rule.subRules == ["cel:" + TrimSpace(raw[0])[4..] +
                          (if end == 0 then "" else "," + Join(raw[1..1 + end], ","))]
    ensures var p := ParseTree(raw, tv).value;
      var end := |raw| - 1 - |p.rest|;
      (forall i :: 1 <= i <= end ==> !IsDirectiveToken(raw[i]))
    ensures var p := ParseTree(raw, tv).value;
      (p.rest != [] ==> IsDirectiveToken(p.rest[0]))
  {
    var end := CelEnd(raw[1..]);
    CelParse(raw, tv);
    CommaPrefixedIsJoin(raw[1..1 + end]);
    forall i | 1 <= i <= end ensures !IsDirectiveToken(raw[i]) {
      assert raw[i] == raw[1..][i - 1];
    }
  }

  /** The `cel:` case of ParseTree with the absorbed tokens as slices of the input. */
  lemma CelParse(raw: seq<string>, tv: GoType)
    requires raw != [] && HasPrefix(TrimSpace(raw[0]), "cel:") && !IsDirectiveToken(raw[0])
    ensures var end := CelEnd(raw[1..]);
      ParseTree(raw, tv) == Success(Parsed(Rule(tv, "self", NoDirective,
        ["cel:" + TrimSpace(raw[0])[4..] + CommaPrefixed(raw[1..1 + end])], []), raw[1 + end..]))
  {
    var token := TrimSpace(raw[0]);
    var end := CelEnd(raw[1..]);
    assert token != "dive" && token != "keys" && token != "values";
    assert TrimPrefix(token, "cel:") == token[4..];
    AppendAssociative("cel:", token[4..], CommaPrefixed(raw[1..1 + end]));
  }

  lemma TrimSpaceWord(w: string)
    requires w in {"dive", "keys", "values"}
    ensures TrimSpace(w) == w
  {
  }

  // ---------------------------------------------------------------------------
  // Rendering (Rule.ToCEL)

  function Size(r: Rule): nat {
    if r.NilRule? then 1 else 1 + SizeAll(r.nested)
  }

  function SizeAll(rs: seq<Rule>): nat {
    if rs == [] then 0 else Size(rs[0]) + SizeAll(rs[1..])
  }

  /** The scope variable a directive introduces. */
  function VarName(d: Directive): string {
    match d
    case Dive => "x"
    case Keys => "k"
    case Values => "v"
    case NoDirective => ""
  }

  datatype RenderError = NilDereference

  /** An empty shorthand is skipped; any other is expanded. */
  function Expansion(shorthand: string, tv: GoType, baseVar: string): string {
    if shorthand == "" then "" else ShorthandToCEL(shorthand, tv, baseVar)
  }

  /** The non-empty expansions of a leaf's non-empty shorthands, in order. */
  function Conditions(subRules: seq<string>, tv: GoType, baseVar: string): (cs: seq<string>)
    ensures forall i :: 0 <= i < |cs| ==> cs[i] != ""
    ensures |cs| <= |subRules|
  {
    if subRules == [] then []
    else
      var c := Expansion(subRules[0], tv, baseVar);
      (if c == "" then [] else [c]) + Conditions(subRules[1..], tv, baseVar)
  }

  /** The CEL text of a directive: the `all` macro on the base variable, binding the
      scope variable in the body. */
  function AllOf(base: string, v: string, body: string): string {
    base + ".all(" + v + ", " + body + ")"
  }

  /** Rule.ToCEL: a leaf joins its conditions with " && "; a directive renders
      `<base>.all(<var>, <children joined by " && ">)`, each child rendered with the
      directive's variable as its base. A nil child is dereferenced and panics. */
  function Render(r: Rule): Result<string, RenderError>
    decreases Size(r), 0
  {
    match r
    case NilRule => Failure(NilDereference)
    case Rule(_, baseVar, d, _, nested) =>
      if d == NoDirective then Success(Join(Conditions(r.subRules, r.tv, baseVar), " && "))
      else
        match RenderNested(nested, VarName(d))
        case Failure(e) => Failure(e)
        case Success(cels) => Success(AllOf(baseVar, VarName(d), Join(cels, " && ")))
  }

  /** The children of a directive, each with its base variable set to varName first. */
  function RenderNested(ns: seq<Rule>, varName: string): Result<seq<string>, RenderError>
    decreases SizeAll(ns), 1
  {
    if ns == [] then Success([])
    else if ns[0].NilRule? then Failure(NilDereference)
    else
      assert Size(ns[0].(baseVar := varName)) == Size(ns[0]);
      match Render(ns[0].(baseVar := varName))
      case Failure(e) => Failure(e)
      case Success(c) =>
        match RenderNested(ns[1..], varName)
        case Failure(e) => Failure(e)
        case Success(more) => Success([c] + more)
  }

  function PrependStrings(done: seq<string>, r: Result<seq<string>, RenderError>): Result<seq<string>, RenderError> {
    match r
    case Success(more) => Success(done + more)
    case Failure(e) => Failure(e)
  }

  lemma PrependStringsTwice(a: seq<string>, b: seq<string>, r: Result<seq<string>, RenderError>)
    ensures PrependStrings(a, PrependStrings(b, r)) == PrependStrings(a + b, r)
  {
    if r.Success? {
      assert a + (b + r.value) == a + b + r.value;
    }
  }

  /** Rule.ToCEL as the generator runs it. */
  method ToCEL(r: Rule) returns (res: Result<string, RenderError>)
    ensures res == Render(r)
    decreases Size(r), 1
  {
    if r.NilRule? {
      return Failure(NilDereference);
    }
    if r.directive == NoDirective {
      var conditions := LeafConditions(r.subRules, r.tv, r.baseVar);
      return Success(Join(conditions, " && "));
    }
    var varName := VarName(r.directive);
    var nestedCELs := NestedToCEL(r.nested, varName);
    if nestedCELs.Failure? {
      return Failure(nestedCELs.error);
    }
    return Success(r.baseVar + ".all(" + varName + ", " + Join(nestedCELs.value, " && ") + ")");
  }

  /** The leaf loop of ToCEL: skip empty shorthands and empty expansions. */
  method LeafConditions(subRules: seq<string>, tv: GoType, baseVar: string) returns (conditions: seq<string>)
    ensures conditions == Conditions(subRules, tv, baseVar)
  {
    conditions := [];
    for i := 0 to |subRules|
      invariant Conditions(subRules, tv, baseVar) == conditions + Conditions(subRules[i..], tv, baseVar)
    {
      var shorthand := subRules[i];
      var cel := "";
      if shorthand != "" {
        cel := ShorthandToCEL(shorthand, tv, baseVar);
      }
      ConditionsStep(subRules, i, tv, baseVar);
      ghost var rest := Conditions(subRules[i + 1..], tv, baseVar);
      if cel != "" {
        assert conditions + ([cel] + rest) == (conditions + [cel]) + rest;
        conditions := conditions + [cel];
      } else {
        assert [] + rest == rest;
      }
    }
    assert subRules[|subRules|..] == [];
  }

  /** One shorthand of a leaf: its expansion, when non-empty, comes before the rest. */
  lemma ConditionsStep(subRules: seq<string>, i: nat, tv: GoType, baseVar: string)
    requires i < |subRules|
    ensures var c := Expansion(subRules[i], tv, baseVar);
      Conditions(subRules[i..], tv, baseVar)
      == (if c == "" then [] else [c]) + Conditions(subRules[i + 1..], tv, baseVar)
  {
    assert subRules[i..][1..] == subRules[i + 1..];
  }

  /** The directive loop of ToCEL: set each child's base variable, then render it. */
  method NestedToCEL(nested: seq<Rule>, varName: string) returns (res: Result<seq<string>, RenderError>)
    ensures res == RenderNested(nested, varName)
    decreases SizeAll(nested), 2
  {
    var nestedCELs: seq<string> := [];
    assert PrependStrings([], RenderNested(nested, varName)) == RenderNested(nested, varName) by {
      if RenderNested(nested, varName).Success? {
        assert [] + RenderNested(nested, varName).value == RenderNested(nested, varName).value;
      }
    }
    for i := 0 to |nested|
      invariant RenderNested(nested, varName) == PrependStrings(nestedCELs, RenderNested(nested[i..], varName))
      invariant SizeAll(nested[i..]) <= SizeAll(nested)
    {
      assert nested[i..][1..] == nested[i + 1..];
      var nestedRule := nested[i];
      if nestedRule.NilRule? {
        return Failure(NilDereference);
      }
      nestedRule := nestedRule.(baseVar := varName);
      assert Size(nestedRule) == Size(nested[i]) <= SizeAll(nested[i..]);
      var cel := ToCEL(nestedRule);
      if cel.Failure? {
        return Failure(cel.error);
      }
      assert RenderNested(nested[i..], varName) == PrependStrings([cel.value], RenderNested(nested[i + 1..], varName));
      PrependStringsTwice(nestedCELs, [cel.value], RenderNested(nested[i + 1..], varName));
      nestedCELs := nestedCELs + [cel.value];
    }
    assert nestedCELs + [] == nestedCELs;
    return Success(nestedCELs);
  }

  // ---------------------------------------------------------------------------
  // Grouping (processRules)

  predicate IsDirectiveRule(cel: string) {
    Contains(cel, ".all(")
  }

  /** The pending run of plain conditions, as one entry, if there is one. */
  function Flush(simple: seq<string>): seq<string> {
    if simple == [] then [] else [Join(simple, " && ")]
  }

  /** The second loop of processRules, from a pending run `simple` onwards. */
  function GroupFrom(simple: seq<string>, cels: seq<string>): (r: seq<string>)
    ensures r == [] <==> simple == [] && cels == []
    decreases |cels|
  {
    if cels == [] then Flush(simple)
    else if IsDirectiveRule(cels[0]) then Flush(simple) + [cels[0]] + GroupFrom([], cels[1..])
    else GroupFrom(simple + [cels[0]], cels[1..])
  }

  function Grouped(cels: seq<string>): seq<string> {
    GroupFrom([], cels)
  }

  datatype Outcome = Rules(rules: seq<string>) | Rejected(error: ParseError) | Panicked

  /** The first loop of processRules: parse a node, render it, keep it when non-empty. */
  function RenderedRules(raw: seq<string>, tv: GoType): Outcome
    decreases |raw|
  {
    if raw == [] then Rules([])
    else match ParseTree(raw, tv)
      case Failure(e) => Rejected(e)
      case Success(p) =>
        match Render(p.rule)
        case Failure(_) => Panicked
        case Success(cel) =>
          var more := RenderedRules(p.rest, tv);
          if more.Rules? then Rules((if cel == "" then [] else [cel]) + more.rules) else more
  }

  /** processRules: the field's final CEL rules, or the error or panic that ended it. */
  function ProcessedRules(raw: seq<string>, tv: GoType): Outcome {
    match RenderedRules(raw, tv)
    case Rules(cels) => Rules(Grouped(cels))
    case other => other
  }

  function PrependOutcome(done: seq<string>, o: Outcome): Outcome {
    if o.Rules? then Rules(done + o.rules) else o
  }

  lemma PrependOutcomeNothing(o: Outcome)
    ensures PrependOutcome([], o) == o
  {
    if o.Rules? {
      assert [] + o.rules == o.rules;
    }
  }

  lemma PrependOutcomeTwice(a: seq<string>, b: seq<string>, o: Outcome)
    ensures PrependOutcome(a, PrependOutcome(b, o)) == PrependOutcome(a + b, o)
  {
    if o.Rules? {
      assert a + (b + o.rules) == a + b + o.rules;
    }
  }

  /** One round of the first loop of processRules. */
  lemma RenderedStep(raw: seq<string>, tv: GoType, p: Parsed, cel: string)
    requires raw != [] && ParseTree(raw, tv) == Success(p) && Render(p.rule) == Success(cel)
    ensures RenderedRules(raw, tv) == PrependOutcome(if cel == "" then [] else [cel], RenderedRules(p.rest, tv))
  {
  }

  /** processRules as the generator runs it: render every node, then group. */
  method ProcessRules(rawRules: seq<string>, tv: GoType) returns (out: Outcome)
    ensures out == ProcessedRules(rawRules, tv)
  {
    out := RenderRules(rawRules, tv);
    if out.Rules? {
      var finalRules := GroupRules(out.rules);
      out := Rules(finalRules);
    }
  }

  /** The first loop of processRules. */
  method RenderRules(rawRules: seq<string>, tv: GoType) returns (out: Outcome)
    ensures out == RenderedRules(rawRules, tv)
  {
    var celRules: seq<string> := [];
    var remaining := rawRules;
    PrependOutcomeNothing(RenderedRules(rawRules, tv));
    while |remaining| > 0
      invariant RenderedRules(rawRules, tv) == PrependOutcome(celRules, RenderedRules(remaining, tv))
      decreases |remaining|
    {
      var parsed := ParseRule(remaining, tv);
      if parsed.Failure? {
        return Rejected(parsed.error);
      }
      var cel := ToCEL(parsed.value.rule);
      if cel.Failure? {
        return Panicked;
      }
      var kept := if cel.value == "" then [] else [cel.value];
      RenderedStep(remaining, tv, parsed.value, cel.value);
      PrependOutcomeTwice(celRules, kept, RenderedRules(parsed.value.rest, tv));
      celRules := celRules + kept;
      remaining := parsed.value.rest;
    }
    assert celRules + [] == celRules;
    return Rules(celRules);
  }

  /** The second loop of processRules: flush the pending plain conditions at each
      directive rule and at the end. */
  method GroupRules(celRules: seq<string>) returns (finalRules: seq<string>)
    ensures finalRules == Grouped(celRules)
  {
    finalRules := [];
    var simpleConditions: seq<string> := [];
    for i := 0 to |celRules|
      invariant Grouped(celRules) == finalRules + GroupFrom(simpleConditions, celRules[i..])
    {
      assert celRules[i..][1..] == celRules[i + 1..];
      var cel := celRules[i];
      if IsDirectiveRule(cel) {
        if |simpleConditions| > 0 {
          finalRules := finalRules + [Join(simpleConditions, " && ")];
          simpleConditions := [];
        }
        finalRules := finalRules + [cel];
      } else {
        simpleConditions := simpleConditions + [cel];
      }
    }
    if |simpleConditions| > 0 {
      finalRules := finalRules + [Join(simpleConditions, " && ")];
    }
  }

  // ---------------------------------------------------------------------------
  // Properties of grouping

  /** Grouping never changes the conjunction: the final rules joined with " && " are the
      rendered pieces joined with " && ", in the same order. */
  lemma {:induction false} GroupFromKeepsConjunction(simple: seq<string>, cels: seq<string>)
    ensures Join(GroupFrom(simple, cels), " && ") == Join(simple + cels, " && ")
    decreases |cels|
  {
    if cels == [] {
      assert simple + cels == simple;
    } else if IsDirectiveRule(cels[0]) {
      GroupFromKeepsConjunction([], cels[1..]);
      var tail := GroupFrom([], cels[1..]);
      assert GroupFrom(simple, cels) == Flush(simple) + ([cels[0]] + tail);
      assert [] + cels[1..] == cels[1..];
      if simple == [] {
        assert Flush(simple) + ([cels[0]] + tail) == [cels[0]] + tail;
        assert simple + cels == cels;
        JoinCons(cels[0], tail);
        JoinCons(cels[0], cels[1..]);
        assert [cels[0]] + cels[1..] == cels;
      } else {
        assert Flush(simple) + ([cels[0]] + tail) == [Join(simple, " && ")] + ([cels[0]] + tail);
        JoinCons(cels[0], tail);
        JoinCons(Join(simple, " && "), [cels[0]] + tail);
        JoinConcat(simple, cels, " && ");
        JoinCons(cels[0], cels[1..]);
        assert [cels[0]] + cels[1..] == cels;
      }
    } else {
      GroupFromKeepsConjunction(simple + [cels[0]], cels[1..]);
      assert simple + [cels[0]] + cels[1..] == simple + cels;
    }
  }

  lemma JoinCons(x: string, rest: seq<string>)
    ensures Join([x] + rest, " && ") == if rest == [] then x else x + " && " + Join(rest, " && ")
  {
    assert ([x] + rest)[1..] == rest;
  }

  lemma GroupedKeepsConjunction(cels: seq<string>)
    ensures Join(Grouped(cels), " && ") == Join(cels, " && ")
  {
    GroupFromKeepsConjunction([], cels);
    assert [] + cels == cels;
  }

  /** Every piece containing ".all(" is its own entry, and no entry is empty when no
      piece is; there are never more entries than pieces. */
  lemma {:induction false} GroupFromShape(simple: seq<string>, cels: seq<string>)
    requires forall i :: 0 <= i < |simple| ==> simple[i] != ""
    requires forall i :: 0 <= i < |cels| ==> cels[i] != ""
    ensures forall c :: c in cels && IsDirectiveRule(c) ==> c in GroupFrom(simple, cels)
    ensures forall e :: e in GroupFrom(simple, cels) ==> e != ""
    ensures |GroupFrom(simple, cels)| <= (if simple == [] then 0 else 1) + |cels|
    decreases |cels|
  {
    if simple != [] {
      JoinNonEmpty(simple);
    }
    if cels == [] {
    } else if IsDirectiveRule(cels[0]) {
      GroupFromShape([], cels[1..]);
    } else {
      GroupFromShape(simple + [cels[0]], cels[1..]);
    }
  }

  lemma {:induction false} JoinNonEmpty(parts: seq<string>)
    requires parts != [] && parts[0] != ""
    ensures Join(parts, " && ") != ""
  {
    if |parts| > 1 {
      assert |Join(parts, " && ")| >= |parts[0]|;
    }
  }

  // ---------------------------------------------------------------------------
  // Worked examples from the generator's own test data

  /** The tree `dive,dive,nonzero` parses to on [][]int. */
  function MatrixTree(): Rule {
    Rule(Slice(Slice(Basic(Int))), "self", Dive, [],
      [Rule(Slice(Basic(Int)), "self", Dive, [],
        [Rule(Basic(Int), "self", NoDirective, ["nonzero"], [])])])
  }

  lemma MatrixParse()
    ensures ParseTree(["dive", "dive", "nonzero"], Slice(Slice(Basic(Int)))) == Success(Parsed(MatrixTree(), []))
  {
    var ints := Slice(Basic(Int));
    TrimSpaceWord("dive");
    TrimSpaceUnspaced("nonzero");
    NotCel("nonzero");
    assert !EndsShorthands("nonzero");
    var leaf := Rule(Basic(Int), "self", NoDirective, ["nonzero"], []);
    assert ["nonzero"][1..] == [];
    assert ShorthandEnd(["nonzero"]) == 1;
    assert ["nonzero"][..1] == ["nonzero"];
    assert ParseTree(["nonzero"], Basic(Int)) == Success(Parsed(leaf, []));
    assert ParseAll([], Basic(Int)) == Success([]);
    assert [leaf] + [] == [leaf];
    assert ParseAll(["nonzero"], Basic(Int)) == Success([leaf]);
    var inner := Rule(ints, "self", Dive, [], [leaf]);
    assert ["dive", "nonzero"][1..] == ["nonzero"];
    assert ParseTree(["dive", "nonzero"], ints) == Success(Parsed(inner, []));
    assert ParseAll([], ints) == Success([]);
    assert [inner] + [] == [inner];
    assert ParseAll(["dive", "nonzero"], ints) == Success([inner]);
    assert ["dive", "dive", "nonzero"][1..] == ["dive", "nonzero"];
  }

  lemma NonzeroIntLeaf()
    ensures Render(Rule(Basic(Int), "x", NoDirective, ["nonzero"], [])) == Success("x != 0")
  {
    ReplaceAllAbsent(" != 0", "self", "x");
    NotCel("nonzero");
    assert "self != 0" == "self" + " != 0";
    assert ShorthandToCEL("nonzero", Basic(Int), "x") == "x != 0";
    assert Conditions(["nonzero"][1..], Basic(Int), "x") == [];
    assert Conditions(["nonzero"], Basic(Int), "x") == ["x != 0"];
  }

  lemma RenderSingleChild(tv: GoType, base: string, d: Directive, child: Rule, c: string)
    requires d != NoDirective && child.Rule? && Render(child.(baseVar := VarName(d))) == Success(c)
    ensures Render(Rule(tv, base, d, [], [child])) == Success(AllOf(base, VarName(d), c))
  {
    assert [child][1..] == [];
    assert RenderNested([], VarName(d)) == Success([]);
    assert [c] + [] == [c];
    assert RenderNested([child], VarName(d)) == Success([c]);
  }

  /** Two nested `dive`s around a leaf: the inner scope reuses the name x. */
  lemma NestedDives(outerT: GoType, innerT: GoType, leafT: GoType, subs: seq<string>, c: string)
    requires Render(Rule(leafT, "x", NoDirective, subs, [])) == Success(c)
    ensures Render(Rule(outerT, "self", Dive, [], [Rule(innerT, "self", Dive, [], [Rule(leafT, "self", NoDirective, subs, [])])]))
            == Success(AllOf("self", "x", AllOf("x", "x", c)))
  {
    var leaf := Rule(leafT, "self", NoDirective, subs, []);
    assert leaf.(baseVar := "x") == Rule(leafT, "x", NoDirective, subs, []);
    RenderSingleChild(innerT, "x", Dive, leaf, c);
    var inner := Rule(innerT, "self", Dive, [], [leaf]);
    assert inner.(baseVar := "x") == Rule(innerT, "x", Dive, [], [leaf]);
    RenderSingleChild(outerT, "self", Dive, inner, AllOf("x", "x", c));
  }

  lemma MatrixRender()
    ensures Render(MatrixTree()) == Success("self.all(x, x.all(x, x != 0))")
  {
    NonzeroIntLeaf();
    NestedDives(Slice(Slice(Basic(Int))), Slice(Basic(Int)), Basic(Int), ["nonzero"], "x != 0");
    MatrixText();
  }

  lemma MatrixText()
    ensures AllOf("self", "x", AllOf("x", "x", "x != 0")) == "self.all(x, x.all(x, x != 0))"
  {
    assert AllOf("x", "x", "x != 0") == "x.all(x, x != 0)";
  }

  /** `dive,dive,nonzero` on [][]int gives one rule with nested scopes. */
  lemma MatrixExample()
    ensures ProcessedRules(["dive", "dive", "nonzero"], Slice(Slice(Basic(Int))))
            == Rules(["self.all(x, x.all(x, x != 0))"])
  {
    MatrixRendered();
    MatrixGrouped();
  }

  lemma MatrixRendered()
    ensures RenderedRules(["dive", "dive", "nonzero"], Slice(Slice(Basic(Int))))
            == Rules(["self.all(x, x.all(x, x != 0))"])
  {
    MatrixParse();
    MatrixRender();
    var cel := "self.all(x, x.all(x, x != 0))";
    RenderedStep(["dive", "dive", "nonzero"], Slice(Slice(Basic(Int))), Parsed(MatrixTree(), []), cel);
    assert RenderedRules([], Slice(Slice(Basic(Int)))) == Rules([]);
    assert [cel] + [] == [cel];
  }

  lemma MatrixGrouped()
    ensures Grouped(["self.all(x, x.all(x, x != 0))"]) == ["self.all(x, x.all(x, x != 0))"]
  {
    var cel := "self.all(x, x.all(x, x != 0))";
    assert cel == "self" + ".all(" + "x, x.all(x, x != 0))";
    assert cel[4..9] == ".all(";
    assert OccursAt(cel, ".all(", 4);
    ContainsIff(cel, ".all(");
    assert GroupFrom([], [cel][1..]) == [];
    assert Grouped([cel]) == [] + [cel] + [];
  }
  /** The `ResourceMap` field of the generator's test data: a `map[string]*int` whose keys
      must start with `id_` and whose values must be set. */
  const ResourceMapTag: seq<string> := ["keys", "cel:self.startsWith('id_')", "values", "required"]

  function ResourceMapType(): GoType {
    Map(Basic(String), Pointer(Basic(Int)))
  }

  const KeysRule: string := "self.all(k, k.startsWith('id_'))"
  const ValuesRule: string := "self.all(v, v != null)"

  const KeysLeaf: Rule := Rule(Basic(String), "self", NoDirective, ["cel:self.startsWith('id_')"], [])
  const ValuesLeaf: Rule := Rule(Pointer(Basic(Int)), "self", NoDirective, ["required"], [])

  /** `keys` takes the `cel:` token as its one child, which stops at `values`. */
  lemma ResourceMapKeysParse()
    ensures ParseTree(ResourceMapTag, ResourceMapType())
            == Success(Parsed(Rule(ResourceMapType(), "self", Keys, [], [KeysLeaf]), ["values", "required"]))
  {
    TrimSpaceWord("keys");
    assert ResourceMapTag[1..] == ["cel:self.startsWith('id_')", "values", "required"];
    assert Underlying(ResourceMapType()) == Map(Basic(String), Pointer(Basic(Int)));
    KeysChildParse();
    KeysNodeParse(ResourceMapTag, ResourceMapType(), Basic(String), Pointer(Basic(Int)));
  }

  /** `keys` on a map takes the one node parsed over the key type as its child. */
  lemma KeysNodeParse(raw: seq<string>, tv: GoType, key: GoType, elem: GoType)
    requires raw != [] && TrimSpace(raw[0]) == "keys" && Underlying(tv) == Map(key, elem)
    requires ParseTree(raw[1..], key).Success?
    ensures var p := ParseTree(raw[1..], key).value;
      ParseTree(raw, tv) == Success(Parsed(Rule(tv, "self", Keys, [], [p.rule]), p.rest))
  {
    assert "keys"[0] != "dive"[0];
    var p := ParseTree(raw[1..], key).value;
    TailSuffix(raw, p.rest);
  }

  /** The `cel:` token after `keys` becomes the key leaf and stops at `values`. */
  lemma KeysChildParse()
    ensures ParseTree(["cel:self.startsWith('id_')", "values", "required"], Basic(String))
            == Success(Parsed(KeysLeaf, ["values", "required"]))
  {
    var cel := "cel:self.startsWith('id_')";
    TrimSpaceWord("values");
    TrimSpaceUnspaced(cel);
    var raw := [cel, "values", "required"];
    assert raw[1..] == ["values", "required"] && IsDirectiveToken(raw[1..][0]);
    assert CelEnd(raw[1..]) == 0;
    assert HasPrefix(TrimSpace(raw[0]), "cel:") && !IsDirectiveToken(raw[0]);
    CelParse(raw, Basic(String));
    assert raw[1..1] == [] && raw[1 + 0..] == ["values", "required"];
    assert "cel:" + TrimSpace(raw[0])[4..] + CommaPrefixed([]) == cel;
  }

  /** `values` takes `required` as its one child, and nothing is left. */
  lemma ResourceMapValuesParse()
    ensures ParseTree(["values", "required"], ResourceMapType())
            == Success(Parsed(Rule(ResourceMapType(), "self", Values, [], [ValuesLeaf]), []))
  {
    TrimSpaceWord("values");
    TrimSpaceUnspaced("required");
    NotCel("required");
    assert !EndsShorthands("required");
    assert ["values", "required"][1..] == ["required"] && ["required"][1..] == [];
    assert ShorthandEnd(["required"]) == 1;
    assert ["required"][..1] == ["required"] && ["required"][1..] == [];
  }

  lemma SelfPrefixed(body: string, v: string, j: nat)
    requires j < 4 && "self"[j] !in body
    ensures ReplaceAll("self" + body, "self", v) == v + body
  {
    ReplaceAllMissing(body, "self", v, j);
    assert ("self" + body)[..4] == "self" && ("self" + body)[4..] == body;
  }

  /** The keys condition, with `k` for `self`, is `k.startsWith('id_')`. */
  lemma KeysCondition()
    ensures ShorthandToCEL("cel:self.startsWith('id_')", Basic(String), "k") == "k.startsWith('id_')"
  {
    var body := ".startsWith('id_')";
    var shorthand := "cel:" + ("self" + body);
    assert shorthand == "cel:self.startsWith('id_')";
    assert shorthand[..4] == "cel:" && shorthand[4..] == "self" + body;
    assert HasPrefix(shorthand, "cel:");
    assert TrimPrefix(shorthand, "cel:") == "self" + body;
    KeysBodyWithoutE(body);
    SelfPrefixed(body, "k", 1);
    assert ReplaceAll("self" + body, "self", "k") == "k" + body;
    assert ShorthandToCEL(shorthand, Basic(String), "k") == "k" + body;
    KeysConditionText();
  }

  lemma KeysBodyWithoutE(body: string)
    requires body == ".startsWith('id_')"
    ensures "self"[1] !in body
  {
  }

  lemma KeysConditionText()
    ensures "k" + ".startsWith('id_')" == "k.startsWith('id_')"
  {
  }

  /** The values condition, with `v` for `self`, is `v != null`. */
  lemma ValuesCondition()
    ensures ShorthandToCEL("required", Pointer(Basic(Int)), "v") == "v != null"
  {
    RequiredOnPointer();
    NullCheckText();
    SelfPrefixed(" != null", "v", 0);
  }

  lemma RequiredOnPointer()
    ensures ShorthandToCEL("required", Pointer(Basic(Int)), "v") == ReplaceAll("self != null", "self", "v")
  {
    assert CategoryOf(Pointer(Basic(Int))) == PtrCat;
    RequiredOnlyForPtr(Pointer(Basic(Int)), "v");
  }

  lemma NullCheckText()
    ensures "self != null" == "self" + " != null" && "self"[0] !in " != null"
    ensures "v" + " != null" == "v != null"
  {
  }

  lemma KeysLeafRender()
    ensures Render(Rule(Basic(String), "k", NoDirective, ["cel:self.startsWith('id_')"], [])) == Success("k.startsWith('id_')")
  {
    KeysCondition();
    SingleCondition("cel:self.startsWith('id_')", Basic(String), "k", "k.startsWith('id_')");
  }

  lemma ValuesLeafRender()
    ensures Render(Rule(Pointer(Basic(Int)), "v", NoDirective, ["required"], [])) == Success("v != null")
  {
    ValuesCondition();
    SingleCondition("required", Pointer(Basic(Int)), "v", "v != null");
  }

  /** A leaf with one shorthand renders as that shorthand's condition. */
  lemma SingleCondition(shorthand: string, tv: GoType, v: string, c: string)
    requires shorthand != "" && c != "" && ShorthandToCEL(shorthand, tv, v) == c
    ensures Render(Rule(tv, v, NoDirective, [shorthand], [])) == Success(c)
  {
    assert [shorthand][1..] == [];
    assert Conditions([shorthand], tv, v) == [c];
  }

  lemma ResourceMapKeysRender()
    ensures Render(Rule(ResourceMapType(), "self", Keys, [], [KeysLeaf])) == Success(KeysRule)
  {
    KeysLeafRender();
    assert KeysLeaf.(baseVar := "k") == Rule(Basic(String), "k", NoDirective, ["cel:self.startsWith('id_')"], []);
    RenderSingleChild(ResourceMapType(), "self", Keys, KeysLeaf, "k.startsWith('id_')");
    KeysRuleText();
  }

  lemma ResourceMapValuesRender()
    ensures Render(Rule(ResourceMapType(), "self", Values, [], [ValuesLeaf])) == Success(ValuesRule)
  {
    ValuesLeafRender();
    assert ValuesLeaf.(baseVar := "v") == Rule(Pointer(Basic(Int)), "v", NoDirective, ["required"], []);
    RenderSingleChild(ResourceMapType(), "self", Values, ValuesLeaf, "v != null");
    ValuesRuleText();
  }

  lemma KeysRuleText()
    ensures AllOf("self", "k", "k.startsWith('id_')") == KeysRule
  {
  }

  lemma ValuesRuleText()
    ensures AllOf("self", "v", "v != null") == ValuesRule
  {
  }

  /** Every `all` macro on `self` is a directive rule for grouping. */
  lemma AllOfSelfIsDirective(v: string, body: string)
    ensures IsDirectiveRule(AllOf("self", v, body))
  {
    var cel := AllOf("self", v, body);
    assert cel == "self" + ".all(" + (v + ", " + body + ")");
    assert cel[4..9] == ".all(";
    assert OccursAt(cel, ".all(", 4);
    ContainsIff(cel, ".all(");
  }

  /** Two directive rules in a row stay two entries. */
  lemma GroupedDirectivePair(a: string, b: string)
    requires IsDirectiveRule(a) && IsDirectiveRule(b)
    ensures Grouped([a, b]) == [a, b]
  {
    assert [a, b][1..] == [b] && [b][1..] == [];
    assert GroupFrom([], [b]) == [] + [b] + [];
    assert Grouped([a, b]) == [] + [a] + [b];
  }

  /** The first loop of processRules gives the keys piece, then the values piece. */
  lemma ResourceMapRendered()
    ensures RenderedRules(ResourceMapTag, ResourceMapType()) == Rules([KeysRule, ValuesRule])
  {
    var t := ResourceMapType();
    ResourceMapKeysParse();
    ResourceMapValuesParse();
    ResourceMapKeysRender();
    ResourceMapValuesRender();
    RenderedStep(ResourceMapTag, t, Parsed(Rule(t, "self", Keys, [], [KeysLeaf]), ["values", "required"]), KeysRule);
    RenderedStep(["values", "required"], t, Parsed(Rule(t, "self", Values, [], [ValuesLeaf]), []), ValuesRule);
    assert RenderedRules([], t) == Rules([]);
    assert [ValuesRule] + [] == [ValuesRule];
    assert [KeysRule] + [ValuesRule] == [KeysRule, ValuesRule];
  }

  /** Both pieces hold `.all(`, so grouping keeps them as two entries. */
  lemma ResourceMapGrouped()
    ensures Grouped([KeysRule, ValuesRule]) == [KeysRule, ValuesRule]
  {
    AllOfSelfIsDirective("k", "k.startsWith('id_')");
    KeysRuleText();
    AllOfSelfIsDirective("v", "v != null");
    ValuesRuleText();
    GroupedDirectivePair(KeysRule, ValuesRule);
  }

  /** `keys,cel:self.startsWith('id_'),values,required` on `map[string]*int` gives the two
      separate rules `self.all(k, k.startsWith('id_'))` and `self.all(v, v != null)`. */
  lemma ResourceMapExample()
    ensures ProcessedRules(ResourceMapTag, ResourceMapType()) == Rules([KeysRule, ValuesRule])
  {
    ResourceMapRendered();
    ResourceMapGrouped();
  }

  /** A `dive` with nothing after it has no children... */
  lemma BareDiveParse(tv: GoType)
    requires Underlying(tv).Slice?
    ensures ParseTree(["dive"], tv) == Success(Parsed(Rule(tv, "self", Dive, [], []), []))
  {
    TrimSpaceWord("dive");
    assert ["dive"][1..] == [];
  }

  /** ... so it renders the `all` macro around an empty body. */
  lemma BareDiveRender(tv: GoType)
    ensures Render(Rule(tv, "self", Dive, [], [])) == Success("self.all(x, )")
  {
    assert Join([], " && ") == "";
    assert AllOf("self", "x", "") == "self.all(x, )";
  }

  /** A bare `dive` gives the one rule `self.all(x, )`. */
  lemma BareDive(tv: GoType)
    requires Underlying(tv).Slice?
    ensures ProcessedRules(["dive"], tv) == Rules(["self.all(x, )"])
  {
    var cel := "self.all(x, )";
    var rule := Rule(tv, "self", Dive, [], []);
    BareDiveParse(tv);
    BareDiveRender(tv);
    RenderedStep(["dive"], tv, Parsed(rule, []), cel);
    assert RenderedRules([], tv) == Rules([]);
    assert [cel] + [] == [cel];
    AllOfSelfIsDirective("x", "");
    assert AllOf("self", "x", "") == cel;
    assert GroupFrom([], [cel][1..]) == [];
    assert Grouped([cel]) == [] + [cel] + [];
  }
}
