/** The package-level half of the rule extractor: which type declarations are visited,
    how each struct's rule set is assembled from its doc comment and its fields, the key it
    is stored under, and the list of known types handed to the emitters. Declarations are an
    abstract list standing for the syntax trees of a package's files. */
module ParserPackage {
  import opened Wrappers
  import opened Text
  import opened Rules
  import opened Parser

  /** A struct field: `names` is empty for an embedded field; `typ` is None when the type
      checker gives no type; `validate` is the value of the `validate` key of the tag, None
      when the field has no tag or the tag has no such key. */
  datatype Field = Field(names: seq<string>, typ: Option<GoType>, validate: Option<string>)

  datatype TypeExpr = StructType(fields: seq<Field>) | NonStruct

  /** A type spec: its name, the names of each type-parameter group, and its type. */
  datatype TypeSpec = TypeSpec(name: string, typeParams: seq<seq<string>>, typ: TypeExpr)

  datatype DeclToken = TypeToken | OtherToken

  /** A general declaration with the text of each comment line of its doc comment. */
  datatype GenDecl = GenDecl(tok: DeclToken, doc: seq<string>, specs: seq<TypeSpec>)

  /** A top-level declaration; a function carries the declarations local to its body. */
  datatype Decl = Gen(decl: GenDecl) | Func(locals: seq<GenDecl>)

  datatype File = File(decls: seq<Decl>)

  datatype PackageInfo = PackageInfo(pkgPath: string, pkgName: string, files: seq<File>)

  /** TypeInfo: the package and the bare type name (without type parameters). */
  datatype TypeInfo = TypeInfo(packagePath: string, packageName: string, typeName: string)

  /** One type spec reached by the syntax walk, with the doc comment of its declaration. */
  datatype Visit = Visit(doc: seq<string>, spec: TypeSpec)

  /** What ParseDirectly returns: the rule sets by key and the types that have one. */
  datatype Collected = Collected(ruleSets: map<string, RuleSet>, knownTypes: seq<TypeInfo>)

  // ---------------------------------------------------------------------------
  // Keys

  /** The text of each type-parameter group: its names joined by ", ". */
  function GroupTexts(params: seq<seq<string>>): (r: seq<string>)
    ensures |r| == |params|
  {
    seq(|params|, i requires 0 <= i < |params| => Join(params[i], ", "))
  }

  /** The struct name with its type parameters, as the name builder writes it. */
  function StructName(name: string, params: seq<seq<string>>): string {
    if params == [] then name else name + "[" + Join(GroupTexts(params), ", ") + "]"
  }

  /** The key of a rule set: the package path, a dot, and the struct name. */
  function TypeKey(pkgPath: string, spec: TypeSpec): string {
    pkgPath + "." + StructName(spec.name, spec.typeParams)
  }

  function Flatten(params: seq<seq<string>>): seq<string> {
    if params == [] then [] else params[0] + Flatten(params[1..])
  }

  /** The name builder writes `Name[p1, p2]`: every type parameter once, in order, separated
      by a comma and a space, whatever the grouping (`[K, V any]` or `[K any, V any]`). */
  lemma {:induction false} StructNameLists(name: string, params: seq<seq<string>>)
    requires forall i :: 0 <= i < |params| ==> params[i] != []
    ensures params == [] ==> StructName(name, params) == name
    ensures params != [] ==> StructName(name, params) == name + "[" + Join(Flatten(params), ", ") + "]"
  {
    if params != [] {
      GroupsFlatten(params);
    }
  }

  lemma {:induction false} GroupsFlatten(params: seq<seq<string>>)
    requires params != []
    requires forall i :: 0 <= i < |params| ==> params[i] != []
    ensures Flatten(params) != []
    ensures Join(GroupTexts(params), ", ") == Join(Flatten(params), ", ")
  {
    if |params| == 1 {
      assert Flatten(params) == params[0] + [];
      assert params[0] + [] == params[0];
    } else {
      var rest := params[1..];
      GroupsFlatten(rest);
      assert GroupTexts(params)[1..] == GroupTexts(rest);
      JoinConcat(params[0], Flatten(rest), ", ");
    }
  }

  /** The name builder: the bare name, then the bracketed parameter list when there is one. */
  method BuildStructName(name: string, params: seq<seq<string>>) returns (s: string)
    ensures s == StructName(name, params)
  {
    s := name;
    if |params| > 0 {
      s := s + "[";
      ghost var gs := GroupTexts(params);
      var i := 0;
      while i < |params|
        invariant 0 <= i <= |params|
        invariant s == name + "[" + Join(gs[..i], ", ")
      {
        ghost var before := s;
        if i > 0 {
          s := s + ", ";
        }
        s := WriteNames(s, params[i]);
        JoinAppend(gs[..i], gs[i], ", ");
        assert gs[..i + 1] == gs[..i] + [gs[i]];
        i := i + 1;
      }
      assert gs[..i] == gs;
      s := s + "]";
    }
  }

  /** The inner loop of the name builder: one group's names, a comma and a space between
      two of them. */
  method WriteNames(start: string, names: seq<string>) returns (s: string)
    ensures s == start + Join(names, ", ")
  {
    s := start;
    var j := 0;
    while j < |names|
      invariant 0 <= j <= |names|
      invariant s == start + Join(names[..j], ", ")
    {
      if j > 0 {
        s := s + ", ";
      }
      s := s + names[j];
      JoinAppend(names[..j], names[j], ", ");
      assert names[..j + 1] == names[..j] + [names[j]];
      j := j + 1;
    }
    assert names[..j] == names;
  }

  // ---------------------------------------------------------------------------
  // Type rules from the doc comment

  const CelMarker: string := "// @cel:"

  /** The type rules a doc comment declares: each `// @cel:` line's trimmed remainder. */
  function DocTypeRules(doc: seq<string>): seq<string> {
    if doc == [] then []
    else
      var line := doc[|doc| - 1];
      DocTypeRules(doc[..|doc| - 1])
        + (if HasPrefix(line, CelMarker) then [TrimSpace(TrimPrefix(line, CelMarker))] else [])
  }

  /** The doc loop of ParseDirectly. */
  method CollectDocRules(doc: seq<string>) returns (typeRules: seq<string>)
    ensures typeRules == DocTypeRules(doc)
  {
    typeRules := [];
    var i := 0;
    while i < |doc|
      invariant 0 <= i <= |doc|
      invariant typeRules == DocTypeRules(doc[..i])
    {
      assert doc[..i + 1][..i] == doc[..i];
      if HasPrefix(doc[i], CelMarker) {
        var rule := TrimSpace(TrimPrefix(doc[i], CelMarker));
        typeRules := typeRules + [rule];
      }
      i := i + 1;
    }
    assert doc[..i] == doc;
  }

  /** Type rules of two runs of comment lines are those of each run, in order. */
  lemma {:induction false} DocTypeRulesConcat(a: seq<string>, b: seq<string>)
    ensures DocTypeRules(a + b) == DocTypeRules(a) + DocTypeRules(b)
    decreases |b|
  {
    if b == [] {
      assert a + b == a;
    } else {
      var b' := b[..|b| - 1];
      assert (a + b)[..|a + b| - 1] == a + b';
      DocTypeRulesConcat(a, b');
    }
  }

  /** A comment line adds a type rule exactly when it starts with `// @cel:`, and the rule
      is the rest of the line without surrounding white space. */
  lemma DocTypeRulesLine(line: string)
    ensures HasPrefix(line, CelMarker) ==> DocTypeRules([line]) == [TrimSpace(line[|CelMarker|..])]
    ensures !HasPrefix(line, CelMarker) ==> DocTypeRules([line]) == []
  {
    assert [line][..0] == [];
  }

  /** A doc comment yields at most one type rule per line. */
  lemma {:induction false} DocTypeRulesBound(doc: seq<string>)
    ensures |DocTypeRules(doc)| <= |doc|
  {
    if doc != [] {
      DocTypeRulesBound(doc[..|doc| - 1]);
    }
  }

  // ---------------------------------------------------------------------------
  // Embedded structs

  /** The type specs of the package's top-level type declarations, in file order. */
  function TopLevelSpecs(files: seq<File>): seq<TypeSpec> {
    if files == [] then [] else DeclSpecs(files[0].decls) + TopLevelSpecs(files[1..])
  }

  function DeclSpecs(decls: seq<Decl>): seq<TypeSpec> {
    if decls == [] then []
    else
      (match decls[0]
       case Gen(g) => if g.tok == TypeToken then g.specs else []
       case Func(_) => [])
      + DeclSpecs(decls[1..])
  }

  /** The fields of the first struct type spec with the given name. */
  function FindStruct(specs: seq<TypeSpec>, name: string): (r: Option<seq<Field>>)
    ensures r.Some? <==> exists i :: 0 <= i < |specs| && specs[i].name == name && specs[i].typ.StructType?
  {
    if specs == [] then None
    else if specs[0].name == name && specs[0].typ.StructType? then Some(specs[0].typ.fields)
    else
      var r := FindStruct(specs[1..], name);
      assert forall i :: 1 <= i < |specs| ==> specs[i] == specs[1..][i - 1];
      r
  }

  /** getEmbeddedStruct: only a named type declared at the top level of the same package
      is followed; a pointer, a type from another package or an unknown type is not. */
  function EmbeddedStruct(info: PackageInfo, typ: Option<GoType>): (r: Option<seq<Field>>)
    ensures r.Some? ==> typ.Some? && typ.value.Named? && typ.value.pkgPath == info.pkgPath
  {
    match typ
    case Some(Named(pkgPath, name, _)) =>
      if pkgPath != info.pkgPath then None else FindStruct(TopLevelSpecs(info.files), name)
    case _ => None
  }

  /** How deep embedded structs are followed: a chain of embeddings in a type-correct
      package cannot be longer than the number of its top-level type specs. */
  function Fuel(info: PackageInfo): nat {
    |TopLevelSpecs(info.files)|
  }

  // ---------------------------------------------------------------------------
  // Field rules

  /** One field of extractRulesForStruct: the rule map after it, or the panic that ends
      everything. An embedded struct of the package is descended into while fuel lasts. */
  function FieldStep(info: PackageInfo, f: Field, fuel: nat, acc: map<string, seq<string>>)
    : Result<map<string, seq<string>>, RenderError>
    decreases fuel, 0
  {
    if f.names == [] then
      match EmbeddedStruct(info, f.typ)
      case Some(inner) => if fuel == 0 then Success(acc) else FieldRulesFrom(info, inner, fuel - 1, acc)
      case None => Success(acc)
    else if f.validate.None? || f.typ.None? then Success(acc)
    else
      match ProcessedRules(Split(f.validate.value, ','), f.typ.value)
      case Panicked => Failure(NilDereference)
      case Rejected(_) => Success(acc)
      case Rules(rs) => Success(if |rs| > 0 then acc[f.names[0] := rs] else acc)
  }

  /** extractRulesForStruct: the field-rule map after the given fields have been
      processed, starting from acc; a panic while rendering ends everything. */
  function FieldRulesFrom(info: PackageInfo, fields: seq<Field>, fuel: nat, acc: map<string, seq<string>>)
    : Result<map<string, seq<string>>, RenderError>
    decreases fuel, |fields|
  {
    if fields == [] then Success(acc)
    else
      match FieldStep(info, fields[0], fuel, acc)
      case Failure(e) => Failure(e)
      case Success(acc') => FieldRulesFrom(info, fields[1..], fuel, acc')
  }

  /** extractRulesForStruct as the generator runs it: a loop over the fields that writes
      into the rule map and descends into embedded structs. */
  method ExtractRulesForStruct(info: PackageInfo, fields: seq<Field>, fuel: nat, fieldRules: map<string, seq<string>>)
      returns (r: Result<map<string, seq<string>>, RenderError>)
    ensures r == FieldRulesFrom(info, fields, fuel, fieldRules)
    decreases fuel, |fields| + 1
  {
    var acc := fieldRules;
    var i := 0;
    while i < |fields|
      invariant 0 <= i <= |fields|
      invariant FieldRulesFrom(info, fields, fuel, fieldRules) == FieldRulesFrom(info, fields[i..], fuel, acc)
    {
      var f := fields[i];
      assert fields[i..][1..] == fields[i + 1..];
      var next := ExtractField(info, f, fuel, acc);
      if next.Failure? {
        return Failure(next.error);
      }
      acc := next.value;
      i := i + 1;
    }
    return Success(acc);
  }

  /** The body of extractRulesForStruct's loop for one field. */
  method ExtractField(info: PackageInfo, f: Field, fuel: nat, acc: map<string, seq<string>>)
      returns (r: Result<map<string, seq<string>>, RenderError>)
    ensures r == FieldStep(info, f, fuel, acc)
    decreases fuel, 0
  {
    if f.names == [] {
      var embedded := EmbeddedStruct(info, f.typ);
      if embedded.Some? && fuel > 0 {
        r := ExtractRulesForStruct(info, embedded.value, fuel - 1, acc);
        return;
      }
    } else if f.validate.Some? && f.typ.Some? {
      var out := ProcessRules(Split(f.validate.value, ','), f.typ.value);
      if out.Panicked? {
        return Failure(NilDereference);
      }
      if out.Rules? && |out.rules| > 0 {
        return Success(acc[f.names[0] := out.rules]);
      }
    }
    return Success(acc);
  }

  /** A field adds only non-empty lists of rules. */
  lemma {:induction false} FieldStepNonEmpty(info: PackageInfo, f: Field, fuel: nat, acc: map<string, seq<string>>)
    requires forall k :: k in acc ==> acc[k] != []
    requires FieldStep(info, f, fuel, acc).Success?
    ensures var m := FieldStep(info, f, fuel, acc).value;
      forall k :: k in m ==> m[k] != []
    decreases fuel, 0
  {
    if f.names == [] {
      var e := EmbeddedStruct(info, f.typ);
      if e.Some? && fuel > 0 {
        FieldRulesNonEmpty(info, e.value, fuel - 1, acc);
      }
    }
  }

  /** Every field that gets an entry gets a non-empty list of rules. */
  lemma {:induction false} FieldRulesNonEmpty(info: PackageInfo, fields: seq<Field>, fuel: nat, acc: map<string, seq<string>>)
    requires forall k :: k in acc ==> acc[k] != []
    requires FieldRulesFrom(info, fields, fuel, acc).Success?
    ensures var m := FieldRulesFrom(info, fields, fuel, acc).value;
      forall k :: k in m ==> m[k] != []
    decreases fuel, |fields|
  {
    if fields != [] {
      FieldStepNonEmpty(info, fields[0], fuel, acc);
      FieldRulesNonEmpty(info, fields[1..], fuel, FieldStep(info, fields[0], fuel, acc).value);
    }
  }

  /** The names one field can contribute: its first name, or those of the embedded
      struct followed within the fuel. */
  ghost function FieldNamesOf(info: PackageInfo, f: Field, fuel: nat): set<string>
    decreases fuel, 0
  {
    if f.names != [] then {f.names[0]}
    else match EmbeddedStruct(info, f.typ)
      case Some(inner) => if fuel == 0 then {} else FieldNames(info, inner, fuel - 1)
      case None => {}
  }

  /** The names a struct's fields can contribute. */
  ghost function FieldNames(info: PackageInfo, fields: seq<Field>, fuel: nat): set<string>
    decreases fuel, |fields|
  {
    if fields == [] then {} else FieldNamesOf(info, fields[0], fuel) + FieldNames(info, fields[1..], fuel)
  }

  /** One field only ever adds its own (first) name, or those of its embedded struct. */
  lemma {:induction false} FieldStepKeys(info: PackageInfo, f: Field, fuel: nat, acc: map<string, seq<string>>)
    requires FieldStep(info, f, fuel, acc).Success?
    ensures var m := FieldStep(info, f, fuel, acc).value;
      acc.Keys <= m.Keys <= acc.Keys + FieldNamesOf(info, f, fuel)
    decreases fuel, 0
  {
    if f.names == [] {
      var e := EmbeddedStruct(info, f.typ);
      if e.Some? && fuel > 0 {
        FieldRulesKeys(info, e.value, fuel - 1, acc);
      }
    } else {
      NamedFieldStepKeys(info, f, fuel, acc);
    }
  }

  /** A named field adds at most its own first name. */
  lemma NamedFieldStepKeys(info: PackageInfo, f: Field, fuel: nat, acc: map<string, seq<string>>)
    requires f.names != [] && FieldStep(info, f, fuel, acc).Success?
    ensures var m := FieldStep(info, f, fuel, acc).value;
      acc.Keys <= m.Keys <= acc.Keys + {f.names[0]}
  {
    if f.validate.Some? && f.typ.Some? {
      match ProcessedRules(Split(f.validate.value, ','), f.typ.value)
      case Rules(rs) =>
      case Rejected(_) =>
      case Panicked =>
    }
  }

  /** Field rules are only ever stored under a field's own (first) name: nothing is
      removed from the map and no other key appears. */
  lemma {:induction false} FieldRulesKeys(info: PackageInfo, fields: seq<Field>, fuel: nat, acc: map<string, seq<string>>)
    requires FieldRulesFrom(info, fields, fuel, acc).Success?
    ensures var m := FieldRulesFrom(info, fields, fuel, acc).value;
      acc.Keys <= m.Keys <= acc.Keys + FieldNames(info, fields, fuel)
    decreases fuel, |fields|
  {
    if fields != [] {
      FieldStepKeys(info, fields[0], fuel, acc);
      FieldRulesKeys(info, fields[1..], fuel, FieldStep(info, fields[0], fuel, acc).value);
    }
  }

  /** A field whose rules do not parse for its type (a directive on the wrong kind of
      type) leaves the rule map as it was: the field gets no rules at all. */
  lemma RejectedFieldSkipped(info: PackageInfo, f: Field, rest: seq<Field>, fuel: nat, acc: map<string, seq<string>>)
    requires f.names != [] && f.validate.Some? && f.typ.Some?
    requires ProcessedRules(Split(f.validate.value, ','), f.typ.value).Rejected?
    ensures FieldRulesFrom(info, [f] + rest, fuel, acc) == FieldRulesFrom(info, rest, fuel, acc)
  {
    assert ([f] + rest)[1..] == rest;
  }

  // ---------------------------------------------------------------------------
  // The walk over declarations

  function GenDeclVisits(g: GenDecl): (r: seq<Visit>)
    ensures forall v :: v in r ==> v.doc == g.doc && v.spec in g.specs
  {
    if g.tok != TypeToken then []
    else seq(|g.specs|, i requires 0 <= i < |g.specs| => Visit(g.doc, g.specs[i]))
  }

  function GenDeclsVisits(gs: seq<GenDecl>): seq<Visit> {
    if gs == [] then [] else GenDeclVisits(gs[0]) + GenDeclsVisits(gs[1..])
  }

  function DeclVisits(decls: seq<Decl>): seq<Visit> {
    if decls == [] then []
    else
      (match decls[0]
       case Gen(g) => GenDeclVisits(g)
       case Func(locals) => GenDeclsVisits(locals))
      + DeclVisits(decls[1..])
  }

  /** The type specs the syntax walk reaches, file by file in source order, including
      those declared inside function bodies. */
  function Visits(files: seq<File>): seq<Visit> {
    if files == [] then [] else DeclVisits(files[0].decls) + Visits(files[1..])
  }

  /** The rule set of one visited struct: doc type rules, then field rules. */
  function RuleSetOf(info: PackageInfo, v: Visit): Result<RuleSet, RenderError>
    requires v.spec.typ.StructType?
  {
    match FieldRulesFrom(info, v.spec.typ.fields, Fuel(info), map[])
    case Failure(e) => Failure(e)
    case Success(fieldRules) => Success(RuleSet(DocTypeRules(v.doc), fieldRules))
  }

  /** Store a non-empty rule set under its key and list its type. */
  function Record(info: PackageInfo, v: Visit, rs: RuleSet, acc: Collected): Collected {
    Collected(acc.ruleSets[TypeKey(info.pkgPath, v.spec) := rs],
              acc.knownTypes + [TypeInfo(info.pkgPath, info.pkgName, v.spec.name)])
  }

  /** ParseDirectly, from the given visits onward. */
  function CollectFrom(info: PackageInfo, vs: seq<Visit>, acc: Collected): Result<Collected, RenderError>
    decreases |vs|
  {
    if vs == [] then Success(acc)
    else if !vs[0].spec.typ.StructType? then CollectFrom(info, vs[1..], acc)
    else
      match RuleSetOf(info, vs[0])
      case Failure(e) => Failure(e)
      case Success(rs) => CollectFrom(info, vs[1..], if HasRules(rs) then Record(info, vs[0], rs, acc) else acc)
  }

  function ParsedPackage(info: PackageInfo): Result<Collected, RenderError> {
    CollectFrom(info, Visits(info.files), Collected(map[], []))
  }

  /** ParseDirectly as the generator runs it: one rule set per visited struct type,
      stored when it has any rule. */
  method ParseDirectly(info: PackageInfo) returns (r: Result<Collected, RenderError>)
    ensures r == ParsedPackage(info)
  {
    var vs := Visits(info.files);
    var ruleSets: map<string, RuleSet> := map[];
    var knownTypes: seq<TypeInfo> := [];
    var i := 0;
    while i < |vs|
      invariant 0 <= i <= |vs|
      invariant ParsedPackage(info) == CollectFrom(info, vs[i..], Collected(ruleSets, knownTypes))
    {
      var v := vs[i];
      assert vs[i..][1..] == vs[i + 1..];
      if v.spec.typ.StructType? {
        var typeRules := CollectDocRules(v.doc);
        var fieldRules := ExtractRulesForStruct(info, v.spec.typ.fields, Fuel(info), map[]);
        if fieldRules.Failure? {
          return Failure(fieldRules.error);
        }
        var rs := RuleSet(typeRules, fieldRules.value);
        if |rs.typeRules| > 0 || |rs.fieldRules| > 0 {
          var structName := BuildStructName(v.spec.name, v.spec.typeParams);
          ruleSets := ruleSets[info.pkgPath + "." + structName := rs];
          knownTypes := knownTypes + [TypeInfo(info.pkgPath, info.pkgName, v.spec.name)];
        }
      }
      i := i + 1;
    }
    return Success(Collected(ruleSets, knownTypes));
  }

  // ---------------------------------------------------------------------------
  // Properties of the result

  /** What holds of every partial result: each stored rule set has a rule and sits under
      the key of a visited struct spec, each known type belongs to the package, and there
      are no more keys than listed types. */
  ghost predicate Consistent(info: PackageInfo, all: seq<Visit>, c: Collected) {
    (forall k :: k in c.ruleSets ==> HasRules(c.ruleSets[k]))
    && (forall k :: k in c.ruleSets ==>
          exists v :: v in all && v.spec.typ.StructType? && k == TypeKey(info.pkgPath, v.spec))
    && (forall t :: t in c.knownTypes ==> t.packagePath == info.pkgPath && t.packageName == info.pkgName)
    && |c.ruleSets.Keys| <= |c.knownTypes|
  }

  lemma {:induction false} CollectConsistent(info: PackageInfo, all: seq<Visit>, vs: seq<Visit>, acc: Collected)
    requires forall v :: v in vs ==> v in all
    requires Consistent(info, all, acc)
    requires CollectFrom(info, vs, acc).Success?
    ensures Consistent(info, all, CollectFrom(info, vs, acc).value)
    decreases |vs|
  {
    if vs != [] {
      var v := vs[0];
      if !v.spec.typ.StructType? {
        CollectConsistent(info, all, vs[1..], acc);
      } else {
        var rs := RuleSetOf(info, v).value;
        if HasRules(rs) {
          RecordConsistent(info, all, v, rs, acc);
          CollectConsistent(info, all, vs[1..], Record(info, v, rs, acc));
        } else {
          CollectConsistent(info, all, vs[1..], acc);
        }
      }
    }
  }

  lemma RecordConsistent(info: PackageInfo, all: seq<Visit>, v: Visit, rs: RuleSet, acc: Collected)
    requires v in all && v.spec.typ.StructType? && HasRules(rs)
    requires Consistent(info, all, acc)
    ensures Consistent(info, all, Record(info, v, rs, acc))
  {
    RecordKeys(info, all, v, rs, acc);
    RecordTypes(info, all, v, rs, acc);
  }

  /** The known-types part of RecordConsistent: one more type of this package, and at
      most one more key. */
  lemma RecordTypes(info: PackageInfo, all: seq<Visit>, v: Visit, rs: RuleSet, acc: Collected)
    requires Consistent(info, all, acc)
    ensures var next := Record(info, v, rs, acc);
      (forall t :: t in next.knownTypes ==> t.packagePath == info.pkgPath && t.packageName == info.pkgName)
      && |next.ruleSets.Keys| <= |next.knownTypes|
  {
    var next := Record(info, v, rs, acc);
    var key := TypeKey(info.pkgPath, v.spec);
    forall t | t in next.knownTypes
      ensures t.packagePath == info.pkgPath && t.packageName == info.pkgName
    {
      if t !in acc.knownTypes {
        assert t == next.knownTypes[|acc.knownTypes|];
      }
    }
    assert next.ruleSets.Keys == acc.ruleSets.Keys + {key};
    assert |acc.ruleSets.Keys + {key}| <= |acc.ruleSets.Keys| + 1;
  }

  /** The keys part of RecordConsistent: the new key belongs to a visited struct. */
  lemma RecordKeys(info: PackageInfo, all: seq<Visit>, v: Visit, rs: RuleSet, acc: Collected)
    requires v in all && v.spec.typ.StructType? && HasRules(rs)
    requires Consistent(info, all, acc)
    ensures var m := Record(info, v, rs, acc).ruleSets;
      forall k :: k in m ==>
        (HasRules(m[k]) && exists w :: w in all && w.spec.typ.StructType? && k == TypeKey(info.pkgPath, w.spec))
  {
    var m := Record(info, v, rs, acc).ruleSets;
    var key := TypeKey(info.pkgPath, v.spec);
    forall k | k in m
      ensures HasRules(m[k])
      ensures exists w :: w in all && w.spec.typ.StructType? && k == TypeKey(info.pkgPath, w.spec)
    {
      if k != key {
        assert k in acc.ruleSets && m[k] == acc.ruleSets[k];
      } else {
        assert v in all && v.spec.typ.StructType? && k == TypeKey(info.pkgPath, v.spec);
      }
    }
  }

  /** ParseDirectly's result: a type without type rules and without field rules is left
      out; every key is `PkgPath.StructName` of a struct declared in the package; every
      known type carries the package's path and name; there are no more keys than listed
      types. */
  lemma ParsedPackageConsistent(info: PackageInfo)
    requires ParsedPackage(info).Success?
    ensures var c := ParsedPackage(info).value;
      (forall k :: k in c.ruleSets ==> HasRules(c.ruleSets[k]))
      && (forall k :: k in c.ruleSets ==>
            (exists v :: v in Visits(info.files) && v.spec.typ.StructType?
              && k == info.pkgPath + "." + StructName(v.spec.name, v.spec.typeParams)))
      && (forall t :: t in c.knownTypes ==> t.packagePath == info.pkgPath && t.packageName == info.pkgName)
      && |c.ruleSets.Keys| <= |c.knownTypes|
  {
    CollectConsistent(info, Visits(info.files), Visits(info.files), Collected(map[], []));
  }
  // ---------------------------------------------------------------------------
  // The result, described visit by visit

  /** A visit the walk keeps: a struct spec whose rule set is built and has a rule. */
  ghost predicate IsRuled(info: PackageInfo, v: Visit) {
    v.spec.typ.StructType? && RuleSetOf(info, v).Success? && HasRules(RuleSetOf(info, v).value)
  }

  /** The kept visits, in visit order. */
  ghost function Ruled(info: PackageInfo, vs: seq<Visit>): (r: seq<Visit>)
    ensures forall v :: v in r ==> v in vs && IsRuled(info, v)
  {
    if vs == [] then []
    else
      var rest := Ruled(info, vs[1..]);
      assert forall v :: v in rest ==> v in vs;
      (if IsRuled(info, vs[0]) then [vs[0]] else []) + rest
  }

  /** The known type a kept visit is listed as. */
  function InfoOf(info: PackageInfo, v: Visit): TypeInfo {
    TypeInfo(info.pkgPath, info.pkgName, v.spec.name)
  }

  ghost function Infos(info: PackageInfo, vs: seq<Visit>): (r: seq<TypeInfo>)
    ensures |r| == |vs| && forall i :: 0 <= i < |vs| ==> r[i] == InfoOf(info, vs[i])
  {
    seq(|vs|, i requires 0 <= i < |vs| => InfoOf(info, vs[i]))
  }

  /** The rule set of the last kept visit whose key is `key`, if any: a later struct with
      the same key overwrites an earlier one. */
  ghost function LastUnder(info: PackageInfo, vs: seq<Visit>, key: string): Option<RuleSet> {
    if vs == [] then None
    else
      var later := LastUnder(info, vs[1..], key);
      if later.Some? then later
      else if IsRuled(info, vs[0]) && TypeKey(info.pkgPath, vs[0].spec) == key then Some(RuleSetOf(info, vs[0]).value)
      else None
  }

  lemma InfosCons(info: PackageInfo, head: seq<Visit>, rest: seq<Visit>)
    requires |head| <= 1
    ensures Infos(info, head + rest) == Infos(info, head) + Infos(info, rest)
  {
  }

  /** The kept visits' types, split after the first visit. */
  lemma InfosRuledCons(info: PackageInfo, vs: seq<Visit>)
    requires vs != []
    ensures Infos(info, Ruled(info, vs))
      == (if IsRuled(info, vs[0]) then [InfoOf(info, vs[0])] else []) + Infos(info, Ruled(info, vs[1..]))
  {
    var head := if IsRuled(info, vs[0]) then [vs[0]] else [];
    assert Ruled(info, vs) == head + Ruled(info, vs[1..]);
    InfosCons(info, head, Ruled(info, vs[1..]));
  }

  /** One step of a walk that succeeds: a kept visit is recorded, any other is passed over. */
  lemma CollectStep(info: PackageInfo, vs: seq<Visit>, acc: Collected)
    requires vs != [] && CollectFrom(info, vs, acc).Success?
    ensures CollectFrom(info, vs, acc) == CollectFrom(info, vs[1..],
      if IsRuled(info, vs[0]) then Record(info, vs[0], RuleSetOf(info, vs[0]).value, acc) else acc)
  {
  }

  /** The known types the walk lists from `vs` on are those of the kept visits, in order. */
  lemma {:induction false} CollectKnownTypes(info: PackageInfo, vs: seq<Visit>, acc: Collected)
    requires CollectFrom(info, vs, acc).Success?
    ensures CollectFrom(info, vs, acc).value.knownTypes == acc.knownTypes + Infos(info, Ruled(info, vs))
    decreases |vs|
  {
    if vs == [] {
      assert Infos(info, []) == [];
    } else {
      var v := vs[0];
      var rest := Infos(info, Ruled(info, vs[1..]));
      InfosRuledCons(info, vs);
      CollectStep(info, vs, acc);
      if !IsRuled(info, v) {
        CollectKnownTypes(info, vs[1..], acc);
        assert Infos(info, Ruled(info, vs)) == rest;
      } else {
        var next := Record(info, v, RuleSetOf(info, v).value, acc);
        CollectKnownTypes(info, vs[1..], next);
        assert next.knownTypes + rest == acc.knownTypes + ([InfoOf(info, v)] + rest);
      }
    }
  }

  /** The rule sets the walk stores from `vs` on: a key holds the rule set of the last kept
      visit under it, and keeps what it held before when no kept visit has it. */
  lemma {:induction false} CollectRuleSets(info: PackageInfo, vs: seq<Visit>, acc: Collected)
    requires CollectFrom(info, vs, acc).Success?
    ensures var m := CollectFrom(info, vs, acc).value.ruleSets;
      forall k :: (k in m <==> k in acc.ruleSets || LastUnder(info, vs, k).Some?)
        && (k in m ==> m[k] == if LastUnder(info, vs, k).Some? then LastUnder(info, vs, k).value else acc.ruleSets[k])
    decreases |vs|
  {
    if vs != [] {
      var v := vs[0];
      CollectStep(info, vs, acc);
      if !IsRuled(info, v) {
        CollectRuleSets(info, vs[1..], acc);
      } else {
        CollectRuleSets(info, vs[1..], Record(info, v, RuleSetOf(info, v).value, acc));
      }
    }
  }

  /** A kept visit leaves a rule set under its key. */
  lemma {:induction false} KeptVisitStored(info: PackageInfo, vs: seq<Visit>, v: Visit)
    requires v in vs && IsRuled(info, v)
    ensures LastUnder(info, vs, TypeKey(info.pkgPath, v.spec)).Some?
  {
    if vs[0] != v {
      KeptVisitStored(info, vs[1..], v);
    }
  }

  /** The walk fails exactly when some visited struct spec's rule set cannot be built. */
  lemma {:induction false} CollectFails(info: PackageInfo, vs: seq<Visit>, acc: Collected)
    ensures CollectFrom(info, vs, acc).Failure? <==>
      exists v :: v in vs && v.spec.typ.StructType? && RuleSetOf(info, v).Failure?
    decreases |vs|
  {
    if vs != [] {
      var v := vs[0];
      assert forall w :: w in vs <==> w == v || w in vs[1..];
      if !v.spec.typ.StructType? || RuleSetOf(info, v).Success? {
        var next := if v.spec.typ.StructType? && HasRules(RuleSetOf(info, v).value)
                    then Record(info, v, RuleSetOf(info, v).value, acc) else acc;
        CollectFails(info, vs[1..], next);
      }
    }
  }

  /** ParseDirectly's result, described by the visits alone: it fails exactly when some
      struct's rule set cannot be built; otherwise the known types are the kept visits'
      types in visit order, every kept visit's key is stored, and each stored key holds
      the rule set of the last kept visit under it. */
  lemma ParsedPackageComplete(info: PackageInfo)
    ensures ParsedPackage(info).Failure? <==>
      exists v :: v in Visits(info.files) && v.spec.typ.StructType? && RuleSetOf(info, v).Failure?
    ensures ParsedPackage(info).Success? ==>
      var c := ParsedPackage(info).value;
      var vs := Visits(info.files);
      && c.knownTypes == Infos(info, Ruled(info, vs))
      && (forall v :: v in vs && IsRuled(info, v) ==> TypeKey(info.pkgPath, v.spec) in c.ruleSets)
      && (forall k :: k in c.ruleSets <==> LastUnder(info, vs, k).Some?)
      && (forall k :: k in c.ruleSets ==> Some(c.ruleSets[k]) == LastUnder(info, vs, k))
  {
    var vs := Visits(info.files);
    var start := Collected(map[], []);
    CollectFails(info, vs, start);
    if ParsedPackage(info).Success? {
      CollectKnownTypes(info, vs, start);
      CollectRuleSets(info, vs, start);
      forall v | v in vs && IsRuled(info, v)
        ensures TypeKey(info.pkgPath, v.spec) in ParsedPackage(info).value.ruleSets
      {
        KeptVisitStored(info, vs, v);
      }
    }
  }
}
