# veritas, modelled in Dafny

veritas validates Go values against CEL rules. The rules come from two places:
`validate:"…"` struct tags and `// @cel:` doc comments. A code generator turns them into
`veritas.ValidationRuleSet` values, keyed by `pkgPath.TypeName[T, U]`. The generated code
registers those rule sets in a global registry. At run time a `Validator` walks a value,
picks each struct's rule set, and collects every rule violation.

This project models five parts of that pipeline and proves properties about them.

- **The tag-to-CEL rule extractor** (`Parser`, `ParserPackage`).
  - Types are sorted into shorthand categories.
  - The comma-split tag tokens are parsed into a directive tree (`dive`, `keys`, `values`,
    `cel:` expressions, shorthand runs).
  - Each node is rendered to CEL, with the scope variable `x`, `k` or `v` substituted.
  - The rendered pieces are grouped into the final per-field rules.
  - Rule-set keys and `@cel:` type rules are collected from abstract declarations.
- **The validation walk** (`Validation`).
  - The native path and the adapter path.
  - Type-name resolution, including generic instantiations.
  - Dereferencing and adapting values, and the native-environment cache.
  - Option merging in `NewValidator`.
  - The recursion into fields, slice elements and map values.
- **The global registry** (`Registry`).
- **The error values** (`Errors`).
- **The two registration-code emitters** (`Emit`, `GoCodeGen`, `Injection`).
  - The text both generators write, before gofmt.
  - The line splice that replaces or appends a function in an existing file.

Where the Go code changes state step by step, the model does too:
- the generator's `buf` field;
- the registry map;
- the validator's environment cache and its error list;
- the loops that build strings and maps.

Each of those methods is proved against a specification. For most it is a function that
defines the result, and the properties are proved about that function. For the validation
walk it is a predicate that fixes the order of the errors: a struct's type rules in rule
order, then its field rules, then its fields in declaration order, slice elements by index
and map values in iteration order. Only the field rules, which Go runs in map order, are
pinned down as a multiset. Each order predicate is proved to agree with a multiset
function, and the remaining properties of the walk are proved about that function. Go values and types are abstract trees. CEL compilation and
evaluation, and type adapters, are functions held by an `Engine` or `AdapterFunc` object,
about which nothing is assumed.

Files: `wrappers.dfy` (Option, Result), `text.dfy` (the `strings`/`sort` operations used),
`rules.dfy`, `errors.dfy`, `registry.dfy`, `parser.dfy`, `parser_package.dfy`,
`validator.dfy`, `emit.dfy`, `gocode_gen.dfy`, `injection.dfy`.

## Model

| member | source | states |
|---|---|---|
| Errors.NewValidationError | errors.go:22-28 | the three arguments are stored unchanged as type name, field name and rule |
| Errors.NewFatalError | errors.go:40-43 | the message is stored unchanged |
| Errors.ValidationMessageEnds | errors.go:14-19 | the message starts with the type name and ends with `: validation failed, rule: <rule>`, for both formats |
| Errors.ValidationMessageNamesField | errors.go:14-19 | two errors about the same type and rule with equal messages name the same field: an empty field name and a non-empty one can never give the same text |
| Errors.FatalMessageRoundTrip | errors.go:36-43 | removing the prefix `veritas fatal error: ` from a fatal error's message gives back exactly the message it was created with |
| Registry.Registry.constructor | registry.go:5-8 | the registry starts empty |
| Registry.Registry.Register | registry.go:12-16 | the name maps to the new rule set, replacing any earlier one; no other key is added, removed or changed |
| Registry.Registry.Unregister | registry.go:20-24 | the name is absent afterwards; no other entry changes; removing an absent name changes nothing |
| Registry.Registry.UnregisterAll | registry.go:28-32 | the registry is empty afterwards |
| Registry.RegistryProvider.constructor | registry.go:35-37 | the provider reads the registry it is created for |
| Registry.RegistryProvider.GetRuleSets | registry.go:42-52 | the copy loop returns exactly the registry's entries and never an error |
| Registry.SnapshotIsolated | registry.go:42-52 | a snapshot taken before a Register and an Unregister keeps the old entries; a snapshot taken after shows both changes |
| Parser.Unnamed | cmd/veritas/parser/parser.go:466-472 | unwrapping named types always ends at a type that is not named |
| Parser.Underlying | cmd/veritas/parser/parser.go:354 | the underlying type is never named and never a type parameter; a type parameter's underlying type is its constraint interface |
| Parser.CategorizeType | cmd/veritas/parser/parser.go:464-507 | the unwrapping loop terminates with the category of the type it reaches |
| Parser.CategoryClassification | cmd/veritas/parser/parser.go:474-506 | each direction of: `ptr` for type parameters, pointers and interfaces; `uint` for unsigned integer kinds; `int` for the other integer kinds; `string`, `slice` and `map` for exactly those types |
| Parser.CategoryThroughNames | cmd/veritas/parser/parser.go:466-472 | naming a type does not change its category |
| Parser.RequiredOnlyForPtr | cmd/veritas/parser/parser.go:26-28 | `required` yields a condition exactly for the `ptr` category, and then it is the null check on the scope variable |
| Parser.EmailUniform | cmd/veritas/parser/parser.go:39 | `email` expands to the same text for every type |
| Parser.NonzeroCategories | cmd/veritas/parser/parser.go:29-38 | `nonzero` expands to nothing exactly for the `other` category |
| Parser.UnknownShorthandDropped | cmd/veritas/parser/parser.go:442-446 | a shorthand that is neither in the table nor a `cel:` text expands to nothing |
| Parser.TopLevelVerbatim | cmd/veritas/parser/parser.go:438-440 | with scope variable `self`, a `cel:` text comes out exactly as written after the `cel:` |
| Parser.ScopedConditionHasNoSelf | cmd/veritas/parser/parser.go:437-462 | with scope variable `x`, `k` or `v`, no `self` is left in any expansion, `cel:` texts included |
| Parser.CelEnd | cmd/veritas/parser/parser.go:408-418 | the `cel:` scan takes the longest run of tokens that are not directives, and stops at a directive |
| Parser.ShorthandEnd | cmd/veritas/parser/parser.go:424-431 | the shorthand scan takes the longest run of tokens that neither are a directive nor start with `cel:` |
| Parser.ParseTree | cmd/veritas/parser/parser.go:344-435 | the tokens left over are a suffix of the input, strictly shorter when the input is not empty |
| Parser.ParseRule | cmd/veritas/parser/parser.go:344-352 | the recursive parser as the generator runs it gives the node and remainder that `ParseTree` defines |
| Parser.ParseDive | cmd/veritas/parser/parser.go:353-372 | the `dive` loop gives what `ParseTree` defines, error cases included |
| Parser.ParseKeysValues | cmd/veritas/parser/parser.go:373-396 | the `keys`/`values` cases give what `ParseTree` defines, error cases included |
| Parser.ParseCel | cmd/veritas/parser/parser.go:399-421 | the `cel:` loop gives what `ParseTree` defines |
| Parser.AbsorbCel | cmd/veritas/parser/parser.go:405-418 | the `cel:` loop stops at the first directive token and writes `,` and each raw token before it after the expression |
| Parser.CelNode | cmd/veritas/parser/parser.go:399-421 | a `cel:` node leaves a suffix of the tokens, strictly shorter than the input |
| Parser.ParseShorthands | cmd/veritas/parser/parser.go:423-433 | the shorthand loop gives what `ParseTree` defines |
| Parser.ShorthandNode | cmd/veritas/parser/parser.go:423-433 | a run of shorthands leaves a suffix of the tokens, strictly shorter when the first token is a shorthand |
| Parser.DiveConsumesAll | cmd/veritas/parser/parser.go:353-372 | `dive` succeeds exactly on a slice whose element type parses all remaining tokens; it leaves no token and its children are those nodes |
| Parser.KeysValuesTakeOneGroup | cmd/veritas/parser/parser.go:373-396 | `keys`/`values` fail off a map; on a map they have exactly one child, parsed at the key or element type, and leave what that child leaves |
| Parser.TrailingKeysGivesNilChild | cmd/veritas/parser/parser.go:345-347 | `keys` or `values` as the last token succeeds with a nil child |
| Parser.DirectiveOnWrongType | cmd/veritas/parser/parser.go:354-357 | `dive` off a slice, and `keys`/`values` off a map, give the matching error |
| Parser.ShorthandGroupStops | cmd/veritas/parser/parser.go:423-433 | a shorthand run is non-empty, is kept as the raw tokens, and stops exactly at the first directive or `cel:` token |
| Parser.CelAbsorbsUntilDirective | cmd/veritas/parser/parser.go:399-421 | a `cel:` node holds the trimmed first token's expression followed by `,` and each later raw token up to the next directive; a further `cel:` does not stop it |
| Parser.Conditions | cmd/veritas/parser/parser.go:307-317 | a leaf's conditions are all non-empty and no more numerous than its shorthands |
| Parser.ToCEL | cmd/veritas/parser/parser.go:306-342 | the recursive renderer, with its in-place base-variable update, gives what `Render` defines |
| Parser.LeafConditions | cmd/veritas/parser/parser.go:308-317 | the leaf loop skips empty shorthands and empty expansions, as `Conditions` defines |
| Parser.ConditionsStep | cmd/veritas/parser/parser.go:308-317 | one turn of the leaf loop puts the shorthand's expansion, when non-empty, before those of the later shorthands |
| Parser.NestedToCEL | cmd/veritas/parser/parser.go:331-339 | the directive loop renders each child with the directive's variable as its base, stopping at the first failure |
| Parser.RenderSingleChild | cmd/veritas/parser/parser.go:321-341 | a directive with one child renders as `<base>.all(<var>, <child>)` |
| Parser.NestedDives | cmd/veritas/parser/parser.go:321-341 | two nested `dive`s render as an `all` over `x` on `self` around an `all` over `x` on `x`: the inner scope reuses `x` |
| Parser.MatrixParse | cmd/veritas/parser/parser_test.go:57 | `dive,dive,nonzero` on `[][]int` parses to two nested dives around a leaf, leaving nothing |
| Parser.MatrixRender | cmd/veritas/parser/parser_test.go:57 | that tree renders as `self.all(x, x.all(x, x != 0))` |
| Parser.MatrixExample | cmd/veritas/parser/parser_test.go:57 | the whole of processRules gives exactly the one rule `self.all(x, x.all(x, x != 0))` |
| Parser.MatrixRendered | cmd/veritas/parser/parser_test.go:57 | the first loop of processRules gives the single piece `self.all(x, x.all(x, x != 0))` |
| Parser.MatrixGrouped | cmd/veritas/parser/parser_test.go:57 | grouping keeps that piece as it is, since it holds `.all(` |
| Parser.ResourceMapExample | cmd/veritas/parser/parser_test.go:52-55 | `keys,cel:self.startsWith('id_'),values,required` on `map[string]*int` gives exactly the two rules `self.all(k, k.startsWith('id_'))` and `self.all(v, v != null)` |
| Parser.ResourceMapKeysParse | cmd/veritas/parser/parser.go:373-384 | `keys` takes the `cel:` token as its one child over the key type and stops at `values` |
| Parser.ResourceMapValuesParse | cmd/veritas/parser/parser.go:385-396 | `values` takes `required` as its one child over the value type, leaving nothing |
| Parser.ResourceMapKeysRender | cmd/veritas/parser/parser.go:321-341 | the keys node renders as `self.all(k, k.startsWith('id_'))` |
| Parser.ResourceMapValuesRender | cmd/veritas/parser/parser.go:321-341 | the values node renders as `self.all(v, v != null)` |
| Parser.GroupedDirectivePair | cmd/veritas/parser/parser.go:278-291 | two directive rules are kept apart, in order |
| Parser.ResourceMapRendered | cmd/veritas/parser/parser.go:259-273 | the first loop of processRules gives the keys rule then the values rule |
| Parser.ResourceMapGrouped | cmd/veritas/parser/parser.go:278-291 | grouping keeps both rules as they are |
| Parser.BareDive | cmd/veritas/parser/parser.go:341 | a bare `dive` on a slice gives the rule `self.all(x, )`, with an empty body |
| Parser.BareDiveParse | cmd/veritas/parser/parser.go:353-372 | a bare `dive` on a slice parses to a dive with no children |
| Parser.BareDiveRender | cmd/veritas/parser/parser.go:321-341 | a dive with no children renders with an empty body |
| Parser.RenderedStep | cmd/veritas/parser/parser.go:259-272 | one round of the first loop keeps the rendered piece only when it is non-empty |
| Parser.ProcessRules | cmd/veritas/parser/parser.go:256-295 | processRules as the generator runs it gives the rules, error or panic that `ProcessedRules` defines |
| Parser.RenderRules | cmd/veritas/parser/parser.go:257-272 | the first loop gives what `RenderedRules` defines |
| Parser.GroupRules | cmd/veritas/parser/parser.go:274-292 | the grouping loop gives what `Grouped` defines |
| Parser.GroupFrom | cmd/veritas/parser/parser.go:278-292 | grouping gives no entry exactly when there is nothing pending and nothing left |
| Parser.GroupFromKeepsConjunction | cmd/veritas/parser/parser.go:278-292 | grouping keeps the conjunction: the entries joined with ` && ` are the pieces joined with ` && `, in order |
| Parser.GroupedKeepsConjunction | cmd/veritas/parser/parser.go:274-295 | the final rules joined with ` && ` are the rendered pieces joined with ` && ` |
| Parser.GroupFromShape | cmd/veritas/parser/parser.go:278-292 | every piece containing `.all(` is an entry of its own; no entry is empty; there are no more entries than pieces plus one |
| ParserPackage.GroupTexts | cmd/veritas/parser/parser.go:128-139 | one text per type-parameter group |
| ParserPackage.StructNameLists | cmd/veritas/parser/parser.go:123-142 | the struct name is the bare name, or `Name[p1, p2, …]` listing every type parameter once, in order, with `, ` between them, whatever the grouping |
| ParserPackage.GroupsFlatten | cmd/veritas/parser/parser.go:128-139 | joining the group texts with `, ` equals joining all parameter names with `, ` |
| ParserPackage.BuildStructName | cmd/veritas/parser/parser.go:123-142 | the name builder's loops write the name `StructName` defines |
| ParserPackage.WriteNames | cmd/veritas/parser/parser.go:133-138 | the inner loop writes the group's parameter names with `, ` between them |
| ParserPackage.CollectDocRules | cmd/veritas/parser/parser.go:148-155 | the doc loop collects the type rules `DocTypeRules` defines |
| ParserPackage.DocTypeRulesLine | cmd/veritas/parser/parser.go:150-153 | a comment line adds a type rule exactly when it starts with `// @cel:`, and the rule is the rest of the line with the white space at both ends removed |
| ParserPackage.DocTypeRulesConcat | cmd/veritas/parser/parser.go:149-154 | type rules keep the order of the comment lines |
| ParserPackage.DocTypeRulesBound | cmd/veritas/parser/parser.go:149-154 | at most one type rule per comment line |
| ParserPackage.FindStruct | cmd/veritas/parser/parser.go:233-251 | the lookup finds fields exactly when some top-level type spec with that name is a struct |
| ParserPackage.EmbeddedStruct | cmd/veritas/parser/parser.go:214-254 | only a named type of the same package is followed |
| ParserPackage.ExtractRulesForStruct | cmd/veritas/parser/parser.go:176-212 | the field loop, with its descent into embedded structs, gives what `FieldRulesFrom` defines |
| ParserPackage.ExtractField | cmd/veritas/parser/parser.go:177-211 | one field: an embedded struct is descended into, an untagged, untyped or rejected field leaves the map alone, and otherwise a non-empty rule list is stored under the first name |
| ParserPackage.FieldRulesNonEmpty | cmd/veritas/parser/parser.go:208-210 | every field that gets an entry gets a non-empty list of rules |
| ParserPackage.FieldRulesKeys | cmd/veritas/parser/parser.go:176-212 | no entry is removed, and new keys are only the first names of fields of the struct or of its embedded structs |
| ParserPackage.RejectedFieldSkipped | cmd/veritas/parser/parser.go:202-207 | a field whose tag does not parse for its type leaves the rule map as it was |
| ParserPackage.GenDeclVisits | cmd/veritas/parser/parser.go:107-117 | every visited spec belongs to the declaration and carries its doc comment |
| ParserPackage.ParseDirectly | cmd/veritas/parser/parser.go:102-174 | the syntax walk as the generator runs it gives the rule sets and known types `ParsedPackage` defines, which `ParsedPackageComplete` pins down visit by visit |
| ParserPackage.CollectConsistent | cmd/veritas/parser/parser.go:106-171 | the walk keeps its invariant: each stored rule set has a rule and sits under the key of a visited struct; each known type belongs to the package; there are no more keys than known types |
| ParserPackage.RecordConsistent | cmd/veritas/parser/parser.go:158-167 | storing one non-empty rule set keeps that invariant |
| ParserPackage.ParsedPackageConsistent | cmd/veritas/parser/parser.go:158-167 | a type with neither type nor field rules is left out; every key is `PkgPath.StructName` of a visited struct; every known type carries the package's path and name |
| ParserPackage.ParsedPackageComplete | cmd/veritas/parser/parser.go:102-174 | the walk fails exactly when some struct's rendering fails; otherwise the known types are exactly the ruled structs, in visit order, and the keys are exactly theirs, each holding the rule set of the last struct visited under it |
| ParserPackage.CollectKnownTypes | cmd/veritas/parser/parser.go:158-167 | the walk appends one known type per ruled struct, in visit order |
| ParserPackage.CollectRuleSets | cmd/veritas/parser/parser.go:158-167 | a key is stored exactly when it was there before or a ruled struct has it; the last such struct decides the value |
| ParserPackage.KeptVisitStored | cmd/veritas/parser/parser.go:158-161 | every ruled struct's key is in the result |
| ParserPackage.CollectFails | cmd/veritas/parser/parser.go:143-167 | the walk fails exactly when some visited struct's rules fail to render |
| Validation.Engine.constructor | engine.go:13-17 | the engine holds the compilation, evaluation and environment functions it is given |
| Validation.AdapterFunc.constructor | validator.go:17-18 | the adapter holds the function it is given |
| Validation.TypeRuleErrorsOne | validator.go:405-437 | each direction of: one type rule adds no error exactly when it compiles and holds, or fails with `no matching overload` on the native path; at most one error; a violation names the type and no field |
| Validation.TypeRulesErrorsSpec | validator.go:557-575 | each direction of: type rules add no error exactly when each is silent; at most one error per rule; the others still run |
| Validation.FieldRuleErrorsOne | validator.go:476-500 | each direction of: one field rule adds no error exactly when it compiles and evaluates to true; a violation names the type and the field |
| Validation.FieldRulesErrorsSpec | validator.go:588-606 | each direction of: a field's rules add no error exactly when all hold; at most one error per rule |
| Validation.EvalTypeRule | validator.go:406-437 | one round of the type-rule loop appends what `TypeRuleErrors` defines |
| Validation.EvalTypeRules | validator.go:557-575 | the type-rule loop appends the errors `TypeRulesErrors` defines, in rule order |
| Validation.EvalFieldRule | validator.go:477-500 | one round of the field-rule loop appends what `FieldRuleErrors` defines |
| Validation.EvalFieldRules | validator.go:588-606 | a field's rule loop appends the errors `FieldRulesErrors` defines, in rule order |
| Validation.FieldByName | validator.go:443-447 | a found field has the name and is the only field with it at the shallowest embedding depth where the name occurs; nothing is found when no depth has the name or two fields share it there; a field of the struct itself wins over promoted ones |
| Validation.FindFromSpec | validator.go:443-447 | the breadth-first search from depth `d` finds the unique field at the first depth with the name, and gives nothing when no depth has it or that depth holds two |
| Validation.PromotedFieldFound | validator.go:443-447 | a field of an embedded struct is found by its own name when the outer struct has no field of that name |
| Validation.AmbiguousPromotionNotFound | validator.go:443-447 | a name promoted from two embedded structs at the same depth is not found |
| Validation.ExportedFieldsDoNotPanic | validator.go:443-465 | reading a field never panics when every field is exported |
| Validation.NativeBound | validator.go:449-465 | a nil pointer field is bound to null, a non-nil one to its pointee, any other value to itself |
| Validation.Validator.constructor | validator.go:150-159 | the validator holds its engine, rules, adapters and native types, and its cache starts empty |
| Validation.Validator.GetNativeEnv | validator.go:281-303 | the cache is transparent: the answer is what creating the environment gives; only a success is cached |
| Validation.Validator.GenericKeyUnique | validator.go:225-229 | when rule keys are unambiguous, any key with the prefix `base[` is the one the search finds |
| Validation.Validator.GetGenericTypeName | validator.go:613-623 | a key is returned exactly when one has the prefix `base[`; otherwise `""` and false |
| Validation.Validator.GetTypeName | validator.go:207-234 | the full name (`pkgPath.name`, or `name` alone), or for a generic instantiation a rule key starting with `pkgPath.base[` |
| Validation.Validator.Adapted | validator.go:246-254 | an adapter's map when it succeeds, otherwise the struct itself |
| Validation.Validator.DereferenceAndAdapt | validator.go:239-276 | null exactly for a nil pointer; the adapter's map exactly when the (dereferenced) struct has an adapter that succeeds; otherwise the dereferenced value |
| Validation.Validator.AdaptAll | validator.go:551-554 | the adapted map has the same keys, and each value is dereferenced and adapted |
| Validation.Validator.AdaptMap | validator.go:551-554 | the loop builds that map |
| Validation.Validator.AdapterFieldRules | validator.go:578-607 | whatever the order the map yields its keys in, the loop appends, after the earlier errors, the errors of every field, as a multiset |
| Validation.Validator.AdapterField | validator.go:579-605 | one field: earlier errors kept; nothing when the adapted map lacks the field; otherwise its rules' errors on the dereferenced, adapted value |
| Validation.Validator.ValidateWithAdapter | validator.go:507-609 | earlier errors are kept; the adapter path appends what `AdapterOrder` fixes: nothing without an adapter or rules, one fatal error for a failing adapter, otherwise the type rules' errors in rule order followed by the field rules' errors (as a multiset); and so the multiset `AdapterErrors` |
| Validation.Validator.AdapterRules | validator.go:549-607 | after the earlier errors, the type rules' errors on the adapted map in rule order, then the field rules' errors as a multiset |
| Validation.Validator.NativeFieldRules | validator.go:440-503 | the loop panics exactly when some ruled field is found unexported and not a nil pointer; otherwise, whatever the order the map yields its keys in, it appends the errors of every field, as a multiset |
| Validation.Validator.NativeField | validator.go:443-502 | one field: a panic exactly when the found field is unexported and not a nil pointer; otherwise earlier errors kept; nothing for a missing field or one holding a native struct; otherwise its rules' errors |
| Validation.Validator.ValidateNative | validator.go:389-504 | earlier errors are kept and the cache stays valid; with unambiguous keys it panics exactly as `NativePanics` says, and otherwise appends what `NativeOrder` fixes: nothing without rules, one fatal error when the environment fails, otherwise the type rules' errors in rule order followed by the field rules' errors (as a multiset) |
| Validation.Validator.NativeRules | validator.go:403-503 | after the earlier errors, the type rules' errors in rule order, then the field rules' errors as a multiset; a panic exactly when some ruled field is unexported and not a nil pointer |
| Validation.Validator.ValidateRecursive | validator.go:313-386 | earlier errors are kept; a done context appends exactly one cancellation and nothing else; otherwise the walk panics exactly as `WalkPanics` says, and else appends errors in the order `WalkOrder` fixes, with the multiset `Walk` |
| Validation.Validator.ValidateStruct | validator.go:335-386 | a struct's own errors on the path its type selects, followed by its fields' errors (`StructOrder`); a panic exactly as `StructPanics` says |
| Validation.Validator.ValidateFields | validator.go:348-385 | the field loop walks every field in declaration order (`FieldsOrder`), and panics exactly when some field's walk panics |
| Validation.Validator.ValidateField | validator.go:349-384 | the switch on one field's kind recurses exactly into struct, non-nil pointer-to-struct, slice and map fields, in the order `ChildOrder` fixes, and panics exactly when that walk does |
| Validation.Validator.ValidateElems | validator.go:366-373 | the slice loop panics exactly when some element's walk panics, and otherwise appends every element's walk, by ascending index (`ElemsOrder`) |
| Validation.Validator.ValidateEntries | validator.go:375-383 | the map loop panics exactly when some value's walk panics, and otherwise appends every value's walk, each kept in its own order, in the order the iteration visits the entries (`EntriesOrder`) |
| Validation.Validator.ValidateEntry | validator.go:377-383 | a map entry contributes its value's walk, in that walk's order |
| Validation.Validator.ValidateAny | validator.go:368-383 | a slice element or map value contributes the walk of what it holds, in that walk's order |
| Validation.Validator.Validate | validator.go:179-203 | nothing for a nil pointer or a non-struct; a done context gives only the cancellation; a panic exactly when the walk panics, with no result; otherwise no error exactly when the walk collected none, and else all the walk's errors in the order `WalkOrder` fixes |
| Validation.Validator.OwnOrderMultiset | validator.go:389-609 | a struct's own errors in the order validateNative or validateWithAdapter appends them are, as a multiset, `OwnErrors` |
| Validation.Validator.WalkOrderMultiset | validator.go:313-386 | errors in the walk's order are, as a multiset, the walk's errors |
| Validation.Validator.StructOrderMultiset | validator.go:335-386 | the same for a struct: own errors then fields |
| Validation.Validator.FieldsOrderMultiset | validator.go:348-385 | the same for the fields in declaration order |
| Validation.Validator.ChildOrderMultiset | validator.go:349-384 | the same for one field |
| Validation.Validator.AnyOrderMultiset | validator.go:368-383 | the same for a slice element or map value |
| Validation.Validator.ElemsOrderMultiset | validator.go:366-373 | the same for a slice, by index |
| Validation.Validator.EntriesOrderMultiset | validator.go:375-383 | the same for a map, in iteration order |
| Validation.Validator.EntryOrderMultiset | validator.go:377-383 | the same for one map entry |
| Validation.Validator.FieldsOrderSnoc | validator.go:348-385 | walking one more field appends its walk after those of the earlier fields |
| Validation.Validator.ElemsOrderSnoc | validator.go:366-373 | walking one more element appends its walk after those of the earlier elements |
| Validation.Validator.EntriesOrderSnoc | validator.go:375-383 | walking one more map entry appends its value's walk after those of the earlier entries |
| Validation.Validator.StructOrderIntro | validator.go:335-386 | a struct's own errors followed by its fields' errors are in the struct's order |
| Validation.Validator.AdapterErrorsShape | validator.go:520-547 | every adapter-path error is about the adapter's target rule set: never a cancellation, and a violation names the target type and either no field or a field with rules |
| Validation.Validator.AdaptedErrorsSplit | validator.go:549-608 | each adapter-path error comes from the type rules or from one field's rules |
| Validation.Validator.AdapterFieldsShape | validator.go:578-607 | an error of the adapter field loop names a field that has rules |
| Validation.Validator.FieldEntryShape | validator.go:588-606 | an error of one field's rules names that type and that field |
| Validation.Validator.NativeErrorsShape | validator.go:389-504 | every native-path error is about the type's own rule set |
| Validation.Validator.NativeErrorsSplit | validator.go:403-503 | each native-path error comes from the type rules or from one field's rules |
| Validation.Validator.NativeFieldsShape | validator.go:440-503 | an error of the native field loop names a field that has rules |
| Validation.Validator.UnexportedRuledFieldPanics | validator.go:443-465 | a rule on an unexported, non-nil field of a natively validated struct makes the walk panic, for the struct and for a pointer to it |
| Validation.Validator.UnruledStructWalksFields | validator.go:337-385 | a struct without a rule set, or without an adapter off the native path, adds nothing itself, but its fields are still walked, behind a pointer too |
| Validation.Validator.AdapterFailureIsFatal | validator.go:536-547 | a failing adapter yields exactly one fatal error, naming the target, and no rule runs |
| Validation.Validator.CancelledWalk | validator.go:313-320 | with the context done, the walk and Validate report the cancellation once and nothing else |
| Validation.Validator.FieldsWalkIncludes | validator.go:348-385 | every exported field's contribution is part of the struct's walk |
| Validation.Validator.ElemsWalkIncludes | validator.go:366-373 | every slice element is walked |
| Validation.Validator.EntriesWalkIncludes | validator.go:375-383 | every map value is walked |
| Validation.Validator.NestedStructsWalked | validator.go:346-385 | nested struct fields, non-nil pointers to structs, and the elements of slice and map fields contribute their whole walk, whether or not the outer type has rules |
| Validation.Validator.EntriesWalkIgnoresKeys | validator.go:377-383 | map keys are never walked: maps with the same values give the same errors |
| Validation.Validator.OwnErrorsNotCancelled | validator.go:389-609 | a struct's own rules never report a cancellation |
| Validation.Validator.WalkNotCancelled | validator.go:313-386 | with the context live, the walk never reports a cancellation |
| Validation.Validator.StructWalkNotCancelled | validator.go:335-386 | the same for a struct's walk |
| Validation.Validator.FieldsWalkNotCancelled | validator.go:348-385 | the same for a struct's fields |
| Validation.Validator.ChildWalkNotCancelled | validator.go:356-384 | the same for one field |
| Validation.Validator.AnyWalkNotCancelled | validator.go:370-381 | the same for a slice element or map value |
| Validation.Validator.ElemsWalkNotCancelled | validator.go:366-373 | the same for a slice |
| Validation.Validator.EntriesWalkNotCancelled | validator.go:375-383 | the same for a map |
| Validation.Validator.EntryWalkNotCancelled | validator.go:379-382 | the same for one map entry |
| Validation.ApplyOption | validator.go:51-85 | an adapter option adds exactly its own types to the adapter map |
| Validation.ValidatorOptions.constructor | validator.go:91-96 | the options start with no engine, no provider, no adapters and no types |
| Validation.ValidatorOptions.Apply | validator.go:99-101 | calling an option updates the options in place as the option specifies |
| Validation.MergeAdapters | validator.go:72-78 | the merged map has both key sets; the added entries win; the other entries are kept |
| Validation.AppliedAdapters | validator.go:72-78 | each direction of: a type has an adapter exactly when some adapter option names it, and the last such option decides which |
| Validation.AppliedTypes | validator.go:81-85 | each direction of: the native types are exactly those some WithTypes option names |
| Validation.AppliedEngine | validator.go:51-55 | each direction of: there is no engine exactly when no option sets one; otherwise the last one wins |
| Validation.FirstEnvFailure | validator.go:162-173 | each direction of: no failure exactly when every listed type's environment can be created; a failure is a listed type that fails |
| Validation.ApplyOptions | validator.go:98-101 | the option loop applies the options in order to the defaults |
| Validation.CreateInitialEnvs | validator.go:161-173 | the loop fails exactly at the first type whose environment fails, with that message; otherwise every listed type is cached |
| Validation.NewValidator | validator.go:89-176 | the error is the first of the constructor's checks to fail; otherwise a fresh validator with the chosen engine, the loaded rules, the merged adapters and the WithTypes types, each with a cached environment |
| Validation.BuildValidator | validator.go:126-176 | the object and field environments are checked in that order, then the validator is built and each WithTypes type gets a cached environment, stopping at the first failure |
| Text.Split | cmd/veritas/gen/injection/injection.go:151 | the pieces contain no separator, and there is always at least one |
| Text.JoinSplit | cmd/veritas/gen/injection/injection.go:151 | joining the pieces of a split with the separator gives back the text |
| Emit.TypeRulesBlock | cmd/veritas/gocode_generator.go:50-56 | the `TypeRules` part is empty exactly when there are no type rules |
| Emit.FieldRulesListing | cmd/veritas/gocode_generator.go:57-72 | the `FieldRules` part is empty exactly when there are no field rules |
| Emit.SortedKeysOf | cmd/veritas/gocode_generator.go:41-45 | collecting the keys and sorting them lists every key exactly once, in strictly ascending order |
| Emit.RegisterCallsAnyListing | cmd/veritas/gocode_generator.go:41-47 | the registrations do not depend on the order the map yields its keys in |
| Emit.RegisterCallsAt | cmd/veritas/gocode_generator.go:47-74 | every key's registration appears once, after those of all smaller keys and before those of all larger ones |
| Emit.RegisterBlocksSnoc | cmd/veritas/gocode_generator.go:47-74 | one more key adds its registration at the end |
| Emit.RegisterBlocksConcat | cmd/veritas/gocode_generator.go:47-74 | the registrations of two listings are those of each, in order |
| Emit.FieldBlocksConcat | cmd/veritas/gocode_generator.go:64-70 | field entries come in the order the field names are listed |
| Emit.RuleLinesConcat | cmd/veritas/gocode_generator.go:52-54 | rules keep their original order |
| GoCodeGen.GoCodeGenerator.constructor | cmd/veritas/gocode_generator.go:21-26 | a new generator's buffer is empty |
| GoCodeGen.GoCodeGenerator.Printf | cmd/veritas/gocode_generator.go:87-89 | the text is appended to the buffer |
| GoCodeGen.GoCodeGenerator.Generate | cmd/veritas/gocode_generator.go:28-85 | whatever the buffer held, it ends up holding the header and one `init` function with the registrations in ascending key order |
| GoCodeGen.GoCodeGenerator.PrintHeader | cmd/veritas/gocode_generator.go:33-36 | the package clause and the import block are appended |
| GoCodeGen.GoCodeGenerator.PrintInit | cmd/veritas/gocode_generator.go:39-75 | the `init` function with every registration in ascending key order is appended |
| GoCodeGen.GoCodeGenerator.PrintRegistrations | cmd/veritas/gocode_generator.go:47-74 | the key loop appends the registrations of the keys in the order listed |
| GoCodeGen.GoCodeGenerator.PrintRuleSetAt | cmd/veritas/gocode_generator.go:48-73 | one round of the key loop appends the next key's registration |
| GoCodeGen.GoCodeGenerator.PrintRuleSet | cmd/veritas/gocode_generator.go:48-73 | one registration, with the field names in ascending order |
| GoCodeGen.GoCodeGenerator.PrintRegistration | cmd/veritas/gocode_generator.go:49-73 | one registration, for a given listing of the field names |
| GoCodeGen.GoCodeGenerator.PrintTypeRules | cmd/veritas/gocode_generator.go:50-56 | the `TypeRules` part, printed only for a non-empty list |
| GoCodeGen.GoCodeGenerator.PrintFieldRules | cmd/veritas/gocode_generator.go:57-72 | the `FieldRules` part, printed only for a non-empty map |
| GoCodeGen.GoCodeGenerator.PrintFieldBlocks | cmd/veritas/gocode_generator.go:64-70 | the field loop appends the entries in the order listed |
| GoCodeGen.GoCodeGenerator.PrintFieldBlock | cmd/veritas/gocode_generator.go:65-69 | one field's entry |
| GoCodeGen.GoCodeGenerator.PrintRules | cmd/veritas/gocode_generator.go:52-54 | the rules between backquotes, in their original order |
| GoCodeGen.GoSourceStartsWithPackage | cmd/veritas/gocode_generator.go:33-36 | the generated file starts with `package <pkgName>` and an empty line |
| Injection.AppendSeparator | cmd/veritas/gen/injection/injection.go:142-145 | the separator is one or two newlines, and the file then ends in a newline |
| Injection.Terminated | cmd/veritas/gen/injection/injection.go:166-169 | the new text ends in a newline, with at most one character added, and is unchanged if it already ended in one |
| Injection.ReplaceOrAppendFunction | cmd/veritas/gen/injection/injection.go:122-181 | the builder loops give the text `Spliced` defines |
| Injection.AppendFunction | cmd/veritas/gen/injection/injection.go:138-148 | with no declaration found, the file, the separator and the function, as `Spliced` defines |
| Injection.ReplaceFunction | cmd/veritas/gen/injection/injection.go:150-180 | with a declaration found, the lines around its span kept and the newline-terminated function between them, as `Spliced` defines |
| Injection.WriteLinesBefore | cmd/veritas/gen/injection/injection.go:161-164 | the lines before the span, each followed by a newline |
| Injection.WriteLinesFrom | cmd/veritas/gen/injection/injection.go:171-178 | the lines after the span, with a newline between two of them and none after the last |
| Injection.AppendKeepsFile | cmd/veritas/gen/injection/injection.go:138-148 | appending keeps the whole file in front and the function at the end, with one or two newlines between them, so that exactly one empty line separates them |
| Injection.ReplaceKeepsSurroundings | cmd/veritas/gen/injection/injection.go:150-180 | replacing keeps the lines before the span, then the new text, then the lines after the span |
| Injection.ReplaceWithOwnText | cmd/veritas/gen/injection/injection.go:150-180 | putting the span's own lines back, newline-terminated, leaves the file unchanged |
| Injection.GenerateSetupValidation | cmd/veritas/gen/injection/injection.go:183-228 | the text is `func setupValidation() {`, the registrations in ascending key order (those of the code generator), then `}` |
| Injection.BuildRegisterBlock | cmd/veritas/gen/injection/injection.go:193-218 | one registration, with the field names in ascending order |
| Injection.BuildRegistration | cmd/veritas/gen/injection/injection.go:194-218 | one registration, for a given listing of the field names |
| Injection.BuildTypeRules | cmd/veritas/gen/injection/injection.go:195-201 | the `TypeRules` part, only for a non-empty list |
| Injection.BuildFieldRules | cmd/veritas/gen/injection/injection.go:202-217 | the `FieldRules` part, only for a non-empty map |
| Injection.BuildFieldBlocks | cmd/veritas/gen/injection/injection.go:209-215 | the field loop, in the order listed |
| Injection.BuildRuleLines | cmd/veritas/gen/injection/injection.go:197-199 | the rules between backquotes, in their original order |
| Injection.GenerateInit | cmd/veritas/gen/injection/injection.go:230-242 | an `init` function whose only statement calls `setupValidation` |
| Injection.KnownTypeLine | cmd/veritas/gen/injection/injection.go:250-254 | `Name{}` for a type of the package being generated, `pkg.Name{}` otherwise |
| Injection.GenerateGetKnownTypes | cmd/veritas/gen/injection/injection.go:244-265 | the `GetKnownTypes` function listing a zero value of each known type |
| Injection.BuildKnownTypeLines | cmd/veritas/gen/injection/injection.go:249-255 | the loop writes one element per known type |
| Injection.KnownTypeLinesConcat | cmd/veritas/gen/injection/injection.go:249-255 | the known types are listed in input order |

## Left out

- CEL itself is not modelled: compiling rules, evaluating them, and creating the object, field and native environments. These are functions held by `Engine`, and nothing is assumed about them. `engine.go` and `functions.go` are stubs that return nil, so the default engine is a parameter of `NewValidator`. `cel_lib.go` is not part of this model.
- Reflection is replaced by an abstract value tree. `Value` has structs with named, exported-or-not, embedded-or-not fields; pointers (nil or not); slices; maps as the entry sequence one iteration visits; interfaces; and scalars. `CanInterface` on an element is taken to hold.
- `Parser.Parse`, package loading and `ast.Inspect` are replaced by abstract declaration lists. The type checker's answer for a field type is part of each field.
- Shorthand runs keep their tokens untrimmed, as the parser does. So a shorthand written with surrounding spaces (`" email"`) is unknown and expands to nothing.
- Rendering a nil child is an explicit `NilDereference` result. It is what the parser's panic would be, and `ParseDirectly` stops on it.
- Logging, and the `logger` fields and options, are not modelled.
- The registry's `RWMutex` is not modelled: every operation runs alone. The unsynchronised environment cache is not modelled either.
- Validation.Validator.NativeFieldRules, AdapterFieldRules, NativeRules, AdapterRules, ValidateNative and ValidateWithAdapter: the field rules run in Go's map order, which is unspecified. The loops choose each key nondeterministically, and the field rules' errors are stated as a multiset. Everything around them, including each field's own rules in rule order, is stated as a sequence. A map-typed field is modelled as the sequence of entries one iteration visits, so its values are walked in that order.
- Validation.Validator.ValidateRecursive, ValidateNative, ValidateStruct, ValidateFields, ValidateField, ValidateElems, ValidateEntries, ValidateEntry, ValidateAny and Validate: their order and multiset statements are made only when no rule key is a `base[`-prefix of another (`UnambiguousGenerics`). When several keys share a generic base, `getTypeName` picks one in map order.
- Validation.Validator.ValidateRecursive: the context is either done before the walk or live throughout. A cancellation arriving midway is not modelled.
- Validation.FieldByName: a field promoted through a nil embedded pointer is treated as absent. Go's `FieldByName` panics when its path steps through that nil pointer; the value tree holds no type behind a nil pointer, so it cannot see those fields.
- Validation.Validator.NativeField, NativeFieldRules, ValidateNative and Validate: a panic is a boolean outcome with no message, and the panic on a path through a nil embedded pointer is not among them, for the reason above. Once a panic is reported, the errors collected so far are not described.
- The messages of errors are plain concatenations. `%v` of a `reflect.Type` and `%T` of a value are engine-supplied texts. The text of an evaluation error is the engine's message.
- Injection.ReplaceOrAppendFunction: the search of the syntax tree for the function, and the file-set line numbers, are not modelled. They are the parameter `span`, whose start line must be a line of the file or just past the last one; the Go code would index past the lines otherwise.
- Injection and GoCodeGen: `format.Source`, `imports.Process`, reading and writing files, and `io.Writer` are not modelled. The texts are those before gofmt.
- `NewValidatorFromJSONFile`, `JSONRuleProvider`, `rules_bytes.go` and the JSON form of `ValidationRuleSet` are file I/O and `encoding/json`, and are not part of this model.
- `cmd/veritas/gen/analyzer.go`, `lint/`, `cmd/veritas/main.go`, the `cmd/veritas/parser.go` stub and `examples/` are not part of this model. They are analysis passes, CLI plumbing and demo programs.
- ParserPackage.ExtractRulesForStruct: embedded structs are followed for at most as many levels as the package has top-level type specs. That bound is enough for any package without an embedding cycle.
