/** The injection mode of the `veritas` command: it puts a `setupValidation`, a
    `GetKnownTypes` and an `init` function into an existing Go file, replacing a function of
    the same name or appending it at the end. The texts are the ones before gofmt. Parsing
    the file, goimports and the file I/O are not part of this model: where the file already
    declares the function, its position is given as a span of lines. */
module Injection {
  import opened Wrappers
  import opened Text
  import opened Rules
  import opened Emit
  import ParserPackage

  // ---------------------------------------------------------------------------
  // Replacing or appending a function

  /** The lines of an existing declaration, 1-based and inclusive: from its doc comment
      (from the `func` keyword when it has none) to its closing brace. */
  datatype Span = Span(startLine: nat, endLine: nat)

  /** What goes between the file and an appended function: a newline ending an
      unterminated last line, then one empty line. */
  function AppendSeparator(original: string): (sep: string)
    ensures sep == "\n" || sep == "\n\n"
    ensures HasSuffix(original + sep, "\n")
  {
    if |original| > 0 && !HasSuffix(original, "\n") then "\n\n" else "\n"
  }

  /** The new function text, with a newline added when it does not end with one. */
  function Terminated(text: string): (r: string)
    ensures HasSuffix(r, "\n")
    ensures HasPrefix(r, text) && |r| <= |text| + 1
    ensures HasSuffix(text, "\n") ==> r == text
  {
    if HasSuffix(text, "\n") then text else text + "\n"
  }

  /** The start of the span is a line of the file, or just past the last one: the lines
      before it can be copied. */
  predicate SpanFits(original: string, span: Option<Span>) {
    span.Some? ==> 1 <= span.value.startLine <= |Split(original, '\n')| + 1
  }

  /** The new file text: the function appended, or put in place of the span's lines. */
  function Spliced(original: string, newFunc: string, span: Option<Span>): string
    requires SpanFits(original, span)
  {
    match span
    case None => original + AppendSeparator(original) + newFunc
    case Some(sp) =>
      var lines := Split(original, '\n');
      Lines(lines[..sp.startLine - 1]) + Terminated(newFunc)
      + (if sp.endLine < |lines| then Join(lines[sp.endLine..], "\n") else "")
  }

  /** replaceOrAppendFunction. The search of the syntax tree for a declaration of the
      function's name is its result, `span`. */
  method ReplaceOrAppendFunction(original: string, newFunc: string, span: Option<Span>)
    returns (r: string)
    requires SpanFits(original, span)
    ensures r == Spliced(original, newFunc, span)
  {
    if span.None? {
      r := AppendFunction(original, newFunc);
    } else {
      r := ReplaceFunction(original, newFunc, span.value);
    }
  }

  /** The branch of replaceOrAppendFunction that finds no declaration: a separating empty
      line, then the function. */
  method AppendFunction(original: string, newFunc: string) returns (r: string)
    ensures r == Spliced(original, newFunc, None)
  {
    r := original;
    if |original| > 0 && !HasSuffix(original, "\n") {
      r := r + "\n";
    }
    r := r + "\n";
    r := r + newFunc;
  }

  /** The branch of replaceOrAppendFunction that replaces the declaration's lines. */
  method ReplaceFunction(original: string, newFunc: string, sp: Span) returns (r: string)
    requires SpanFits(original, Some(sp))
    ensures r == Spliced(original, newFunc, Some(sp))
  {
    var lines := Split(original, '\n');
    var startLine, endLine := sp.startLine, sp.endLine;
    r := WriteLinesBefore(lines, startLine - 1);
    ghost var before := r;
    r := r + newFunc;
    if !HasSuffix(newFunc, "\n") {
      r := r + "\n";
    }
    assert r == before + Terminated(newFunc);
    if endLine < |lines| {
      r := WriteLinesFrom(r, lines, endLine);
    }
  }

  /** The first loop of the replacement: the lines before the span, each followed by a
      newline. */
  method WriteLinesBefore(lines: seq<string>, n: nat) returns (r: string)
    requires n <= |lines|
    ensures r == Lines(lines[..n])
  {
    r := "";
    for i := 0 to n
      invariant r == Lines(lines[..i])
    {
      LinesAppend(lines[..i], lines[i]);
      assert lines[..i + 1] == lines[..i] + [lines[i]];
      r := r + lines[i] + "\n";
    }
  }

  /** The second loop of the replacement: the lines after the span, a newline between
      two of them and none after the last. */
  method WriteLinesFrom(head: string, lines: seq<string>, from: nat) returns (r: string)
    requires from < |lines|
    ensures r == head + Join(lines[from..], "\n")
  {
    r := head;
    for i := from to |lines|
      invariant i < |lines| ==> r == head + Lines(lines[from..i])
      invariant i == |lines| ==> r == head + Join(lines[from..], "\n")
    {
      var before := lines[from..i];
      assert lines[from..i + 1] == before + [lines[i]];
      AppendAssociative(head, Lines(before), lines[i]);
      r := r + lines[i];
      if i < |lines| - 1 {
        AppendAssociative(head, Lines(before) + lines[i], "\n");
        r := r + "\n";
        LinesAppend(before, lines[i]);
      } else {
        LinesThenLast(before, lines[i]);
        assert lines[from..] == lines[from..i + 1];
      }
    }
  }

  /** Appending keeps the whole file in front and the new function at the end, with
      exactly one empty line between the file's last line and the function. */
  lemma AppendKeepsFile(original: string, newFunc: string)
    ensures var r := Spliced(original, newFunc, None);
      && HasPrefix(r, original) && HasSuffix(r, newFunc)
      && (HasSuffix(original, "\n") || original == "" ==> |r| == |original| + 1 + |newFunc|)
      && (!HasSuffix(original, "\n") && original != "" ==> |r| == |original| + 2 + |newFunc|)
      && HasSuffix(r[..|r| - |newFunc|], if original == "" then "\n" else "\n\n")
  {
    var sep := AppendSeparator(original);
    var r := Spliced(original, newFunc, None);
    assert r == original + sep + newFunc;
    assert r[..|original|] == original;
    assert r[|r| - |newFunc|..] == newFunc;
    var front := r[..|r| - |newFunc|];
    assert front == original + sep;
    if original != "" && HasSuffix(original, "\n") {
      assert front[|front| - 2..] == [original[|original| - 1]] + sep;
    }
  }

  /** Replacing a function keeps the lines before it, each still ending in a newline, and
      the lines after it; the new text sits between them, newline-terminated. */
  lemma ReplaceKeepsSurroundings(original: string, newFunc: string, sp: Span)
    requires SpanFits(original, Some(sp))
    ensures var lines := Split(original, '\n');
      var r := Spliced(original, newFunc, Some(sp));
      var before := Lines(lines[..sp.startLine - 1]);
      && HasPrefix(r, before)
      && HasPrefix(r[|before|..], newFunc)
      && (sp.endLine < |lines| ==> HasSuffix(r, Join(lines[sp.endLine..], "\n")))
      && (sp.endLine >= |lines| ==> HasSuffix(r, "\n"))
  {
    var lines := Split(original, '\n');
    var r := Spliced(original, newFunc, Some(sp));
    var before := Lines(lines[..sp.startLine - 1]);
    var body := Terminated(newFunc);
    var after := if sp.endLine < |lines| then Join(lines[sp.endLine..], "\n") else "";
    assert r == before + body + after;
    ThreeParts(before, body, after);
    PrefixThrough(body, newFunc, after);
    if sp.endLine >= |lines| {
      assert after == "" && r == before + body;
      SuffixThrough(before, body, "\n");
    }
  }

  /** Putting the span's own lines back, newline-terminated, gives the file unchanged: a
      second injection of identical text changes nothing. */
  lemma ReplaceWithOwnText(original: string, sp: Span)
    requires var lines := Split(original, '\n');
      1 <= sp.startLine <= sp.endLine < |lines|
    ensures var lines := Split(original, '\n');
      Spliced(original, Join(lines[sp.startLine - 1..sp.endLine], "\n") + "\n", Some(sp)) == original
  {
    var lines := Split(original, '\n');
    var pre := lines[..sp.startLine - 1];
    var own := lines[sp.startLine - 1..sp.endLine];
    var post := lines[sp.endLine..];
    var text := Join(own, "\n") + "\n";
    assert Terminated(text) == text;
    assert lines == pre + (own + post);
    JoinSplit(original, '\n');
    JoinConcat(own, post, "\n");
    var rest := Join(own + post, "\n");
    assert Spliced(original, text, Some(sp)) == Lines(pre) + rest by {
      AppendAssociative(Join(own, "\n"), "\n", Join(post, "\n"));
      AppendAssociative(Lines(pre), text, Join(post, "\n"));
    }
    if pre == [] {
      assert lines == own + post;
    } else {
      LinesIsJoin(pre);
      JoinConcat(pre, own + post, "\n");
    }
  }

  // ---------------------------------------------------------------------------
  // The injected functions

  /** generateSetupValidation's text: the registrations of the code generator, in a
      function of their own. */
  ghost function SetupValidationSource(ruleSets: map<string, RuleSet>): string {
    "func setupValidation() {\n" + RegisterCalls(ruleSets) + "}\n"
  }

  /** generateSetupValidation, writing into a local buffer. */
  method GenerateSetupValidation(ruleSets: map<string, RuleSet>) returns (text: string)
    ensures text == SetupValidationSource(ruleSets)
  {
    text := "func setupValidation() {\n";
    var keys := SortedKeysOf(ruleSets);
    ghost var start := text;
    for i := 0 to |keys|
      invariant text == start + RegisterBlocks(ruleSets, keys[..i])
    {
      RegisterBlocksSnoc(ruleSets, keys, i);
      var block := BuildRegisterBlock(keys[i], ruleSets[keys[i]]);
      AppendAssociative(start, RegisterBlocks(ruleSets, keys[..i]), block);
      text := text + block;
    }
    assert keys[..|keys|] == keys;
    text := text + "}\n";
  }

  /** One registration, field names sorted first. */
  method BuildRegisterBlock(key: string, rs: RuleSet) returns (block: string)
    ensures block == RegisterBlock(key, rs)
  {
    var fieldKeys := SortedKeysOf(rs.fieldRules);
    block := BuildRegistration(key, rs, fieldKeys);
  }

  /** One registration, for the given listing of the field names. */
  method BuildRegistration(key: string, rs: RuleSet, fieldKeys: seq<string>) returns (block: string)
    requires forall k :: k in fieldKeys ==> k in rs.fieldRules
    ensures block == Registration(key, rs, fieldKeys)
  {
    block := RegisterOpening(key);
    var typePart := BuildTypeRules(rs.typeRules);
    block := block + typePart;
    var fieldPart := BuildFieldRules(rs.fieldRules, fieldKeys);
    block := block + fieldPart;
    block := block + RegisterClosing;
  }

  /** The `TypeRules` part, only for a non-empty list. */
  method BuildTypeRules(typeRules: seq<string>) returns (part: string)
    ensures part == TypeRulesBlock(RuleSet(typeRules, map[]))
  {
    part := "";
    if |typeRules| > 0 {
      part := part + "\t\tTypeRules: []string{\n";
      var lines := BuildRuleLines("\t\t\t", typeRules);
      part := part + lines;
      part := part + "\t\t},\n";
    }
  }

  /** The `FieldRules` part, only for a non-empty map. */
  method BuildFieldRules(fieldRules: map<string, seq<string>>, names: seq<string>) returns (part: string)
    requires forall k :: k in names ==> k in fieldRules
    ensures part == FieldRulesListing(fieldRules, names)
  {
    part := "";
    if |fieldRules| > 0 {
      part := part + "\t\tFieldRules: map[string][]string{\n";
      var blocks := BuildFieldBlocks(fieldRules, names);
      part := part + blocks;
      part := part + "\t\t},\n";
      assert part == "\t\tFieldRules: map[string][]string{\n" + blocks + "\t\t},\n";
    }
  }

  /** The loop over the sorted field names. */
  method BuildFieldBlocks(fieldRules: map<string, seq<string>>, names: seq<string>) returns (blocks: string)
    requires forall k :: k in names ==> k in fieldRules
    ensures blocks == FieldBlocks(fieldRules, names)
  {
    blocks := "";
    for i := 0 to |names|
      invariant blocks == FieldBlocks(fieldRules, names[..i])
    {
      assert names[..i + 1][..i] == names[..i];
      var fk := names[i];
      var lines := BuildRuleLines("\t\t\t\t", fieldRules[fk]);
      blocks := blocks + ("\t\t\t\"" + fk + "\": {\n" + lines + "\t\t\t},\n");
    }
    assert names[..|names|] == names;
  }

  /** The loop writing each rule between backquotes. */
  method BuildRuleLines(indent: string, rules: seq<string>) returns (text: string)
    ensures text == RuleLines(indent, rules)
  {
    text := "";
    for i := 0 to |rules|
      invariant text == RuleLines(indent, rules[..i])
    {
      assert rules[..i + 1][..i] == rules[..i];
      text := text + (indent + "`" + rules[i] + "`,\n");
    }
    assert rules[..|rules|] == rules;
  }

  /** generateInit: an `init` function whose only statement calls setupValidation. */
  method GenerateInit() returns (text: string)
    ensures text == Lines(["func init() {", "\tsetupValidation()", "}"])
  {
    text := "func init() {\n";
    text := text + "\tsetupValidation()\n";
    text := text + "}\n";
  }

  /** The element of GetKnownTypes' slice literal for one type: a zero value, qualified by
      its package name unless it is the package being generated. */
  function KnownTypeLine(pkgName: string, t: ParserPackage.TypeInfo): (line: string)
    ensures t.packageName == pkgName ==> line == "\t\t" + t.typeName + "{},\n"
    ensures t.packageName != pkgName ==> line == "\t\t" + t.packageName + "." + t.typeName + "{},\n"
  {
    if t.packageName == pkgName then "\t\t" + t.typeName + "{},\n"
    else "\t\t" + t.packageName + "." + t.typeName + "{},\n"
  }

  /** The elements for the listed types, in the order listed. */
  function KnownTypeLines(pkgName: string, types: seq<ParserPackage.TypeInfo>): string {
    if types == [] then ""
    else KnownTypeLines(pkgName, types[..|types| - 1]) + KnownTypeLine(pkgName, types[|types| - 1])
  }

  /** generateGetKnownTypes' text. */
  function KnownTypesSource(pkgName: string, types: seq<ParserPackage.TypeInfo>): string {
    "// GetKnownTypes returns a list of all types that have validation rules.\n"
    + "func GetKnownTypes() []any {\n" + "\treturn []any{\n"
    + KnownTypeLines(pkgName, types) + "\t}\n" + "}\n"
  }

  /** generateGetKnownTypes, writing into a local buffer. */
  method GenerateGetKnownTypes(pkgName: string, knownTypes: seq<ParserPackage.TypeInfo>)
    returns (text: string)
    ensures text == KnownTypesSource(pkgName, knownTypes)
  {
    text := "// GetKnownTypes returns a list of all types that have validation rules.\n";
    text := text + "func GetKnownTypes() []any {\n";
    text := text + "\treturn []any{\n";
    var elements := BuildKnownTypeLines(pkgName, knownTypes);
    text := text + elements;
    text := text + "\t}\n";
    text := text + "}\n";
  }

  /** The loop over the known types. */
  method BuildKnownTypeLines(pkgName: string, knownTypes: seq<ParserPackage.TypeInfo>)
    returns (text: string)
    ensures text == KnownTypeLines(pkgName, knownTypes)
  {
    text := "";
    for i := 0 to |knownTypes|
      invariant text == KnownTypeLines(pkgName, knownTypes[..i])
    {
      assert knownTypes[..i + 1][..i] == knownTypes[..i];
      var t := knownTypes[i];
      if t.packageName == pkgName {
        text := text + ("\t\t" + t.typeName + "{},\n");
      } else {
        text := text + ("\t\t" + t.packageName + "." + t.typeName + "{},\n");
      }
    }
    assert knownTypes[..|knownTypes|] == knownTypes;
  }

  /** The known types are listed in input order: the elements of two lists one after the
      other are the elements of the two lists' concatenation. */
  lemma {:induction false} KnownTypeLinesConcat(pkgName: string, a: seq<ParserPackage.TypeInfo>,
                                                b: seq<ParserPackage.TypeInfo>)
    ensures KnownTypeLines(pkgName, a + b) == KnownTypeLines(pkgName, a) + KnownTypeLines(pkgName, b)
    decreases |b|
  {
    if b == [] {
      assert a + b == a;
    } else {
      var init := b[..|b| - 1];
      assert (a + b)[..|a + b| - 1] == a + init;
      KnownTypeLinesConcat(pkgName, a, init);
      AppendAssociative(KnownTypeLines(pkgName, a), KnownTypeLines(pkgName, init),
                        KnownTypeLine(pkgName, b[|b| - 1]));
    }
  }
}
