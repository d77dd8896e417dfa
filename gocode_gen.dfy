/** The code generator of the `veritas` command: it writes a Go file whose `init` function
    registers every rule set, into a buffer it owns. The text is the one before gofmt;
    formatting it and writing it out are not part of this model. */
module GoCodeGen {
  import opened Text
  import opened Rules
  import opened Emit

  /** The package clause, followed by an empty line. */
  function PackageClause(pkgName: string): string {
    "package " + pkgName + "\n\n"
  }

  /** The single import of the library, followed by an empty line. */
  const Imports: string := "import (\n" + "\t\"github.com/podhmo/veritas\"\n" + ")\n\n"

  /** The package clause and the import block. */
  function Header(pkgName: string): string {
    PackageClause(pkgName) + Imports
  }

  /** The `init` function holding the registrations of all rule sets. */
  ghost function InitFunc(ruleSets: map<string, RuleSet>): string {
    "func init() {\n" + RegisterCalls(ruleSets) + "}\n"
  }

  /** The whole generated file: the header, then the `init` function. */
  ghost function GoSource(pkgName: string, ruleSets: map<string, RuleSet>): string {
    Header(pkgName) + InitFunc(ruleSets)
  }

  /** GoCodeGenerator. The logger is left out. */
  class GoCodeGenerator {
    var buf: string

    /** NewGoCodeGenerator: an empty buffer. */
    constructor()
      ensures buf == ""
    {
      buf := "";
    }

    /** printf: appends the formatted text to the buffer. Callers pass the text already
        formatted. */
    method Printf(text: string)
      modifies this
      ensures buf == old(buf) + text
    {
      buf := buf + text;
    }

    /** Generate: the buffer is reset first, so it ends up holding the generated file for
        these arguments whatever earlier calls left in it. */
    method Generate(pkgName: string, ruleSets: map<string, RuleSet>)
      modifies this
      ensures buf == GoSource(pkgName, ruleSets)
    {
      buf := "";
      PrintHeader(pkgName);
      assert buf == Header(pkgName);
      PrintInit(ruleSets);
    }

    /** The package clause and the import block. */
    method PrintHeader(pkgName: string)
      modifies this
      ensures buf == old(buf) + Header(pkgName)
    {
      ghost var start := buf;
      Printf("package " + pkgName + "\n\n");
      Printf("import (\n");
      Printf("\t\"github.com/podhmo/veritas\"\n");
      Printf(")\n\n");
      assert buf == start + PackageClause(pkgName) + Imports;
    }

    /** The `init` function: the registrations in ascending key order. */
    method PrintInit(ruleSets: map<string, RuleSet>)
      modifies this
      ensures buf == old(buf) + InitFunc(ruleSets)
    {
      ghost var start := buf;
      Printf("func init() {\n");
      var keys := SortedKeysOf(ruleSets);
      PrintRegistrations(ruleSets, keys);
      Printf("}\n");
      assert RegisterBlocks(ruleSets, keys) == RegisterCalls(ruleSets);
      AppendAssociative(start, "func init() {\n", RegisterCalls(ruleSets));
      AppendAssociative(start, "func init() {\n" + RegisterCalls(ruleSets), "}\n");
    }

    /** Generate's loop over the sorted rule-set keys. */
    method PrintRegistrations(ruleSets: map<string, RuleSet>, keys: seq<string>)
      requires forall k :: k in keys ==> k in ruleSets
      modifies this
      ensures buf == old(buf) + RegisterBlocks(ruleSets, keys)
    {
      ghost var start := buf;
      for i := 0 to |keys|
        invariant buf == start + RegisterBlocks(ruleSets, keys[..i])
      {
        PrintRuleSetAt(start, ruleSets, keys, i);
      }
      assert keys[..|keys|] == keys;
    }

    /** One turn of Generate's key loop: the registration of the next key. */
    method PrintRuleSetAt(ghost start: string, ruleSets: map<string, RuleSet>, keys: seq<string>, i: nat)
      requires i < |keys| && forall k :: k in keys ==> k in ruleSets
      requires buf == start + RegisterBlocks(ruleSets, keys[..i])
      modifies this
      ensures buf == start + RegisterBlocks(ruleSets, keys[..i + 1])
    {
      RegisterBlocksSnoc(ruleSets, keys, i);
      PrintRuleSet(keys[i], ruleSets[keys[i]]);
      AppendAssociative(start, RegisterBlocks(ruleSets, keys[..i]), RegisterBlock(keys[i], ruleSets[keys[i]]));
    }

    /** The body of Generate's key loop: one registration, field names sorted first. */
    method PrintRuleSet(key: string, rs: RuleSet)
      modifies this
      ensures buf == old(buf) + RegisterBlock(key, rs)
    {
      var fieldKeys := SortedKeysOf(rs.fieldRules);
      PrintRegistration(key, rs, fieldKeys);
    }

    /** One registration, for the given listing of the field names. */
    method PrintRegistration(key: string, rs: RuleSet, fieldKeys: seq<string>)
      requires forall k :: k in fieldKeys ==> k in rs.fieldRules
      modifies this
      ensures buf == old(buf) + Registration(key, rs, fieldKeys)
    {
      ghost var start := buf;
      Printf(RegisterOpening(key));
      PrintTypeRules(rs);
      PrintFieldRules(rs.fieldRules, fieldKeys);
      Printf(RegisterClosing);
      AppendFour(start, RegisterOpening(key), TypeRulesBlock(rs), FieldRulesListing(rs.fieldRules, fieldKeys),
                 RegisterClosing);
    }

    /** The `TypeRules` part of a registration, printed only for a non-empty list. */
    method PrintTypeRules(rs: RuleSet)
      modifies this
      ensures buf == old(buf) + TypeRulesBlock(rs)
    {
      if |rs.typeRules| > 0 {
        ghost var start := buf;
        Printf("\t\tTypeRules: []string{\n");
        PrintRules("\t\t\t", rs.typeRules);
        Printf("\t\t},\n");
        assert buf == start + ("\t\tTypeRules: []string{\n" + RuleLines("\t\t\t", rs.typeRules) + "\t\t},\n");
      }
    }

    /** The `FieldRules` part of a registration, printed only for a non-empty map. */
    method PrintFieldRules(fieldRules: map<string, seq<string>>, names: seq<string>)
      requires forall k :: k in names ==> k in fieldRules
      modifies this
      ensures buf == old(buf) + FieldRulesListing(fieldRules, names)
    {
      if |fieldRules| > 0 {
        ghost var start := buf;
        Printf("\t\tFieldRules: map[string][]string{\n");
        PrintFieldBlocks(fieldRules, names);
        Printf("\t\t},\n");
        assert buf == start + ("\t\tFieldRules: map[string][]string{\n" + FieldBlocks(fieldRules, names) + "\t\t},\n");
      }
    }

    /** The loop over the sorted field names. */
    method PrintFieldBlocks(fieldRules: map<string, seq<string>>, names: seq<string>)
      requires forall k :: k in names ==> k in fieldRules
      modifies this
      ensures buf == old(buf) + FieldBlocks(fieldRules, names)
    {
      ghost var start := buf;
      for i := 0 to |names|
        invariant buf == start + FieldBlocks(fieldRules, names[..i])
      {
        assert names[..i + 1][..i] == names[..i];
        var fk := names[i];
        PrintFieldBlock(fk, fieldRules[fk]);
      }
      assert names[..|names|] == names;
    }

    /** One field's entry in the `FieldRules` map literal. */
    method PrintFieldBlock(fieldName: string, rules: seq<string>)
      modifies this
      ensures buf == old(buf) + FieldBlock(fieldName, rules)
    {
      ghost var start := buf;
      Printf("\t\t\t\"" + fieldName + "\": {\n");
      PrintRules("\t\t\t\t", rules);
      Printf("\t\t\t},\n");
      assert buf == start + ("\t\t\t\"" + fieldName + "\": {\n" + RuleLines("\t\t\t\t", rules) + "\t\t\t},\n");
    }

    /** The loop printing each rule of a list between backquotes. */
    method PrintRules(indent: string, rules: seq<string>)
      modifies this
      ensures buf == old(buf) + RuleLines(indent, rules)
    {
      ghost var start := buf;
      for i := 0 to |rules|
        invariant buf == start + RuleLines(indent, rules[..i])
      {
        assert rules[..i + 1][..i] == rules[..i];
        Printf(indent + "`" + rules[i] + "`,\n");
      }
      assert rules[..|rules|] == rules;
    }
  }

  /** The generated file starts with the package clause. */
  lemma GoSourceStartsWithPackage(pkgName: string, ruleSets: map<string, RuleSet>)
    ensures HasPrefix(GoSource(pkgName, ruleSets), "package " + pkgName + "\n\n")
  {
    ThreeParts(PackageClause(pkgName), Imports, InitFunc(ruleSets));
  }
}
