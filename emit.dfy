/** The text both code generators write for a rule-set map, before gofmt: one
    `veritas.Register` call per rule-set key in ascending key order, a `TypeRules` block only
    for a non-empty list of type rules, and a `FieldRules` block only for a non-empty map of
    field rules, with its field names in ascending order. */
module Emit {
  import opened Text
  import opened Rules

  /** One rule inside a string-slice literal: the rule between backquotes, then a comma. */
  function RuleLine(indent: string, rule: string): string {
    indent + "`" + rule + "`,\n"
  }

  /** The rules of a list, in their original order, one line each. */
  function RuleLines(indent: string, rules: seq<string>): string {
    if rules == [] then ""
    else RuleLines(indent, rules[..|rules| - 1]) + RuleLine(indent, rules[|rules| - 1])
  }

  /** The `TypeRules:` entry of a rule set; empty when it has no type rules. */
  function TypeRulesBlock(rs: RuleSet): (r: string)
    ensures r == "" <==> |rs.typeRules| == 0
  {
    if |rs.typeRules| > 0 then "\t\tTypeRules: []string{\n" + RuleLines("\t\t\t", rs.typeRules) + "\t\t},\n"
    else ""
  }

  /** The entry of one field inside the `FieldRules:` map literal. */
  function FieldBlock(fieldName: string, rules: seq<string>): string {
    "\t\t\t\"" + fieldName + "\": {\n" + RuleLines("\t\t\t\t", rules) + "\t\t\t},\n"
  }

  /** The entries of the listed fields, in the order listed. */
  function FieldBlocks(fieldRules: map<string, seq<string>>, names: seq<string>): string
    requires forall k :: k in names ==> k in fieldRules
  {
    if names == [] then ""
    else
      var last := names[|names| - 1];
      FieldBlocks(fieldRules, names[..|names| - 1]) + FieldBlock(last, fieldRules[last])
  }

  /** The `FieldRules:` entry of a rule set for the given listing of its field names;
      empty when it has no field rules. */
  function FieldRulesListing(fieldRules: map<string, seq<string>>, names: seq<string>): (r: string)
    requires forall k :: k in names ==> k in fieldRules
    ensures r == "" <==> |fieldRules| == 0
  {
    if |fieldRules| > 0 then
      "\t\tFieldRules: map[string][]string{\n" + FieldBlocks(fieldRules, names) + "\t\t},\n"
    else ""
  }

  /** The opening of a registration: the call with its key and the rule-set literal. */
  function RegisterOpening(key: string): string {
    "\tveritas.Register(\"" + key + "\", veritas.ValidationRuleSet{\n"
  }

  /** The end of the rule-set literal and of the call. */
  const RegisterClosing: string := "\t})\n"

  /** The registration of one rule set, its field names listed in the given order. */
  function Registration(key: string, rs: RuleSet, fieldNames: seq<string>): string
    requires forall k :: k in fieldNames ==> k in rs.fieldRules
  {
    RegisterOpening(key) + TypeRulesBlock(rs) + FieldRulesListing(rs.fieldRules, fieldNames) + RegisterClosing
  }

  /** The registration of one rule set, its field names in ascending order. */
  ghost function RegisterBlock(key: string, rs: RuleSet): string {
    SortedKeysMembers(rs.fieldRules.Keys);
    Registration(key, rs, SortedKeys(rs.fieldRules.Keys))
  }

  /** The registrations of the listed keys, in the order listed. */
  ghost function RegisterBlocks(ruleSets: map<string, RuleSet>, keys: seq<string>): string
    requires forall k :: k in keys ==> k in ruleSets
  {
    if keys == [] then ""
    else
      var last := keys[|keys| - 1];
      RegisterBlocks(ruleSets, keys[..|keys| - 1]) + RegisterBlock(last, ruleSets[last])
  }

  /** One more key adds its registration at the end. */
  lemma RegisterBlocksSnoc(ruleSets: map<string, RuleSet>, keys: seq<string>, i: nat)
    requires i < |keys| && forall k :: k in keys ==> k in ruleSets
    ensures RegisterBlocks(ruleSets, keys[..i + 1])
            == RegisterBlocks(ruleSets, keys[..i]) + RegisterBlock(keys[i], ruleSets[keys[i]])
  {
    assert keys[..i + 1][..i] == keys[..i];
  }

  /** The registrations of every rule set, in ascending key order. */
  ghost function RegisterCalls(ruleSets: map<string, RuleSet>): string {
    SortedKeysMembers(ruleSets.Keys);
    RegisterBlocks(ruleSets, SortedKeys(ruleSets.Keys))
  }

  /** The key-collecting loop followed by sort.Strings: every key once, ascending. */
  method SortedKeysOf<V>(m: map<string, V>) returns (keys: seq<string>)
    ensures keys == SortedKeys(m.Keys)
    ensures forall i, j :: 0 <= i < j < |keys| ==> Less(keys[i], keys[j])
    ensures forall k :: k in keys <==> k in m
  {
    var collected: seq<string> := [];
    var todo := m.Keys;
    while todo != {}
      invariant todo <= m.Keys
      invariant multiset(collected) + multiset(todo) == multiset(m.Keys)
      decreases todo
    {
      var k :| k in todo;
      collected := collected + [k];
      todo := todo - {k};
    }
    keys := SortStrings(collected);
    SortedListingIsSortedKeys(keys, m.Keys);
    SortedKeysStrict(keys, m.Keys);
  }

  /** The registrations do not depend on the order the map yields its keys in: any
      ascending listing of the keys gives the same text. */
  lemma RegisterCallsAnyListing(ruleSets: map<string, RuleSet>, keys: seq<string>)
    requires Sorted(keys) && multiset(keys) == multiset(ruleSets.Keys)
    ensures forall k :: k in keys ==> k in ruleSets
    ensures RegisterCalls(ruleSets) == RegisterBlocks(ruleSets, keys)
  {
    SortedListingIsSortedKeys(keys, ruleSets.Keys);
    SortedKeysStrict(keys, ruleSets.Keys);
  }

  /** Rule lines of a list split in two are the two rule lines one after the other: rules
      keep their original order. */
  lemma {:induction false} RuleLinesConcat(indent: string, a: seq<string>, b: seq<string>)
    ensures RuleLines(indent, a + b) == RuleLines(indent, a) + RuleLines(indent, b)
    decreases |b|
  {
    if b == [] {
      assert a + b == a;
    } else {
      var init := b[..|b| - 1];
      assert (a + b)[..|a + b| - 1] == a + init;
      RuleLinesConcat(indent, a, init);
    }
  }

  /** Registrations of a listing split in two are the registrations of the two parts one
      after the other: keys are emitted in the order listed, each once per listing. */
  lemma {:induction false} RegisterBlocksConcat(ruleSets: map<string, RuleSet>, a: seq<string>, b: seq<string>)
    requires forall k :: k in a + b ==> k in ruleSets
    ensures RegisterBlocks(ruleSets, a + b) == RegisterBlocks(ruleSets, a) + RegisterBlocks(ruleSets, b)
    decreases |b|
  {
    if b == [] {
      assert a + b == a;
    } else {
      var init := b[..|b| - 1];
      assert (a + b)[..|a + b| - 1] == a + init;
      assert forall k :: k in a + init ==> k in a + b;
      RegisterBlocksConcat(ruleSets, a, init);
      AppendAssociative(RegisterBlocks(ruleSets, a), RegisterBlocks(ruleSets, init),
                        RegisterBlock(b[|b| - 1], ruleSets[b[|b| - 1]]));
    }
  }

  /** Field entries of a listing split in two are the entries of the two parts one after
      the other. */
  lemma {:induction false} FieldBlocksConcat(fieldRules: map<string, seq<string>>, a: seq<string>, b: seq<string>)
    requires forall k :: k in a + b ==> k in fieldRules
    ensures FieldBlocks(fieldRules, a + b) == FieldBlocks(fieldRules, a) + FieldBlocks(fieldRules, b)
    decreases |b|
  {
    if b == [] {
      assert a + b == a;
    } else {
      var init := b[..|b| - 1];
      assert (a + b)[..|a + b| - 1] == a + init;
      assert forall k :: k in a + init ==> k in a + b;
      FieldBlocksConcat(fieldRules, a, init);
      AppendAssociative(FieldBlocks(fieldRules, a), FieldBlocks(fieldRules, init),
                        FieldBlock(b[|b| - 1], fieldRules[b[|b| - 1]]));
    }
  }

  /** Every key's registration sits at its place in ascending order: after the
      registrations of all smaller keys and before those of all larger ones. */
  lemma RegisterCallsAt(ruleSets: map<string, RuleSet>, i: nat)
    requires i < |ruleSets|
    ensures var keys := SortedKeys(ruleSets.Keys);
      && |keys| == |ruleSets|
      && (forall k :: k in keys <==> k in ruleSets)
      && (forall j :: 0 <= j < i ==> Less(keys[j], keys[i]))
      && (forall j :: i < j < |keys| ==> Less(keys[i], keys[j]))
      && RegisterCalls(ruleSets)
         == RegisterBlocks(ruleSets, keys[..i]) + RegisterBlock(keys[i], ruleSets[keys[i]])
            + RegisterBlocks(ruleSets, keys[i + 1..])
  {
    var keys := SortedKeys(ruleSets.Keys);
    SortedKeysStrict(keys, ruleSets.Keys);
    assert |multiset(keys)| == |multiset(ruleSets.Keys)|;
    assert |ruleSets.Keys| == |ruleSets|;
    assert keys == keys[..i + 1] + keys[i + 1..];
    RegisterBlocksConcat(ruleSets, keys[..i + 1], keys[i + 1..]);
    RegisterBlocksSnoc(ruleSets, keys, i);
  }
}
