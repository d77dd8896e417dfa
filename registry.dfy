/** The process-wide registry that generated init() functions fill, and the rule provider
    that hands the validator a snapshot of it. */
module Registry {
  import opened Wrappers
  import opened Rules

  /** The global map from fully qualified type name to rule set. The lock that guards it
      in the library is not modelled: every operation here runs to completion alone. */
  class Registry {
    var entries: map<string, RuleSet>

    constructor()
      ensures entries == map[]
    {
      entries := map[];
    }

    /** Register: the name now maps to the rule set, replacing any earlier one. */
    method Register(typeName: string, ruleSet: RuleSet)
      modifies this
      ensures entries == old(entries)[typeName := ruleSet]
      ensures typeName in entries && entries[typeName] == ruleSet
      ensures forall k :: k != typeName ==> (k in entries <==> k in old(entries))
      ensures forall k :: k != typeName && k in entries ==> entries[k] == old(entries)[k]
    {
      entries := entries[typeName := ruleSet];
    }

    /** Unregister: the name is gone; deleting an absent name changes nothing. */
    method Unregister(typeName: string)
      modifies this
      ensures entries == old(entries) - {typeName}
      ensures typeName !in entries
      ensures forall k :: k != typeName ==> (k in entries <==> k in old(entries))
      ensures forall k :: k in entries ==> entries[k] == old(entries)[k]
      ensures typeName !in old(entries) ==> entries == old(entries)
    {
      entries := entries - {typeName};
    }

    /** UnregisterAll: a fresh, empty map replaces the old one. */
    method UnregisterAll()
      modifies this
      ensures entries == map[]
    {
      entries := map[];
    }
  }

  /** registryProvider: a RuleProvider reading the registry it was created for. */
  class RegistryProvider {
    const registry: Registry

    /** NewRuleProviderFromRegistry */
    constructor(registry: Registry)
      ensures this.registry == registry
    {
      this.registry := registry;
    }

    /** GetRuleSets: a copy of the registry, built entry by entry, and never an error. */
    method GetRuleSets() returns (rules: map<string, RuleSet>, err: Option<string>)
      ensures rules == registry.entries
      ensures err == None
    {
      var source := registry.entries;
      rules := map[];
      var todo := source.Keys;
      while todo != {}
        invariant todo <= source.Keys
        invariant rules.Keys == source.Keys - todo
        invariant forall k :: k in rules ==> rules[k] == source[k]
        decreases todo
      {
        var k :| k in todo;
        rules := rules[k := source[k]];
        todo := todo - {k};
      }
      err := None;
    }
  }

  /** A snapshot taken before later registrations keeps the entries of the moment it was
      taken, whatever is registered or removed afterwards. */
  method SnapshotIsolated(provider: RegistryProvider, typeName: string, ruleSet: RuleSet, gone: string)
      returns (before: map<string, RuleSet>, after: map<string, RuleSet>)
    modifies provider.registry
    ensures before == old(provider.registry.entries)
    ensures after == (old(provider.registry.entries)[typeName := ruleSet]) - {gone}
    ensures typeName != gone ==> typeName in after && after[typeName] == ruleSet
  {
    var err;
    before, err := provider.GetRuleSets();
    provider.registry.Register(typeName, ruleSet);
    provider.registry.Unregister(gone);
    after, err := provider.GetRuleSets();
  }
}
