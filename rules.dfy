/** The rule set the generator produces and the validator consumes for one Go type. */
module Rules {

  /** ValidationRuleSet: CEL rules on the whole value, and CEL rules per field name. */
  datatype RuleSet = RuleSet(typeRules: seq<string>, fieldRules: map<string, seq<string>>)

  /** A rule set worth registering: at least one type rule or one field with rules. */
  predicate HasRules(rs: RuleSet) {
    |rs.typeRules| > 0 || |rs.fieldRules| > 0
  }
}
