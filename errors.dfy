/** The library's two error values and their messages. */
module Errors {
  import opened Text

  /** A rule that did not hold. FieldName is "" for a rule on the whole type. */
  datatype ValidationError = ValidationError(typeName: string, fieldName: string, rule: string)

  /** A non-recoverable problem: a rule that does not compile, a failing adapter. */
  datatype FatalError = FatalError(message: string)

  /** The fixed text between the location and the rule, shared by both message formats. */
  const FailedTail: string := ": validation failed, rule: "

  /** The fixed prefix of every fatal message. */
  const FatalPrefix: string := "veritas fatal error: "

  /** NewValidationError */
  function NewValidationError(typeName: string, fieldName: string, rule: string): (e: ValidationError)
    ensures e.typeName == typeName && e.fieldName == fieldName && e.rule == rule
  {
    ValidationError(typeName, fieldName, rule)
  }

  /** NewFatalError */
  function NewFatalError(message: string): (e: FatalError)
    ensures e.message == message
  {
    FatalError(message)
  }

  /** ValidationError.Error: the two %s-formats, written out as concatenations. */
  function ValidationMessage(e: ValidationError): (msg: string)
  {
    if e.fieldName == "" then e.typeName + FailedTail + e.rule
    else e.typeName + "." + e.fieldName + FailedTail + e.rule
  }

  /** FatalError.Error */
  function FatalMessage(e: FatalError): (msg: string)
  {
    FatalPrefix + e.message
  }

  /** The rule can be read back from the end of the message, and the type name from its start. */
  lemma ValidationMessageEnds(e: ValidationError)
    ensures HasSuffix(ValidationMessage(e), FailedTail + e.rule)
    ensures HasPrefix(ValidationMessage(e), e.typeName)
  {
    var msg := ValidationMessage(e);
    var tail := FailedTail + e.rule;
    if e.fieldName == "" {
      assert msg == e.typeName + tail;
    } else {
      assert msg == (e.typeName + "." + e.fieldName) + tail;
    }
    assert msg[|msg| - |tail|..] == tail;
    assert msg[..|e.typeName|] == e.typeName;
  }

  /** The fatal message gives back the stored message once the fixed prefix is removed. */
  lemma FatalMessageRoundTrip(m: string)
    ensures TrimPrefix(FatalMessage(NewFatalError(m)), FatalPrefix) == m
  {
    var msg := FatalMessage(NewFatalError(m));
    assert msg[..|FatalPrefix|] == FatalPrefix;
  }

  /** Two validation errors with the same message about the same type and rule name the
      same field: the message tells field rules of different fields apart. */
  lemma ValidationMessageNamesField(e1: ValidationError, e2: ValidationError)
    requires e1.typeName == e2.typeName && e1.rule == e2.rule
    requires ValidationMessage(e1) == ValidationMessage(e2)
    ensures e1.fieldName == e2.fieldName
  {
    var t := e1.typeName;
    var tail := FailedTail + e1.rule;
    var m := ValidationMessage(e1);
    var n1 := if e1.fieldName == "" then 0 else 1 + |e1.fieldName|;
    var n2 := if e2.fieldName == "" then 0 else 1 + |e2.fieldName|;
    assert |m| == |t| + n1 + |tail|;
    assert |m| == |t| + n2 + |tail|;
    if e1.fieldName != "" {
      assert m == t + "." + e1.fieldName + tail;
      assert m == t + "." + e2.fieldName + tail;
      var n := |t| + 1;
      assert e1.fieldName == m[n..n + |e1.fieldName|];
      assert e2.fieldName == m[n..n + |e2.fieldName|];
    }
  }
}
