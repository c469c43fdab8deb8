/**
 * The record every validator returns, `{isValid, errorMessage}`, the
 * `customMessage || default` choice of message, and what it means for a chain
 * of rules to be decided by its first failing rule.
 */
module Results {
  import opened Strings

  datatype Option<T> = None | Some(value: T)

  datatype ValidationResult = ValidationResult(isValid: bool, errorMessage: string)

  const Valid := ValidationResult(true, "")

  /** `customMessage || default`: an empty custom message is falsy, so the
      default is used in its place. */
  function OrDefault(customMessage: string, default: string): (m: string)
    ensures customMessage != "" ==> m == customMessage
    ensures customMessage == "" ==> m == default
  {
    if customMessage != "" then customMessage else default
  }

  /** A failed validation reporting the custom message, or the default one. */
  function Invalid(customMessage: string, default: string): ValidationResult {
    ValidationResult(false, OrDefault(customMessage, default))
  }

  /** The length-bound messages shared by the text and password
      validators; `${minLength}` renders the bound in decimal. */
  function MinLengthMessage(minLength: nat): string {
    "Minimum " + NatToString(minLength) + " characters required."
  }

  function MaxLengthMessage(maxLength: nat): string {
    "Maximum " + NatToString(maxLength) + " characters allowed."
  }

  /** `n <= maxLength`, where no bound (`None`) is `Infinity`. */
  predicate AtMost(n: nat, maxLength: Option<nat>) {
    maxLength.None? || n <= maxLength.value
  }

  /** A result whose message is empty exactly when it is valid. */
  predicate WellFormed(r: ValidationResult) {
    r.isValid <==> r.errorMessage == ""
  }

  /** An invalid result built from a non-empty default always carries a
      message, whatever the custom message is. */
  lemma InvalidIsWellFormed(customMessage: string, default: string)
    requires default != ""
    ensures WellFormed(Invalid(customMessage, default))
    ensures !Invalid(customMessage, default).isValid
  {
  }

  /** One rule of an if/else-if validation chain: whether it holds, and the
      default message reported when it is the one that fails. */
  datatype Rule = Rule(holds: bool, failure: string)

  /** `r` is what a chain of `rules` reports when they are tried in order and
      the first failing one alone decides the message. */
  ghost predicate DecidedByFirstFailure(rules: seq<Rule>, customMessage: string, r: ValidationResult) {
    if forall k :: 0 <= k < |rules| ==> rules[k].holds then
      r == Valid
    else
      exists k :: 0 <= k < |rules| && !rules[k].holds
        && (forall j :: 0 <= j < k ==> rules[j].holds)
        && r == Invalid(customMessage, rules[k].failure)
  }

  /** An if/else-if chain over `rules`: report the first failing rule, or
      succeed when none fails. */
  function FirstFailure(rules: seq<Rule>, customMessage: string): ValidationResult {
    if rules == [] then Valid
    else if !rules[0].holds then Invalid(customMessage, rules[0].failure)
    else FirstFailure(rules[1..], customMessage)
  }

  /** One step of the chain, from rule `k` on. */
  lemma FirstFailureStep(rules: seq<Rule>, k: nat, customMessage: string)
    requires k < |rules|
    ensures FirstFailure(rules[k..], customMessage)
      == if !rules[k].holds then Invalid(customMessage, rules[k].failure) else FirstFailure(rules[k + 1..], customMessage)
  {
    assert rules[k..][1..] == rules[k + 1..];
  }

  /** The chain meets the declarative description of first-failure-wins. */
  lemma {:induction false} FirstFailureDecides(rules: seq<Rule>, customMessage: string)
    ensures DecidedByFirstFailure(rules, customMessage, FirstFailure(rules, customMessage))
  {
    if rules != [] && rules[0].holds {
      var rest := rules[1..];
      FirstFailureDecides(rest, customMessage);
      assert forall k :: 1 <= k < |rules| ==> rules[k] == rest[k - 1];
      if !forall k :: 0 <= k < |rules| ==> rules[k].holds {
        var k :| 0 <= k < |rest| && !rest[k].holds
          && (forall j :: 0 <= j < k ==> rest[j].holds)
          && FirstFailure(rest, customMessage) == Invalid(customMessage, rest[k].failure);
        assert !rules[k + 1].holds && forall j :: 0 <= j < k + 1 ==> rules[j].holds;
      }
    } else if rules != [] {
      assert !rules[0].holds;
    }
  }
}
