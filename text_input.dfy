/**
 * `validateTextInput`: trim the text, then try the required rule, the
 * minimum-length rule and the maximum-length rule in that order; the first
 * that fails alone decides the message.
 */
module TextInput {
  import opened Strings
  import opened Results

  /** The options object; `maxLength: Infinity` is `None`. */
  datatype TextOptions = TextOptions(minLength: nat, maxLength: Option<nat>, required: bool, customMessage: string)

  const DefaultTextOptions := TextOptions(0, None, false, "")

  const RequiredMessage := "Field is required."

  /** The rules in the order the if/else-if chain tries them, over the
      trimmed text and its length in UTF-16 code units. */
  function TextRules(text: string, options: TextOptions): seq<Rule> {
    var n := Utf16Length(Trim(text));
    [ Rule(!(options.required && n == 0), RequiredMessage),
      Rule(n >= options.minLength, MinLengthMessage(options.minLength)),
      Rule(AtMost(n, options.maxLength),
           if options.maxLength.Some? then MaxLengthMessage(options.maxLength.value) else "") ]
  }

  /** `validateTextInput`. The text is valid exactly when every rule holds,
      read as one conjunction rather than a chain. */
  function ValidateTextInput(text: string, options: TextOptions): (r: ValidationResult)
    ensures r.isValid <==>
      && (options.required ==> Trim(text) != [])
      && options.minLength <= Utf16Length(Trim(text))
      && AtMost(Utf16Length(Trim(text)), options.maxLength)
    ensures WellFormed(r)
    ensures !r.isValid && options.customMessage != "" ==> r.errorMessage == options.customMessage
  {
    var n := Utf16Length(Trim(text));
    if options.required && !(n > 0) then
      Invalid(options.customMessage, RequiredMessage)
    else if !(n >= options.minLength) then
      Invalid(options.customMessage, MinLengthMessage(options.minLength))
    else if options.maxLength.Some? && !(n <= options.maxLength.value) then
      Invalid(options.customMessage, MaxLengthMessage(options.maxLength.value))
    else
      Valid
  }

  /** The first failing rule, in the order required, minimum, maximum, decides
      the result. */
  lemma TextFirstFailureWins(text: string, options: TextOptions)
    ensures DecidedByFirstFailure(TextRules(text, options), options.customMessage, ValidateTextInput(text, options))
  {
    var rules, c := TextRules(text, options), options.customMessage;
    var r := ValidateTextInput(text, options);
    assert r == FirstFailure(rules, c) by {
      assert FirstFailure(rules[2..], c) == if !rules[2].holds then Invalid(c, rules[2].failure) else Valid;
      if rules[0].holds && rules[1].holds {
        assert rules[1..][1..] == rules[2..];
      }
    }
    FirstFailureDecides(rules, c);
  }

  /** The result depends on the text only through its trim. */
  lemma TextDependsOnlyOnTrim(text: string, options: TextOptions)
    ensures ValidateTextInput(Trim(text), options) == ValidateTextInput(text, options)
  {
    TrimIdempotent(text);
  }

  /** Whitespace added at either end never changes the verdict or the message. */
  lemma TextPaddingInvariant(pre: string, text: string, post: string, options: TextOptions)
    requires AllSpace(pre) && AllSpace(post)
    ensures ValidateTextInput(pre + text + post, options) == ValidateTextInput(text, options)
  {
    TrimPadded(pre, text, post);
    TextDependsOnlyOnTrim(pre + text + post, options);
    TextDependsOnlyOnTrim(text, options);
  }

  /** A required field whose trim is empty reports the required message,
      whatever the length bounds are. */
  lemma TextRequiredFirst(text: string, options: TextOptions)
    requires options.required && Trim(text) == []
    ensures ValidateTextInput(text, options) == Invalid(options.customMessage, RequiredMessage)
  {
  }

  /** A text below the minimum length reports the minimum, before the
      maximum is looked at. */
  lemma TextMinBeforeMax(text: string, options: TextOptions)
    requires !(options.required && Trim(text) == [])
    requires Utf16Length(Trim(text)) < options.minLength
    ensures ValidateTextInput(text, options) == Invalid(options.customMessage, MinLengthMessage(options.minLength))
  {
  }

  /** An optional field with no bounds accepts every string. */
  lemma TextUnconstrainedAcceptsAll(text: string, customMessage: string)
    ensures ValidateTextInput(text, TextOptions(0, None, false, customMessage)) == Valid
  {
  }

  /** A required field, with no bounds, is invalid exactly when its trim is
      empty. */
  lemma TextRequiredIffBlank(text: string)
    ensures !ValidateTextInput(text, DefaultTextOptions.(required := true)).isValid <==> AllSpace(text)
  {
    if AllSpace(text) {
      AllSpaceTrimsToEmpty(text);
    }
    if Trim(text) == [] {
      TrimDecomposes(text);
    }
  }
}
