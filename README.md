# Form-field validators, modelled in Dafny

This project models `index.js`, a small library of stateless form-field
validators. Each validator takes a value and an options object and returns a
record `{isValid, errorMessage}`:

- `validateEmail` tests the anchored pattern `^[^\s@]+@[^\s@]+\.[^\s@]+$`.
- `validateTextInput` trims the text, then tries three rules in order: required, minimum length, maximum length.
- `validateCheckbox` and `validateRadioGroup` are one-line required checks.
- `validatePassword` tries six checks in order: minimum length, maximum length, uppercase, lowercase, digit, special character.

In both chains, the first failing rule alone decides the message. An invalid
result reports `customMessage || default`, so an empty custom message falls
back to the built-in one. `validateAll` calls a list of zero-argument
validations. It ANDs their verdicts and keeps their non-empty messages in call
order.

Everything is pure, so every validator is a Dafny `function`. The modules are:

- `Strings` (`strings.dfy`): the whitespace class shared by `\s` and `String.prototype.trim`, and trimming. It also has string length in UTF-16 code units (what `.length` reports), the ASCII character classes, and the exact decimal rendering of a bound, which agrees with what a template string prints for every bound up to 2^53.
- `Results` (`results.dfy`): the result record, the `customMessage || default` choice, and the length-bound messages. It also defines "decided by the first failing rule" in two ways: declaratively, and as a generic if/else-if chain evaluator proved to meet that definition.
- `Email` (`email.dfy`): the email check, written as a structural predicate. It is proved to accept exactly the language of the regular expression.
- `TextInput`, `Choice`, `Password` (`text_input.dfy`, `choice.dfy`, `password.dfy`): the validators.
- `Aggregate` (`aggregate.dfy`): `validateAll` over a sequence of `() -> ValidationResult` functions.
- `Examples` (`examples.dfy`): concrete scenarios, derived from the general definitions.

Options objects are datatypes with the library's defaults as constants. A
`maxLength` of `Infinity` is `None`. Lengths are counted in UTF-16 code units,
so a code point outside the Basic Multilingual Plane counts as two, as in
JavaScript.

## Model

| member | source | states |
|---|---|---|
| Strings.TrimStart | index.js:17 | the result is a suffix of the input; everything dropped is whitespace; the result does not start with whitespace |
| Strings.TrimEnd | index.js:17 | the result is a prefix of the input; everything dropped is whitespace; the result does not end with whitespace |
| Strings.Trim | index.js:17 | the trimmed text has no whitespace at either end |
| Strings.TrimPadded | index.js:17 | adding whitespace at either end of a string does not change its trim |
| Strings.TrimIdempotent | index.js:17 | trimming twice is trimming once |
| Strings.TrimDecomposes | index.js:17 | every string is its trim with a whitespace prefix and a whitespace suffix |
| Strings.TrimCharacterised | index.js:17 | a core with no whitespace at its ends, padded with whitespace, trims back to exactly that core |
| Strings.Utf16Length | index.js:18-20 | the reported length is between the number of code points and twice that, and is zero exactly for the empty string |
| Strings.Utf16LengthOfBmp | index.js:18-20 | text without astral code points has one code unit per character |
| Strings.Utf16LengthAppend | index.js:18-20 | the code-unit length of a concatenation is the sum of the lengths of its parts |
| Strings.Utf16LengthAstral | index.js:18-20 | a single code point outside the Basic Multilingual Plane has length 2 |
| Strings.Utf16LengthPadded | index.js:18-20 | the code-unit length of a padded string is the padding's length plus the core's length |
| Strings.NatToString | index.js:30 | the rendering of a bound is non-empty, all decimal digits, and has no leading zero; it is the exact decimal form, which agrees with `${n}` for every bound up to 2^53 (see Left out) |
| Strings.NatToStringRoundTrip | index.js:30 | the rendering reads back as the same number, so different bounds give different messages |
| Results.InvalidIsWellFormed | index.js:27 | `customMessage \|\| default` with a non-empty default is never empty, whatever the custom message is |
| Results.FirstFailureDecides | index.js:25-34 | an if/else-if chain of rules succeeds when every rule holds, and otherwise reports the first failing rule, with all earlier rules holding |
| Email.ValidateEmail | index.js:2-7 | valid exactly when the address is in the language of `^[^\s@]+@[^\s@]+\.[^\s@]+$`; well-formed; the failure message is "Invalid email address" |
| Email.ShapeIffPattern | index.js:3 | both directions: the pattern matches exactly when the string has no whitespace, exactly one `@` with something before it, and after it a dot that is neither first nor last |
| Email.ShapeMatchesPattern | index.js:3 | a string of that shape splits into local part, `@`, domain, `.` and top-level part, each a `[^\s@]+` run |
| Email.PatternHasShape | index.js:3 | every string the pattern matches has that shape |
| TextInput.ValidateTextInput | index.js:9-37 | valid exactly when the trimmed text is non-empty if required, at least `minLength` long and at most `maxLength` long; well-formed; a non-empty custom message is the message |
| TextInput.TextFirstFailureWins | index.js:25-34 | the rules are tried in the order required, minimum, maximum, and the first failing one decides the message |
| TextInput.TextDependsOnlyOnTrim | index.js:17-20 | validating the text and validating its trim give the same result |
| TextInput.TextPaddingInvariant | index.js:17-20 | leading or trailing whitespace never changes the result |
| TextInput.TextRequiredFirst | index.js:25-27 | a required field whose trim is empty reports the required message, whatever the bounds |
| TextInput.TextMinBeforeMax | index.js:28-33 | a too-short text reports the minimum before the maximum is looked at |
| TextInput.TextUnconstrainedAcceptsAll | index.js:11-34 | with `required` false and no bounds, every string is valid |
| TextInput.TextRequiredIffBlank | index.js:17-27 | a required field without bounds is invalid exactly when the text is all whitespace |
| Choice.ValidateCheckbox | index.js:53-60 | valid exactly when not required or checked; well-formed; the failure message is the custom one or "Please check the checkbox." |
| Choice.ValidateRadioGroup | index.js:73-80 | valid exactly when not required or a value is selected; well-formed; the failure message is the custom one or the radio-group default |
| Choice.OptionalChoiceAlwaysValid | index.js:56 | neither check can fail when the field is optional |
| Password.ValidatePassword | index.js:82-124 | valid exactly when the untrimmed length is within both bounds and every required class is present; well-formed; a non-empty custom message is the message |
| Password.PasswordFirstFailureWins | index.js:103-121 | checks are tried in the order minimum, maximum, uppercase, lowercase, digit, special character, and the first failing one decides the message |
| Password.PasswordLengthOnly | index.js:93-98 | with no class requirement, valid exactly when `minLength <= length <= maxLength` |
| Password.PasswordMinLengthFirst | index.js:103-105 | a too-short password reports the minimum, whatever classes are required |
| Password.PaddingAddsNoClass | index.js:95-98 | whitespace at either end neither adds nor removes an uppercase letter, lowercase letter, digit or special character |
| Password.PasswordPaddingCounts | index.js:93-121 | for any whitespace padding, the verdict on the padded password compares the bounds against the length of the whole padded string, padding included, and checks the classes of the unpadded text |
| Password.PasswordDoesNotTrim | index.js:93 | a password of two spaces meets a minimum length of 2 |
| Aggregate.ValidateAll | index.js:62-71 | the aggregate is valid exactly when every validation's result is valid |
| Aggregate.ValidateAllEmpty | index.js:62-71 | no validations give `{isValid: true, errorMessages: []}` |
| Aggregate.ValidateAllSingle | index.js:63-65 | one validation gives its verdict and its message, unless that message is empty |
| Aggregate.ValidateAllAppend | index.js:63-65 | running two lists one after the other ANDs their verdicts and concatenates their messages in call order |
| Aggregate.ValidateAllMessagesSound | index.js:65 | every collected message is non-empty and is the message of one of the validations |
| Aggregate.ValidateAllCountsInvalid | index.js:65 | over well-formed results, there is one message per invalid result |
| Aggregate.ValidateAllValidIffNoMessages | index.js:64-65 | over well-formed results, the aggregate is valid exactly when it has no messages |
| Examples.EmailAccepted | index.js:3-5 | `user@example.com` is accepted |
| Examples.EmailDoubleDotAccepted | index.js:3 | `a@b..c` is accepted, because the domain run may end in a dot |
| Examples.EmailTwoAtsRejected | index.js:3-5 | `a@b@c.d` is rejected with "Invalid email address" |
| Examples.EmailEmptyDomainRejected | index.js:3 | `a@.c` is rejected |
| Examples.TextTooShortAfterTrim | index.js:17-30 | `ab` padded with any whitespace, with a minimum of 3, gives "Minimum 3 characters required." |
| Examples.MinimumThreeMessage | index.js:30 | the minimum-length message for 3 renders the bound as `3` |
| Examples.TextBlankRequired | index.js:25-27 | a required whitespace-only text gives "Field is required." |
| Examples.TextTooLongCustomMessage | index.js:31-33 | a too-long text with a custom message reports the custom message |
| Examples.TextAstralCountsTwo | index.js:18-33 | one emoji is two code units long, so it fails a maximum length of 1 |
| Examples.ChoiceExamples | index.js:53-80 | an unchecked required checkbox and an empty required radio group give their default messages; an unchecked optional checkbox is valid |
| Examples.PasswordTooShort | index.js:103-105 | `abc123` with a minimum of 8 gives "Minimum 8 characters required." |
| Examples.MinimumEightMessage | index.js:105 | the minimum-length message for 8 renders the bound as `8` |
| Examples.PasswordAccepted | index.js:95-121 | `Abc123!!` meets the uppercase and special-character requirements |
| Examples.PasswordMissingUppercase | index.js:109-111 | `abc123!!` with uppercase required reports the uppercase message |
| Examples.AggregateExample | index.js:62-71 | an invalid validation with message "A" followed by a valid one gives `{isValid: false, errorMessages: ["A"]}` |

## Left out

- `validateNumberInput` (index.js:39-51): its verdict rests on JavaScript coercion. That covers `isNaN` on strings, string-to-number comparison with `>=`, and floating-point infinities. Its `required` option is never read.
- The `export` block (index.js:126-134): it has no behaviour.
- Inputs of the wrong type (a non-string text, a non-boolean `isChecked`, a `null` selection, a non-string custom message) follow host-language coercion and are not modelled. `customMessage` is a string, and it is falsy exactly when empty.
- Length bounds are natural numbers. Negative, fractional or `NaN` bounds are not modelled. `maxLength: Infinity` is `None`.
- Strings.NatToString: bounds are exact naturals, and the message renders them in full decimal. This agrees with JavaScript's `${n}` for every bound up to 2^53. Above that, a bound may not be a double, and JavaScript prints the shortest digits that read back as the same double, so 2^60 prints as 1152921504606847000. From 10^21 on it uses exponent form (`1e+21`). The length messages of both validators, and the lemmas that state them, are therefore guaranteed to match only for bounds up to 2^53.
- Strings are sequences of Unicode scalar values. Lengths are counted in UTF-16 code units, as `.length` does. Lone surrogate code units, which a JavaScript string may hold, cannot be represented.
- The regular expressions are not run by an engine. Each is stated as the language it denotes (`Email.MatchesEmailPattern`) or as an existence predicate over characters (`[A-Z]`, `[a-z]`, `\d`, the special-character class).
- Aggregate.ValidateAll: the validations are pure functions, so the source's guarantee that each one is called exactly once, in order, has nothing observable to state. Side effects inside them are not modelled.
