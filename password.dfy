/**
 * `validatePassword`: the untrimmed password is checked against the length
 * bounds and then the required character classes; the first check that
 * fails alone decides the message.
 */
module Password {
  import opened Strings
  import opened Results

  /** The options object; `maxLength: Infinity` is `None`. */
  datatype PasswordOptions = PasswordOptions(
    minLength: nat,
    maxLength: Option<nat>,
    requireUppercase: bool,
    requireLowercase: bool,
    requireNumber: bool,
    requireSpecialChar: bool,
    customMessage: string)

  const DefaultPasswordOptions := PasswordOptions(0, None, false, false, false, false, "")

  const UppercaseMessage := "Password must contain at least one uppercase letter."
  const LowercaseMessage := "Password must contain at least one lowercase letter."
  const NumberMessage := "Password must contain at least one number."
  const SpecialCharMessage := "Password must contain at least one special character."

  /** The class `[!@#$%^&*(),.?":{}|<>]`. */
  predicate IsSpecialChar(c: char) {
    c in {'!', '@', '#', '$', '%', '^', '&', '*', '(', ')', ',', '.', '?', '\"', ':', '{', '}', '|', '<', '>'}
  }

  predicate HasUppercase(p: string) { exists k :: 0 <= k < |p| && IsAsciiUpper(p[k]) }
  predicate HasLowercase(p: string) { exists k :: 0 <= k < |p| && IsAsciiLower(p[k]) }
  predicate HasNumber(p: string) { exists k :: 0 <= k < |p| && IsDigit(p[k]) }
  predicate HasSpecialChar(p: string) { exists k :: 0 <= k < |p| && IsSpecialChar(p[k]) }

  /** The checks in the order the if/else-if chain tries them. */
  function PasswordRules(password: string, options: PasswordOptions): seq<Rule> {
    var n := Utf16Length(password);
    [ Rule(n >= options.minLength, MinLengthMessage(options.minLength)),
      Rule(AtMost(n, options.maxLength),
           if options.maxLength.Some? then MaxLengthMessage(options.maxLength.value) else ""),
      Rule(!options.requireUppercase || HasUppercase(password), UppercaseMessage),
      Rule(!options.requireLowercase || HasLowercase(password), LowercaseMessage),
      Rule(!options.requireNumber || HasNumber(password), NumberMessage),
      Rule(!options.requireSpecialChar || HasSpecialChar(password), SpecialCharMessage) ]
  }

  /** `validatePassword`. The password is valid exactly when every check
      holds, read as one conjunction rather than a chain. */
  function ValidatePassword(password: string, options: PasswordOptions): (r: ValidationResult)
    ensures r.isValid <==>
      && options.minLength <= Utf16Length(password)
      && AtMost(Utf16Length(password), options.maxLength)
      && (options.requireUppercase ==> HasUppercase(password))
      && (options.requireLowercase ==> HasLowercase(password))
      && (options.requireNumber ==> HasNumber(password))
      && (options.requireSpecialChar ==> HasSpecialChar(password))
    ensures WellFormed(r)
    ensures !r.isValid && options.customMessage != "" ==> r.errorMessage == options.customMessage
  {
    var n := Utf16Length(password);
    if !(n >= options.minLength) then
      Invalid(options.customMessage, MinLengthMessage(options.minLength))
    else if options.maxLength.Some? && !(n <= options.maxLength.value) then
      Invalid(options.customMessage, MaxLengthMessage(options.maxLength.value))
    else if options.requireUppercase && !HasUppercase(password) then
      Invalid(options.customMessage, UppercaseMessage)
    else if options.requireLowercase && !HasLowercase(password) then
      Invalid(options.customMessage, LowercaseMessage)
    else if options.requireNumber && !HasNumber(password) then
      Invalid(options.customMessage, NumberMessage)
    else if options.requireSpecialChar && !HasSpecialChar(password) then
      Invalid(options.customMessage, SpecialCharMessage)
    else
      Valid
  }

  /** The first failing check, in the order minimum length, maximum length,
      uppercase, lowercase, digit, special character, decides the result. */
  lemma PasswordFirstFailureWins(password: string, options: PasswordOptions)
    ensures DecidedByFirstFailure(PasswordRules(password, options), options.customMessage, ValidatePassword(password, options))
  {
    var rules, c := PasswordRules(password, options), options.customMessage;
    var r := ValidatePassword(password, options);
    assert r == FirstFailure(rules, c) by {
      assert rules[6..] == [] && rules[0..] == rules;
      FirstFailureStep(rules, 5, c);
      FirstFailureStep(rules, 4, c);
      FirstFailureStep(rules, 3, c);
      FirstFailureStep(rules, 2, c);
      FirstFailureStep(rules, 1, c);
      FirstFailureStep(rules, 0, c);
    }
    FirstFailureDecides(rules, c);
  }

  /** With no character-class requirement, only the length bounds matter. */
  lemma PasswordLengthOnly(password: string, minLength: nat, maxLength: Option<nat>, customMessage: string)
    ensures ValidatePassword(password, PasswordOptions(minLength, maxLength, false, false, false, false, customMessage)).isValid
      <==> minLength <= Utf16Length(password) && AtMost(Utf16Length(password), maxLength)
  {
  }

  /** A password below the minimum length reports that, whatever character
      classes are required. */
  lemma PasswordMinLengthFirst(password: string, options: PasswordOptions)
    requires Utf16Length(password) < options.minLength
    ensures ValidatePassword(password, options) == Invalid(options.customMessage, MinLengthMessage(options.minLength))
  {
  }

  /** Whitespace is in none of the character classes the checks look for, so
      padding a password adds no class it lacked and loses none it had. */
  lemma PaddingAddsNoClass(pre: string, password: string, post: string)
    requires AllSpace(pre) && AllSpace(post)
    ensures HasUppercase(pre + password + post) <==> HasUppercase(password)
    ensures HasLowercase(pre + password + post) <==> HasLowercase(password)
    ensures HasNumber(pre + password + post) <==> HasNumber(password)
    ensures HasSpecialChar(pre + password + post) <==> HasSpecialChar(password)
  {
    var s, i := pre + password + post, |pre|;
    assert forall k :: 0 <= k < |password| ==> s[i + k] == password[k];
    assert forall k :: 0 <= k < |s| ==> IsSpace(s[k]) || (i <= k < i + |password| && s[k] == password[k - i]) by {
      forall k | 0 <= k < |s| ensures IsSpace(s[k]) || (i <= k < i + |password| && s[k] == password[k - i]) {
        if k < i {
          assert s[k] == pre[k];
        } else if k >= i + |password| {
          assert s[k] == post[k - i - |password|];
        }
      }
    }
  }

  /** Unlike the text validator, the password is not trimmed: whitespace at
      either end counts toward the length the bounds are checked against,
      and changes no class check. */
  lemma PasswordPaddingCounts(pre: string, password: string, post: string, options: PasswordOptions)
    requires AllSpace(pre) && AllSpace(post)
    ensures ValidatePassword(pre + password + post, options).isValid <==>
      && options.minLength <= Utf16Length(pre + password + post)
      && AtMost(Utf16Length(pre + password + post), options.maxLength)
      && (options.requireUppercase ==> HasUppercase(password))
      && (options.requireLowercase ==> HasLowercase(password))
      && (options.requireNumber ==> HasNumber(password))
      && (options.requireSpecialChar ==> HasSpecialChar(password))
  {
    PaddingAddsNoClass(pre, password, post);
  }

  /** Two spaces meet a minimum length of 2. */
  lemma PasswordDoesNotTrim()
    ensures ValidatePassword("  ", DefaultPasswordOptions.(minLength := 2)).isValid
  {
  }
}
