/**
 * Concrete scenarios of the validators and the aggregator, each derived from
 * the general definitions.
 */
module Examples {
  import opened Strings
  import opened Results
  import opened Email
  import opened TextInput
  import opened Choice
  import opened Password
  import opened Aggregate

  lemma EmailAccepted()
    ensures ValidateEmail("user@example.com").isValid
  {
    assert Segment("user") && Segment("example") && Segment("com");
    assert "user@example.com" == "user" + "@" + "example" + "." + "com";
  }

  /** Any dot of the domain with text on both sides will do, so the domain
      run may itself end in a dot. */
  lemma EmailDoubleDotAccepted()
    ensures ValidateEmail("a@b..c").isValid
  {
    var s := "a@b..c";
    assert IsSoleAt(s, 1);
    assert s[2..][1] == '.';
    assert IsEmailShaped(s);
  }

  lemma EmailTwoAtsRejected()
    ensures ValidateEmail("a@b@c.d") == ValidationResult(false, "Invalid email address")
  {
    var s := "a@b@c.d";
    assert s[1] == '@' && s[3] == '@';
    assert !IsEmailShaped(s) by {
      forall i | 0 < i < |s| ensures !IsSoleAt(s, i) {
        if i != 1 { assert s[1] == '@'; } else { assert s[3] == '@'; }
      }
    }
  }

  lemma EmailEmptyDomainRejected()
    ensures !ValidateEmail("a@.c").isValid
  {
    var t := "a@.c";
    assert !IsEmailShaped(t) by {
      forall i | 0 < i < |t| && IsSoleAt(t, i) ensures !HasInnerDot(t[i + 1..]) {
        assert t[1] == '@';
        assert i == 1;
        assert t[2..] == ".c";
      }
    }
  }

  /** `"  ab  "` with a minimum of three, and any other whitespace padding of
      `"ab"`: the two surviving characters are too few. */
  lemma TextTooShortAfterTrim(pre: string, post: string)
    requires AllSpace(pre) && AllSpace(post)
    ensures ValidateTextInput(pre + "ab" + post, DefaultTextOptions.(minLength := 3))
      == ValidationResult(false, "Minimum 3 characters required.")
  {
    var text, options := pre + "ab" + post, DefaultTextOptions.(minLength := 3);
    assert Trim(text) == "ab" && Utf16Length(Trim(text)) == 2 by {
      TrimCharacterised(pre, "ab", post);
      Utf16LengthOfBmp("ab");
    }
    TextMinBeforeMax(text, options);
    MinimumThreeMessage();
  }

  lemma MinimumThreeMessage()
    ensures MinLengthMessage(3) == "Minimum 3 characters required."
  {
    assert NatToString(3) == ['3'];
  }

  lemma TextBlankRequired()
    ensures ValidateTextInput(" \t\n", DefaultTextOptions.(required := true))
      == ValidationResult(false, "Field is required.")
  {
    assert " \t\n" + "" + "" == " \t\n";
    TrimCharacterised(" \t\n", "", "");
  }

  lemma TextTooLongCustomMessage()
    ensures ValidateTextInput("abcd", DefaultTextOptions.(maxLength := Some(3), customMessage := "Too long"))
      == ValidationResult(false, "Too long")
  {
    var text := "abcd";
    assert Utf16Length(Trim(text)) == 4 by {
      assert "" + text + "" == text;
      TrimCharacterised("", text, "");
      Utf16LengthOfBmp(text);
    }
  }

  /** A code point outside the Basic Multilingual Plane is two UTF-16 code
      units, so one emoji exceeds a maximum length of 1. */
  lemma TextAstralCountsTwo()
    ensures Utf16Length("\U{1F600}") == 2
    ensures !ValidateTextInput("\U{1F600}", DefaultTextOptions.(maxLength := Some(1))).isValid
  {
    var text := "\U{1F600}";
    assert Utf16Length(text) == 2 by {
      assert text[1..] == [];
    }
    assert Trim(text) == text by {
      TrimOfBare(text);
    }
  }

  lemma ChoiceExamples()
    ensures ValidateCheckbox(false, DefaultChoiceOptions.(required := true)) == ValidationResult(false, "Please check the checkbox.")
    ensures ValidateCheckbox(false, DefaultChoiceOptions) == ValidationResult(true, "")
    ensures ValidateRadioGroup("", DefaultChoiceOptions.(required := true)) == ValidationResult(false, "Please select a value from the radio group.")
  {
  }

  lemma PasswordTooShort()
    ensures ValidatePassword("abc123", DefaultPasswordOptions.(minLength := 8))
      == ValidationResult(false, "Minimum 8 characters required.")
  {
    var password := "abc123";
    assert Utf16Length(password) == 6 by {
      Utf16LengthOfBmp(password);
    }
    PasswordMinLengthFirst(password, DefaultPasswordOptions.(minLength := 8));
    MinimumEightMessage();
  }

  lemma MinimumEightMessage()
    ensures MinLengthMessage(8) == "Minimum 8 characters required."
  {
    assert NatToString(8) == ['8'];
  }

  lemma PasswordAccepted()
    ensures ValidatePassword("Abc123!!", DefaultPasswordOptions.(requireUppercase := true, requireSpecialChar := true)).isValid
  {
    var p := "Abc123!!";
    assert IsAsciiUpper(p[0]) && IsSpecialChar(p[6]);
  }

  lemma PasswordMissingUppercase()
    ensures ValidatePassword("abc123!!", DefaultPasswordOptions.(requireUppercase := true, requireSpecialChar := true))
      == ValidationResult(false, "Password must contain at least one uppercase letter.")
  {
    var q := "abc123!!";
    assert !HasUppercase(q) by {
      forall k | 0 <= k < |q| ensures !IsAsciiUpper(q[k]) {}
    }
  }

  lemma AggregateExample()
    ensures ValidateAll([() => ValidationResult(false, "A"), () => Valid]) == Summary(false, ["A"])
  {
    var a: Validation := () => ValidationResult(false, "A");
    var b: Validation := () => Valid;
    assert [a, b] == [a] + [b];
    ValidateAllAppend([a], [b]);
    ValidateAllSingle(a);
    ValidateAllSingle(b);
  }
}
