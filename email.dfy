/**
 * `validateEmail`: the anchored pattern `^[^\s@]+@[^\s@]+\.[^\s@]+$`, written
 * as a structural check on the string and proved to accept exactly the
 * strings of the pattern's language.
 */
module Email {
  import opened Strings
  import opened Results

  const InvalidEmailMessage := "Invalid email address"

  /** One `[^\s@]+` run: non-empty, no whitespace, no `@`. */
  ghost predicate Segment(x: string) {
    |x| > 0 && forall k :: 0 <= k < |x| ==> !IsSpace(x[k]) && x[k] != '@'
  }

  /** The language of the anchored regular expression: local part, `@`,
      domain label(s), `.`, top-level part, each a `[^\s@]+` run. The runs may
      themselves contain dots, so any dot of the domain with text on both
      sides can be the one the pattern matches. */
  ghost predicate MatchesEmailPattern(s: string) {
    exists local, domain, tld :: Segment(local) && Segment(domain) && Segment(tld)
      && s == local + "@" + domain + "." + tld
  }

  predicate NoWhitespace(s: string) {
    forall k :: 0 <= k < |s| ==> !IsSpace(s[k])
  }

  /** `s[i]` is the one and only `@` in `s`. */
  predicate IsSoleAt(s: string, i: int) {
    0 <= i < |s| && s[i] == '@' && forall k :: 0 <= k < |s| && k != i ==> s[k] != '@'
  }

  /** `d` has a dot that is neither its first nor its last character. */
  predicate HasInnerDot(d: string) {
    exists j :: 0 < j < |d| - 1 && d[j] == '.'
  }

  /** The shape of an address: no whitespace, exactly one `@`, something
      before it, and after it a dot that is neither first nor last. */
  predicate IsEmailShaped(s: string) {
    NoWhitespace(s) && exists i :: 0 < i < |s| && IsSoleAt(s, i) && HasInnerDot(s[i + 1..])
  }

  /** A non-empty stretch of a whitespace-free string that avoids the `@` at
      index `at` is a `[^\s@]+` run. */
  lemma SliceIsSegment(s: string, at: int, lo: int, hi: int)
    requires NoWhitespace(s) && IsSoleAt(s, at)
    requires 0 <= lo < hi <= |s| && (at < lo || hi <= at)
    ensures Segment(s[lo..hi])
  {
    forall k | 0 <= k < hi - lo ensures !IsSpace(s[lo..hi][k]) && s[lo..hi][k] != '@' {
      assert s[lo..hi][k] == s[lo + k];
    }
  }

  /** Cutting `s` around the `@` at `at` and the dot at `dot`. */
  lemma SplitAround(s: string, at: int, dot: int)
    requires 0 <= at < dot < |s|
    ensures s == s[..at] + [s[at]] + s[at + 1..dot] + [s[dot]] + s[dot + 1..]
  {
  }

  lemma ShapeMatchesPattern(s: string)
    requires IsEmailShaped(s)
    ensures MatchesEmailPattern(s)
  {
    var i :| 0 < i < |s| && IsSoleAt(s, i) && HasInnerDot(s[i + 1..]);
    var dot :| i + 1 < dot < |s| - 1 && s[dot] == '.' by {
      var d := s[i + 1..];
      var j :| 0 < j < |d| - 1 && d[j] == '.';
      assert s[i + 1 + j] == d[j];
    }
    var local, domain, tld := s[..i], s[i + 1..dot], s[dot + 1..];
    assert Segment(local) by { SliceIsSegment(s, i, 0, i); assert s[0..i] == local; }
    assert Segment(domain) by { SliceIsSegment(s, i, i + 1, dot); }
    assert Segment(tld) by { SliceIsSegment(s, i, dot + 1, |s|); assert s[dot + 1..|s|] == tld; }
    assert s == local + "@" + domain + "." + tld by { SplitAround(s, i, dot); }
  }

  lemma PatternHasShape(s: string)
    requires MatchesEmailPattern(s)
    ensures IsEmailShaped(s)
  {
    var local, domain, tld :| Segment(local) && Segment(domain) && Segment(tld)
      && s == local + "@" + domain + "." + tld;
    var i := |local|;
    var d := domain + "." + tld;
    assert s == local + "@" + d;
    assert s[i + 1..] == d;
    forall k | 0 <= k < |s| ensures !IsSpace(s[k]) && (k != i ==> s[k] != '@') {
      if k < i {
        assert s[k] == local[k];
      } else if k > i {
        assert s[k] == d[k - i - 1];
        if k - i - 1 < |domain| {
          assert d[k - i - 1] == domain[k - i - 1];
        } else if k - i - 1 > |domain| {
          assert d[k - i - 1] == tld[k - i - 1 - |domain| - 1];
        }
      }
    }
    assert IsSoleAt(s, i);
    assert d[|domain|] == '.';
    assert HasInnerDot(d);
  }

  /** The structural shape and the regular expression accept the same strings. */
  lemma ShapeIffPattern(s: string)
    ensures IsEmailShaped(s) <==> MatchesEmailPattern(s)
  {
    if IsEmailShaped(s) {
      ShapeMatchesPattern(s);
    }
    if MatchesEmailPattern(s) {
      PatternHasShape(s);
    }
  }

  /** `validateEmail`. */
  function ValidateEmail(email: string): (r: ValidationResult)
    ensures r.isValid <==> MatchesEmailPattern(email)
    ensures WellFormed(r)
    ensures !r.isValid ==> r.errorMessage == InvalidEmailMessage
  {
    ShapeIffPattern(email);
    if IsEmailShaped(email) then Valid else ValidationResult(false, InvalidEmailMessage)
  }
}
