/**
 * The two field validators of the login form. Each maps the raw value of
 * a field to an optional error message (`undefined` when the value is
 * acceptable).
 *
 * The e-mail check in the source is the regular expression
 * `^[^\s@]+@[^\s@]+\.[^\s@]+$`. Here it is given twice: once as the
 * language the expression denotes (`MatchesEmailPattern`, a ghost
 * existential over the positions of the `@` and the `.`), and once as a
 * computable check (`IsEmailShaped`) that the validator runs; the lemma
 * `EmailShapeIffPattern` proves that the two agree on every string.
 */
module Validation {
  import opened Wrappers

  const EmailRequired: string := "Email is required"
  const EmailInvalid: string := "Please enter a valid email address"
  const PasswordRequired: string := "Password is required"
  const PasswordTooShort: string := "Password must be at least 8 characters"

  /** The shortest password the form accepts. */
  const MinPasswordLength: nat := 8

  /**
   * JavaScript's `\s` class: the white-space characters of ECMAScript
   * (tab, line feed, vertical tab, form feed, carriage return, space,
   * no-break space, the byte order mark) and the Unicode space separators
   * and line/paragraph separators.
   */
  predicate IsWhitespace(c: char) {
    var n := c as int;
    (0x09 <= n <= 0x0D) || n == 0x20 || n == 0xA0 || n == 0x1680 ||
    (0x2000 <= n <= 0x200A) || n == 0x2028 || n == 0x2029 ||
    n == 0x202F || n == 0x205F || n == 0x3000 || n == 0xFEFF
  }

  /** A character of the class `[^\s@]`. */
  predicate IsPlain(c: char) {
    !IsWhitespace(c) && c != '@'
  }

  /** Every character of `s` is in `[^\s@]`; with `|s| > 0` this is `[^\s@]+`. */
  predicate AllPlain(s: string) {
    forall i :: 0 <= i < |s| ==> IsPlain(s[i])
  }

  /**
   * The language of `^[^\s@]+@[^\s@]+\.[^\s@]+$`: a non-empty run of
   * plain characters, `@`, a non-empty run, `.`, a non-empty run. `at`
   * and `dot` are the positions of the separating `@` and `.`.
   */
  ghost predicate MatchesEmailPattern(s: string) {
    exists at: nat, dot: nat ::
      0 < at && at + 1 < dot && dot + 1 < |s| &&
      s[at] == '@' && s[dot] == '.' &&
      AllPlain(s[..at]) && AllPlain(s[at + 1..dot]) && AllPlain(s[dot + 1..])
  }

  /** The position of the first occurrence of `c` in `s`. */
  function FirstIndex(s: string, c: char): (i: nat)
    requires c in s
    ensures i < |s| && s[i] == c
    ensures c !in s[..i]
  {
    if s[0] == c then 0
    else
      assert c in s[1..] by {
        var k :| 0 <= k < |s| && s[k] == c;
        assert s[1..][k - 1] == c;
      }
      var j := FirstIndex(s[1..], c);
      assert s[..j + 1] == [s[0]] + s[1..][..j];
      j + 1
  }

  /**
   * The computable form of the pattern: the part before the first `@` is a
   * non-empty plain run, and the part after it is plain (so it holds no
   * second `@`) and has a `.` that is neither its first nor its last
   * character.
   */
  predicate IsEmailShaped(s: string) {
    '@' in s &&
    var at := FirstIndex(s, '@');
    var domain := s[at + 1..];
    0 < at && 3 <= |domain| && AllPlain(s[..at]) && AllPlain(domain) &&
    '.' in domain[1..|domain| - 1]
  }

  /** Every string the computable check accepts is in the language. */
  lemma ShapeImpliesPattern(s: string)
    requires IsEmailShaped(s)
    ensures MatchesEmailPattern(s)
  {
    var at := FirstIndex(s, '@');
    var domain := s[at + 1..];
    var k :| 0 <= k < |domain[1..|domain| - 1]| && domain[1..|domain| - 1][k] == '.';
    var dot := at + 2 + k;
    assert s[dot] == '.';
    assert s[at + 1..dot] == domain[..k + 1];
    assert s[dot + 1..] == domain[k + 2..];
  }

  /** The first `@` of `s` is at `at` when `s[at]` is one and no `@` comes before it. */
  lemma FirstIndexAt(s: string, at: nat)
    requires at < |s| && s[at] == '@' && AllPlain(s[..at])
    ensures '@' in s && FirstIndex(s, '@') == at
  {
    assert s[at] == '@';
  }

  /** The part after the `@` is a plain run when both runs around the `.` are. */
  lemma DomainIsPlain(s: string, at: nat, dot: nat)
    requires at < dot < |s| && s[dot] == '.'
    requires AllPlain(s[at + 1..dot]) && AllPlain(s[dot + 1..])
    ensures AllPlain(s[at + 1..])
  {
    forall i | at + 1 <= i < |s|
      ensures IsPlain(s[i])
    {
      if i < dot {
        assert s[i] == s[at + 1..dot][i - at - 1];
      } else if i > dot {
        assert s[i] == s[dot + 1..][i - dot - 1];
      }
    }
  }

  /** Every string in the language is accepted by the computable check. */
  lemma PatternImpliesShape(s: string)
    requires MatchesEmailPattern(s)
    ensures IsEmailShaped(s)
  {
    var at: nat, dot: nat :|
      0 < at && at + 1 < dot && dot + 1 < |s| &&
      s[at] == '@' && s[dot] == '.' &&
      AllPlain(s[..at]) && AllPlain(s[at + 1..dot]) && AllPlain(s[dot + 1..]);
    FirstIndexAt(s, at);
    DomainIsPlain(s, at, dot);
    var domain := s[at + 1..];
    assert domain[1..|domain| - 1][dot - at - 2] == '.';
  }

  /** The computable check accepts exactly the language of the regular expression. */
  lemma EmailShapeIffPattern(s: string)
    ensures IsEmailShaped(s) <==> MatchesEmailPattern(s)
  {
    if IsEmailShaped(s) {
      ShapeImpliesPattern(s);
    }
    if MatchesEmailPattern(s) {
      PatternImpliesShape(s);
    }
  }

  /**
   * `validateEmail`: "required" for the empty string, "invalid" for a
   * string outside the pattern, no error for a string inside it.
   */
  function ValidateEmail(email: string): (r: Option<string>)
    ensures r == Some(EmailRequired) <==> email == ""
    ensures r == Some(EmailInvalid) <==> email != "" && !MatchesEmailPattern(email)
    ensures r == None <==> MatchesEmailPattern(email)
  {
    EmailShapeIffPattern(email);
    if email == "" then Some(EmailRequired)
    else if !IsEmailShaped(email) then Some(EmailInvalid)
    else None
  }

  /**
   * `validatePassword`: "required" for the empty string, "too short" for
   * lengths 1 to 7, no error from length 8 on (there is no upper bound and
   * no rule on the characters).
   */
  function ValidatePassword(password: string): (r: Option<string>)
    ensures r == Some(PasswordRequired) <==> |password| == 0
    ensures r == Some(PasswordTooShort) <==> 0 < |password| < MinPasswordLength
    ensures r == None <==> MinPasswordLength <= |password|
  {
    if password == "" then Some(PasswordRequired)
    else if |password| < MinPasswordLength then Some(PasswordTooShort)
    else None
  }

  /** An error a validator reports is never the empty (falsy) string. */
  lemma ValidatorMessagesAreNonEmpty(email: string, password: string)
    ensures ValidateEmail(email) == None || ValidateEmail(email).value != ""
    ensures ValidatePassword(password) == None || ValidatePassword(password).value != ""
  {
  }

  /** A string made of a plain run, `@` and a plain run holds no white space. */
  lemma NoWhitespaceAround(s: string, at: nat)
    requires at < |s| && s[at] == '@'
    requires AllPlain(s[..at]) && AllPlain(s[at + 1..])
    ensures forall i :: 0 <= i < |s| ==> !IsWhitespace(s[i])
  {
    forall i | 0 <= i < |s|
      ensures !IsWhitespace(s[i])
    {
      if i < at {
        assert s[i] == s[..at][i];
      } else if i > at {
        assert s[i] == s[at + 1..][i - at - 1];
      }
    }
  }

  /**
   * An accepted e-mail address holds exactly one `@`, with a non-empty part
   * before it, and no white space anywhere.
   */
  lemma AcceptedEmailHasOneAt(email: string)
    requires ValidateEmail(email) == None
    ensures '@' in email
    ensures 0 < FirstIndex(email, '@')
    ensures '@' !in email[FirstIndex(email, '@') + 1..]
    ensures forall i :: 0 <= i < |email| ==> !IsWhitespace(email[i])
  {
    EmailShapeIffPattern(email);
    assert IsEmailShaped(email);
    var at := FirstIndex(email, '@');
    NoWhitespaceAround(email, at);
  }
}
