/**
 * The input checks of registerUser (backend/src/controllers/authController.js):
 * the email and password regular expressions, read as ECMAScript regular
 * expressions without flags, and the order of the three rejections.
 */
module Auth {
  import opened Wrappers
  import opened JsValues

  /** ECMAScript `\s`: the white-space and line-terminator code points. */
  predicate IsJsWhitespace(c: char) {
    || c == '\t' || c == '\n' || c == '\U{B}' || c == '\U{C}' || c == '\r' || c == ' '
    || c == '\U{A0}' || c == '\U{1680}' || ('\U{2000}' <= c <= '\U{200A}')
    || c == '\U{2028}' || c == '\U{2029}' || c == '\U{202F}' || c == '\U{205F}'
    || c == '\U{3000}' || c == '\U{FEFF}'
  }

  /** ECMAScript line terminators, which `.` does not match. */
  predicate IsLineTerminator(c: char) {
    c == '\n' || c == '\r' || c == '\U{2028}' || c == '\U{2029}'
  }

  // ---------------------------------------------------------------------------
  // Email: /^[^\s@]+@[^\s@]+\.[^\s@]+$/
  // ---------------------------------------------------------------------------

  /** The class `[^\s@]`. */
  predicate EmailChar(c: char) {
    !IsJsWhitespace(c) && c != '@'
  }

  predicate AllEmailChars(s: string) {
    forall i :: 0 <= i < |s| ==> EmailChar(s[i])
  }

  /** `s` is `X+ @ X+ . X+` with `X = [^\s@]`, the '@' at `at` and the '.' at `dot`. */
  predicate EmailSplit(s: string, at: nat, dot: nat) {
    && 0 < at && at + 1 < dot && dot + 1 < |s|
    && s[at] == '@' && s[dot] == '.'
    && AllEmailChars(s[..at]) && AllEmailChars(s[at + 1..dot]) && AllEmailChars(s[dot + 1..])
  }

  /** The language of the email regular expression. */
  ghost predicate MatchesEmailRegex(s: string) {
    exists at: nat, dot: nat :: EmailSplit(s, at, dot)
  }

  /** `emailRegex.test(s)`, decided by locating the '@' and a '.' inside the domain. */
  predicate EmailRegexTest(s: string) {
    match IndexOf(s, '@')
    case None => false
    case Some(at) =>
      && at > 0 && at + 3 < |s|
      && AllEmailChars(s[..at]) && AllEmailChars(s[at + 1..])
      && '.' in s[at + 2..|s| - 1]
  }

  lemma EmailRegexTestSound(s: string)
    requires EmailRegexTest(s)
    ensures MatchesEmailRegex(s)
  {
    var at := IndexOf(s, '@').value;
    var mid := s[at + 2..|s| - 1];
    var p :| 0 <= p < |mid| && mid[p] == '.';
    var dot := at + 2 + p;
    assert s[dot] == '.';
    var dom := s[at + 1..];
    var left, right := s[at + 1..dot], s[dot + 1..];
    forall i | 0 <= i < |left| ensures EmailChar(left[i]) {
      assert left[i] == dom[i];
    }
    forall i | 0 <= i < |right| ensures EmailChar(right[i]) {
      assert right[i] == dom[i + dot - at];
    }
    assert EmailSplit(s, at, dot);
  }

  lemma EmailRegexTestComplete(s: string, at: nat, dot: nat)
    requires EmailSplit(s, at, dot)
    ensures EmailRegexTest(s)
  {
    assert '@' !in s[..at] by {
      forall i | 0 <= i < at ensures s[..at][i] != '@' {
        assert EmailChar(s[..at][i]);
      }
    }
    assert IndexOf(s, '@') == Some(at) by {
      assert s[at] == '@';
    }
    assert s[at + 1..] == s[at + 1..dot] + [s[dot]] + s[dot + 1..];
    assert AllEmailChars(s[at + 1..]);
    assert s[at + 2..|s| - 1][dot - at - 2] == '.';
  }

  /** The character scan decides exactly the language of the regular expression. */
  lemma EmailRegexTestCorrect(s: string)
    ensures EmailRegexTest(s) <==> MatchesEmailRegex(s)
  {
    if EmailRegexTest(s) {
      EmailRegexTestSound(s);
    }
    if MatchesEmailRegex(s) {
      var at: nat, dot: nat :| EmailSplit(s, at, dot);
      EmailRegexTestComplete(s, at, dot);
    }
  }

  lemma AcceptedEmailOneAt(s: string)
    requires EmailRegexTest(s)
    ensures multiset(s)['@'] == 1
  {
    var at := IndexOf(s, '@').value;
    var local, domain := s[..at], s[at + 1..];
    assert s == local + [s[at]] + domain;
    assert '@' !in local by {
      forall i | 0 <= i < |local| ensures local[i] != '@' { assert EmailChar(local[i]); }
    }
    assert '@' !in domain by {
      forall i | 0 <= i < |domain| ensures domain[i] != '@' { assert EmailChar(domain[i]); }
    }
    assert multiset(s) == multiset(local) + multiset([s[at]]) + multiset(domain);
  }

  lemma AcceptedEmailNoWhitespace(s: string)
    requires EmailRegexTest(s)
    ensures forall i :: 0 <= i < |s| ==> !IsJsWhitespace(s[i])
  {
    var at := IndexOf(s, '@').value;
    var local, domain := s[..at], s[at + 1..];
    forall i | 0 <= i < |s| ensures !IsJsWhitespace(s[i]) {
      if i < at { assert s[i] == local[i]; assert EmailChar(local[i]); }
      else if i > at { assert s[i] == domain[i - at - 1]; assert EmailChar(domain[i - at - 1]); }
    }
  }

  /** An accepted email has exactly one '@', no white space, a non-empty local part and a '.' strictly inside the domain. */
  lemma AcceptedEmailShape(s: string)
    requires EmailRegexTest(s)
    ensures multiset(s)['@'] == 1
    ensures forall i :: 0 <= i < |s| ==> !IsJsWhitespace(s[i])
    ensures exists at :: 0 < at < |s| && s[at] == '@' &&
              exists dot :: at + 1 < dot < |s| - 1 && s[dot] == '.'
  {
    AcceptedEmailOneAt(s);
    AcceptedEmailNoWhitespace(s);
    var at := IndexOf(s, '@').value;
    var mid := s[at + 2..|s| - 1];
    var p :| 0 <= p < |mid| && mid[p] == '.';
    assert s[at + 2 + p] == '.';
  }

  // ---------------------------------------------------------------------------
  // Password: /^(?=.*[a-z])(?=.*[A-Z])(?=.*\d)(?=.*[@$!%*?&#])[A-Za-z\d@$!%*?&#]{8,}$/
  // ---------------------------------------------------------------------------

  predicate IsLower(c: char) { 'a' <= c <= 'z' }
  predicate IsUpper(c: char) { 'A' <= c <= 'Z' }
  predicate IsSpecial(c: char) { c in "@$!%*?&#" }

  /** The class `[A-Za-z\d@$!%*?&#]` (`\d` is ASCII digits only without the `u` flag). */
  predicate PasswordChar(c: char) {
    IsLower(c) || IsUpper(c) || IsDigit(c) || IsSpecial(c)
  }

  /** `(?=.*C)` at the start: some character of class C preceded only by non-line-terminators. */
  predicate Lookahead(p: string, charClass: char -> bool) {
    exists i :: 0 <= i < |p| && charClass(p[i]) && forall k :: 0 <= k < i ==> !IsLineTerminator(p[k])
  }

  /** `passwordRegex.test(p)`: the four look-aheads and the body `[...]{8,}$`. */
  predicate PasswordRegexTest(p: string) {
    && Lookahead(p, IsLower) && Lookahead(p, IsUpper) && Lookahead(p, IsDigit) && Lookahead(p, IsSpecial)
    && |p| >= 8 && forall i :: 0 <= i < |p| ==> PasswordChar(p[i])
  }

  predicate Has(p: string, charClass: char -> bool) {
    exists i :: 0 <= i < |p| && charClass(p[i])
  }

  /**
   * The password rule in words: at least 8 characters, all letters, digits or
   * one of `@$!%*?&#`, with at least one lower-case letter, one upper-case
   * letter, one digit and one special character.
   */
  lemma PasswordRegexMeaning(p: string)
    ensures PasswordRegexTest(p) <==>
            && |p| >= 8
            && (forall i :: 0 <= i < |p| ==> PasswordChar(p[i]))
            && Has(p, IsLower) && Has(p, IsUpper) && Has(p, IsDigit) && Has(p, IsSpecial)
  {
    if (forall i :: 0 <= i < |p| ==> PasswordChar(p[i])) {
      assert forall k :: 0 <= k < |p| ==> !IsLineTerminator(p[k]) by {
        forall k | 0 <= k < |p| ensures !IsLineTerminator(p[k]) {
          assert PasswordChar(p[k]);
        }
      }
      LookaheadIsHas(p, IsLower);
      LookaheadIsHas(p, IsUpper);
      LookaheadIsHas(p, IsDigit);
      LookaheadIsHas(p, IsSpecial);
    }
  }

  lemma LookaheadIsHas(p: string, charClass: char -> bool)
    requires forall k :: 0 <= k < |p| ==> !IsLineTerminator(p[k])
    ensures Lookahead(p, charClass) <==> Has(p, charClass)
  {
  }

  /** A password with any character outside the allowed class (a space, a '-') is refused. */
  lemma ForeignCharacterRefused(p: string, i: nat)
    requires i < |p| && !PasswordChar(p[i])
    ensures !PasswordRegexTest(p)
  {
  }

  // ---------------------------------------------------------------------------
  // registerUser
  // ---------------------------------------------------------------------------

  datatype RegisterOutcome = InvalidEmailFormat | WeakPassword | UserAlreadyExists | Registered

  /** `RegExp.prototype.test` converts its argument to a string: a missing value is "undefined". */
  function RegexInput(v: Option<string>): string {
    if v.None? then "undefined" else v.value
  }

  /**
   * registerUser's checks in their order: email format, then password
   * presence and strength, then whether the email is already registered.
   */
  function RegisterUser(email: Option<string>, password: Option<string>, existingEmails: set<string>): (r: RegisterOutcome)
    ensures email.None? ==> r == InvalidEmailFormat
    ensures !EmailRegexTest(RegexInput(email)) ==> r == InvalidEmailFormat
    ensures EmailRegexTest(RegexInput(email)) && !Truthy(password) ==> r == WeakPassword
    ensures EmailRegexTest(RegexInput(email)) && password.Some? && !PasswordRegexTest(password.value) ==> r == WeakPassword
    ensures r == UserAlreadyExists <==>
              email.Some? && EmailRegexTest(email.value) && password.Some? && PasswordRegexTest(password.value) &&
              email.value in existingEmails
    ensures r == Registered <==>
              email.Some? && EmailRegexTest(email.value) && password.Some? && PasswordRegexTest(password.value) &&
              email.value !in existingEmails
  {
    assert '@' !in "undefined";
    if !EmailRegexTest(RegexInput(email)) then InvalidEmailFormat
    else if !Truthy(password) || !PasswordRegexTest(password.value) then WeakPassword
    else if email.value in existingEmails then UserAlreadyExists
    else Registered
  }
}
