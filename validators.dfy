/**
 * The two regular expressions of authentication/routes.py, stated over
 * characters: the email shape checked at signup and the password policy
 * checked at signup and at reset.
 */
module Validators {

  /** The index of the first '@' at or after `from`, or |s| when there is none. */
  function NextAt(s: string, from: nat): (r: nat)
    requires from <= |s|
    decreases |s| - from
    ensures from <= r <= |s|
    ensures r < |s| ==> s[r] == '@'
    ensures forall i :: from <= i < r ==> s[i] != '@'
  {
    if from == |s| then |s| else if s[from] == '@' then from else NextAt(s, from + 1)
  }

  /** Some '.' at an index in [lo, hi). */
  function HasDot(s: string, lo: nat, hi: nat): (r: bool)
    requires hi <= |s|
    decreases if lo < hi then hi - lo else 0
    ensures r <==> exists d :: lo <= d < hi && s[d] == '.'
  {
    if lo >= hi then false else s[lo] == '.' || HasDot(s, lo + 1, hi)
  }

  /**
   * `re.match(r"[^@]+@[^@]+\.[^@]+", s)`: some prefix of `s` is a run of
   * non-'@' characters, an '@', a run of non-'@' characters, a '.', and a
   * non-'@' character. `re.match` anchors only at the start, so anything may follow.
   */
  ghost predicate EmailPattern(s: string) {
    exists a, d :: EmailSplit(s, a, d)
  }

  /** The '@' sits at `a` and the '.' at `d` in a match of the email expression. */
  predicate EmailSplit(s: string, a: int, d: int) {
    && 0 < a && a + 2 <= d && d + 1 < |s|
    && s[a] == '@' && s[d] == '.' && s[d + 1] != '@'
    && (forall i :: 0 <= i < a ==> s[i] != '@')
    && (forall i :: a < i < d ==> s[i] != '@')
  }

  /** The check as a scan: the first '@', then a '.' with a non-'@' after it before the next '@'. */
  predicate EmailMatches(s: string) {
    var a := NextAt(s, 0);
    0 < a < |s| && HasDot(s, a + 2, NextAt(s, a + 1) - 1)
  }

  /** The scan accepts exactly the strings the regular expression matches a prefix of. */
  lemma EmailMatchesIff(s: string)
    ensures EmailMatches(s) <==> EmailPattern(s)
  {
    var a := NextAt(s, 0);
    if EmailMatches(s) {
      var e := NextAt(s, a + 1);
      var d :| a + 2 <= d < e - 1 && s[d] == '.';
      assert s[d + 1] != '@';
      assert EmailSplit(s, a, d);
    }
    if EmailPattern(s) {
      var a', d' :| EmailSplit(s, a', d');
      assert a == a';
      var e := NextAt(s, a + 1);
      assert forall i :: a < i <= d' + 1 ==> s[i] != '@';
      assert d' + 1 < e;
    }
  }

  predicate IsLetter(c: char) { 'A' <= c <= 'Z' || 'a' <= c <= 'z' }

  predicate IsDigit(c: char) { '0' <= c <= '9' }

  predicate IsSymbol(c: char) { c in "@$!%*#?&" }

  /** `[A-Za-z\d@$!%*#?&]`. */
  predicate Allowed(c: char) { IsLetter(c) || IsDigit(c) || IsSymbol(c) }

  /**
   * The password policy as intended: at least six characters, all from the
   * allowed set, with at least one letter, one digit and one symbol.
   */
  predicate PasswordPolicy(s: string) {
    && |s| >= 6
    && (forall i :: 0 <= i < |s| ==> Allowed(s[i]))
    && (exists i :: 0 <= i < |s| && IsLetter(s[i]))
    && (exists i :: 0 <= i < |s| && IsDigit(s[i]))
    && (exists i :: 0 <= i < |s| && IsSymbol(s[i]))
  }

  /** Python's `$` without MULTILINE: the end of the text, or just before a final newline. */
  predicate DollarAt(s: string, k: int) {
    k == |s| || (0 < |s| && k == |s| - 1 && s[k] == '\n')
  }

  /** `(?=.*X)` at the start: some character of class X precedes the first newline. */
  predicate LookaheadLetter(s: string) {
    exists i :: 0 <= i < |s| && IsLetter(s[i]) && forall j :: 0 <= j < i ==> s[j] != '\n'
  }

  predicate LookaheadDigit(s: string) {
    exists i :: 0 <= i < |s| && IsDigit(s[i]) && forall j :: 0 <= j < i ==> s[j] != '\n'
  }

  predicate LookaheadSymbol(s: string) {
    exists i :: 0 <= i < |s| && IsSymbol(s[i]) && forall j :: 0 <= j < i ==> s[j] != '\n'
  }

  /**
   * `re.match(r'^(?=.*[A-Za-z])(?=.*\d)(?=.*[@$!%*#?&])[A-Za-z\d@$!%*#?&]{6,}$', s)`
   * as written: the lookaheads, then six or more allowed characters up to
   * a position where `$` holds.
   */
  predicate PasswordRegexAsWritten(s: string) {
    && LookaheadLetter(s) && LookaheadDigit(s) && LookaheadSymbol(s)
    && exists k :: 6 <= k <= |s| && DollarAt(s, k) && forall i :: 0 <= i < k ==> Allowed(s[i])
  }

  /** As written, the expression accepts the policy's passwords and those same passwords followed by one newline. */
  lemma PasswordRegexAsWrittenIff(s: string)
    ensures PasswordRegexAsWritten(s) <==>
      PasswordPolicy(s) || (|s| > 0 && s[|s| - 1] == '\n' && PasswordPolicy(s[..|s| - 1]))
  {
    if PasswordRegexAsWritten(s) {
      AsWrittenMatchIsPolicyPrefix(s);
    }
    if PasswordPolicy(s) {
      assert DollarAt(s, |s|);
      NoNewlineInPolicy(s);
    }
    if |s| > 0 && s[|s| - 1] == '\n' && PasswordPolicy(s[..|s| - 1]) {
      NewlineAfterPolicyMatches(s);
    }
  }

  /** What the expression matches is a policy password, up to an optional final newline. */
  lemma AsWrittenMatchIsPolicyPrefix(s: string)
    requires PasswordRegexAsWritten(s)
    ensures PasswordPolicy(s) || (|s| > 0 && s[|s| - 1] == '\n' && PasswordPolicy(s[..|s| - 1]))
  {
    var k :| 6 <= k <= |s| && DollarAt(s, k) && forall i :: 0 <= i < k ==> Allowed(s[i]);
    var t := s[..k];
    assert forall i :: 0 <= i < |t| ==> t[i] == s[i] && Allowed(t[i]);
    var il :| 0 <= il < |s| && IsLetter(s[il]) && forall j :: 0 <= j < il ==> s[j] != '\n';
    var id :| 0 <= id < |s| && IsDigit(s[id]) && forall j :: 0 <= j < id ==> s[j] != '\n';
    var isym :| 0 <= isym < |s| && IsSymbol(s[isym]) && forall j :: 0 <= j < isym ==> s[j] != '\n';
    assert il < k && id < k && isym < k by {
      assert forall j :: 0 <= j < k ==> s[j] != '\n';
      if k < |s| { assert s[k] == '\n'; }
    }
    assert IsLetter(t[il]) && IsDigit(t[id]) && IsSymbol(t[isym]);
    assert PasswordPolicy(t);
    if k == |s| {
      assert t == s;
    }
  }

  /** A policy password followed by a newline matches: `$` holds just before the newline. */
  lemma NewlineAfterPolicyMatches(s: string)
    requires |s| > 0 && s[|s| - 1] == '\n' && PasswordPolicy(s[..|s| - 1])
    ensures PasswordRegexAsWritten(s)
  {
    var t := s[..|s| - 1];
    NoNewlineInPolicy(t);
    assert forall i :: 0 <= i < |t| ==> s[i] == t[i];
    assert DollarAt(s, |t|);
    var il :| 0 <= il < |t| && IsLetter(t[il]);
    var id :| 0 <= id < |t| && IsDigit(t[id]);
    var isym :| 0 <= isym < |t| && IsSymbol(t[isym]);
    assert IsLetter(s[il]) && IsDigit(s[id]) && IsSymbol(s[isym]);
  }

  /** A password the intended policy admits has no newline, so each lookahead sees all of it. */
  lemma NoNewlineInPolicy(s: string)
    requires PasswordPolicy(s)
    ensures forall j :: 0 <= j < |s| ==> s[j] != '\n'
    ensures LookaheadLetter(s) && LookaheadDigit(s) && LookaheadSymbol(s)
  {
    assert forall j :: 0 <= j < |s| ==> Allowed(s[j]);
  }

  /** The string that shows the trailing-newline acceptance. */
  const NewlinePassword: string := "Abc12@\n"

  /** "Abc12@" followed by a newline passes the expression as written but breaks the policy. */
  lemma TrailingNewlineAccepted()
    ensures PasswordRegexAsWritten(NewlinePassword) && !PasswordPolicy(NewlinePassword)
  {
    var s := NewlinePassword;
    var t := s[..|s| - 1];
    assert t == "Abc12@";
    assert IsLetter(t[0]) && IsDigit(t[3]) && IsSymbol(t[5]);
    assert PasswordPolicy(t);
    PasswordRegexAsWrittenIff(s);
    assert !Allowed(s[6]);
  }
}
