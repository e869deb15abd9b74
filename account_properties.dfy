/**
 * What the account handlers promise: the order of signup's and reset's
 * checks, login exactly on a matching password, the forgot / verify /
 * reset flow with its session flag, the Google upsert, and the admin
 * bootstrap keyed on names.
 */
module AccountProperties {
  import opened Wrappers
  import opened Http
  import opened Passwords
  import opened Query
  import opened Models
  import opened Validators
  import opened Otp
  import opened Accounts
  import opened AccountInvariant

  /** Under the unique constraint, `.first()` by email finds the one user with that email. */
  lemma EmailFound(s: Db, email: string, k: int)
    requires IdsBounded(s) && EmailsUnique(s.users)
    requires k in s.users && s.users[k].email == email
    ensures FindUserByEmail(s, email) == Some(k)
  {
    var found := FindUserByEmail(s, email);
    assert UserWithEmail(email)(s.users[k]);
    assert found.Some?;
    assert s.users[found.value].email == email;
  }

  /**
   * The shared password step rejects exactly what the expression as written
   * rejects: it admits the policy's passwords and, besides them, those same
   * passwords followed by one newline.
   */
  lemma PasswordProblemIff(password: string)
    ensures PasswordProblem(password).None? <==> PasswordRegexAsWritten(password)
    ensures PasswordProblem(password).None? <==>
      PasswordPolicy(password) || (|password| > 0 && password[|password| - 1] == '\n' && PasswordPolicy(password[..|password| - 1]))
    ensures PasswordProblem(password).Some? ==> PasswordProblem(password).value in {PasswordTooShort, PasswordTooWeak}
  {
    PasswordRegexAsWrittenIff(password);
  }

  /**
   * signup_post creates a user exactly when all three fields are given, the
   * email matches the pattern, the password passes the expression as
   * written and no user
   * has the email; the row is the new, non-admin user. Otherwise it answers
   * 400 and stores nothing.
   */
  lemma SignupOutcome(s: Db, ss: SessionState, email: Option<string>, name: Option<string>, password: Option<string>)
    requires Valid(s)
    ensures var r := Signup(s, ss, email, name, password);
      && r.session == ss
      && (r.reply.status == Created <==>
            && !NoText(email) && !NoText(name) && !NoText(password)
            && EmailPattern(email.value) && PasswordRegexAsWritten(password.value)
            && forall k :: k in s.users ==> s.users[k].email != email.value)
      && (r.reply.status == Created ==>
            r.db == InsertUser(s, User(name.value, email.value, Hash(password.value), false, None, None)))
      && (r.reply.status != Created ==> r.reply.status == BadRequest && r.db == s)
  {
    if !NoText(email) && !NoText(name) && !NoText(password) {
      EmailMatchesIff(email.value);
      PasswordProblemIff(password.value);
      var found := FindUserByEmail(s, email.value);
      if found.None? {
        NoUserWithEmail(s, email.value);
      } else {
        assert s.users[found.value].email == email.value;
      }
    }
  }

  /**
   * As written, signup stores a user whose password is a policy password
   * followed by a newline ("Abc12@" and a newline).
   */
  lemma SignupAcceptsTrailingNewline(s: Db, ss: SessionState, email: string, name: string)
    requires Valid(s) && email != "" && name != "" && EmailPattern(email)
    requires forall k :: k in s.users ==> s.users[k].email != email
    ensures Signup(s, ss, Some(email), Some(name), Some(NewlinePassword)).reply.status == Created
  {
    TrailingNewlineAccepted();
    SignupOutcome(s, ss, Some(email), Some(name), Some(NewlinePassword));
  }

  /** An email already in the table is refused with 400, and the table is left as it was. */
  lemma SignupDuplicateRefused(s: Db, ss: SessionState, email: string, name: Option<string>, password: Option<string>, k: int)
    requires Valid(s) && k in s.users && s.users[k].email == email
    ensures Signup(s, ss, Some(email), name, password).reply.status == BadRequest
    ensures Signup(s, ss, Some(email), name, password).db == s
  {
    SignupOutcome(s, ss, Some(email), name, password);
  }

  /** A missing or empty field is refused before any other check, and nothing is stored. */
  lemma SignupMissingFieldRefused(s: Db, ss: SessionState, email: Option<string>, name: Option<string>, password: Option<string>)
    requires NoText(email) || NoText(name) || NoText(password)
    ensures Signup(s, ss, email, name, password) == Step(Reply(BadRequest, MissingFields), s, ss)
  {
  }

  /**
   * Signup and reset apply the same password rule: with the other fields in
   * order, each refuses a password with the same message exactly when it
   * fails the expression as written.
   */
  lemma PasswordRuleShared(s: Db, ss: SessionState, s2: Db, ss2: SessionState, email: string, name: string, password: string)
    requires email != "" && name != "" && password != "" && EmailMatches(email)
    ensures var m := Signup(s, ss, Some(email), Some(name), Some(password)).reply.message;
      var m2 := ResetPassword(s2, ss2, Some(password), Some(password)).reply.message;
      && (m in {PasswordTooShort, PasswordTooWeak} <==> !PasswordRegexAsWritten(password))
      && (m2 in {PasswordTooShort, PasswordTooWeak} <==> !PasswordRegexAsWritten(password))
      && (!PasswordRegexAsWritten(password) ==> m == m2)
  {
    PasswordProblemIff(password);
  }

  /**
   * login_post logs in exactly when a user has the email and the password
   * checks against that user's hash; it then logs in that user. It never
   * writes to the store or touches the OTP flag.
   */
  lemma LoginOutcome(s: Db, ss: SessionState, email: Option<string>, password: Option<string>)
    requires Valid(s)
    ensures var r := Login(s, ss, email, password);
      && r.db == s && r.session.otpVerified == ss.otpVerified
      && (r.reply.status == Ok <==>
            && !NoText(email) && !NoText(password)
            && exists k :: k in s.users && s.users[k].email == email.value && Check(s.users[k].password, password.value))
      && (r.reply.status == Ok ==>
            forall k :: k in s.users && s.users[k].email == email.value ==> r.session.principal == Some(k))
      && (r.reply.status != Ok ==> r.reply.status == BadRequest && r.session == ss)
  {
    if !NoText(email) && !NoText(password) {
      var found := FindUserByEmail(s, email.value);
      if found.None? {
        NoUserWithEmail(s, email.value);
      } else {
        forall k | k in s.users && s.users[k].email == email.value ensures k == found.value {
          EmailIdentifiesUser(s, k, found.value);
        }
      }
    }
  }

  /** After a successful signup, logging in with the same email succeeds with that password and with no other. */
  lemma LoginAfterSignup(s: Db, ss: SessionState, email: string, name: string, password: string, attempt: string)
    requires Valid(s) && attempt != ""
    requires Signup(s, ss, Some(email), Some(name), Some(password)).reply.status == Created
    ensures var s' := Signup(s, ss, Some(email), Some(name), Some(password)).db;
      var r := Login(s', ss, Some(email), Some(attempt));
      && (r.reply.status == Ok <==> attempt == password)
      && (r.reply.status == Ok ==> r.session.principal == Some(NewUserId(s)))
  {
    SignupOutcome(s, ss, Some(email), Some(name), Some(password));
    var s' := Signup(s, ss, Some(email), Some(name), Some(password)).db;
    SignupKeepsValid(s, ss, Some(email), Some(name), Some(password));
    assert s'.users[NewUserId(s)].email == email;
    LoginOutcome(s', ss, Some(email), Some(attempt));
    EmailFound(s', email, NewUserId(s));
  }

  /** save_otp leaves the email, so `.first()` by email still finds the same user. */
  lemma FindAfterSaveOtp(s: Db, uid: int, otp: int, now: int, email: string)
    requires uid in s.users
    ensures FindUserByEmail(s.(users := s.users[uid := SaveOtp(s.users[uid], otp, now)]), email) == FindUserByEmail(s, email)
  {
    FirstKeyUpdate(s.users, UserWithEmail(email), 0, s.usersBound, uid, SaveOtp(s.users[uid], otp, now));
  }

  /**
   * verify_otp_route only reads the store. It answers 200 exactly when both
   * fields are given and the user with that email holds a live OTP matching
   * the code, and only then marks the session for that user.
   */
  lemma VerifyOtpRouteOutcome(s: Db, ss: SessionState, email: Option<string>, otp: OtpArg, now: int)
    requires Valid(s)
    ensures var r := VerifyOtpRoute(s, ss, email, otp, now);
      && r.db == s
      && (r.reply.status == Ok <==>
            && !NoText(email) && !NoOtpGiven(otp)
            && exists k :: k in s.users && s.users[k].email == email.value && VerifyOtp(s.users[k], OtpCode(otp), now))
      && (r.reply.status == Ok ==>
            forall k :: k in s.users && s.users[k].email == email.value ==> r.session == ss.(otpVerified := Some(k)))
      && (r.reply.status != Ok ==> r.session == ss)
  {
    if !NoText(email) && !NoOtpGiven(otp) {
      var found := FindUserByEmail(s, email.value);
      if found.None? {
        NoUserWithEmail(s, email.value);
      } else {
        forall k | k in s.users && s.users[k].email == email.value ensures k == found.value {
          EmailIdentifiesUser(s, k, found.value);
        }
      }
    }
  }

  /**
   * The timed flow: after forgot_password sends code `otp` at `sent`,
   * verify_otp_route with that user's email accepts a code at `now` exactly
   * when it is the code sent and at most ten minutes have passed, and then
   * marks the session for that user. forgot_password itself leaves the
   * session as it was.
   */
  lemma ForgotThenVerify(s: Db, ss: SessionState, email: string, k: int, otp: int, sent: int, code: string, now: int)
    requires Valid(s) && k in s.users && s.users[k].email == email && email != "" && code != ""
    ensures var f := ForgotPassword(s, ss, Some(email), otp, sent);
      && f.reply.status == Ok && f.session == ss && Valid(f.db)
      && var v := VerifyOtpRoute(f.db, f.session, Some(email), OtpText(code), now);
         && (v.reply.status == Ok <==> code == Str(otp) && now - sent <= OtpWindow)
         && (v.reply.status == Ok ==> v.session.otpVerified == Some(k))
  {
    EmailFound(s, email, k);
    var f := ForgotPassword(s, ss, Some(email), otp, sent);
    ForgotPasswordKeepsValid(s, ss, Some(email), otp, sent, false);
    FindAfterSaveOtp(s, k, otp, sent, email);
    SavedOtpVerifies(s.users[k], otp, sent, code, now);
  }

  /** A second forgot_password with a different code makes the first code fail at verify_otp_route. */
  lemma ReissuedCodeRejected(s: Db, ss: SessionState, email: string, k: int, first: int, t1: int, second: int, t2: int, now: int)
    requires Valid(s) && k in s.users && s.users[k].email == email && email != ""
    requires first != second
    ensures var f1 := ForgotPassword(s, ss, Some(email), first, t1);
      && Valid(f1.db)
      && var f2 := ForgotPassword(f1.db, f1.session, Some(email), second, t2);
         && Valid(f2.db)
         && VerifyOtpRoute(f2.db, f2.session, Some(email), OtpText(Str(first)), now).reply == Reply(BadRequest, OtpInvalid)
  {
    EmailFound(s, email, k);
    var f1 := ForgotPassword(s, ss, Some(email), first, t1);
    ForgotPasswordKeepsValid(s, ss, Some(email), first, t1, false);
    FindAfterSaveOtp(s, k, first, t1, email);
    var f2 := ForgotPassword(f1.db, f1.session, Some(email), second, t2);
    ForgotPasswordKeepsValid(f1.db, f1.session, Some(email), second, t2, false);
    FindAfterSaveOtp(f1.db, k, second, t2, email);
    ReissueInvalidates(s.users[k], first, t1, second, t2, now);
  }

  /**
   * reset_password changes something exactly when the two fields agree and
   * are given, the password passes the expression as written, the session carries a
   * verified user who exists, and the password differs from the current
   * one. Then only that user's password changes (their OTP stays) and the
   * flag is cleared; otherwise neither store nor session changes. The flag
   * is consulted only after the password checks pass.
   */
  lemma ResetPasswordOutcome(s: Db, ss: SessionState, newPassword: Option<string>, confirmPassword: Option<string>)
    ensures var r := ResetPassword(s, ss, newPassword, confirmPassword);
      var passwordOk := !NoText(newPassword) && !NoText(confirmPassword) && newPassword.value == confirmPassword.value
                        && PasswordRegexAsWritten(newPassword.value);
      var ok := passwordOk && !NoFlag(ss.otpVerified) && ss.otpVerified.value in s.users
                && !Check(s.users[ss.otpVerified.value].password, newPassword.value);
      && (r.reply.status == Forbidden <==> passwordOk && NoFlag(ss.otpVerified))
      && (r.reply.status == Ok <==> ok)
      && (ok ==> var uid := ss.otpVerified.value;
            && r.db == s.(users := r.db.users) && r.db.users.Keys == s.users.Keys
            && (forall c :: Check(r.db.users[uid].password, c) <==> c == newPassword.value)
            && r.db.users[uid] == s.users[uid].(password := r.db.users[uid].password)
            && (forall v :: v in s.users && v != uid ==> r.db.users[v] == s.users[v])
            && r.session == ss.(otpVerified := None))
      && (!ok ==> r.db == s && r.session == ss)
  {
    if !NoText(newPassword) {
      PasswordProblemIff(newPassword.value);
    }
  }

  /**
   * As written, forgot_password marks the session as verified when it sends
   * the code, so reset_password right after it changes the password of
   * whoever owns the email without the code ever being presented.
   */
  lemma ResetWithoutCodeAsWritten(s: Db, ss: SessionState, email: string, k: int, otp: int, sent: int, password: string)
    requires Valid(s) && k in s.users && s.users[k].email == email && email != ""
    requires PasswordRegexAsWritten(password) && !Check(s.users[k].password, password)
    ensures var f := ForgotPasswordAsWritten(s, ss, Some(email), otp, sent);
      var r := ResetPassword(f.db, f.session, Some(password), Some(password));
      && r.reply.status == Ok && k in r.db.users && r.db.users[k].password == Hash(password)
  {
    EmailFound(s, email, k);
    var f := ForgotPasswordAsWritten(s, ss, Some(email), otp, sent);
    ResetPasswordOutcome(f.db, f.session, Some(password), Some(password));
  }

  /**
   * With the flag set only by verify_otp_route, a session that has not
   * verified a code cannot reset a password after forgot_password: the reset
   * changes nothing.
   */
  lemma ResetNeedsVerifiedCode(s: Db, ss: SessionState, email: Option<string>, otp: int, sent: int,
                               newPassword: Option<string>, confirmPassword: Option<string>)
    requires ss.otpVerified == None
    ensures var f := ForgotPassword(s, ss, email, otp, sent);
      var r := ResetPassword(f.db, f.session, newPassword, confirmPassword);
      && r.reply.status != Ok && r.db == f.db && r.session == ss
  {
    var f := ForgotPassword(s, ss, email, otp, sent);
    ResetPasswordOutcome(f.db, f.session, newPassword, confirmPassword);
  }

  /**
   * The Google callback: without a client, or with an unverified email, it
   * answers 500 and changes nothing. With a verified email it logs in the
   * user who has that email, or else inserts exactly one user named
   * "given family" whose password is the hash of `sub`, and logs them in.
   */
  lemma GoogleCallbackOutcome(s: Db, ss: SessionState, configured: bool, p: GoogleProfile)
    requires Valid(s)
    ensures var r := GoogleCallback(s, ss, configured, p);
      && (!configured || !p.emailVerified ==> r.reply.status == ServerError && r.db == s && r.session == ss)
      && (configured && p.emailVerified && p.email.Some? ==>
            && (forall k :: k in s.users && s.users[k].email == p.email.value ==>
                  r.reply.status == Found && r.db == s && r.session == ss.(principal := Some(k)))
            && ((forall k :: k in s.users ==> s.users[k].email != p.email.value) && p.sub.Some? ==>
                  && r.reply.status == Found
                  && r.db == InsertUser(s, User(GoogleName(p), p.email.value, Hash(p.sub.value), false, None, None))
                  && |r.db.users| == |s.users| + 1
                  && r.session == ss.(principal := Some(NewUserId(s)))))
  {
    if configured && p.emailVerified && p.email.Some? {
      var e := p.email.value;
      forall k | k in s.users && s.users[k].email == e ensures FindUserByEmail(s, e) == Some(k) {
        EmailFound(s, e, k);
      }
      if (forall k :: k in s.users ==> s.users[k].email != e) {
        assert NewUserId(s) !in s.users;
      }
    }
  }

  /** The upsert is idempotent: a second callback with the same profile stores nothing more and logs in the same user. */
  lemma GoogleCallbackIdempotent(s: Db, ss: SessionState, ss2: SessionState, configured: bool, p: GoogleProfile)
    requires Valid(s)
    ensures var r1 := GoogleCallback(s, ss, configured, p);
      var r2 := GoogleCallback(r1.db, ss2, configured, p);
      && r2.db == r1.db
      && (r1.reply.status == Found ==> r2.reply.status == Found && r2.session.principal == r1.session.principal)
  {
    var r1 := GoogleCallback(s, ss, configured, p);
    GoogleCallbackOutcome(s, ss, configured, p);
    GoogleCallbackKeepsValid(s, ss, configured, p);
    GoogleCallbackOutcome(r1.db, ss2, configured, p);
    if r1.reply.status == Found {
      var e := p.email.value;
      var k := r1.session.principal.value;
      if FindUserByEmail(s, e).Some? {
        assert s.users[FindUserByEmail(s, e).value].email == e;
      } else {
        NoUserWithEmail(s, e);
      }
      assert k in r1.db.users && r1.db.users[k].email == e;
    }
  }

  /** Both Google entry points answer "not configured" with 500 when no client exists. */
  lemma GoogleUnconfiguredRefused(s: Db, ss: SessionState, p: GoogleProfile)
    ensures GoogleLogin(false) == Reply(ServerError, GoogleNotConfigured)
    ensures GoogleCallback(s, ss, false, p) == Step(Reply(ServerError, GoogleNotConfigured), s, ss)
  {
  }

  /** Some user below the scan bound has this name. */
  predicate NameTaken(users: map<int, User>, next: int, name: string) {
    exists k :: 0 <= k < next && k in users && users[k].name == name
  }

  /** After the admin loop, every entry's name is held by some user. */
  lemma {:induction false} AddAdminsNamesPresent(users: map<int, User>, next: int, entries: seq<AdminEntry>)
    requires IdsBelow(users, next)
    ensures var (users', next') := AddAdmins(users, next, entries);
      forall i :: 0 <= i < |entries| ==> NameTaken(users', next', entries[i].name)
    decreases |entries|
  {
    if entries != [] {
      var e := entries[0];
      var found := FirstKey(users, UserNamed(e.name), 0, next);
      var id := NextRowid(users, next);
      var (users1, next1) := if found.Some? then (users, next)
        else (users[id := User(e.name, e.email, Hash(e.password), e.isAdmin, None, None)], id + 1);
      assert AddAdmins(users, next, entries) == AddAdmins(users1, next1, entries[1..]);
      assert NameTaken(users1, next1, e.name) by {
        if found.Some? {
          assert UserNamed(e.name)(users[found.value]);
          assert users[found.value].name == e.name;
        } else {
          assert users1[id].name == e.name;
        }
      }
      AddAdminsNamesPresent(users1, next1, entries[1..]);
      AddAdminsKeepsNames(users1, next1, entries[1..], e.name);
      assert forall i :: 1 <= i < |entries| ==> entries[i] == entries[1..][i - 1];
    }
  }

  /** A name held before the admin loop is still held after it. */
  lemma {:induction false} AddAdminsKeepsNames(users: map<int, User>, next: int, entries: seq<AdminEntry>, name: string)
    requires IdsBelow(users, next) && NameTaken(users, next, name)
    ensures var (users', next') := AddAdmins(users, next, entries); NameTaken(users', next', name)
    decreases |entries|
  {
    if entries != [] {
      var e := entries[0];
      var k :| 0 <= k < next && k in users && users[k].name == name;
      if FirstKey(users, UserNamed(e.name), 0, next).Some? {
        AddAdminsKeepsNames(users, next, entries[1..], name);
      } else {
        var id := NextRowid(users, next);
        var users1 := users[id := User(e.name, e.email, Hash(e.password), e.isAdmin, None, None)];
        assert users1[k].name == name;
        AddAdminsKeepsNames(users1, id + 1, entries[1..], name);
      }
    }
  }

  /** When every entry's name is already held, the admin loop adds nothing. */
  lemma {:induction false} AddAdminsNoop(users: map<int, User>, next: int, entries: seq<AdminEntry>)
    requires forall i :: 0 <= i < |entries| ==> NameTaken(users, next, entries[i].name)
    ensures AddAdmins(users, next, entries) == (users, next)
    decreases |entries|
  {
    if entries != [] {
      var e := entries[0];
      var k :| 0 <= k < next && k in users && users[k].name == e.name;
      assert UserNamed(e.name)(users[k]);
      assert FirstKey(users, UserNamed(e.name), 0, next).Some?;
      assert forall i :: 0 <= i < |entries[1..]| ==> entries[1..][i] == entries[i + 1];
      AddAdminsNoop(users, next, entries[1..]);
    }
  }

  /**
   * The match is on the name alone: an entry whose name is held is skipped
   * whatever its email, and one whose name is free is stored as given.
   */
  lemma AdminKeyedOnName(users: map<int, User>, next: int, e: AdminEntry)
    requires IdsBelow(users, next)
    ensures NameTaken(users, next, e.name) ==> AddAdmins(users, next, [e]) == (users, next)
    ensures !NameTaken(users, next, e.name) ==>
      var id := NextRowid(users, next);
      AddAdmins(users, next, [e]) == (users[id := User(e.name, e.email, Hash(e.password), e.isAdmin, None, None)], id + 1)
  {
    assert [e][1..] == [];
    if NameTaken(users, next, e.name) {
      AddAdminsNoop(users, next, [e]);
    }
  }

  /** Running the bootstrap again on the store it produced changes nothing. */
  lemma CreateAdminUsersIdempotent(s: Db, file: Option<seq<AdminEntry>>)
    requires Valid(s)
    ensures var b := CreateAdminUsers(s, file);
      b.started ==> CreateAdminUsers(b.db, file) == b
  {
    var b := CreateAdminUsers(s, file);
    if file.Some? && b.started {
      AddAdminsNamesPresent(s.users, s.usersBound, file.value);
      AddAdminsNoop(b.db.users, b.db.usersBound, file.value);
    }
  }

  /**
   * An entry under a new name but with an email some user already has
   * aborts startup, and nothing is stored.
   */
  lemma AdminEmailClashAborts(s: Db, e: AdminEntry, k: int)
    requires Valid(s) && k in s.users && s.users[k].email == e.email
    requires forall v :: v in s.users ==> s.users[v].name != e.name
    ensures CreateAdminUsers(s, Some([e])) == Boot(false, s)
  {
    AdminKeyedOnName(s.users, s.usersBound, e);
    var id := NewUserId(s);
    var users := s.users[id := User(e.name, e.email, Hash(e.password), e.isAdmin, None, None)];
    assert id !in s.users;
    assert users[k].email == users[id].email && k != id;
  }
}
