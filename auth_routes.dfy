/**
 * The authentication handlers (authentication/routes.py) and the helpers
 * they call in authentication/views.py, as methods over the tables and the
 * client's session. Each is proved to perform exactly the transition of
 * the same name in module Accounts, and so to keep the store invariant.
 */
module AuthRoutes {
  import opened Wrappers
  import opened Http
  import opened Passwords
  import opened Query
  import opened Models
  import opened Validators
  import opened Otp
  import opened Accounts
  import opened AccountInvariant
  import opened Store

  function SessionOf(session: Session): SessionState
    reads session
  {
    SessionState(session.principal, session.otpVerifiedUserId)
  }

  /** signup_post. The session is only read. */
  method SignupPost(db: Database, session: Session, email: Option<string>, name: Option<string>, password: Option<string>)
    returns (reply: Reply)
    requires db.Valid()
    modifies db
    ensures Step(reply, db.Snapshot(), SessionOf(session)) == Signup(old(db.Snapshot()), SessionOf(session), email, name, password)
    ensures db.Valid()
  {
    SignupKeepsValid(db.Snapshot(), SessionOf(session), email, name, password);
    if NoText(email) || NoText(name) || NoText(password) {
      return Reply(BadRequest, MissingFields);
    }
    if !EmailMatches(email.value) {
      return Reply(BadRequest, InvalidEmail);
    }
    if |password.value| < 6 {
      return Reply(BadRequest, PasswordTooShort);
    }
    if !PasswordRegexAsWritten(password.value) {
      return Reply(BadRequest, PasswordTooWeak);
    }
    var existing := FindUserByEmail(db.Snapshot(), email.value);
    if existing.Some? {
      return Reply(BadRequest, EmailExists);
    }
    var id := NextRowid(db.users, db.usersBound);
    db.users := db.users[id := User(name.value, email.value, Hash(password.value), false, None, None)];
    db.usersBound := id + 1;
    reply := Reply(Created, SignedUp);
  }

  /** login_post: on success flask_login records the user in the session. */
  method LoginPost(db: Database, session: Session, email: Option<string>, password: Option<string>)
    returns (reply: Reply)
    modifies session
    ensures Step(reply, db.Snapshot(), SessionOf(session)) == Login(db.Snapshot(), old(SessionOf(session)), email, password)
  {
    if NoText(email) || NoText(password) {
      return Reply(BadRequest, MissingFields);
    }
    var found := FindUserByEmail(db.Snapshot(), email.value);
    if found.None? || !Check(db.users[found.value].password, password.value) {
      return Reply(BadRequest, BadCredentials);
    }
    session.principal := found;
    reply := Reply(Ok, LoggedIn);
  }

  /** save_otp: overwrites the user's OTP hash and timestamp in place. */
  method StoreOtp(db: Database, uid: int, otp: int, now: int)
    requires uid in db.users
    modifies db
    ensures db.Snapshot() == old(db.Snapshot()).(users := old(db.users)[uid := SaveOtp(old(db.users[uid]), otp, now)])
  {
    var u := db.users[uid];
    db.users := db.users[uid := u.(otp := Some(Hash(Str(otp))), otpCreatedAt := Some(now))];
  }

  /**
   * forgot_password. A code is drawn only once a user is found; sending it
   * by email is not modelled. With `flagOnSend`, as in the source, the
   * session is marked as verified for that user as soon as the code is
   * stored; without it the flag is left to verify_otp_route.
   */
  method ForgotPassword(db: Database, session: Session, email: Option<string>, now: int, flagOnSend: bool)
    returns (reply: Reply, otp: Option<int>)
    requires db.Valid()
    modifies db, session
    ensures otp.Some? <==> reply.status == Ok
    ensures otp.Some? ==> OtpLow <= otp.value <= OtpHigh
    ensures Step(reply, db.Snapshot(), SessionOf(session))
         == ForgotPasswordWith(old(db.Snapshot()), old(SessionOf(session)), email, otp.GetOr(OtpLow), now, flagOnSend)
    ensures db.Valid()
  {
    if NoText(email) {
      return Reply(BadRequest, EmailRequired), None;
    }
    var found := FindUserByEmail(db.Snapshot(), email.value);
    if found.None? {
      return Reply(NotFound, UserNotFound), None;
    }
    var code := GenerateOtp();
    ForgotPasswordKeepsValid(db.Snapshot(), SessionOf(session), email, code, now, flagOnSend);
    StoreOtp(db, found.value, code, now);
    if flagOnSend {
      session.otpVerifiedUserId := found;
    }
    reply, otp := Reply(Ok, OtpSent), Some(code);
  }

  /** verify_otp_route: reads the user and marks the session on success. */
  method VerifyOtpPost(db: Database, session: Session, email: Option<string>, otp: OtpArg, now: int)
    returns (reply: Reply)
    requires db.Valid()
    modifies session
    ensures Step(reply, db.Snapshot(), SessionOf(session)) == VerifyOtpRoute(db.Snapshot(), old(SessionOf(session)), email, otp, now)
  {
    if NoText(email) || NoOtpGiven(otp) {
      return Reply(BadRequest, OtpRequired);
    }
    var found := FindUserByEmail(db.Snapshot(), email.value);
    if found.None? {
      return Reply(NotFound, UserNotFound);
    }
    if VerifyOtp(db.users[found.value], OtpCode(otp), now) {
      session.otpVerifiedUserId := found;
      return Reply(Ok, OtpVerified);
    }
    reply := Reply(BadRequest, OtpInvalid);
  }

  /** reset_password: rewrites the verified user's password and pops the flag. */
  method ResetPasswordPost(db: Database, session: Session, newPassword: Option<string>, confirmPassword: Option<string>)
    returns (reply: Reply)
    requires db.Valid()
    modifies db, session
    ensures Step(reply, db.Snapshot(), SessionOf(session))
         == ResetPassword(old(db.Snapshot()), old(SessionOf(session)), newPassword, confirmPassword)
    ensures db.Valid()
  {
    ResetPasswordKeepsValid(db.Snapshot(), SessionOf(session), newPassword, confirmPassword);
    if NoText(newPassword) || NoText(confirmPassword) || newPassword.value != confirmPassword.value {
      return Reply(BadRequest, PasswordsMismatch);
    }
    if |newPassword.value| < 6 {
      return Reply(BadRequest, PasswordTooShort);
    }
    if !PasswordRegexAsWritten(newPassword.value) {
      return Reply(BadRequest, PasswordTooWeak);
    }
    var flag := session.otpVerifiedUserId;
    if NoFlag(flag) {
      return Reply(Forbidden, OtpNotVerified);
    }
    var uid := flag.value;
    if uid !in db.users {
      return Reply(NotFound, UserNotFound);
    }
    if Check(db.users[uid].password, newPassword.value) {
      return Reply(BadRequest, SamePassword);
    }
    var u := db.users[uid];
    db.users := db.users[uid := u.(password := Hash(newPassword.value))];
    session.otpVerifiedUserId := None;
    reply := Reply(Ok, PasswordReset);
  }

  /** google_callback around handle_google_callback, once the profile is in hand. */
  method GoogleCallbackGet(db: Database, session: Session, configured: bool, profile: GoogleProfile)
    returns (reply: Reply)
    requires db.Valid()
    modifies db, session
    ensures Step(reply, db.Snapshot(), SessionOf(session))
         == GoogleCallback(old(db.Snapshot()), old(SessionOf(session)), configured, profile)
    ensures db.Valid()
  {
    GoogleCallbackKeepsValid(db.Snapshot(), SessionOf(session), configured, profile);
    if !configured {
      return Reply(ServerError, GoogleNotConfigured);
    }
    if !profile.emailVerified {
      return Reply(ServerError, GoogleEmailNotVerified);
    }
    if profile.email.None? {
      return Reply(ServerError, InternalError);
    }
    var found := FindUserByEmail(db.Snapshot(), profile.email.value);
    var uid: int;
    if found.Some? {
      uid := found.value;
    } else {
      if profile.sub.None? {
        return Reply(ServerError, InternalError);
      }
      uid := NextRowid(db.users, db.usersBound);
      db.users := db.users[uid := User(GoogleName(profile), profile.email.value, Hash(profile.sub.value), false, None, None)];
      db.usersBound := uid + 1;
    }
    session.principal := Some(uid);
    reply := Reply(Found, GoogleRedirect);
  }

  /**
   * create_admin_users: the loop adds the entries whose name no user has
   * yet; the additions reach the table only if the commit succeeds.
   */
  method CreateAdminUsers(db: Database, file: Option<seq<AdminEntry>>) returns (started: bool)
    requires db.Valid()
    modifies db
    ensures Boot(started, db.Snapshot()) == Accounts.CreateAdminUsers(old(db.Snapshot()), file)
    ensures db.Valid()
  {
    CreateAdminUsersKeepsValid(db.Snapshot(), file);
    if file.None? {
      return true;
    }
    var entries := file.value;
    var users, next := db.users, db.usersBound;
    for i := 0 to |entries|
      invariant AddAdmins(users, next, entries[i..]) == AddAdmins(db.users, db.usersBound, entries)
    {
      var e := entries[i];
      assert entries[i..][1..] == entries[i + 1..];
      if FirstKey(users, UserNamed(e.name), 0, next).None? {
        var id := NextRowid(users, next);
        users := users[id := User(e.name, e.email, Hash(e.password), e.isAdmin, None, None)];
        next := id + 1;
      }
    }
    assert entries[|entries|..] == [];
    if !EmailsUnique(users) {
      return false;
    }
    db.users, db.usersBound := users, next;
    started := true;
  }
}
