/**
 * The account handlers of authentication/routes.py and the user upserts of
 * authentication/views.py, as transitions over the store and one client's
 * session. Each handler's validation steps run in the source's order and
 * the first that fails decides the reply.
 */
module Accounts {
  import opened Wrappers
  import opened Http
  import opened Passwords
  import opened Query
  import opened Models
  import opened Validators
  import opened Otp

  /** The JSON `message` of each reply, one per distinct text. */
  datatype Message =
    | MissingFields | InvalidEmail | PasswordTooShort | PasswordTooWeak | EmailExists | SignedUp
    | BadCredentials | LoggedIn
    | EmailRequired | UserNotFound | OtpSent
    | OtpRequired | OtpVerified | OtpInvalid
    | PasswordsMismatch | OtpNotVerified | SamePassword | PasswordReset
    | GoogleNotConfigured | GoogleEmailNotVerified | GoogleRedirect | InternalError

  datatype Reply = Reply(status: int, message: Message)

  /** flask_login's logged-in user and `session['otp_verified_user_id']`. */
  datatype SessionState = SessionState(principal: Option<int>, otpVerified: Option<int>)

  /** A reply with the store and the session after the handler. */
  datatype Step = Step(reply: Reply, db: Db, session: SessionState)

  /** `not user_id`: no flag, or the falsy id 0. */
  predicate NoFlag(flag: Option<int>) {
    flag.None? || flag.value == 0
  }

  /** The row signup_post inserts: the name and email given, the password hashed, not an admin, no OTP. */
  function NewUser(name: string, email: string, password: string): User {
    User(name, email, Hash(password), false, None, None)
  }

  /** The id the next user row gets. */
  function NewUserId(s: Db): int {
    NextRowid(s.users, s.usersBound)
  }

  /** A user row stored under the next rowid, the scan bound moving to just past it. */
  function InsertUser(s: Db, u: User): Db {
    s.(users := s.users[NewUserId(s) := u], usersBound := NewUserId(s) + 1)
  }

  /** The password checks signup and reset share: length first, then the expression as written. */
  function PasswordProblem(password: string): Option<Message> {
    if |password| < 6 then Some(PasswordTooShort)
    else if !PasswordRegexAsWritten(password) then Some(PasswordTooWeak)
    else None
  }

  /** signup_post. */
  function Signup(s: Db, ss: SessionState, email: Option<string>, name: Option<string>, password: Option<string>): Step {
    if NoText(email) || NoText(name) || NoText(password) then Step(Reply(BadRequest, MissingFields), s, ss)
    else if !EmailMatches(email.value) then Step(Reply(BadRequest, InvalidEmail), s, ss)
    else if PasswordProblem(password.value).Some? then Step(Reply(BadRequest, PasswordProblem(password.value).value), s, ss)
    else if FindUserByEmail(s, email.value).Some? then Step(Reply(BadRequest, EmailExists), s, ss)
    else Step(Reply(Created, SignedUp), InsertUser(s, NewUser(name.value, email.value, password.value)), ss)
  }

  /** login_post (the JSON form): log the user in when the password checks against the stored hash. */
  function Login(s: Db, ss: SessionState, email: Option<string>, password: Option<string>): Step {
    if NoText(email) || NoText(password) then Step(Reply(BadRequest, MissingFields), s, ss)
    else
      var found := FindUserByEmail(s, email.value);
      if found.None? || !Check(s.users[found.value].password, password.value) then
        Step(Reply(BadRequest, BadCredentials), s, ss)
      else Step(Reply(Ok, LoggedIn), s, ss.(principal := found))
  }

  /**
   * forgot_password with a drawn `otp` at time `now`. `flagOnSend` says
   * whether the handler marks the session as verified as soon as the code
   * is sent, as the source does.
   */
  function ForgotPasswordWith(s: Db, ss: SessionState, email: Option<string>, otp: int, now: int, flagOnSend: bool): Step {
    if NoText(email) then Step(Reply(BadRequest, EmailRequired), s, ss)
    else
      var found := FindUserByEmail(s, email.value);
      if found.None? then Step(Reply(NotFound, UserNotFound), s, ss)
      else
        var uid := found.value;
        Step(Reply(Ok, OtpSent), s.(users := s.users[uid := SaveOtp(s.users[uid], otp, now)]),
             if flagOnSend then ss.(otpVerified := Some(uid)) else ss)
  }

  /** forgot_password as written: the session flag is set when the code is sent, before any verification. */
  function ForgotPasswordAsWritten(s: Db, ss: SessionState, email: Option<string>, otp: int, now: int): Step {
    ForgotPasswordWith(s, ss, email, otp, now, true)
  }

  /** forgot_password as intended: only verify_otp_route marks the session as verified. */
  function ForgotPassword(s: Db, ss: SessionState, email: Option<string>, otp: int, now: int): Step {
    ForgotPasswordWith(s, ss, email, otp, now, false)
  }

  /** verify_otp_route: the store is only read; success marks the session for that user. */
  function VerifyOtpRoute(s: Db, ss: SessionState, email: Option<string>, otp: OtpArg, now: int): Step
    requires UsersValid(s.users)
  {
    if NoText(email) || NoOtpGiven(otp) then Step(Reply(BadRequest, OtpRequired), s, ss)
    else
      var found := FindUserByEmail(s, email.value);
      if found.None? then Step(Reply(NotFound, UserNotFound), s, ss)
      else if VerifyOtp(s.users[found.value], OtpCode(otp), now) then
        Step(Reply(Ok, OtpVerified), s, ss.(otpVerified := found))
      else Step(Reply(BadRequest, OtpInvalid), s, ss)
  }

  /** reset_password. The stored OTP is left as it is. */
  function ResetPassword(s: Db, ss: SessionState, newPassword: Option<string>, confirmPassword: Option<string>): Step {
    if NoText(newPassword) || NoText(confirmPassword) || newPassword.value != confirmPassword.value then
      Step(Reply(BadRequest, PasswordsMismatch), s, ss)
    else if PasswordProblem(newPassword.value).Some? then
      Step(Reply(BadRequest, PasswordProblem(newPassword.value).value), s, ss)
    else if NoFlag(ss.otpVerified) then Step(Reply(Forbidden, OtpNotVerified), s, ss)
    else
      var uid := ss.otpVerified.value;
      if uid !in s.users then Step(Reply(NotFound, UserNotFound), s, ss)
      else if Check(s.users[uid].password, newPassword.value) then Step(Reply(BadRequest, SamePassword), s, ss)
      else Step(Reply(Ok, PasswordReset),
                s.(users := s.users[uid := s.users[uid].(password := Hash(newPassword.value))]),
                ss.(otpVerified := None))
  }

  /** google_login: the "not configured" error, or a redirect to Google. */
  function GoogleLogin(configured: bool): (r: Reply)
    ensures r.status == ServerError <==> !configured
  {
    if configured then Reply(Found, GoogleRedirect) else Reply(ServerError, GoogleNotConfigured)
  }

  /** The userinfo fields the callback reads; missing names arrive as ''. */
  datatype GoogleProfile = GoogleProfile(emailVerified: bool, sub: Option<string>, email: Option<string>,
                                         givenName: string, familyName: string)

  /** `f"{given_name} {family_name}"`. */
  function GoogleName(p: GoogleProfile): string {
    p.givenName + " " + p.familyName
  }

  /**
   * handle_google_callback once the profile is in hand, with google_callback's
   * reply. A missing email cannot be stored (the column is NOT NULL) and a
   * missing `sub` cannot be hashed: both end in an unhandled error, 500, with
   * nothing stored.
   */
  function GoogleCallback(s: Db, ss: SessionState, configured: bool, p: GoogleProfile): Step {
    if !configured then Step(Reply(ServerError, GoogleNotConfigured), s, ss)
    else if !p.emailVerified then Step(Reply(ServerError, GoogleEmailNotVerified), s, ss)
    else if p.email.None? then Step(Reply(ServerError, InternalError), s, ss)
    else
      var found := FindUserByEmail(s, p.email.value);
      if found.Some? then Step(Reply(Found, GoogleRedirect), s, ss.(principal := found))
      else if p.sub.None? then Step(Reply(ServerError, InternalError), s, ss)
      else Step(Reply(Found, GoogleRedirect),
                InsertUser(s, NewUser(GoogleName(p), p.email.value, p.sub.value)),
                ss.(principal := Some(NewUserId(s))))
  }

  /** One entry of the `admins` list in the admin file. */
  datatype AdminEntry = AdminEntry(name: string, email: string, password: string, isAdmin: bool)

  function UserNamed(name: string): User -> bool {
    (u: User) => u.name == name
  }

  /**
   * The loop of create_admin_users: an entry is added unless some user,
   * stored or added by an earlier entry, already has its name.
   */
  function AddAdmins(users: map<int, User>, next: int, entries: seq<AdminEntry>): (map<int, User>, int)
    decreases |entries|
  {
    if entries == [] then (users, next)
    else
      var e := entries[0];
      if FirstKey(users, UserNamed(e.name), 0, next).Some? then AddAdmins(users, next, entries[1..])
      else
        var id := NextRowid(users, next);
        AddAdmins(users[id := User(e.name, e.email, Hash(e.password), e.isAdmin, None, None)], id + 1, entries[1..])
  }

  /** Whether the application came up, and the store it came up with. */
  datatype Boot = Boot(started: bool, db: Db)

  /**
   * create_admin_users at startup. A missing or undecodable file is logged
   * and skipped. The additions are committed together; an email already
   * taken makes the flush fail with an IntegrityError that nothing catches,
   * so startup aborts with nothing stored.
   */
  function CreateAdminUsers(s: Db, file: Option<seq<AdminEntry>>): Boot {
    if file.None? then Boot(true, s)
    else
      var (users, next) := AddAdmins(s.users, s.usersBound, file.value);
      if EmailsUnique(users) then Boot(true, s.(users := users, usersBound := next))
      else Boot(false, s)
  }
}
