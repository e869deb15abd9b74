/**
 * Every account transition of module Accounts keeps the store invariant
 * `Models.Valid`: emails stay unique, OTP hashes keep their timestamps,
 * and the rows that point at users still find them.
 */
module AccountInvariant {
  import opened Wrappers
  import opened Http
  import opened Passwords
  import opened Query
  import opened Models
  import opened Otp
  import opened Accounts

  /** When `.first()` finds no user with `email`, no stored user has it. */
  lemma NoUserWithEmail(s: Db, email: string)
    requires IdsBelow(s.users, s.usersBound)
    requires FindUserByEmail(s, email).None?
    ensures forall k :: k in s.users ==> s.users[k].email != email
  {
    forall k | k in s.users ensures s.users[k].email != email {
      assert 0 <= k < s.usersBound;
      assert !UserWithEmail(email)(s.users[k]);
    }
  }

  /**
   * Replacing the user table by one that keeps every stored id, satisfies
   * the user constraints and lies below its new scan bound keeps the invariant.
   */
  lemma UsersReplacedKeepsValid(s: Db, users: map<int, User>, next: int)
    requires Valid(s)
    requires forall k :: k in s.users ==> k in users
    requires UsersValid(users) && 1 <= next && IdsBelow(users, next)
    ensures Valid(s.(users := users, usersBound := next))
  {
    var s' := s.(users := users, usersBound := next);
    forall k | k in s.incomes ensures IncomeConsistent(users, s.categories, s.incomes[k]) {
      assert IncomeConsistent(s.users, s.categories, s.incomes[k]);
    }
    forall k | k in s.expenses ensures ExpenseConsistent(users, s.categories, s.expenses[k]) {
      assert ExpenseConsistent(s.users, s.categories, s.expenses[k]);
    }
  }

  /** Storing a user whose email is not taken keeps the invariant. */
  lemma InsertUserKeepsValid(s: Db, u: User)
    requires Valid(s) && OtpConsistent(u)
    requires forall k :: k in s.users ==> s.users[k].email != u.email
    ensures Valid(InsertUser(s, u))
  {
    var id := NewUserId(s);
    var users := s.users[id := u];
    assert id !in s.users;
    assert EmailsUnique(users);
    UsersReplacedKeepsValid(s, users, id + 1);
  }

  /** Rewriting a stored user without changing its email keeps the invariant. */
  lemma UpdateUserKeepsValid(s: Db, uid: int, u: User)
    requires Valid(s) && uid in s.users && OtpConsistent(u) && u.email == s.users[uid].email
    ensures Valid(s.(users := s.users[uid := u]))
  {
    var users := s.users[uid := u];
    assert EmailsUnique(users);
    UsersReplacedKeepsValid(s, users, s.usersBound);
  }

  lemma SignupKeepsValid(s: Db, ss: SessionState, email: Option<string>, name: Option<string>, password: Option<string>)
    requires Valid(s)
    ensures Valid(Signup(s, ss, email, name, password).db)
  {
    if Signup(s, ss, email, name, password).reply.status == 201 {
      NoUserWithEmail(s, email.value);
      InsertUserKeepsValid(s, NewUser(name.value, email.value, password.value));
    }
  }

  lemma ForgotPasswordKeepsValid(s: Db, ss: SessionState, email: Option<string>, otp: int, now: int, flagOnSend: bool)
    requires Valid(s)
    ensures Valid(ForgotPasswordWith(s, ss, email, otp, now, flagOnSend).db)
  {
    if !NoText(email) && FindUserByEmail(s, email.value).Some? {
      var uid := FindUserByEmail(s, email.value).value;
      UpdateUserKeepsValid(s, uid, SaveOtp(s.users[uid], otp, now));
    }
  }

  lemma ResetPasswordKeepsValid(s: Db, ss: SessionState, newPassword: Option<string>, confirmPassword: Option<string>)
    requires Valid(s)
    ensures Valid(ResetPassword(s, ss, newPassword, confirmPassword).db)
  {
    var r := ResetPassword(s, ss, newPassword, confirmPassword);
    if r.reply.status == 200 {
      var uid := ss.otpVerified.value;
      UpdateUserKeepsValid(s, uid, s.users[uid].(password := Hash(newPassword.value)));
    }
  }

  lemma GoogleCallbackKeepsValid(s: Db, ss: SessionState, configured: bool, p: GoogleProfile)
    requires Valid(s)
    ensures Valid(GoogleCallback(s, ss, configured, p).db)
  {
    if configured && p.emailVerified && p.email.Some? && FindUserByEmail(s, p.email.value).None? && p.sub.Some? {
      NoUserWithEmail(s, p.email.value);
      InsertUserKeepsValid(s, NewUser(GoogleName(p), p.email.value, p.sub.value));
    }
  }

  /** The admin loop keeps every stored user, adds only rows without an OTP, and keeps ids below its scan bound. */
  lemma {:induction false} AddAdminsGrows(users: map<int, User>, next: int, entries: seq<AdminEntry>)
    requires 1 <= next && IdsBelow(users, next)
    ensures var (users', next') := AddAdmins(users, next, entries);
      && 1 <= next' && IdsBelow(users', next')
      && (forall k :: k in users ==> k in users' && users'[k] == users[k])
      && (forall k :: k in users' && k !in users ==> OtpConsistent(users'[k]))
    decreases |entries|
  {
    if entries != [] {
      var e := entries[0];
      if FirstKey(users, UserNamed(e.name), 0, next).Some? {
        AddAdminsGrows(users, next, entries[1..]);
      } else {
        var id := NextRowid(users, next);
        AddAdminsGrows(users[id := User(e.name, e.email, Hash(e.password), e.isAdmin, None, None)], id + 1, entries[1..]);
      }
    }
  }

  lemma CreateAdminUsersKeepsValid(s: Db, file: Option<seq<AdminEntry>>)
    requires Valid(s)
    ensures Valid(CreateAdminUsers(s, file).db)
  {
    if file.Some? {
      var (users, next) := AddAdmins(s.users, s.usersBound, file.value);
      AddAdminsGrows(s.users, s.usersBound, file.value);
      if EmailsUnique(users) {
        forall k | k in users ensures OtpConsistent(users[k]) {
          if k in s.users {
            assert OtpConsistent(s.users[k]);
          }
        }
        UsersReplacedKeepsValid(s, users, next);
      }
    }
  }
}
