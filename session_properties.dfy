/**
 * Properties that span both blueprints: the session a client carries from
 * one request to the next, and the rowids SQLite hands out again after
 * delete_account.
 */
module SessionProperties {
  import opened Wrappers
  import opened Http
  import opened Passwords
  import opened Query
  import opened Models
  import opened Validators
  import opened Ledger
  import opened LedgerInvariant
  import opened Accounts
  import opened AccountProperties

  /**
   * delete_account logs the client out but leaves the session's OTP flag.
   * If the deleted user held the largest id, the next signup reuses that
   * id, and a reset_password from the old session then rewrites the new
   * user's password.
   */
  lemma StaleFlagReachesReusedId(s: Db, ss: SessionState, k: int, email: string, name: string,
                                 password: string, newPassword: string)
    requires Valid(s) && k in s.users && (k == 1 || k - 1 in s.users)
    requires forall j :: j in s.users ==> j <= k
    requires ss.otpVerified == Some(k)
    requires email != "" && name != "" && EmailPattern(email)
    requires forall j :: j in s.users && j != k ==> s.users[j].email != email
    requires PasswordRegexAsWritten(password) && PasswordRegexAsWritten(newPassword) && password != newPassword
    ensures var d := Ledger.DeleteAccount(s, k).db;
      var c := Signup(d, ss.(principal := None), Some(email), Some(name), Some(password));
      var r := ResetPassword(c.db, c.session, Some(newPassword), Some(newPassword));
      && c.reply.status == Created && k in c.db.users && c.db.users[k].email == email
      && r.reply.status == Ok && r.db.users[k].password == Hash(newPassword)
  {
    var d := Ledger.DeleteAccount(s, k).db;
    DeleteAccountKeepsValid(s, k);
    assert d.users == s.users - {k};
    NextRowidReusesTop(d.users, d.usersBound, k);
    assert NewUserId(d) == k;
    var ss' := ss.(principal := None);
    SignupOutcome(d, ss', Some(email), Some(name), Some(password));
    var c := Signup(d, ss', Some(email), Some(name), Some(password));
    assert c.db.users[k].password == Hash(password);
    ResetPasswordOutcome(c.db, c.session, Some(newPassword), Some(newPassword));
  }
}
