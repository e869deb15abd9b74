/**
 * The one-time password helpers of authentication/views.py: the 6-digit
 * range of generate_otp, save_otp's overwrite of the stored hash and its
 * timestamp, and verify_otp's inclusive ten-minute window.
 */
module Otp {
  import opened Wrappers
  import opened Passwords
  import opened Models

  /** `random.randint(100000, 999999)` draws from this closed range. */
  const OtpLow := 100000
  const OtpHigh := 999999

  /** `timedelta(minutes=10)` in microseconds, the unit of the clock. */
  const OtpWindow := 600_000_000

  function Digit(n: int): (c: char)
    requires 0 <= n < 10
    ensures '0' <= c <= '9' && c as int - '0' as int == n
  {
    (n + '0' as int) as char
  }

  /** The decimal digits of `n`, most significant first, without leading zeros. */
  function NatToString(n: nat): (r: string)
    ensures 1 <= |r|
    ensures forall i :: 0 <= i < |r| ==> '0' <= r[i] <= '9'
    ensures (|r| == 1) == (n < 10)
  {
    if n < 10 then [Digit(n)] else NatToString(n / 10) + [Digit(n % 10)]
  }

  /** `str(n)` for an int. */
  function Str(n: int): (r: string)
    ensures 1 <= |r|
    ensures (r[0] == '-') == (n < 0)
  {
    if n < 0 then "-" + NatToString(-n) else NatToString(n)
  }

  /** Different numbers have different decimal text. */
  lemma {:induction false} NatToStringInjective(a: nat, b: nat)
    requires NatToString(a) == NatToString(b)
    ensures a == b
  {
    if 10 <= a && 10 <= b {
      var ra, rb := NatToString(a), NatToString(b);
      assert NatToString(a / 10) == ra[..|ra| - 1] && NatToString(b / 10) == rb[..|rb| - 1];
      NatToStringInjective(a / 10, b / 10);
      assert Digit(a % 10) == ra[|ra| - 1] == rb[|rb| - 1] == Digit(b % 10);
    }
  }

  lemma StrInjective(a: int, b: int)
    requires Str(a) == Str(b)
    ensures a == b
  {
    if a < 0 {
      assert NatToString(-a) == Str(a)[1..] == Str(b)[1..] == NatToString(-b);
      NatToStringInjective(-a, -b);
    } else {
      NatToStringInjective(a, b);
    }
  }

  /** Every code generate_otp can draw is written with exactly six digits. */
  lemma OtpHasSixDigits(n: int)
    requires OtpLow <= n <= OtpHigh
    ensures |Str(n)| == 6
  {
    var n1 := n / 10;
    var n2 := n1 / 10;
    var n3 := n2 / 10;
    var n4 := n3 / 10;
    var n5 := n4 / 10;
    assert 1 <= n5 < 10;
    assert |NatToString(n4)| == 2;
    assert |NatToString(n3)| == 3;
    assert |NatToString(n2)| == 4;
    assert |NatToString(n1)| == 5;
  }

  /** generate_otp: some integer of the range; which one is the random source's choice. */
  method GenerateOtp() returns (otp: int)
    ensures OtpLow <= otp <= OtpHigh
  {
    assert OtpLow <= OtpLow <= OtpHigh;
    otp :| OtpLow <= otp <= OtpHigh;
  }

  /** save_otp: the hash of `str(otp)` and the time `now` replace whatever OTP was stored. */
  function SaveOtp(u: User, otp: int, now: int): (r: User)
    ensures r.name == u.name && r.email == u.email && r.password == u.password && r.isAdmin == u.isAdmin
    ensures OtpConsistent(r)
  {
    u.(otp := Some(Hash(Str(otp))), otpCreatedAt := Some(now))
  }

  /**
   * verify_otp: an OTP is stored, it checks against `code`, and it is at
   * most ten minutes old at `now`. The user is only read.
   */
  predicate VerifyOtp(u: User, code: string, now: int)
    requires OtpConsistent(u)
  {
    u.otp.Some? && Check(u.otp.value, code) && now - u.otpCreatedAt.value <= OtpWindow
  }

  /**
   * After save_otp, a code verifies exactly when it is the text of the saved
   * number and at most ten minutes have passed, whatever was stored before.
   */
  lemma SavedOtpVerifies(u: User, otp: int, saved: int, code: string, now: int)
    ensures VerifyOtp(SaveOtp(u, otp, saved), code, now) <==> code == Str(otp) && now - saved <= OtpWindow
  {
    CheckHash(Str(otp), code);
  }

  /** The window is closed: ten minutes to the microsecond still verifies, one microsecond more does not. */
  lemma OtpWindowInclusive(u: User, otp: int, saved: int)
    ensures VerifyOtp(SaveOtp(u, otp, saved), Str(otp), saved + OtpWindow)
    ensures !VerifyOtp(SaveOtp(u, otp, saved), Str(otp), saved + OtpWindow + 1)
  {
    SavedOtpVerifies(u, otp, saved, Str(otp), saved + OtpWindow);
    SavedOtpVerifies(u, otp, saved, Str(otp), saved + OtpWindow + 1);
  }

  /** A second save_otp with a different code makes the first code fail, even inside its window. */
  lemma ReissueInvalidates(u: User, first: int, t1: int, second: int, t2: int, now: int)
    requires first != second
    ensures !VerifyOtp(SaveOtp(SaveOtp(u, first, t1), second, t2), Str(first), now)
  {
    SavedOtpVerifies(SaveOtp(u, first, t1), second, t2, Str(first), now);
    if Str(first) == Str(second) {
      StrInjective(first, second);
    }
  }

  /** Verification reads the user without changing it, so the code verifies at every instant of the window. */
  lemma OtpVerifiesThroughoutWindow(u: User, otp: int, saved: int, now: int)
    requires saved <= now <= saved + OtpWindow
    ensures VerifyOtp(SaveOtp(u, otp, saved), Str(otp), now)
  {
    SavedOtpVerifies(u, otp, saved, Str(otp), now);
  }

  /** The `otp` request field: absent, a JSON number, or a JSON string. */
  datatype OtpArg = NoOtp | OtpNumber(n: int) | OtpText(t: string)

  /** `not otp`: absent, zero or the empty string. */
  predicate NoOtpGiven(arg: OtpArg) {
    arg.NoOtp? || arg == OtpNumber(0) || arg == OtpText("")
  }

  /** `str(otp)` as verify_otp compares it. */
  function OtpCode(arg: OtpArg): string {
    match arg
    case NoOtp => "None"
    case OtpNumber(n) => Str(n)
    case OtpText(t) => t
  }
}
