/**
 * The credential records and decisions that src/controllers/auth.controller.ts
 * and dist/controllers/auth.controller.js share: the pending-signup cache
 * entry, the signup-OTP check, the login check, and the password-reset cycle
 * (request, resend, verify, reset). Both controllers run the same checks in
 * the same order with the same replies; `AuthController.AuthStore` applies
 * them.
 */
module Credentials {
  import opened Common
  import opened UsersModel

  /** Ninety seconds, the lifetime of a password-reset OTP. */
  const ResetOtpLifetime: int := 90 * 1000

  /** `generateOtp` and the compiled signup's inline generator: a number from 1000 to 9999 as a string. */
  predicate IsOtp(s: string)
  {
    |s| == 4 && s[0] != '0' && forall k :: 0 <= k < 4 ==> '0' <= s[k] <= '9'
  }

  /**
   * A `userCache` entry: the signup data waiting for its OTP. `evictAt` is
   * when NodeCache's TTL removes the entry; it is absent from then on.
   */
  datatype Pending = Pending(email: string, name: string, password: string, otp: string,
                             otpExpiry: int, signupDate: int, evictAt: int)

  /** `userCache.get(email)` at time `now`: present until its TTL has run out. */
  function Cached(pending: map<string, Pending>, email: string, now: int): (r: Option<Pending>)
    ensures r.Some? <==> email in pending && now <= pending[email].evictAt
    ensures r.Some? ==> r.value == pending[email]
  {
    if email in pending && now <= pending[email].evictAt then Some(pending[email]) else None
  }

  /** The reply of `verifySignupOtp`: the code is compared before the expiry, and the expiry is strict. */
  function VerifySignupReply(users: seq<User>, pending: map<string, Pending>, email: string, otp: string, now: int)
    : (r: Reply)
    ensures email == "" || otp == "" ==> r == Reply(400, "Email and OTP are required")
    ensures email != "" && otp != "" && Cached(pending, email, now).None? ==>
      r == Reply(404, "OTP expired or invalid request")
    ensures email != "" && otp != "" && Cached(pending, email, now).Some? && pending[email].otp != otp ==>
      r == Reply(400, "Incorrect OTP")
    ensures r.status == 200 <==>
      email != "" && otp != "" && Cached(pending, email, now).Some? && pending[email].otp == otp &&
      now <= pending[email].otpExpiry && Find(users, ByEmail(pending[email].email)).None?
  {
    if email == "" || otp == "" then Reply(400, "Email and OTP are required")
    else
      match Cached(pending, email, now)
      case None => Reply(404, "OTP expired or invalid request")
      case Some(p) =>
        if p.otp != otp then Reply(400, "Incorrect OTP")
        else if now > p.otpExpiry then Reply(400, "OTP has expired")
        // `save()` of a second document with the same email breaks the unique index
        else if Find(users, ByEmail(p.email)).Some? then Reply(500, "Internal server error")
        else Reply(200, "OTP verified successfully. You can now sign in.")
  }

  /** The user `verifySignupOtp` saves, made over a new document `blank` of the schema in force. */
  function FromPending(blank: User, p: Pending, now: int): (u: User)
    ensures u.email == p.email && u.name == p.name && u.password == p.password
    ensures u.isVerified && u.userType == "" && u.signupDate == Some(now)
    ensures u.(email := blank.email, name := blank.name, password := blank.password,
               userType := blank.userType, isVerified := blank.isVerified, signupDate := blank.signupDate) == blank
  {
    blank.(email := p.email, name := p.name, password := p.password, userType := "",
           isVerified := true, signupDate := Some(now))
  }

  /** The reply of `login`; a document without a password never matches. */
  function LoginReply(users: seq<User>, email: string, password: string): (r: Reply)
    ensures email == "" || password == "" ==> r == Reply(400, "Email and password are required")
    ensures email != "" && password != "" && Find(users, ByEmail(email)).None? ==> r == Reply(404, "User not found")
    ensures r.status == 200 <==>
      email != "" && password != "" && Find(users, ByEmail(email)).Some? &&
      users[Find(users, ByEmail(email)).value].password == Hash(password)
    ensures r.status == 401 <==>
      email != "" && password != "" && Find(users, ByEmail(email)).Some? &&
      users[Find(users, ByEmail(email)).value].password != Hash(password)
  {
    if email == "" || password == "" then Reply(400, "Email and password are required")
    else
      match Find(users, ByEmail(email))
      case None => Reply(404, "User not found")
      case Some(i) =>
        if !Compare(password, users[i].password) then Reply(401, "Incorrect password")
        else Reply(200, "Login successful")
  }

  /** The reply of `requestPasswordResetOtp`. */
  function RequestOtpReply(users: seq<User>, email: string): (r: Reply)
    ensures email == "" ==> r == Reply(400, "Email is required")
    ensures r.status == 200 <==> email != "" && Find(users, ByEmail(email)).Some?
    ensures email != "" && Find(users, ByEmail(email)).None? ==> r == Reply(404, "User not found")
  {
    if email == "" then Reply(400, "Email is required")
    else if Find(users, ByEmail(email)).None? then Reply(404, "User not found")
    else Reply(200, "OTP sent to email")
  }

  /** The record `requestPasswordResetOtp` saves: a new code valid for ninety seconds, `is_verified` untouched. */
  function WithResetOtp(u: User, otp: string, now: int): (v: User)
    ensures v.otp == Some(otp) && v.otpExpiry == Some(now + 90000)
    ensures v.(otp := u.otp, otpExpiry := u.otpExpiry) == u
  {
    u.(otp := Some(otp), otpExpiry := Some(now + ResetOtpLifetime))
  }

  /** Resend may issue a new code: the current one, if any, is no longer live. */
  predicate ResendAllowed(u: User, now: int)
  {
    u.otpExpiry.None? || u.otpExpiry.value <= now
  }

  /** Verification accepts `otp`: it is the stored code and the strict expiry has not passed. */
  predicate ResetOtpAccepted(u: User, otp: string, now: int)
  {
    u.otp == Some(otp) && (u.otpExpiry.None? || now <= u.otpExpiry.value)
  }

  /** The reply of `resendPasswordResetOtp`: refused while the current code is still live. */
  function ResendReply(users: seq<User>, email: string, now: int): (r: Reply)
    ensures email == "" ==> r == Reply(400, "Email is required")
    ensures email != "" && Find(users, ByEmail(email)).None? ==> r == Reply(400, "User not found")
    ensures r.status == 200 <==>
      email != "" && Find(users, ByEmail(email)).Some? && ResendAllowed(users[Find(users, ByEmail(email)).value], now)
  {
    if email == "" then Reply(400, "Email is required")
    else
      match Find(users, ByEmail(email))
      case None => Reply(400, "User not found")
      case Some(i) =>
        if users[i].otpExpiry.Some? && now < users[i].otpExpiry.value then Reply(400, "OTP is still valid")
        else Reply(200, "OTP resent to email")
  }

  /** The record `resendPasswordResetOtp` saves: a new code and the verification withdrawn. */
  function Resent(u: User, otp: string, now: int): (v: User)
    ensures v.otp == Some(otp) && v.otpExpiry == Some(now + 90000) && !v.isVerified
    ensures v.(otp := u.otp, otpExpiry := u.otpExpiry, isVerified := u.isVerified) == u
  {
    WithResetOtp(u, otp, now).(isVerified := false)
  }

  /** The reply of `verifyPasswordResetOtp`: code first, then the strict expiry. */
  function VerifyResetReply(users: seq<User>, email: string, otp: string, now: int): (r: Reply)
    ensures email == "" || otp == "" ==> r == Reply(400, "Email and otp are required")
    ensures email != "" && otp != "" && Find(users, ByEmail(email)).None? ==> r == Reply(400, "User not found")
    ensures (email != "" && otp != "" && Find(users, ByEmail(email)).Some? &&
             users[Find(users, ByEmail(email)).value].otp != Some(otp)) ==> r == Reply(400, "Incorrect OTP")
    ensures r.status == 200 <==>
      email != "" && otp != "" && Find(users, ByEmail(email)).Some? &&
      ResetOtpAccepted(users[Find(users, ByEmail(email)).value], otp, now)
  {
    if email == "" || otp == "" then Reply(400, "Email and otp are required")
    else
      match Find(users, ByEmail(email))
      case None => Reply(400, "User not found")
      case Some(i) =>
        if users[i].otp != Some(otp) then Reply(400, "Incorrect OTP")
        else if users[i].otpExpiry.Some? && now > users[i].otpExpiry.value then Reply(400, "OTP has expired")
        else Reply(200, "OTP verified successfully")
  }

  /** The reply of `resetPassword`: the only guard is `is_verified`. */
  function ResetReply(users: seq<User>, email: string, newPassword: string): (r: Reply)
    ensures email == "" || newPassword == "" ==> r == Reply(400, "Email and new password are required")
    ensures r.status == 200 <==>
      email != "" && newPassword != "" && Find(users, ByEmail(email)).Some? &&
      users[Find(users, ByEmail(email)).value].isVerified
    ensures email != "" && newPassword != "" && Find(users, ByEmail(email)).None? ==> r == Reply(404, "User not found")
  {
    if email == "" || newPassword == "" then Reply(400, "Email and new password are required")
    else
      match Find(users, ByEmail(email))
      case None => Reply(404, "User not found")
      case Some(i) =>
        if !users[i].isVerified then Reply(400, "Otp not verified")
        else Reply(200, "Password reset successfully")
  }

  /** The record `resetPassword` saves: the new hash, and the whole OTP state cleared together. */
  function AfterReset(u: User, newPassword: string): (v: User)
    ensures v.otp == None && v.otpExpiry == None && !v.isVerified
    ensures Compare(newPassword, v.password)
    ensures v.(password := u.password, otp := u.otp, otpExpiry := u.otpExpiry, isVerified := u.isVerified) == u
  {
    u.(password := Hash(newPassword), otp := None, otpExpiry := None, isVerified := false)
  }

  /** A reset spends the verification: a second reset with no new OTP is refused. */
  lemma ResetIsSingleUse(users: seq<User>, email: string, p1: string, p2: string)
    requires ResetReply(users, email, p1).status == 200
    ensures var i := Find(users, ByEmail(email)).value;
      ResetReply(users[i := AfterReset(users[i], p1)], email, p2).status != 200
  {
    var i := Find(users, ByEmail(email)).value;
    var after := users[i := AfterReset(users[i], p1)];
    FindAfterUpdate(users, i, AfterReset(users[i], p1), email);
  }

  /** Replacing a document without changing its email leaves every email lookup where it was. */
  lemma {:induction false} FindAfterUpdate(users: seq<User>, i: nat, u: User, email: string)
    requires i < |users| && u.email == users[i].email
    ensures Find(users[i := u], ByEmail(email)) == Find(users, ByEmail(email))
  {
    if i > 0 {
      assert users[i := u][1..] == users[1..][i - 1 := u];
      FindAfterUpdate(users[1..], i - 1, u, email);
    }
  }

  /**
   * After a code is sent at `sentAt` (by request or by resend), resend is
   * refused and verification of that code accepted for ninety seconds. At
   * `sentAt + 90000` both are accepted, since resend refuses only while
   * `now < expiry` and verification rejects only once `now > expiry`.
   */
  lemma ResendAndVerifyWindows(users: seq<User>, email: string, otp: string, sentAt: int, now: int, resent: bool)
    requires email != "" && otp != "" && Find(users, ByEmail(email)).Some?
    ensures var i := Find(users, ByEmail(email)).value;
      var after := users[i := if resent then Resent(users[i], otp, sentAt) else WithResetOtp(users[i], otp, sentAt)];
      (now < sentAt + ResetOtpLifetime ==>
         ResendReply(after, email, now).status != 200 && VerifyResetReply(after, email, otp, now).status == 200) &&
      (now == sentAt + ResetOtpLifetime ==>
         ResendReply(after, email, now).status == 200 && VerifyResetReply(after, email, otp, now).status == 200) &&
      (now > sentAt + ResetOtpLifetime ==> VerifyResetReply(after, email, otp, now) == Reply(400, "OTP has expired"))
  {
    var i := Find(users, ByEmail(email)).value;
    var u := if resent then Resent(users[i], otp, sentAt) else WithResetOtp(users[i], otp, sentAt);
    FindAfterUpdate(users, i, u, email);
  }

  /** A resend right after a successful verification withdraws it: reset is refused until the new code is verified. */
  lemma ResendWithdrawsVerification(users: seq<User>, email: string, otp: string, now: int, newPassword: string)
    requires Find(users, ByEmail(email)).Some?
    ensures var i := Find(users, ByEmail(email)).value;
      ResetReply(users[i := Resent(users[i], otp, now)], email, newPassword).status != 200
  {
    var i := Find(users, ByEmail(email)).value;
    FindAfterUpdate(users, i, Resent(users[i], otp, now), email);
  }

  /** The guard as written: the flag alone. */
  predicate ResetAllowedAsWritten(u: User)
  {
    u.isVerified
  }

  /**
   * The reset cycle of one account as evidently intended: the record plus a
   * flag that only a successful `verifyPasswordResetOtp` sets. It is kept
   * apart from `is_verified`, which signup verification also sets.
   */
  datatype ResetCycle = ResetCycle(user: User, resetVerified: bool)

  /** One request of the reset cycle against the account. */
  datatype ResetStep =
    | Request(otp: string, at: int)
    | Resend(otp: string, at: int)
    | Verify(code: string, at: int)
    | Reset(newPassword: string)

  /**
   * The corrected effect of one request. Each handler keeps its checks and
   * the record it saves; in addition, every new code withdraws the reset
   * verification, only an accepted code grants it, and a reset spends it.
   */
  function Step(c: ResetCycle, s: ResetStep): (d: ResetCycle)
    ensures s.Request? ==> d.user == WithResetOtp(c.user, s.otp, s.at) && !d.resetVerified
    ensures d.resetVerified ==>
      (s.Verify? && s.code != "" && ResetOtpAccepted(c.user, s.code, s.at)) || (c.resetVerified && !s.Request?)
    ensures s.Reset? && s.newPassword != "" && c.resetVerified ==>
      d.user == AfterReset(c.user, s.newPassword) && !d.resetVerified
  {
    match s
    case Request(otp, at) => ResetCycle(WithResetOtp(c.user, otp, at), false)
    case Resend(otp, at) =>
      if ResendAllowed(c.user, at) then ResetCycle(Resent(c.user, otp, at), false) else c
    case Verify(code, at) =>
      if code != "" && ResetOtpAccepted(c.user, code, at) then ResetCycle(c.user.(isVerified := true), true) else c
    case Reset(newPassword) =>
      if newPassword != "" && c.resetVerified then ResetCycle(AfterReset(c.user, newPassword), false) else c
  }

  /** The requests of `steps`, one after another. */
  function Run(c: ResetCycle, steps: seq<ResetStep>): ResetCycle
  {
    if |steps| == 0 then c else Step(Run(c, steps[..|steps| - 1]), steps[|steps| - 1])
  }

  /**
   * In the corrected cycle an account that starts without a reset
   * verification can be reset only after some request presented the code
   * stored at that moment within its expiry. Knowing the email is not enough.
   */
  lemma {:induction false} CorrectedResetNeedsVerifiedCode(c: ResetCycle, steps: seq<ResetStep>)
    requires !c.resetVerified
    ensures Run(c, steps).resetVerified ==>
      exists k :: 0 <= k < |steps| && steps[k].Verify? &&
        ResetOtpAccepted(Run(c, steps[..k]).user, steps[k].code, steps[k].at)
  {
    if |steps| > 0 && Run(c, steps).resetVerified {
      var n := |steps| - 1;
      var prev := Run(c, steps[..n]);
      if steps[n].Verify? && steps[n].code != "" && ResetOtpAccepted(prev.user, steps[n].code, steps[n].at) {
        assert 0 <= n < |steps| && steps[n].Verify? && ResetOtpAccepted(Run(c, steps[..n]).user, steps[n].code, steps[n].at);
      } else {
        assert prev.resetVerified;
        CorrectedResetNeedsVerifiedCode(c, steps[..n]);
        var k :| 0 <= k < n && steps[..n][k].Verify? &&
          ResetOtpAccepted(Run(c, steps[..n][..k]).user, steps[..n][k].code, steps[..n][k].at);
        assert steps[..n][..k] == steps[..k];
        assert 0 <= k < |steps| && steps[k].Verify? && ResetOtpAccepted(Run(c, steps[..k]).user, steps[k].code, steps[k].at);
      }
    }
  }

  /**
   * In the corrected cycle an account fresh from signup verification is not
   * open to reset, nor after a reset code is requested for it; once that
   * code is verified within its ninety seconds, the reset goes through and
   * stores the new password.
   */
  lemma CorrectedCycleAfterSignup(blank: User, p: Pending, now: int, otp: string, sentAt: int, at: int, newPassword: string)
    requires otp != "" && newPassword != "" && at <= sentAt + ResetOtpLifetime
    ensures var c := ResetCycle(FromPending(blank, p, now), false);
      ResetAllowedAsWritten(c.user) && !c.resetVerified &&
      !Run(c, [Request(otp, sentAt)]).resetVerified &&
      Run(c, [Request(otp, sentAt), Verify(otp, at)]).resetVerified &&
      Compare(newPassword, Run(c, [Request(otp, sentAt), Verify(otp, at), Reset(newPassword)]).user.password)
  {
    var c := ResetCycle(FromPending(blank, p, now), false);
    assert [Request(otp, sentAt), Verify(otp, at)][..1] == [Request(otp, sentAt)];
    assert [Request(otp, sentAt), Verify(otp, at), Reset(newPassword)][..2] == [Request(otp, sentAt), Verify(otp, at)];
  }
}
