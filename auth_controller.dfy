/**
 * The account-credential handlers of src/controllers/auth.controller.ts and of
 * its compiled copy dist/controllers/auth.controller.js, over one store: the
 * users, the next document id, and the `userCache` of pending signups.
 *
 * The two copies differ in signup (the TypeScript one creates the user at
 * once, the compiled one caches a pending entry behind an OTP) and in login
 * (the TypeScript one issues an access and a refresh token, the compiled one
 * only an access token). The compiled copy adds the two-factor handlers and a
 * change-password handler. `compiled` records which copy's schema is in
 * force for the documents the handlers create.
 */
module AuthController {
  import opened Common
  import opened UsersModel
  import opened Credentials
  import Jwt
  import Session

  /** Sixty seconds: the compiled signup's OTP lifetime and its cache TTL. */
  const SignupOtpLifetime: int := 60 * 1000

  /** The reply of the TypeScript `userSignup`. */
  function SignupReply(users: seq<User>, email: string, name: string, phone: string, password: string): (r: Reply)
    ensures email == "" || name == "" || phone == "" || password == "" ==> r == Reply(400, "Missing required fields")
    ensures r.status == 201 <==>
      email != "" && name != "" && phone != "" && password != "" && Find(users, ByEmail(email)).None?
    ensures r.status == 409 <==>
      email != "" && name != "" && phone != "" && password != "" && Find(users, ByEmail(email)).Some?
  {
    if email == "" || password == "" || name == "" || phone == "" then Reply(400, "Missing required fields")
    else if Find(users, ByEmail(email)).Some? then Reply(409, "User with this email already exists")
    else Reply(201, "User registered successfully")
  }

  /** The document the TypeScript `userSignup` saves: unverified, holding the hash of the password. */
  function Registered(id: nat, email: string, name: string, phone: string, password: string, now: int): (u: User)
    ensures u.id == id && u.email == email && u.name == name && u.phone == phone
    ensures Compare(password, u.password) && !u.isVerified && u.signupDate == Some(now)
  {
    NewUser(id, email, now).(name := name, phone := phone, password := Hash(password), signupDate := Some(now))
  }

  /** The reply of the compiled `userSignup`: name and phone are not required. */
  function SignupCachedReply(users: seq<User>, email: string, password: string): (r: Reply)
    ensures email == "" || password == "" ==> r == Reply(400, "Missing required fields")
    ensures r.status == 201 <==> email != "" && password != "" && Find(users, ByEmail(email)).None?
    ensures r.status == 409 <==> email != "" && password != "" && Find(users, ByEmail(email)).Some?
  {
    if email == "" || password == "" then Reply(400, "Missing required fields")
    else if Find(users, ByEmail(email)).Some? then Reply(409, "User with this email already exists")
    else Reply(201, "OTP sent to your email. Please verify to complete registration.")
  }

  /** The cache entry the compiled `userSignup` stores. */
  function Signup(email: string, name: string, password: string, otp: string, now: int): (p: Pending)
    ensures p.email == email && Compare(password, p.password) && p.otp == otp
    ensures p.name == (if name != "" then name else "Tresoly User")
    ensures p.otpExpiry == now + 60000 && p.evictAt == p.otpExpiry && p.signupDate == now
  {
    Pending(email, OrElse(name, "Tresoly User"), Hash(password), otp,
            now + SignupOtpLifetime, now, now + SignupOtpLifetime)
  }

  /** Every cache entry is filed under its own email and leaves the cache when its OTP expires. */
  ghost predicate CacheInSync(pending: map<string, Pending>)
  {
    forall e :: e in pending ==> pending[e].email == e && pending[e].evictAt == pending[e].otpExpiry
  }

  /** The reply of `toggleTwoFactorAuth`. */
  function ToggleTwoFactorReply(who: Session.Identity, users: seq<User>): (r: Reply)
    ensures who == Session.NoToken ==> r == Reply(401, "Unauthorized, token not provided")
    ensures who == Session.BadToken ==> r == Session.InternalError
    ensures r.status == 200 <==> who.Caller? && Find(users, ById(who.id)).Some?
    ensures r.status == 200 ==>
      r.message == "Two-factor authentication " +
                   (if users[Find(users, ById(who.id)).value].isTwoFactor then "disabled" else "enabled") + " successfully"
  {
    match Session.Admit(who, Reply(401, "Unauthorized, token not provided"), Session.InternalError)
    case Denied(r) => r
    case Granted(id) =>
      match Find(users, ById(id))
      case None => Reply(401, "User not found")
      case Some(i) =>
        Reply(200, "Two-factor authentication " + (if !users[i].isTwoFactor then "enabled" else "disabled") + " successfully")
  }

  /** The reply of `verifyTwoFactorLogin`: code first, then the strict expiry. */
  function TwoFactorLoginReply(users: seq<User>, email: string, otp: string, now: int): (r: Reply)
    ensures email == "" || otp == "" ==> r == Reply(400, "Email and verification code are required")
    ensures r.status == 200 <==>
      email != "" && otp != "" && Find(users, ByEmail(email)).Some? &&
      var u := users[Find(users, ByEmail(email)).value];
      u.otp == Some(otp) && (u.otpExpiry.None? || now <= u.otpExpiry.value)
  {
    if email == "" || otp == "" then Reply(400, "Email and verification code are required")
    else
      match Find(users, ByEmail(email))
      case None => Reply(404, "User not found")
      case Some(i) =>
        if users[i].otp != Some(otp) then Reply(400, "Invalid verification code")
        else if users[i].otpExpiry.Some? && now > users[i].otpExpiry.value then Reply(400, "Verification code has expired")
        else Reply(200, "Login successful")
  }

  /** The record a successful two-factor login saves: the code spent, the login time recorded. */
  function TwoFactorDone(u: User, now: int): (v: User)
    ensures v.otp == None && v.otpExpiry == None && v.lastLogin == Some(now)
    ensures v.(otp := u.otp, otpExpiry := u.otpExpiry, lastLogin := u.lastLogin) == u
  {
    u.(otp := None, otpExpiry := None, lastLogin := Some(now))
  }

  /** The reply of the compiled `changePassword`. */
  function ChangePasswordReply(who: Session.Identity, users: seq<User>, oldPassword: string, newPassword: string)
    : (r: Reply)
    ensures oldPassword == "" || newPassword == "" ==> r == Reply(400, "Old password and new password are required")
    ensures r.status == 200 <==>
      oldPassword != "" && newPassword != "" && who.Caller? && Find(users, ById(who.id)).Some? &&
      Compare(oldPassword, users[Find(users, ById(who.id)).value].password)
  {
    if oldPassword == "" || newPassword == "" then Reply(400, "Old password and new password are required")
    else
      match Session.Admit(who, Reply(401, "No access token provided. Please log in."), Session.InternalError)
      case Denied(r) => r
      case Granted(id) =>
        match Find(users, ById(id))
        case None => Reply(404, "User not found")
        case Some(i) =>
          if !Compare(oldPassword, users[i].password) then Reply(401, "Incorrect old password")
          else Reply(200, "Password changed successfully")
  }

  ghost predicate StoreOk(users: seq<User>, nextId: nat)
  {
    EmailsUnique(users) && IdsBelow(users, nextId)
  }

  class AuthStore {
    var users: seq<User>
    var nextId: nat
    var pending: map<string, Pending>
    /** The compiled copy is the one running (its schema has no `role` or `account_status`). */
    const compiled: bool

    ghost predicate Valid()
      reads this
    {
      StoreOk(users, nextId)
    }

    /** A fresh `userCache` is empty. */
    constructor (users: seq<User>, nextId: nat, compiled: bool)
      requires StoreOk(users, nextId)
      ensures Valid() && this.users == users && this.nextId == nextId && this.compiled == compiled
      ensures pending == map[]
    {
      this.users := users;
      this.nextId := nextId;
      this.pending := map[];
      this.compiled := compiled;
    }

    /** A blank document of the schema in force. */
    function Blank(id: nat, email: string, now: int): (u: User)
      reads this
      ensures u.id == id && u.email == email && u.otp == None && !u.isVerified
    {
      if compiled then NewUserDist(id, email, now) else NewUser(id, email, now)
    }

    /** The TypeScript `userSignup`: create the user at once. */
    method UserSignup(email: string, name: string, phone: string, password: string, now: int) returns (reply: Reply)
      requires Valid()
      modifies this`users, this`nextId
      ensures Valid()
      ensures reply == SignupReply(old(users), email, name, phone, password)
      ensures reply.status == 201 ==>
        users == old(users) + [Registered(old(nextId), email, name, phone, password, now)] && nextId == old(nextId) + 1
      ensures reply.status != 201 ==> users == old(users) && nextId == old(nextId)
    {
      if email == "" || password == "" || name == "" || phone == "" {
        return Reply(400, "Missing required fields");
      }
      var existingUser := Find(users, ByEmail(email));
      if existingUser.Some? {
        return Reply(409, "User with this email already exists");
      }
      var hashedPassword := Hash(password);
      var newUser := NewUser(nextId, email, now);
      newUser := newUser.(name := name, phone := phone, password := hashedPassword, signupDate := Some(now));
      InsertFresh(users, newUser);
      users := users + [newUser];
      nextId := nextId + 1;
      reply := Reply(201, "User registered successfully");
    }

    /** The compiled `userSignup`: cache a pending entry behind a fresh OTP (an earlier entry for the email is replaced). */
    method UserSignupCached(email: string, name: string, password: string, otp: string, now: int) returns (reply: Reply)
      requires IsOtp(otp)
      modifies this`pending
      ensures reply == SignupCachedReply(users, email, password)
      ensures reply.status == 201 ==> pending == old(pending)[email := Signup(email, name, password, otp, now)]
      ensures reply.status != 201 ==> pending == old(pending)
      ensures CacheInSync(old(pending)) ==> CacheInSync(pending)
    {
      if email == "" || password == "" {
        return Reply(400, "Missing required fields");
      }
      var existingUser := Find(users, ByEmail(email));
      if existingUser.Some? {
        return Reply(409, "User with this email already exists");
      }
      var hashedPassword := Hash(password);
      var entry := Pending(email, if name != "" then name else "Tresoly User", hashedPassword, otp,
                           now + SignupOtpLifetime, now, now + SignupOtpLifetime);
      pending := pending[email := entry];
      reply := Reply(201, "OTP sent to your email. Please verify to complete registration.");
    }

    /** `verifySignupOtp` (the same in both copies): turn the pending entry into a verified user. */
    method VerifySignupOtp(email: string, otp: string, now: int) returns (reply: Reply)
      requires Valid()
      modifies this`users, this`nextId, this`pending
      ensures Valid()
      ensures reply == VerifySignupReply(old(users), old(pending), email, otp, now)
      ensures reply.status == 200 ==>
        var p := old(pending)[email];
        users == old(users) + [FromPending(Blank(old(nextId), p.email, now), p, now)] &&
        nextId == old(nextId) + 1 && pending == old(pending) - {email}
      ensures reply.status != 200 ==> users == old(users) && nextId == old(nextId) && pending == old(pending)
    {
      if email == "" || otp == "" {
        return Reply(400, "Email and OTP are required");
      }
      var cachedUser := Cached(pending, email, now);
      if cachedUser.None? {
        return Reply(404, "OTP expired or invalid request");
      }
      var p := cachedUser.value;
      if p.otp != otp {
        return Reply(400, "Incorrect OTP");
      }
      if now > p.otpExpiry {
        return Reply(400, "OTP has expired");
      }
      if Find(users, ByEmail(p.email)).Some? {
        return Session.InternalError;
      }
      var newUser := FromPending(Blank(nextId, p.email, now), p, now);
      InsertFresh(users, newUser);
      users := users + [newUser];
      nextId := nextId + 1;
      pending := pending - {email};
      reply := Reply(200, "OTP verified successfully. You can now sign in.");
    }

    /**
     * The TypeScript `login`: the lookup selects only `email` and `password`,
     * so the payload left after deleting the password is the id and email.
     */
    method Login(email: string, password: string, accessSecret: string, refreshSecret: string, now: nat)
      returns (reply: Reply, payload: Option<Jwt.Claims>, access: Option<Jwt.Token>, refresh: Option<Jwt.Token>)
      requires Valid()
      modifies this`users
      ensures Valid()
      ensures reply == LoginReply(old(users), email, password)
      ensures reply.status == 200 ==>
        var i := Find(old(users), ByEmail(email)).value;
        var u := old(users)[i];
        payload == Some(Jwt.Claims(u.id, u.email)) &&
        access == Some(Jwt.GenerateAccessToken(u, accessSecret, now)) &&
        refresh == Some(Jwt.GenerateRefreshToken(u, refreshSecret, now)) &&
        users == old(users)[i := u.(lastLogin := Some(now))]
      ensures reply.status != 200 ==> users == old(users) && payload.None? && access.None? && refresh.None?
    {
      payload, access, refresh := None, None, None;
      if email == "" || password == "" {
        return Reply(400, "Email and password are required"), payload, access, refresh;
      }
      var found := Find(users, ByEmail(email));
      if found.None? {
        return Reply(404, "User not found"), payload, access, refresh;
      }
      var i := found.value;
      var user := users[i];
      if !Compare(password, user.password) {
        return Reply(401, "Incorrect password"), payload, access, refresh;
      }
      payload := Some(Jwt.Claims(user.id, user.email));
      access := Some(Jwt.GenerateAccessToken(user, accessSecret, now));
      refresh := Some(Jwt.GenerateRefreshToken(user, refreshSecret, now));
      user := user.(lastLogin := Some(now));
      UpdateKeepsStore(users, nextId, i, user);
      users := users[i := user];
      reply := Reply(200, "Login successful");
    }

    /** The compiled `login`: the whole document without its password, and only an access token. */
    method LoginCompiled(email: string, password: string, accessSecret: string, now: nat)
      returns (reply: Reply, payload: Option<User>, access: Option<Jwt.Token>)
      requires Valid()
      modifies this`users
      ensures Valid()
      ensures reply == LoginReply(old(users), email, password)
      ensures reply.status == 200 ==>
        var i := Find(old(users), ByEmail(email)).value;
        var u := old(users)[i];
        payload == Some(WithoutPassword(u)) && access == Some(Jwt.GenerateAccessToken(u, accessSecret, now)) &&
        users == old(users)[i := u.(lastLogin := Some(now))]
      ensures reply.status != 200 ==> users == old(users) && payload.None? && access.None?
    {
      payload, access := None, None;
      if email == "" || password == "" {
        return Reply(400, "Email and password are required"), payload, access;
      }
      var found := Find(users, ByEmail(email));
      if found.None? {
        return Reply(404, "User not found"), payload, access;
      }
      var i := found.value;
      var user := users[i];
      if !Compare(password, user.password) {
        return Reply(401, "Incorrect password"), payload, access;
      }
      payload := Some(user.(password := ""));
      access := Some(Jwt.GenerateAccessToken(user, accessSecret, now));
      user := user.(lastLogin := Some(now));
      UpdateKeepsStore(users, nextId, i, user);
      users := users[i := user];
      reply := Reply(200, "Login successful");
    }

    /** `requestPasswordResetOtp`: a fresh code for ninety seconds (the mail is not modelled). */
    method RequestPasswordResetOtp(email: string, otp: string, now: int) returns (reply: Reply)
      requires Valid() && IsOtp(otp)
      modifies this`users
      ensures Valid()
      ensures reply == RequestOtpReply(old(users), email)
      ensures reply.status == 200 ==>
        var i := Find(old(users), ByEmail(email)).value;
        users == old(users)[i := WithResetOtp(old(users)[i], otp, now)]
      ensures reply.status != 200 ==> users == old(users)
    {
      if email == "" {
        return Reply(400, "Email is required");
      }
      var found := Find(users, ByEmail(email));
      if found.None? {
        return Reply(404, "User not found");
      }
      var i := found.value;
      var user := users[i];
      user := user.(otp := Some(otp));
      user := user.(otpExpiry := Some(now + ResetOtpLifetime));
      UpdateKeepsStore(users, nextId, i, user);
      users := users[i := user];
      reply := Reply(200, "OTP sent to email");
    }

    /** `resendPasswordResetOtp`: only once the current code has expired. */
    method ResendPasswordResetOtp(email: string, otp: string, now: int) returns (reply: Reply)
      requires Valid() && IsOtp(otp)
      modifies this`users
      ensures Valid()
      ensures reply == ResendReply(old(users), email, now)
      ensures reply.status == 200 ==>
        var i := Find(old(users), ByEmail(email)).value;
        users == old(users)[i := Resent(old(users)[i], otp, now)]
      ensures reply.status != 200 ==> users == old(users)
    {
      if email == "" {
        return Reply(400, "Email is required");
      }
      var found := Find(users, ByEmail(email));
      if found.None? {
        return Reply(400, "User not found");
      }
      var i := found.value;
      var user := users[i];
      if user.otpExpiry.Some? && now < user.otpExpiry.value {
        return Reply(400, "OTP is still valid");
      }
      user := Resent(user, otp, now);
      UpdateKeepsStore(users, nextId, i, user);
      users := users[i := user];
      reply := Reply(200, "OTP resent to email");
    }

    /** `verifyPasswordResetOtp`: set `is_verified`; the code itself is left in place. */
    method VerifyPasswordResetOtp(email: string, otp: string, now: int) returns (reply: Reply)
      requires Valid()
      modifies this`users
      ensures Valid()
      ensures reply == VerifyResetReply(old(users), email, otp, now)
      ensures reply.status == 200 ==>
        var i := Find(old(users), ByEmail(email)).value;
        users == old(users)[i := old(users)[i].(isVerified := true)]
      ensures reply.status != 200 ==> users == old(users)
    {
      if email == "" || otp == "" {
        return Reply(400, "Email and otp are required");
      }
      var found := Find(users, ByEmail(email));
      if found.None? {
        return Reply(400, "User not found");
      }
      var i := found.value;
      var user := users[i];
      assert user == users[Find(users, ByEmail(email)).value];
      if user.otp != Some(otp) {
        return Reply(400, "Incorrect OTP");
      }
      if user.otpExpiry.Some? && now > user.otpExpiry.value {
        return Reply(400, "OTP has expired");
      }
      user := user.(isVerified := true);
      UpdateKeepsStore(users, nextId, i, user);
      users := users[i := user];
      reply := Reply(200, "OTP verified successfully");
    }

    /** `resetPassword`: the new hash, with the OTP state cleared. */
    method ResetPassword(email: string, newPassword: string) returns (reply: Reply)
      requires Valid()
      modifies this`users
      ensures Valid()
      ensures reply == ResetReply(old(users), email, newPassword)
      ensures reply.status == 200 ==>
        var i := Find(old(users), ByEmail(email)).value;
        users == old(users)[i := AfterReset(old(users)[i], newPassword)]
      ensures reply.status != 200 ==> users == old(users)
    {
      if email == "" || newPassword == "" {
        return Reply(400, "Email and new password are required");
      }
      var found := Find(users, ByEmail(email));
      if found.None? {
        return Reply(404, "User not found");
      }
      var i := found.value;
      var user := users[i];
      if !user.isVerified {
        return Reply(400, "Otp not verified");
      }
      var hashedPassword := Hash(newPassword);
      user := user.(password := hashedPassword);
      user := user.(otp := None);
      user := user.(otpExpiry := None);
      user := user.(isVerified := false);
      UpdateKeepsStore(users, nextId, i, user);
      users := users[i := user];
      reply := Reply(200, "Password reset successfully");
    }

    /** `toggleTwoFactorAuth` (compiled copy): negate the caller's `is_two_factor` (the activity log is not modelled). */
    method ToggleTwoFactorAuth(who: Session.Identity) returns (reply: Reply)
      requires Valid()
      modifies this`users
      ensures Valid()
      ensures reply == ToggleTwoFactorReply(who, old(users))
      ensures reply.status == 200 ==>
        var i := Find(old(users), ById(who.id)).value;
        users == old(users)[i := old(users)[i].(isTwoFactor := !old(users)[i].isTwoFactor)]
      ensures reply.status != 200 ==> users == old(users)
    {
      match Session.Admit(who, Reply(401, "Unauthorized, token not provided"), Session.InternalError)
      case Denied(r) => reply := r;
      case Granted(id) =>
        var found := Find(users, ById(id));
        if found.None? {
          return Reply(401, "User not found");
        }
        var i := found.value;
        var user := users[i];
        user := user.(isTwoFactor := !user.isTwoFactor);
        UpdateKeepsStore(users, nextId, i, user);
        users := users[i := user];
        reply := Reply(200, "Two-factor authentication " + (if user.isTwoFactor then "enabled" else "disabled") + " successfully");
    }

    /** `verifyTwoFactorLogin` (compiled copy): spend the code and log the user in. */
    method VerifyTwoFactorLogin(email: string, otp: string, accessSecret: string, now: nat)
      returns (reply: Reply, payload: Option<User>, access: Option<Jwt.Token>)
      requires Valid()
      modifies this`users
      ensures Valid()
      ensures reply == TwoFactorLoginReply(old(users), email, otp, now)
      ensures reply.status == 200 ==>
        var i := Find(old(users), ByEmail(email)).value;
        var u := TwoFactorDone(old(users)[i], now);
        users == old(users)[i := u] && payload == Some(WithoutPassword(u)) &&
        access == Some(Jwt.GenerateAccessToken(u, accessSecret, now))
      ensures reply.status != 200 ==> users == old(users) && payload.None? && access.None?
    {
      payload, access := None, None;
      if email == "" || otp == "" {
        return Reply(400, "Email and verification code are required"), payload, access;
      }
      var found := Find(users, ByEmail(email));
      if found.None? {
        return Reply(404, "User not found"), payload, access;
      }
      var i := found.value;
      var user := users[i];
      if user.otp != Some(otp) {
        return Reply(400, "Invalid verification code"), payload, access;
      }
      if user.otpExpiry.Some? && now > user.otpExpiry.value {
        return Reply(400, "Verification code has expired"), payload, access;
      }
      user := TwoFactorDone(user, now);
      UpdateKeepsStore(users, nextId, i, user);
      users := users[i := user];
      payload := Some(user.(password := ""));
      access := Some(Jwt.GenerateAccessToken(user, accessSecret, now));
      reply := Reply(200, "Login successful");
    }

    /** The compiled `changePassword`. */
    method ChangePassword(who: Session.Identity, oldPassword: string, newPassword: string) returns (reply: Reply)
      requires Valid()
      modifies this`users
      ensures Valid()
      ensures reply == ChangePasswordReply(who, old(users), oldPassword, newPassword)
      ensures reply.status == 200 ==>
        var i := Find(old(users), ById(who.id)).value;
        users == old(users)[i := old(users)[i].(password := Hash(newPassword))]
      ensures reply.status != 200 ==> users == old(users)
    {
      if oldPassword == "" || newPassword == "" {
        return Reply(400, "Old password and new password are required");
      }
      match Session.Admit(who, Reply(401, "No access token provided. Please log in."), Session.InternalError)
      case Denied(r) => reply := r;
      case Granted(id) =>
        var found := Find(users, ById(id));
        if found.None? {
          return Reply(404, "User not found");
        }
        var i := found.value;
        var user := users[i];
        if !Compare(oldPassword, user.password) {
          return Reply(401, "Incorrect old password");
        }
        var hashedPassword := Hash(newPassword);
        user := user.(password := hashedPassword);
        UpdateKeepsStore(users, nextId, i, user);
        users := users[i := user];
        reply := Reply(200, "Password changed successfully");
    }
  }

  /** The TypeScript signup never fills the cache, so its `verifySignupOtp` can only answer 404 (or 400 for missing fields). */
  lemma TsVerifyAlwaysMisses(users: seq<User>, email: string, otp: string, now: int)
    requires email != "" && otp != ""
    ensures VerifySignupReply(users, map[], email, otp, now) == Reply(404, "OTP expired or invalid request")
  {
  }

  /**
   * With the cache in sync (as the compiled signup keeps it, up to the
   * millisecond between its clock reads), an entry whose OTP has expired is
   * already gone: "OTP has expired" is never the answer, and a late code gets
   * 404. A request is taken to read the clock once.
   */
  lemma ExpiredSignupOtpIsGone(users: seq<User>, pending: map<string, Pending>, email: string, otp: string, now: int)
    requires CacheInSync(pending)
    ensures VerifySignupReply(users, pending, email, otp, now) != Reply(400, "OTP has expired")
    ensures email != "" && otp != "" && email in pending && now > pending[email].otpExpiry ==>
      VerifySignupReply(users, pending, email, otp, now) == Reply(404, "OTP expired or invalid request")
  {
  }

  /** A signup code verified within its minute creates exactly the account that was requested, ready to log in. */
  lemma {:induction false} SignupRoundTrip(users: seq<User>, blank: User, email: string, name: string, password: string,
                                           otp: string, sentAt: int, now: int)
    requires email != "" && password != "" && otp != "" && Find(users, ByEmail(email)).None?
    requires sentAt <= now <= sentAt + 60000
    requires EmailsUnique(users)
    ensures var pending := map[email := Signup(email, name, password, otp, sentAt)];
      VerifySignupReply(users, pending, email, otp, now).status == 200 &&
      var u := FromPending(blank, pending[email], now);
      var after := users + [u];
      LoginReply(after, email, password).status == 200 && u.isVerified
  {
    var p := Signup(email, name, password, otp, sentAt);
    var u := FromPending(blank, p, now);
    InsertFresh(users, u);
  }

  /** Toggling two-factor twice restores the flag. */
  lemma TwoFactorToggleInvolution(u: User)
    ensures u.(isTwoFactor := !u.(isTwoFactor := !u.isTwoFactor).isTwoFactor) == u
  {
  }

  /** A two-factor code works once: after a successful login the same code is refused. */
  lemma TwoFactorCodeSingleUse(users: seq<User>, email: string, otp: string, now: int, later: int)
    requires TwoFactorLoginReply(users, email, otp, now).status == 200
    ensures var i := Find(users, ByEmail(email)).value;
      TwoFactorLoginReply(users[i := TwoFactorDone(users[i], now)], email, otp, later) == Reply(400, "Invalid verification code")
  {
    var i := Find(users, ByEmail(email)).value;
    FindAfterUpdate(users, i, TwoFactorDone(users[i], now), email);
  }

  /**
   * As written, the compiled copy lets anyone reset a just-registered
   * account's password with no reset OTP: signup verification sets the same
   * `is_verified` flag that `resetPassword` checks.
   */
  lemma SignupVerificationOpensReset(users: seq<User>, blank: User, p: Pending, now: int, newPassword: string)
    requires p.email != "" && newPassword != "" && Find(users, ByEmail(p.email)).None?
    ensures var after := users + [FromPending(blank, p, now)];
      ResetReply(after, p.email, newPassword).status == 200 &&
      ResetAllowedAsWritten(FromPending(blank, p, now))
  {
    FindAppend(users, FromPending(blank, p, now), ByEmail(p.email));
  }
}
