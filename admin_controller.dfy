/**
 * The account handlers of src/controllers/admin.controller.ts and its compiled
 * copy dist/controllers/admin.controller.js: admin promotion by emailed token,
 * accounts created by an admin for a set-password link, account activation,
 * the active/inactive head count, and (compiled copy only) the reply to a
 * support ticket.
 *
 * The compiled schema declares neither `role` nor `account_status`; Mongoose
 * silently drops assignments to undeclared paths, so under that schema
 * promotion and activation write nothing to those two fields. The store
 * records which schema is in force in `declaresRole`.
 */
module AdminController {
  import opened Common
  import opened UsersModel

  /** One hour, the lifetime of a promotion token. */
  const PromotionLifetime: int := 3600000

  /** `crypto.randomBytes(20).toString("hex")`: forty lower-case hex digits. */
  predicate IsHexToken(t: string)
  {
    |t| == 40 && forall k :: 0 <= k < |t| ==> ('0' <= t[k] <= '9' || 'a' <= t[k] <= 'f')
  }

  /** The token is held by no document yet. */
  predicate Unused(users: seq<User>, token: string)
  {
    forall j :: 0 <= j < |users| ==> users[j].resetToken != Some(token)
  }

  /** The reply of `sendAdminPromotionLink`. */
  function PromotionLinkReply(users: seq<User>, email: string): (r: Reply)
    ensures r.status == 200 <==> Find(users, ByEmail(email)).Some?
    ensures r.status != 200 ==> r == Reply(404, "User not found")
  {
    if Find(users, ByEmail(email)).None? then Reply(404, "User not found")
    else Reply(200, "Promotion email send successfully")
  }

  /** The record `promoteToAdmin` saves: the role set when the schema has it, the token spent. */
  function Promoted(u: User, declaresRole: bool): (v: User)
    ensures v.resetToken == None && v.resetTokenExpiry == None
    ensures v.role == (if declaresRole then Some("admin") else u.role)
    ensures v.(role := u.role, resetToken := u.resetToken, resetTokenExpiry := u.resetTokenExpiry) == u
  {
    u.(role := if declaresRole then Some("admin") else u.role, resetToken := None, resetTokenExpiry := None)
  }

  /** The reply of `promoteToAdmin`; an expiry equal to the current time still passes. */
  function PromoteReply(users: seq<User>, token: string, now: int): (r: Reply)
    ensures token == "" ==> r == Reply(400, "Invalid request, No token provided")
    ensures token != "" && Find(users, ByResetToken(token)).None? ==> r == Reply(404, "Invalid or Expired token")
    ensures r.status == 200 <==>
      token != "" && Find(users, ByResetToken(token)).Some? &&
      var e := users[Find(users, ByResetToken(token)).value].resetTokenExpiry;
      (e.None? || now <= e.value)
  {
    if token == "" then Reply(400, "Invalid request, No token provided")
    else
      match Find(users, ByResetToken(token))
      case None => Reply(404, "Invalid or Expired token")
      case Some(i) =>
        var e := users[i].resetTokenExpiry;
        if e.Some? && e.value < now then Reply(400, "Token expired")
        else Reply(200, "User promoted to Admin successfully")
  }

  /** The reply of `SendSetPasswordLink`. */
  function SetPasswordLinkReply(users: seq<User>, email: string): (r: Reply)
    ensures email == "" ==> r == Reply(400, "all fields are required")
    ensures r.status == 200 <==> email != "" && Find(users, ByEmail(email)).None?
    ensures email != "" && Find(users, ByEmail(email)).Some? ==> r == Reply(404, "user already exists")
  {
    if email == "" then Reply(400, "all fields are required")
    else if Find(users, ByEmail(email)).Some? then Reply(404, "user already exists")
    else Reply(200, "Link sent succesfully")
  }

  /** The two actions `activateOrDeactivateUser` knows. */
  datatype Action = Activate | Deactivate

  /** Mongoose's message for an id it cannot cast; the handler's `catch` sends it with 400. */
  const CastErrorMessage: string := "Cast to ObjectId failed"

  /** The status the action writes. */
  function Target(a: Action): string
  {
    match a
    case Activate => "active"
    case Deactivate => "inactive"
  }

  /** The action leaves the account as it is: activating an active one, or deactivating one that is not active. */
  predicate AlreadyThere(u: User, a: Action)
  {
    match a
    case Activate => u.accountStatus == Some("active")
    case Deactivate => u.accountStatus != Some("active")
  }

  /** The record an accepted action saves. */
  function WithStatus(u: User, a: Action, declaresRole: bool): (v: User)
    ensures declaresRole ==> v.accountStatus == Some(Target(a))
    ensures !declaresRole ==> v == u
    ensures v.(accountStatus := u.accountStatus) == u
  {
    if declaresRole then u.(accountStatus := Some(Target(a))) else u
  }

  /** How the handler reads the `action` query parameter. */
  function ParseAction(action: string): (r: Result<Action>)
    ensures r.Ok? <==> action == "activate" || action == "deactivate"
    ensures r.Ok? ==> action == (if r.value == Activate then "activate" else "deactivate")
    ensures action == "" ==> r == Err("action is not defined")
  {
    if action == "" then Err("action is not defined")
    else if action == "activate" then Ok(Activate)
    else if action == "deactivate" then Ok(Deactivate)
    else Err("action should be activate or deactivate")
  }

  /** The reply of `activateOrDeactivateUser`; the action is checked before any lookup. */
  function StatusReply(users: seq<User>, action: string, userId: string): (r: Reply)
    ensures action == "" ==> r == Reply(400, "action is not defined")
    ensures action != "" && ParseAction(action).Err? ==> r == Reply(404, "action should be activate or deactivate")
    ensures r.status == 200 <==>
      ParseAction(action).Ok? && userId != "" && ParseId(userId).Some? &&
      Find(users, ById(ParseId(userId).value)).Some? &&
      !AlreadyThere(users[Find(users, ById(ParseId(userId).value)).value], ParseAction(action).value)
  {
    match ParseAction(action)
    case Err(m) => Reply(if action == "" then 400 else 404, m)
    case Ok(a) =>
      if userId == "" then Reply(404, "user not found")
      else
        match ParseId(userId)
        case None => Reply(400, CastErrorMessage)
        case Some(id) =>
          match Find(users, ById(id))
          case None => Reply(404, "user not found")
          case Some(i) =>
            if AlreadyThere(users[i], a) then
              Reply(400, if a == Activate then "user is already active" else "user is already deactivated")
            else
              Reply(200, if a == Activate then "user activated successfully" else "user deactivated successfully")
  }

  /** `User.find({ account_status: s }).countDocuments()`. */
  function CountStatus(users: seq<User>, s: string): (n: nat)
    ensures n <= |users|
    ensures n == 0 <==> forall j :: 0 <= j < |users| ==> users[j].accountStatus != Some(s)
  {
    if |users| == 0 then 0
    else (if users[0].accountStatus == Some(s) then 1 else 0) + CountStatus(users[1..], s)
  }

  /** Replacing one document moves it between the counts according to its old and new status. */
  lemma {:induction false} CountUpdate(users: seq<User>, i: nat, u: User, s: string)
    requires i < |users|
    ensures CountStatus(users[i := u], s) + (if users[i].accountStatus == Some(s) then 1 else 0)
         == CountStatus(users, s) + (if u.accountStatus == Some(s) then 1 else 0)
  {
    if i == 0 {
      assert users[i := u][1..] == users[1..];
    } else {
      assert users[i := u][1..] == users[1..][i - 1 := u];
      CountUpdate(users[1..], i - 1, u, s);
    }
  }

  /** A support ticket, as `replyToComplaint` reads and writes it. */
  datatype ComplaintStatus = Pending | Resolved
  datatype Complaint = Complaint(ticketId: string, issue: string, status: ComplaintStatus, reply: string)

  /** `Complaint.findOne({ ticket_id })`. */
  function FindTicket(complaints: seq<Complaint>, ticketId: string): (r: Option<nat>)
    ensures r.Some? ==> r.value < |complaints| && complaints[r.value].ticketId == ticketId &&
                        forall j :: 0 <= j < r.value ==> complaints[j].ticketId != ticketId
    ensures r.None? ==> forall j :: 0 <= j < |complaints| ==> complaints[j].ticketId != ticketId
  {
    if |complaints| == 0 then None
    else if complaints[0].ticketId == ticketId then Some(0)
    else
      match FindTicket(complaints[1..], ticketId)
      case None => None
      case Some(j) => Some(j + 1)
  }

  /** The reply of `replyToComplaint`. */
  function ComplaintReply(complaints: seq<Complaint>, users: seq<User>, ticketId: string, replyText: string, email: string)
    : (r: Reply)
    ensures ticketId == "" || replyText == "" || email == "" ==> r == Reply(400, "fields are missing")
    ensures r.status == 200 <==>
      ticketId != "" && replyText != "" && email != "" &&
      FindTicket(complaints, ticketId).Some? && Find(users, ByEmail(email)).Some?
    ensures r.status == 404 <==>
      ticketId != "" && replyText != "" && email != "" &&
      (FindTicket(complaints, ticketId).None? || Find(users, ByEmail(email)).None?)
  {
    if ticketId == "" || replyText == "" || email == "" then Reply(400, "fields are missing")
    else if FindTicket(complaints, ticketId).None? then Reply(404, "ticket not found")
    else if Find(users, ByEmail(email)).None? then Reply(404, "user not found")
    else Reply(200, "reply done successfully")
  }

  ghost predicate StoreOk(users: seq<User>, nextId: nat)
  {
    EmailsUnique(users) && IdsBelow(users, nextId)
  }

  class AdminStore {
    var users: seq<User>
    var complaints: seq<Complaint>
    var nextId: nat
    /** The TypeScript schema is in force: `role` and `account_status` are declared. */
    const declaresRole: bool

    ghost predicate Valid()
      reads this
    {
      StoreOk(users, nextId)
    }

    constructor (users: seq<User>, complaints: seq<Complaint>, nextId: nat, declaresRole: bool)
      requires StoreOk(users, nextId)
      ensures Valid()
      ensures this.users == users && this.complaints == complaints && this.nextId == nextId
      ensures this.declaresRole == declaresRole
    {
      this.users := users;
      this.complaints := complaints;
      this.nextId := nextId;
      this.declaresRole := declaresRole;
    }

    /** `sendAdminPromotionLink`: store a fresh token that expires in an hour (the mail is not modelled). */
    method SendAdminPromotionLink(email: string, token: string, now: int) returns (reply: Reply)
      requires Valid() && IsHexToken(token)
      modifies this`users
      ensures Valid()
      ensures reply == PromotionLinkReply(old(users), email)
      ensures reply.status == 200 ==>
        var i := Find(old(users), ByEmail(email)).value;
        users == old(users)[i := old(users)[i].(resetToken := Some(token), resetTokenExpiry := Some(now + PromotionLifetime))]
      ensures reply.status != 200 ==> users == old(users)
    {
      var found := Find(users, ByEmail(email));
      if found.None? {
        return Reply(404, "User not found");
      }
      var i := found.value;
      var u := users[i];
      u := u.(resetToken := Some(token));
      u := u.(resetTokenExpiry := Some(now + PromotionLifetime));
      UpdateKeepsStore(users, nextId, i, u);
      users := users[i := u];
      reply := Reply(200, "Promotion email send successfully");
    }

    /** `promoteToAdmin`: spend the token and grant the role. */
    method PromoteToAdmin(token: string, now: int) returns (reply: Reply)
      requires Valid()
      modifies this`users
      ensures Valid()
      ensures reply == PromoteReply(old(users), token, now)
      ensures reply.status == 200 ==>
        var i := Find(old(users), ByResetToken(token)).value;
        users == old(users)[i := Promoted(old(users)[i], declaresRole)]
      ensures reply.status != 200 ==> users == old(users)
    {
      if token == "" {
        return Reply(400, "Invalid request, No token provided");
      }
      var found := Find(users, ByResetToken(token));
      if found.None? {
        return Reply(404, "Invalid or Expired token");
      }
      var i := found.value;
      var u := users[i];
      assert u == users[Find(users, ByResetToken(token)).value];
      if u.resetTokenExpiry.Some? && u.resetTokenExpiry.value < now {
        return Reply(400, "Token expired");
      }
      u := Promoted(u, declaresRole);
      UpdateKeepsStore(users, nextId, i, u);
      users := users[i := u];
      reply := Reply(200, "User promoted to Admin successfully");
    }

    /** `SendSetPasswordLink`: create an account that has only an email. */
    method SendSetPasswordLink(email: string, now: int) returns (reply: Reply)
      requires Valid()
      modifies this`users, this`nextId
      ensures Valid()
      ensures reply == SetPasswordLinkReply(old(users), email)
      ensures reply.status == 200 ==>
        users == old(users) + [if declaresRole then NewUser(old(nextId), email, now) else NewUserDist(old(nextId), email, now)] &&
        nextId == old(nextId) + 1
      ensures reply.status != 200 ==> users == old(users) && nextId == old(nextId)
    {
      if email == "" {
        return Reply(400, "all fields are required");
      }
      var check := Find(users, ByEmail(email));
      if check.Some? {
        return Reply(404, "user already exists");
      }
      var user := if declaresRole then NewUser(nextId, email, now) else NewUserDist(nextId, email, now);
      InsertFresh(users, user);
      users := users + [user];
      nextId := nextId + 1;
      reply := Reply(200, "Link sent succesfully");
    }

    /** `activateOrDeactivateUser`. */
    method ActivateOrDeactivateUser(action: string, userId: string) returns (reply: Reply)
      requires Valid()
      modifies this`users
      ensures Valid()
      ensures reply == StatusReply(old(users), action, userId)
      ensures reply.status == 200 ==>
        var i := Find(old(users), ById(ParseId(userId).value)).value;
        users == old(users)[i := WithStatus(old(users)[i], ParseAction(action).value, declaresRole)]
      ensures reply.status != 200 ==> users == old(users)
    {
      if action == "" {
        return Reply(400, "action is not defined");
      }
      if !(action == "activate" || action == "deactivate") {
        return Reply(404, "action should be activate or deactivate");
      }
      if userId == "" {
        return Reply(404, "user not found");
      }
      var id := ParseId(userId);
      if id.None? {
        return Reply(400, CastErrorMessage);
      }
      var found := Find(users, ById(id.value));
      if found.None? {
        return Reply(404, "user not found");
      }
      var i := found.value;
      var u := users[i];
      if action == "activate" {
        if u.accountStatus == Some("active") {
          return Reply(400, "user is already active");
        }
        if declaresRole {
          u := u.(accountStatus := Some("active"));
        }
        reply := Reply(200, "user activated successfully");
      } else {
        if u.accountStatus != Some("active") {
          return Reply(400, "user is already deactivated");
        }
        if declaresRole {
          u := u.(accountStatus := Some("inactive"));
        }
        reply := Reply(200, "user deactivated successfully");
      }
      UpdateKeepsStore(users, nextId, i, u);
      users := users[i := u];
    }

    /** `getInfoAboutUsers`: how many accounts are active and how many inactive. */
    method GetInfoAboutUsers() returns (reply: Reply, activeUsers: nat, inactiveUsers: nat)
      ensures reply.status == 200
      ensures activeUsers == CountStatus(users, "active") && inactiveUsers == CountStatus(users, "inactive")
      ensures activeUsers + inactiveUsers <= |users|
    {
      activeUsers := CountStatus(users, "active");
      inactiveUsers := CountStatus(users, "inactive");
      CountsDisjoint(users);
      reply := Reply(200, "");
    }

    /** `replyToComplaint` (compiled copy only): resolve the ticket with the reply text. */
    method ReplyToComplaint(ticketId: string, replyText: string, email: string) returns (reply: Reply)
      modifies this`complaints
      ensures reply == ComplaintReply(old(complaints), users, ticketId, replyText, email)
      ensures reply.status == 200 ==>
        var k := FindTicket(old(complaints), ticketId).value;
        complaints == old(complaints)[k := old(complaints)[k].(status := Resolved, reply := replyText)]
      ensures reply.status != 200 ==> complaints == old(complaints)
    {
      if ticketId == "" || replyText == "" || email == "" {
        return Reply(400, "fields are missing");
      }
      var found := FindTicket(complaints, ticketId);
      if found.None? {
        return Reply(404, "ticket not found");
      }
      var user := Find(users, ByEmail(email));
      if user.None? {
        return Reply(404, "user not found");
      }
      var k := found.value;
      var complaint := complaints[k];
      complaint := complaint.(status := Resolved);
      complaint := complaint.(reply := replyText);
      complaints := complaints[k := complaint];
      reply := Reply(200, "reply done successfully");
    }
  }

  /** No account is counted both as active and as inactive. */
  lemma {:induction false} CountsDisjoint(users: seq<User>)
    ensures CountStatus(users, "active") + CountStatus(users, "inactive") <= |users|
  {
    if |users| > 0 {
      CountsDisjoint(users[1..]);
    }
  }

  /** A promotion token works once: after a successful promotion the same token finds no document. */
  lemma PromotionSingleUse(users: seq<User>, token: string, now: int, later: int, declaresRole: bool)
    requires PromoteReply(users, token, now).status == 200
    requires forall j :: 0 <= j < |users| && users[j].resetToken == Some(token) ==>
               j == Find(users, ByResetToken(token)).value
    ensures var i := Find(users, ByResetToken(token)).value;
      PromoteReply(users[i := Promoted(users[i], declaresRole)], token, later) == Reply(404, "Invalid or Expired token")
  {
    var i := Find(users, ByResetToken(token)).value;
    var after := users[i := Promoted(users[i], declaresRole)];
    forall j | 0 <= j < |after| ensures !Matches(after[j], ByResetToken(token)) {
      if j != i {
        assert after[j] == users[j];
      }
    }
    assert Find(after, ByResetToken(token)).None?;
  }

  /** A link just sent is accepted by `promoteToAdmin` up to and including its expiry instant. */
  lemma FreshLinkPromotes(users: seq<User>, email: string, token: string, sentAt: int, now: int)
    requires Find(users, ByEmail(email)).Some? && IsHexToken(token) && Unused(users, token)
    requires now <= sentAt + PromotionLifetime
    ensures var i := Find(users, ByEmail(email)).value;
      var after := users[i := users[i].(resetToken := Some(token), resetTokenExpiry := Some(sentAt + PromotionLifetime))];
      Find(after, ByResetToken(token)) == Some(i) && PromoteReply(after, token, now).status == 200
  {
    var i := Find(users, ByEmail(email)).value;
    var after := users[i := users[i].(resetToken := Some(token), resetTokenExpiry := Some(sentAt + PromotionLifetime))];
    assert Matches(after[i], ByResetToken(token));
    assert forall j :: 0 <= j < |after| && j != i ==> !Matches(after[j], ByResetToken(token));
  }

  /** Under the TypeScript schema, deactivating an active account and activating it again restores the record. */
  lemma DeactivateThenActivate(u: User)
    requires u.accountStatus == Some("active")
    ensures !AlreadyThere(u, Deactivate)
    ensures !AlreadyThere(WithStatus(u, Deactivate, true), Activate)
    ensures WithStatus(WithStatus(u, Deactivate, true), Activate, true) == u
  {
  }

  /** An accepted action moves exactly one account between the active and inactive counts. */
  lemma {:induction false} ActionMovesCount(users: seq<User>, i: nat, a: Action)
    requires i < |users| && !AlreadyThere(users[i], a)
    requires users[i].accountStatus.Some? ==> users[i].accountStatus.value in {"active", "inactive"}
    ensures var after := users[i := WithStatus(users[i], a, true)];
      match a
      case Activate =>
        CountStatus(after, "active") == CountStatus(users, "active") + 1 &&
        CountStatus(after, "inactive") + (if users[i].accountStatus == Some("inactive") then 1 else 0) == CountStatus(users, "inactive")
      case Deactivate =>
        CountStatus(after, "active") + 1 == CountStatus(users, "active") &&
        CountStatus(after, "inactive") == CountStatus(users, "inactive") + 1
  {
    var v := WithStatus(users[i], a, true);
    CountUpdate(users, i, v, "active");
    CountUpdate(users, i, v, "inactive");
  }

  /**
   * Under the compiled schema no document has an account status: every
   * deactivation is refused as already done, and every activation reports
   * success while saving the record unchanged.
   */
  lemma CompiledSchemaStatus(u: User)
    requires u.accountStatus == None
    ensures AlreadyThere(u, Deactivate) && !AlreadyThere(u, Activate)
    ensures WithStatus(u, Activate, false) == u
  {
  }
}
