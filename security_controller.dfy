/**
 * The notification toggles of src/controllers/security.controller.ts
 * (compiled copy dist/controllers/security.controller.js): each one loads the
 * user named in the route, negates one flag on the loaded document, saves it
 * and reports the flag's new value.
 *
 * None of the three flag paths is declared in either user schema. Assigning
 * one sets a plain property on the loaded document, which the handler reads
 * back, but `save()` writes declared paths only; the next `findById` again
 * finds nothing there. So every toggle reports "enabled" and the collection
 * never changes.
 */
module SecurityController {
  import opened Common
  import opened UsersModel

  /** The three notification preferences, one per handler. */
  datatype Flag = SecurityAlert | RegularUpdates | Promotion

  /** A JavaScript value read from a document path. */
  datatype JsValue = Undefined | Bool(b: bool)

  /** JavaScript's `!v`: `undefined` and `false` are the falsy values here. */
  function Not(v: JsValue): (r: bool)
    ensures r <==> v == Undefined || v == Bool(false)
  {
    match v
    case Undefined => true
    case Bool(b) => !b
  }

  /**
   * A document as a handler holds it: the stored record, plus the plain
   * properties assigned at paths the schema does not declare.
   */
  datatype Doc = Doc(stored: User, undeclared: map<Flag, bool>)

  /** `findById`: a document hydrated from the stored record alone. */
  function Load(u: User): (d: Doc)
    ensures d.stored == u && d.undeclared == map[]
  {
    Doc(u, map[])
  }

  /** `user.<flag>`: the assigned property, or `undefined`. */
  function Read(d: Doc, f: Flag): (v: JsValue)
    ensures v.Bool? <==> f in d.undeclared
    ensures v.Bool? ==> v.b == d.undeclared[f]
  {
    if f in d.undeclared then Bool(d.undeclared[f]) else Undefined
  }

  /** `user.<flag> = !user.<flag>` on the loaded document. */
  function Toggled(d: Doc, f: Flag): (e: Doc)
    ensures e.stored == d.stored
    ensures Read(e, f) == Bool(Not(Read(d, f)))
    ensures forall g :: g != f ==> Read(e, g) == Read(d, g)
  {
    d.(undeclared := d.undeclared[f := Not(Read(d, f))])
  }

  /** The word the success message starts with. */
  function Label(f: Flag): string
  {
    match f
    case SecurityAlert => "Security"
    case RegularUpdates => "Regular"
    case Promotion => "Promotion"
  }

  /** The word the success message ends with. */
  function State(on: bool): string { if on then "enabled" else "disabled" }

  /** The route checks: a missing id, an id Mongoose cannot cast, an unknown id, or the user's position. */
  function Lookup(users: seq<User>, userId: string): (r: Result<nat>)
    ensures userId == "" ==> r == Err("userId is required")
    ensures r.Ok? <==> ParseId(userId).Some? && Find(users, ById(ParseId(userId).value)).Some?
    ensures r.Ok? ==> r.value == Find(users, ById(ParseId(userId).value)).value
  {
    if userId == "" then Err("userId is required")
    else
      match ParseId(userId)
      case None => Err("cast")
      case Some(id) =>
        match Find(users, ById(id))
        case None => Err("User not found")
        case Some(i) => Ok(i)
  }

  /**
   * The reply of a toggle. A route id Mongoose cannot cast makes `findById`
   * throw; the `catch` answers 500. A found user always gets "enabled", since
   * the flag read from a freshly loaded document is `undefined`.
   */
  function ToggleReply(users: seq<User>, f: Flag, userId: string): (r: Reply)
    ensures userId == "" ==> r == Reply(400, "userId is required")
    ensures userId != "" && ParseId(userId).None? ==> r == Reply(500, "Internal server error")
    ensures userId != "" && ParseId(userId).Some? && Find(users, ById(ParseId(userId).value)).None? ==>
      r == Reply(400, "User not found")
    ensures r.status == 200 <==> Lookup(users, userId).Ok?
    ensures r.status == 200 ==> r.message == Label(f) + " Notifications enabled"
  {
    if userId == "" then Reply(400, "userId is required")
    else
      match ParseId(userId)
      case None => Reply(500, "Internal server error")
      case Some(id) =>
        match Find(users, ById(id))
        case None => Reply(400, "User not found")
        case Some(i) =>
          var d := Toggled(Load(users[i]), f);
          Reply(200, Label(f) + " Notifications " + State(Read(d, f).b))
  }

  class SecurityStore {
    var users: seq<User>

    constructor (users: seq<User>)
      ensures this.users == users
    {
      this.users := users;
    }

    /**
     * The shared body of the three handlers: load, negate, save, report.
     * `success` is false on the two 400 replies and true otherwise, the 500
     * of the `catch` included.
     */
    method Toggle(f: Flag, userId: string) returns (reply: Reply, success: bool)
      modifies this
      ensures reply == ToggleReply(old(users), f, userId)
      ensures success <==> reply.status != 400
      ensures users == old(users)
    {
      if userId == "" {
        return Reply(400, "userId is required"), false;
      }
      var id := ParseId(userId);
      if id.None? {
        return Reply(500, "Internal server error"), true;
      }
      var found := Find(users, ById(id.value));
      if found.None? {
        return Reply(400, "User not found"), false;
      }
      var i := found.value;
      var user := Load(users[i]);
      user := Toggled(user, f);
      users := users[i := user.stored];
      reply, success := Reply(200, Label(f) + " Notifications " + State(Read(user, f).b)), true;
    }

    /** `toggleSecurityAlert`. */
    method ToggleSecurityAlert(userId: string) returns (reply: Reply, success: bool)
      modifies this
      ensures reply == ToggleReply(old(users), SecurityAlert, userId) && users == old(users)
    {
      reply, success := Toggle(SecurityAlert, userId);
    }

    /** `toggleRegularAlerts`. */
    method ToggleRegularAlerts(userId: string) returns (reply: Reply, success: bool)
      modifies this
      ensures reply == ToggleReply(old(users), RegularUpdates, userId) && users == old(users)
    {
      reply, success := Toggle(RegularUpdates, userId);
    }

    /** `togglePromotionAlerts`. */
    method TogglePromotionAlerts(userId: string) returns (reply: Reply, success: bool)
      modifies this
      ensures reply == ToggleReply(old(users), Promotion, userId) && users == old(users)
    {
      reply, success := Toggle(Promotion, userId);
    }
  }

  /**
   * On one loaded document the negation alternates: a second `!` would give
   * false. But `save()` writes back the record as loaded, so the next request
   * loads the same document and gets the same reply.
   */
  lemma {:induction false} ToggleNeverAlternates(users: seq<User>, f: Flag, userId: string, d: Doc)
    requires Lookup(users, userId).Ok? && d == Load(users[Lookup(users, userId).value])
    ensures Read(Toggled(Toggled(d, f), f), f) == Bool(false)
    ensures ToggleReply(users, f, userId).message == Label(f) + " Notifications " + State(Read(Toggled(d, f), f).b)
    ensures ToggleReply(users, f, userId) == ToggleReply(users[Lookup(users, userId).value := Toggled(d, f).stored], f, userId)
  {
    var i := Lookup(users, userId).value;
    assert users[i := Toggled(d, f).stored] == users;
  }
}
