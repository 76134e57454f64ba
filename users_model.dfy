/**
 * The Users collection: the user document, the defaults a new document gets
 * from the schema, and the `findOne` / `findById` lookups the controllers use.
 *
 * The TypeScript schema (src/models/users.model.ts) and the compiled one
 * (dist/models/users.model.js) differ: only the former declares `role` and
 * `account_status`, only the latter `user_type`. The record holds the union;
 * `role` and `accountStatus` are `None` for a document made under the compiled
 * schema. The three notification flags the security controller toggles are
 * declared in neither schema, so no stored document ever holds them and the
 * record has no field for them.
 */
module UsersModel {
  import opened Common

  /** Dates are milliseconds since the epoch. */
  datatype User = User(
    id: nat,
    email: string,
    name: string,
    phone: string,
    password: string,           // bcrypt hash, or "" when never set
    photo: string,
    userType: string,
    otp: Option<string>,
    otpExpiry: Option<int>,
    isVerified: bool,
    language: string,
    currency: string,
    isBiometric: bool,
    isTwoFactor: bool,
    isEmailNotification: bool,
    signupDate: Option<int>,
    lastLogin: Option<int>,
    resetToken: Option<string>,
    resetTokenExpiry: Option<int>,
    role: Option<string>,
    accountStatus: Option<string>)

  /** Ten minutes, the schema's default lifetime of `otp_expiry`. */
  const DefaultOtpLifetime: int := 10 * 60 * 1000

  /** A document created at time `now` under the TypeScript schema. */
  function NewUser(id: nat, email: string, now: int): (u: User)
    ensures u.id == id && u.email == email
    ensures u.password == "" && u.otp == None && u.otpExpiry == Some(now + 600000)
    ensures !u.isVerified && !u.isBiometric && !u.isTwoFactor && !u.isEmailNotification
    ensures u.language == "English" && u.currency == "US"
    ensures u.role == Some("user") && u.accountStatus == Some("active")
    ensures u.signupDate == None && u.lastLogin == None
    ensures u.resetToken == None && u.resetTokenExpiry == None
  {
    User(id, email, "", "", "", "", "", None, Some(now + DefaultOtpLifetime), false,
         "English", "US", false, false, false, None, None, None, None,
         Some("user"), Some("active"))
  }

  /** A document created at time `now` under the compiled schema. */
  function NewUserDist(id: nat, email: string, now: int): (u: User)
    ensures u.id == id && u.email == email
    ensures u.password == "" && u.otp == None && u.otpExpiry == Some(now + 600000)
    ensures !u.isVerified && !u.isBiometric && !u.isTwoFactor && !u.isEmailNotification
    ensures u.role == None && u.accountStatus == None
  {
    NewUser(id, email, now).(role := None, accountStatus := None)
  }
  /**
   * A document with its password removed, as `select("-password")` and the
   * compiled login's `delete userObject.password` return it (the dropped
   * field written as ""); nothing else is touched.
   */
  function WithoutPassword(u: User): (r: User)
    ensures r.password == "" && r.(password := u.password) == u
  {
    u.(password := "")
  }


  /** The filters the controllers pass to `findOne` / `findById`. */
  datatype Key = ByEmail(email: string) | ById(id: nat) | ByResetToken(token: string)

  predicate Matches(u: User, k: Key)
  {
    match k
    case ByEmail(e) => u.email == e
    case ById(i) => u.id == i
    case ByResetToken(t) => u.resetToken == Some(t)
  }

  /** Position of the first document matching `k`, as `findOne` returns it. */
  function Find(users: seq<User>, k: Key): (r: Option<nat>)
    ensures r.Some? ==> r.value < |users| && Matches(users[r.value], k)
    ensures r.Some? ==> forall j :: 0 <= j < r.value ==> !Matches(users[j], k)
    ensures r.None? ==> forall j :: 0 <= j < |users| ==> !Matches(users[j], k)
  {
    if |users| == 0 then None
    else if Matches(users[0], k) then Some(0)
    else
      match Find(users[1..], k)
      case None => None
      case Some(j) => Some(j + 1)
  }

  /** The schema's `unique: true` on `email`. */
  ghost predicate EmailsUnique(users: seq<User>)
  {
    forall i, j :: 0 <= i < j < |users| ==> users[i].email != users[j].email
  }

  /** Document ids are distinct and below the next id to hand out. */
  ghost predicate IdsBelow(users: seq<User>, next: nat)
  {
    (forall i :: 0 <= i < |users| ==> users[i].id < next) &&
    (forall i, j :: 0 <= i < j < |users| ==> users[i].id != users[j].id)
  }

  /** Inserting a document whose email is new keeps the emails unique, and the new document is the one found. */
  lemma {:induction false} InsertFresh(users: seq<User>, u: User)
    requires EmailsUnique(users)
    requires Find(users, ByEmail(u.email)).None?
    ensures EmailsUnique(users + [u])
    ensures Find(users + [u], ByEmail(u.email)) == Some(|users|)
  {
    FindAppend(users, u, ByEmail(u.email));
  }

  /** Appending a document that matches, to a collection that has none, puts the match last. */
  lemma {:induction false} FindAppend(users: seq<User>, u: User, k: Key)
    requires Find(users, k).None? && Matches(u, k)
    ensures Find(users + [u], k) == Some(|users|)
  {
    if |users| > 0 {
      assert (users + [u])[1..] == users[1..] + [u];
      FindAppend(users[1..], u, k);
    }
  }

  /** Replacing one document keeps the emails unique when the email is kept. */
  lemma UpdateKeepsUnique(users: seq<User>, i: nat, u: User)
    requires EmailsUnique(users) && i < |users| && u.email == users[i].email
    ensures EmailsUnique(users[i := u])
  {
  }

  /** Rewriting one document without touching its email or id keeps both uniqueness invariants. */
  lemma UpdateKeepsStore(users: seq<User>, next: nat, i: nat, u: User)
    requires EmailsUnique(users) && IdsBelow(users, next) && i < |users|
    requires u.email == users[i].email && u.id == users[i].id
    ensures EmailsUnique(users[i := u]) && IdsBelow(users[i := u], next)
  {
  }

  /** Removing one document keeps the emails unique. */
  lemma RemoveKeepsUnique(users: seq<User>, i: nat)
    requires EmailsUnique(users) && i < |users|
    ensures EmailsUnique(users[..i] + users[i + 1..])
  {
    var r := users[..i] + users[i + 1..];
    forall a, b | 0 <= a < b < |r| ensures r[a].email != r[b].email {
      var a' := if a < i then a else a + 1;
      var b' := if b < i then b else b + 1;
      assert r[a] == users[a'] && r[b] == users[b'];
    }
  }
}
