/**
 * The profile handlers of src/controllers/user.controller.ts (compiled copy
 * dist/controllers/user.controller.js, identical in behaviour): look users up,
 * delete one's account, update the profile and photo, update preference
 * fields, and change the password.
 */
module UserController {
  import opened Common
  import opened UsersModel
  import Session
  import Multer

  /**
   * `findUser(id, email)`: by id when an id is given, else by email when an
   * email is given, else nothing. `Err` is the cast error `findById` throws
   * for an id Mongoose cannot read.
   */
  function FindUser(users: seq<User>, id: string, email: string): (r: Result<Option<nat>>)
    ensures id != "" ==> (r.Err? <==> ParseId(id).None?)
    ensures id != "" && r.Ok? ==> r.value == Find(users, ById(ParseId(id).value))
    ensures id == "" ==> r == Ok(if email != "" then Find(users, ByEmail(email)) else None)
  {
    if id != "" then
      match ParseId(id)
      case None => Err("cast")
      case Some(n) => Ok(Find(users, ById(n)))
    else if email != "" then Ok(Find(users, ByEmail(email)))
    else Ok(None)
  }

  /** The id wins: once an id is given, the email is never consulted. */
  lemma IdTakesPrecedence(users: seq<User>, id: string, e1: string, e2: string)
    requires id != ""
    ensures FindUser(users, id, e1) == FindUser(users, id, e2)
  {
  }

  function Listing(users: seq<User>): (r: seq<User>)
    ensures |r| == |users|
    ensures forall k :: 0 <= k < |r| ==> r[k] == users[k].(password := "")
  {
    seq(|users|, k requires 0 <= k < |users| => WithoutPassword(users[k]))
  }

  /** The profile fields `updateUser` overwrites: each only with a truthy value, the photo only from an upload. */
  function Profile(u: User, email: string, name: string, phone: string, photo: Option<string>): User
  {
    u.(email := OrElse(email, u.email),
       name := OrElse(name, u.name),
       phone := OrElse(phone, u.phone),
       photo := if photo.Some? then photo.value else u.photo)
  }

  /** The file multer hands to `updateUser`, before the image-only filter has looked at it. */
  datatype Upload = Upload(mimetype: string, originalname: string)

  /** The preference update that `updateSpecificFields` builds; `None` is a key left out. */
  datatype Patch = Patch(language: Option<string>, isBiometric: Option<bool>, isTwoFactor: Option<bool>)

  const EmptyPatch: Patch := Patch(None, None, None)

  /** `language` only when truthy; the two flags only when they are booleans (so `false` counts). */
  function BuildPatch(language: string, isBiometric: Option<bool>, isTwoFactor: Option<bool>): (p: Patch)
    ensures p == EmptyPatch <==> language == "" && isBiometric.None? && isTwoFactor.None?
    ensures p.language.Some? <==> language != ""
    ensures p.isBiometric == isBiometric && p.isTwoFactor == isTwoFactor
  {
    Patch(if language != "" then Some(language) else None, isBiometric, isTwoFactor)
  }

  /** `findByIdAndUpdate(userId, updateFields)`. */
  function ApplyPatch(u: User, p: Patch): User
  {
    u.(language := if p.language.Some? then p.language.value else u.language,
       isBiometric := if p.isBiometric.Some? then p.isBiometric.value else u.isBiometric,
       isTwoFactor := if p.isTwoFactor.Some? then p.isTwoFactor.value else u.isTwoFactor)
  }

  /** A patch writes exactly the keys it holds, `false` included, and nothing else. */
  lemma PatchWritesItsKeys(u: User, language: string, isBiometric: Option<bool>, isTwoFactor: Option<bool>)
    ensures var v := ApplyPatch(u, BuildPatch(language, isBiometric, isTwoFactor));
      v.language == (if language != "" then language else u.language) &&
      (isBiometric == Some(false) ==> !v.isBiometric) &&
      (isTwoFactor == Some(false) ==> !v.isTwoFactor) &&
      (isBiometric.None? ==> v.isBiometric == u.isBiometric) &&
      (isTwoFactor.None? ==> v.isTwoFactor == u.isTwoFactor) &&
      v.(language := u.language, isBiometric := u.isBiometric, isTwoFactor := u.isTwoFactor) == u
  {
  }

  /** The profile update changes email, name, phone and photo only as supplied, and no other field. */
  lemma ProfileWritesOnlySupplied(u: User, email: string, name: string, phone: string, photo: Option<string>)
    ensures var v := Profile(u, email, name, phone, photo);
      (email == "" ==> v.email == u.email) && (email != "" ==> v.email == email) &&
      (name == "" ==> v.name == u.name) && (phone == "" ==> v.phone == u.phone) &&
      (photo.None? ==> v.photo == u.photo) &&
      v.(email := u.email, name := u.name, phone := u.phone, photo := u.photo) == u
  {
  }

  /** The reply `changePassword` sends, in the order its checks run. */
  function ChangePasswordReply(who: Session.Identity, secretDefined: bool, users: seq<User>,
                               oldPassword: string, newPassword: string): (r: Reply)
    ensures oldPassword == "" || newPassword == "" ==> r == Reply(400, "Both old and new passwords are required")
    ensures r.status == 200 <==>
      oldPassword != "" && newPassword != "" && secretDefined && who.Caller? &&
      Find(users, ById(who.id)).Some? && Compare(oldPassword, users[Find(users, ById(who.id)).value].password)
    ensures who.Caller? && secretDefined && oldPassword != "" && newPassword != "" &&
            Find(users, ById(who.id)).Some? && users[Find(users, ById(who.id)).value].password == "" ==>
      r == Reply(400, "Password is missing in user data")
  {
    if oldPassword == "" || newPassword == "" then Reply(400, "Both old and new passwords are required")
    else if who == Session.NoToken then Reply(401, "Unauthorized, token not provided")
    else if !secretDefined then Reply(500, "JWT_SECRET is not defined in environment variables")
    else if who == Session.BadToken then Reply(500, "Error occurred while changing the password")
    else
      match Find(users, ById(who.id))
      case None => Reply(404, "User not found")
      case Some(i) =>
        if users[i].password == "" then Reply(400, "Password is missing in user data")
        else if !Compare(oldPassword, users[i].password) then Reply(400, "Old password is incorrect")
        else Reply(200, "Password changed successfully")
  }

  /** After a successful change the new password is the one accepted, and the old one no longer is (unless they are the same). */
  lemma ChangedPasswordAccepted(stored: string, oldPassword: string, newPassword: string, attempt: string)
    requires Compare(oldPassword, stored)
    ensures Compare(attempt, Hash(newPassword)) <==> attempt == newPassword
    ensures oldPassword != newPassword ==> !Compare(oldPassword, Hash(newPassword))
  {
    CompareExactly(attempt, newPassword);
    CompareExactly(oldPassword, newPassword);
  }

  /** The stored path of an accepted upload: multer's destination joined with the generated file name. */
  function PhotoOf(upload: Option<Upload>, now: nat): (photo: Option<string>)
    ensures photo.Some? <==> upload.Some?
    ensures upload.Some? ==>
      Multer.Destination <= photo.value &&
      Multer.Basename(photo.value) == Multer.Filename(now, upload.value.originalname) &&
      Multer.Extname(photo.value) == Multer.Extname(upload.value.originalname)
  {
    if upload.Some? then
      Multer.StoredPath(now, upload.value.originalname);
      Some(Multer.Destination + Multer.Filename(now, upload.value.originalname))
    else None
  }

  /** The image-only filter turns the upload away. */
  predicate UploadRefused(upload: Option<Upload>)
  {
    upload.Some? && Multer.ImageOnlyFilter(upload.value.mimetype).Reject?
  }

  /** The new email already belongs to another document, so the unique index makes `save()` throw. */
  predicate EmailTakenByOther(users: seq<User>, i: nat, email: string)
  {
    email != "" && exists j :: 0 <= j < |users| && j != i && users[j].email == email
  }

  /** The reply `updateUser` sends. */
  function UpdateUserReply(who: Session.Identity, users: seq<User>, email: string, upload: Option<Upload>): (r: Reply)
    ensures UploadRefused(upload) ==> r == Reply(500, Multer.ImageOnlyFilter(upload.value.mimetype).message)
    ensures r.status == 200 <==>
      !UploadRefused(upload) && who.Caller? && Find(users, ById(who.id)).Some? &&
      !EmailTakenByOther(users, Find(users, ById(who.id)).value, email)
    ensures !UploadRefused(upload) && who.Caller? && Find(users, ById(who.id)).None? ==> r == Reply(401, "User not found")
  {
    if UploadRefused(upload) then Reply(500, Multer.ImageOnlyFilter(upload.value.mimetype).message)
    else
      match Session.Admit(who, Reply(401, "Unauthorized , token not provided"), Session.InternalError)
      case Denied(r) => r
      case Granted(id) =>
        match Find(users, ById(id))
        case None => Reply(401, "User not found")
        case Some(i) =>
          if EmailTakenByOther(users, i, email) then Session.InternalError
          else Reply(200, "Updated successfully")
  }

  /** A profile update the unique index lets through keeps the emails unique. */
  lemma ProfileKeepsUnique(users: seq<User>, i: nat, u: User)
    requires EmailsUnique(users) && i < |users|
    requires u.email == users[i].email || (u.email != "" && !EmailTakenByOther(users, i, u.email))
    ensures EmailsUnique(users[i := u])
  {
    var r := users[i := u];
    forall a, b | 0 <= a < b < |r| ensures r[a].email != r[b].email {
      if a == i {
        assert r[b] == users[b];
      } else if b == i {
        assert r[a] == users[a];
      }
    }
  }

  class UserStore {
    var users: seq<User>

    ghost predicate Valid()
      reads this
    {
      EmailsUnique(users)
    }

    constructor (users: seq<User>)
      requires EmailsUnique(users)
      ensures Valid() && this.users == users
    {
      this.users := users;
    }

    /** `getUsers`: one user by id or email, or the whole listing without passwords. */
    method GetUsers(id: string, email: string) returns (reply: Reply, data: seq<User>)
      ensures id != "" || email != "" ==>
        match FindUser(users, id, email)
        case Err(_) => reply == Reply(500, "Error occurred while fetching users") && data == []
        case Ok(None) => reply == Reply(404, "User not found") && data == []
        case Ok(Some(i)) => reply.status == 200 && data == [users[i]]
      ensures id == "" && email == "" ==>
        (reply.status == 404 <==> users == []) &&
        (users != [] ==> (reply.status == 200 && |data| == |users| &&
                          forall k :: 0 <= k < |data| ==> data[k].password == "" && data[k] == users[k].(password := "")))
    {
      if id != "" || email != "" {
        var found := FindUser(users, id, email);
        match found
        case Err(_) => reply, data := Reply(500, "Error occurred while fetching users"), [];
        case Ok(None) => reply, data := Reply(404, "User not found"), [];
        case Ok(Some(i)) => reply, data := Reply(200, ""), [users[i]];
      } else {
        var list := Listing(users);
        if |list| == 0 {
          reply, data := Reply(404, "No users found"), [];
        } else {
          reply, data := Reply(200, ""), list;
        }
      }
    }

    /** `deleteAccount`: remove the caller's own document. */
    method DeleteAccount(who: Session.Identity) returns (reply: Reply)
      requires Valid()
      modifies this
      ensures Valid()
      ensures who == Session.NoToken ==> reply == Reply(401, "Unauthorized, no token provided") && users == old(users)
      ensures who == Session.BadToken ==>
        reply == Reply(500, "Internal server error while deleting the account") && users == old(users)
      ensures who.Caller? ==>
        match Find(old(users), ById(who.id))
        case None => reply == Reply(404, "User not found") && users == old(users)
        case Some(i) => reply == Reply(200, "Account deleted successfully") && users == old(users)[..i] + old(users)[i + 1..]
    {
      match Session.Admit(who, Reply(401, "Unauthorized, no token provided"),
                          Reply(500, "Internal server error while deleting the account"))
      case Denied(r) => reply := r;
      case Granted(id) =>
        var found := Find(users, ById(id));
        if found.None? {
          reply := Reply(404, "User not found");
        } else {
          var i := found.value;
          RemoveKeepsUnique(users, i);
          users := users[..i] + users[i + 1..];
          reply := Reply(200, "Account deleted successfully");
        }
    }

    /**
     * `updateUser`: multer's image-only filter runs first and ends the request
     * with its error; then the token, the user, the field-by-field overwrite
     * and `save()`.
     */
    method UpdateUser(who: Session.Identity, email: string, name: string, phone: string,
                      upload: Option<Upload>, now: nat) returns (reply: Reply)
      requires Valid()
      modifies this
      ensures Valid()
      ensures reply == UpdateUserReply(who, old(users), email, upload)
      ensures reply.status == 200 ==>
        var i := Find(old(users), ById(who.id)).value;
        users == old(users)[i := Profile(old(users)[i], email, name, phone, PhotoOf(upload, now))]
      ensures reply.status != 200 ==> users == old(users)
    {
      if upload.Some? {
        var verdict := Multer.ImageOnlyFilter(upload.value.mimetype);
        if verdict.Reject? {
          return Reply(500, verdict.message);
        }
      }
      match Session.Admit(who, Reply(401, "Unauthorized , token not provided"), Session.InternalError)
      case Denied(r) => reply := r;
      case Granted(id) =>
        var found := Find(users, ById(id));
        if found.None? {
          return Reply(401, "User not found");
        }
        var i := found.value;
        var u := Profile(users[i], email, name, phone, PhotoOf(upload, now));
        if EmailTakenByOther(users, i, email) {
          return Session.InternalError;
        }
        ProfileKeepsUnique(users, i, u);
        users := users[i := u];
        reply := Reply(200, "Updated successfully");
    }

    /** `updateSpecificFields`: build the patch key by key; refuse an empty one before looking the user up. */
    method UpdateSpecificFields(who: Session.Identity, language: string,
                                isBiometric: Option<bool>, isTwoFactor: Option<bool>) returns (reply: Reply)
      requires Valid()
      modifies this
      ensures Valid()
      ensures who == Session.NoToken ==> reply == Reply(401, "Unauthorized, token not provided")
      ensures who == Session.BadToken ==> reply == Reply(500, "Error updating user fields")
      ensures who.Caller? && BuildPatch(language, isBiometric, isTwoFactor) == EmptyPatch ==>
        reply == Reply(400, "No valid fields provided to update")
      ensures (who.Caller? && BuildPatch(language, isBiometric, isTwoFactor) != EmptyPatch &&
               Find(old(users), ById(who.id)).None?) ==> reply == Reply(404, "User not found")
      ensures reply.status == 200 <==>
        who.Caller? && BuildPatch(language, isBiometric, isTwoFactor) != EmptyPatch && Find(old(users), ById(who.id)).Some?
      ensures reply.status == 200 ==>
        var i := Find(old(users), ById(who.id)).value;
        users == old(users)[i := ApplyPatch(old(users)[i], BuildPatch(language, isBiometric, isTwoFactor))]
      ensures reply.status != 200 ==> users == old(users)
    {
      match Session.Admit(who, Reply(401, "Unauthorized, token not provided"), Reply(500, "Error updating user fields"))
      case Denied(r) => reply := r;
      case Granted(id) =>
        var update := EmptyPatch;
        if language != "" { update := update.(language := Some(language)); }
        if isBiometric.Some? { update := update.(isBiometric := isBiometric); }
        if isTwoFactor.Some? { update := update.(isTwoFactor := isTwoFactor); }
        assert update == BuildPatch(language, isBiometric, isTwoFactor);
        if update == EmptyPatch {
          return Reply(400, "No valid fields provided to update");
        }
        var found := Find(users, ById(id));
        if found.None? {
          return Reply(404, "User not found");
        }
        var i := found.value;
        UpdateKeepsUnique(users, i, ApplyPatch(users[i], update));
        users := users[i := ApplyPatch(users[i], update)];
        reply := Reply(200, "User updated successfully");
    }

    /** `changePassword`: replace the stored hash once the old password checks out. */
    method ChangePassword(who: Session.Identity, secretDefined: bool, oldPassword: string, newPassword: string)
      returns (reply: Reply)
      requires Valid()
      modifies this
      ensures Valid()
      ensures reply == ChangePasswordReply(who, secretDefined, old(users), oldPassword, newPassword)
      ensures reply.status == 200 ==>
        var i := Find(old(users), ById(who.id)).value;
        users == old(users)[i := old(users)[i].(password := Hash(newPassword))]
      ensures reply.status != 200 ==> users == old(users)
    {
      reply := ChangePasswordReply(who, secretDefined, users, oldPassword, newPassword);
      if reply.status == 200 {
        var i := Find(users, ById(who.id)).value;
        var u := users[i];
        var hashedNewPassword := Hash(newPassword);
        u := u.(password := hashedNewPassword);
        UpdateKeepsUnique(users, i, u);
        users := users[i := u];
      }
    }
  }
}
