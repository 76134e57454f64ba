/**
 * The vault handlers of src/controllers/vault.controller.ts (compiled copy
 * dist/controllers/vault.controller.js, identical in behaviour): create, list
 * one's own, update, delete, and list all.
 *
 * Each handler receives `who`, the preamble's reading of the request's token
 * (`Session.Identify`). The vault id comes from the route as a string; one
 * Mongoose cannot cast makes `findById` throw, and the `catch` answers 500.
 */
module VaultController {
  import opened Common
  import opened UsersModel
  import opened VaultsModel
  import Session

  /** The request body shared by create and update. */
  datatype VaultFields = VaultFields(
    category: string,
    siteAddress: string,
    username: string,
    password: string,
    secure: string,
    tags: Option<seq<string>>)

  /** The preamble every vault handler shares: a token naming an existing user. */
  function Gate(who: Session.Identity, users: seq<User>): (g: Session.Access)
    ensures who == Session.NoToken ==> g == Session.Denied(Reply(401, "Unauthorized, token not provided"))
    ensures who == Session.BadToken ==> g == Session.Denied(Session.InternalError)
    ensures g.Granted? <==> who.Caller? && Find(users, ById(who.id)).Some?
    ensures g.Granted? ==> g.id == who.id
    ensures who.Caller? && g.Denied? ==> g.reply == Reply(401, "User not found")
  {
    match Session.Admit(who, Reply(401, "Unauthorized, token not provided"), Session.InternalError)
    case Denied(r) => Session.Denied(r)
    case Granted(id) =>
      if Find(users, ById(id)).Some? then Session.Granted(id) else Session.Denied(Reply(401, "User not found"))
  }

  /** The create handler's validation: every required field present and a known category. */
  predicate CreateFieldsOk(f: VaultFields)
  {
    f.category != "" && f.siteAddress != "" && f.username != "" && f.password != "" &&
    IsCategory(f.category)
  }

  /** The reply `createVault` sends. */
  function CreateReply(who: Session.Identity, users: seq<User>, f: VaultFields): (r: Reply)
    ensures r.status == 201 <==> Gate(who, users).Granted? && CreateFieldsOk(f)
    ensures r.status == 400 <==> Gate(who, users).Granted? && !CreateFieldsOk(f)
    ensures Gate(who, users).Denied? ==> r == Gate(who, users).reply
  {
    match Gate(who, users)
    case Denied(reply) => reply
    case Granted(_) =>
      if !CreateFieldsOk(f) then Reply(400, "Invalid or missing required fields")
      else Reply(201, "Vault created successfully")
  }

  /** The vault `updateVault` saves: each field replaced only by a truthy request value, the password re-hashed only when one is supplied. */
  function Merge(v: Vault, f: VaultFields): (r: Vault)
    ensures r.(category := v.category, siteAddress := v.siteAddress, username := v.username,
               password := v.password, secureGeneratedPassword := v.secureGeneratedPassword, tags := v.tags) == v
    ensures f.password != "" ==> Compare(f.password, r.password)
  {
    v.(category := OrElse(f.category, v.category),
       siteAddress := OrElse(f.siteAddress, v.siteAddress),
       username := OrElse(f.username, v.username),
       password := if f.password != "" then Hash(f.password) else v.password,
       secureGeneratedPassword := OrElse(f.secure, v.secureGeneratedPassword),
       tags := OrElseList(f.tags, v.tags))
  }

  /** Where `Vault.findById(vaultId)` leaves the handler. */
  datatype Located = Unparsable | Missing | Here(index: nat)

  function Locate(vaults: seq<Vault>, vaultId: string): (r: Located)
    ensures r == Unparsable <==> ParseId(vaultId).None?
    ensures r == Missing <==> ParseId(vaultId).Some? && FindVault(vaults, ParseId(vaultId).value).None?
    ensures r.Here? ==> r.index < |vaults| && vaults[r.index].id == ParseId(vaultId).value
  {
    match ParseId(vaultId)
    case None => Unparsable
    case Some(id) =>
      match FindVault(vaults, id)
      case None => Missing
      case Some(i) => Here(i)
  }

  /** The reply `updateVault` sends; a merged category outside the enum fails the schema on `save()`. */
  function UpdateReply(who: Session.Identity, users: seq<User>, vaults: seq<Vault>, vaultId: string, f: VaultFields): (r: Reply)
    ensures Gate(who, users).Denied? ==> r == Gate(who, users).reply
    ensures Gate(who, users).Granted? && Locate(vaults, vaultId) == Unparsable ==> r == Session.InternalError
    ensures r.status == 404 <==> Gate(who, users).Granted? && Locate(vaults, vaultId) == Missing
    ensures r.status == 403 <==> Gate(who, users).Granted? && Locate(vaults, vaultId).Here? &&
                                 vaults[Locate(vaults, vaultId).index].userId != who.id
    ensures r.status == 200 <==> Gate(who, users).Granted? && Locate(vaults, vaultId).Here? &&
                                 vaults[Locate(vaults, vaultId).index].userId == who.id &&
                                 IsCategory(Merge(vaults[Locate(vaults, vaultId).index], f).category)
  {
    match Gate(who, users)
    case Denied(reply) => reply
    case Granted(id) =>
      match Locate(vaults, vaultId)
      case Unparsable => Session.InternalError
      case Missing => Reply(404, "Vault not found")
      case Here(i) =>
        if vaults[i].userId != id then Reply(403, "Forbidden: You do not own this vault")
        else if !IsCategory(Merge(vaults[i], f).category) then Session.InternalError
        else Reply(200, "Vault updated successfully")
  }

  /** The reply `deleteVault` sends. */
  function DeleteReply(who: Session.Identity, users: seq<User>, vaults: seq<Vault>, vaultId: string): (r: Reply)
    ensures Gate(who, users).Denied? ==> r == Gate(who, users).reply
    ensures Gate(who, users).Granted? && Locate(vaults, vaultId) == Unparsable ==> r == Session.InternalError
    ensures r.status == 404 <==> Gate(who, users).Granted? && Locate(vaults, vaultId) == Missing
    ensures r.status == 403 <==> Gate(who, users).Granted? && Locate(vaults, vaultId).Here? &&
                                 vaults[Locate(vaults, vaultId).index].userId != who.id
    ensures r.status == 200 <==> Gate(who, users).Granted? && Locate(vaults, vaultId).Here? &&
                                 vaults[Locate(vaults, vaultId).index].userId == who.id
  {
    match Gate(who, users)
    case Denied(reply) => reply
    case Granted(id) =>
      match Locate(vaults, vaultId)
      case Unparsable => Session.InternalError
      case Missing => Reply(404, "Vault not found")
      case Here(i) =>
        if vaults[i].userId != id then Reply(403, "Forbidden: You do not own this vault")
        else Reply(200, "Vault deleted successfully")
  }

  /** Ids are distinct and below the next one, and every stored vault passed the schema. */
  ghost predicate StoreOk(vaults: seq<Vault>, next: nat)
  {
    (forall k :: 0 <= k < |vaults| ==> Saveable(vaults[k]) && vaults[k].id < next) &&
    (forall a, b :: 0 <= a < b < |vaults| ==> vaults[a].id != vaults[b].id)
  }

  class VaultStore {
    var users: seq<User>
    var vaults: seq<Vault>
    var nextId: nat

    ghost predicate Valid()
      reads this
    {
      StoreOk(vaults, nextId)
    }

    constructor (users: seq<User>)
      ensures Valid() && this.users == users && vaults == []
    {
      this.users := users;
      vaults := [];
      nextId := 0;
    }

    /** `createVault`. */
    method CreateVault(who: Session.Identity, f: VaultFields) returns (reply: Reply)
      requires Valid()
      modifies this
      ensures Valid() && users == old(users)
      ensures reply == CreateReply(who, old(users), f)
      ensures reply.status == 201 ==>
        vaults == old(vaults) + [NewVault(old(nextId), who.id, f.category, f.siteAddress, f.username,
                                          Hash(f.password), f.secure, f.tags)] &&
        nextId == old(nextId) + 1
      ensures reply.status != 201 ==> vaults == old(vaults) && nextId == old(nextId)
    {
      reply := CreateReply(who, users, f);
      if reply.status == 201 {
        var hashed := Hash(f.password);
        var v := NewVault(nextId, who.id, f.category, f.siteAddress, f.username, hashed, f.secure, f.tags);
        vaults := vaults + [v];
        nextId := nextId + 1;
      }
    }

    /** `getUserVaults`: the caller's own vaults. */
    method GetUserVaults(who: Session.Identity) returns (reply: Reply, list: seq<Vault>)
      ensures Gate(who, users).Denied? ==> reply == Gate(who, users).reply && list == []
      ensures Gate(who, users).Granted? ==> reply.status == 200
      ensures Gate(who, users).Granted? ==> forall v :: v in list <==> v in vaults && v.userId == who.id
    {
      match Gate(who, users)
      case Denied(r) => reply, list := r, [];
      case Granted(id) => reply, list := Reply(200, ""), OwnedBy(vaults, id);
    }

    /** `updateVault`: overwrite the vault's fields one by one, then save. */
    method UpdateVault(who: Session.Identity, vaultId: string, f: VaultFields) returns (reply: Reply)
      requires Valid()
      modifies this`vaults
      ensures Valid()
      ensures reply == UpdateReply(who, users, old(vaults), vaultId, f)
      ensures reply.status == 200 ==>
        var i := Locate(old(vaults), vaultId).index;
        vaults == old(vaults)[i := Merge(old(vaults)[i], f)]
      ensures reply.status != 200 ==> vaults == old(vaults)
    {
      reply := UpdateReply(who, users, vaults, vaultId, f);
      if reply.status != 200 {
        return;
      }
      var i := Locate(vaults, vaultId).index;
      var v := vaults[i];
      var updatedPassword := v.password;
      if f.password != "" {
        updatedPassword := Hash(f.password);
      }
      v := v.(category := if f.category != "" then f.category else v.category,
              siteAddress := if f.siteAddress != "" then f.siteAddress else v.siteAddress,
              username := if f.username != "" then f.username else v.username,
              password := updatedPassword,
              secureGeneratedPassword := if f.secure != "" then f.secure else v.secureGeneratedPassword,
              tags := if f.tags.Some? then f.tags else v.tags);
      assert v == Merge(vaults[i], f);
      MergeSaveable(vaults[i], f);
      ReplaceKeepsStore(vaults, nextId, i, v);
      vaults := vaults[i := v];
    }

    /** `deleteVault`: remove the vault once existence and ownership are established. */
    method DeleteVault(who: Session.Identity, vaultId: string) returns (reply: Reply)
      requires Valid()
      modifies this`vaults
      ensures Valid()
      ensures reply == DeleteReply(who, users, old(vaults), vaultId)
      ensures reply.status == 200 ==>
        var i := Locate(old(vaults), vaultId).index;
        vaults == old(vaults)[..i] + old(vaults)[i + 1..]
      ensures reply.status != 200 ==> vaults == old(vaults)
    {
      reply := DeleteReply(who, users, vaults, vaultId);
      if reply.status == 200 {
        var i := Locate(vaults, vaultId).index;
        RemoveKeepsStore(vaults, nextId, i);
        vaults := vaults[..i] + vaults[i + 1..];
      }
    }

    /** `getAllVaults`: every vault, or 404 when there are none. */
    method GetAllVaults() returns (reply: Reply, list: seq<Vault>)
      ensures reply.status == 404 <==> vaults == []
      ensures reply.status == 200 <==> vaults != []
      ensures list == if vaults == [] then [] else vaults
    {
      if |vaults| == 0 {
        reply, list := Reply(404, "No vaults found"), [];
      } else {
        reply, list := Reply(200, "Vaults retrieved successfully"), vaults;
      }
    }
  }

  /** A merge the schema accepts keeps a saveable vault saveable: the `||` fallbacks never blank a required field. */
  lemma MergeSaveable(v: Vault, f: VaultFields)
    requires Saveable(v) && IsCategory(Merge(v, f).category)
    ensures Saveable(Merge(v, f))
  {
  }

  /** Update never changes a vault's id, owner, icon or like flag, and takes each field from the request exactly when that value is truthy. */
  lemma MergeFields(v: Vault, f: VaultFields)
    ensures var m := Merge(v, f);
      m.id == v.id && m.userId == v.userId && m.icon == v.icon && m.isLiked == v.isLiked &&
      (m.category == if f.category != "" then f.category else v.category) &&
      (m.siteAddress == if f.siteAddress != "" then f.siteAddress else v.siteAddress) &&
      (m.username == if f.username != "" then f.username else v.username) &&
      (m.secureGeneratedPassword == if f.secure != "" then f.secure else v.secureGeneratedPassword) &&
      (m.tags == if f.tags.Some? then f.tags else v.tags)
  {
  }

  /** The stored hash changes only when a new password is supplied, and then it verifies that password and no other. */
  lemma MergePassword(v: Vault, f: VaultFields, attempt: string)
    ensures f.password == "" ==> Merge(v, f).password == v.password
    ensures f.password != "" ==> (Compare(attempt, Merge(v, f).password) <==> attempt == f.password)
  {
    if f.password != "" {
      CompareExactly(attempt, f.password);
    }
  }

  /** A created vault stores a hash, never the plaintext, and the hash accepts exactly the submitted password. */
  lemma CreateStoresHash(f: VaultFields, id: nat, owner: nat, attempt: string)
    ensures var v := NewVault(id, owner, f.category, f.siteAddress, f.username, Hash(f.password), f.secure, f.tags);
      v.userId == owner && v.password != f.password && (Compare(attempt, v.password) <==> attempt == f.password)
  {
    CompareExactly(attempt, f.password);
    assert |Hash(f.password)| == |f.password| + 4;
  }

  /** Sending the same update twice leaves the vault as one update did; an empty update changes nothing. */
  lemma MergeIdempotent(v: Vault, f: VaultFields)
    ensures Merge(Merge(v, f), f) == Merge(v, f)
    ensures f == VaultFields("", "", "", "", "", None) ==> Merge(v, f) == v
  {
  }

  /** Replacing one vault by a saveable one with the same id keeps the store's invariant. */
  lemma ReplaceKeepsStore(vaults: seq<Vault>, next: nat, i: nat, v: Vault)
    requires StoreOk(vaults, next) && i < |vaults| && Saveable(v) && v.id == vaults[i].id
    ensures StoreOk(vaults[i := v], next)
  {
  }

  /** Removing one vault keeps the store's invariant. */
  lemma RemoveKeepsStore(vaults: seq<Vault>, next: nat, i: nat)
    requires StoreOk(vaults, next) && i < |vaults|
    ensures StoreOk(vaults[..i] + vaults[i + 1..], next)
  {
    var r := vaults[..i] + vaults[i + 1..];
    forall a, b | 0 <= a < b < |r| ensures r[a].id != r[b].id {
      var a' := if a < i then a else a + 1;
      var b' := if b < i then b else b + 1;
      assert r[a] == vaults[a'] && r[b] == vaults[b'];
    }
    forall k | 0 <= k < |r| ensures Saveable(r[k]) && r[k].id < next {
      assert r[k] == vaults[if k < i then k else k + 1];
    }
  }

  /** Only the owner can change or remove a vault: for anyone else both handlers answer 403 or earlier. */
  lemma NonOwnerCannotTouch(who: Session.Identity, users: seq<User>, vaults: seq<Vault>, vaultId: string, f: VaultFields)
    requires Locate(vaults, vaultId).Here?
    requires who.Caller? ==> vaults[Locate(vaults, vaultId).index].userId != who.id
    ensures UpdateReply(who, users, vaults, vaultId, f).status != 200
    ensures DeleteReply(who, users, vaults, vaultId).status != 200
  {
  }
}
