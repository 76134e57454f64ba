/**
 * The Vault collection of src/models/vaults.model.ts: one stored credential
 * per document, owned by a user, filed under one of three categories.
 */
module VaultsModel {
  import opened Common

  /** The schema's `enum` on `vault_category`. */
  predicate IsCategory(s: string)
  {
    s == "browser" || s == "mobile" || s == "other"
  }

  datatype Vault = Vault(
    id: nat,
    userId: nat,
    category: string,
    siteAddress: string,
    username: string,
    password: string,                 // hash of the stored credential
    secureGeneratedPassword: string,
    tags: Option<seq<string>>,
    icon: string,
    isLiked: bool)

  /**
   * What the schema lets `save()` write: a category from the enum and the
   * required strings present (Mongoose's `required` refuses "").
   */
  predicate Saveable(v: Vault)
  {
    IsCategory(v.category) && v.siteAddress != "" && v.username != "" && v.password != ""
  }

  /**
   * `new Vault({...})`: the optional fields not given take their defaults;
   * an array path such as `tags` defaults to `[]`.
   */
  function NewVault(id: nat, owner: nat, category: string, site: string, username: string,
                    passwordHash: string, secure: string, tags: Option<seq<string>>): (v: Vault)
    ensures v.id == id && v.userId == owner && !v.isLiked && v.icon == ""
    ensures v.tags == if tags.Some? then tags else Some([])
    ensures IsCategory(category) && site != "" && username != "" && passwordHash != "" ==> Saveable(v)
  {
    Vault(id, owner, category, site, username, passwordHash, secure, OrElseList(tags, Some([])), "", false)
  }

  /** Position of the vault with the given id (`findById`). */
  function FindVault(vaults: seq<Vault>, id: nat): (r: Option<nat>)
    ensures r.Some? ==> r.value < |vaults| && vaults[r.value].id == id
    ensures r.None? ==> forall j :: 0 <= j < |vaults| ==> vaults[j].id != id
  {
    if |vaults| == 0 then None
    else if vaults[0].id == id then Some(0)
    else
      match FindVault(vaults[1..], id)
      case None => None
      case Some(j) => Some(j + 1)
  }

  /** `Vault.find({ user_id })`: the caller's vaults, in stored order. */
  function OwnedBy(vaults: seq<Vault>, owner: nat): (r: seq<Vault>)
    ensures forall k :: 0 <= k < |r| ==> r[k].userId == owner
    ensures forall v :: v in r <==> v in vaults && v.userId == owner
    ensures |r| <= |vaults|
  {
    if |vaults| == 0 then []
    else if vaults[0].userId == owner then [vaults[0]] + OwnedBy(vaults[1..], owner)
    else OwnedBy(vaults[1..], owner)
  }

  /** A vault added to the store shows up in its owner's listing, last, and in no one else's. */
  lemma {:induction false} OwnedByAppend(vaults: seq<Vault>, v: Vault, owner: nat)
    ensures OwnedBy(vaults + [v], owner) == OwnedBy(vaults, owner) + (if v.userId == owner then [v] else [])
  {
    if |vaults| > 0 {
      assert (vaults + [v])[1..] == vaults[1..] + [v];
      OwnedByAppend(vaults[1..], v, owner);
    } else {
      assert [v][1..] == [];
    }
  }
}
