/** The `User` schema of models/user.js: the stored document and the checks its
    validators (and the unique-email plugin) make on every `save`. */
module UserModel {
  import opened Common

  type UserId = string
  type SnapId = string

  /** A user document. `snaps` is the back-reference: ids of the snaps it created. */
  datatype User = User(
    name: Option<string>,
    email: Option<string>,
    password: Option<string>,
    motto: Option<string>,
    image: Option<string>,
    snaps: seq<SnapId>)

  const MinPasswordLength: nat := 8

  /** A string's JavaScript `length`: UTF-16 code units, two for a character
      outside the Basic Multilingual Plane. */
  function Utf16Length(s: string): (n: nat)
    ensures |s| <= n <= 2 * |s|
    ensures (forall i | 0 <= i < |s| :: s[i] as int <= 0xFFFF) ==> n == |s|
  {
    if |s| == 0 then 0
    else (if s[0] as int > 0xFFFF then 2 else 1) + Utf16Length(s[1..])
  }

  /** Four emoji make a password of length 8, which `minlength: 8` accepts. */
  lemma AstralPasswordLength()
    ensures Utf16Length("\U{1F600}\U{1F600}\U{1F600}\U{1F600}") == 8
  {
    var s := "\U{1F600}\U{1F600}\U{1F600}\U{1F600}";
    assert s[1..][1..][1..][1..] == [];
  }

  /** Each entry of `snaps` is required: an empty id cannot be cast to an ObjectId. */
  predicate NoMissingIds(ids: seq<SnapId>)
  {
    forall i | 0 <= i < |ids| :: ids[i] != ""
  }

  /** The per-document validators: five required strings, `minlength: 8` on the
      password, and required entries in `snaps`. */
  predicate ValidUser(u: User)
  {
    && Present(u.name)
    && Present(u.email)
    && Present(u.password) && Utf16Length(u.password.value) >= MinPasswordLength
    && Present(u.motto)
    && Present(u.image)
    && NoMissingIds(u.snaps)
  }

  /** The unique index on `email`: no two stored users share one. */
  predicate EmailsUnique(users: map<UserId, User>)
  {
    forall a, b | a in users && b in users && a != b :: users[a].email != users[b].email
  }

  /** `save` of document `u` under id `uid` passes: the document validates and no
      other stored user has its email. */
  predicate SaveAccepted(users: map<UserId, User>, uid: UserId, u: User)
  {
    ValidUser(u) && forall other | other in users && other != uid :: users[other].email != u.email
  }

  /** A save that passes keeps emails unique across the collection. */
  lemma SaveKeepsEmailsUnique(users: map<UserId, User>, uid: UserId, u: User)
    requires EmailsUnique(users)
    requires SaveAccepted(users, uid, u)
    ensures EmailsUnique(users[uid := u])
  {
  }
}
