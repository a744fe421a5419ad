/** The snap handlers of controllers/snaps-controllers.js over the two stored
    collections, `snaps` and `users`. Create and delete write both collections in
    one transaction; update writes one snap; the two reads only look. */
module SnapsControllers {
  import opened Common
  import opened UserModel
  import opened SnapModel

  /** A stored snap as a handler answers with it: its id and its document. */
  datatype Entry = Entry(id: SnapId, snap: Snap)

  /** Which storage calls throw during one request: a lookup (`findById`, `find`),
      the write to the snap (`save`, `remove`), the write to the user (`save`). */
  datatype Faults = Faults(readFails: bool, snapWriteFails: bool, userWriteFails: bool)

  const InvalidInputs := HttpError("Invalid inputs. Please enter correct information.", 422)
  const CreateFailed := HttpError("Creating snap failed, please try again.", 500)
  const CreatorNotFound := HttpError("Could not find user for provided id", 404)
  const FindSnapFailed := HttpError("Something went wrong, could not find a snap.", 500)
  const SnapNotFound := HttpError("Could not find the snap for the provided id.", 404)
  const FindUserSnapsFailed := HttpError("Something went wrong, could not find snaps for this user.", 500)
  const UserSnapsNotFound := HttpError("Could not find snaps for the provided user id.", 404)
  const UpdateFailed := HttpError("Something went wrong, could not update snap", 500)
  const UpdateNotFound := HttpError("Could not find the snap.", 404)
  const EditForbidden := HttpError("You are not allowed to edit this snap.", 401)
  const DeleteFailed := HttpError("Something went wrong, could not delete snap", 500)
  const DeleteNotFound := HttpError("Could not find the snap for the id.", 404)
  const DeleteForbidden := HttpError("You are not allowed to delete this snap.", 401)
  const Deleted := "You have successfully deleted the snap."

  /** The relationship between the collections: each snap's creator is a stored
      user whose `snaps` lists it, and each id a user lists is a stored snap of
      that user. */
  ghost predicate Linked(snaps: map<SnapId, Snap>, users: map<UserId, User>)
  {
    && (forall sid | sid in snaps ::
          && snaps[sid].creator.Some?
          && snaps[sid].creator.value in users
          && sid in users[snaps[sid].creator.value].snaps)
    && (forall uid, i | uid in users && 0 <= i < |users[uid].snaps| ::
          && users[uid].snaps[i] in snaps
          && snaps[users[uid].snaps[i]].creator == Some(uid))
  }

  /** What the store keeps across requests: the relationship, and every document
      as its schema accepts it (all writes go through validation). */
  ghost predicate StoreValid(snaps: map<SnapId, Snap>, users: map<UserId, User>)
  {
    && Linked(snaps, users)
    && (forall sid | sid in snaps :: ValidSnap(snaps[sid]))
    && (forall uid | uid in users :: ValidUser(users[uid]))
    && EmailsUnique(users)
  }

  /** `pull(id)` on a Mongoose array: every occurrence of `id` goes, the rest stays in order. */
  function Pull(ids: seq<SnapId>, id: SnapId): (r: seq<SnapId>)
    ensures forall x :: x in r <==> x in ids && x != id
    ensures id !in ids ==> r == ids
  {
    if |ids| == 0 then []
    else
      assert ids == [ids[0]] + ids[1..];
      if ids[0] == id then Pull(ids[1..], id) else [ids[0]] + Pull(ids[1..], id)
  }

  /** The pull removes every occurrence of the id and keeps every other id as often
      as it was there. */
  lemma {:induction false} PullCounts(ids: seq<SnapId>, id: SnapId)
    ensures multiset(Pull(ids, id)) == multiset(ids)[id := 0]
  {
    if |ids| > 0 {
      assert ids == [ids[0]] + ids[1..];
      PullCounts(ids[1..], id);
    }
  }

  /** The pull works element by element, so the kept ids stay in their order. */
  lemma {:induction false} PullAppend(a: seq<SnapId>, b: seq<SnapId>, id: SnapId)
    ensures Pull(a + b, id) == Pull(a, id) + Pull(b, id)
  {
    if |a| > 0 {
      assert (a + b)[1..] == a[1..] + b;
      PullAppend(a[1..], b, id);
    } else {
      assert a + b == b;
    }
  }

  /** The document `new Snap({...})` builds, with the uploaded file's path in the
      schema's `imageUrl` field and the authenticated user as creator. */
  function CreatedDoc(title: Option<string>, description: Option<string>, imagePath: string,
                      address: Option<string>, location: Location, userId: UserId): (s: Snap)
    ensures s.creator == Some(userId) && s.location == location && s.imageUrl == Some(imagePath)
    ensures ValidSnap(s) <==>
      && Present(title) && Present(description) && Present(address)
      && imagePath != "" && userId != ""
      && location.lat.Some? && location.lng.Some?
  {
    Snap(title, description, Some(imagePath), address, location, Some(userId))
  }

  /** The document as the handler writes it: the path goes in `image`, a field
      the schema does not declare, so the strict schema drops it. */
  function CreatedDocAsWritten(title: Option<string>, description: Option<string>, imagePath: string,
                               address: Option<string>, location: Location, userId: UserId): (s: Snap)
    ensures s.creator == Some(userId) && s.location == location
  {
    Snap(title, description, None, address, location, Some(userId))
  }

  /** As written, no document `createSnap` builds passes validation, so every
      request that gets as far as the transaction ends in a 500. */
  lemma CreateAsWrittenNeverSaves(title: Option<string>, description: Option<string>, imagePath: string,
                                  address: Option<string>, location: Location, userId: UserId)
    ensures !ValidSnap(CreatedDocAsWritten(title, description, imagePath, address, location, userId))
  {
  }

  /** `getSnapBySnapId`. */
  function GetSnapBySnapId(snaps: map<SnapId, Snap>, sid: SnapId, readFails: bool): (r: Reply<Entry>)
    ensures readFails ==> r == Err(FindSnapFailed)
    ensures !readFails ==> (r.Ok? <==> sid in snaps)
    ensures !readFails && sid !in snaps ==> r == Err(SnapNotFound)
    ensures r.Ok? ==> sid in snaps && r == Ok(200, Entry(sid, snaps[sid]))
  {
    if readFails then Err(FindSnapFailed)
    else if sid !in snaps then Err(SnapNotFound)
    else Ok(200, Entry(sid, snaps[sid]))
  }

  /** `getSnapsByUserId`: `Snap.find({ creator: uid })`, keyed by snap id. */
  function GetSnapsByUserId(snaps: map<SnapId, Snap>, uid: UserId, readFails: bool)
    : (r: Reply<map<SnapId, Snap>>)
    ensures readFails ==> r == Err(FindUserSnapsFailed)
    ensures !readFails ==>
      (r == Err(UserSnapsNotFound) <==> forall sid | sid in snaps :: snaps[sid].creator != Some(uid))
    ensures !readFails ==> (r.Ok? <==> exists sid :: sid in snaps && snaps[sid].creator == Some(uid))
    ensures r.Ok? ==>
      && r.status == 200
      && (forall sid :: sid in r.body <==> sid in snaps && snaps[sid].creator == Some(uid))
      && (forall sid | sid in r.body :: r.body[sid] == snaps[sid])
  {
    if readFails then Err(FindUserSnapsFailed)
    else
      var found := map sid | sid in snaps && snaps[sid].creator == Some(uid) :: snaps[sid];
      if found.Keys == {} then
        assert forall sid | sid in snaps :: sid !in found.Keys;
        Err(UserSnapsNotFound)
      else
        Ok(200, found)
  }

  /** The back-reference agrees with the query: a stored user's `snaps` list holds
      exactly the snaps whose creator it is, so the query finds some iff it is non-empty. */
  lemma BackReferenceMatchesQuery(snaps: map<SnapId, Snap>, users: map<UserId, User>, uid: UserId)
    requires Linked(snaps, users) && uid in users
    ensures forall sid :: sid in users[uid].snaps <==> sid in snaps && snaps[sid].creator == Some(uid)
    ensures GetSnapsByUserId(snaps, uid, false).Ok? <==> |users[uid].snaps| > 0
  {
    if |users[uid].snaps| > 0 {
      var sid := users[uid].snaps[0];
      assert sid in snaps && snaps[sid].creator == Some(uid);
    }
  }

  /** Inserting a snap and appending its id to its creator's list keeps the relationship. */
  lemma LinkedAfterCreate(snaps: map<SnapId, Snap>, users: map<UserId, User>,
                          sid: SnapId, doc: Snap, uid: UserId)
    requires Linked(snaps, users)
    requires sid !in snaps && uid in users && doc.creator == Some(uid)
    ensures Linked(snaps[sid := doc], users[uid := users[uid].(snaps := users[uid].snaps + [sid])])
  {
  }

  /** Every id left in the creator's list after the pull is another stored snap of
      that creator. */
  lemma PulledIdsStayLinked(snaps: map<SnapId, Snap>, users: map<UserId, User>, sid: SnapId)
    requires Linked(snaps, users) && sid in snaps
    ensures var uid := snaps[sid].creator.value;
      var pulled := Pull(users[uid].snaps, sid);
      forall i | 0 <= i < |pulled| :: pulled[i] in snaps - {sid} && snaps[pulled[i]].creator == Some(uid)
  {
    var uid := snaps[sid].creator.value;
    var pulled := Pull(users[uid].snaps, sid);
    forall i | 0 <= i < |pulled| ensures pulled[i] in snaps - {sid} && snaps[pulled[i]].creator == Some(uid) {
      var x := pulled[i];
      assert x in users[uid].snaps && x != sid;
      var j :| 0 <= j < |users[uid].snaps| && users[uid].snaps[j] == x;
    }
  }

  /** Removing a snap and pulling its id from its creator's list keeps the relationship. */
  lemma LinkedAfterDelete(snaps: map<SnapId, Snap>, users: map<UserId, User>, sid: SnapId)
    requires Linked(snaps, users) && sid in snaps
    ensures var uid := snaps[sid].creator.value;
      Linked(snaps - {sid}, users[uid := users[uid].(snaps := Pull(users[uid].snaps, sid))])
  {
    var uid := snaps[sid].creator.value;
    var snaps' := snaps - {sid};
    var users' := users[uid := users[uid].(snaps := Pull(users[uid].snaps, sid))];
    forall s | s in snaps'
      ensures snaps'[s].creator.Some? && snaps'[s].creator.value in users'
              && s in users'[snaps'[s].creator.value].snaps
    {
      var c := snaps[s].creator.value;
      assert s in users[c].snaps;
    }
    PulledIdsStayLinked(snaps, users, sid);
    forall u, i | u in users' && 0 <= i < |users'[u].snaps|
      ensures users'[u].snaps[i] in snaps' && snaps'[users'[u].snaps[i]].creator == Some(u)
    {
      var x := users'[u].snaps[i];
      if u == uid {
        assert x == Pull(users[uid].snaps, sid)[i];
      } else {
        assert x == users[u].snaps[i];
        assert x in snaps && snaps[x].creator == Some(u);
        assert x != sid;
      }
    }
  }

  /** A create that passes both saves leaves a valid store. */
  lemma StoreValidAfterCreate(snaps: map<SnapId, Snap>, users: map<UserId, User>,
                              sid: SnapId, doc: Snap, uid: UserId)
    requires StoreValid(snaps, users)
    requires sid !in snaps && uid in users && doc.creator == Some(uid) && ValidSnap(doc)
    requires SaveAccepted(users, uid, users[uid].(snaps := users[uid].snaps + [sid]))
    ensures StoreValid(snaps[sid := doc], users[uid := users[uid].(snaps := users[uid].snaps + [sid])])
  {
    LinkedAfterCreate(snaps, users, sid, doc, uid);
    SaveKeepsEmailsUnique(users, uid, users[uid].(snaps := users[uid].snaps + [sid]));
  }

  /** Under the store invariant, the creator's save in `createSnap` passes exactly
      when the new id is not empty. */
  lemma AppendSaveAccepted(snaps: map<SnapId, Snap>, users: map<UserId, User>, sid: SnapId, uid: UserId)
    requires StoreValid(snaps, users) && uid in users
    ensures SaveAccepted(users, uid, users[uid].(snaps := users[uid].snaps + [sid])) <==> sid != ""
  {
    var u := users[uid].(snaps := users[uid].snaps + [sid]);
    assert ValidUser(users[uid]);
    if sid == "" {
      assert u.snaps[|users[uid].snaps|] == "";
    } else {
      forall i | 0 <= i < |u.snaps| ensures u.snaps[i] != "" {
        if i < |users[uid].snaps| {
          assert u.snaps[i] == users[uid].snaps[i];
        }
      }
    }
  }

  /** The delete transaction's user save always passes on a valid store, and the
      store it leaves is valid. */
  lemma StoreValidAfterDelete(snaps: map<SnapId, Snap>, users: map<UserId, User>, sid: SnapId)
    requires StoreValid(snaps, users) && sid in snaps
    ensures var uid := snaps[sid].creator.value;
      var pulled := users[uid].(snaps := Pull(users[uid].snaps, sid));
      && SaveAccepted(users, uid, pulled)
      && StoreValid(snaps - {sid}, users[uid := pulled])
  {
    var uid := snaps[sid].creator.value;
    var pulled := users[uid].(snaps := Pull(users[uid].snaps, sid));
    assert ValidUser(users[uid]);
    forall i | 0 <= i < |pulled.snaps| ensures pulled.snaps[i] != "" {
      assert pulled.snaps[i] in users[uid].snaps;
    }
    assert SaveAccepted(users, uid, pulled);
    LinkedAfterDelete(snaps, users, sid);
    SaveKeepsEmailsUnique(users, uid, pulled);
  }

  /** Changing title and description of a stored snap keeps a valid store valid
      when the new document validates. */
  lemma StoreValidAfterUpdate(snaps: map<SnapId, Snap>, users: map<UserId, User>,
                              sid: SnapId, title: Option<string>, description: Option<string>)
    requires StoreValid(snaps, users) && sid in snaps
    ensures var updated := snaps[sid].(title := title, description := description);
      ValidSnap(updated) <==> Present(title) && Present(description)
    ensures var updated := snaps[sid].(title := title, description := description);
      ValidSnap(updated) ==> StoreValid(snaps[sid := updated], users)
  {
  }

  /** The two collections, and the image paths handed to `fs.unlink`. */
  class SnapStore {
    var snaps: map<SnapId, Snap>
    var users: map<UserId, User>
    /** Paths passed to `fs.unlink` after a delete committed, oldest first. */
    var unlinked: seq<string>

    ghost predicate Valid()
      reads this
    {
      StoreValid(snaps, users)
    }

    constructor (snaps0: map<SnapId, Snap>, users0: map<UserId, User>)
      requires StoreValid(snaps0, users0)
      ensures Valid() && snaps == snaps0 && users == users0 && unlinked == []
    {
      snaps, users, unlinked := snaps0, users0, [];
    }

    /** `createSnap`. `valid` is the verdict of the route's validators, `imagePath`
        the uploaded file's path, `userId` the identity `check-auth` attached,
        `geocoded` what the geocoder gave for `address`, `newId` the new snap's id. */
    method CreateSnap(valid: bool, title: Option<string>, description: Option<string>,
                      address: Option<string>, imagePath: string, userId: UserId,
                      geocoded: Result<Location>, newId: SnapId, faults: Faults)
      returns (r: Reply<Entry>)
      requires Valid()
      modifies this
      ensures Valid() && unlinked == old(unlinked)
      ensures r.Err? ==> snaps == old(snaps) && users == old(users)
      ensures !valid ==> r == Err(InvalidInputs)
      ensures valid && geocoded.Failure? ==> r == Err(geocoded.error)
      ensures valid && geocoded.Success? && faults.readFails ==> r == Err(CreateFailed)
      ensures valid && geocoded.Success? && !faults.readFails && userId !in old(users) ==>
        r == Err(CreatorNotFound)
      ensures valid && geocoded.Success? && !faults.readFails && userId in old(users) ==>
        var doc := CreatedDoc(title, description, imagePath, address, geocoded.value, userId);
        && (r.Ok? <==> !faults.snapWriteFails && !faults.userWriteFails
                       && newId !in old(snaps) && newId != "" && ValidSnap(doc))
        && (r.Err? ==> r == Err(CreateFailed))
      ensures r.Ok? ==>
        && valid && geocoded.Success? && userId in old(users)
        && var doc := CreatedDoc(title, description, imagePath, address, geocoded.value, userId);
        && r == Ok(201, Entry(newId, doc))
        && snaps == old(snaps)[newId := doc]
        && users == old(users)[userId := old(users)[userId].(snaps := old(users)[userId].snaps + [newId])]
    {
      if !valid {
        return Err(InvalidInputs);
      }
      if geocoded.Failure? {
        return Err(geocoded.error);
      }
      var createdSnap := CreatedDoc(title, description, imagePath, address, geocoded.value, userId);
      if faults.readFails {
        return Err(CreateFailed);
      }
      if userId !in users {
        return Err(CreatorNotFound);
      }
      var user := users[userId];
      // The transaction: the snap is saved first, then the user; nothing is
      // visible until both have passed.
      if faults.snapWriteFails || newId in snaps || !ValidSnap(createdSnap) {
        return Err(CreateFailed);
      }
      user := user.(snaps := user.snaps + [newId]);
      AppendSaveAccepted(snaps, users, newId, userId);
      if faults.userWriteFails || !SaveAccepted(users, userId, user) {
        return Err(CreateFailed);
      }
      StoreValidAfterCreate(snaps, users, newId, createdSnap, userId);
      snaps := snaps[newId := createdSnap];
      users := users[userId := user];
      r := Ok(201, Entry(newId, createdSnap));
    }

    /** `updateSnap`: only the creator may change a snap, and only its title and description. */
    method UpdateSnap(valid: bool, title: Option<string>, description: Option<string>,
                      sid: SnapId, userId: UserId, faults: Faults)
      returns (r: Reply<Entry>)
      requires Valid()
      modifies this
      ensures Valid() && users == old(users) && unlinked == old(unlinked)
      ensures r.Err? ==> snaps == old(snaps)
      ensures !valid ==> r == Err(InvalidInputs)
      ensures valid && faults.readFails ==> r == Err(UpdateFailed)
      ensures valid && !faults.readFails && sid !in old(snaps) ==> r == Err(UpdateNotFound)
      ensures valid && !faults.readFails && sid in old(snaps) && old(snaps)[sid].creator != Some(userId) ==>
        r == Err(EditForbidden)
      ensures valid && !faults.readFails && sid in old(snaps) && old(snaps)[sid].creator == Some(userId) ==>
        && (r.Ok? <==> !faults.snapWriteFails && Present(title) && Present(description))
        && (r.Err? ==> r == Err(UpdateFailed))
      ensures r.Ok? ==>
        && sid in old(snaps) && old(snaps)[sid].creator == Some(userId)
        && snaps == old(snaps)[sid := old(snaps)[sid].(title := title, description := description)]
        && r == Ok(200, Entry(sid, snaps[sid]))
    {
      if !valid {
        return Err(InvalidInputs);
      }
      if faults.readFails {
        return Err(UpdateFailed);
      }
      if sid !in snaps {
        return Err(UpdateNotFound);
      }
      var snap := snaps[sid];
      if snap.creator != Some(userId) {
        return Err(EditForbidden);
      }
      snap := snap.(title := title, description := description);
      StoreValidAfterUpdate(snaps, users, sid, title, description);
      if faults.snapWriteFails || !ValidSnap(snap) {
        return Err(UpdateFailed);
      }
      snaps := snaps[sid := snap];
      r := Ok(200, Entry(sid, snap));
    }

    /** `deleteSnap`: only the creator may delete a snap; the snap and its id in the
        creator's list go together, and its image is unlinked only after that. */
    method DeleteSnap(sid: SnapId, userId: UserId, faults: Faults) returns (r: Reply<string>)
      requires Valid()
      modifies this
      ensures Valid()
      ensures r.Err? ==> snaps == old(snaps) && users == old(users) && unlinked == old(unlinked)
      ensures faults.readFails ==> r == Err(DeleteFailed)
      ensures !faults.readFails && sid !in old(snaps) ==> r == Err(DeleteNotFound)
      ensures !faults.readFails && sid in old(snaps) && old(snaps)[sid].creator != Some(userId) ==>
        r == Err(DeleteForbidden)
      ensures !faults.readFails && sid in old(snaps) && old(snaps)[sid].creator == Some(userId) ==>
        && (r.Ok? <==> !faults.snapWriteFails && !faults.userWriteFails)
        && (r.Err? ==> r == Err(DeleteFailed))
      ensures r.Ok? ==>
        && sid in old(snaps) && old(snaps)[sid].creator == Some(userId) && userId in old(users)
        && r == Ok(200, Deleted)
        && snaps == old(snaps) - {sid}
        && users == old(users)[userId := old(users)[userId].(snaps := Pull(old(users)[userId].snaps, sid))]
        && old(snaps)[sid].imageUrl.Some?
        && unlinked == old(unlinked) + [old(snaps)[sid].imageUrl.value]
    {
      if faults.readFails {
        return Err(DeleteFailed);
      }
      if sid !in snaps {
        return Err(DeleteNotFound);
      }
      var snap := snaps[sid];
      // `populate('creator')`: the store invariant says the creator is a stored user.
      var creatorId := snap.creator.value;
      if creatorId != userId {
        return Err(DeleteForbidden);
      }
      var imagePath := snap.imageUrl.value;
      if faults.snapWriteFails {
        return Err(DeleteFailed);
      }
      var creator := users[creatorId];
      creator := creator.(snaps := Pull(creator.snaps, sid));
      StoreValidAfterDelete(snaps, users, sid);
      if faults.userWriteFails || !SaveAccepted(users, creatorId, creator) {
        return Err(DeleteFailed);
      }
      snaps := snaps - {sid};
      users := users[creatorId := creator];
      // After the commit: the unlink's own error is only logged.
      unlinked := unlinked + [imagePath];
      r := Ok(200, Deleted);
    }
  }
}
