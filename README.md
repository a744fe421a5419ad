# Snap sharing backend: a verified model of its handlers and middleware

This project models the core of a photo-sharing backend in Dafny. Users post
"snaps": geotagged photos owned by the account that created them. The model covers:

- **Snap handlers.** These are `createSnap`, `updateSnap`, `deleteSnap`, `getSnapBySnapId` and `getSnapsByUserId`.
  - They work over two stored collections: `snaps`, and `users` with their `snaps` back-reference lists.
  - They are modelled as the class `SnapsControllers.SnapStore`, plus pure queries.
  - Create and delete write both collections in one transaction, so each is one all-or-nothing step.
  - The store invariant `StoreValid` holds across every step. Its main part, `Linked`, says that each snap's creator is a stored user whose list holds the snap. It also says that every id a user lists is a stored snap of that user.
  - Only the creator may update or delete a snap. A failed step changes nothing.
- **The in-memory user registry.** This is `DUMMY_USERS` with `signUp`, `logIn` and `getUsers`, modelled as `UsersControllers.UserRegistry` and pure lookups.
- **The bearer-token middleware.** Pre-flight `OPTIONS` requests pass. The token is the second field of `Authorization.split(' ')`. Every failure becomes the same 403. Modelled in `CheckAuth`.
- **The upload middleware.** This is the MIME map, the file filter, the file name and the destination, modelled in `FileUpload`.
- **The two schemas.** `UserModel` and `SnapModel` give the documents and the checks their validators make on every `save`.

Some behaviour comes from outside the modelled files, so it becomes a parameter. This covers util/location, jsonwebtoken, uuid, the route validators and the database:
- Geocoding of the address becomes `geocoded`.
- Token verification becomes `verify`.
- Generated ids become `newId` and `generatedId`.
- Input validation by the routes becomes `valid`.
- Storage failures become `Faults`.

Every `save` is modelled as validating the document against its schema. Mongoose validates all paths of a loaded document on save, and a required `String` rejects `""`. A save that fails validation ends the request with a 500, like a storage failure.

Four places where the intended design and the code disagree are modelled as the code has them:
- A failed `createSnap` leaves the uploaded file in place. Nothing unlinks it.
- Passwords are stored and compared as plain text.
- `logIn` returns the user record, not a token.
- An unknown email gives 404 and a wrong password gives 401. The two failures are distinct.

Two other disagreements are code defects, listed under "## Findings". For those, the
model keeps the code as written in a separate member and lets the handlers use the
corrected version.

## Model

| member | source | states |
|---|---|---|
| `UserModel.ValidUser` | models/user.js:6-14 | a user document passes its validators iff name, email, password, motto and image are present, the password has at least 8 UTF-16 code units, and no entry of `snaps` is missing |
| `UserModel.Utf16Length` | models/user.js:10 | the length `minlength` measures counts each character once, or twice outside the Basic Multilingual Plane, so it lies between the character count and twice that, and equals the character count for text inside that plane |
| `UserModel.AstralPasswordLength` | models/user.js:10 | four emoji have length 8, so `minlength: 8` accepts them as a password |
| `UserModel.SaveAccepted` | models/user.js:6-16 | a user `save` passes iff the document validates and no other stored user has its email |
| `SnapModel.ValidSnap` | models/snap.js:8-18 | a snap document passes its validators iff title, description, `imageUrl`, address, both coordinates and the creator are present |
| `UserModel.SaveKeepsEmailsUnique` | models/user.js:9-16 | a user save that passes the unique-email check leaves no two stored users with the same email |
| `CheckAuth.Split` | middleware/check-auth.js:14 | `split(' ')` gives at least one field; no field contains the separator; there is exactly one field iff the header has no separator |
| `CheckAuth.JoinSplit` | middleware/check-auth.js:14 | joining the fields of the split with the separator gives back the header |
| `CheckAuth.SplitHead` | middleware/check-auth.js:14 | the first field is the text before the first separator |
| `CheckAuth.SplitTail` | middleware/check-auth.js:14 | the fields after the first are the split of the text after the first separator |
| `CheckAuth.BearerToken` | middleware/check-auth.js:14 | element 1 of the split exists iff the header contains a space, and it contains no space |
| `CheckAuth.BearerTokenIsSecondField` | middleware/check-auth.js:14 | the token is exactly the text between the first space and the next space or the end |
| `CheckAuth.HeaderWithToken` | middleware/check-auth.js:13-14 | `Bearer abc` yields the token `abc` |
| `CheckAuth.HeaderWithoutToken` | middleware/check-auth.js:14-19 | `Bearer` has no second field, so there is no token |
| `CheckAuth.HeaderWithEmptyToken` | middleware/check-auth.js:14-19 | `Bearer  abc` (two spaces) yields the empty token, which the falsy check refuses |
| `CheckAuth.Credential` | middleware/check-auth.js:14-19 | a credential is there iff the header exists and has a non-empty second field; it is exactly that second field of `split(' ')`, and it is never empty |
| `CheckAuth.Authenticate` | middleware/check-auth.js:5-31 | `OPTIONS` passes with no identity; every rejection is the one 403 "Authentication failed!"; any other request passes iff it has a credential the verifier accepts; the attached identity is exactly the decoded `userId` |
| `CheckAuth.FailuresLookAlike` | middleware/check-auth.js:16-30 | any two rejected requests get identical outcomes, whatever failed |
| `FileUpload.MimeTypeMapKeys` | middleware/file-upload.js:4-9 | the map has exactly the four keys png, jpeg, jpg and webp, so `text/html` is not one of them |
| `FileUpload.Extension` | middleware/file-upload.js:18 | an extension exists iff the MIME type is a key, and every key is `image/` followed by its extension |
| `FileUpload.Filename` | middleware/file-upload.js:17-20 | the name starts with the generated id; it ends with `.` plus the type's extension, or with `.undefined` for an unlisted type; its length is the id's plus one plus the extension's, so it is exactly id, dot, extension |
| `FileUpload.FileFilter` | middleware/file-upload.js:22-27 | the filter accepts iff the type is a key; the error is present exactly when it rejects, and it is "Invalid mime type!" |
| `FileUpload.StoredPath` | middleware/file-upload.js:14-20 | the stored path is `uploads/images/` followed by the file name, so it ends with the type's extension, or with `.undefined` for an unlisted type |
| `FileUpload.StoreAsWritten` | middleware/file-upload.js:11-29 | with the filter given to the disk storage, every upload is stored, whatever its type |
| `FileUpload.AsWrittenStoresUnlistedType` | middleware/file-upload.js:11-29 | as configured, an upload of any unlisted type, such as `text/html`, is stored as `uploads/images/` plus its id plus `.undefined` |
| `FileUpload.Store` | middleware/file-upload.js:11-29 | with the filter applied, a file is stored iff the filter accepts it, under its type's extension; otherwise it is rejected with "Invalid mime type!" |
| `UsersControllers.FindByEmail` | controllers/users-controllers.js:62 | the index found holds the first record with the email, and none is found iff no record has it |
| `UsersControllers.Seed` | controllers/users-controllers.js:6-47 | the array starts with four records `u1` to `u4`, all Sam Skylar at `sam@email.com` with password `samlovessnap` and `snapCount` 3 (see `SeedSharesOneEmail`) |
| `UsersControllers.LogIn` | controllers/users-controllers.js:82-95 | 404 iff no record has the email; 401 iff the first record with it has a different password (exact comparison); otherwise 200 with that first record; the array is not changed |
| `UsersControllers.SeedSharesOneEmail` | controllers/users-controllers.js:6-47 | the four seed records have distinct ids and share one email, so unique emails are not an invariant of the array |
| `UsersControllers.SeedLogInFindsFirst` | controllers/users-controllers.js:6-47 | logging in as `sam@email.com` answers with the first seed record, `u1` |
| `UsersControllers.LogInAfterSignUp` | controllers/users-controllers.js:69-94 | after a record with a new email is appended, logging in with its email and password returns exactly that record |
| `UsersControllers.SignedUpEmailIsTaken` | controllers/users-controllers.js:62-78 | after a record is appended its email is present, so a second sign-up with that email is refused |
| `UsersControllers.UserRegistry.SignUp` | controllers/users-controllers.js:53-80 | failed validation gives 422 and an unchanged array; a taken email gives 422 and an unchanged array; otherwise one record is appended at the end with the given fields, the new id and `snapCount` 0, earlier records are unchanged, and the answer is 201 with that record |
| `UsersControllers.UserRegistry.GetUsers` | controllers/users-controllers.js:49-51 | answers 200 with the whole array, in order; it may modify nothing, so the array is the same afterwards |
| `UsersControllers.UserRegistry.SignUpThenGetUsers` | controllers/users-controllers.js:49-80 | after a successful sign-up, `getUsers` lists the earlier array with the new record last, and `logIn` with its email and password finds that record; after a refused sign-up it lists the earlier array |
| `SnapsControllers.Linked` | controllers/snaps-controllers.js:64-75 | each snap's creator is a stored user whose `snaps` lists it, and each id a user lists is a stored snap with that user as creator |
| `SnapsControllers.StoreValid` | controllers/snaps-controllers.js:64-75 | the store keeps `Linked`, every snap and user passes its schema, and no two users share an email |
| `SnapsControllers.Pull` | controllers/snaps-controllers.js:247 | after the pull an id is in the list iff it was there and is not the pulled id; a list without that id is unchanged |
| `SnapsControllers.PullCounts` | controllers/snaps-controllers.js:247 | the pulled id no longer occurs, and every other id occurs as often as before |
| `SnapsControllers.PullAppend` | controllers/snaps-controllers.js:247 | pulling from a concatenation is the concatenation of the pulls, so the kept ids stay in their order |
| `SnapsControllers.CreatedDoc` | controllers/snaps-controllers.js:37-45 | the new snap's creator is the authenticated user, its location is the geocoded one and its `imageUrl` is the upload path; it passes the schema iff title, description and address are present and both coordinates are there |
| `SnapsControllers.CreatedDocAsWritten` | controllers/snaps-controllers.js:37-45 | the document as written also takes the creator from the authenticated user and the location from the geocoder |
| `SnapsControllers.CreateAsWrittenNeverSaves` | controllers/snaps-controllers.js:37-45 | the document as written never passes the schema, because it has no `imageUrl` |
| `SnapsControllers.GetSnapBySnapId` | controllers/snaps-controllers.js:85-107 | a lookup failure gives 500; an absent id gives 404; otherwise 200 with the stored snap |
| `SnapsControllers.GetSnapsByUserId` | controllers/snaps-controllers.js:109-135 | a lookup failure gives 500; otherwise 200 iff some stored snap has this creator, and 404 iff none has; the 200 answer holds exactly the stored snaps whose creator is the user |
| `SnapsControllers.BackReferenceMatchesQuery` | controllers/snaps-controllers.js:116 | on a linked store, a user's `snaps` list holds exactly the snaps with that creator, so the query finds snaps iff the list is non-empty |
| `SnapsControllers.LinkedAfterCreate` | controllers/snaps-controllers.js:64-75 | inserting a snap with a fresh id and appending the id to its creator's list keeps the relationship invariant |
| `SnapsControllers.PulledIdsStayLinked` | controllers/snaps-controllers.js:243-249 | on a linked store, every id left in the creator's list after the pull is another stored snap of that creator |
| `SnapsControllers.LinkedAfterDelete` | controllers/snaps-controllers.js:243-249 | removing a snap and pulling its id from its creator's list keeps the relationship invariant |
| `SnapsControllers.StoreValidAfterCreate` | controllers/snaps-controllers.js:64-79 | a create whose two saves pass leaves a valid store |
| `SnapsControllers.AppendSaveAccepted` | controllers/snaps-controllers.js:72-73 | on a valid store, the creator's save after the push passes iff the new id is not empty |
| `SnapsControllers.StoreValidAfterDelete` | controllers/snaps-controllers.js:243-249 | on a valid store, the creator's save after the pull always passes, and the store it leaves is valid |
| `SnapsControllers.StoreValidAfterUpdate` | controllers/snaps-controllers.js:195-199 | the edited snap passes the schema iff the new title and description are present, and then the store stays valid |
| `SnapsControllers.SnapStore.CreateSnap` | controllers/snaps-controllers.js:15-82 | checks run in order: invalid input 422, then the geocoder's own error, then a lookup failure 500, then an unknown user 404; any failed or refused write gives 500; every failure leaves both collections unchanged; success is 201 with the corrected document (`CreatedDoc`, path in `imageUrl`) stored under the new id, with the id appended to the creator's list; the store invariant is kept and nothing is unlinked |
| `SnapsControllers.SnapStore.UpdateSnap` | controllers/snaps-controllers.js:160-209 | invalid input 422, then a lookup failure 500, then an absent snap 404, then a non-creator 401, all with nothing changed; a failed or refused save gives 500; success changes only that snap's title and description, touches no user, and answers 200 with the new snap |
| `SnapsControllers.SnapStore.DeleteSnap` | controllers/snaps-controllers.js:212-265 | a lookup failure 500, then an absent snap 404, then a non-creator 401, all before any change; a failed write gives 500 with nothing changed; success removes the snap, pulls its id from the creator's list, and only then records its image path for unlinking; the store invariant is kept |

## Left out

- Mongoose sessions, `save`, `remove` and `populate` are modelled as one atomic step per handler. `Faults` says which storage call throws. A malformed id that fails the ObjectId cast counts as a failed lookup. `populate('creator')` is a lookup of the creator id in `users`.
- Concurrent requests are not modelled. The handlers take no locks, and the database transaction is taken as atomic.
- `getCoordsForAddress`: util/location is not part of this model. Its answer is the `geocoded` parameter, and coordinates are opaque numbers with no arithmetic.
- `jwt.verify` with its secret and expiry becomes the `verify` parameter, a map from token to optional claims. No token is issued anywhere in this code.
- Multer's disk writes and the `uuid` calls are not modelled. Ids are parameters. `fs.unlink` is recorded as the `unlinked` list, and its errors are only logged.
- The `limits` option of the upload middleware is not modelled.
- `getRandomSnap` is left out because it samples at random.
- `toObject({ getters: true })`, the JSON wrapping of answers and `console.log` are not modelled.
- The route validators (`express-validator` checks, `normalizeEmail`) are not modelled. Their verdict is the `valid` parameter, and emails reach the handlers as given.
- app.js and the route files are routing glue. The users routes are not mounted. Neither middleware is mounted on the snaps routes. So the authenticated user id and the upload path are handler inputs.
- models/http-error.js is not part of this model. An error is its message and its code.
- `SnapsControllers.SnapStore.CreateSnap`, `SnapsControllers.SnapStore.UpdateSnap`, `SnapsControllers.SnapStore.DeleteSnap`: they require the store invariant. A stored snap without a creator, or whose creator user is gone after `populate`, makes the handler throw outside its `try`. Those paths cannot arise under the invariant and are not modelled.
- `SnapsControllers.GetSnapsByUserId`: it answers with a map keyed by snap id, so the order of the documents found is not modelled.
- `FileUpload.Extension`: the MIME map is a plain object, so inherited names such as `constructor` also look up a value. Only own keys are modelled. No such name contains `/`, so no MIME type of the form `type/subtype` is affected.
- `SnapsControllers.SnapStore.CreateSnap`: it builds the corrected document of the first finding below. As written, every request that reaches the transaction answers 500 and stores nothing (`CreateAsWrittenNeverSaves`). The success case the method states belongs to the corrected program.
- `SnapsControllers.SnapStore.DeleteSnap`: the code unlinks `snap.image`, a field the schema lacks. The model unlinks the stored `imageUrl`, following the correction in the first finding below. As written, `imagePath` is `undefined`. Node's `fs.unlink` rejects a path of that type by throwing at once, after the commit. So the delete is committed, but the 200 answer is never sent.
- `SnapsControllers.SnapStore.DeleteSnap`: models/snap.js:17 declares `creator` as a plain `String` with no `ref`. So `populate('creator')` probably cannot load the user. Then `snap.creator.id` is not the caller's id, and the request answers 401 (or throws on `null`). The model reads `populate` as a lookup of the creator in `users`, which is what the handler evidently means. This is a plausible defect and is not modelled, since it rests on Mongoose behaviour the code does not show.
- `SnapsControllers.SnapStore.CreateSnap`, `SnapsControllers.SnapStore.UpdateSnap`, `SnapsControllers.SnapStore.DeleteSnap`: they take the authenticated user id as a string. A verified token whose claims lack `userId` gives `req.userData.userId === undefined`, and the handlers are not modelled for that value. The middleware model keeps it: `CheckAuth.UserData` holds an optional id.

## Findings

| source | as written | input that shows it | evidently intended | confidence | as-written member | corrected member |
|---|---|---|---|---|---|---|
| controllers/snaps-controllers.js:40 | `createSnap` puts the upload path in `image`. The snap schema has no such field and requires `imageUrl` (models/snap.js:11). The strict schema drops `image`, so the snap save in the transaction fails validation. | any create request with valid inputs, a geocodable address and an existing user: the answer is 500 and nothing is stored | store the path in `imageUrl`, and read it back from there for the unlink at line 241 | not executed; relies on Mongoose's default strict schemas | `SnapsControllers.CreateAsWrittenNeverSaves` | `SnapsControllers.CreatedDoc` |
| middleware/file-upload.js:22-27 | `fileFilter` is passed inside the disk-storage options. Multer's disk storage reads only `destination` and `filename` from them, so the filter never runs. | an upload of type `text/html` with generated id `f` is stored as `uploads/images/f.undefined` | the filter given to `multer()` itself, so unlisted types are rejected before anything is written | not executed; relies on multer applying only a `fileFilter` given in its own options | `FileUpload.AsWrittenStoresUnlistedType` | `FileUpload.Store` |
