/** The user handlers of controllers/users-controllers.js. They work on the
    module-level `DUMMY_USERS` array, not on the `User` collection: `signUp`
    appends to it, while `logIn` and `getUsers` only read it. */
module UsersControllers {
  import opened Common

  /** A record of `DUMMY_USERS`. The fields taken from the request body may be absent. */
  datatype DummyUser = DummyUser(
    id: string,
    name: Option<string>,
    motto: Option<string>,
    email: Option<string>,
    password: Option<string>,
    image: Option<string>,
    snapCount: int)

  const InvalidSignUp := HttpError("Please input valid information.", 422)
  const EmailTaken := HttpError("An account associted with this email already exists.", 422)
  const UserNotFound := HttpError("Could not find the user.", 404)
  const WrongPassword := HttpError("Please enter the correct password.", 401)

  const SeedImage :=
    "https://images.unsplash.com/photo-1599566150163-29194dcaad36?ixid=MnwxMjA3fDB8MHxwaG90by1wYWdlfHx8fGVufDB8fHx8&ixlib=rb-1.2.1&auto=format&fit=crop&w=387&q=80"

  function SeedUser(id: string, motto: string): DummyUser
  {
    DummyUser(id, Some("Sam Skylar"), Some(motto), Some("sam@email.com"), Some("samlovessnap"),
              Some(SeedImage), 3)
  }

  /** The initial contents of `DUMMY_USERS`. */
  function Seed(): (r: seq<DummyUser>)
    ensures |r| == 4
    ensures r[0].id == "u1" && r[1].id == "u2" && r[2].id == "u3" && r[3].id == "u4"
    ensures forall i | 0 <= i < |r| ::
      && r[i].name == Some("Sam Skylar")
      && r[i].email == Some("sam@email.com")
      && r[i].password == Some("samlovessnap")
      && r[i].snapCount == 3
  {
    [ SeedUser("u1", "I love living in the city!"),
      SeedUser("u2", "I love living in the city! I love living in the city! I love!"),
      SeedUser("u3", "I love living in the city!"),
      SeedUser("u4", "I love living in the city!") ]
  }

  /** Some record of `users` has this email. */
  predicate HasEmail(users: seq<DummyUser>, email: Option<string>)
  {
    exists i | 0 <= i < |users| :: users[i].email == email
  }

  /** Index `i` holds the first record with this email. */
  predicate IsFirstWithEmail(users: seq<DummyUser>, email: Option<string>, i: int)
  {
    0 <= i < |users| && users[i].email == email
    && forall j | 0 <= j < i :: users[j].email != email
  }

  /** `users.find((user) => user.email === email)`, as the index of the record found. */
  function FindByEmail(users: seq<DummyUser>, email: Option<string>): (r: Option<nat>)
    ensures r.Some? ==> IsFirstWithEmail(users, email, r.value)
    ensures r.None? <==> !HasEmail(users, email)
  {
    if |users| == 0 then None
    else if users[0].email == email then Some(0)
    else
      match FindByEmail(users[1..], email)
      case None => None
      case Some(i) => Some(i + 1)
  }

  /** `logIn`: the first record with the email, if its password is exactly the one given. */
  function LogIn(users: seq<DummyUser>, email: Option<string>, password: Option<string>)
    : (r: Reply<DummyUser>)
    ensures r.Ok? || r == Err(UserNotFound) || r == Err(WrongPassword)
    ensures r == Err(UserNotFound) <==> !HasEmail(users, email)
    ensures r == Err(WrongPassword) <==>
      exists i :: IsFirstWithEmail(users, email, i) && users[i].password != password
    ensures r.Ok? ==>
      && r.status == 200
      && r.body.password == password
      && exists i :: IsFirstWithEmail(users, email, i) && users[i] == r.body
  {
    match FindByEmail(users, email)
    case None => Err(UserNotFound)
    case Some(i) =>
      FirstWithEmailUnique(users, email, i);
      if password != users[i].password then Err(WrongPassword) else Ok(200, users[i])
  }

  /** There is only one first record with a given email. */
  lemma FirstWithEmailUnique(users: seq<DummyUser>, email: Option<string>, i: int)
    requires IsFirstWithEmail(users, email, i)
    ensures forall j :: IsFirstWithEmail(users, email, j) ==> j == i
  {
  }

  /** `DUMMY_USERS` does not keep emails unique: all four seed records share one. */
  lemma SeedSharesOneEmail()
    ensures |Seed()| == 4
    ensures forall i, j | 0 <= i < j < |Seed()| ::
      Seed()[i].email == Seed()[j].email && Seed()[i].id != Seed()[j].id
  {
  }

  /** Of the seed records with the shared email, `logIn` answers with the first. */
  lemma SeedLogInFindsFirst()
    ensures LogIn(Seed(), Some("sam@email.com"), Some("samlovessnap")) == Ok(200, Seed()[0])
  {
  }

  /** After a record with a new email is appended, logging in with its email and
      password returns that record. */
  lemma LogInAfterSignUp(users: seq<DummyUser>, u: DummyUser)
    requires !HasEmail(users, u.email)
    ensures LogIn(users + [u], u.email, u.password) == Ok(200, u)
  {
    var all := users + [u];
    assert IsFirstWithEmail(all, u.email, |users|) by {
      forall j | 0 <= j < |users| ensures all[j].email != u.email {
        assert all[j] == users[j];
      }
    }
    FirstWithEmailUnique(all, u.email, |users|);
  }

  /** After a record is appended, its email is taken: a second sign-up with it is refused. */
  lemma SignedUpEmailIsTaken(users: seq<DummyUser>, u: DummyUser)
    ensures HasEmail(users + [u], u.email)
  {
    assert (users + [u])[|users|] == u;
  }

  /** The registry: the `DUMMY_USERS` array the module keeps and `signUp` grows. */
  class UserRegistry {
    var users: seq<DummyUser>

    constructor ()
      ensures users == Seed()
    {
      users := Seed();
    }

    /** `signUp`. `valid` is the verdict of the route's validators; `newId` the generated id. */
    method SignUp(valid: bool, name: Option<string>, motto: Option<string>, email: Option<string>,
                  password: Option<string>, image: Option<string>, newId: string)
      returns (r: Reply<DummyUser>)
      modifies this
      ensures !valid ==> r == Err(InvalidSignUp) && users == old(users)
      ensures valid && HasEmail(old(users), email) ==> r == Err(EmailTaken) && users == old(users)
      ensures valid && !HasEmail(old(users), email) ==>
        var u := DummyUser(newId, name, motto, email, password, image, 0);
        r == Ok(201, u) && users == old(users) + [u]
      ensures r.Ok? ==>
        && |users| == |old(users)| + 1
        && users[..|old(users)|] == old(users)
        && users[|users| - 1] == r.body
    {
      if !valid {
        return Err(InvalidSignUp);
      }
      var hasUser := FindByEmail(users, email);
      if hasUser.Some? {
        return Err(EmailTaken);
      }
      var newUser := DummyUser(newId, name, motto, email, password, image, 0);
      users := users + [newUser];
      r := Ok(201, newUser);
    }

    /** `getUsers`: the whole array, in order. It names nothing it may modify, so
        the array is the same after the call. */
    method GetUsers() returns (r: Reply<seq<DummyUser>>)
      ensures r.Ok? && r.status == 200 && r.body == users
    {
      r := Ok(200, users);
    }

    /** A sign-up followed by `getUsers`: after a successful sign-up the listing is
        the earlier array with the new record last, and logging in with that
        record's email and password finds it; after a refused one the listing
        is the earlier array. */
    method SignUpThenGetUsers(valid: bool, name: Option<string>, motto: Option<string>,
                              email: Option<string>, password: Option<string>,
                              image: Option<string>, newId: string)
      returns (signed: Reply<DummyUser>, listed: Reply<seq<DummyUser>>)
      modifies this
      ensures signed.Ok? ==>
        && listed == Ok(200, old(users) + [signed.body])
        && LogIn(listed.body, email, password) == Ok(200, signed.body)
      ensures signed.Err? ==> listed == Ok(200, old(users))
    {
      signed := SignUp(valid, name, motto, email, password, image, newId);
      listed := GetUsers();
      if signed.Ok? {
        LogInAfterSignUp(old(users), signed.body);
      }
    }
  }
}
