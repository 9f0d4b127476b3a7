/**
 * `/register` and `/login`: request validation, the phone-uniqueness
 * conflict and the credential check. The password hasher and the
 * comparison are foreign calls, so they are parameters here: `hash` maps a
 * password to what is stored, `matches(password, stored)` is the comparison.
 */
module Accounts {
  import opened Records

  /** The body both handlers answer with on success. */
  datatype Session = Session(uuid: Uuid, name: string)

  predicate UuidUsed(users: seq<User>, uuid: Uuid) {
    exists i :: 0 <= i < |users| && users[i].uuid == uuid
  }

  predicate PhoneTaken(users: seq<User>, phone: string) {
    exists i :: 0 <= i < |users| && users[i].phone == phone
  }

  /** The `users` table's keys: uuid is the primary key, phone is unique. */
  ghost predicate UsersValid(users: seq<User>) {
    forall i, j :: 0 <= i < j < |users| ==> users[i].uuid != users[j].uuid && users[i].phone != users[j].phone
  }

  /** The position of the first user row with the given uuid. */
  function FindUser(users: seq<User>, uuid: Uuid): (r: Option<nat>)
    ensures r.None? <==> !UuidUsed(users, uuid)
    ensures r.Some? ==> r.value < |users| && users[r.value].uuid == uuid
    ensures r.Some? ==> forall i :: 0 <= i < r.value ==> users[i].uuid != uuid
  {
    if users == [] then None
    else if users[0].uuid == uuid then Some(0)
    else
      match FindUser(users[1..], uuid)
      case None =>
        assert forall i :: 1 <= i < |users| ==> users[i] == users[1..][i - 1];
        None
      case Some(i) => Some(i + 1)
  }

  /**
   * `/register`: 400 unless name, phone and password are all given, 500 when
   * the store fails, 409 when the phone is already registered; otherwise a
   * new user with the fresh uuid and the hashed password is stored.
   */
  function Register(users: seq<User>, name: Field, phone: Field, password: Field,
                    freshUuid: Uuid, hash: string -> string, storeUp: bool): (r: (Reply<Session>, seq<User>))
    ensures r.0 == Fail(BadRequest) <==> !Given(name) || !Given(phone) || !Given(password)
    ensures r.0 == Fail(ServerError) <==> Given(name) && Given(phone) && Given(password) && !storeUp
    ensures r.0 == Fail(Conflict) <==>
              Given(name) && Given(phone) && Given(password) && storeUp && PhoneTaken(users, phone.value)
    ensures r.0.Ok? <==> Given(name) && Given(phone) && Given(password) && storeUp && !PhoneTaken(users, phone.value)
    ensures !r.0.Ok? ==> r.1 == users
    ensures r.0.Ok? ==> (r.0.body == Session(freshUuid, name.value) &&
                         r.1 == users + [User(freshUuid, name.value, phone.value, hash(password.value))])
  {
    if !Given(name) || !Given(phone) || !Given(password) then (Fail(BadRequest), users)
    else if !storeUp then (Fail(ServerError), users)
    else if PhoneTaken(users, phone.value) then (Fail(Conflict), users)
    else (Ok(Session(freshUuid, name.value)), users + [User(freshUuid, name.value, phone.value, hash(password.value))])
  }

  /**
   * `/login`: 400 unless uuid and password are given, 500 when the store
   * fails, 404 for an unknown uuid, 401 when the password does not match the
   * stored hash; otherwise that user's uuid and name.
   */
  function Login(users: seq<User>, uuid: Field, password: Field,
                 matches: (string, string) -> bool, storeUp: bool): (r: Reply<Session>)
    ensures r == Fail(BadRequest) <==> !Given(uuid) || !Given(password)
    ensures r == Fail(ServerError) <==> Given(uuid) && Given(password) && !storeUp
    ensures r == Fail(NotFound) <==>
              Given(uuid) && Given(password) && storeUp && !UuidUsed(users, uuid.value)
    ensures Given(uuid) && Given(password) && storeUp && UuidUsed(users, uuid.value) ==>
              var user := users[FindUser(users, uuid.value).value];
              && (r.Ok? <==> matches(password.value, user.passwordHash))
              && (r == Fail(Unauthorized) <==> !matches(password.value, user.passwordHash))
              && (r.Ok? ==> r.body == Session(user.uuid, user.name))
    ensures r.Ok? ==> (exists i :: 0 <= i < |users| && users[i].uuid == uuid.value &&
                         matches(password.value, users[i].passwordHash) && r.body == Session(users[i].uuid, users[i].name))
  {
    if !Given(uuid) || !Given(password) then Fail(BadRequest)
    else if !storeUp then Fail(ServerError)
    else
      match FindUser(users, uuid.value)
      case None => Fail(NotFound)
      case Some(i) =>
        if !matches(password.value, users[i].passwordHash) then Fail(Unauthorized)
        else Ok(Session(users[i].uuid, users[i].name))
  }

  /** Registration keeps uuids and phones unique, given a fresh uuid. */
  lemma RegisterKeepsValid(users: seq<User>, name: Field, phone: Field, password: Field,
                           freshUuid: Uuid, hash: string -> string, storeUp: bool)
    requires UsersValid(users)
    requires !UuidUsed(users, freshUuid)
    ensures UsersValid(Register(users, name, phone, password, freshUuid, hash, storeUp).1)
  {
    var after := Register(users, name, phone, password, freshUuid, hash, storeUp).1;
    if after != users {
      forall i, j | 0 <= i < j < |after|
        ensures after[i].uuid != after[j].uuid && after[i].phone != after[j].phone
      {
        if j == |users| {
          assert after[i] == users[i];
        }
      }
    }
  }

  /**
   * A user who has just registered can log in with the uuid they were given
   * and the same password, provided the comparison accepts a password
   * against its own hash.
   */
  lemma LoginAfterRegister(users: seq<User>, name: Field, phone: Field, password: Field,
                           freshUuid: Uuid, hash: string -> string, matches: (string, string) -> bool)
    requires freshUuid != "" && !UuidUsed(users, freshUuid)
    requires forall p :: matches(p, hash(p))
    requires Register(users, name, phone, password, freshUuid, hash, true).0.Ok?
    ensures var (reply, after) := Register(users, name, phone, password, freshUuid, hash, true);
      Login(after, Some(freshUuid), password, matches, true) == reply
  {
    var (reply, after) := Register(users, name, phone, password, freshUuid, hash, true);
    assert after[|users|].uuid == freshUuid;
    var i := FindUser(after, freshUuid).value;
    if i < |users| {
      assert UuidUsed(users, freshUuid);
    }
    assert matches(password.value, hash(password.value));
  }
}
