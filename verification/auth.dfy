/**
  The user registry behind registration and the profile endpoints. Emails
  are stored lower-cased and are unique; the password is stored only as a
  hash and no operation ever returns it.
 */
module Auth {
  import opened Common
  import opened Text

  /** One row of the users table; `password` holds the hash. */
  datatype User = User(
    id: Id,
    email: string,
    password: string,
    firstName: Option<string>,
    lastName: Option<string>)

  /** The columns the service selects for its answers. There is no field
      for the password, so no answer can carry it. */
  datatype UserView = UserView(id: Id, email: string, firstName: Option<string>, lastName: Option<string>)

  function View(u: User): UserView {
    UserView(u.id, u.email, u.firstName, u.lastName)
  }

  datatype UserTable = UserTable(rows: map<Id, User>, nextId: Id)

  /** Each user is filed under its own id, and ids are handed out in order. */
  ghost predicate Keyed(t: UserTable) {
    forall id :: id in t.rows ==> t.rows[id].id == id && id < t.nextId
  }

  type UserStore = t: UserTable | Keyed(t) witness UserTable(map[], 0)

  /** Every stored email is lower-case. */
  ghost predicate EmailsLowerCase(t: UserStore) {
    forall id :: id in t.rows ==> IsLowerCase(t.rows[id].email)
  }

  /** No two users hold the same email. */
  ghost predicate EmailsUnique(t: UserStore) {
    forall i, j :: i in t.rows && j in t.rows && i != j ==> t.rows[i].email != t.rows[j].email
  }

  ghost predicate Valid(t: UserStore) {
    EmailsLowerCase(t) && EmailsUnique(t)
  }

  /** `findUnique({ where: { email } })` finds a user. */
  predicate EmailTaken(t: UserStore, email: string) {
    exists id | id in t.rows :: t.rows[id].email == email
  }

  /** A user other than `id` holds `email`. */
  predicate EmailHeldByOther(t: UserStore, id: Id, email: string) {
    exists k | k in t.rows :: k != id && t.rows[k].email == email
  }

  /** The registration body after validation. */
  datatype Registration = Registration(
    email: string,
    password: string,
    firstName: Option<string>,
    lastName: Option<string>)

  /** `register`: rejects an email some user already holds once lower-cased;
      otherwise stores a new user with the lower-cased email and the hashed
      password, and answers with its view. `hash` stands for the salted
      password hash, with this call's salt. */
  function Register(t: UserStore, data: Registration, hash: string -> string): (s: Step<UserStore, UserView>)
    ensures s.result.Err? <==> exists id :: id in t.rows && t.rows[id].email == ToLower(data.email)
    ensures s.result.Err? ==> s.store == t && s.result.error == ServiceError(UserAlreadyExists)
    ensures s.result.Ok? ==>
      var v := s.result.value;
      && v.id !in t.rows
      && s.store.rows.Keys == t.rows.Keys + {v.id}
      && |s.store.rows| == |t.rows| + 1
      && (forall k :: k in t.rows ==> s.store.rows[k] == t.rows[k])
      && s.store.rows[v.id].email == ToLower(data.email)
      && IsLowerCase(s.store.rows[v.id].email)
      && s.store.rows[v.id].password == hash(data.password)
      && s.store.rows[v.id].firstName == data.firstName
      && s.store.rows[v.id].lastName == data.lastName
      && v == View(s.store.rows[v.id])
  {
    var email := ToLower(data.email);
    if EmailTaken(t, email) then
      Step(t, Err(ServiceError(UserAlreadyExists)))
    else
      var u := User(t.nextId, email, hash(data.password), data.firstName, data.lastName);
      Step(UserTable(t.rows[u.id := u], t.nextId + 1), Ok(View(u)))
  }

  /** `getUserProfile`: the view of the user with this id. */
  function GetUserProfile(t: UserStore, id: Id): (r: Result<UserView>)
    ensures r.Ok? <==> id in t.rows
    ensures r.Ok? ==> r.value == View(t.rows[id]) && r.value.id == id
    ensures r.Err? ==> r.error == ServiceError(UserNotFound)
  {
    if id in t.rows then Ok(View(t.rows[id])) else Err(ServiceError(UserNotFound))
  }

  /** The profile body: any field may be absent. */
  datatype ProfileUpdate = ProfileUpdate(
    firstName: Option<string>,
    lastName: Option<string>,
    email: Option<string>)

  /** `email ? email.toLowerCase() : undefined`: an absent or empty email
      leaves the stored one as it is. */
  function NewEmail(current: string, email: Option<string>): string {
    if email.Some? && email.value != "" then ToLower(email.value) else current
  }

  /** `updateUserProfile`: an update of the user's row. An unknown id and an
      email some other user holds are both refused by the database. */
  function UpdateUserProfile(t: UserStore, id: Id, upd: ProfileUpdate): (s: Step<UserStore, UserView>)
    ensures s.result.Ok? <==> id in t.rows && !EmailHeldByOther(t, id, NewEmail(t.rows[id].email, upd.email))
    ensures id !in t.rows ==> s.result == Err(DatabaseError(RecordToUpdateNotFound))
    ensures s.result.Err? ==> s.store == t && s.result.error.DatabaseError?
    ensures s.result.Ok? ==> id in s.store.rows
    ensures s.result.Ok? ==>
      var before := t.rows[id];
      var after := s.store.rows[id];
      && s.store.rows.Keys == t.rows.Keys
      && (forall k :: k in t.rows && k != id ==> s.store.rows[k] == t.rows[k])
      && after.password == before.password
      && (upd.email.Some? && upd.email.value != "" ==> after.email == ToLower(upd.email.value))
      && (upd.email.None? || upd.email.value == "" ==> after.email == before.email)
      && (upd.firstName.Some? ==> after.firstName == upd.firstName)
      && (upd.firstName.None? ==> after.firstName == before.firstName)
      && (upd.lastName.Some? ==> after.lastName == upd.lastName)
      && (upd.lastName.None? ==> after.lastName == before.lastName)
      && s.result.value == View(after)
  {
    if id !in t.rows then
      Step(t, Err(DatabaseError(RecordToUpdateNotFound)))
    else
      var before := t.rows[id];
      var email := NewEmail(before.email, upd.email);
      if EmailHeldByOther(t, id, email) then
        Step(t, Err(DatabaseError(UniqueEmailViolation)))
      else
        var after := User(id, email, before.password,
                          if upd.firstName.Some? then upd.firstName else before.firstName,
                          if upd.lastName.Some? then upd.lastName else before.lastName);
        Step(UserTable(t.rows[id := after], t.nextId), Ok(View(after)))
  }

  // ---------------------------------------------------------------------
  // properties

  /** The view does not depend on the password: two users that differ only
      in their password hash look the same from outside. */
  lemma ViewHidesPassword(u: User, otherHash: string)
    ensures View(u) == View(u.(password := otherHash))
  {
  }

  /** Registration keeps emails lower-case and unique. */
  lemma RegisterKeepsValid(t: UserStore, data: Registration, hash: string -> string)
    requires Valid(t)
    ensures Valid(Register(t, data, hash).store)
  {
  }

  /** Profile updates keep emails lower-case and unique. */
  lemma UpdateKeepsValid(t: UserStore, id: Id, upd: ProfileUpdate)
    requires Valid(t)
    ensures Valid(UpdateUserProfile(t, id, upd).store)
  {
    var s := UpdateUserProfile(t, id, upd);
    if s.result.Ok? {
      var e := s.store.rows[id].email;
      assert e == t.rows[id].email || e == ToLower(upd.email.value);
      forall i, j | i in s.store.rows && j in s.store.rows && i != j
        ensures s.store.rows[i].email != s.store.rows[j].email
      {
        if i == id {
          assert !(j in t.rows && j != id && t.rows[j].email == e);
        } else if j == id {
          assert !(i in t.rows && i != id && t.rows[i].email == e);
        }
      }
    }
  }

  /** In a valid store no two users' emails differ only in letter case. */
  lemma ValidMeansCaseInsensitiveUnique(t: UserStore)
    requires Valid(t)
    ensures forall i, j :: i in t.rows && j in t.rows && i != j ==>
      ToLower(t.rows[i].email) != ToLower(t.rows[j].email)
  {
  }

  /** Once an email is registered, registering any case variant of it fails
      and changes nothing. */
  lemma RegisterTwiceFails(t: UserStore, first: Registration, second: Registration, hash: string -> string)
    requires Register(t, first, hash).result.Ok?
    requires ToLower(second.email) == ToLower(first.email)
    ensures var t' := Register(t, first, hash).store;
      && Register(t', second, hash).result == Err(ServiceError(UserAlreadyExists))
      && Register(t', second, hash).store == t'
  {
    var s := Register(t, first, hash);
    assert s.store.rows[s.result.value.id].email == ToLower(second.email);
  }

  /** The profile of a freshly registered user is the view registration
      returned. */
  lemma ProfileAfterRegister(t: UserStore, data: Registration, hash: string -> string)
    requires Register(t, data, hash).result.Ok?
    ensures var s := Register(t, data, hash);
      GetUserProfile(s.store, s.result.value.id) == Ok(s.result.value)
  {
  }
}
