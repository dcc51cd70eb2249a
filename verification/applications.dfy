/**
  The owner-scoped application repository: creating, reading, updating,
  deleting and listing a user's job applications over an in-memory table.
  Every read and write names the calling user, and a row that belongs to
  somebody else is treated exactly like a row that does not exist.
 */
module Applications {
  import opened Common
  import opened Text

  /** One row of the applications table. `details` carries the remaining
      columns (location, job description, salary, job URL, notes, source)
      and the nested contacts, documents and interviews as opaque text. */
  datatype Application = Application(
    id: Id,
    userId: Id,
    company: string,
    position: string,
    status: Status,
    applicationDate: int,
    details: map<string, string>)

  /** A request body as the service receives it: every column may be absent,
      and status and date are still the strings the client sent. */
  datatype Payload = Payload(
    userId: Option<Id>,
    company: Option<string>,
    position: Option<string>,
    status: Option<string>,
    applicationDate: Option<string>,
    details: map<string, string>)

  /** The database's reading of a date-time string: the instant it denotes,
      or `None` when the column refuses the string. */
  type DateParser = string -> Option<int>

  /** The status column accepts the given value, if any. */
  predicate StatusAccepted(status: Option<string>) {
    status.None? || status.value in ApplicationStatuses
  }

  /** The date column accepts the given value, if any. */
  predicate DateAccepted(parseDate: DateParser, date: Option<string>) {
    date.None? || parseDate(date.value).Some?
  }

  datatype Table = Table(rows: map<Id, Application>, nextId: Id)

  /** Each row is filed under its own id, and ids are handed out in order. */
  ghost predicate Keyed(t: Table) {
    forall id :: id in t.rows ==> t.rows[id].id == id && id < t.nextId
  }

  type Store = t: Table | Keyed(t) witness Table(map[], 0)

  /** The row `a` is in the store, unchanged. */
  ghost predicate Stored(db: Store, a: Application) {
    a.id in db.rows && db.rows[a.id] == a
  }

  /** The ownership check: a row with this id exists and belongs to `userId`. */
  predicate OwnedBy(db: Store, userId: Id, id: Id) {
    id in db.rows && db.rows[id].userId == userId
  }

  /** The store with row `id` gone, as if it had never been created. */
  function Without(db: Store, id: Id): (d: Store)
    ensures id !in d.rows
    ensures forall k :: k in db.rows && k != id ==> k in d.rows && d.rows[k] == db.rows[k]
    ensures d.rows.Keys <= db.rows.Keys
  {
    Table(db.rows - {id}, db.nextId)
  }

  // ---------------------------------------------------------------------
  // create

  /** The spread `{ ...applicationData, userId }`: the caller's id is written
      last, so it wins over any owner the payload names. */
  function WithOwner(data: Payload, userId: Id): Payload {
    data.(userId := Some(userId))
  }

  /** Inserts a new row owned by the caller. Company and position are
      required columns; status must be a value of the enumeration and
      defaults to APPLIED; the application date must be a date-time the
      database reads and defaults to the creation time `now`. */
  function CreateApplication(db: Store, userId: Id, data: Payload, now: int, parseDate: DateParser): (s: Step<Store, Application>)
    ensures s.result.Ok? <==>
      && data.company.Some? && data.position.Some?
      && (data.status.None? || data.status.value in ApplicationStatuses)
      && (data.applicationDate.None? || parseDate(data.applicationDate.value).Some?)
    ensures s.result.Err? ==> s.store == db && s.result.error.DatabaseError?
    ensures s.result.Ok? ==>
      var a := s.result.value;
      && a.userId == userId
      && a.id !in db.rows
      && s.store.rows == db.rows[a.id := a]
      && a.company == data.company.value
      && a.position == data.position.value
      && (data.status.Some? ==> a.status == data.status.value)
      && (data.status.None? ==> a.status == DefaultStatus)
      && (data.applicationDate.Some? ==> Some(a.applicationDate) == parseDate(data.applicationDate.value))
      && (data.applicationDate.None? ==> a.applicationDate == now)
      && a.details == data.details
  {
    var row := WithOwner(data, userId);
    if row.company.None? then
      Step(db, Err(DatabaseError(MissingRequiredField("company"))))
    else if row.position.None? then
      Step(db, Err(DatabaseError(MissingRequiredField("position"))))
    else if !StatusAccepted(row.status) then
      Step(db, Err(DatabaseError(InvalidValue("status"))))
    else if !DateAccepted(parseDate, row.applicationDate) then
      Step(db, Err(DatabaseError(InvalidValue("applicationDate"))))
    else
      var a := Application(db.nextId, row.userId.value, row.company.value, row.position.value,
                           if row.status.Some? then row.status.value else DefaultStatus,
                           if row.applicationDate.Some? then parseDate(row.applicationDate.value).value else now,
                           row.details);
      Step(Table(db.rows[a.id := a], db.nextId + 1), Ok(a))
  }

  // ---------------------------------------------------------------------
  // get, update, delete

  /** `findFirst({ where: { id, userId } })`, throwing when nothing matches. */
  function GetApplicationById(db: Store, userId: Id, id: Id): (r: Result<Application>)
    ensures r.Ok? <==> OwnedBy(db, userId, id)
    ensures r.Ok? ==> r.value == db.rows[id] && r.value.id == id && r.value.userId == userId
    ensures r.Err? ==> r.error == ServiceError(ApplicationNotFound)
  {
    if OwnedBy(db, userId, id) then Ok(db.rows[id]) else Err(ServiceError(ApplicationNotFound))
  }

  /** The database's `update({ where: { id }, data })` of a payload whose
      status and date the columns accept: every column the payload carries
      is overwritten, the owner included; the others keep their values. */
  function Patch(a: Application, data: Payload, parseDate: DateParser): Application
    requires StatusAccepted(data.status) && DateAccepted(parseDate, data.applicationDate)
  {
    Application(
      a.id,
      data.userId.GetOr(a.userId),
      data.company.GetOr(a.company),
      data.position.GetOr(a.position),
      if data.status.Some? then data.status.value else a.status,
      if data.applicationDate.Some? then parseDate(data.applicationDate.value).value else a.applicationDate,
      a.details + data.details)
  }

  /** Ownership check, then an update of that one row with the payload as
      given. The request validator does not run on this path, so only the
      column types stand between the payload and the row. */
  function UpdateApplication(db: Store, userId: Id, id: Id, data: Payload, parseDate: DateParser): (s: Step<Store, Application>)
    ensures s.result.Ok? <==>
      && OwnedBy(db, userId, id)
      && (data.status.None? || data.status.value in ApplicationStatuses)
      && (data.applicationDate.None? || parseDate(data.applicationDate.value).Some?)
    ensures s.result.Err? ==> s.store == db
    ensures !OwnedBy(db, userId, id) ==> s.result == Err(ServiceError(ApplicationNotFound))
    ensures OwnedBy(db, userId, id) && s.result.Err? ==> s.result.error.DatabaseError?
    ensures s.result.Ok? ==>
      var before := db.rows[id];
      var a := s.result.value;
      && s.store.rows == db.rows[id := a]
      && s.store.nextId == db.nextId
      && a.id == id
      && (data.userId.Some? ==> a.userId == data.userId.value)
      && (data.userId.None? ==> a.userId == before.userId)
      && (data.company.Some? ==> a.company == data.company.value)
      && (data.company.None? ==> a.company == before.company)
      && (data.position.Some? ==> a.position == data.position.value)
      && (data.position.None? ==> a.position == before.position)
      && (data.status.Some? ==> a.status == data.status.value)
      && (data.status.None? ==> a.status == before.status)
      && (data.applicationDate.Some? ==> Some(a.applicationDate) == parseDate(data.applicationDate.value))
      && (data.applicationDate.None? ==> a.applicationDate == before.applicationDate)
      && (forall k :: k in data.details ==> k in a.details && a.details[k] == data.details[k])
      && (forall k :: k in before.details && k !in data.details ==> k in a.details && a.details[k] == before.details[k])
      && a.details.Keys == before.details.Keys + data.details.Keys
  {
    if !OwnedBy(db, userId, id) then
      Step(db, Err(ServiceError(ApplicationNotFound)))
    else if !StatusAccepted(data.status) then
      Step(db, Err(DatabaseError(InvalidValue("status"))))
    else if !DateAccepted(parseDate, data.applicationDate) then
      Step(db, Err(DatabaseError(InvalidValue("applicationDate"))))
    else
      var a := Patch(db.rows[id], data, parseDate);
      Step(Table(db.rows[id := a], db.nextId), Ok(a))
  }

  /** Ownership check, then removal of that one row. */
  function DeleteApplication(db: Store, userId: Id, id: Id): (s: Step<Store, string>)
    ensures s.result.Ok? <==> OwnedBy(db, userId, id)
    ensures s.result.Err? ==> s.store == db && s.result.error == ServiceError(ApplicationNotFound)
    ensures s.result.Ok? ==>
      && s.result.value == ApplicationDeleted
      && s.store.rows.Keys == db.rows.Keys - {id}
      && (forall k :: k in s.store.rows ==> s.store.rows[k] == db.rows[k])
  {
    if !OwnedBy(db, userId, id) then
      Step(db, Err(ServiceError(ApplicationNotFound)))
    else
      Step(Without(db, id), Ok(ApplicationDeleted))
  }

  // ---------------------------------------------------------------------
  // ownership isolation

  /** For another user's row, get, update and delete answer exactly as they
      would if the row did not exist at all, and leave the store as it was. */
  lemma ForeignLooksAbsent(db: Store, userId: Id, id: Id, data: Payload, parseDate: DateParser)
    requires id in db.rows && db.rows[id].userId != userId
    ensures GetApplicationById(db, userId, id) == GetApplicationById(Without(db, id), userId, id)
    ensures UpdateApplication(db, userId, id, data, parseDate).result
         == UpdateApplication(Without(db, id), userId, id, data, parseDate).result
    ensures DeleteApplication(db, userId, id).result == DeleteApplication(Without(db, id), userId, id).result
    ensures UpdateApplication(db, userId, id, data, parseDate).store == db
    ensures DeleteApplication(db, userId, id).store == db
  {
  }

  /** Nothing a user does through create, update or delete changes a row that
      some other user owned beforehand. */
  lemma OthersRowsUntouched(db: Store, userId: Id, id: Id, data: Payload, now: int, parseDate: DateParser)
    ensures forall k :: k in db.rows && db.rows[k].userId != userId ==>
      var c := CreateApplication(db, userId, data, now, parseDate).store;
      var u := UpdateApplication(db, userId, id, data, parseDate).store;
      var d := DeleteApplication(db, userId, id).store;
      && k in c.rows && c.rows[k] == db.rows[k]
      && k in u.rows && u.rows[k] == db.rows[k]
      && k in d.rows && d.rows[k] == db.rows[k]
  {
  }

  /** What a successful create stores, get returns to its owner. */
  lemma CreateThenGet(db: Store, userId: Id, data: Payload, now: int, parseDate: DateParser)
    requires CreateApplication(db, userId, data, now, parseDate).result.Ok?
    ensures var s := CreateApplication(db, userId, data, now, parseDate);
      GetApplicationById(s.store, userId, s.result.value.id) == Ok(s.result.value)
  {
  }

  /** After a successful delete the row is gone for everybody. */
  lemma DeleteThenGet(db: Store, userId: Id, id: Id, anyone: Id)
    requires DeleteApplication(db, userId, id).result.Ok?
    ensures GetApplicationById(DeleteApplication(db, userId, id).store, anyone, id)
      == Err(ServiceError(ApplicationNotFound))
  {
  }

  /** The payload of an update goes to the database unfiltered: a `userId`
      in it moves the row to that user, so the caller loses it and the other
      user gains it. */
  lemma UpdateCanTransferOwnership(db: Store, userId: Id, id: Id, other: Id, parseDate: DateParser)
    requires OwnedBy(db, userId, id) && other != userId
    ensures var s := UpdateApplication(db, userId, id, Payload(Some(other), None, None, None, None, map[]), parseDate);
      && s.result.Ok?
      && GetApplicationById(s.store, userId, id).Err?
      && GetApplicationById(s.store, other, id).Ok?
  {
  }

  /** Without a `userId` in the payload, a row stays with its owner. */
  lemma UpdateKeepsOwner(db: Store, userId: Id, id: Id, data: Payload, parseDate: DateParser)
    requires data.userId.None?
    ensures forall k :: k in db.rows ==>
      var s := UpdateApplication(db, userId, id, data, parseDate).store;
      k in s.rows && s.rows[k].userId == db.rows[k].userId
  {
  }

  /** The update path stores values that the create path's validation would
      reject: a blank company and an empty position. */
  lemma UpdateSkipsValidation(db: Store, userId: Id, id: Id, parseDate: DateParser)
    requires OwnedBy(db, userId, id)
    ensures var s := UpdateApplication(db, userId, id, Payload(None, Some(" "), Some(""), None, None, map[]), parseDate);
      && s.result.Ok?
      && Blank(s.result.value.company) && s.result.value.company != ""
      && s.result.value.position == ""
  {
    var a := UpdateApplication(db, userId, id, Payload(None, Some(" "), Some(""), None, None, map[]), parseDate).result.value;
    assert a.company == " ";
    assert a.company[0] in SpaceChars;
  }

  /** What the update path does refuse: a status outside the enumeration or
      a date the database cannot read, on the caller's own row, fails in the
      database and leaves the store as it was. */
  lemma UpdateRejectsBadColumns(db: Store, userId: Id, id: Id, data: Payload, parseDate: DateParser)
    requires OwnedBy(db, userId, id)
    requires (data.status.Some? && data.status.value !in ApplicationStatuses)
          || (data.applicationDate.Some? && parseDate(data.applicationDate.value).None?)
    ensures UpdateApplication(db, userId, id, data, parseDate).result.Err?
    ensures UpdateApplication(db, userId, id, data, parseDate).result.error.DatabaseError?
    ensures UpdateApplication(db, userId, id, data, parseDate).store == db
  {
  }

  // ---------------------------------------------------------------------
  // list

  datatype Filters = Filters(status: Option<string>, company: Option<string>, position: Option<string>)

  const NoFilters: Filters := Filters(None, None, None)

  /** JavaScript truthiness of an optional query string: absent and "" are
      both false. */
  predicate Truthy(f: Option<string>) {
    f.Some? && f.value != ""
  }

  /** A query's `where` clause: the owner, plus an optional exact status and
      optional case-insensitive substrings of company and position. */
  datatype Where = Where(userId: Id, status: Option<string>, company: Option<string>, position: Option<string>)

  /** `{ userId, ...(status && { status }), ...(company && {...}), ... }`:
      each filter contributes a condition only when it is truthy. */
  function BuildWhere(userId: Id, f: Filters): Where {
    Where(
      userId,
      if Truthy(f.status) then f.status else None,
      if Truthy(f.company) then f.company else None,
      if Truthy(f.position) then f.position else None)
  }

  /** `contains` with `mode: 'insensitive'`. */
  function ContainsIgnoreCase(hay: string, needle: string): bool {
    Contains(ToLower(hay), ToLower(needle))
  }

  /** The database's evaluation of a `where` clause on one row. */
  predicate Matches(a: Application, w: Where) {
    && a.userId == w.userId
    && (w.status.Some? ==> a.status == w.status.value)
    && (w.company.Some? ==> ContainsIgnoreCase(a.company, w.company.value))
    && (w.position.Some? ==> ContainsIgnoreCase(a.position, w.position.value))
  }

  /** The rows the list promises: the caller's own, with the exact status
      asked for and company and position containing the asked-for text
      regardless of letter case; an absent or empty filter asks nothing. */
  ghost predicate Selects(a: Application, userId: Id, f: Filters) {
    && a.userId == userId
    && (f.status.Some? && f.status.value != "" ==> a.status == f.status.value)
    && (f.company.Some? && f.company.value != "" ==> Occurs(ToLower(f.company.value), ToLower(a.company)))
    && (f.position.Some? && f.position.value != "" ==> Occurs(ToLower(f.position.value), ToLower(a.position)))
  }

  lemma WhereMeansSelects(userId: Id, f: Filters)
    ensures forall a :: Matches(a, BuildWhere(userId, f)) <==> Selects(a, userId, f)
  {
  }

  ghost predicate IncreasingIds(s: seq<Application>) {
    forall i, j :: 0 <= i < j < |s| ==> s[i].id < s[j].id
  }

  ghost predicate DistinctIds(s: seq<Application>) {
    forall i, j :: 0 <= i < j < |s| ==> s[i].id != s[j].id
  }

  /** Ordered by application date, most recent first. */
  ghost predicate NewestFirst(s: seq<Application>) {
    forall i, j :: 0 <= i < j < |s| ==> s[i].applicationDate >= s[j].applicationDate
  }

  /** The rows with id below `n`, in id order. */
  function Scan(db: Store, n: nat): (r: seq<Application>)
    ensures IncreasingIds(r)
    ensures forall a :: a in r <==> Stored(db, a) && a.id < n
    decreases n
  {
    if n == 0 then []
    else
      var prefix := Scan(db, n - 1);
      if n - 1 in db.rows then prefix + [db.rows[n - 1]] else prefix
  }

  /** Every row of the table, in id order. */
  function Rows(db: Store): (r: seq<Application>)
    ensures IncreasingIds(r)
    ensures forall a :: a in r <==> Stored(db, a)
  {
    Scan(db, db.nextId)
  }

  /** The rows of `rs` that satisfy `w`, in their original order. */
  function Select(rs: seq<Application>, w: Where): (r: seq<Application>)
    ensures forall a :: a in r <==> a in rs && Matches(a, w)
    ensures IncreasingIds(rs) ==> IncreasingIds(r)
    ensures |r| <= |rs|
  {
    if rs == [] then []
    else
      var rest := Select(rs[1..], w);
      if Matches(rs[0], w) then
        ConsIncreasing(rs, rest);
        [rs[0]] + rest
      else
        assert IncreasingIds(rs) ==> IncreasingIds(rs[1..]);
        rest
  }

  lemma ConsIncreasing(rs: seq<Application>, rest: seq<Application>)
    requires rs != []
    requires forall a :: a in rest ==> a in rs[1..]
    requires IncreasingIds(rs[1..]) ==> IncreasingIds(rest)
    ensures IncreasingIds(rs) ==> IncreasingIds([rs[0]] + rest)
  {
    if IncreasingIds(rs) {
      assert IncreasingIds(rs[1..]);
      var r := [rs[0]] + rest;
      forall i, j | 0 <= i < j < |r|
        ensures r[i].id < r[j].id
      {
        if i == 0 {
          assert r[j] in rs[1..];
          var k :| 0 <= k < |rs[1..]| && rs[1..][k] == r[j];
          assert rs[k + 1] == r[j];
        } else {
          assert r[i] == rest[i - 1] && r[j] == rest[j - 1];
        }
      }
    }
  }

  /** `[x] + rest` is newest first when `rest` is and `x` is dated no
      earlier than any row of `rest`. */
  lemma ConsNewest(x: Application, rest: seq<Application>)
    requires NewestFirst(rest)
    requires forall a :: a in rest ==> x.applicationDate >= a.applicationDate
    ensures NewestFirst([x] + rest)
  {
    var r := [x] + rest;
    forall i, j | 0 <= i < j < |r|
      ensures r[i].applicationDate >= r[j].applicationDate
    {
      assert r[j] == rest[j - 1];
      if i > 0 {
        assert r[i] == rest[i - 1];
      }
    }
  }

  lemma ConsDistinct(x: Application, rest: seq<Application>)
    ensures DistinctIds(rest) && (forall a :: a in rest ==> a.id != x.id) ==> DistinctIds([x] + rest)
  {
    if DistinctIds(rest) && (forall a :: a in rest ==> a.id != x.id) {
      var r := [x] + rest;
      forall i, j | 0 <= i < j < |r|
        ensures r[i].id != r[j].id
      {
        assert r[j] == rest[j - 1];
        if i > 0 {
          assert r[i] == rest[i - 1];
        }
      }
    }
  }

  /** The head of a newest-first sequence is dated no earlier than any of its
      rows, and the head of a sequence with distinct ids shares its id with
      no later row. */
  lemma HeadFacts(r: seq<Application>)
    requires r != [] && NewestFirst(r)
    ensures forall x :: x in r ==> r[0].applicationDate >= x.applicationDate
    ensures NewestFirst(r[1..])
    ensures DistinctIds(r) ==> DistinctIds(r[1..]) && forall x :: x in r[1..] ==> x.id != r[0].id
  {
    forall x | x in r ensures r[0].applicationDate >= x.applicationDate {
      var k :| 0 <= k < |r| && r[k] == x;
    }
    if DistinctIds(r) {
      forall x | x in r[1..] ensures x.id != r[0].id {
        var k :| 0 <= k < |r[1..]| && r[1..][k] == x;
        assert r[k + 1] == x;
      }
    }
  }

  /** Inserts `a` into a newest-first sequence, ahead of the rows dated no
      later than it. */
  function InsertByDate(r: seq<Application>, a: Application): (res: seq<Application>)
    requires NewestFirst(r)
    ensures NewestFirst(res)
    ensures |res| == |r| + 1
    ensures forall x :: x in res <==> x in r || x == a
    ensures multiset(res) == multiset(r) + multiset{a}
    ensures DistinctIds(r) && (forall x :: x in r ==> x.id != a.id) ==> DistinctIds(res)
  {
    if r == [] then [a]
    else if a.applicationDate >= r[0].applicationDate then
      HeadFacts(r);
      ConsNewest(a, r);
      ConsDistinct(a, r);
      [a] + r
    else
      HeadFacts(r);
      var rest := InsertByDate(r[1..], a);
      ConsNewest(r[0], rest);
      ConsDistinct(r[0], rest);
      assert r == [r[0]] + r[1..];
      [r[0]] + rest
  }

  /** `orderBy: { applicationDate: 'desc' }`. */
  function SortByDate(rs: seq<Application>): (r: seq<Application>)
    ensures NewestFirst(r)
    ensures |r| == |rs|
    ensures forall x :: x in r <==> x in rs
    ensures multiset(r) == multiset(rs)
    ensures DistinctIds(rs) ==> DistinctIds(r)
  {
    if rs == [] then []
    else
      assert rs == [rs[0]] + rs[1..];
      InsertByDate(SortByDate(rs[1..]), rs[0])
  }

  /** The caller's applications that pass every filter, each once, most
      recent first. A status filter outside the enumeration is refused by
      the database. */
  function GetApplications(db: Store, userId: Id, filters: Filters): (r: Result<seq<Application>>)
    ensures r.Ok? <==> !Truthy(filters.status) || filters.status.value in ApplicationStatuses
    ensures r.Err? ==> r.error == DatabaseError(InvalidValue("status"))
    ensures r.Ok? ==> forall a :: a in r.value <==> Stored(db, a) && Selects(a, userId, filters)
    ensures r.Ok? ==> DistinctIds(r.value)
    ensures r.Ok? ==> NewestFirst(r.value)
  {
    if Truthy(filters.status) && filters.status.value !in ApplicationStatuses then
      Err(DatabaseError(InvalidValue("status")))
    else
      WhereMeansSelects(userId, filters);
      Ok(SortByDate(Select(Rows(db), BuildWhere(userId, filters))))
  }
}
