/**
  Application statistics: how many applications the caller has, and how many
  of them are in each status. The total is a count query over the caller's
  rows; the per-status figures come from a group-by query whose rows are
  folded into an object keyed by status.
 */
module ApplicationStats {
  import opened Common
  import opened Applications

  datatype Stats = Stats(total: nat, byStatus: map<string, nat>)

  /** One row of the group-by result: a status and its `_count`. */
  datatype StatusCount = StatusCount(status: string, count: nat)

  ghost predicate DistinctStrings(ks: seq<string>) {
    forall i, j :: 0 <= i < j < |ks| ==> ks[i] != ks[j]
  }

  ghost predicate DistinctStatuses(gs: seq<StatusCount>) {
    forall i, j :: 0 <= i < j < |gs| ==> gs[i].status != gs[j].status
  }

  /** `where: { userId }`. */
  function OwnerWhere(userId: Id): Where {
    Where(userId, None, None, None)
  }

  /** One group of `groupBy({ by: ['status'], where: { userId } })`. */
  function StatusWhere(userId: Id, status: string): Where {
    Where(userId, Some(status), None, None)
  }

  /** The ids of the rows in the table that satisfy `w`. */
  ghost function MatchingIds(db: Store, w: Where): set<Id> {
    set id | id in db.rows && Matches(db.rows[id], w)
  }

  /** The ids of the rows of `s`. */
  function IdsOf(s: seq<Application>): (ids: set<Id>)
    ensures forall id :: id in ids <==> exists a :: a in s && a.id == id
  {
    if s == [] then {} else {s[0].id} + IdsOf(s[1..])
  }

  lemma {:induction false} IncreasingIdsCount(s: seq<Application>)
    requires IncreasingIds(s)
    ensures |IdsOf(s)| == |s|
  {
    if s != [] {
      var rest := s[1..];
      assert IncreasingIds(rest);
      IncreasingIdsCount(rest);
      HeadIdFresh(s);
      assert IdsOf(s) == {s[0].id} + IdsOf(rest);
    }
  }

  lemma HeadIdFresh(s: seq<Application>)
    requires s != [] && IncreasingIds(s)
    ensures s[0].id !in IdsOf(s[1..])
  {
    var rest := s[1..];
    forall a | a in rest
      ensures s[0].id < a.id
    {
      var k :| 0 <= k < |rest| && rest[k] == a;
      assert s[k + 1] == a;
    }
  }

  /** Counting the selected rows counts the matching rows of the table. */
  lemma SelectCount(db: Store, w: Where)
    ensures |Select(Rows(db), w)| == |MatchingIds(db, w)|
  {
    var s := Select(Rows(db), w);
    IncreasingIdsCount(s);
    assert IdsOf(s) == MatchingIds(db, w) by {
      forall id | id in MatchingIds(db, w) ensures id in IdsOf(s) {
        assert db.rows[id] in s && db.rows[id].id == id;
      }
      forall id | id in IdsOf(s) ensures id in MatchingIds(db, w) {
        var a :| a in s && a.id == id;
        assert Stored(db, a);
      }
    }
  }

  /** Some row of `rs` belongs to `userId` and has status `st`. */
  ghost predicate UsesStatus(rs: seq<Application>, userId: Id, st: string) {
    exists a :: a in rs && a.userId == userId && a.status == st
  }

  lemma UsesStatusCons(rs: seq<Application>, userId: Id, st: string)
    requires rs != []
    ensures UsesStatus(rs, userId, st) <==>
      (rs[0].userId == userId && rs[0].status == st) || UsesStatus(rs[1..], userId, st)
  {
    assert rs == [rs[0]] + rs[1..];
  }

  /** The distinct statuses of the caller's rows in `rs`. */
  function StatusesOf(rs: seq<Application>, userId: Id): (ks: seq<string>)
    ensures DistinctStrings(ks)
    ensures forall st :: st in ks <==> UsesStatus(rs, userId, st)
  {
    if rs == [] then []
    else
      var rest := StatusesOf(rs[1..], userId);
      assert forall st :: UsesStatus(rs, userId, st) <==>
        (rs[0].userId == userId && rs[0].status == st) || UsesStatus(rs[1..], userId, st) by {
        forall st { UsesStatusCons(rs, userId, st); }
      }
      if rs[0].userId == userId && rs[0].status !in rest then
        var ks := [rs[0].status] + rest;
        assert forall j :: 0 <= j < |rest| ==> ks[j + 1] == rest[j];
        ks
      else rest
  }

  /** The group-by result: one row per status the caller uses, with the
      number of the caller's rows in that status. */
  function GroupByStatus(rows: seq<Application>, userId: Id): seq<StatusCount> {
    var ks := StatusesOf(rows, userId);
    seq(|ks|, i requires 0 <= i < |ks| => StatusCount(ks[i], |Select(rows, StatusWhere(userId, ks[i]))|))
  }

  /** `byStatus.reduce((acc, item) => { acc[item.status] = item._count; ... }, {})`. */
  function ReduceByStatus(gs: seq<StatusCount>): (m: map<string, nat>)
    ensures forall st :: st in m <==> exists i :: 0 <= i < |gs| && gs[i].status == st
    ensures DistinctStatuses(gs) ==> forall i :: 0 <= i < |gs| ==> m[gs[i].status] == gs[i].count
  {
    if gs == [] then map[]
    else
      var prefix := gs[..|gs| - 1];
      var last := gs[|gs| - 1];
      var m := ReduceByStatus(prefix);
      assert forall i :: 0 <= i < |prefix| ==> prefix[i] == gs[i];
      assert DistinctStatuses(gs) ==> DistinctStatuses(prefix);
      m[last.status := last.count]
  }

  /** The sum of the counts of a group-by result. */
  function TotalCount(gs: seq<StatusCount>): nat {
    if gs == [] then 0 else TotalCount(gs[..|gs| - 1]) + gs[|gs| - 1].count
  }

  /** The sum of the values of `m` at the keys `ks`. */
  ghost function SumKeys(m: map<string, nat>, ks: set<string>): nat
    requires ks <= m.Keys
    decreases ks
  {
    if ks == {} then 0 else var k :| k in ks; m[k] + SumKeys(m, ks - {k})
  }

  /** The sum of all values of `m`. */
  ghost function MapSum(m: map<string, nat>): nat {
    SumKeys(m, m.Keys)
  }

  /** Any key may be taken out of the sum first. */
  lemma {:induction false} SumKeysRemove(m: map<string, nat>, ks: set<string>, k: string)
    requires ks <= m.Keys && k in ks
    ensures SumKeys(m, ks) == m[k] + SumKeys(m, ks - {k})
    decreases ks
  {
    var k' :| k' in ks && SumKeys(m, ks) == m[k'] + SumKeys(m, ks - {k'});
    if k' != k {
      SumKeysRemove(m, ks - {k'}, k);
      SumKeysRemove(m, ks - {k}, k');
      assert ks - {k'} - {k} == ks - {k} - {k'};
    }
  }

  /** Two maps that agree on `ks` have the same sum over `ks`. */
  lemma {:induction false} SumKeysAgree(m1: map<string, nat>, m2: map<string, nat>, ks: set<string>)
    requires ks <= m1.Keys && ks <= m2.Keys
    requires forall k :: k in ks ==> m1[k] == m2[k]
    ensures SumKeys(m1, ks) == SumKeys(m2, ks)
    decreases ks
  {
    if ks != {} {
      var k :| k in ks;
      SumKeysRemove(m1, ks, k);
      SumKeysRemove(m2, ks, k);
      SumKeysAgree(m1, m2, ks - {k});
    }
  }

  /** Folding a group-by result with distinct statuses into a map keeps the
      sum of the counts. */
  lemma {:induction false} ReduceKeepsSum(gs: seq<StatusCount>)
    requires DistinctStatuses(gs)
    ensures MapSum(ReduceByStatus(gs)) == TotalCount(gs)
  {
    if gs != [] {
      var prefix := gs[..|gs| - 1];
      var last := gs[|gs| - 1];
      assert forall i :: 0 <= i < |prefix| ==> prefix[i] == gs[i];
      assert DistinctStatuses(prefix);
      ReduceKeepsSum(prefix);
      var m := ReduceByStatus(prefix);
      var m' := m[last.status := last.count];
      assert ReduceByStatus(gs) == m';
      assert last.status !in m;
      assert m'.Keys == m.Keys + {last.status};
      SumKeysRemove(m', m'.Keys, last.status);
      assert m'.Keys - {last.status} == m.Keys;
      SumKeysAgree(m', m, m.Keys);
    }
  }

  /** The number of times `st` occurs in `ks`. */
  function Occurrences(ks: seq<string>, st: string): nat {
    if ks == [] then 0 else Occurrences(ks[..|ks| - 1], st) + (if ks[|ks| - 1] == st then 1 else 0)
  }

  lemma {:induction false} OccursOnce(ks: seq<string>, st: string)
    requires DistinctStrings(ks)
    ensures Occurrences(ks, st) == (if st in ks then 1 else 0)
  {
    if ks != [] {
      var prefix := ks[..|ks| - 1];
      assert forall i :: 0 <= i < |prefix| ==> prefix[i] == ks[i];
      assert DistinctStrings(prefix);
      OccursOnce(prefix, st);
      assert ks == prefix + [ks[|ks| - 1]];
      assert ks[|ks| - 1] == st ==> st !in prefix;
    }
  }

  /** The sum, over the statuses `ks`, of the caller's rows of `rs` in each. */
  ghost function SumCounts(rs: seq<Application>, userId: Id, ks: seq<string>): nat {
    if ks == [] then 0
    else SumCounts(rs, userId, ks[..|ks| - 1]) + |Select(rs, StatusWhere(userId, ks[|ks| - 1]))|
  }

  lemma {:induction false} SumCountsCons(rs: seq<Application>, userId: Id, ks: seq<string>)
    requires rs != []
    ensures SumCounts(rs, userId, ks) ==
      (if rs[0].userId == userId then Occurrences(ks, rs[0].status) else 0) + SumCounts(rs[1..], userId, ks)
  {
    if ks != [] {
      SumCountsCons(rs, userId, ks[..|ks| - 1]);
    }
  }

  lemma {:induction false} SumCountsCover(rs: seq<Application>, userId: Id, ks: seq<string>)
    requires DistinctStrings(ks)
    requires forall a :: a in rs && a.userId == userId ==> a.status in ks
    ensures SumCounts(rs, userId, ks) == |Select(rs, OwnerWhere(userId))|
  {
    if rs == [] {
      SumCountsEmpty(userId, ks);
    } else {
      SumCountsCons(rs, userId, ks);
      OccursOnce(ks, rs[0].status);
      assert forall a :: a in rs[1..] ==> a in rs;
      SumCountsCover(rs[1..], userId, ks);
    }
  }

  lemma {:induction false} SumCountsEmpty(userId: Id, ks: seq<string>)
    ensures SumCounts([], userId, ks) == 0
  {
    if ks != [] {
      SumCountsEmpty(userId, ks[..|ks| - 1]);
    }
  }

  lemma {:induction false} GroupTotal(rows: seq<Application>, userId: Id, ks: seq<string>)
    ensures TotalCount(seq(|ks|, i requires 0 <= i < |ks| => StatusCount(ks[i], |Select(rows, StatusWhere(userId, ks[i]))|)))
      == SumCounts(rows, userId, ks)
  {
    var gs := seq(|ks|, i requires 0 <= i < |ks| => StatusCount(ks[i], |Select(rows, StatusWhere(userId, ks[i]))|));
    if ks != [] {
      var prefix := ks[..|ks| - 1];
      GroupTotal(rows, userId, prefix);
      assert gs[..|gs| - 1] == seq(|prefix|, i requires 0 <= i < |prefix| => StatusCount(prefix[i], |Select(rows, StatusWhere(userId, prefix[i]))|));
    }
  }

  /** The ids of the caller's rows. */
  ghost function OwnedIds(db: Store, userId: Id): set<Id> {
    set id | id in db.rows && db.rows[id].userId == userId
  }

  /** The ids of the caller's rows in status `st`. */
  ghost function OwnedIdsWithStatus(db: Store, userId: Id, st: string): set<Id> {
    set id | id in db.rows && db.rows[id].userId == userId && db.rows[id].status == st
  }

  lemma TotalIsOwnedCount(db: Store, userId: Id)
    ensures |Select(Rows(db), OwnerWhere(userId))| == |OwnedIds(db, userId)|
  {
    SelectCount(db, OwnerWhere(userId));
    assert MatchingIds(db, OwnerWhere(userId)) == OwnedIds(db, userId);
  }

  lemma StatusCountIsOwnedCount(db: Store, userId: Id, st: string)
    ensures |Select(Rows(db), StatusWhere(userId, st))| == |OwnedIdsWithStatus(db, userId, st)|
  {
    SelectCount(db, StatusWhere(userId, st));
    assert MatchingIds(db, StatusWhere(userId, st)) == OwnedIdsWithStatus(db, userId, st);
  }

  lemma UsesStatusInStore(db: Store, userId: Id, st: string)
    ensures UsesStatus(Rows(db), userId, st) <==> OwnedIdsWithStatus(db, userId, st) != {}
  {
    if UsesStatus(Rows(db), userId, st) {
      var a :| a in Rows(db) && a.userId == userId && a.status == st;
      assert a.id in OwnedIdsWithStatus(db, userId, st);
    }
    if OwnedIdsWithStatus(db, userId, st) != {} {
      var id :| id in OwnedIdsWithStatus(db, userId, st);
      assert db.rows[id] in Rows(db);
    }
  }

  /** The folded group-by result has a key for each status the caller uses,
      holding the number of the caller's rows in that status. */
  lemma GroupedCounts(rows: seq<Application>, userId: Id)
    ensures DistinctStatuses(GroupByStatus(rows, userId))
    ensures forall st :: st in ReduceByStatus(GroupByStatus(rows, userId)) <==> UsesStatus(rows, userId, st)
    ensures forall st :: st in ReduceByStatus(GroupByStatus(rows, userId)) ==>
      ReduceByStatus(GroupByStatus(rows, userId))[st] == |Select(rows, StatusWhere(userId, st))|
  {
    var ks := StatusesOf(rows, userId);
    var groups := GroupByStatus(rows, userId);
    var m := ReduceByStatus(groups);
    assert forall i :: 0 <= i < |groups| ==> groups[i].status == ks[i];
    forall st | st in m
      ensures m[st] == |Select(rows, StatusWhere(userId, st))|
    {
      var i :| 0 <= i < |groups| && groups[i].status == st;
    }
    forall st | st in ks
      ensures st in m
    {
      var i :| 0 <= i < |ks| && ks[i] == st;
      assert groups[i].status == st;
    }
  }

  /** The counts of the group-by result add up to the caller's row count. */
  lemma GroupedSum(rows: seq<Application>, userId: Id)
    ensures MapSum(ReduceByStatus(GroupByStatus(rows, userId))) == |Select(rows, OwnerWhere(userId))|
  {
    var ks := StatusesOf(rows, userId);
    GroupedCounts(rows, userId);
    ReduceKeepsSum(GroupByStatus(rows, userId));
    GroupTotal(rows, userId, ks);
    assert forall a :: a in rows && a.userId == userId ==> a.status in ks by {
      forall a | a in rows && a.userId == userId ensures a.status in ks {
        assert UsesStatus(rows, userId, a.status);
      }
    }
    SumCountsCover(rows, userId, ks);
  }

  /** `getStats`: the number of the caller's applications, and for each
      status in use among them the number in that status. */
  function GetStats(db: Store, userId: Id): (s: Stats)
    ensures s.total == |OwnedIds(db, userId)|
    ensures forall st :: st in s.byStatus <==> OwnedIdsWithStatus(db, userId, st) != {}
    ensures forall st :: st in s.byStatus ==> s.byStatus[st] == |OwnedIdsWithStatus(db, userId, st)|
    ensures MapSum(s.byStatus) == s.total
    ensures forall st :: st in s.byStatus ==> st in ApplicationStatuses
  {
    var rows := Rows(db);
    var groups := GroupByStatus(rows, userId);
    var s := Stats(|Select(rows, OwnerWhere(userId))|, ReduceByStatus(groups));
    TotalIsOwnedCount(db, userId);
    GroupedCounts(rows, userId);
    GroupedSum(rows, userId);
    assert forall st :: st in s.byStatus <==> OwnedIdsWithStatus(db, userId, st) != {} by {
      forall st { UsesStatusInStore(db, userId, st); }
    }
    assert forall st :: st in s.byStatus ==> s.byStatus[st] == |OwnedIdsWithStatus(db, userId, st)| by {
      forall st | st in s.byStatus { StatusCountIsOwnedCount(db, userId, st); }
    }
    s
  }

  /** The unfiltered list has as many rows as the caller owns. */
  lemma ListLength(db: Store, userId: Id)
    ensures GetApplications(db, userId, NoFilters).Ok?
    ensures |GetApplications(db, userId, NoFilters).value| == |OwnedIds(db, userId)|
  {
    assert BuildWhere(userId, NoFilters) == OwnerWhere(userId);
    var rows := Select(Rows(db), OwnerWhere(userId));
    assert GetApplications(db, userId, NoFilters) == Ok(SortByDate(rows));
    TotalIsOwnedCount(db, userId);
  }

  /** The list filtered by a status of the enumeration has as many rows as
      the caller owns in that status. */
  lemma FilteredListLength(db: Store, userId: Id, st: string)
    requires st in ApplicationStatuses
    ensures GetApplications(db, userId, Filters(Some(st), None, None)).Ok?
    ensures |GetApplications(db, userId, Filters(Some(st), None, None)).value|
         == |OwnedIdsWithStatus(db, userId, st)|
  {
    assert BuildWhere(userId, Filters(Some(st), None, None)) == StatusWhere(userId, st);
    var rows := Select(Rows(db), StatusWhere(userId, st));
    assert GetApplications(db, userId, Filters(Some(st), None, None)) == Ok(SortByDate(rows));
    StatusCountIsOwnedCount(db, userId, st);
  }

  /** The statistics agree with the list: the total is the length of the
      unfiltered list; for a status of the enumeration the count is the
      length of the list filtered by that status, which is empty when the
      status has no key; any other non-empty status makes the list fail. */
  lemma StatsAgreeWithList(db: Store, userId: Id, st: string)
    ensures GetApplications(db, userId, NoFilters).Ok?
    ensures GetStats(db, userId).total == |GetApplications(db, userId, NoFilters).value|
    ensures st in ApplicationStatuses ==>
      && GetApplications(db, userId, Filters(Some(st), None, None)).Ok?
      && |GetApplications(db, userId, Filters(Some(st), None, None)).value|
         == if st in GetStats(db, userId).byStatus then GetStats(db, userId).byStatus[st] else 0
    ensures st != "" && st !in ApplicationStatuses ==>
      GetApplications(db, userId, Filters(Some(st), None, None)).Err?
  {
    ListLength(db, userId);
    if st in ApplicationStatuses {
      FilteredListLength(db, userId, st);
    }
  }
}
