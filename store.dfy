/** The database as the bot changes it: the `reservations`, `users`, `settings` and `slots`
    tables, and the statements of the update and insert modules, each as a method that
    rewrites the tables in place. Row ids are assigned from counters, as a serial column
    does. */
module Store {
  import opened Wrappers
  import opened Text
  import opened Records
  import opened Sql
  import Clock
  import Fetch
  import opened Sorting

  /** Why an UPDATE or INSERT did not happen. */
  datatype WriteError =
    | NoColumns      // `update_record` with an empty dictionary: ValueError
    | Rejected       // an unknown column, a repeated column or a mistyped value: the database raises

  // ------------------------------------------------------------ update_record

  /** Column names of one statement, with no name twice. */
  predicate DistinctNames(updates: seq<(string, Value)>)
  {
    forall i, j :: 0 <= i < j < |updates| ==> updates[i].0 != updates[j].0
  }

  /** The `reservations` table after `update_record('reservations', rowId, updates)`. */
  function UpdateRow(reservations: map<Id, Reservation>, rowId: Id, updates: seq<(string, Value)>)
    : (r: Result<map<Id, Reservation>, WriteError>)
    ensures r.Ok? <==> updates != [] && DistinctNames(updates) && Accepted(updates)
    ensures r.Err? ==> (r.error == NoColumns <==> updates == [])
    ensures r.Ok? ==> r.value.Keys == reservations.Keys
    ensures r.Ok? && rowId !in reservations ==> r.value == reservations
  {
    if updates == [] then Err(NoColumns)
    else if !DistinctNames(updates) || !Accepted(updates) then Err(Rejected)
    else if rowId in reservations then
      ApplyUpdatesDefined(reservations[rowId], updates);
      Ok(reservations[rowId := ApplyUpdates(reservations[rowId], updates).value])
    else Ok(reservations)
  }

  /** A successful update changes only the row with the given id, and in it only the
      columns the update names, each to the value given for it. */
  lemma UpdateRowEffect(reservations: map<Id, Reservation>, rowId: Id, updates: seq<(string, Value)>,
                        id: Id, c: Column)
    requires UpdateRow(reservations, rowId, updates).Ok?
    ensures UpdateRow(reservations, rowId, updates).value.Keys == reservations.Keys
    ensures id in reservations && id != rowId ==> UpdateRow(reservations, rowId, updates).value[id] == reservations[id]
    ensures rowId in reservations ==>
              Get(UpdateRow(reservations, rowId, updates).value[rowId], c)
              == if LastValue(updates, c.Name()).Some? then LastValue(updates, c.Name()).value
                 else Get(reservations[rowId], c)
  {
    if rowId in reservations {
      ColumnNameRoundTrip(c);
      ApplyUpdatesDefined(reservations[rowId], updates);
      ApplyUpdatesEffect(reservations[rowId], updates, c.Name());
    }
  }

  // ------------------------------------------------------------ rewriting every row

  /** Every row of a table rewritten by `f`. */
  function MapRows<V>(table: map<Id, V>, f: V -> V): (t: map<Id, V>)
    ensures t.Keys == table.Keys
    ensures forall id :: id in table ==> t[id] == f(table[id])
  {
    map id | id in table :: f(table[id])
  }

  /** The table once the rows `ids` have been rewritten by `f`, in that order. */
  function PartialMapRows<V>(table: map<Id, V>, ids: seq<Id>, f: V -> V): map<Id, V>
    requires forall k :: 0 <= k < |ids| ==> ids[k] in table
  {
    if ids == [] then table
    else
      var id := ids[|ids| - 1];
      PartialMapRows(table, ids[..|ids| - 1], f)[id := f(table[id])]
  }

  lemma {:induction false} PartialMapRowsKeys<V>(table: map<Id, V>, ids: seq<Id>, f: V -> V)
    requires forall k :: 0 <= k < |ids| ==> ids[k] in table
    ensures PartialMapRows(table, ids, f).Keys == table.Keys
  {
    if ids != [] {
      PartialMapRowsKeys(table, ids[..|ids| - 1], f);
    }
  }

  lemma {:induction false} PartialMapRowsAt<V>(table: map<Id, V>, ids: seq<Id>, f: V -> V, id: Id)
    requires forall k :: 0 <= k < |ids| ==> ids[k] in table
    requires id in table
    ensures id in PartialMapRows(table, ids, f)
    ensures PartialMapRows(table, ids, f)[id] == if id in ids then f(table[id]) else table[id]
  {
    PartialMapRowsKeys(table, ids, f);
    if ids != [] {
      var front := ids[..|ids| - 1];
      PartialMapRowsAt(table, front, f, id);
      assert ids == front + [ids[|ids| - 1]];
      assert id in ids <==> id in front || id == ids[|ids| - 1];
    }
  }

  /** One more row rewritten. */
  lemma PartialMapRowsStep<V>(table: map<Id, V>, ids: seq<Id>, i: nat, f: V -> V)
    requires i < |ids| && forall k :: 0 <= k < |ids| ==> ids[k] in table
    ensures PartialMapRows(table, ids[..i + 1], f) == PartialMapRows(table, ids[..i], f)[ids[i] := f(table[ids[i]])]
  {
    assert ids[..i + 1][..i] == ids[..i];
  }

  /** Rewriting every row in id order is rewriting the table. */
  lemma PartialMapRowsAll<V>(table: map<Id, V>, ids: seq<Id>, f: V -> V)
    requires forall x :: x in ids <==> x in table
    ensures forall k :: 0 <= k < |ids| ==> ids[k] in table
    ensures PartialMapRows(table, ids, f) == MapRows(table, f)
  {
    PartialMapRowsKeys(table, ids, f);
    var p := PartialMapRows(table, ids, f);
    var q := MapRows(table, f);
    forall id | id in p
      ensures p[id] == q[id]
    {
      assert id in ids;
      PartialMapRowsAt(table, ids, f, id);
    }
    assert p == q;
  }

  // ------------------------------------------------------------ the sweep

  /** `WHERE r.status IN ('processing', 'awaiting') AND r.updated_at < now() - stale`. */
  predicate Stuck(r: Reservation, now: int, staleMinutes: int)
  {
    (r.status == Processing || r.status == Awaiting) && r.updatedAt < now - staleMinutes * 60
  }

  /** The slot's start plus the grace period is already past. */
  predicate PastGrace(r: Reservation, now: int, graceMinutes: int)
  {
    Clock.LocalInstant(r.selectedDate, r.startTime) + graceMinutes * 60 < now
  }

  /** What the sweep writes into a stuck row. */
  function SweepRow(r: Reservation, now: int, graceMinutes: int): (s: Reservation)
    ensures s.status == (if PastGrace(r, now, graceMinutes) then Terminated else Status.Fail)
    ensures s.retries == r.retries + 1 && s.statusChange && s.updatedAt == now
    ensures s.failAt == (if s.status == Status.Fail then Some(now) else r.failAt)
    ensures s.terminatedAt == (if s.status == Terminated then Some(now) else r.terminatedAt)
    ensures s.(status := r.status, retries := r.retries, statusChange := r.statusChange, updatedAt := r.updatedAt,
               failAt := r.failAt, terminatedAt := r.terminatedAt) == r
  {
    if PastGrace(r, now, graceMinutes) then
      r.(status := Terminated, retries := r.retries + 1, statusChange := true, updatedAt := now,
         terminatedAt := Some(now))
    else
      r.(status := Status.Fail, retries := r.retries + 1, statusChange := true, updatedAt := now,
         failAt := Some(now))
  }

  /** A row as the sweep leaves it. */
  function Resolve(r: Reservation, now: int, staleMinutes: int, graceMinutes: int): Reservation
  {
    if Stuck(r, now, staleMinutes) then SweepRow(r, now, graceMinutes) else r
  }

  /** The table after the sweep. */
  function Swept(reservations: map<Id, Reservation>, now: int, staleMinutes: int, graceMinutes: int)
    : (swept: map<Id, Reservation>)
    ensures swept.Keys == reservations.Keys
    ensures forall id :: id in reservations && !Stuck(reservations[id], now, staleMinutes)
                         ==> swept[id] == reservations[id]
    ensures forall id :: id in swept ==> !Stuck(swept[id], now, staleMinutes)
  {
    MapRows(reservations, r => Resolve(r, now, staleMinutes, graceMinutes))
  }

  /** `RETURNING id, status, retries` for one row. */
  function Returned(id: Id, r: Reservation): (Id, Status, int)
  {
    (id, r.status, r.retries)
  }

  /** The `RETURNING id, status, retries` rows for the ids `ids`, in their order. */
  function SweptList(ids: seq<Id>, reservations: map<Id, Reservation>, now: int, staleMinutes: int, graceMinutes: int)
    : seq<(Id, Status, int)>
    requires forall k :: 0 <= k < |ids| ==> ids[k] in reservations
  {
    if ids == [] then []
    else
      var id := ids[|ids| - 1];
      var r := reservations[id];
      SweptList(ids[..|ids| - 1], reservations, now, staleMinutes, graceMinutes)
      + if Stuck(r, now, staleMinutes) then [Returned(id, SweepRow(r, now, graceMinutes))] else []
  }

  lemma SweptListStep(reservations: map<Id, Reservation>, ids: seq<Id>, i: nat, now: int, staleMinutes: int, graceMinutes: int)
    requires i < |ids| && forall k :: 0 <= k < |ids| ==> ids[k] in reservations
    ensures var r := reservations[ids[i]];
            SweptList(ids[..i + 1], reservations, now, staleMinutes, graceMinutes)
            == SweptList(ids[..i], reservations, now, staleMinutes, graceMinutes)
               + if Stuck(r, now, staleMinutes) then [Returned(ids[i], SweepRow(r, now, graceMinutes))] else []
  {
    assert ids[..i + 1][..i] == ids[..i];
  }

  /** After a sweep no row is stuck, and a second sweep at the same moment changes nothing. */
  lemma SweepSettles(reservations: map<Id, Reservation>, now: int, staleMinutes: int, graceMinutes: int)
    ensures forall id :: id in Swept(reservations, now, staleMinutes, graceMinutes)
              ==> !Stuck(Swept(reservations, now, staleMinutes, graceMinutes)[id], now, staleMinutes)
    ensures Swept(Swept(reservations, now, staleMinutes, graceMinutes), now, staleMinutes, graceMinutes)
            == Swept(reservations, now, staleMinutes, graceMinutes)
  {
    var once := Swept(reservations, now, staleMinutes, graceMinutes);
    var twice := Swept(once, now, staleMinutes, graceMinutes);
    assert twice.Keys == once.Keys;
    forall id | id in once
      ensures twice[id] == once[id]
    {
      assert !Stuck(once[id], now, staleMinutes);
    }
  }

  /** A row the sweep leaves alone is one that was not stuck. */
  lemma SweepTouchesOnlyStuck(reservations: map<Id, Reservation>, now: int, staleMinutes: int, graceMinutes: int, id: Id)
    requires id in reservations
    ensures Swept(reservations, now, staleMinutes, graceMinutes)[id] != reservations[id]
            <==> Stuck(reservations[id], now, staleMinutes)
  {
    if Stuck(reservations[id], now, staleMinutes) {
      assert Swept(reservations, now, staleMinutes, graceMinutes)[id].retries == reservations[id].retries + 1;
    }
  }

  // ------------------------------------------------------------ cancellation

  /** `update_cancel_status`: the row as a user's cancellation leaves it. */
  function CancelRow(r: Reservation, now: int): (c: Reservation)
    ensures c.status == Canceled && c.notified && c.statusChange
    ensures c.canceledAt == Some(now) && c.updatedAt == now
    ensures c.(status := r.status, canceledAt := r.canceledAt, notified := r.notified,
               statusChange := r.statusChange, updatedAt := r.updatedAt) == r
  {
    r.(status := Canceled, canceledAt := Some(now), notified := true, statusChange := true, updatedAt := now)
  }

  /** A canceled row leaves the engine's queue and is never swept. */
  lemma CanceledLeavesQueue(reservations: map<Id, Reservation>, users: map<Id, User>, id: Id, now: int,
                            today: int, staleMinutes: int)
    requires id in reservations
    ensures var after := reservations[id := CancelRow(reservations[id], now)];
            (forall row :: row in Fetch.FetchPendingReservations(after, users, today) ==> row.id != id)
            && !Stuck(after[id], now, staleMinutes)
  {
    var after := reservations[id := CancelRow(reservations[id], now)];
  }

  // ------------------------------------------------------------ users and priorities

  /** The conflict key of `users`: `(codice_fiscale, email, name)`. */
  function UserKey(u: User): (string, string, string)
  {
    (u.codiceFiscale, u.email, u.name)
  }

  predicate UniqueUserKeys(users: map<Id, User>)
  {
    forall a, b :: a in users && b in users && UserKey(users[a]) == UserKey(users[b]) ==> a == b
  }

  /** The first of `ids` whose user has the key. */
  function FirstWithKey(ids: seq<Id>, users: map<Id, User>, key: (string, string, string)): (found: Option<Id>)
    requires forall k :: 0 <= k < |ids| ==> ids[k] in users
    ensures found.Some? ==> found.value in ids && UserKey(users[found.value]) == key
    ensures found.None? ==> forall k :: 0 <= k < |ids| ==> UserKey(users[ids[k]]) != key
  {
    if ids == [] then None
    else if UserKey(users[ids[0]]) == key then Some(ids[0])
    else FirstWithKey(ids[1..], users, key)
  }

  /** `SELECT id FROM users WHERE codice_fiscale = $1 AND email = $2 AND name = $3`. */
  function FindUser(users: map<Id, User>, key: (string, string, string)): (found: Option<Id>)
    ensures found.Some? ==> found.value in users && UserKey(users[found.value]) == key
    ensures found.None? ==> forall id :: id in users ==> UserKey(users[id]) != key
  {
    FirstWithKey(Fetch.SortedIds(users.Keys), users, key)
  }

  /** With the key unique, the lookup finds the one user holding it. */
  lemma FindUserUnique(users: map<Id, User>, id: Id)
    requires UniqueUserKeys(users) && id in users
    ensures FindUser(users, UserKey(users[id])) == Some(id)
  {
  }

  /** The priority `sync_user_priorities` gives a user: the table's entry for the upper-cased
      codice fiscale, or the default. */
  function PriorityFor(priorities: map<string, int>, defaultPriority: int, u: User): int
  {
    var codice := Upper(u.codiceFiscale);
    if codice in priorities then priorities[codice] else defaultPriority
  }

  function Reprioritised(users: map<Id, User>, priorities: map<string, int>, defaultPriority: int): map<Id, User>
  {
    MapRows(users, (u: User) => u.(priority := PriorityFor(priorities, defaultPriority, u)))
  }

  /** Syncing changes nothing but priorities, and syncing twice is syncing once. */
  lemma ReprioritisedSettles(users: map<Id, User>, priorities: map<string, int>, defaultPriority: int)
    ensures var once := Reprioritised(users, priorities, defaultPriority);
            once.Keys == users.Keys
            && (forall id :: id in users ==> UserKey(once[id]) == UserKey(users[id]) && once[id].chatId == users[id].chatId)
            && Reprioritised(once, priorities, defaultPriority) == once
  {
    var once := Reprioritised(users, priorities, defaultPriority);
    var twice := Reprioritised(once, priorities, defaultPriority);
    assert twice.Keys == once.Keys;
    forall id | id in once
      ensures twice[id] == once[id]
    {
    }
  }

  // ------------------------------------------------------------ the writer

  /** The conversation's answers `writer` reads from `user_data`. Dates are day numbers,
      the start a minute of the day; `updatedAt` and `createdAt` are None when absent. */
  datatype Draft = Draft(
    userId: Id,
    selectedDate: int,
    displayDate: string,
    startTime: Clock.MinuteOfDay,
    duration: int,
    bookingCode: string,
    retries: int,
    status: string,
    updatedAt: Option<int>,
    createdAt: Option<int>,
    instant: bool,
    statusChange: bool,
    successAt: Option<int>,
    failAt: Option<int>)

  /** The time of day an interval of `duration` hours ends, on a 24-hour clock. */
  function EndOfDay(start: int, duration: int): (m: Clock.MinuteOfDay)
    ensures (m - start - 60 * duration) % 1440 == 0
  {
    (start + 60 * duration) % 1440
  }

  function OrNow(t: Option<int>, now: int): int
  {
    if t.Some? then t.value else now
  }

  /** The columns `writer` inserts, in its dictionary's order. */
  function WriterColumns(d: Draft, now: int): seq<(string, Value)>
  {
    [("user_id", IntV(d.userId)),
     ("selected_date", IntV(d.selectedDate)),
     ("display_date", StrV(d.displayDate)),
     ("start_time", IntV(d.startTime)),
     ("end_time", IntV(EndOfDay(d.startTime, d.duration))),
     ("selected_duration", IntV(d.duration)),
     ("booking_code", StrV(d.bookingCode)),
     ("retries", IntV(d.retries)),
     ("status", StrV(d.status)),
     ("updated_at", IntV(OrNow(d.updatedAt, now))),
     ("created_at", IntV(OrNow(d.createdAt, now))),
     ("instant", BoolV(d.instant)),
     ("status_change", BoolV(d.statusChange)),
     ("inserted_at", IntV(now))]
    + (if d.instant && d.status == "success" then [("success_at", OptionalTime(d.successAt))]
       else if d.instant && d.status == "fail" then [("fail_at", OptionalTime(d.failAt))]
       else [])
  }

  /** `success_at` is written only for an instant success and `fail_at` only for an instant
      failure; no column is written twice; the end time is the start plus the duration. */
  lemma WriterColumnsShape(d: Draft, now: int)
    ensures var w := WriterColumns(d, now);
            ("success_at" in Columns(w) <==> d.instant && d.status == "success")
            && ("fail_at" in Columns(w) <==> d.instant && d.status == "fail")
            && DistinctNames(w)
            && w[4] == ("end_time", IntV(EndOfDay(d.startTime, d.duration)))
  {
    var w := WriterColumns(d, now);
    var tail := WriterTail(d);
    WriterBaseNames();
    assert Columns(w) == WriterBase + tail;
    forall i, j | 0 <= i < j < |w|
      ensures w[i].0 != w[j].0
    {
      assert Columns(w)[i] == w[i].0 && Columns(w)[j] == w[j].0;
    }
  }

  /** The columns `writer` always inserts. */
  const WriterBase: seq<string> := ["user_id", "selected_date", "display_date", "start_time", "end_time",
    "selected_duration", "booking_code", "retries", "status", "updated_at", "created_at", "instant",
    "status_change", "inserted_at"]

  function WriterTail(d: Draft): seq<string>
  {
    if d.instant && d.status == "success" then ["success_at"]
    else if d.instant && d.status == "fail" then ["fail_at"] else []
  }

  lemma WriterBaseNames()
    ensures "success_at" !in WriterBase && "fail_at" !in WriterBase
    ensures Distinct(WriterBase)
  {
    var columns := WriterBaseColumns();
    WriterBaseNamed();
    OrdinalsIncreasing(columns);
    forall i | 0 <= i < |WriterBase|
      ensures ColumnNamed(WriterBase[i]) == Some(columns[i])
    {
      ColumnNameRoundTrip(columns[i]);
    }
    ColumnNameRoundTrip(SuccessAt);
    ColumnNameRoundTrip(FailAt);
  }

  /** The columns named by `WriterBase`, numbered in order. */
  function WriterBaseColumns(): (columns: seq<Column>)
    ensures |columns| == 14
    ensures forall i :: 0 <= i < |columns| ==> Ordinal(columns[i]) == i
  {
    [UserId, SelectedDate, DisplayDate, StartTime, EndTime, SelectedDuration, BookingCode, Retries,
     StatusColumn, UpdatedAt, CreatedAt, Instant, StatusChange, InsertedAt]
  }

  lemma WriterBaseNamed()
    ensures |WriterBase| == |WriterBaseColumns()|
    ensures forall i :: 0 <= i < |WriterBase| ==> WriterBaseColumns()[i].Name() == WriterBase[i]
  {
  }

  // ------------------------------------------------------------ the rewriting loops

  /** The sweep's pass over the table, row by row in id order. */
  method SweepTable(before: map<Id, Reservation>, now: int, staleMinutes: int, graceMinutes: int)
    returns (after: map<Id, Reservation>, swept: seq<(Id, Status, int)>)
    ensures after == Swept(before, now, staleMinutes, graceMinutes)
    ensures swept == SweptList(Fetch.SortedIds(before.Keys), before, now, staleMinutes, graceMinutes)
  {
    var ids := Fetch.SortedIds(before.Keys);
    ghost var resolve := (r: Reservation) => Resolve(r, now, staleMinutes, graceMinutes);
    after := before;
    swept := [];
    var i := 0;
    while i < |ids|
      invariant 0 <= i <= |ids|
      invariant after == PartialMapRows(before, ids[..i], resolve)
      invariant swept == SweptList(ids[..i], before, now, staleMinutes, graceMinutes)
    {
      var id := ids[i];
      var r := before[id];
      PartialMapRowsStep(before, ids, i, resolve);
      SweptListStep(before, ids, i, now, staleMinutes, graceMinutes);
      if Stuck(r, now, staleMinutes) {
        var s := SweepRow(r, now, graceMinutes);
        swept := swept + [Returned(id, s)];
      }
      after := after[id := Resolve(r, now, staleMinutes, graceMinutes)];
      i := i + 1;
    }
    assert ids[..i] == ids;
    PartialMapRowsAll(before, ids, resolve);
  }

  /** `sync_user_priorities`'s pass over the users, in id order; the count of users updated. */
  method SyncTable(before: map<Id, User>, priorities: map<string, int>, defaultPriority: int)
    returns (after: map<Id, User>, count: nat)
    ensures after == Reprioritised(before, priorities, defaultPriority)
    ensures count == |before.Keys|
  {
    var ids := Fetch.SortedIds(before.Keys);
    ghost var sync := (u: User) => u.(priority := PriorityFor(priorities, defaultPriority, u));
    after := before;
    var i := 0;
    while i < |ids|
      invariant 0 <= i <= |ids|
      invariant after == PartialMapRows(before, ids[..i], sync)
    {
      var id := ids[i];
      PartialMapRowsStep(before, ids, i, sync);
      after := after[id := before[id].(priority := PriorityFor(priorities, defaultPriority, before[id]))];
      i := i + 1;
    }
    assert ids[..i] == ids;
    PartialMapRowsAll(before, ids, sync);
    Fetch.SortedIdsIncreasing(before.Keys);
    count := |ids|;
  }

  // ------------------------------------------------------------ the tables

  class Database {
    var reservations: map<Id, Reservation>
    var users: map<Id, User>
    var settings: map<string, string>
    var slots: seq<(string, int)>
    var nextReservationId: Id
    var nextUserId: Id

    /** Ids come from the counters, and no two users share a conflict key. */
    ghost predicate Valid()
      reads this
    {
      (forall id :: id in reservations ==> id < nextReservationId)
      && (forall id :: id in users ==> id < nextUserId)
      && UniqueUserKeys(users)
    }

    constructor()
      ensures Valid()
      ensures reservations == map[] && users == map[] && settings == map[] && slots == []
    {
      reservations := map[];
      users := map[];
      settings := map[];
      slots := [];
      nextReservationId := 0;
      nextUserId := 0;
    }

    /** `upsert_setting`: the key maps to the value afterwards, new or not. */
    method UpsertSetting(key: string, value: string)
      requires Valid()
      modifies this
      ensures Valid()
      ensures settings == old(settings)[key := value]
      ensures reservations == old(reservations) && users == old(users) && slots == old(slots)
      ensures nextReservationId == old(nextReservationId) && nextUserId == old(nextUserId)
    {
      settings := settings[key := value];
    }

    /** `update_cancel_status`: the row with the id, if any, becomes canceled. */
    method UpdateCancelStatus(id: Id, now: int)
      requires Valid()
      modifies this
      ensures Valid()
      ensures reservations == if id in old(reservations) then old(reservations)[id := CancelRow(old(reservations)[id], now)]
                              else old(reservations)
      ensures users == old(users) && settings == old(settings) && slots == old(slots)
      ensures nextReservationId == old(nextReservationId) && nextUserId == old(nextUserId)
    {
      if id in reservations {
        reservations := reservations[id := CancelRow(reservations[id], now)];
      }
    }

    /** `update_record('reservations', rowId, updates)`: the numbered statement is built,
        bound and applied; an empty update fails before anything is touched. */
    method UpdateRecord(rowId: Id, updates: seq<(string, Value)>) returns (outcome: Outcome<WriteError>)
      requires Valid()
      modifies this
      ensures Valid()
      ensures outcome.Pass? <==> UpdateRow(old(reservations), rowId, updates).Ok?
      ensures outcome.Fail? ==> outcome.error == UpdateRow(old(reservations), rowId, updates).error
                                && reservations == old(reservations)
      ensures outcome.Pass? ==> reservations == UpdateRow(old(reservations), rowId, updates).value
      ensures users == old(users) && settings == old(settings) && slots == old(slots)
      ensures nextReservationId == old(nextReservationId) && nextUserId == old(nextUserId)
    {
      if updates == [] {
        return Outcome.Fail(NoColumns);
      }
      var (query, params) := BuildUpdateQuery("reservations", updates, rowId);
      BuildThenBind("reservations", updates, rowId);
      var bound := Bind(query, params).value;
      var (assignments, target) := bound;
      if !DistinctNames(assignments) || !Accepted(assignments) {
        return Outcome.Fail(Rejected);
      }
      if target.i in reservations {
        ApplyUpdatesDefined(reservations[target.i], assignments);
        reservations := reservations[target.i := ApplyUpdates(reservations[target.i], assignments).value];
      }
      outcome := Pass;
    }

    /** `sweep_stuck_reservations`: every stuck row is resolved, and the resolved rows are
        returned in id order. */
    method SweepStuckReservations(now: int, staleMinutes: int, graceMinutes: int)
      returns (swept: seq<(Id, Status, int)>)
      requires Valid()
      modifies this
      ensures Valid()
      ensures reservations == Swept(old(reservations), now, staleMinutes, graceMinutes)
      ensures swept == SweptList(Fetch.SortedIds(old(reservations).Keys), old(reservations), now, staleMinutes, graceMinutes)
      ensures users == old(users) && settings == old(settings) && slots == old(slots)
      ensures nextReservationId == old(nextReservationId) && nextUserId == old(nextUserId)
    {
      reservations, swept := SweepTable(reservations, now, staleMinutes, graceMinutes);
    }

    /** `sync_user_priorities`: every user gets the priority of the table, and the number of
        users is returned. */
    method SyncUserPriorities(priorities: map<string, int>, defaultPriority: int) returns (count: nat)
      requires Valid()
      modifies this
      ensures Valid()
      ensures users == Reprioritised(old(users), priorities, defaultPriority)
      ensures count == |old(users).Keys|
      ensures reservations == old(reservations) && settings == old(settings) && slots == old(slots)
      ensures nextReservationId == old(nextReservationId) && nextUserId == old(nextUserId)
    {
      users, count := SyncTable(users, priorities, defaultPriority);
      ReprioritisedSettles(old(users), priorities, defaultPriority);
    }

    /** `insert_user`: get-or-create on `(codice_fiscale, email, name)`. */
    method InsertUser(u: User) returns (id: Id)
      requires Valid()
      modifies this
      ensures Valid()
      ensures id in users && UserKey(users[id]) == UserKey(u)
      ensures old(FindUser(users, UserKey(u))).Some? ==> id == old(FindUser(users, UserKey(u))).value && users == old(users)
      ensures old(FindUser(users, UserKey(u))).None? ==> id !in old(users) && users == old(users)[id := u]
      ensures reservations == old(reservations) && settings == old(settings) && slots == old(slots)
    {
      var existing := FindUser(users, UserKey(u));
      if existing.Some? {
        return existing.value;
      }
      id := nextUserId;
      users := users[id := u];
      nextUserId := nextUserId + 1;
    }

    /** `insert_reservation`: a new row holding the given columns; the columns the insert
        leaves out hold what `defaults` holds. */
    method InsertReservation(data: seq<(string, Value)>, defaults: Reservation) returns (outcome: Result<Id, WriteError>)
      requires Valid()
      modifies this
      ensures Valid()
      ensures outcome.Ok? <==> DistinctNames(data) && Accepted(data)
      ensures outcome.Err? ==> outcome.error == Rejected && reservations == old(reservations)
      ensures outcome.Ok? ==> outcome.value !in old(reservations)
                              && ApplyUpdates(defaults, data).Some?
                              && reservations == old(reservations)[outcome.value := ApplyUpdates(defaults, data).value]
      ensures users == old(users) && settings == old(settings) && slots == old(slots)
    {
      ApplyUpdatesDefined(defaults, data);
      if !DistinctNames(data) || !Accepted(data) {
        return Err(Rejected);
      }
      var id := nextReservationId;
      reservations := reservations[id := ApplyUpdates(defaults, data).value];
      nextReservationId := nextReservationId + 1;
      outcome := Ok(id);
    }

    /** `writer`: the conversation's answers inserted as a reservation. */
    method Writer(d: Draft, now: int, defaults: Reservation) returns (outcome: Result<Id, WriteError>)
      requires Valid()
      modifies this
      ensures Valid()
      ensures outcome.Ok? <==> Accepted(WriterColumns(d, now))
      ensures outcome.Ok? ==> ApplyUpdates(defaults, WriterColumns(d, now)).Some?
                              && reservations == old(reservations)[outcome.value := ApplyUpdates(defaults, WriterColumns(d, now)).value]
      ensures outcome.Err? ==> reservations == old(reservations)
      ensures users == old(users) && settings == old(settings) && slots == old(slots)
    {
      WriterColumnsShape(d, now);
      outcome := InsertReservation(WriterColumns(d, now), defaults);
    }

    /** `insert_slots`: one row per slot, in the given order, in one transaction. */
    method InsertSlots(newSlots: seq<(string, int)>)
      requires Valid()
      modifies this
      ensures Valid()
      ensures slots == old(slots) + newSlots
      ensures reservations == old(reservations) && users == old(users) && settings == old(settings)
      ensures nextReservationId == old(nextReservationId) && nextUserId == old(nextUserId)
    {
      var i := 0;
      while i < |newSlots|
        invariant 0 <= i <= |newSlots|
        invariant slots == old(slots) + newSlots[..i]
        invariant reservations == old(reservations) && users == old(users) && settings == old(settings)
        invariant nextReservationId == old(nextReservationId) && nextUserId == old(nextUserId)
      {
        slots := slots + [newSlots[i]];
        assert newSlots[..i + 1] == newSlots[..i] + [newSlots[i]];
        i := i + 1;
      }
      assert newSlots[..i] == newSlots;
    }
  }

  /** Inserting a user who is already there returns the same id and changes nothing: the
      second call of `insert_user` with the same data finds the first call's row. */
  lemma InsertUserRepeats(users: map<Id, User>, id: Id, u: User)
    requires UniqueUserKeys(users) && id in users && UserKey(users[id]) == UserKey(u)
    ensures FindUser(users, UserKey(u)) == Some(id)
  {
    FindUserUnique(users, id);
  }
}
