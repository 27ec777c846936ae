/** The read-only queries over `reservations` joined with `users`: the engine's claim of
    today's open requests, a user's own reservations, and a booking-code lookup. Tables are
    maps from row id to row; the rows a query returns are joined `(id, reservation, user)`
    triples, listed in the query's `ORDER BY`. */
module Fetch {
  import opened Wrappers
  import opened Records
  import opened Sorting

  // ------------------------------------------------------------ ids in ascending order

  lemma HasMinimum(s: set<Id>)
    requires s != {}
    ensures exists m :: m in s && forall x :: x in s ==> m <= x
  {
    var m := Least(s);
    assert m in s && forall x :: x in s ==> m <= x;
  }

  /** A smallest element of a non-empty set, found by taking elements out one by one. */
  lemma {:induction false} Least(s: set<Id>) returns (m: Id)
    requires s != {}
    ensures m in s && forall x :: x in s ==> m <= x
    decreases |s|
  {
    var y :| y in s;
    var rest := s - {y};
    if rest == {} {
      assert s == {y};
      m := y;
    } else {
      var m' := Least(rest);
      m := if y < m' then y else m';
      forall x | x in s
        ensures m <= x
      {
        if x != y {
          assert x in rest;
        }
      }
    }
  }

  /** The smallest id of a non-empty set. */
  function MinId(s: set<Id>): (m: Id)
    requires s != {}
    ensures m in s && forall x :: x in s ==> m <= x
  {
    HasMinimum(s);
    var m :| m in s && forall x :: x in s ==> m <= x;
    m
  }

  predicate Increasing(ids: seq<Id>)
  {
    forall i, j :: 0 <= i < j < |ids| ==> ids[i] < ids[j]
  }

  /** The ids of a table in ascending order. */
  function SortedIds(s: set<Id>): (ids: seq<Id>)
    ensures forall x :: x in ids <==> x in s
    decreases s
  {
    if s == {} then []
    else
      var m := MinId(s);
      [m] + SortedIds(s - {m})
  }

  /** The ids come in ascending order, so each comes once. */
  lemma {:induction false} SortedIdsIncreasing(s: set<Id>)
    ensures Increasing(SortedIds(s))
    ensures |SortedIds(s)| == |s|
    decreases s
  {
    if s != {} {
      var m := MinId(s);
      SortedIdsIncreasing(s - {m});
      var rest := SortedIds(s - {m});
      assert SortedIds(s) == [m] + rest;
      assert |s - {m}| == |s| - 1;
      forall k | 0 <= k < |rest|
        ensures m < rest[k]
      {
        var x := rest[k];
        assert x in s - {m};
        assert x in s && x != m;
      }
      ConsIncreasing(m, rest);
    }
  }

  lemma ConsIncreasing(m: Id, rest: seq<Id>)
    requires Increasing(rest) && forall k :: 0 <= k < |rest| ==> m < rest[k]
    ensures Increasing([m] + rest)
  {
    var ids := [m] + rest;
    forall i, j | 0 <= i < j < |ids|
      ensures ids[i] < ids[j]
    {
      assert ids[j] == rest[j - 1];
      if i > 0 {
        assert ids[i] == rest[i - 1];
      }
    }
  }

  // ------------------------------------------------------------ the join

  /** A row of `reservations r JOIN users u ON r.user_id = u.id`. */
  datatype JoinedRow = JoinedRow(id: Id, reservation: Reservation, user: User)

  /** A triple that the join really produces from these tables. */
  predicate Genuine(reservations: map<Id, Reservation>, users: map<Id, User>, row: JoinedRow)
  {
    row.id in reservations && row.reservation == reservations[row.id]
    && row.reservation.userId in users && row.user == users[row.reservation.userId]
  }

  predicate DistinctIds(rows: seq<JoinedRow>)
  {
    forall i, j :: 0 <= i < j < |rows| ==> rows[i].id != rows[j].id
  }

  /** The join over the reservation ids `ids`, in their order; a reservation whose user is
      missing yields no row. */
  function JoinIds(ids: seq<Id>, reservations: map<Id, Reservation>, users: map<Id, User>): (rows: seq<JoinedRow>)
    requires forall k :: 0 <= k < |ids| ==> ids[k] in reservations
    ensures forall row :: row in rows <==> row.id in ids && Genuine(reservations, users, row)
    ensures Increasing(ids) ==> DistinctIds(rows) && forall row :: row in rows && |ids| > 0 ==> ids[0] <= row.id
  {
    if ids == [] then []
    else
      var rest := JoinIds(ids[1..], reservations, users);
      var r := reservations[ids[0]];
      if r.userId in users then [JoinedRow(ids[0], r, users[r.userId])] + rest else rest
  }

  /** The whole join, in id order. */
  function Join(reservations: map<Id, Reservation>, users: map<Id, User>): (rows: seq<JoinedRow>)
    ensures forall row :: row in rows <==> Genuine(reservations, users, row)
    ensures DistinctIds(rows)
  {
    SortedIdsIncreasing(reservations.Keys);
    JoinIds(SortedIds(reservations.Keys), reservations, users)
  }

  /** `WHERE keep(row)`, keeping the order. */
  function Where(rows: seq<JoinedRow>, keep: JoinedRow -> bool): (kept: seq<JoinedRow>)
    ensures forall row :: row in kept <==> row in rows && keep(row)
    ensures DistinctIds(rows) ==> DistinctIds(kept)
  {
    if rows == [] then []
    else
      var rest := Where(rows[1..], keep);
      if keep(rows[0]) then
        ConsDistinct(rows, rest);
        [rows[0]] + rest
      else
        assert DistinctIds(rows) ==> DistinctIds(rows[1..]);
        rest
  }

  /** Putting the first row back in front of rows drawn from the others keeps the ids distinct. */
  lemma ConsDistinct(rows: seq<JoinedRow>, rest: seq<JoinedRow>)
    requires rows != [] && forall row :: row in rest ==> row in rows[1..]
    requires DistinctIds(rows[1..]) ==> DistinctIds(rest)
    ensures DistinctIds(rows) ==> DistinctIds([rows[0]] + rest)
  {
    if DistinctIds(rows) {
      assert DistinctIds(rows[1..]);
      var ids := [rows[0]] + rest;
      forall i, j | 0 <= i < j < |ids|
        ensures ids[i].id != ids[j].id
      {
        assert ids[j] == rest[j - 1];
        if i == 0 {
          assert rest[j - 1] in rest;
          var k :| 0 <= k < |rows[1..]| && rows[1..][k] == rest[j - 1];
          assert rows[k + 1] == rest[j - 1];
        } else {
          assert ids[i] == rest[i - 1];
        }
      }
    }
  }

  /** Reordering rows keeps their ids distinct. */
  lemma DistinctIdsPermutation(xs: seq<JoinedRow>, ys: seq<JoinedRow>)
    requires DistinctIds(xs) && multiset(xs) == multiset(ys)
    ensures DistinctIds(ys)
  {
    forall i, j | 0 <= i < j < |ys|
      ensures ys[i].id != ys[j].id
    {
      if ys[i].id == ys[j].id {
        assert ys[i] in multiset(xs) && ys[j] in multiset(xs);
        var a :| 0 <= a < |xs| && xs[a] == ys[i];
        var b :| 0 <= b < |xs| && xs[b] == ys[j];
        if a == b {
          assert ys[i] == ys[j];
          assert ys == ys[..i] + [ys[i]] + ys[i + 1..j] + [ys[j]] + ys[j + 1..];
          assert multiset(ys)[ys[i]] >= 2;
          assert Distinct(xs);
          DistinctCount(xs, ys[i]);
        }
      }
    }
  }

  /** `SELECT … FROM reservations r JOIN users u … WHERE keep ORDER BY key`. */
  function Select(reservations: map<Id, Reservation>, users: map<Id, User>,
                  keep: JoinedRow -> bool, key: JoinedRow -> seq<int>): (rows: seq<JoinedRow>)
    ensures forall row :: row in rows <==> Genuine(reservations, users, row) && keep(row)
    ensures DistinctIds(rows)
    ensures SortedBy(rows, key)
  {
    var kept := Where(Join(reservations, users), keep);
    var sorted := SortBy(kept, key);
    assert forall row :: row in sorted <==> row in multiset(kept);
    DistinctIdsPermutation(kept, sorted);
    sorted
  }

  // ------------------------------------------------------------ the engine's claim

  /** `WHERE r.selected_date = CURRENT_DATE AND r.status IN ('pending', 'fail')`. */
  predicate PendingToday(today: int, row: JoinedRow)
  {
    row.reservation.selectedDate == today
    && (row.reservation.status == Pending || row.reservation.status == Status.Fail)
  }

  /** `ORDER BY u.priority, r.selected_date, r.selected_duration DESC, r.start_time`. */
  function PendingOrder(row: JoinedRow): seq<int>
  {
    [row.user.priority, row.reservation.selectedDate, -row.reservation.selectedDuration, row.reservation.startTime]
  }

  /** `fetch_pending_reservations`: today's pending and failed requests whose user exists. */
  function FetchPendingReservations(reservations: map<Id, Reservation>, users: map<Id, User>, today: int)
    : (rows: seq<JoinedRow>)
    ensures forall row :: row in rows <==> Genuine(reservations, users, row) && PendingToday(today, row)
    ensures DistinctIds(rows)
    ensures SortedBy(rows, PendingOrder)
  {
    Select(reservations, users, row => PendingToday(today, row), PendingOrder)
  }

  /** Within one priority, a longer request comes first; at equal priority and duration,
      the earlier start comes first (every row being dated today). */
  lemma PendingOrderMeaning(reservations: map<Id, Reservation>, users: map<Id, User>, today: int, i: nat, j: nat)
    requires i < j < |FetchPendingReservations(reservations, users, today)|
    ensures var rows := FetchPendingReservations(reservations, users, today);
            rows[i].user.priority <= rows[j].user.priority
            && (rows[i].user.priority == rows[j].user.priority
                ==> rows[i].reservation.selectedDuration >= rows[j].reservation.selectedDuration)
            && (rows[i].user.priority == rows[j].user.priority
                && rows[i].reservation.selectedDuration == rows[j].reservation.selectedDuration
                ==> rows[i].reservation.startTime <= rows[j].reservation.startTime)
  {
    var rows := FetchPendingReservations(reservations, users, today);
    assert rows[i] in rows && rows[j] in rows;
    SameDayOrder(rows, today, i, j);
  }

  lemma SameDayOrder(rows: seq<JoinedRow>, today: int, i: nat, j: nat)
    requires i < j < |rows| && SortedBy(rows, PendingOrder)
    requires rows[i].reservation.selectedDate == today && rows[j].reservation.selectedDate == today
    ensures rows[i].user.priority <= rows[j].user.priority
    ensures rows[i].user.priority == rows[j].user.priority
            ==> rows[i].reservation.selectedDuration >= rows[j].reservation.selectedDuration
    ensures rows[i].user.priority == rows[j].user.priority
            && rows[i].reservation.selectedDuration == rows[j].reservation.selectedDuration
            ==> rows[i].reservation.startTime <= rows[j].reservation.startTime
  {
    LexLeFour(PendingOrder(rows[i]), PendingOrder(rows[j]));
  }

  /** What a lexicographic comparison says about four-part keys. */
  lemma LexLeFour(a: seq<int>, b: seq<int>)
    requires |a| == 4 && |b| == 4 && LexLe(a, b)
    ensures a[0] <= b[0]
    ensures a[0] == b[0] && a[1] == b[1] ==> a[2] <= b[2]
    ensures a[0] == b[0] && a[1] == b[1] && a[2] == b[2] ==> a[3] <= b[3]
  {
    if a[0] == b[0] {
      assert LexLe(a[1..], b[1..]);
      if a[1] == b[1] {
        assert LexLe(a[1..][1..], b[1..][1..]);
        if a[2] == b[2] {
          assert LexLe(a[1..][1..][1..], b[1..][1..][1..]);
        }
      }
    }
  }

  // ------------------------------------------------------------ a user's reservations

  /** `WHERE u.codice_fiscale = $1 AND u.email = $2 [AND r.display_date::TEXT = $3]`; the
      date filter is there when a display date is given. */
  predicate OwnedBy(codice: string, email: string, displayDate: Option<string>, row: JoinedRow)
  {
    row.user.codiceFiscale == codice && row.user.email == email
    && (displayDate.Some? ==> row.reservation.displayDate == displayDate.value)
  }

  /** `ORDER BY r.selected_date DESC`. */
  function LatestFirst(row: JoinedRow): seq<int>
  {
    [-row.reservation.selectedDate]
  }

  /** `fetch_user_reservations`. */
  function FetchUserReservations(reservations: map<Id, Reservation>, users: map<Id, User>,
                                 codice: string, email: string, displayDate: Option<string>): (rows: seq<JoinedRow>)
    ensures forall row :: row in rows <==> Genuine(reservations, users, row) && OwnedBy(codice, email, displayDate, row)
    ensures DistinctIds(rows)
    ensures SortedBy(rows, LatestFirst)
  {
    Select(reservations, users, row => OwnedBy(codice, email, displayDate, row), LatestFirst)
  }

  /** A user sees exactly their own rows (on the given date, when one is given), latest date
      first. */
  lemma FetchUserExact(reservations: map<Id, Reservation>, users: map<Id, User>,
                       codice: string, email: string, displayDate: Option<string>, i: nat, j: nat)
    ensures forall row :: row in FetchUserReservations(reservations, users, codice, email, displayDate)
                          <==> Genuine(reservations, users, row) && OwnedBy(codice, email, displayDate, row)
    ensures var rows := FetchUserReservations(reservations, users, codice, email, displayDate);
            i < j < |rows| ==> rows[i].reservation.selectedDate >= rows[j].reservation.selectedDate
  {
    var rows := FetchUserReservations(reservations, users, codice, email, displayDate);
    if i < j < |rows| {
      assert LexLe(LatestFirst(rows[i]), LatestFirst(rows[j]));
    }
  }

  /** Adding the date filter can only narrow the list. */
  lemma DateFilterNarrows(reservations: map<Id, Reservation>, users: map<Id, User>,
                          codice: string, email: string, date: string, row: JoinedRow)
    requires row in FetchUserReservations(reservations, users, codice, email, Some(date))
    ensures row in FetchUserReservations(reservations, users, codice, email, None)
    ensures row.reservation.displayDate == date
  {
  }

  // ------------------------------------------------------------ lookup by id

  /** `fetch_reservation_by_id`: the row's booking code, or None where there is no such row. */
  function FetchReservationById(reservations: map<Id, Reservation>, id: Id): (code: Option<string>)
    ensures code.Some? <==> id in reservations
    ensures code.Some? ==> code.value == reservations[id].bookingCode
  {
    if id in reservations then Some(reservations[id].bookingCode) else None
  }
}
