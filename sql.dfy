/** The parameterised SQL the store builds: `$k` placeholders, the column list of an
    INSERT, the SET list of an UPDATE, and what the database does when it binds the
    parameters and applies an assignment to a `reservations` row. */
module Sql {
  import opened Wrappers
  import opened Text
  import opened Records

  /** A parameter value as the driver passes it. */
  datatype Value = IntV(i: int) | StrV(s: string) | BoolV(b: bool) | NullV

  // ------------------------------------------------------------ placeholders

  /** `f"${k}"`. */
  function Placeholder(k: nat): string
  {
    "$" + NatToString(k)
  }

  /** The parameter number a placeholder refers to, as the database reads it. */
  function ParamIndex(p: string): Option<nat>
  {
    if |p| >= 2 && p[0] == '$' && AllDigits(p[1..]) then Some(DigitsValue(p[1..])) else None
  }

  /** The database reads back from a placeholder the number it was written with. */
  lemma ParamIndexPlaceholder(k: nat)
    ensures ParamIndex(Placeholder(k)) == Some(k)
  {
    assert Placeholder(k)[1..] == NatToString(k);
  }

  function Columns(data: seq<(string, Value)>): (cs: seq<string>)
    ensures |cs| == |data| && forall i :: 0 <= i < |data| ==> cs[i] == data[i].0
  {
    seq(|data|, i requires 0 <= i < |data| => data[i].0)
  }

  function ValuesOf(data: seq<(string, Value)>): (vs: seq<Value>)
    ensures |vs| == |data| && forall i :: 0 <= i < |data| ==> vs[i] == data[i].1
  {
    seq(|data|, i requires 0 <= i < |data| => data[i].1)
  }

  /** `$1`, …, `$n`. */
  function Placeholders(n: nat): (ps: seq<string>)
    ensures |ps| == n && forall i :: 0 <= i < n ==> ps[i] == Placeholder(i + 1)
  {
    seq(n, i requires 0 <= i < n => Placeholder(i + 1))
  }

  // ------------------------------------------------------------ INSERT

  /** `_prepare_insert_parts(data)`: the column list, the placeholder list and the values,
      all in the dictionary's key order. */
  function PrepareInsertParts(data: seq<(string, Value)>): (parts: (string, string, seq<Value>))
  {
    (Join(Columns(data), ", "), Join(Placeholders(|data|), ", "), ValuesOf(data))
  }

  /** In an INSERT built from these parts, the i-th column's placeholder refers to the i-th
      parameter, which is that column's value. */
  lemma InsertPartsBind(data: seq<(string, Value)>, i: nat)
    requires i < |data|
    ensures PrepareInsertParts(data).0 == Join(Columns(data), ", ")
    ensures PrepareInsertParts(data).1 == Join(Placeholders(|data|), ", ")
    ensures ParamIndex(Placeholders(|data|)[i]) == Some(i + 1)
    ensures |PrepareInsertParts(data).2| == |data| && PrepareInsertParts(data).2[i] == data[i].1
  {
    ParamIndexPlaceholder(i + 1);
  }

  // ------------------------------------------------------------ UPDATE

  /** An UPDATE statement: each assignment names a column and a parameter number, and the
      row is picked by the parameter `whereParam`. */
  datatype UpdateQuery = UpdateQuery(table: string, assignments: seq<(string, nat)>, whereParam: nat)

  /** The statement `update_record(table, row_id, updates)` prepares, and its parameters. */
  function BuildUpdateQuery(table: string, updates: seq<(string, Value)>, rowId: Id): (qv: (UpdateQuery, seq<Value>))
  {
    var assignments := seq(|updates|, i requires 0 <= i < |updates| => (updates[i].0, i + 1));
    (UpdateQuery(table, assignments, |updates| + 1), ValuesOf(updates) + [IntV(rowId)])
  }

  /** The SQL text of an update: "UPDATE t SET c1 = $1, c2 = $2 WHERE id = $3". */
  function RenderUpdateQuery(q: UpdateQuery): string
  {
    var sets := seq(|q.assignments|, i requires 0 <= i < |q.assignments| => q.assignments[i].0 + " = " + Placeholder(q.assignments[i].1));
    "UPDATE " + q.table + " SET " + Join(sets, ", ") + " WHERE id = " + Placeholder(q.whereParam)
  }

  /** Binding parameters as the database does: `$k` is the k-th parameter. None where a
      placeholder has no parameter. */
  function Bind(q: UpdateQuery, params: seq<Value>): Option<(seq<(string, Value)>, Value)>
  {
    if (forall i :: 0 <= i < |q.assignments| ==> 1 <= q.assignments[i].1 <= |params|)
       && 1 <= q.whereParam <= |params|
    then
      Some((seq(|q.assignments|, i requires 0 <= i < |q.assignments| => (q.assignments[i].0, params[q.assignments[i].1 - 1])),
            params[q.whereParam - 1]))
    else None
  }

  /** The numbering `update_record` uses is right: once bound, every column receives its own
      value and the WHERE clause receives the row id. */
  lemma BuildThenBind(table: string, updates: seq<(string, Value)>, rowId: Id)
    ensures Bind(BuildUpdateQuery(table, updates, rowId).0, BuildUpdateQuery(table, updates, rowId).1)
            == Some((updates, IntV(rowId)))
  {
    var (q, params) := BuildUpdateQuery(table, updates, rowId);
    var bound := Bind(q, params);
    assert bound.Some?;
    assert bound.value.0 == updates;
  }

  // ------------------------------------------------------------ columns of reservations

  /** The columns of `reservations`. */
  datatype Column =
    | UserId | SelectedDate | DisplayDate | StartTime | EndTime | SelectedDuration | BookingCode
    | Retries | StatusColumn | StatusChange | Notified | Instant | UpdatedAt | CreatedAt | InsertedAt
    | SuccessAt | FailAt | TerminatedAt | CanceledAt
  {
    /** The column's name in SQL. */
    function Name(): string
    {
      match this
      case UserId => "user_id"
      case SelectedDate => "selected_date"
      case DisplayDate => "display_date"
      case StartTime => "start_time"
      case EndTime => "end_time"
      case SelectedDuration => "selected_duration"
      case BookingCode => "booking_code"
      case Retries => "retries"
      case StatusColumn => "status"
      case StatusChange => "status_change"
      case Notified => "notified"
      case Instant => "instant"
      case UpdatedAt => "updated_at"
      case CreatedAt => "created_at"
      case InsertedAt => "inserted_at"
      case SuccessAt => "success_at"
      case FailAt => "fail_at"
      case TerminatedAt => "terminated_at"
      case CanceledAt => "canceled_at"
    }
  }

  /** A numbering of the columns (the order `writer` lists them in, then the rest), by which
      lists of columns are told apart cheaply. */
  function Ordinal(c: Column): nat
  {
    match c
    case UserId => 0
    case SelectedDate => 1
    case DisplayDate => 2
    case StartTime => 3
    case EndTime => 4
    case SelectedDuration => 5
    case BookingCode => 6
    case Retries => 7
    case StatusColumn => 8
    case UpdatedAt => 9
    case CreatedAt => 10
    case Instant => 11
    case StatusChange => 12
    case InsertedAt => 13
    case SuccessAt => 14
    case FailAt => 15
    case Notified => 16
    case TerminatedAt => 17
    case CanceledAt => 18
  }

  /** Columns listed in increasing `Ordinal` are all different. */
  lemma {:induction false} OrdinalsIncreasing(cs: seq<Column>)
    requires forall i :: 0 <= i < |cs| - 1 ==> Ordinal(cs[i]) < Ordinal(cs[i + 1])
    ensures forall i, j :: 0 <= i < j < |cs| ==> Ordinal(cs[i]) < Ordinal(cs[j])
  {
    if |cs| > 1 {
      OrdinalsIncreasing(cs[1..]);
      forall j | 1 <= j < |cs|
        ensures Ordinal(cs[0]) < Ordinal(cs[j])
      {
        assert cs[j] == cs[1..][j - 1];
        assert cs[1] == cs[1..][0];
      }
      forall i, j | 1 <= i < j < |cs|
        ensures Ordinal(cs[i]) < Ordinal(cs[j])
      {
        assert cs[i] == cs[1..][i - 1] && cs[j] == cs[1..][j - 1];
      }
    }
  }

  /** The column a name refers to, or None where `reservations` has no such column. The
      names are grouped by length, so that a name is only compared with names as long as it. */
  function ColumnNamed(c: string): (col: Option<Column>)
    ensures col.Some? ==> col.value.Name() == c
  {
    match |c|
    case 6 => if c == "status" then Some(StatusColumn) else None
    case 7 =>
      if c == "user_id" then Some(UserId)
      else if c == "retries" then Some(Retries)
      else if c == "instant" then Some(Instant)
      else if c == "fail_at" then Some(FailAt)
      else None
    case 8 =>
      if c == "end_time" then Some(EndTime)
      else if c == "notified" then Some(Notified)
      else None
    case 10 =>
      if c == "start_time" then Some(StartTime)
      else if c == "updated_at" then Some(UpdatedAt)
      else if c == "created_at" then Some(CreatedAt)
      else if c == "success_at" then Some(SuccessAt)
      else None
    case 11 =>
      if c == "inserted_at" then Some(InsertedAt)
      else if c == "canceled_at" then Some(CanceledAt)
      else None
    case 12 =>
      if c == "display_date" then Some(DisplayDate)
      else if c == "booking_code" then Some(BookingCode)
      else None
    case 13 =>
      if c == "selected_date" then Some(SelectedDate)
      else if c == "status_change" then Some(StatusChange)
      else if c == "terminated_at" then Some(TerminatedAt)
      else None
    case 17 => if c == "selected_duration" then Some(SelectedDuration) else None
    case _ => None
  }

  /** Every column is found under its own name. */
  lemma ColumnNameRoundTrip(c: Column)
    ensures ColumnNamed(c.Name()) == Some(c)
  {
  }

  function OptionalTime(t: Option<int>): Value
  {
    if t.Some? then IntV(t.value) else NullV
  }

  function TimeOf(v: Value): Option<int>
  {
    if v.IntV? then Some(v.i) else None
  }

  /** The value a row holds in a column. */
  function Get(r: Reservation, c: Column): Value
  {
    match c
    case UserId => IntV(r.userId)
    case SelectedDate => IntV(r.selectedDate)
    case DisplayDate => StrV(r.displayDate)
    case StartTime => IntV(r.startTime)
    case EndTime => IntV(r.endTime)
    case SelectedDuration => IntV(r.selectedDuration)
    case BookingCode => StrV(r.bookingCode)
    case Retries => IntV(r.retries)
    case StatusColumn => StrV(r.status.Name())
    case StatusChange => BoolV(r.statusChange)
    case Notified => BoolV(r.notified)
    case Instant => BoolV(r.instant)
    case UpdatedAt => IntV(r.updatedAt)
    case CreatedAt => IntV(r.createdAt)
    case InsertedAt => IntV(r.insertedAt)
    case SuccessAt => OptionalTime(r.successAt)
    case FailAt => OptionalTime(r.failAt)
    case TerminatedAt => OptionalTime(r.terminatedAt)
    case CanceledAt => OptionalTime(r.canceledAt)
  }

  /** Whether a column accepts a value of this kind. */
  predicate Accepts(c: Column, v: Value)
  {
    match c
    case UserId => v.IntV? && v.i >= 0
    case DisplayDate | BookingCode => v.StrV?
    case StatusColumn => v.StrV? && StatusNamed(v.s).Some?
    case StartTime | EndTime => v.IntV? && 0 <= v.i < 1440
    case StatusChange | Notified | Instant => v.BoolV?
    case SuccessAt | FailAt | TerminatedAt | CanceledAt => v.IntV? || v.NullV?
    case _ => v.IntV?
  }

  /** `SET c = v` on one row. */
  function Set(r: Reservation, c: Column, v: Value): (r': Reservation)
    requires Accepts(c, v)
  {
    match c
    case UserId => r.(userId := v.i)
    case SelectedDate => r.(selectedDate := v.i)
    case DisplayDate => r.(displayDate := v.s)
    case StartTime => r.(startTime := v.i)
    case EndTime => r.(endTime := v.i)
    case SelectedDuration => r.(selectedDuration := v.i)
    case BookingCode => r.(bookingCode := v.s)
    case Retries => r.(retries := v.i)
    case StatusColumn => r.(status := StatusNamed(v.s).value)
    case StatusChange => r.(statusChange := v.b)
    case Notified => r.(notified := v.b)
    case Instant => r.(instant := v.b)
    case UpdatedAt => r.(updatedAt := v.i)
    case CreatedAt => r.(createdAt := v.i)
    case InsertedAt => r.(insertedAt := v.i)
    case SuccessAt => r.(successAt := TimeOf(v))
    case FailAt => r.(failAt := TimeOf(v))
    case TerminatedAt => r.(terminatedAt := TimeOf(v))
    case CanceledAt => r.(canceledAt := TimeOf(v))
  }

  /** Setting a column: that column now reads the value written. */
  lemma SetThenGetSame(r: Reservation, c: Column, v: Value)
    requires Accepts(c, v)
    ensures Get(Set(r, c, v), c) == v
  {
  }

  /** Setting a column leaves every other column as it was. */
  lemma SetThenGetOther(r: Reservation, c: Column, v: Value, d: Column)
    requires Accepts(c, v) && d != c
    ensures Get(Set(r, c, v), d) == Get(r, d)
  {
    match c {
      case UserId =>
      case SelectedDate =>
      case DisplayDate =>
      case StartTime =>
      case EndTime =>
      case SelectedDuration =>
      case BookingCode =>
      case Retries =>
      case StatusColumn =>
      case StatusChange =>
      case Notified =>
      case Instant =>
      case UpdatedAt =>
      case CreatedAt =>
      case InsertedAt =>
      case SuccessAt =>
      case FailAt =>
      case TerminatedAt =>
      case CanceledAt =>
    }
  }

  /** `SET name = v`, or None where the column does not exist or does not take a value of
      that kind (the database raises). */
  function SetColumn(r: Reservation, name: string, v: Value): Option<Reservation>
  {
    var c := ColumnNamed(name);
    if c.Some? && Accepts(c.value, v) then Some(Set(r, c.value, v)) else None
  }

  /** `SET c = v` under the column's own name. */
  lemma SetColumnByName(r: Reservation, c: Column, v: Value)
    requires Accepts(c, v)
    ensures SetColumn(r, c.Name(), v) == Some(Set(r, c, v))
  {
    ColumnNameRoundTrip(c);
  }

  /** The assignments of one UPDATE applied to a row, left to right. */
  function ApplyUpdates(r: Reservation, updates: seq<(string, Value)>): Option<Reservation>
    decreases |updates|
  {
    if updates == [] then Some(r)
    else
      var next := SetColumn(r, updates[0].0, updates[0].1);
      if next.None? then None else ApplyUpdates(next.value, updates[1..])
  }

  /** Applying the assignments from the k-th on: the k-th, then the rest. */
  lemma ApplyFrom(r: Reservation, updates: seq<(string, Value)>, k: nat, c: Column, next: Reservation)
    requires k < |updates| && updates[k].0 == c.Name() && Accepts(c, updates[k].1)
    requires Set(r, c, updates[k].1) == next
    ensures ApplyUpdates(r, updates[k..]) == ApplyUpdates(next, updates[k + 1..])
  {
    SetColumnByName(r, c, updates[k].1);
    assert updates[k..][0] == updates[k];
    assert updates[k..][1..] == updates[k + 1..];
  }

  /** The value the last assignment to `c` in `updates` writes, if any. */
  function LastValue(updates: seq<(string, Value)>, c: string): Option<Value>
  {
    if updates == [] then None
    else
      var later := LastValue(updates[1..], c);
      if later.Some? then later else if updates[0].0 == c then Some(updates[0].1) else None
  }

  /** After an UPDATE, each assigned column reads the value assigned to it and every other
      column is unchanged. */
  lemma {:induction false} ApplyUpdatesEffect(r: Reservation, updates: seq<(string, Value)>, name: string)
    requires ApplyUpdates(r, updates).Some? && ColumnNamed(name).Some?
    ensures Get(ApplyUpdates(r, updates).value, ColumnNamed(name).value)
            == if LastValue(updates, name).Some? then LastValue(updates, name).value else Get(r, ColumnNamed(name).value)
    decreases |updates|
  {
    if updates != [] {
      var c := ColumnNamed(updates[0].0).value;
      var next := Set(r, c, updates[0].1);
      ApplyUpdatesEffect(next, updates[1..], name);
      if updates[0].0 == name {
        SetThenGetSame(r, c, updates[0].1);
      } else {
        SetThenGetOther(r, c, updates[0].1, ColumnNamed(name).value);
      }
    }
  }

  /** Every assignment names a column of `reservations` and gives it a value of its kind. */
  predicate Accepted(updates: seq<(string, Value)>)
  {
    forall k :: 0 <= k < |updates| ==>
      ColumnNamed(updates[k].0).Some? && Accepts(ColumnNamed(updates[k].0).value, updates[k].1)
  }

  /** An UPDATE goes through on a row exactly when every assignment is accepted, whatever
      the row holds. */
  lemma {:induction false} ApplyUpdatesDefined(r: Reservation, updates: seq<(string, Value)>)
    ensures ApplyUpdates(r, updates).Some? <==> Accepted(updates)
    decreases |updates|
  {
    if updates != [] {
      var next := SetColumn(r, updates[0].0, updates[0].1);
      if next.Some? {
        ApplyUpdatesDefined(next.value, updates[1..]);
        assert Accepted(updates[1..]) ==> Accepted(updates) by {
          if Accepted(updates[1..]) {
            forall k | 0 <= k < |updates|
              ensures ColumnNamed(updates[k].0).Some? && Accepts(ColumnNamed(updates[k].0).value, updates[k].1)
            {
              if k > 0 {
                assert updates[k] == updates[1..][k - 1];
              }
            }
          }
        }
        assert Accepted(updates) ==> Accepted(updates[1..]) by {
          if Accepted(updates) {
            forall k | 0 <= k < |updates[1..]|
              ensures ColumnNamed(updates[1..][k].0).Some? && Accepts(ColumnNamed(updates[1..][k].0).value, updates[1..][k].1)
            {
              assert updates[1..][k] == updates[k + 1];
            }
          }
        }
      } else {
        assert !(ColumnNamed(updates[0].0).Some? && Accepts(ColumnNamed(updates[0].0).value, updates[0].1));
      }
    }
  }
}
