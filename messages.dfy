/** What the bot tells a user: the numbered list of their reservations still to come, and
    the message the engine sends when a request succeeds, fails or is terminated. The text
    is modelled as the values it is made of; emoji and Markdown are left out. */
module Messages {
  import opened Wrappers
  import opened Text
  import opened Clock
  import opened Records
  import opened Sorting
  import opened Fetch
  import Sql
  import Utils
  import Jobs

  // ------------------------------------------------------------ which reservations are listed

  /** When a reservation ends, in seconds on the Europe/Rome clock. */
  function EndInstant(row: JoinedRow): int
  {
    LocalInstant(row.reservation.selectedDate, row.reservation.endTime)
  }

  /** `sort_values('datetime', ascending=True)`. */
  function EndKey(row: JoinedRow): seq<int>
  {
    [EndInstant(row)]
  }

  /** The reservation ends after `now`, both read on the Europe/Rome clock. */
  predicate EndsAfter(row: JoinedRow, now: int)
  {
    EndInstant(row) > now
  }

  /** The comparison as written: the stored end, a Europe/Rome time, is localised as UTC
      and so stands for the instant `utcOffset` seconds later than it is. */
  predicate EndsAfterAsWritten(row: JoinedRow, now: int, utcOffset: int)
  {
    EndInstant(row) > now - utcOffset
  }

  /** The filter `history['datetime'] > now`, read on the Europe/Rome clock. */
  function Ahead(now: int): JoinedRow -> bool
  {
    row => EndsAfter(row, now)
  }

  /** The same filter as written. */
  function AheadAsWritten(now: int, utcOffset: int): JoinedRow -> bool
  {
    row => EndsAfterAsWritten(row, now, utcOffset)
  }

  /** The reservations still to come, soonest end first. */
  function Current(history: seq<JoinedRow>, now: int): (cur: seq<JoinedRow>)
    ensures forall row :: row in cur <==> row in history && EndsAfter(row, now)
    ensures SortedBy(cur, EndKey)
  {
    var kept := Where(history, Ahead(now));
    assert forall row :: Ahead(now)(row) == EndsAfter(row, now);
    var cur := SortBy(kept, EndKey);
    assert forall row :: row in cur <==> row in multiset(kept);
    cur
  }

  function CurrentAsWritten(history: seq<JoinedRow>, now: int, utcOffset: int): seq<JoinedRow>
  {
    SortBy(Where(history, AheadAsWritten(now, utcOffset)), EndKey)
  }

  /** The list holds exactly the rows of the history that end after now, each as often as
      in the history, and in order of their end. */
  lemma CurrentExact(history: seq<JoinedRow>, now: int)
    ensures var cur := Current(history, now);
            (forall row :: row in cur <==> row in history && EndsAfter(row, now))
            && multiset(cur) == multiset(Where(history, Ahead(now)))
            && (forall i, j :: 0 <= i < j < |cur| ==> EndInstant(cur[i]) <= EndInstant(cur[j]))
  {
    var kept := Where(history, Ahead(now));
    var cur := Current(history, now);
    assert forall row :: Ahead(now)(row) == EndsAfter(row, now);
    assert forall row :: row in cur <==> row in multiset(kept);
    forall i, j | 0 <= i < j < |cur|
      ensures EndInstant(cur[i]) <= EndInstant(cur[j])
    {
      assert LexLe(EndKey(cur[i]), EndKey(cur[j]));
    }
  }

  /** The rows the UTC reading lists by mistake are exactly those that ended within the
      last `utcOffset` seconds; it misses none that are still to come. */
  lemma AsWrittenListsRecentlyEnded(history: seq<JoinedRow>, now: int, utcOffset: int, row: JoinedRow)
    requires utcOffset >= 0
    ensures row in Current(history, now) ==> row in CurrentAsWritten(history, now, utcOffset)
    ensures row in CurrentAsWritten(history, now, utcOffset) && row !in Current(history, now)
            <==> row in history && now - utcOffset < EndInstant(row) <= now
  {
    var kept := Where(history, Ahead(now));
    var keptAsWritten := Where(history, AheadAsWritten(now, utcOffset));
    assert row in kept <==> row in history && EndsAfter(row, now) by {
      assert Ahead(now)(row) == EndsAfter(row, now);
    }
    assert row in keptAsWritten <==> row in history && EndsAfterAsWritten(row, now, utcOffset) by {
      assert AheadAsWritten(now, utcOffset)(row) == EndsAfterAsWritten(row, now, utcOffset);
    }
    assert row in Current(history, now) <==> row in multiset(kept) by {
      assert multiset(Current(history, now)) == multiset(kept);
    }
    assert row in CurrentAsWritten(history, now, utcOffset) <==> row in multiset(keptAsWritten) by {
      assert multiset(CurrentAsWritten(history, now, utcOffset)) == multiset(keptAsWritten);
    }
  }

  /** A reservation that ended at 12:00 on 2024-01-01 (Rome one hour ahead of UTC) is still
      listed as written at 12:30, and not by the Europe/Rome reading. */
  lemma ListsEndedReservation()
    ensures var now := LocalInstant(19723, 750);
            var history := [Jobs.SampleRow()];
            CurrentAsWritten(history, now, 3600) == history && Current(history, now) == []
  {
    var now := LocalInstant(19723, 750);
    var history := [Jobs.SampleRow()];
    assert Where(history, AheadAsWritten(now, 3600)) == history by {
      assert history[1..] == [];
    }
    assert Where(history, Ahead(now)) == [] by {
      assert history[1..] == [];
    }
  }

  // ------------------------------------------------------------ one entry of the list

  /** `f"{idx:02d}"`: at least two digits, the number's value. */
  function Number(n: nat): (s: string)
    ensures |s| >= 2 && AllDigits(s) && DigitsValue(s) == n
    ensures n >= 10 ==> s == NatToString(n)
  {
    var d := NatToString(n);
    ZeroPadDigits(d, 2);
    ZeroPad(d, 2)
  }

  /** The status shown with its emoji and `.title()`, or "Undefined" for any status other
      than success, pending, fail and terminated. */
  function StatusText(s: Status): string
  {
    if s == Success || s == Pending || s == Status.Fail || s == Terminated then Title(s.Name()) else "Undefined"
  }

  /** `'Instant' if row['instant'] == 'True' else 'Regular'` as written: the column holds a
      boolean, which never equals the string. */
  function ReservationTypeAsWritten(r: Reservation): string
  {
    if Sql.Get(r, Sql.Instant) == Sql.StrV("True") then "Instant" else "Regular"
  }

  /** The reservation type as the flag says. */
  function ReservationType(r: Reservation): (t: string)
    ensures t == "Instant" <==> r.instant
  {
    if r.instant then "Instant" else "Regular"
  }

  /** Every reservation is shown as Regular as written, instant ones included. */
  lemma AsWrittenNeverInstant(r: Reservation)
    ensures ReservationTypeAsWritten(r) == "Regular"
    ensures r.instant ==> ReservationTypeAsWritten(r) != ReservationType(r)
  {
  }

  /** An instant reservation, listed as Regular. */
  lemma InstantShownRegular()
    ensures var r := Jobs.SampleRow().reservation.(instant := true);
            ReservationType(r) == "Instant" && ReservationTypeAsWritten(r) == "Regular"
  {
    AsWrittenNeverInstant(Jobs.SampleRow().reservation.(instant := true));
  }

  /** One block of the listing. */
  datatype Entry = Entry(number: string, date: string, start: string, end: string, hours: int,
                         bookingCode: string, reservationType: string, status: string, retryNote: bool)

  function EntryFor(row: JoinedRow, idx: nat): (e: Entry)
    ensures AllDigits(e.number) && DigitsValue(e.number) == idx
    ensures e.retryNote <==> row.reservation.status == Status.Fail
    ensures e.reservationType == "Instant" <==> row.reservation.instant
  {
    var r := row.reservation;
    Entry(Number(idx), DayLabel(r.selectedDate), FormatClock(r.startTime), FormatClock(r.endTime),
          r.selectedDuration, Upper(Utils.NormalizeBookingCode(r.bookingCode)), ReservationType(r),
          StatusText(r.status), r.status == Status.Fail)
  }

  lemma UpperKeepsSeparators(s: string)
    requires forall i :: 0 <= i < |s| ==> !Utils.IsSeparator(s[i])
    ensures forall i :: 0 <= i < |Upper(s)| ==> !Utils.IsSeparator(Upper(s)[i])
  {
  }

  /** Entry `idx` carries the number `idx`, a booking code without separators that is at
      least six characters or a sentinel, and the retry note exactly for a failed request. */
  lemma EntryShape(row: JoinedRow, idx: nat)
    ensures var e := EntryFor(row, idx);
            DigitsValue(e.number) == idx && |e.number| >= 2
            && (forall i :: 0 <= i < |e.bookingCode| ==> !Utils.IsSeparator(e.bookingCode[i]))
            && (|e.bookingCode| >= 6 || Utils.NormalizeBookingCode(row.reservation.bookingCode) in Utils.Sentinels)
            && (e.retryNote <==> row.reservation.status == Status.Fail)
            && (e.reservationType == "Instant" <==> row.reservation.instant)
  {
    var code := Utils.NormalizeBookingCode(row.reservation.bookingCode);
    Utils.NormalizeShape(row.reservation.bookingCode);
    UpperKeepsSeparators(code);
  }

  // ------------------------------------------------------------ the listing

  /** What the listing returns: the rows themselves at the cancel stage, else the entries
      (none: "You have no reservations at the moment."). */
  datatype Listing = Rows(rows: seq<JoinedRow>) | Entries(entries: seq<Entry>)

  /** The entries `render` makes of `rows`, numbered from 1. */
  function Numbered(rows: seq<JoinedRow>, render: (JoinedRow, nat) -> Entry): (entries: seq<Entry>)
    ensures |entries| == |rows|
  {
    if rows == [] then [] else Numbered(rows[..|rows| - 1], render) + [render(rows[|rows| - 1], |rows|)]
  }

  /** Entry `i` is row `i`, numbered `i + 1`. */
  lemma {:induction false} NumberedAt(rows: seq<JoinedRow>, render: (JoinedRow, nat) -> Entry, i: nat)
    requires i < |rows|
    ensures Numbered(rows, render)[i] == render(rows[i], i + 1)
  {
    if i < |rows| - 1 {
      NumberedAt(rows[..|rows| - 1], render, i);
    }
  }

  /** The `idx` loop: renders each row with its number, counting from 1. */
  method NumberEntries(current: seq<JoinedRow>, render: (JoinedRow, nat) -> Entry) returns (entries: seq<Entry>)
    ensures entries == Numbered(current, render)
  {
    entries := [];
    var idx := 1;
    while idx <= |current|
      invariant 1 <= idx <= |current| + 1
      invariant entries == Numbered(current[..idx - 1], render)
    {
      assert current[..idx][..idx - 1] == current[..idx - 1];
      entries := entries + [render(current[idx - 1], idx)];
      idx := idx + 1;
    }
    assert current[..|current|] == current;
  }

  /** The listing of the rows in `history` that are still to come. */
  method ListCurrent(history: seq<JoinedRow>, now: int, cancelStage: bool) returns (listing: Listing)
    ensures cancelStage && Current(history, now) != [] ==> listing == Rows(Current(history, now))
    ensures !(cancelStage && Current(history, now) != []) ==> listing == Entries(Numbered(Current(history, now), EntryFor))
  {
    var current := Current(history, now);
    if |current| != 0 && cancelStage {
      return Rows(current);
    }
    var entries := NumberEntries(current, EntryFor);
    listing := Entries(entries);
  }

  /** `show_existing_reservations` in the bot: the user's reservations, fetched without the
      date filter. When there are none the frame has no columns, the `datetime` column
      cannot be built, and the `except` returns None. */
  method ShowExistingReservations(reservations: map<Id, Reservation>, users: map<Id, User>,
                                  codice: string, email: string, now: int, cancelStage: bool)
    returns (r: Option<Listing>)
    ensures var history := FetchUserReservations(reservations, users, codice, email, None);
            var current := Current(history, now);
            (r.None? <==> history == [])
            && (r.Some? && cancelStage && current != [] ==> r.value == Rows(current))
            && (r.Some? && !(cancelStage && current != []) ==> r.value == Entries(Numbered(current, EntryFor)))
  {
    var history := FetchUserReservations(reservations, users, codice, email, None);
    if history == [] {
      return None;
    }
    var listing := ListCurrent(history, now, cancelStage);
    r := Some(listing);
  }

  /** The user's own rows of a history frame. */
  predicate OwnRow(codice: string, email: string, row: JoinedRow)
  {
    row.user.codiceFiscale == codice && row.user.email == email
  }

  /** `show_existing_reservations` in the helpers: the history is given, and filtered on the
      user's codice fiscale and email first. */
  method ListFromHistory(history: seq<JoinedRow>, codice: string, email: string, now: int, cancelStage: bool)
    returns (listing: Listing)
    ensures var current := Current(Where(history, row => OwnRow(codice, email, row)), now);
            (cancelStage && current != [] ==> listing == Rows(current))
            && (!(cancelStage && current != []) ==> listing == Entries(Numbered(current, EntryFor)))
  {
    var own := Where(history, row => OwnRow(codice, email, row));
    listing := ListCurrent(own, now, cancelStage);
  }

  /** Every listed row belongs to the user and is still to come. */
  lemma ListedRowsOwnAndCurrent(history: seq<JoinedRow>, codice: string, email: string, now: int, row: JoinedRow)
    requires row in Current(Where(history, r => OwnRow(codice, email, r)), now)
    ensures row in history && OwnRow(codice, email, row) && EndsAfter(row, now)
  {
    CurrentExact(Where(history, r => OwnRow(codice, email, r)), now);
  }

  // ------------------------------------------------------------ notifications

  /** The message sent after a pass. */
  datatype Notification = Notification(headline: string, footer: string, date: string, start: string,
                                       end: string, hours: int, bookingCode: string)

  /** The word of the headline ("Reservation *Successful*!") and the footer for each
      status that has one. */
  function Headings(status: Status): Option<(string, string)>
  {
    if status == Success then Some(("Successful", "Enjoy your stay"))
    else if status == Status.Fail then Some(("Failed", "Retrying. Be patient..."))
    else if status == Terminated then Some(("Terminated", "No more Retries"))
    else None
  }

  /** `show_notification(status, record, booking_code)`. Any status other than success,
      fail and terminated leaves `status_message` unbound and raises: None. */
  function ShowNotification(status: Status, r: Reservation, code: string): (n: Option<Notification>)
    ensures n.Some? <==> status == Success || status == Status.Fail || status == Terminated
    ensures n.Some? ==> n.value.bookingCode == Upper(code) && n.value.hours == r.selectedDuration
                        && n.value.date == DayLabel(r.selectedDate)
  {
    match Headings(status)
    case None => None
    case Some((headline, footer)) =>
      Some(Notification(headline, footer, DayLabel(r.selectedDate), FormatClock(r.startTime),
                        FormatClock(r.endTime), r.selectedDuration, Upper(code)))
  }

  /** The three statuses get three different headlines. */
  lemma HeadlinesDistinct(s: Status, t: Status, r: Reservation, code: string)
    requires ShowNotification(s, r, code).Some? && ShowNotification(t, r, code).Some? && s != t
    ensures ShowNotification(s, r, code).value.headline != ShowNotification(t, r, code).value.headline
  {
    var a := ShowNotification(s, r, code).value.headline;
    var b := ShowNotification(t, r, code).value.headline;
    assert a[0] != b[0];
  }

  /** Every message a reservation pass sends can be rendered. */
  lemma EveryNoticeRenders(row: JoinedRow, now: int, utcOffset: int, net: Jobs.Network, k: nat)
    requires var o := Jobs.ProcessReservation(row, now, utcOffset, net); o.Completed? && k < |o.notices|
    ensures var n := Jobs.ProcessReservation(row, now, utcOffset, net).notices[k];
            ShowNotification(n.status, row.reservation, n.bookingCode).Some?
  {
    var o := Jobs.ProcessReservation(row, now, utcOffset, net);
    Jobs.ResultIdentity(row, now, utcOffset, net);
    if Jobs.IsStale(row, now) {
      Jobs.StaleTerminates(row, now, utcOffset, net, net);
    } else if o.result.status == Success {
      assert o.notices[k].status == Success;
    } else {
      Jobs.FailureNotice(row, now, utcOffset, net);
    }
  }
}
