/** The reservation engine: one pass per pending record (stale check, then slot, set and
    confirm), the job that runs a pass for every claimed record and writes each result
    back, and the cron window the job runs in. The network and Telegram are inputs: the
    server's answers and which messages Telegram delivers. */
module Jobs {
  import opened Wrappers
  import opened Records
  import opened Clock
  import opened Sql
  import Config
  import Validation
  import Fetch
  import Store
  import SlotDateTime
  import opened ReservationClient
  import Text

  /** A record whose slot started more than this many minutes ago is given up on. */
  const StaleGraceMinutes := 8
  /** More failures than this terminate a request. */
  const MaxRetries := 18
  /** A failure is reported to the user on every sixth retry. */
  const NotifyEvery := 6
  /** `confirm_reservation`'s default `max_retries`. */
  const ConfirmAttempts := 3
  /** The booking code of a request the engine gave up on. */
  const Closed := "CLOSED"

  /** A Telegram message: the chat, and the status and code `show_notification` is given. */
  datatype Notice = Notice(chatId: int, status: Status, bookingCode: string)

  /** The dictionary a pass returns. */
  datatype PassResult = PassResult(
    id: Id, status: Status, bookingCode: string, retries: int,
    statusChange: bool, notified: bool, updatedAt: int)

  /** A pass either returns a result, having sent `notices`, or raises because a message
      could not be sent outside the `try`. */
  datatype PassOutcome = Completed(result: PassResult, notices: seq<Notice>) | Raised

  /** Whether Telegram delivers each message a pass may send: `notice` is the message sent
      outside the `except` branch (the stale notice or the success message, never both in
      one pass), `report` the failure report the `except` branch sends. */
  datatype Delivery = Delivery(notice: bool, report: bool)

  /** What the outside world does during one pass: the answer to the POST to
      `entry/store`, the answer to each confirmation attempt, and which messages Telegram
      delivers. */
  datatype Network = Network(setAnswer: Answer, confirmAnswers: nat -> Answer, delivery: Delivery)

  /** Why the three reservation steps stopped. */
  datatype StepError =
    | SlotRejected(slotError: SlotDateTime.SlotError)
    | SetFailed(setError: SetError)
    | ConfirmFailed(confirmError: ConfirmError)
    | MissingTimeout          // TypeError: `set_reservation` called without its `timeout`

  // ------------------------------------------------------------ one pass

  /** `record.get('chat_id')` read as a condition: a chat that is absent or 0 is falsy. */
  function ChatOf(row: Fetch.JoinedRow): Option<int>
  {
    if row.user.chatId.Some? && row.user.chatId.value != 0 then row.user.chatId else None
  }

  /** The profile the pass hands to `set_reservation`. */
  function UserDataOf(row: Fetch.JoinedRow): Validation.UserData
  {
    map["codice_fiscale" := row.user.codiceFiscale, "cognome_nome" := row.user.name, "email" := row.user.email]
  }

  /** A failed request whose slot started more than eight minutes before `now`
      (local clock seconds). */
  predicate IsStale(row: Fetch.JoinedRow, now: int)
  {
    row.reservation.status == Status.Fail
    && LocalInstant(row.reservation.selectedDate, row.reservation.startTime) + StaleGraceMinutes * 60 < now
  }

  /** The three steps with the client's timeout for the record's retry count: the slot,
      the entry (whose booking code is returned) and its confirmation. */
  function BookingSteps(row: Fetch.JoinedRow, utcOffset: int, net: Network): Result<string, StepError>
  {
    var r := row.reservation;
    var slot := SlotDateTime.ReserveDatetime(Some(r.selectedDate), FormatClock(r.startTime), r.selectedDuration, utcOffset);
    if slot.Err? then Err(SlotRejected(slot.error))
    else
      var timeout := CalculateTimeout(r.retries, DefaultBase, DefaultStep, DefaultMaxRead);
      var call := SetReservation(slot.value.start, slot.value.end, slot.value.seconds, UserDataOf(row), timeout, net.setAnswer);
      if call.result.Err? then Err(SetFailed(call.result.error))
      else
        var confirm := ConfirmFrom(net.confirmAnswers, ConfirmAttempts, 0);
        if confirm.result.Err? then Err(ConfirmFailed(confirm.result.error))
        else Ok(call.result.value["codice_prenotazione"])
  }

  /** The steps as written: the slot is computed, then `set_reservation` is called with
      four arguments and raises `TypeError` before sending anything. */
  function BookingStepsAsWritten(row: Fetch.JoinedRow, utcOffset: int): Result<string, StepError>
  {
    var r := row.reservation;
    var slot := SlotDateTime.ReserveDatetime(Some(r.selectedDate), FormatClock(r.startTime), r.selectedDuration, utcOffset);
    if slot.Err? then Err(SlotRejected(slot.error)) else Err(MissingTimeout)
  }

  /** Sends `show_notification(status, record, code)` when the record has a chat, then
      returns `result`; an undelivered message raises. */
  function Notify(row: Fetch.JoinedRow, status: Status, code: string, delivered: bool, result: PassResult): PassOutcome
  {
    match ChatOf(row)
    case None => Completed(result, [])
    case Some(chat) => if delivered then Completed(result, [Notice(chat, status, code)]) else Raised
  }

  /** The stale branch: terminated and closed, retries unchanged; the message carries the
      old booking code. */
  function StaleOutcome(row: Fetch.JoinedRow, now: int, delivered: bool): PassOutcome
  {
    var r := row.reservation;
    Notify(row, Terminated, r.bookingCode, delivered, PassResult(row.id, Terminated, Closed, r.retries, true, true, now))
  }

  /** The old status was `pending` or `fail`. */
  predicate WasQueued(row: Fetch.JoinedRow)
  {
    row.reservation.status == Pending || row.reservation.status == Status.Fail
  }

  /** The result of the `except` branch. */
  function FailureResult(row: Fetch.JoinedRow, now: int): PassResult
  {
    var r := row.reservation;
    var retries := r.retries + 1;
    var status := if retries > MaxRetries then Terminated else Status.Fail;
    var code := if status == Status.Fail then r.bookingCode else Closed;
    PassResult(row.id, status, code, retries, WasQueued(row), true, now)
  }

  /** The `except` branch messages the user on every sixth retry and on termination. */
  predicate FailureIsReported(row: Fetch.JoinedRow)
  {
    var retries := row.reservation.retries + 1;
    retries % NotifyEvery == 0 || retries > MaxRetries
  }

  function FailureOutcome(row: Fetch.JoinedRow, now: int, reportDelivered: bool): PassOutcome
  {
    var res := FailureResult(row, now);
    if ChatOf(row).Some? && FailureIsReported(row) then Notify(row, res.status, res.bookingCode, reportDelivered, res)
    else Completed(res, [])
  }

  /** The end of the `try` block: the success message is sent inside it, so a message that
      is not delivered sends the pass to the `except` branch, whose own report is a
      separate message. */
  function SuccessOutcome(row: Fetch.JoinedRow, code: string, now: int, d: Delivery): PassOutcome
  {
    var res := PassResult(row.id, Success, code, row.reservation.retries, WasQueued(row), true, now);
    match ChatOf(row)
    case None => Completed(res, [])
    case Some(chat) => if d.notice then Completed(res, [Notice(chat, Success, code)]) else FailureOutcome(row, now, d.report)
  }

  /** `process_reservation`, given how the reservation steps end. */
  function Process(row: Fetch.JoinedRow, now: int, steps: Result<string, StepError>, d: Delivery): PassOutcome
  {
    if IsStale(row, now) then StaleOutcome(row, now, d.notice)
    else if steps.Ok? then SuccessOutcome(row, steps.value, now, d)
    else FailureOutcome(row, now, d.report)
  }

  /** The pass with `set_reservation` given its timeout. */
  function ProcessReservation(row: Fetch.JoinedRow, now: int, utcOffset: int, net: Network): (o: PassOutcome)
    ensures o.Completed? ==> o.result.id == row.id && o.result.notified && o.result.updatedAt == now
    ensures o.Completed? ==> |o.notices| <= 1 && forall n :: n in o.notices ==> ChatOf(row) == Some(n.chatId)
    ensures o.Completed? && o.result.status == Success
            ==> !IsStale(row, now) && BookingSteps(row, utcOffset, net) == Ok(o.result.bookingCode)
  {
    ProcessShape(row, now, BookingSteps(row, utcOffset, net), net.delivery);
    Process(row, now, BookingSteps(row, utcOffset, net), net.delivery)
  }

  /** The pass as written, with the four-argument call. */
  function ProcessReservationAsWritten(row: Fetch.JoinedRow, now: int, utcOffset: int, d: Delivery): (o: PassOutcome)
    ensures o.Completed? ==> o.result.status != Success
                             && (!IsStale(row, now) ==> o.result.retries == row.reservation.retries + 1)
  {
    Process(row, now, BookingStepsAsWritten(row, utcOffset), d)
  }

  // ------------------------------------------------------------ what a pass promises

  /** A stale record is terminated and closed with its retries unchanged, without any
      reservation step: the server's answers make no difference. */
  lemma StaleTerminates(row: Fetch.JoinedRow, now: int, utcOffset: int, net: Network, other: Network)
    requires IsStale(row, now) && other.delivery.notice == net.delivery.notice
    ensures ProcessReservation(row, now, utcOffset, other) == ProcessReservation(row, now, utcOffset, net)
    ensures var o := ProcessReservation(row, now, utcOffset, net);
            o.Completed? ==> o.result == PassResult(row.id, Terminated, Closed, row.reservation.retries, true, true, now)
                             && (o.notices == [] <==> ChatOf(row).None?)
                             && (o.notices != [] ==> o.notices == [Notice(ChatOf(row).value, Terminated, row.reservation.bookingCode)])
  {
  }

  /** Only a failed record can be stale: a pending one always goes through the steps, and
      it succeeds exactly when they do and the success message, if any, is delivered. */
  lemma PendingIsAttempted(row: Fetch.JoinedRow, now: int, utcOffset: int, net: Network)
    requires row.reservation.status == Pending
    ensures !IsStale(row, now)
    ensures var o := ProcessReservation(row, now, utcOffset, net);
            (o.Completed? && o.result.status == Success)
            <==> BookingSteps(row, utcOffset, net).Ok? && (ChatOf(row).None? || net.delivery.notice)
  {
    ProcessSucceeds(row, now, BookingSteps(row, utcOffset, net), net.delivery);
  }

  /** A success carries the booking code from the server's answer to the POST, keeps the
      retry count and marks a status change when the record was pending or failed; it
      needs an accepted entry and a confirmation. */
  lemma SuccessShape(row: Fetch.JoinedRow, now: int, utcOffset: int, net: Network)
    requires var o := ProcessReservation(row, now, utcOffset, net); o.Completed? && o.result.status == Success
    ensures net.setAnswer.Response? && IsSuccess(net.setAnswer.status) && net.setAnswer.body.Json?
            && "entry" in net.setAnswer.body.fields && "codice_prenotazione" in net.setAnswer.body.fields
    ensures ConfirmFrom(net.confirmAnswers, ConfirmAttempts, 0).result.Ok?
    ensures var res := ProcessReservation(row, now, utcOffset, net).result;
            res.bookingCode == net.setAnswer.body.fields["codice_prenotazione"]
            && res.retries == row.reservation.retries
            && (res.statusChange <==> row.reservation.status == Pending || row.reservation.status == Status.Fail)
  {
    var steps := BookingSteps(row, utcOffset, net);
    ProcessSucceeds(row, now, steps, net.delivery);
    BookingStepsOk(row, utcOffset, net);
  }

  /** The steps succeed only on an accepted, confirmed entry, and return its booking code. */
  lemma BookingStepsOk(row: Fetch.JoinedRow, utcOffset: int, net: Network)
    requires BookingSteps(row, utcOffset, net).Ok?
    ensures net.setAnswer.Response? && IsSuccess(net.setAnswer.status) && net.setAnswer.body.Json?
            && "entry" in net.setAnswer.body.fields && "codice_prenotazione" in net.setAnswer.body.fields
    ensures ConfirmFrom(net.confirmAnswers, ConfirmAttempts, 0).result.Ok?
    ensures BookingSteps(row, utcOffset, net).value == net.setAnswer.body.fields["codice_prenotazione"]
  {
  }

  /** A pass succeeds exactly when it is not stale, its steps succeed and the success
      message, if any, is delivered; the result then carries the steps' booking code. */
  lemma ProcessSucceeds(row: Fetch.JoinedRow, now: int, steps: Result<string, StepError>, d: Delivery)
    ensures var o := Process(row, now, steps, d);
            (o.Completed? && o.result.status == Success)
            <==> !IsStale(row, now) && steps.Ok? && (ChatOf(row).None? || d.notice)
    ensures var o := Process(row, now, steps, d);
            o.Completed? && o.result.status == Success
            ==> o.result.bookingCode == steps.value && o.result.retries == row.reservation.retries
                && (o.result.statusChange <==> WasQueued(row))
  {
  }

  /** Any other outcome of a record that is not stale is a failure: one more retry, and
      terminated and closed exactly when the retries pass 18, otherwise failed with the
      old booking code. */
  lemma FailureShape(row: Fetch.JoinedRow, now: int, utcOffset: int, net: Network)
    requires !IsStale(row, now)
    requires var o := ProcessReservation(row, now, utcOffset, net); o.Completed? && o.result.status != Success
    ensures var res := ProcessReservation(row, now, utcOffset, net).result;
            res.retries == row.reservation.retries + 1
            && (res.status == Terminated <==> row.reservation.retries + 1 > MaxRetries)
            && (res.status == Terminated || res.status == Status.Fail)
            && res.bookingCode == (if res.status == Terminated then Closed else row.reservation.bookingCode)
            && (res.statusChange <==> row.reservation.status == Pending || row.reservation.status == Status.Fail)
  {
    ProcessFails(row, now, BookingSteps(row, utcOffset, net), net.delivery);
  }

  /** After a failure the user is messaged exactly when there is a chat and the new retry
      count is a multiple of 6 or the request is terminated, with the new status and code. */
  lemma FailureNotice(row: Fetch.JoinedRow, now: int, utcOffset: int, net: Network)
    requires !IsStale(row, now)
    requires var o := ProcessReservation(row, now, utcOffset, net); o.Completed? && o.result.status != Success
    ensures var o := ProcessReservation(row, now, utcOffset, net);
            (o.notices != [] <==> ChatOf(row).Some? && (o.result.retries % 6 == 0 || o.result.status == Terminated))
            && (o.notices != [] ==> o.notices == [Notice(ChatOf(row).value, o.result.status, o.result.bookingCode)])
  {
    ProcessFails(row, now, BookingSteps(row, utcOffset, net), net.delivery);
  }

  /** A pass that is not stale and does not succeed completes as the `except` branch does. */
  lemma ProcessFails(row: Fetch.JoinedRow, now: int, steps: Result<string, StepError>, d: Delivery)
    requires !IsStale(row, now)
    requires var o := Process(row, now, steps, d); o.Completed? && o.result.status != Success
    ensures Process(row, now, steps, d) == FailureOutcome(row, now, d.report)
  {
  }

  /** A pass raises exactly when a message sent outside the `try` is not delivered: the
      stale notice, or the failure report of a pass that reached the `except` branch
      because its steps failed or its success message was lost. */
  lemma RaisedIff(row: Fetch.JoinedRow, now: int, utcOffset: int, net: Network)
    ensures ProcessReservation(row, now, utcOffset, net).Raised?
            <==> ChatOf(row).Some?
                 && if IsStale(row, now) then !net.delivery.notice
                    else FailureIsReported(row) && !net.delivery.report
                         && (BookingSteps(row, utcOffset, net).Err? || !net.delivery.notice)
  {
    ProcessRaises(row, now, BookingSteps(row, utcOffset, net), net.delivery);
  }

  lemma ProcessRaises(row: Fetch.JoinedRow, now: int, steps: Result<string, StepError>, d: Delivery)
    ensures Process(row, now, steps, d).Raised?
            <==> ChatOf(row).Some?
                 && if IsStale(row, now) then !d.notice
                    else FailureIsReported(row) && !d.report && (steps.Err? || !d.notice)
  {
  }

  /** A booked pass whose success message is lost ends as a failure, and the failure
      report that follows is a message of its own, delivered or not by itself. */
  lemma LostSuccessIsReported(row: Fetch.JoinedRow, now: int, utcOffset: int, net: Network)
    requires !IsStale(row, now) && BookingSteps(row, utcOffset, net).Ok?
    requires ChatOf(row).Some? && !net.delivery.notice
    ensures ProcessReservation(row, now, utcOffset, net) == FailureOutcome(row, now, net.delivery.report)
    ensures net.delivery.report && FailureIsReported(row)
            ==> ProcessReservation(row, now, utcOffset, net)
                == Completed(FailureResult(row, now),
                             [Notice(ChatOf(row).value, FailureResult(row, now).status, FailureResult(row, now).bookingCode)])
  {
  }

  /** Every result carries the record's id, is marked notified, is stamped `now`, and
      ends as success, fail or terminated, never as processing or awaiting. */
  lemma ResultIdentity(row: Fetch.JoinedRow, now: int, utcOffset: int, net: Network)
    requires ProcessReservation(row, now, utcOffset, net).Completed?
    ensures var res := ProcessReservation(row, now, utcOffset, net).result;
            res.id == row.id && res.notified && res.updatedAt == now
            && (res.status == Success || res.status == Status.Fail || res.status == Terminated)
  {
    ProcessIdentity(row, now, BookingSteps(row, utcOffset, net), net.delivery);
  }

  /** What `ProcessReservation` promises, for any ending of the steps. */
  lemma ProcessShape(row: Fetch.JoinedRow, now: int, steps: Result<string, StepError>, d: Delivery)
    ensures var o := Process(row, now, steps, d);
            o.Completed? ==> o.result.id == row.id && o.result.notified && o.result.updatedAt == now
                             && |o.notices| <= 1 && (forall n :: n in o.notices ==> ChatOf(row) == Some(n.chatId))
                             && (o.result.status == Success ==> !IsStale(row, now) && steps == Ok(o.result.bookingCode))
  {
  }

  lemma ProcessIdentity(row: Fetch.JoinedRow, now: int, steps: Result<string, StepError>, d: Delivery)
    requires Process(row, now, steps, d).Completed?
    ensures var res := Process(row, now, steps, d).result;
            res.id == row.id && res.notified && res.updatedAt == now
            && (res.status == Success || res.status == Status.Fail || res.status == Terminated)
  {
  }

  /** Where the corrected steps fail, the pass as written does the same as the corrected one. */
  lemma AsWrittenAgreesOnFailure(row: Fetch.JoinedRow, now: int, utcOffset: int, net: Network)
    requires BookingSteps(row, utcOffset, net).Err?
    ensures ProcessReservationAsWritten(row, now, utcOffset, net.delivery) == ProcessReservation(row, now, utcOffset, net)
  {
  }

  /** A request that the server accepts and confirms: 2024-01-01 (a Monday), 10:00 for two
      hours, pending, with a valid profile and no chat. */
  function SampleRow(): Fetch.JoinedRow
  {
    Fetch.JoinedRow(1,
      Reservation(7, 19723, "Monday, 2024-01-01", 600, 720, 2, "TBD", 0, Pending, false, false, false,
                  0, 0, 0, None, None, None, None),
      User("RSSMRA85T10A562S", "Rossi Mario", "mario@unimi.it", None, 2))
  }

  function SampleNetwork(): Network
  {
    Network(Response(200, Json(map["entry" := "42", "codice_prenotazione" := "123456"])),
            _ => Response(200, Json(map[])), Delivery(true, true))
  }

  /** The four-argument call turns a request the server would accept into a failure. */
  lemma MissingTimeoutLosesBooking()
    ensures ProcessReservation(SampleRow(), 0, 3600, SampleNetwork())
            == Completed(PassResult(1, Success, "123456", 0, true, true, 0), [])
    ensures ProcessReservationAsWritten(SampleRow(), 0, 3600, Delivery(true, true))
            == Completed(PassResult(1, Status.Fail, "TBD", 1, true, true, 0), [])
  {
    SampleBooked();
    var row := SampleRow();
    assert !IsStale(row, 0) && ChatOf(row).None? && WasQueued(row);
    QuietOutcomes(row, 0, 3600, SampleNetwork());
  }

  /** A record that is not stale and has no chat completes without a message: booked
      when the steps succeed, and as written always with one more retry. */
  lemma QuietOutcomes(row: Fetch.JoinedRow, now: int, utcOffset: int, net: Network)
    requires !IsStale(row, now) && ChatOf(row).None?
    ensures var steps := BookingSteps(row, utcOffset, net);
            steps.Ok? ==> ProcessReservation(row, now, utcOffset, net)
                          == Completed(PassResult(row.id, Success, steps.value, row.reservation.retries, WasQueued(row), true, now), [])
    ensures ProcessReservationAsWritten(row, now, utcOffset, net.delivery)
            == Completed(FailureResult(row, now), [])
  {
  }

  /** With the timeout passed, the sample request is booked. */
  lemma SampleBooked()
    ensures BookingSteps(SampleRow(), 3600, SampleNetwork()) == Ok("123456")
  {
    SampleSlot();
    SampleProfile();
    var net := SampleNetwork();
    assert ConfirmFrom(net.confirmAnswers, ConfirmAttempts, 0).result.Ok?;
    StepsBook(SampleRow(), 3600, net);
  }

  /** The steps book a slot that is accepted for a valid profile when the server accepts
      the entry and confirms it. */
  lemma StepsBook(row: Fetch.JoinedRow, utcOffset: int, net: Network)
    requires var r := row.reservation;
             SlotDateTime.ReserveDatetime(Some(r.selectedDate), FormatClock(r.startTime), r.selectedDuration, utcOffset).Ok?
    requires Validation.CheckUserData(UserDataOf(row)).Pass?
    requires net.setAnswer.Response? && IsSuccess(net.setAnswer.status) && net.setAnswer.body.Json?
             && "entry" in net.setAnswer.body.fields && "codice_prenotazione" in net.setAnswer.body.fields
    requires ConfirmFrom(net.confirmAnswers, ConfirmAttempts, 0).result.Ok?
    ensures BookingSteps(row, utcOffset, net) == Ok(net.setAnswer.body.fields["codice_prenotazione"])
  {
  }

  lemma SampleSlot()
    ensures SlotDateTime.ReserveDatetime(Some(19723), FormatClock(600), 2, 3600).Ok?
  {
    assert Weekday(19723) == 0;
    MondayMorning(19723, 600, 3600);
  }

  /** Two hours from 10:00 on a Monday are accepted. */
  lemma MondayMorning(day: int, t: MinuteOfDay, utcOffset: int)
    requires Weekday(day) == 0 && t == 600
    ensures SlotDateTime.ReserveDatetime(Some(day), FormatClock(t), 2, utcOffset).Ok?
  {
    ParseFormatClock(t);
    SlotDateTime.DurationLimits(day);
    SlotDateTime.RoundIdempotent(t);
    SlotDateTime.ReserveDatetimeAccepts(Some(day), FormatClock(t), 2, utcOffset);
  }

  lemma SampleProfile()
    ensures Validation.CheckUserData(UserDataOf(SampleRow())).Pass?
  {
    SampleCodice();
    SampleEmail();
    var data := UserDataOf(SampleRow());
    SamplePresent(data);
    ProfilePasses(data);
  }

  /** A profile with every field present and both formats right passes. */
  lemma ProfilePasses(data: Validation.UserData)
    requires Validation.FirstMissing(Validation.RequiredFields, data).None?
    requires "codice_fiscale" in data && data["codice_fiscale"] != "" && Validation.ValidateCodiceFiscale(data["codice_fiscale"])
    requires "email" in data && data["email"] != "" && Validation.ValidateEmail(data["email"])
    ensures Validation.CheckUserData(data).Pass?
  {
  }

  lemma SamplePresent(data: Validation.UserData)
    requires data == UserDataOf(SampleRow())
    ensures Validation.FirstMissing(Validation.RequiredFields, data).None?
    ensures "codice_fiscale" in data && data["codice_fiscale"] == "RSSMRA85T10A562S"
    ensures "email" in data && data["email"] == "mario@unimi.it"
  {
    assert Validation.Present(data, Validation.RequiredFields[0]);
    assert Validation.Present(data, Validation.RequiredFields[1]);
    assert Validation.Present(data, Validation.RequiredFields[2]);
  }

  lemma SampleCodice()
    ensures Validation.ValidateCodiceFiscale("RSSMRA85T10A562S")
  {
    var codice := "RSSMRA85T10A562S";
    forall i | 0 <= i < 16
      ensures Validation.FitsLayout(Validation.CodiceLayout[i], codice[i])
    {
    }
  }

  lemma SampleEmail()
    ensures Validation.ValidateEmail("mario@unimi.it")
  {
    var email := "mario@unimi.it";
    assert email[..5] == "mario" && email[6..11] == "unimi" && email[12..] == "it";
    Validation.ValidateEmailComplete(email, 5, 11);
  }

  // ------------------------------------------------------------ writing the results back

  /** The update `excecute_reservations` issues for a result: every field but the id. */
  function ToUpdates(res: PassResult): seq<(string, Value)>
  {
    [("status", StrV(res.status.Name())), ("booking_code", StrV(res.bookingCode)), ("retries", IntV(res.retries)),
     ("status_change", BoolV(res.statusChange)), ("notified", BoolV(res.notified)), ("updated_at", IntV(res.updatedAt))]
  }

  /** A row with a pass's result written into it. */
  function Applied(r: Reservation, res: PassResult): Reservation
  {
    r.(status := res.status, bookingCode := res.bookingCode, retries := res.retries,
       statusChange := res.statusChange, notified := res.notified, updatedAt := res.updatedAt)
  }

  /** The table after the result's update; a row that has gone is left alone. */
  function ApplyResult(table: map<Id, Reservation>, res: PassResult): map<Id, Reservation>
  {
    if res.id in table then table[res.id := Applied(table[res.id], res)] else table
  }

  /** The table after the results' updates, in order. */
  function ApplyResults(table: map<Id, Reservation>, results: seq<PassResult>): map<Id, Reservation>
  {
    if results == [] then table
    else ApplyResult(ApplyResults(table, results[..|results| - 1]), results[|results| - 1])
  }

  /** The update for a result always goes through, and writes exactly the result's fields
      into the row with its id. */
  lemma ToUpdatesApplied(table: map<Id, Reservation>, res: PassResult)
    ensures Store.UpdateRow(table, res.id, ToUpdates(res)) == Ok(ApplyResult(table, res))
  {
    ToUpdatesAccepted(res);
    if res.id in table {
      ToUpdatesRow(table[res.id], res);
    }
  }

  lemma ToUpdatesAccepted(res: PassResult)
    ensures Store.DistinctNames(ToUpdates(res)) && Accepted(ToUpdates(res))
  {
    var u := ToUpdates(res);
    var columns := UpdatedColumns();
    ToUpdatesNamed(res);
    StatusNameRoundTrip(res.status);
    assert Accepts(columns[0], u[0].1);
    assert forall k :: 0 <= k < |u| ==> Accepts(columns[k], u[k].1);
  }

  /** Each assignment of `ToUpdates` names its column of `UpdatedColumns`. */
  lemma ToUpdatesNamed(res: PassResult)
    ensures forall k :: 0 <= k < |ToUpdates(res)| ==> ColumnNamed(ToUpdates(res)[k].0) == Some(UpdatedColumns()[k])
  {
    var u := ToUpdates(res);
    var columns := UpdatedColumns();
    forall k | 0 <= k < |u|
      ensures ColumnNamed(u[k].0) == Some(columns[k])
    {
      ColumnNameRoundTrip(columns[k]);
    }
  }

  /** The columns `ToUpdates` names, in order. */
  function UpdatedColumns(): (columns: seq<Column>)
    ensures |columns| == 6
    ensures forall i, j :: 0 <= i < j < 6 ==> columns[i] != columns[j]
  {
    [StatusColumn, BookingCode, Retries, StatusChange, Notified, UpdatedAt]
  }

  lemma ToUpdatesRow(r0: Reservation, res: PassResult)
    ensures ApplyUpdates(r0, ToUpdates(res)) == Some(Applied(r0, res))
  {
    StatusNameRoundTrip(res.status);
    var u := ToUpdates(res);
    var r1 := r0.(status := res.status);
    var r2 := r1.(bookingCode := res.bookingCode);
    ApplyFrom(r0, u, 0, StatusColumn, r1);
    ApplyFrom(r1, u, 1, BookingCode, r2);
    ToUpdatesFromRetries(r2, res);
    assert u[0..] == u;
  }

  /** The assignments of `ToUpdates` from `retries` on. */
  lemma ToUpdatesFromRetries(r2: Reservation, res: PassResult)
    ensures ApplyUpdates(r2, ToUpdates(res)[2..])
            == Some(r2.(retries := res.retries, statusChange := res.statusChange, notified := res.notified,
                        updatedAt := res.updatedAt))
  {
    var u := ToUpdates(res);
    var r3 := r2.(retries := res.retries);
    var r4 := r3.(statusChange := res.statusChange);
    ApplyFrom(r2, u, 2, Retries, r3);
    ApplyFrom(r3, u, 3, StatusChange, r4);
    ToUpdatesFromNotified(r4, res);
  }

  /** The last two assignments of `ToUpdates`. */
  lemma ToUpdatesFromNotified(r4: Reservation, res: PassResult)
    ensures ApplyUpdates(r4, ToUpdates(res)[4..]) == Some(r4.(notified := res.notified, updatedAt := res.updatedAt))
  {
    var u := ToUpdates(res);
    var r5 := r4.(notified := res.notified);
    var r6 := r5.(updatedAt := res.updatedAt);
    ApplyFrom(r4, u, 4, Notified, r5);
    ApplyFrom(r5, u, 5, UpdatedAt, r6);
    assert u[6..] == [];
  }

  /** Results with distinct ids are each written once: the row of every result holds that
      result's fields, and a row no result names is unchanged. */
  lemma {:induction false} ApplyResultsEffect(table: map<Id, Reservation>, results: seq<PassResult>, id: Id)
    requires forall i, j :: 0 <= i < j < |results| ==> results[i].id != results[j].id
    ensures ApplyResults(table, results).Keys == table.Keys
    ensures id in table ==>
              ApplyResults(table, results)[id]
              == if exists i :: 0 <= i < |results| && results[i].id == id
                 then Applied(table[id], ResultFor(results, id)) else table[id]
    decreases |results|
  {
    if results != [] {
      var n := |results| - 1;
      var prefix := results[..n];
      var last := results[n];
      ApplyResultsEffect(table, prefix, id);
      var before := ApplyResults(table, prefix);
      assert ApplyResults(table, results) == ApplyResult(before, last);
      assert forall i :: 0 <= i < n ==> prefix[i] == results[i];
      if last.id == id {
        assert forall i :: 0 <= i < n ==> prefix[i].id != id;
        assert ResultFor(results, id) == last;
      } else if exists i :: 0 <= i < |results| && results[i].id == id {
        var i :| 0 <= i < |results| && results[i].id == id;
        assert prefix[i].id == id;
        assert ResultFor(results, id) == ResultFor(prefix, id);
      }
    }
  }

  /** The last result with the given id. */
  function ResultFor(results: seq<PassResult>, id: Id): (res: PassResult)
    requires exists i :: 0 <= i < |results| && results[i].id == id
    ensures res in results && res.id == id
  {
    if results[|results| - 1].id == id then results[|results| - 1]
    else
      var i :| 0 <= i < |results| && results[i].id == id;
      assert results[..|results| - 1][i].id == id;
      ResultFor(results[..|results| - 1], id)
  }

  /** The pass of each claimed record, by position; `nets(k)` is what the outside world
      does during the `k`-th pass. */
  function Passes(records: seq<Fetch.JoinedRow>, now: int, utcOffset: int, nets: nat -> Network): nat -> PassOutcome
  {
    (k: nat) => if k < |records| then ProcessReservation(records[k], now, utcOffset, nets(k)) else Raised
  }

  /** Passes `0 .. n-1` run one after the other: their results, or whether any of them
      raised. */
  method RunPasses(n: nat, pass: nat -> PassOutcome) returns (results: seq<PassResult>, raised: bool)
    ensures raised <==> exists k :: 0 <= k < n && pass(k).Raised?
    ensures !raised ==> |results| == n && forall k :: 0 <= k < n ==> results[k] == pass(k).result
  {
    results := [];
    raised := false;
    var k := 0;
    while k < n
      invariant 0 <= k <= n
      invariant raised <==> exists i :: 0 <= i < k && pass(i).Raised?
      invariant !raised ==> |results| == k
      invariant !raised ==> forall i :: 0 <= i < k ==> results[i] == pass(i).result
    {
      var outcome := pass(k);
      if outcome.Raised? {
        raised := true;
      } else if !raised {
        results := results + [outcome.result];
      }
      k := k + 1;
    }
  }

  /** One `update_record` per result, in order. */
  method WriteResults(db: Store.Database, results: seq<PassResult>)
    requires db.Valid()
    modifies db
    ensures db.Valid()
    ensures db.reservations == ApplyResults(old(db.reservations), results)
    ensures db.users == old(db.users) && db.settings == old(db.settings) && db.slots == old(db.slots)
    ensures db.nextReservationId == old(db.nextReservationId) && db.nextUserId == old(db.nextUserId)
  {
    var j := 0;
    while j < |results|
      invariant 0 <= j <= |results|
      invariant db.Valid()
      invariant db.reservations == ApplyResults(old(db.reservations), results[..j])
      invariant db.users == old(db.users) && db.settings == old(db.settings) && db.slots == old(db.slots)
      invariant db.nextReservationId == old(db.nextReservationId) && db.nextUserId == old(db.nextUserId)
    {
      ToUpdatesApplied(db.reservations, results[j]);
      var _ := db.UpdateRecord(results[j].id, ToUpdates(results[j]));
      assert results[..j + 1][..j] == results[..j];
      j := j + 1;
    }
    assert results[..j] == results;
  }

  /** `excecute_reservations`: a pass for every record claimed today, then one update per
      result. A pass that raises stops the job before any update. */
  method ExecuteReservations(db: Store.Database, today: int, now: int, utcOffset: int, nets: nat -> Network)
    returns (results: seq<PassResult>, raised: bool)
    requires db.Valid()
    modifies db
    ensures db.Valid()
    ensures var records := Fetch.FetchPendingReservations(old(db.reservations), old(db.users), today);
            var pass := Passes(records, now, utcOffset, nets);
            (raised <==> exists k :: 0 <= k < |records| && pass(k).Raised?)
            && (raised ==> results == [] && db.reservations == old(db.reservations))
            && (!raised ==> |results| == |records|
                            && (forall k :: 0 <= k < |records| ==> results[k] == pass(k).result)
                            && db.reservations == ApplyResults(old(db.reservations), results))
    ensures db.users == old(db.users) && db.settings == old(db.settings) && db.slots == old(db.slots)
    ensures db.nextReservationId == old(db.nextReservationId) && db.nextUserId == old(db.nextUserId)
  {
    var records := Fetch.FetchPendingReservations(db.reservations, db.users, today);
    results, raised := RunPasses(|records|, Passes(records, now, utcOffset, nets));
    if raised {
      results := [];
      return;
    }
    WriteResults(db, results);
  }

  /** When no pass raises, the job writes each claimed record's result into that record's
      row. */
  lemma ExecuteWritesEachRecord(reservations: map<Id, Reservation>, users: map<Id, User>, today: int,
                                now: int, utcOffset: int, nets: nat -> Network, results: seq<PassResult>, k: nat)
    requires var records := Fetch.FetchPendingReservations(reservations, users, today);
             var pass := Passes(records, now, utcOffset, nets);
             k < |records| == |results|
             && forall i :: 0 <= i < |records| ==> pass(i).Completed? && results[i] == pass(i).result
    ensures var records := Fetch.FetchPendingReservations(reservations, users, today);
            records[k].id in reservations && records[k].id in ApplyResults(reservations, results)
            && ApplyResults(reservations, results)[records[k].id] == Applied(reservations[records[k].id], results[k])
  {
    var records := Fetch.FetchPendingReservations(reservations, users, today);
    ResultsCarryIds(records, now, utcOffset, nets, results);
    var id := records[k].id;
    assert records[k] in records;
    assert Fetch.Genuine(reservations, users, records[k]);
    assert results[k].id == id;
    forall i, j | 0 <= i < j < |results|
      ensures results[i].id != results[j].id
    {
      assert results[i].id == records[i].id && results[j].id == records[j].id;
    }
    ApplyResultsEffect(reservations, results, id);
    ResultForAt(results, k);
    assert exists i :: 0 <= i < |results| && results[i].id == id;
  }

  /** With distinct ids, the result found for the k-th result's id is that result. */
  lemma ResultForAt(results: seq<PassResult>, k: nat)
    requires k < |results|
    requires forall i, j :: 0 <= i < j < |results| ==> results[i].id != results[j].id
    ensures ResultFor(results, results[k].id) == results[k]
  {
    var res := ResultFor(results, results[k].id);
    var m :| 0 <= m < |results| && results[m] == res;
    assert m == k;
  }

  /** ... and leaves every row that no claimed record names as it was. */
  lemma ExecuteLeavesOtherRows(reservations: map<Id, Reservation>, users: map<Id, User>, today: int,
                               now: int, utcOffset: int, nets: nat -> Network, results: seq<PassResult>, id: Id)
    requires var records := Fetch.FetchPendingReservations(reservations, users, today);
             var pass := Passes(records, now, utcOffset, nets);
             |records| == |results|
             && (forall i :: 0 <= i < |records| ==> pass(i).Completed? && results[i] == pass(i).result)
             && (forall i :: 0 <= i < |records| ==> records[i].id != id)
    requires id in reservations
    ensures id in ApplyResults(reservations, results) && ApplyResults(reservations, results)[id] == reservations[id]
  {
    var records := Fetch.FetchPendingReservations(reservations, users, today);
    ResultsCarryIds(records, now, utcOffset, nets, results);
    ApplyResultsEffect(reservations, results, id);
  }

  /** The results of distinct records carry those records' ids, so they are distinct too. */
  lemma ResultsCarryIds(records: seq<Fetch.JoinedRow>, now: int, utcOffset: int, nets: nat -> Network, results: seq<PassResult>)
    requires var pass := Passes(records, now, utcOffset, nets);
             |records| == |results|
             && forall i :: 0 <= i < |records| ==> pass(i).Completed? && results[i] == pass(i).result
    ensures forall i :: 0 <= i < |records| ==> results[i].id == records[i].id
  {
    forall i | 0 <= i < |records|
      ensures results[i].id == records[i].id
    {
      assert Passes(records, now, utcOffset, nets)(i).Completed?;
      ResultIdentity(records[i], now, utcOffset, nets(i));
    }
  }

  // ------------------------------------------------------------ when the job runs

  const AllowedMinutes: set<int> := {0, 1, 30, 31, 32}

  /** The two cron triggers: every ten seconds in minutes 0, 1, 30, 31 and 32, in hours
      7 to 22 from Monday to Friday and 7 to 13 on Saturday. */
  predicate JobFires(weekday: int, hour: int, minute: int, second: int)
  {
    second % 10 == 0 && minute in AllowedMinutes
    && ((0 <= weekday < Saturday && 7 <= hour <= 22) || (weekday == Saturday && 7 <= hour <= 13))
  }

  /** The job runs from 07:00 up to the library's closing hour on every day but Sunday. */
  lemma JobFiresIff(weekday: int, hour: int, minute: int, second: int)
    requires 0 <= weekday < 7
    ensures JobFires(weekday, hour, minute, second)
            <==> weekday != Sunday && 7 <= hour <= Config.GetHours(Config.Weekly(), weekday).closing
                 && second % 10 == 0 && minute in AllowedMinutes
  {
    Config.WeeklyHours(weekday);
  }

  /** The job never runs on Sunday. */
  lemma NeverOnSunday(hour: int, minute: int, second: int)
    ensures !JobFires(Sunday, hour, minute, second)
  {
  }
}
