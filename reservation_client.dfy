/** The client of the library's booking API: the timeout policy, creating an entry,
    confirming it, and cancelling it. The server's answers are inputs; what the client
    decides from them is the model. */
module ReservationClient {
  import opened Wrappers
  import Validation

  // ------------------------------------------------------------ timeouts

  /** `httpx.Timeout`, in whole seconds. */
  datatype Timeout = Timeout(connect: int, read: int, write: int, pool: int)

  const DefaultBase := 10
  const DefaultStep := 15
  const DefaultMaxRead := 150

  function Min(a: int, b: int): int { if a <= b then a else b }

  /** `calculate_timeout(retries, base, step, max_read)`: the read timeout grows by `step`
      per earlier failure up to `max_read`; the other three stay at 10 seconds. */
  function CalculateTimeout(retries: int, base: int, step: int, maxRead: int): (t: Timeout)
    ensures t.connect == 10 && t.write == 10 && t.pool == 10
    ensures t.read <= maxRead && t.read <= base + retries * step
    ensures t.read == maxRead || t.read == base + retries * step
  {
    Timeout(10, Min(base + retries * step, maxRead), 10, 10)
  }

  /** The read timeout never shrinks as failures accumulate, as long as the step is not negative. */
  lemma {:induction false} CalculateTimeoutMonotone(r1: int, r2: int, base: int, step: int, maxRead: int)
    requires r1 <= r2 && step >= 0
    ensures CalculateTimeout(r1, base, step, maxRead).read <= CalculateTimeout(r2, base, step, maxRead).read
  {
    assert r1 * step <= r2 * step by {
      assert (r2 - r1) * step >= 0;
    }
  }

  /** With the defaults the read timeout is 10 s on the first try and reaches its cap of
      150 s from the tenth earlier failure on. */
  lemma DefaultTimeouts(retries: nat)
    ensures CalculateTimeout(0, DefaultBase, DefaultStep, DefaultMaxRead).read == 10
    ensures retries >= 10 ==> CalculateTimeout(retries, DefaultBase, DefaultStep, DefaultMaxRead).read == 150
    ensures retries < 10 ==> CalculateTimeout(retries, DefaultBase, DefaultStep, DefaultMaxRead).read == 10 + 15 * retries
  {
  }

  /** The instant booking's call, with no earlier failure and a base of 120 s, reads for
      120 s: below the cap, so the cap plays no part. */
  lemma InstantBookingTimeout(base: int)
    requires base == 120
    ensures CalculateTimeout(0, base, DefaultStep, DefaultMaxRead).read == 120
  {
  }

  // ------------------------------------------------------------ the server's answers

  /** A response body: JSON as a flat object of strings, or something that is not JSON. */
  datatype Body = NotJson | Json(fields: map<string, string>)

  /** What the server did with one request: answered with a status and a body, let the read
      time out, or failed at the transport level in some other way (including the other
      kinds of timeout). */
  datatype Answer = Response(status: int, body: Body) | ReadTimedOut | TransportFailed

  /** `raise_for_status` lets exactly the 2xx statuses through. */
  predicate IsSuccess(status: int) { 200 <= status < 300 }

  // ------------------------------------------------------------ creating an entry

  /** The JSON object `set_reservation` posts to `entry/store`. */
  datatype StorePayload = StorePayload(
    cliente: string, startTime: int, endTime: int, durata: int, entryType: int, area: int,
    publicPrimary: string, codiceFiscale: string, cognomeNome: string, email: string, timezone: string)

  /** One POST, with the client's timeout. */
  datatype StoreRequest = StoreRequest(payload: StorePayload, timeout: Timeout)

  /** The exceptions `set_reservation` raises. */
  datatype SetError =
    | InvalidUserData(reason: Validation.UserDataError)  // ValueError from validation
    | TimedOut                                            // TimeoutError
    | ConnectionFailed                                    // ConnectionError
    | HttpStatus(status: int)                             // HTTPStatusError, re-raised
    | NotJsonBody                                         // JSONDecodeError, re-raised
    | MissingEntry                                        // ValueError: no "entry"
    | MissingBookingCode                                  // KeyError while logging "codice_prenotazione"

  /** What `set_reservation` sent (if anything) and what it returned or raised. */
  datatype SetCall = SetCall(sent: Option<StoreRequest>, result: Result<map<string, string>, SetError>)

  /** The payload for a validated profile. */
  function StorePayloadFor(startTime: int, endTime: int, duration: int, user: Validation.UserData): StorePayload
  {
    var codice := Validation.Get(user, "codice_fiscale");
    StorePayload("biblio", startTime, endTime, duration, 50, 25, codice, codice,
                 Validation.Get(user, "cognome_nome"), Validation.Get(user, "email"), "Europe/Rome")
  }

  /** `set_reservation(start_time, end_time, duration, user_data, timeout)`, where `answer` is
      what the server would reply to the POST. */
  function SetReservation(startTime: int, endTime: int, duration: int, user: Validation.UserData,
                          timeout: Timeout, answer: Answer): (c: SetCall)
    ensures c.sent.Some? <==> Validation.CheckUserData(user).Pass?
    ensures c.sent.Some? ==> c.sent.value == StoreRequest(StorePayloadFor(startTime, endTime, duration, user), timeout)
    ensures c.result.Ok? <==> c.sent.Some? && answer.Response? && IsSuccess(answer.status) && answer.body.Json?
                              && "entry" in answer.body.fields && "codice_prenotazione" in answer.body.fields
    ensures c.result.Ok? ==> c.result.value == answer.body.fields
  {
    var check := Validation.CheckUserData(user);
    if check.Fail? then SetCall(None, Err(InvalidUserData(check.error)))
    else
      var request := StoreRequest(StorePayloadFor(startTime, endTime, duration, user), timeout);
      SetCall(Some(request), StoreOutcome(answer))
  }

  /** How the answer to the POST is classified once the request went out. */
  function StoreOutcome(answer: Answer): Result<map<string, string>, SetError>
  {
    match answer
    case ReadTimedOut => Err(TimedOut)
    case TransportFailed => Err(ConnectionFailed)
    case Response(status, body) =>
      if !IsSuccess(status) then Err(HttpStatus(status))
      else if body.NotJson? then Err(NotJsonBody)
      else if "entry" !in body.fields then Err(MissingEntry)
      else if "codice_prenotazione" !in body.fields then Err(MissingBookingCode)
      else Ok(body.fields)
  }

  /** Invalid profile data is refused before any request, whatever the server would say. */
  lemma SetReservationValidatesFirst(startTime: int, endTime: int, duration: int, user: Validation.UserData,
                                     timeout: Timeout, a1: Answer, a2: Answer)
    requires Validation.CheckUserData(user).Fail?
    ensures SetReservation(startTime, endTime, duration, user, timeout, a1)
            == SetReservation(startTime, endTime, duration, user, timeout, a2)
            == SetCall(None, Err(InvalidUserData(Validation.CheckUserData(user).error)))
  {
  }

  /** A read timeout becomes TimeoutError and any other transport failure ConnectionError. */
  lemma SetReservationTransportErrors(startTime: int, endTime: int, duration: int, user: Validation.UserData, timeout: Timeout)
    requires Validation.CheckUserData(user).Pass?
    ensures SetReservation(startTime, endTime, duration, user, timeout, ReadTimedOut).result == Err(TimedOut)
    ensures SetReservation(startTime, endTime, duration, user, timeout, TransportFailed).result == Err(ConnectionFailed)
  {
  }

  // ------------------------------------------------------------ confirming an entry

  /** The exceptions `confirm_reservation` lets out. */
  datatype ConfirmError =
    | ConfirmHttpStatus(status: int)   // 400, 401 or any other non-404 error status
    | ConfirmTimedOut                  // httpx.ReadTimeout
    | ConfirmTransport                 // httpx.RequestError
    | ConfirmNotJson                   // JSONDecodeError from a 2xx response
    | GaveUp                           // RuntimeError after max_retries 404s

  /** How a confirmation run ends and how many POSTs it made. */
  datatype ConfirmRun = ConfirmRun(result: Result<map<string, string>, ConfirmError>, attempts: nat)

  predicate IsNotFound(a: Answer) { a.Response? && a.status == 404 }

  /** The run from attempt `i` on, given the server's answer to each attempt. */
  function ConfirmFrom(answers: nat -> Answer, maxRetries: int, i: nat): (run: ConfirmRun)
    ensures run.attempts >= i
    ensures maxRetries >= i ==> run.attempts <= maxRetries
    decreases maxRetries - i
  {
    if i >= maxRetries then ConfirmRun(Err(GaveUp), i)
    else
      match answers(i)
      case ReadTimedOut => ConfirmRun(Err(ConfirmTimedOut), i + 1)
      case TransportFailed => ConfirmRun(Err(ConfirmTransport), i + 1)
      case Response(status, body) =>
        if IsSuccess(status) then
          if body.Json? then ConfirmRun(Ok(body.fields), i + 1) else ConfirmRun(Err(ConfirmNotJson), i + 1)
        else if status == 404 then ConfirmFrom(answers, maxRetries, i + 1)
        else ConfirmRun(Err(ConfirmHttpStatus(status)), i + 1)
  }

  /** The pause before the next attempt after the `attempt`-th 404, in milliseconds. */
  function Backoff(attempt: nat): int { 1500 + 500 * attempt }

  function Backoffs(n: nat): (s: seq<int>)
    ensures |s| == n && forall k :: 0 <= k < n ==> s[k] == Backoff(k)
  {
    if n == 0 then [] else Backoffs(n - 1) + [Backoff(n - 1)]
  }

  /** `confirm_reservation(booking_code, max_retries)`: `answers(i)` is the server's answer
      to attempt i; returns the run's outcome, the number of POSTs and the pauses taken. */
  method ConfirmReservation(answers: nat -> Answer, maxRetries: int) returns (result: Result<map<string, string>, ConfirmError>, attempts: nat, sleeps: seq<int>)
    ensures ConfirmRun(result, attempts) == ConfirmFrom(answers, maxRetries, 0)
    ensures sleeps == Backoffs(if result == Err(GaveUp) then attempts else attempts - 1)
  {
    sleeps := [];
    var attempt: nat := 0;
    while attempt < maxRetries
      invariant maxRetries >= 0 ==> attempt <= maxRetries
      invariant ConfirmFrom(answers, maxRetries, attempt) == ConfirmFrom(answers, maxRetries, 0)
      invariant sleeps == Backoffs(attempt)
      decreases maxRetries - attempt
    {
      var answer := answers(attempt);
      match answer {
        case ReadTimedOut =>
          return Err(ConfirmTimedOut), attempt + 1, sleeps;
        case TransportFailed =>
          return Err(ConfirmTransport), attempt + 1, sleeps;
        case Response(status, body) =>
          if IsSuccess(status) {
            if body.NotJson? {
              return Err(ConfirmNotJson), attempt + 1, sleeps;
            }
            return Ok(body.fields), attempt + 1, sleeps;
          }
          if status != 404 {
            return Err(ConfirmHttpStatus(status)), attempt + 1, sleeps;
          }
      }
      sleeps := sleeps + [Backoff(attempt)];
      attempt := attempt + 1;
    }
    return Err(GaveUp), attempt, sleeps;
  }

  /** Only a 404 leads to another attempt: every attempt before the last one was answered 404. */
  lemma {:induction false} OnlyNotFoundRetries(answers: nat -> Answer, maxRetries: int, i: nat, k: nat)
    requires i <= k && k + 1 < ConfirmFrom(answers, maxRetries, i).attempts
    ensures IsNotFound(answers(k))
    decreases maxRetries - i
  {
    if i < maxRetries && IsNotFound(answers(i)) && i < k {
      OnlyNotFoundRetries(answers, maxRetries, i + 1, k);
    }
  }

  /** The run gives up exactly when every one of the `maxRetries` attempts from `i` on was
      answered 404, and then it has made all of them. */
  lemma {:induction false} GaveUpIff(answers: nat -> Answer, maxRetries: int, i: nat)
    ensures ConfirmFrom(answers, maxRetries, i).result == Err(GaveUp)
            <==> forall k :: i <= k < maxRetries ==> IsNotFound(answers(k))
    ensures ConfirmFrom(answers, maxRetries, i).result == Err(GaveUp)
            ==> ConfirmFrom(answers, maxRetries, i).attempts == if maxRetries >= i then maxRetries else i
    decreases maxRetries - i
  {
    if i < maxRetries {
      GaveUpIff(answers, maxRetries, i + 1);
      if !IsNotFound(answers(i)) {
        assert !(forall k :: i <= k < maxRetries ==> IsNotFound(answers(k)));
      }
    }
  }

  /** Any first answer other than a 404 settles the run on the first attempt. */
  lemma FirstAnswerDecides(answers: nat -> Answer, maxRetries: int)
    requires maxRetries >= 1 && !IsNotFound(answers(0))
    ensures ConfirmFrom(answers, maxRetries, 0).attempts == 1
    ensures answers(0) == ReadTimedOut ==> ConfirmFrom(answers, maxRetries, 0).result == Err(ConfirmTimedOut)
    ensures answers(0) == TransportFailed ==> ConfirmFrom(answers, maxRetries, 0).result == Err(ConfirmTransport)
    ensures answers(0).Response? && !IsSuccess(answers(0).status)
            ==> ConfirmFrom(answers, maxRetries, 0).result == Err(ConfirmHttpStatus(answers(0).status))
  {
  }

  // ------------------------------------------------------------ cancelling an entry

  /** The POST `cancel_reservation` makes: the URL, and the body, which is the
      `{'type': 'libera_posto'}` object (written as its `type` value) or JSON null. */
  datatype CancelRequest = CancelRequest(url: string, payloadType: Option<string>)

  const ApiBase := "https://prenotabiblio.sba.unimi.it/portalePlanningAPI/api/"

  function CancelRequestFor(codice: string, bookingCode: string, mode: string): (r: CancelRequest)
    ensures r.payloadType.Some? <==> mode == "update"
    ensures r.payloadType.Some? ==> r.payloadType.value == "libera_posto"
    ensures r.url == ApiBase + "entry/" + mode + "/" + bookingCode + "?chiave=" + codice
  {
    CancelRequest(ApiBase + "entry/" + mode + "/" + bookingCode + "?chiave=" + codice,
                  if mode == "update" then Some("libera_posto") else None)
  }

  /** The exceptions `cancel_reservation` raises, each with the Python class it is raised as. */
  datatype CancelError =
    | InvalidOrExpired      // 400
    | SlotNotFound          // 404
    | Conflict              // 409
    | CancelHttpStatus(status: int)
    | CancelTimedOut
    | CancelTransport
    | UnexpectedCancel      // anything else, e.g. a 2xx body that is not JSON
  {
    function ExceptionClass(): string
    {
      match this
      case SlotNotFound => "FileNotFoundError"
      case CancelTimedOut => "TimeoutError"
      case CancelTransport => "ConnectionError"
      case _ => "RuntimeError"
    }
  }

  function CancelOutcome(answer: Answer): (r: Result<map<string, string>, CancelError>)
    ensures r.Ok? <==> answer.Response? && IsSuccess(answer.status) && answer.body.Json?
    ensures r.Ok? ==> r.value == answer.body.fields
    ensures answer.Response? && answer.status == 409 ==> r == Err(Conflict)
  {
    match answer
    case ReadTimedOut => Err(CancelTimedOut)
    case TransportFailed => Err(CancelTransport)
    case Response(status, body) =>
      if IsSuccess(status) then
        if body.Json? then Ok(body.fields) else Err(UnexpectedCancel)
      else if status == 400 then Err(InvalidOrExpired)
      else if status == 404 then Err(SlotNotFound)
      else if status == 409 then Err(Conflict)
      else Err(CancelHttpStatus(status))
  }

  /** The error classes of a cancellation: FileNotFoundError exactly for 404, TimeoutError for
      a read timeout, ConnectionError for other transport failures, RuntimeError for the rest. */
  lemma CancelErrorClasses(answer: Answer)
    requires CancelOutcome(answer).Err?
    ensures CancelOutcome(answer).error.ExceptionClass() == "FileNotFoundError"
            <==> answer.Response? && answer.status == 404
    ensures CancelOutcome(answer).error.ExceptionClass() == "TimeoutError" <==> answer == ReadTimedOut
    ensures CancelOutcome(answer).error.ExceptionClass() == "ConnectionError" <==> answer == TransportFailed
    ensures answer.Response? && !IsSuccess(answer.status) && answer.status != 404
            ==> CancelOutcome(answer).error.ExceptionClass() == "RuntimeError"
  {
  }
}
