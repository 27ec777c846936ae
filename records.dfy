/** The rows of the `reservations` and `users` tables and the status vocabulary they share. */
module Records {
  import opened Wrappers
  import Clock

  type Id = nat

  /** `Status`: the lifecycle of a reservation request. */
  datatype Status = Pending | Processing | Awaiting | Fail | Success | Existing | Terminated | Canceled
  {
    /** The string stored in the `status` column. */
    function Name(): string
    {
      match this
      case Pending => "pending"
      case Processing => "processing"
      case Awaiting => "awaiting"
      case Fail => "fail"
      case Success => "success"
      case Existing => "existing"
      case Terminated => "terminated"
      case Canceled => "canceled"
    }

    /** Rows the user withdrew or the engine gave up on, which no longer hold a seat. */
    predicate Inactive()
    {
      this == Terminated || this == Canceled
    }
  }

  /** The status a `status` string names, if any. */
  function StatusNamed(name: string): (s: Option<Status>)
    ensures s.Some? ==> s.value.Name() == name
  {
    if name == "pending" then Some(Pending)
    else if name == "processing" then Some(Processing)
    else if name == "awaiting" then Some(Awaiting)
    else if name == "fail" then Some(Status.Fail)
    else if name == "success" then Some(Success)
    else if name == "existing" then Some(Existing)
    else if name == "terminated" then Some(Terminated)
    else if name == "canceled" then Some(Canceled)
    else None
  }

  /** Every status reads back from the string it is stored as. */
  lemma StatusNameRoundTrip(s: Status)
    ensures StatusNamed(s.Name()) == Some(s)
  {
  }

  /** A row of `reservations`. Dates are day numbers, times of day are minutes since
      midnight, and instants are seconds on the Europe/Rome clock. */
  datatype Reservation = Reservation(
    userId: Id,
    selectedDate: int,
    displayDate: string,
    startTime: Clock.MinuteOfDay,
    endTime: Clock.MinuteOfDay,
    selectedDuration: int,
    bookingCode: string,
    retries: int,
    status: Status,
    statusChange: bool,
    notified: bool,
    instant: bool,
    updatedAt: int,
    createdAt: int,
    insertedAt: int,
    successAt: Option<int>,
    failAt: Option<int>,
    terminatedAt: Option<int>,
    canceledAt: Option<int>)

  /** A row of `users`; `chatId` is None where no Telegram chat is known. */
  datatype User = User(codiceFiscale: string, name: string, email: string, chatId: Option<int>, priority: int)
}
