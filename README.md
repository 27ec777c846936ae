# BiblioBot reservation engine in Dafny

BiblioBot is a Telegram bot. It books seats at a university library through the library's booking API. A user's request is stored as a row of the `reservations` table. A scheduled job then claims today's pending and failed rows. It makes one pass per row: first a staleness check, then three steps (find the slot, create the entry, confirm it). It writes the pass's result back into the row and messages the user about the outcome.

This project models that engine and the code it rests on:

- the engine itself: `process_reservation`, `excecute_reservations` and the cron window;
- the booking client's decisions: the timeout policy, how responses are classified, and the confirmation retry loop;
- the slot arithmetic: `reserve_datetime`, the half-hour flooring, the weekly schedule and `extract_available_seats`, in the current version and the earlier one;
- the validators and the overlap checks;
- the database, as a `Store.Database` class whose methods rewrite the tables in place;
- the helpers that build the reply keyboards, the day list and the reservation listing, and the notification text.

Each module follows one source file:

| module | models |
|---|---|
| `Config` | the weekly schedule and the job windows |
| `Clock` | the day numbers, weekdays and the `%H:%M` / `%A, %Y-%m-%d` formats |
| `SlotDateTime`, `LegacySlotDateTime` | the two `slot_datetime.py` files |
| `Validation` | both `validation.py` files (they agree) |
| `ReservationClient` | `reservation.py` |
| `Records`, `Sql`, `Fetch`, `Store` | the tables and the `db` package |
| `Jobs` | `jobs.py` |
| `Layout`, `Keyboards`, `LegacyKeyboards` | the keyboards |
| `Utils` | `utils.py` |
| `Messages` | `messages.py` |
| `Text`, `Sorting`, `Wrappers` | general helpers |

Conventions:

- Dates are day numbers counted from 1970-01-01.
- Times of day are minutes since midnight.
- A Europe/Rome wall-clock instant is `day * 86400 + minute * 60`.
- The UTC offset is a parameter, and so is every reading of the clock.
- Everything outside the program is an input: the server's answer to each request, and whether Telegram delivers a message.
- The top-level `validation.py` and `utils.py` are earlier copies of the checks and helpers under `src/biblio/utils/`. Where they hold the same code, one member models both. This covers `validate_email` (validation.py:4-7), `validate_codice_fiscale` (validation.py:9-12), `validate_user_data` (validation.py:14-29), `generate_days` (utils.py:123-134) and `update_gsheet_data_point` (utils.py:254-258). The table cites the current copy.

## Model

| member | source | states |
|---|---|---|
| Config.WeeklyHours | src/biblio/config/config.py:25-36 | Monday to Friday run 9 to 22; Saturday and Sunday run 9 to 13. |
| Config.WeeklyUnknownKey | src/biblio/config/config.py:51-52 | A weekday number outside 0..6 reads as (0, 0). |
| Config.WeeklyOpensBeforeClosing | src/biblio/config/config.py:27-35 | The library opens before it closes on every day of the week. |
| Config.JobsShift | src/biblio/config/config.py:38-49 | Daylight saving moves every job window exactly one hour later; standard time moves none. Both tables have the same keys, and an unknown key reads (0, 0) in both. |
| Clock.FormatClock | src/biblio/reservation/slot_datetime.py:44 | `%H:%M` output is five characters: two digits, a colon, two digits. |
| Clock.ParseFormatClock | src/biblio/reservation/slot_datetime.py:44-46 | Parsing what `strftime('%H:%M')` wrote gives back the same time of day. |
| SlotDateTime.RoundToHalfHour | src/biblio/reservation/slot_datetime.py:11-18 | The result is on :00 or :30, in the same hour, no later than the input and less than 30 minutes before it (a floor, not a rounding). |
| SlotDateTime.RoundIdempotent | src/biblio/reservation/slot_datetime.py:11-18 | Flooring twice is flooring once; a time already on :00 or :30 is kept. |
| SlotDateTime.ReserveDatetime | src/biblio/reservation/slot_datetime.py:21-76 | An accepted request returns end − start == seconds == duration·3600, and only once both strings have parsed. |
| SlotDateTime.ReserveDatetimeAccepts | src/biblio/reservation/slot_datetime.py:43-69 | A request is accepted exactly when the date and time parse and the booking is admissible: the floored start at 09:00 or later, 1 ≤ duration ≤ (closing+1) − opening, and the end by (closing+1):00. |
| SlotDateTime.ReserveDatetimeErrorOrder | src/biblio/reservation/slot_datetime.py:33-46 | A malformed date is reported first, and a malformed time before any range check. |
| SlotDateTime.DurationLimits | src/biblio/reservation/slot_datetime.py:50-55 | At most 14 hours and closing at 23 Monday to Friday; at most 5 hours and closing at 14 on Saturday and Sunday. |
| SlotDateTime.DurationBoundOnlyNamesTheError | src/biblio/reservation/slot_datetime.py:52-69 | Any duration the closing-time check admits is within the duration bound, so the bound never refuses a booking on its own. |
| SlotDateTime.SundayAccepted | src/biblio/reservation/slot_datetime.py:38-41 | Sundays are open: a one-hour booking from 09:00 on any Sunday is accepted. |
| SlotDateTime.SlotStart | src/biblio/reservation/slot_datetime.py:86-87 | A key that yields a start splits into exactly two parts at '-', and its first part parses to that start. |
| SlotDateTime.AvailableSeats | src/biblio/reservation/slot_datetime.py:79-92 | Defined exactly when every key parses. It keeps exactly the slots starting at or after the current half hour (all of them when filtering is off), each with its own seat count. |
| SlotDateTime.ExtractAvailableSeats | src/biblio/reservation/slot_datetime.py:79-92 | The loop builds exactly the map `AvailableSeats` describes. |
| SlotDateTime.AvailableSeatsUnfiltered | src/biblio/reservation/slot_datetime.py:89 | With `filter_past` off, every slot survives with its count. |
| LegacySlotDateTime.ReserveDatetime | slot_datetime.py:15-74 | Any Sunday date is refused with the Sunday error. An accepted request has end − start == seconds == duration·3600. |
| LegacySlotDateTime.AgreesWithCurrentOffSunday | slot_datetime.py:27-74 | On every day but Sunday, the earlier version answers exactly as the schedule-driven one does, so its fixed limits (5 hours and 14:00 on Saturday, 14 hours and 23:00 on other days) are the schedule's. |
| LegacySlotDateTime.SundayDiffers | slot_datetime.py:32-35 | On a Sunday the earlier version refuses a 09:00 one-hour booking that the current one accepts. |
| Validation.ValidateEmailSound | src/biblio/utils/validation.py:14-16 | Whatever the scan accepts matches `^[a-zA-Z0-9_.+-]+@[a-zA-Z0-9-]+\.[a-zA-Z0-9-.]+$`. |
| Validation.ValidateEmailComplete | src/biblio/utils/validation.py:14-16 | Whatever the pattern matches, under any split, is accepted by the scan. |
| Validation.ValidateEmailIff | src/biblio/utils/validation.py:14-16 | `validate_email` accepts exactly the strings the pattern matches. |
| Validation.ValidateCodiceFiscaleIff | src/biblio/utils/validation.py:19-21 | A codice fiscale is accepted exactly when it reads: 6 letters, 2 digits, a letter, 2 digits, a letter, 3 digits, a letter. |
| Validation.FirstMissing | src/biblio/utils/validation.py:25-28 | None exactly when every required field is present and non-empty; otherwise it names a field that is missing. |
| Validation.ValidateUserData | src/biblio/utils/validation.py:24-38 | The loop over the required fields, followed by the two format checks, decides exactly what `CheckUserData` decides. |
| Validation.CheckUserDataPasses | src/biblio/utils/validation.py:24-38 | Data passes when every required field is filled in and both formats match. |
| Validation.CheckUserDataOrder | src/biblio/utils/validation.py:24-36 | The first missing field is reported in the order codice_fiscale, cognome_nome, email. With all three present, a malformed codice is reported before a malformed email, and the email format is reported only once the codice passes. |
| Validation.NormalizeSlotInput | src/biblio/utils/validation.py:41-66 | Any result is an "HH:MM" that parses to a valid time of day (hour below 24, minute below 60) and is written back unchanged. Which time an input becomes, and when it is refused, is stated by the lemmas below. |
| Validation.StripNoSpace | src/biblio/utils/validation.py:42 | A string with no surrounding whitespace is its own `strip()`. |
| Validation.NormalizeIdempotent | src/biblio/utils/validation.py:48-62 | Normalising a normalised time returns it unchanged. |
| Validation.NormalizeFormatted | src/biblio/utils/validation.py:48-62 | A time written by `strftime('%H:%M')` is already normal. |
| Validation.FormatClockLayout | src/biblio/utils/validation.py:48-52 | "HH:MM" has no whitespace, its first ':' at index 2, and digit groups worth the hour and the minute. |
| Validation.NormalizeBareHour | src/biblio/utils/validation.py:42-46 | An input that strips to one or two digits, leading zeros allowed, is the bare hour h they read: it becomes "hh:00" when h < 24 and is refused from 24 on. |
| Validation.NormalizeHourMinute | src/biblio/utils/validation.py:48-62 | An input that strips to one or two digits, a colon and one to four digits becomes the time h:m that those groups read, zero-padded; it is refused exactly when h ≥ 24 or m ≥ 60. |
| Validation.NormalizeOtherwiseNone | src/biblio/utils/validation.py:41-66 | Any other input, neither a bare hour nor hour:minute digit groups, is refused. |
| Validation.DurationOverlap | src/biblio/utils/validation.py:69-88 | True exactly when some row that is neither terminated nor canceled overlaps [start, start + hours) (false for an empty history). |
| Validation.TimeNotOverlap | src/biblio/utils/validation.py:91-116 | False exactly when some active row has existing_start − 30 min ≤ start < existing_end. |
| Validation.InactiveRowsIgnored | src/biblio/utils/validation.py:84-85 | Adding terminated or canceled rows to the history changes neither check. |
| Validation.StartConflictImpliesDurationConflict | src/biblio/utils/validation.py:76-116 | A start the time check refuses is refused by the duration check too, for any duration of at least one hour. |
| ReservationClient.CalculateTimeout | src/biblio/reservation/reservation.py:9-11 | Connect, write and pool are 10 s. Read is min(base + retries·step, max_read): at most each of the two, and equal to one of them. |
| ReservationClient.CalculateTimeoutMonotone | src/biblio/reservation/reservation.py:10-11 | With step ≥ 0 the read timeout never shrinks as retries grow. |
| ReservationClient.DefaultTimeouts | src/biblio/reservation/reservation.py:9-11 | With the defaults, read is 10 s on the first try, 10 + 15·retries below 10 retries, and 150 s from 10 retries on. |
| ReservationClient.InstantBookingTimeout | src/biblio/selection/confirm.py:86-88 | The instant booking's call, with retries 0 and base 120, gets a 120 s read timeout, under the 150 s cap. |
| ReservationClient.SetReservation | src/biblio/reservation/reservation.py:14-69 | A request is sent exactly when the profile validates, and then carries the entry/store payload and the timeout. The call returns the body exactly when the answer is a 2xx JSON body containing both `entry` and `codice_prenotazione` (the key the success log reads). |
| ReservationClient.SetReservationValidatesFirst | src/biblio/reservation/reservation.py:19-23 | Invalid profile data is refused with the validation error, and nothing is sent, whatever the server would answer. |
| ReservationClient.SetReservationTransportErrors | src/biblio/reservation/reservation.py:56-62 | A read timeout becomes TimeoutError; any other transport failure becomes ConnectionError. |
| ReservationClient.ConfirmFrom | src/biblio/reservation/reservation.py:76-109 | A run from attempt i makes at least i attempts and never more than max_retries. |
| ReservationClient.Backoffs | src/biblio/reservation/reservation.py:87 | The k-th pause is 1.5 + 0.5·k seconds. |
| ReservationClient.ConfirmReservation | src/biblio/reservation/reservation.py:72-109 | The loop ends as the run `ConfirmFrom` describes. It sleeps once after each 404 that is followed by another attempt, and after the last one when it gives up. |
| ReservationClient.OnlyNotFoundRetries | src/biblio/reservation/reservation.py:83-88 | Every attempt before the last one was answered 404. |
| ReservationClient.GaveUpIff | src/biblio/reservation/reservation.py:76-109 | The run gives up (RuntimeError) exactly when every one of the max_retries attempts was answered 404. |
| ReservationClient.FirstAnswerDecides | src/biblio/reservation/reservation.py:89-107 | Any first answer other than a 404 settles the run on the first attempt: a timeout, a transport error or a non-2xx status propagates at once. |
| ReservationClient.CancelRequestFor | src/biblio/reservation/reservation.py:112-115 | The body is `{'type': 'libera_posto'}` exactly when the mode is `update`, and the URL carries the mode, the booking code and the codice. |
| ReservationClient.CancelOutcome | src/biblio/reservation/reservation.py:116-148 | The JSON body is returned exactly for a 2xx answer with a JSON body, and it is that body. A 409 is a conflict. |
| ReservationClient.CancelErrorClasses | src/biblio/reservation/reservation.py:123-148 | 404 gives FileNotFoundError, a read timeout gives TimeoutError and a transport failure gives ConnectionError. Each of these classes arises only in that case; every other failure is RuntimeError. |
| Records.StatusNamed | src/biblio/db/update.py:128-140 | A status string maps back to a status whose stored name is that string. |
| Records.StatusNameRoundTrip | src/biblio/db/update.py:128-140 | Every status reads back from the string it is stored as. |
| Sql.ParamIndexPlaceholder | src/biblio/db/update.py:52 | The database reads back from `$k` the number k it was written with. |
| Sql.InsertPartsBind | src/biblio/db/insert.py:103-107 | The column list is the keys in order and the placeholders are `$1` … `$n`, each list joined with ", ". In the INSERT, the i-th column's placeholder refers to parameter i + 1, which is the i-th value. |
| Sql.BuildThenBind | src/biblio/db/update.py:50-63 | Once bound, each SET column receives its own value and the WHERE receives the row id, because the WHERE uses `$(n+1)`. |
| Sql.ColumnNamed | src/biblio/db/update.py:57-61 | A name that resolves to a column is that column's SQL name. |
| Sql.ColumnNameRoundTrip | src/biblio/db/update.py:57-61 | Every column is found under its own name. |
| Sql.SetThenGetSame | src/biblio/db/update.py:57-61 | After `SET c = v`, c reads v. |
| Sql.SetThenGetOther | src/biblio/db/update.py:57-61 | `SET c = v` leaves every other column as it was. |
| Sql.ApplyUpdatesEffect | src/biblio/db/update.py:57-65 | After an UPDATE, each assigned column reads the last value assigned to it, and every other column is unchanged. |
| Sql.ApplyUpdatesDefined | src/biblio/db/update.py:57-65 | An UPDATE goes through exactly when every assignment names a column and gives it a value of the right kind. |
| Fetch.FetchPendingReservations | src/biblio/db/fetch.py:46-65 | Returns exactly the rows dated today with status pending or fail that join to a user, each once, ordered by priority, date, duration descending and start. An empty claim is the empty list. |
| Fetch.PendingOrderMeaning | src/biblio/db/fetch.py:60 | Of two claimed rows the earlier has no higher priority. At equal priority it is no shorter; at equal duration it starts no later. |
| Fetch.FetchUserReservations | src/biblio/db/fetch.py:9-43 | Returns exactly the rows joined to a user with that codice and email (and that display date when one is given), each once, ordered by the date key. |
| Fetch.FetchUserExact | src/biblio/db/fetch.py:9-43 | Of two listed rows, the earlier has the later or the same date: latest date first. |
| Fetch.DateFilterNarrows | src/biblio/db/fetch.py:31-32 | The date filter only removes rows, and every row it keeps carries that display date. |
| Fetch.FetchReservationById | src/biblio/db/fetch.py:68-78 | None exactly when no row has the id; otherwise that row's booking code. |
| Store.UpdateRowEffect | src/biblio/db/update.py:44-65 | A successful update keeps the row ids and changes only the row with the given id. In that row it changes only the named columns, each to the value given for it. |
| Store.UpdateRow | src/biblio/db/update.py:44-65 | The update goes through exactly when it names at least one column, no column twice, and every value fits its column. An empty update is the `ValueError`. A successful one keeps the row ids, and leaves the table as it was when no row has the id. |
| Store.SweepRow | src/biblio/db/update.py:107-127 | A swept row becomes terminated when start + grace is past, else fail. It gets retries + 1, status_change and updated_at now. fail_at is set only on fail, and terminated_at only on terminated. |
| Store.SweepSettles | src/biblio/db/update.py:96-144 | After a sweep no row is stuck, and a second sweep at the same moment changes nothing. |
| Store.SweepTouchesOnlyStuck | src/biblio/db/update.py:128-129 | A row changes exactly when it was in processing or awaiting and not updated within the stale window. |
| Store.SweepTable | src/biblio/db/update.py:105-144 | The row-by-row pass produces the swept table, and the returned (id, status, retries) rows. They come in id order; the SQL has no ORDER BY, so this order is the model's choice. |
| Store.Swept | src/biblio/db/update.py:105-131 | The sweep keeps every row and adds none, leaves every row that is not stuck as it was, and leaves no row stuck. |
| Store.CancelRow | src/biblio/db/update.py:28-39 | The row becomes canceled, with notified and status_change set and canceled_at and updated_at stamped now. |
| Store.CanceledLeavesQueue | src/biblio/db/update.py:28-39 | A canceled row is never claimed by the engine and never swept. |
| Store.FirstWithKey | src/biblio/db/insert.py:74-78 | The id found holds the key, and None means no listed user holds it. |
| Store.FindUser | src/biblio/db/insert.py:74-81 | The fallback lookup finds a user holding (codice, email, name), or reports that there is none. |
| Store.FindUserUnique | src/biblio/db/insert.py:60-81 | With the conflict key unique, the lookup finds the one user holding it. |
| Store.ReprioritisedSettles | src/biblio/db/update.py:73-93 | Syncing changes nothing but priorities, and syncing twice is the same as syncing once. |
| Store.SyncTable | src/biblio/db/update.py:77-91 | The loop gives every user the priority for their upper-cased codice (or the default) and counts the users. |
| Store.EndOfDay | src/biblio/db/insert.py:15-25 | The end time is the start plus the duration on a 24-hour clock. |
| Store.WriterColumnsShape | src/biblio/db/insert.py:20-39 | success_at is written only for an instant success, and fail_at only for an instant failure. All names are distinct columns of `reservations`. |
| Store.WriterBaseNames | src/biblio/db/insert.py:20-35 | The columns `writer` always inserts, in its dictionary's order. |
| Store.InsertUserRepeats | src/biblio/db/insert.py:57-81 | Repeating `insert_user` with the same data returns the first call's id and changes nothing. |
| Store.Database.UpsertSetting | src/biblio/db/update.py:12-25 | Afterwards the key maps to the value, whether it was new or not, and nothing else changes. |
| Store.Database.UpdateCancelStatus | src/biblio/db/update.py:28-41 | The row with the id (if any) becomes `CancelRow` of itself; nothing else changes. |
| Store.Database.UpdateRecord | src/biblio/db/update.py:44-70 | An empty update fails before anything is touched. Otherwise the numbered statement is bound and applied, exactly as `UpdateRow` says; other tables do not change. |
| Store.Database.SweepStuckReservations | src/biblio/db/update.py:96-144 | The table becomes the swept table, and the returned list is the resolved rows, in id order (the model's choice: the SQL has no ORDER BY). |
| Store.Database.SyncUserPriorities | src/biblio/db/update.py:73-93 | Every user gets the table's priority, and the count is the number of users. |
| Store.Database.InsertUser | src/biblio/db/insert.py:57-85 | Get-or-create: the id of an existing user with the same (codice, email, name) and no change; otherwise a fresh id for the new user. |
| Store.Database.InsertReservation | src/biblio/db/insert.py:45-54 | A fresh row holding the given columns, accepted exactly when every column exists and takes its value. |
| Store.Database.Writer | src/biblio/db/insert.py:11-42 | The conversation's answers are inserted as one new row built from `WriterColumns`. |
| Store.Database.InsertSlots | src/biblio/db/insert.py:88-100 | The slot rows are appended in the given order, and nothing else changes. |
| Jobs.StaleTerminates | src/biblio/jobs.py:37-51 | A failed record whose start + 8 min is past becomes terminated and CLOSED, with unchanged retries and status_change set. No reservation step is taken, so the server's answers make no difference. A message with the old code goes to the chat, if any. |
| Jobs.PendingIsAttempted | src/biblio/jobs.py:37-63 | A pending record is never stale. It succeeds exactly when the three steps succeed and the success message, if any, is delivered. |
| Jobs.SuccessShape | src/biblio/jobs.py:53-73 | A success needs an accepted entry and a confirmation. It carries the answer's `codice_prenotazione` and keeps the retries; status_change holds exactly when the old status was pending or fail. |
| Jobs.FailureShape | src/biblio/jobs.py:75-93 | Any other outcome of a non-stale record adds exactly one retry. It is terminated exactly when retries exceed 18, and then the code is CLOSED; otherwise it is fail and keeps the code. |
| Jobs.FailureNotice | src/biblio/jobs.py:80-83 | After a failure the user is messaged exactly when there is a chat and the new retry count is a multiple of 6 or the request is terminated. The message carries the new status and code. |
| Jobs.RaisedIff | src/biblio/jobs.py:37-93 | A pass raises exactly when the record has a chat and either it is stale and the stale message is lost, or it is not stale, its failure is reported, that report is lost, and it reached the `except` branch because the steps failed or the success message was lost. |
| Jobs.ResultIdentity | src/biblio/jobs.py:42-93 | Every result carries the record's id and notified = true. It is stamped now and ends as success, fail or terminated. |
| Jobs.LostSuccessIsReported | src/biblio/jobs.py:61-83 | A booking whose success message is lost ends as a failure, as if the steps had failed. Its failure report is a separate message, and when delivered the pass completes with that report alone. |
| Jobs.ProcessReservation | src/biblio/jobs.py:21-95 | Every result carries the record's id, is marked notified and is stamped now. At most one message is sent, to the record's chat. A success comes only from a record that is not stale whose three steps succeeded, and carries their booking code. |
| Jobs.ProcessReservationAsWritten | src/biblio/jobs.py:53-93 | With the four-argument call, no pass succeeds, and every non-stale record gains a retry. |
| Jobs.AsWrittenAgreesOnFailure | src/biblio/jobs.py:53-93 | Where the steps fail anyway, the code as written does what the corrected code does. |
| Jobs.MissingTimeoutLosesBooking | src/biblio/jobs.py:56 | A request the server accepts and confirms succeeds with the timeout passed, and fails as written. |
| Jobs.ToUpdatesApplied | src/biblio/jobs.py:105-107 | The update for a result always goes through, and writes every result field except the id into that id's row. |
| Jobs.ApplyResultsEffect | src/biblio/jobs.py:105-107 | With distinct ids, each result's row holds that result's fields, and rows that no result names are unchanged. |
| Jobs.ResultFor | src/biblio/jobs.py:105-107 | The result found is one of the results and has the id asked for. |
| Jobs.RunPasses | src/biblio/jobs.py:103-104 | The job raises exactly when some pass raises; otherwise it returns one result per record, in order. |
| Jobs.WriteResults | src/biblio/jobs.py:105-107 | One `update_record` per result, in order; the table becomes `ApplyResults` and the other tables do not change. |
| Jobs.ExecuteReservations | src/biblio/jobs.py:98-108 | A pass runs for every claimed record. If any pass raises, nothing is written; otherwise one update per result. |
| Jobs.ExecuteWritesEachRecord | src/biblio/jobs.py:98-107 | Each claimed record's row ends up holding that record's own result. |
| Jobs.ExecuteLeavesOtherRows | src/biblio/jobs.py:98-107 | A row that no claimed record names is left as it was. |
| Jobs.ResultsCarryIds | src/biblio/jobs.py:103-106 | The i-th result carries the i-th record's id. |
| Jobs.JobFiresIff | src/biblio/jobs.py:111-117 | The job fires exactly when second % 10 == 0, the minute is in {0, 1, 30, 31, 32}, the day is not Sunday and 7 ≤ hour ≤ the library's closing hour. |
| Jobs.NeverOnSunday | src/biblio/jobs.py:113-116 | Neither trigger fires on Sunday. |
| Layout.ChunkFlatten | src/biblio/utils/keyboards.py:174-178 | Cutting into rows loses nothing and reorders nothing. |
| Layout.ChunkRows | src/biblio/utils/keyboards.py:174-178 | Every row holds 1 to n items, and every row but the last exactly n. |
| Layout.Unique | src/biblio/utils/keyboards.py:194 | `unique()` keeps exactly the values of the column, each once. |
| Layout.UniqueOrder | src/biblio/utils/keyboards.py:194 | `unique()` lists values in the order they first appear. |
| Keyboards.SlotTimesShape | src/biblio/utils/keyboards.py:167-172 | The slots are start, start + 30, … and include every one up to end_hour:00. |
| Keyboards.FirstSlot | src/biblio/utils/keyboards.py:145-164 | The first slot is on :00 or :30 and never before opening:00. On today's date once that hour has come, it is the half hour containing now; otherwise it is opening:00. |
| Keyboards.HalfHourSlots | src/biblio/utils/keyboards.py:167-172 | The `while` loop with the source's hour/minute condition produces exactly those slots. |
| Keyboards.OfferedTimeBounds | src/biblio/utils/keyboards.py:145-172 | Every offered time is on :00 or :30, between opening:00 and closing:00. |
| Keyboards.AlignedReservable | src/biblio/reservation/slot_datetime.py:48-69 | An aligned booking from opening time on that ends by (closing+1):00 is accepted by `reserve_datetime`. |
| Keyboards.OfferedTimeReservable | src/biblio/utils/keyboards.py:136-172 | A one-hour booking from any offered time passes `reserve_datetime`. |
| Keyboards.TimeKeyboard | src/biblio/utils/keyboards.py:174-188 | The back row is last; instant mode puts the two shortcuts first; with no times only those fixed rows remain. |
| Keyboards.FirstOfferedTime | src/biblio/utils/keyboards.py:145-164 | When the first slot is not past closing, the offered list is not empty and begins with it. |
| Keyboards.TimeKeyboardShape | src/biblio/utils/keyboards.py:174-188 | The times appear once each, in order, at most five to a row, with the back row last; instant mode adds one header row. |
| Keyboards.TimedeltaSeconds | src/biblio/utils/keyboards.py:268 | `timedelta.seconds` lies in [0, 86400). |
| Keyboards.RangeFrom1 | src/biblio/utils/keyboards.py:270 | `range(1, k)` is 1 … k−1 (empty when k ≤ 1). |
| Keyboards.DurationOptions | src/biblio/utils/keyboards.py:263-270 | The options are 1, 2, 3 … in order, never more than 24 of them. |
| Keyboards.DurationsToFit | src/biblio/utils/keyboards.py:263-270 | A duration d is offered exactly when d ≥ 1 and start + d hours is at most one hour past closing. |
| Keyboards.DurationOptionReservable | src/biblio/utils/keyboards.py:242-270 | Every duration offered for an offered start time passes `reserve_datetime`. |
| Keyboards.DurationKeyboardShape | src/biblio/utils/keyboards.py:272-277 | The options appear in order, at most eight to a row, with the back row last. |
| Keyboards.DateKeyboard | src/biblio/utils/keyboards.py:116-134 | The edit row is last, and the shortcut row is first exactly when not browsing history; with no dates only those fixed rows remain. |
| Keyboards.DateKeyboardShape | src/biblio/utils/keyboards.py:116-134 | The dates appear in order, three to a row, under a header row unless browsing history, with the edit row last. |
| Keyboards.SlotKeyboardShape | src/biblio/utils/keyboards.py:192-202 | The back row comes first, then rows of at most three. A slot label appears exactly when the slot is in the history, each slot once. |
| LegacyKeyboards.AgreesOffSunday | utils.py:42-94 | Off Sunday the earlier time and duration lists equal the schedule-driven ones. On Sunday they run to 22:00 and 23:00 where the schedule stops at 13 and 14. |
| LegacyKeyboards.OfferedBookingReservable | utils.py:42-94 | Each offered time with each offered duration passes the earlier `reserve_datetime` on any day but Sunday. |
| LegacyKeyboards.TimeKeyboardAgrees | utils.py:59-73 | Apart from its single shortcut row, the earlier time keyboard is the current one. |
| LegacyKeyboards.DateKeyboardShape | utils.py:30-40 | A shortcut row, then the dates three to a row in order, with the edit row last. |
| Utils.OpenDaysShape | src/biblio/utils/utils.py:13-18 | The listed days lie in the window, are not Sundays, increase, and include every non-Sunday day of the window. |
| Utils.OpenDaysCount | src/biblio/utils/utils.py:13-20 | Of seven consecutive days exactly one is a Sunday, so seven days yield six. |
| Utils.OpenDaysPrefix | src/biblio/utils/utils.py:13-18 | Looking further ahead only adds days at the end. |
| Utils.GenerateDays | src/biblio/utils/utils.py:10-21 | The loop with its `break` returns exactly the six non-Sunday days of the coming week, in order and labelled. |
| Utils.KeepOthers | src/biblio/utils/utils.py:53 | No separator is left, and a string without separators is kept as is. |
| Utils.StripSeparatorsKeeps | src/biblio/utils/utils.py:53 | The three `replace` calls remove exactly '.', '+' and '-' and keep every other character in order. |
| Utils.PadCodeShape | src/biblio/utils/utils.py:54-55 | Afterwards the code is at least six long or a sentinel, and ends with the input behind zeros. It changes exactly when it was shorter than six and not in {TBD, NA, INF, inf}. |
| Utils.NormalizeBookingCode | src/biblio/bot/messages.py:50-53 | The shown code is at least six long or a sentinel, and it ends with the code as it was, separators removed. |
| Utils.NormalizeShape | src/biblio/bot/messages.py:50-53 | The shown code has no separator and is at least six long or a sentinel. It is the code without separators behind a run of zeros, padded exactly when that was short and not a sentinel. |
| Utils.NormalizeIdempotent | src/biblio/utils/utils.py:52-55 | Normalising twice is normalising once. |
| Utils.Position | src/biblio/utils/utils.py:148-150 | The index of the first occurrence; None exactly when absent. |
| Utils.SheetCell | src/biblio/utils/utils.py:144-151 | Defined exactly when the id and the column exist. The row is the first matching index + 2 and the column is its index + 1. |
| Messages.CurrentExact | src/biblio/bot/messages.py:27-28 | The list holds exactly the history rows that end after now, each as often as in the history, in ascending end order. |
| Messages.Current | src/biblio/bot/messages.py:23-28 | The corrected filter (end read as Rome time): a row is listed exactly when it is in the history and ends after now, and the list is in order of end. |
| Messages.AsWrittenListsRecentlyEnded | src/biblio/bot/messages.py:23-28 | Reading the stored end as UTC misses no future row. The rows it adds are exactly those that ended within the last UTC-offset seconds. |
| Messages.ListsEndedReservation | src/biblio/bot/messages.py:26 | A booking that ended at 12:00 Rome time is still listed at 12:30 as written, and not by the corrected filter. |
| Messages.Number | src/biblio/bot/messages.py:60 | `{idx:02d}` has at least two digits and reads back as idx. |
| Messages.ReservationType | src/biblio/bot/messages.py:54 | "Instant" exactly when the reservation is instant. |
| Messages.AsWrittenNeverInstant | src/biblio/bot/messages.py:54 | As written, every reservation is shown as Regular, so every instant one is mislabelled. |
| Messages.InstantShownRegular | src/biblio/bot/messages.py:54 | A concrete instant reservation that is listed as Regular. |
| Messages.EntryFor | src/biblio/bot/messages.py:37-69 | Entry idx is numbered idx in digits. It has the retry note exactly for a failed request, and says Instant exactly for an instant one (the corrected type). |
| Messages.EntryShape | src/biblio/bot/messages.py:37-69 | Entry idx is numbered idx, with at least two digits. Its code has no separators and is at least six long or a sentinel. The retry note appears exactly for a failed request, and the type says Instant exactly for an instant one (the corrected type). |
| Messages.Numbered | src/biblio/bot/messages.py:37-69 | One entry per listed row. |
| Messages.NumberedAt | src/biblio/bot/messages.py:37-69 | Entry i renders row i with the number i + 1. |
| Messages.NumberEntries | src/biblio/bot/messages.py:37-69 | The `idx` loop renders exactly the numbered entries. |
| Messages.ListCurrent | src/biblio/bot/messages.py:27-71 | Built on the corrected `Current` and `ReservationType` (see Findings). At the cancel stage with rows to show, it returns the filtered rows themselves; otherwise the numbered entries. |
| Messages.ShowExistingReservations | src/biblio/bot/messages.py:14-75 | Built on the corrected `Current` and `ReservationType` (see Findings). None exactly when the user has no rows (the empty frame makes the `except` return None). Otherwise it returns the rows at the cancel stage, and the numbered entries of the future rows in all other cases. |
| Messages.ListFromHistory | src/biblio/utils/utils.py:23-71 | The same listing over a given history, first narrowed to the user's codice and email; built on the corrected `Current` and `ReservationType`. |
| Messages.ListedRowsOwnAndCurrent | src/biblio/utils/utils.py:27-33 | Every listed row belongs to the user and ends after now. |
| Messages.ShowNotification | src/biblio/bot/messages.py:152-174 | A message exists exactly for success, fail and terminated. It shows the booking code upper-cased and the duration as a whole number of hours. |
| Messages.HeadlinesDistinct | src/biblio/bot/messages.py:153-161 | The three statuses get three different headlines. |
| Messages.EveryNoticeRenders | src/biblio/jobs.py:39-83 | Every message a pass sends has a status that `show_notification` supports. |

## Left out

- Telegram conversation handlers and message layout are not modelled: emoji, Markdown, `textwrap`, `.title()` and the header with the user's name. Entries keep their fields, not their text.
- HTTP transport is not modelled. The server's answer to each request is an input, and so is Telegram's delivery of a message.
- `asyncio.gather` runs passes concurrently. Records are independent, so the passes run one after another, and the updates are applied in order.
- `datetime.now()`, `zoneinfo`/`pytz` and daylight saving become parameters: `now` on the Europe/Rome clock and the UTC offset. A DST gap or an ambiguous hour is not modelled.
- Python regex corner cases are left out: `$` also accepting a trailing newline, and `\d` matching non-ASCII digits. The validators are modelled over ASCII classes.
- Keyboards.DurationsToFit: states its iff only for a start on :00/:30 within 23.5 hours before the end bound. This leaves out the negative-`timedelta.seconds` wrap for a start past the end hour.
- Keyboards.DateKeyboard: takes the list of dates as a parameter. At src/biblio/utils/keyboards.py:118, `generate_days` is called with `past`/`future` keywords that the `generate_days` at src/biblio/utils/utils.py:10 does not accept. The function it was meant to call is not part of this model.
- Keyboards.FirstSlot: takes `isToday` and the current minute as parameters. The year reconstruction from the date label (src/biblio/utils/keyboards.py:139-144) is not modelled.
- Keyboards.DurationOptions: models the path that reads the selected date. The `show_available` path's use of `datetime.now()` is not modelled separately; it is the same arithmetic on today's date.
- The earlier `show_existing_reservations` (utils.py:136-181) is not modelled separately. It is the listing without booking-code normalisation, over the same filter.
- Store.Database.InsertUser: the `ValueError` when neither the insert nor the lookup yields a row cannot arise in a single-process model, since one of the two always succeeds.
- Store.Database.UpsertSetting: the `updated_at` stamp of a setting is not kept.
- Store.Database.constructor: the empty starting store is the model's own starting state; the source has no counterpart.
- Store.SweepRow: assumes the database session's TimeZone is Europe/Rome. At src/biblio/db/update.py:108-109 the slot start is a true instant (`AT TIME ZONE` on a timestamp), while `now() AT TIME ZONE 'Europe/Rome'` is a Rome wall-clock timestamp that Postgres converts back with the session TimeZone. `PastGrace` compares Rome wall-clock instants on both sides, so under a UTC session the real sweep terminates a row up to one or two hours earlier than modelled.
- Records.StatusNamed: the stored strings of the `Status` enum (`pending`, `processing`, `awaiting`, `fail`, `success`, `existing`, `terminated`, `canceled`) are assumed. The enum's definition is not part of this model, and the docstring at src/biblio/db/update.py:101 calls one of them `awaiting_confirmation`.
- Store.SweepTable: returns the swept rows in id order. The `RETURNING` rows of src/biblio/db/update.py:105-131 come in an order the SQL does not fix (there is no ORDER BY); id order is this model's choice.
- SlotDateTime.ReserveDatetime: takes the date as `Option<int>`, a day number or None for a string that does not parse. The `strptime('%Y-%m-%d')` parse at src/biblio/reservation/slot_datetime.py:33-36 is not modelled.
- Utils.SheetCell: assumes the data frame has its default 0-based RangeIndex, so a row's label is its position. A frame with another index would give other sheet rows.
- The sweep resolves `processing`/`awaiting` rows, but none of the engine code writes those statuses. The sweep is modelled as written.
- Fetch.FetchUserReservations: the driver's mapping of records into a data frame is not modelled, and the duplicate `display_date` column is not kept.
- The Google Sheets write itself (`worksheet.update_value`), admin tooling, Railway services and the manual scripts are not modelled.

## Findings

| source | as written | input that shows it | evidently intended | confidence | as-written member | corrected member |
|---|---|---|---|---|---|---|
| src/biblio/jobs.py:56 | `set_reservation(start, end, duration, user_data)` omits the required `timeout`, so the call raises `TypeError`. The broad `except` turns it into an ordinary failure, and no request is ever booked. | A pending Monday request for 10:00, 2 hours, with a valid profile, which the server accepts and confirms | Pass a timeout built by `calculate_timeout`, as src/biblio/selection/confirm.py:86-88 and src/biblio/tests/read_timeout.py:57 do | not executed | Jobs.MissingTimeoutLosesBooking | Jobs.ProcessReservation |
| src/biblio/bot/messages.py:26 | The stored end time is Europe/Rome local time but is localised as UTC before being compared with Rome's `now`, so it is read one or two hours later than it is. The same happens at src/biblio/utils/utils.py:31. | A booking ending 12:00 on 2024-01-01, checked at 12:30 with Rome at UTC+1 | Localise the end time as Europe/Rome | not executed | Messages.ListsEndedReservation | Messages.CurrentExact |
| src/biblio/bot/messages.py:54 | `row['instant'] == 'True'` compares a boolean column with a string, which is never equal. | Any row with `instant` true | Test the flag itself | not executed | Messages.AsWrittenNeverInstant | Messages.ReservationType |
