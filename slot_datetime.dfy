/** Turning a requested (date, start time, duration) into the Unix timestamps the
    library's booking API expects, under the weekly opening hours; and picking the
    still-open slots out of an availability table. */
module SlotDateTime {
  import opened Wrappers
  import opened Text
  import opened Clock
  import Config

  /** `round_time_to_nearest_half_hour`: despite its name it floors to :00 or :30. */
  function RoundToHalfHour(m: MinuteOfDay): (r: MinuteOfDay)
    ensures r <= m < r + 30
    ensures r % 30 == 0
    ensures r / 60 == m / 60
  {
    var minutes := m % 60;
    if minutes >= 30 then m + (30 - minutes) else m - minutes
  }

  /** Flooring is idempotent: a time already on :00 or :30 stays where it is. */
  lemma RoundIdempotent(m: MinuteOfDay)
    ensures RoundToHalfHour(RoundToHalfHour(m)) == RoundToHalfHour(m)
    ensures m % 30 == 0 ==> RoundToHalfHour(m) == m
  {
  }

  /** The three integers `reserve_datetime` returns. */
  datatype Slot = Slot(start: int, end: int, seconds: int)

  /** Each `ValueError` message of `reserve_datetime`. */
  datatype SlotError =
    | InvalidDate
    | SundayClosed
    | InvalidTime
    | BadDuration(maxDuration: int)
    | BeforeOpening
    | AfterClosing(closingHour: int)

  /** The hour past which nothing may end on `weekday`: the schedule's closing hour plus one. */
  function ClosingHour(weekday: int): int
  {
    Config.GetHours(Config.Weekly(), weekday).closing + 1
  }

  /** The longest booking allowed on `weekday`, in hours. */
  function MaxDuration(weekday: int): int
  {
    ClosingHour(weekday) - Config.GetHours(Config.Weekly(), weekday).opening
  }

  /** The hour before which no booking may start, fixed at 9 whatever the schedule says. */
  const OpeningHour := 9

  /** The library's rule for a booking: at least an hour, no longer than the day allows,
      starting (once floored) at 09:00 or later and ending by the closing hour. */
  ghost predicate Admissible(day: int, startMinute: MinuteOfDay, duration: int)
  {
    var t := RoundToHalfHour(startMinute);
    1 <= duration <= MaxDuration(Weekday(day))
    && OpeningHour * 60 <= t
    && t + duration * 60 <= ClosingHour(Weekday(day)) * 60
  }

  /** `reserve_datetime(date, start, duration)`. The date arrives already read by
      `strptime('%Y-%m-%d')` as a day number (None when it did not parse), and `utcOffset`
      is the Europe/Rome offset from UTC on that date, in seconds. */
  function ReserveDatetime(date: Option<int>, start: string, duration: int, utcOffset: int): (r: Result<Slot, SlotError>)
    ensures r.Ok? ==> r.value.end - r.value.start == r.value.seconds == duration * 3600
    ensures r.Ok? ==> date.Some? && ParseClock(start).Some?
                      && r.value.start == LocalInstant(date.value, RoundToHalfHour(ParseClock(start).value)) - utcOffset
  {
    if date.None? then Err(InvalidDate)
    else
      var day := date.value;
      var parsed := ParseClock(start);
      if parsed.None? then Err(InvalidTime)
      else
        var t := RoundToHalfHour(parsed.value);
        var weekday := Weekday(day);
        var closing := ClosingHour(weekday);
        var maxDuration := MaxDuration(weekday);
        if duration < 1 || duration > maxDuration then Err(BadDuration(maxDuration))
        else if t < OpeningHour * 60 then Err(BeforeOpening)
        else if t + duration * 60 > closing * 60 then Err(AfterClosing(closing))
        else
          var startTime := LocalInstant(day, t) - utcOffset;
          Ok(Slot(startTime, startTime + duration * 3600, duration * 3600))
  }

  /** A request is accepted exactly when both strings parse and the booking is admissible. */
  lemma ReserveDatetimeAccepts(date: Option<int>, start: string, duration: int, utcOffset: int)
    ensures ReserveDatetime(date, start, duration, utcOffset).Ok?
            <==> date.Some? && ParseClock(start).Some? && Admissible(date.value, ParseClock(start).value, duration)
  {
  }

  /** A malformed date is reported before anything else, and a malformed time before any range check. */
  lemma ReserveDatetimeErrorOrder(date: Option<int>, start: string, duration: int, utcOffset: int)
    ensures date.None? ==> ReserveDatetime(date, start, duration, utcOffset) == Err(InvalidDate)
    ensures date.Some? && ParseClock(start).None? ==> ReserveDatetime(date, start, duration, utcOffset) == Err(InvalidTime)
  {
  }

  /** Duration limits: 14 hours Monday to Friday, 5 on Saturday and Sunday, and closing at
      23:00 and 14:00 respectively. */
  lemma DurationLimits(day: int)
    ensures Weekday(day) < 5 ==> MaxDuration(Weekday(day)) == 14 && ClosingHour(Weekday(day)) == 23
    ensures Weekday(day) >= 5 ==> MaxDuration(Weekday(day)) == 5 && ClosingHour(Weekday(day)) == 14
  {
    Config.WeeklyHours(Weekday(day));
  }

  /** Since bookings start at 09:00 or later and the schedule opens at 9, the upper duration
      bound never changes whether a request is accepted, only which error it gets. */
  lemma {:induction false} DurationBoundOnlyNamesTheError(day: int, startMinute: MinuteOfDay, duration: int)
    requires duration >= 1
    ensures Admissible(day, startMinute, duration)
            <==> OpeningHour * 60 <= RoundToHalfHour(startMinute)
                 && RoundToHalfHour(startMinute) + duration * 60 <= ClosingHour(Weekday(day)) * 60
  {
    Config.WeeklyHours(Weekday(day));
  }

  /** Sundays are open: a one-hour booking from 09:00 on any Sunday is accepted. */
  lemma SundayAccepted(day: int, utcOffset: int)
    requires Weekday(day) == Clock.Sunday
    ensures ReserveDatetime(Some(day), "09:00", 1, utcOffset).Ok?
  {
    NineOClock(540);
    OpeningHourAccepted(day, 540, utcOffset);
  }

  lemma NineOClock(t: MinuteOfDay)
    requires t == 540
    ensures FormatClock(t) == "09:00"
  {
    PadDigit(t / 60);
    PadDigit(t % 60);
  }

  /** A single digit is padded with one zero. */
  lemma PadDigit(n: nat)
    requires n < 10
    ensures Pad2(n) == ['0', DigitChar(n)]
  {
    var s := Pad2(n);
    assert DigitsValue(s) == 10 * DigitValue(s[0]) + DigitValue(s[1]) by {
      assert s[..1] == [s[0]];
    }
  }

  /** An hour from 09:00 is accepted on any day. */
  lemma OpeningHourAccepted(day: int, t: MinuteOfDay, utcOffset: int)
    requires t == OpeningHour * 60
    ensures ReserveDatetime(Some(day), FormatClock(t), 1, utcOffset).Ok?
  {
    ParseFormatClock(t);
    RoundIdempotent(t);
    Config.WeeklyHours(Weekday(day));
    ReserveDatetimeAccepts(Some(day), FormatClock(t), 1, utcOffset);
  }

  /** The start time of an availability-table key "HH:MM-HH:MM", or None where splitting
      it on '-' does not give two parts or its first part is not a time. */
  function SlotStart(key: string): (r: Option<MinuteOfDay>)
    ensures r.Some? ==> |Split(key, '-')| == 2 && ParseClock(Split(key, '-')[0]) == r
  {
    var parts := Split(key, '-');
    if |parts| == 2 then ParseClock(parts[0]) else None
  }

  /** Whether a slot is kept: every slot when `filterPast` is off, otherwise those that start
      no earlier than the current half hour. */
  predicate KeepSlot(start: MinuteOfDay, now: MinuteOfDay, filterPast: bool)
  {
    !filterPast || start >= RoundToHalfHour(now)
  }

  /** A key whose slot parses and is kept. */
  predicate KeptKey(key: string, now: MinuteOfDay, filterPast: bool)
  {
    SlotStart(key).Some? && KeepSlot(SlotStart(key).value, now, filterPast)
  }

  /** What `extract_available_seats` returns: the free-seat count of every kept slot, or
      None where some key is malformed and the loop raises. */
  ghost function AvailableSeats(schedule: map<string, int>, now: MinuteOfDay, filterPast: bool): (r: Option<map<string, int>>)
    ensures r.Some? <==> forall k :: k in schedule ==> SlotStart(k).Some?
    ensures r.Some? ==> forall k :: k in r.value <==> k in schedule && KeepSlot(SlotStart(k).value, now, filterPast)
    ensures r.Some? ==> forall k :: k in r.value ==> r.value[k] == schedule[k]
  {
    if forall k :: k in schedule ==> SlotStart(k).Some? then Some(KeptSeats(schedule, {}, now, filterPast))
    else None
  }

  /** The kept slots among the keys no longer in `remaining`, with their counts. */
  ghost function KeptSeats(schedule: map<string, int>, remaining: set<string>, now: MinuteOfDay, filterPast: bool): map<string, int>
  {
    map k | k in schedule && k !in remaining && KeptKey(k, now, filterPast) :: schedule[k]
  }

  /** Taking one more key out of `remaining` adds it to the kept slots when it is kept. */
  lemma KeptSeatsStep(schedule: map<string, int>, remaining: set<string>, slot: string, now: MinuteOfDay, filterPast: bool)
    requires slot in remaining && remaining <= schedule.Keys
    ensures KeptSeats(schedule, remaining - {slot}, now, filterPast)
            == if KeptKey(slot, now, filterPast) then KeptSeats(schedule, remaining, now, filterPast)[slot := schedule[slot]]
               else KeptSeats(schedule, remaining, now, filterPast)
  {
    var after := KeptSeats(schedule, remaining - {slot}, now, filterPast);
    var before := KeptSeats(schedule, remaining, now, filterPast);
    var expected := if KeptKey(slot, now, filterPast) then before[slot := schedule[slot]] else before;
    assert forall k :: k in after <==> k in expected;
    assert forall k :: k in after ==> after[k] == expected[k];
  }

  /** `extract_available_seats(schedule, filter_past)`, where each slot's info is reduced to
      its `disponibili` count and `now` is the current Europe/Rome time of day. */
  method ExtractAvailableSeats(schedule: map<string, int>, now: MinuteOfDay, filterPast: bool) returns (r: Option<map<string, int>>)
    ensures r == AvailableSeats(schedule, now, filterPast)
  {
    var result: map<string, int> := map[];
    var remaining := schedule.Keys;
    while remaining != {}
      invariant remaining <= schedule.Keys
      invariant forall k :: k in schedule && k !in remaining ==> SlotStart(k).Some?
      invariant result == KeptSeats(schedule, remaining, now, filterPast)
      decreases remaining
    {
      var slot :| slot in remaining;
      var start := SlotStart(slot);
      if start.None? {
        return None;
      }
      KeptSeatsStep(schedule, remaining, slot, now, filterPast);
      if KeepSlot(start.value, now, filterPast) {
        result := result[slot := schedule[slot]];
      }
      remaining := remaining - {slot};
    }
    return Some(result);
  }

  /** With `filterPast` off every slot survives unchanged. */
  lemma AvailableSeatsUnfiltered(schedule: map<string, int>, now: MinuteOfDay)
    requires forall k :: k in schedule ==> SlotStart(k).Some?
    ensures AvailableSeats(schedule, now, false) == Some(schedule)
  {
    var r := AvailableSeats(schedule, now, false);
    assert r.Some?;
    assert r.value.Keys == schedule.Keys;
    assert forall k :: k in schedule ==> r.value[k] == schedule[k];
    assert r.value == schedule;
  }
}
