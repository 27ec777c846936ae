/** The earlier `reserve_datetime`, with fixed limits in place of the weekly schedule and
    Sundays refused. Its rounding function is the same floor to :00/:30 as the current one,
    so `SlotDateTime.RoundToHalfHour` serves for both. */
module LegacySlotDateTime {
  import opened Wrappers
  import opened Clock
  import opened SlotDateTime

  /** The longest booking and the closing hour: 5 and 14 on Saturday, 14 and 23 otherwise. */
  function Limits(weekday: int): (limits: (int, int))
    ensures weekday == Saturday ==> limits == (5, 14)
    ensures weekday != Saturday ==> limits == (14, 23)
  {
    if weekday == Saturday then (5, 14) else (14, 23)
  }

  /** The earlier `reserve_datetime(date, start, duration)`, with the date as a day number
      and `utcOffset` the Europe/Rome offset from UTC, as in `SlotDateTime.ReserveDatetime`. */
  function ReserveDatetime(date: Option<int>, start: string, duration: int, utcOffset: int): (r: Result<Slot, SlotError>)
    ensures r.Ok? ==> r.value.end - r.value.start == r.value.seconds == duration * 3600
    ensures date.Some? && Weekday(date.value) == Clock.Sunday ==> r == Err(SundayClosed)
  {
    if date.None? then Err(InvalidDate)
    else
      var day := date.value;
      var weekday := Weekday(day);
      if weekday == Clock.Sunday then Err(SundayClosed)
      else
        var parsed := ParseClock(start);
        if parsed.None? then Err(InvalidTime)
        else
          var t := RoundToHalfHour(parsed.value);
          var (maxDuration, closing) := Limits(weekday);
          if duration < 1 || duration > maxDuration then Err(BadDuration(maxDuration))
          else if t < OpeningHour * 60 then Err(BeforeOpening)
          else if t + duration * 60 > closing * 60 then Err(AfterClosing(closing))
          else
            var startTime := LocalInstant(day, t) - utcOffset;
            Ok(Slot(startTime, startTime + duration * 3600, duration * 3600))
  }

  /** Apart from Sundays, the earlier version and the schedule-driven one give the same
      answer, error messages included: the weekly table encodes the same fixed limits. */
  lemma AgreesWithCurrentOffSunday(date: Option<int>, start: string, duration: int, utcOffset: int)
    requires date.None? || Weekday(date.value) != Clock.Sunday
    ensures ReserveDatetime(date, start, duration, utcOffset) == SlotDateTime.ReserveDatetime(date, start, duration, utcOffset)
  {
    if date.Some? {
      DurationLimits(date.value);
    }
  }

  /** On a Sunday the earlier version refuses before reading the time, where the current one
      may accept. */
  lemma SundayDiffers(day: int, utcOffset: int)
    requires Weekday(day) == Clock.Sunday
    ensures ReserveDatetime(Some(day), "09:00", 1, utcOffset) == Err(SundayClosed)
    ensures SlotDateTime.ReserveDatetime(Some(day), "09:00", 1, utcOffset).Ok?
  {
    SundayAccepted(day, utcOffset);
  }
}
