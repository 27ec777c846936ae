/** The earlier keyboard helpers, with the hours written in: start times up to 13:00 on
    Saturday and 22:00 otherwise, durations up to 14:00 on Saturday and 23:00 otherwise,
    and a single shortcut row. The half-hour walk and the duration range are the same
    arithmetic as in `Keyboards`. */
module LegacyKeyboards {
  import opened Wrappers
  import opened Clock
  import opened Layout
  import Keyboards
  import SlotDateTime
  import LegacySlotDateTime
  import Config

  /** The last start time offered, in hours: 13 on Saturday, 22 otherwise. */
  function TimeEndHour(weekday: int): int
  {
    if weekday == Saturday then 13 else 22
  }

  /** The hour by which a booking must end: 14 on Saturday, 23 otherwise. */
  function DurationEndHour(weekday: int): int
  {
    if weekday == Saturday then 14 else 23
  }

  /** The first start time: 09:00, or on today's date from 9 o'clock on the current time
      floored to :00 or :30. */
  function FirstSlot(isToday: bool, now: MinuteOfDay): MinuteOfDay
  {
    if isToday && now / 60 >= 9 then SlotDateTime.RoundToHalfHour(now) else 540
  }

  /** The start times `generate_time_keyboard` offers. */
  function OfferedTimes(weekday: int, isToday: bool, now: MinuteOfDay): seq<int>
  {
    Keyboards.SlotTimes(FirstSlot(isToday, now), TimeEndHour(weekday))
  }

  /** The durations `generate_duration_keyboard` offers. */
  function DurationOptions(weekday: int, start: MinuteOfDay): seq<int>
  {
    Keyboards.DurationsTo(DurationEndHour(weekday) * 60, start)
  }

  /** Except on Sunday, the earlier keyboards offer what the schedule-driven ones offer;
      on Sunday they go on to 22:00 and 23:00, where the schedule stops at 13:00 and 14:00. */
  lemma AgreesOffSunday(weekday: int, isToday: bool, now: MinuteOfDay, start: MinuteOfDay)
    requires 0 <= weekday < 7
    ensures weekday != Sunday ==> OfferedTimes(weekday, isToday, now) == Keyboards.OfferedTimes(weekday, isToday, now)
    ensures weekday != Sunday ==> DurationOptions(weekday, start) == Keyboards.DurationOptions(weekday, start)
    ensures weekday == Sunday ==> TimeEndHour(weekday) == Keyboards.Closing(weekday) + 9
                                  && DurationEndHour(weekday) == Keyboards.Closing(weekday) + 10
  {
    Config.WeeklyHours(weekday);
  }

  /** Each offered time, with each duration offered for it, passes the earlier
      `reserve_datetime` on any day but Sunday. */
  lemma OfferedBookingReservable(day: int, isToday: bool, now: MinuteOfDay, i: nat, d: int, utcOffset: int)
    requires Weekday(day) != Sunday
    requires i < |OfferedTimes(Weekday(day), isToday, now)|
    requires var t := OfferedTimes(Weekday(day), isToday, now)[i];
             0 <= t < 1440 && d in DurationOptions(Weekday(day), t)
    ensures LegacySlotDateTime.ReserveDatetime(Some(day), FormatClock(OfferedTimes(Weekday(day), isToday, now)[i]), d, utcOffset).Ok?
  {
    var w := Weekday(day);
    var t := OfferedTimes(w, isToday, now)[i];
    AgreesOffSunday(w, isToday, now, t);
    Keyboards.OfferedTimeBounds(w, isToday, now, i);
    Config.WeeklyHours(w);
    Keyboards.DurationOptionReservable(day, t, d, utcOffset);
    LegacySlotDateTime.AgreesWithCurrentOffSunday(Some(day), FormatClock(t), d, utcOffset);
  }

  /** `generate_time_keyboard`: five times to a row and the back row, under a single
      shortcut row on the instant path. */
  function TimeKeyboard(times: seq<int>, instant: bool): Keyboard
    requires forall i :: 0 <= i < |times| ==> 0 <= times[i] < 1440
  {
    var labels := seq(|times|, i requires 0 <= i < |times| => FormatClock(times[i]));
    (if instant then [[CurrentReservations]] else []) + Chunk(Labels(labels), 5) + [[Back]]
  }

  /** Apart from the shortcut row, the earlier time keyboard is the current one. */
  lemma TimeKeyboardAgrees(times: seq<int>, instant: bool)
    requires forall i :: 0 <= i < |times| ==> 0 <= times[i] < 1440
    ensures instant ==> TimeKeyboard(times, instant)[0] == [CurrentReservations]
                        && TimeKeyboard(times, instant)[1..] == Keyboards.TimeKeyboard(times, instant)[1..]
    ensures !instant ==> TimeKeyboard(times, instant) == Keyboards.TimeKeyboard(times, instant)
  {
    var labels := seq(|times|, i requires 0 <= i < |times| => FormatClock(times[i]));
    var body := Chunk(Labels(labels), 5) + [[Back]];
    if instant {
      assert TimeKeyboard(times, instant) == [[CurrentReservations]] + body;
      assert Keyboards.TimeKeyboard(times, instant) == [[CurrentReservations, AvailableSlots]] + body;
    } else {
      assert TimeKeyboard(times, instant) == body;
      assert Keyboards.TimeKeyboard(times, instant) == body;
    }
  }

  /** `generate_date_keyboard`: the shortcut row, the dates three to a row, then the row to
      go back to the reservation type. */
  function DateKeyboard(dates: seq<string>): Keyboard
  {
    [[CurrentReservations]] + Chunk(Labels(dates), 3) + [[ReservationTypeEdit]]
  }

  lemma DateKeyboardShape(dates: seq<string>)
    ensures var k := DateKeyboard(dates);
            |k| >= 2 && k[0] == [CurrentReservations] && k[|k| - 1] == [ReservationTypeEdit]
            && Flatten(k[1..|k| - 1]) == Labels(dates)
            && forall r :: 1 <= r < |k| - 1 ==> 1 <= |k[r]| <= 3
  {
    var k := DateKeyboard(dates);
    assert k[1..|k| - 1] == Chunk(Labels(dates), 3);
    ChunkFlatten(Labels(dates), 3);
    ChunkRows(Labels(dates), 3);
  }
}
