/** The reply keyboards that offer dates, start times, durations and past slots, with the
    list arithmetic behind them: half-hour start times up to the closing hour, and the
    whole-hour durations that still end by closing time. `now` is a parameter. */
module Keyboards {
  import opened Wrappers
  import opened Text
  import opened Clock
  import opened Layout
  import Config
  import SlotDateTime

  /** The schedule's hours for a weekday. */
  function Opening(weekday: int): int { Config.GetHours(Config.Weekly(), weekday).opening }
  function Closing(weekday: int): int { Config.GetHours(Config.Weekly(), weekday).closing }

  // ------------------------------------------------------------ start times

  /** Where `Keyboard.time` starts: the opening hour, or, on today's date once that hour
      has come, the current time floored to :00 or :30. */
  function FirstSlot(weekday: int, isToday: bool, now: MinuteOfDay): (r: MinuteOfDay)
    requires 0 <= weekday < 7
    ensures r % 30 == 0 && Opening(weekday) * 60 <= r
    ensures isToday && now / 60 >= Opening(weekday) ==> r <= now < r + 30
    ensures !(isToday && now / 60 >= Opening(weekday)) ==> r == Opening(weekday) * 60
  {
    Config.WeeklyHours(weekday);
    if isToday && now / 60 >= Opening(weekday) then SlotDateTime.RoundToHalfHour(now) else Opening(weekday) * 60
  }

  /** The start times from `start` on, every 30 minutes, while the clock reads before
      `endHour` or exactly `endHour`:00. */
  function SlotTimes(start: int, endHour: int): seq<int>
    decreases endHour * 60 - start + 30
  {
    if start > endHour * 60 then [] else [start] + SlotTimes(start + 30, endHour)
  }

  /** The slots are `start`, `start` + 30, ... up to the last one at or before `endHour`:00:
      none is skipped and none comes after it. */
  lemma {:induction false} SlotTimesShape(start: int, endHour: int)
    ensures |SlotTimes(start, endHour)| == if start > endHour * 60 then 0 else (endHour * 60 - start) / 30 + 1
    ensures forall i :: 0 <= i < |SlotTimes(start, endHour)| ==> SlotTimes(start, endHour)[i] == start + 30 * i
    decreases endHour * 60 - start + 30
  {
    if start <= endHour * 60 {
      SlotTimesShape(start + 30, endHour);
      var s := SlotTimes(start, endHour);
      assert forall i :: 1 <= i < |s| ==> s[i] == SlotTimes(start + 30, endHour)[i - 1];
      assert (endHour * 60 - start) / 30 + 1 == (endHour * 60 - (start + 30)) / 30 + 2 || start + 30 > endHour * 60;
    }
  }

  /** The `while` loop of `Keyboard.time` on minutes since midnight: `current.hour < end_hour
      or (current.hour == end_hour and current.minute == 0)` is `current <= end_hour * 60`. */
  method HalfHourSlots(start: int, endHour: int) returns (times: seq<int>)
    ensures times == SlotTimes(start, endHour)
  {
    times := [];
    var current := start;
    while current / 60 < endHour || (current / 60 == endHour && current % 60 == 0)
      invariant times + SlotTimes(current, endHour) == SlotTimes(start, endHour)
      decreases endHour * 60 - current + 30
    {
      times := times + [current];
      current := current + 30;
    }
  }

  /** The start times `Keyboard.time` offers for a date. */
  function OfferedTimes(weekday: int, isToday: bool, now: MinuteOfDay): seq<int>
    requires 0 <= weekday < 7
  {
    SlotTimes(FirstSlot(weekday, isToday, now), Closing(weekday))
  }

  /** Every offered time is a half hour between opening and closing. */
  lemma OfferedTimeBounds(weekday: int, isToday: bool, now: MinuteOfDay, i: nat)
    requires 0 <= weekday < 7
    requires i < |OfferedTimes(weekday, isToday, now)|
    ensures var t := OfferedTimes(weekday, isToday, now)[i];
            t % 30 == 0 && Opening(weekday) * 60 <= t <= Closing(weekday) * 60
  {
    Config.WeeklyHours(weekday);
    SlotTimesShape(FirstSlot(weekday, isToday, now), Closing(weekday));
  }

  /** A booking that starts on :00 or :30 no earlier than the opening hour and ends by
      an hour past the closing hour passes `reserve_datetime`. */
  lemma AlignedReservable(day: int, t: MinuteOfDay, d: int, utcOffset: int)
    requires t % 30 == 0 && Opening(Weekday(day)) * 60 <= t
    requires 1 <= d && t + 60 * d <= (Closing(Weekday(day)) + 1) * 60
    ensures SlotDateTime.ReserveDatetime(Some(day), FormatClock(t), d, utcOffset).Ok?
  {
    Config.WeeklyHours(Weekday(day));
    ParseFormatClock(t);
    SlotDateTime.RoundIdempotent(t);
    SlotDateTime.ReserveDatetimeAccepts(Some(day), FormatClock(t), d, utcOffset);
  }

  /** A one-hour booking from any offered time passes `reserve_datetime`. */
  lemma OfferedTimeReservable(day: int, isToday: bool, now: MinuteOfDay, i: nat, utcOffset: int)
    requires i < |OfferedTimes(Weekday(day), isToday, now)|
    ensures var t := OfferedTimes(Weekday(day), isToday, now)[i];
            0 <= t < 1440 && SlotDateTime.ReserveDatetime(Some(day), FormatClock(t), 1, utcOffset).Ok?
  {
    var w := Weekday(day);
    OfferedTimeBounds(w, isToday, now, i);
    Config.WeeklyHours(w);
    var t := OfferedTimes(w, isToday, now)[i];
    AlignedReservable(day, t, 1, utcOffset);
  }

  /** The first offered time is the opening hour, or the current half hour on today's date
      once the library has opened. */
  lemma FirstOfferedTime(weekday: int, isToday: bool, now: MinuteOfDay)
    requires 0 <= weekday < 7
    requires FirstSlot(weekday, isToday, now) <= Closing(weekday) * 60
    ensures var times := OfferedTimes(weekday, isToday, now);
            |times| > 0
            && times[0] == if isToday && now / 60 >= Opening(weekday) then now - now % 30 else Opening(weekday) * 60
  {
    Config.WeeklyHours(weekday);
  }

  /** `Keyboard.time`: the times five to a row, the back row last, and on the instant path
      a row with the two shortcuts first. */
  function TimeKeyboard(times: seq<int>, instant: bool): (k: Keyboard)
    requires forall i :: 0 <= i < |times| ==> 0 <= times[i] < 1440
    ensures |k| >= 1 && k[|k| - 1] == [Back]
    ensures instant ==> |k| >= 2 && k[0] == [CurrentReservations, AvailableSlots]
    ensures times == [] ==> |k| == if instant then 2 else 1
  {
    var labels := seq(|times|, i requires 0 <= i < |times| => FormatClock(times[i]));
    (if instant then [[CurrentReservations, AvailableSlots]] else []) + Chunk(Labels(labels), 5) + [[Back]]
  }

  /** The time keyboard lists every time once, in order, at most five to a row. */
  lemma TimeKeyboardShape(times: seq<int>, instant: bool)
    requires forall i :: 0 <= i < |times| ==> 0 <= times[i] < 1440
    ensures var k := TimeKeyboard(times, instant);
            var header := if instant then 1 else 0;
            |k| >= 1 + header && k[|k| - 1] == [Back]
            && (instant ==> k[0] == [CurrentReservations, AvailableSlots])
            && Flatten(k[header..|k| - 1]) == Labels(seq(|times|, i requires 0 <= i < |times| => FormatClock(times[i])))
            && forall r :: header <= r < |k| - 1 ==> 1 <= |k[r]| <= 5
  {
    var labels := Labels(seq(|times|, i requires 0 <= i < |times| => FormatClock(times[i])));
    var k := TimeKeyboard(times, instant);
    var header: seq<seq<Button>> := if instant then [[CurrentReservations, AvailableSlots]] else [];
    assert k == header + Chunk(labels, 5) + [[Back]];
    assert k[|header|..|k| - 1] == Chunk(labels, 5);
    ChunkFlatten(labels, 5);
    ChunkRows(labels, 5);
  }

  // ------------------------------------------------------------ durations

  /** `timedelta.seconds`: the seconds part of a duration, after whole days are taken out
      (floor division), so always in [0, 86400). */
  function TimedeltaSeconds(totalSeconds: int): (s: int)
    ensures 0 <= s < 86400
  {
    totalSeconds % 86400
  }

  /** `list(range(1, k))`. */
  function RangeFrom1(k: int): (r: seq<int>)
    ensures |r| == if k >= 1 then k - 1 else 0
    ensures forall i :: 0 <= i < |r| ==> r[i] == i + 1
  {
    if k <= 1 then [] else RangeFrom1(k - 1) + [k - 1]
  }

  /** The durations offered for a start time when the last booking must end by `close`
      (minutes since midnight): `ceil(((close - start) + 30 min).seconds / 3600)` gives the
      end of the range. */
  function DurationsTo(close: int, start: MinuteOfDay): seq<int>
  {
    var seconds := TimedeltaSeconds((close - start + 30) * 60);
    RangeFrom1((seconds + 3599) / 3600)
  }

  /** `Keyboard.duration`: the end is one hour past the schedule's closing hour. */
  function DurationOptions(weekday: int, start: MinuteOfDay): (opts: seq<int>)
    ensures forall i :: 0 <= i < |opts| ==> opts[i] == i + 1
    ensures |opts| <= 24
  {
    DurationsTo((Closing(weekday) + 1) * 60, start)
  }

  /** From a start on :00 or :30 no later than `close`, the options are exactly the whole
      numbers of hours from 1 that end by `close`. */
  lemma DurationsToFit(close: int, start: MinuteOfDay, d: int)
    requires start % 30 == 0 && close % 30 == 0 && start <= close < start + 1410
    ensures d in DurationsTo(close, start) <==> 1 <= d && start + 60 * d <= close
  {
    var opts := DurationsTo(close, start);
    var seconds := (close - start + 30) * 60;
    assert 0 <= seconds < 86400;
    assert TimedeltaSeconds(seconds) == seconds;
    var k := (seconds + 3599) / 3600;
    if (close - start) % 60 == 0 {
      assert k == (close - start) / 60 + 1;
    } else {
      assert (close - start) % 60 == 30;
      assert k == (close - start + 30) / 60;
    }
    if d in opts {
      var i :| 0 <= i < |opts| && opts[i] == d;
    }
    if 1 <= d && start + 60 * d <= close {
      assert opts[d - 1] == d;
    }
  }

  /** Every duration offered for an offered start time passes `reserve_datetime`. */
  lemma DurationOptionReservable(day: int, start: MinuteOfDay, d: int, utcOffset: int)
    requires start % 30 == 0 && Opening(Weekday(day)) * 60 <= start <= Closing(Weekday(day)) * 60
    requires d in DurationOptions(Weekday(day), start)
    ensures SlotDateTime.ReserveDatetime(Some(day), FormatClock(start), d, utcOffset).Ok?
  {
    var w := Weekday(day);
    Config.WeeklyHours(w);
    DurationsToFit((Closing(w) + 1) * 60, start, d);
    AlignedReservable(day, start, d, utcOffset);
  }

  /** The duration keyboard: the options eight to a row, then the back row. */
  function DurationKeyboard(options: seq<int>): Keyboard
  {
    var labels := seq(|options|, i requires 0 <= i < |options| => IntToString(options[i]));
    Chunk(Labels(labels), 8) + [[Back]]
  }

  lemma DurationKeyboardShape(options: seq<int>)
    ensures var k := DurationKeyboard(options);
            |k| >= 1 && k[|k| - 1] == [Back]
            && Flatten(k[..|k| - 1]) == Labels(seq(|options|, i requires 0 <= i < |options| => IntToString(options[i])))
            && forall r :: 0 <= r < |k| - 1 ==> 1 <= |k[r]| <= 8
  {
    var labels := Labels(seq(|options|, i requires 0 <= i < |options| => IntToString(options[i])));
    var k := DurationKeyboard(options);
    assert k[..|k| - 1] == Chunk(labels, 8);
    ChunkFlatten(labels, 8);
    ChunkRows(labels, 8);
  }

  // ------------------------------------------------------------ dates and past slots

  /** `Keyboard.date`: the dates three to a row, under a row of shortcuts unless browsing
      history, with the row to go back to the reservation type last. */
  function DateKeyboard(dates: seq<string>, historyState: bool): (k: Keyboard)
    ensures |k| >= 1 && k[|k| - 1] == [ReservationTypeEdit]
    ensures historyState <==> !(|k| >= 2 && k[0] == [CurrentReservations, AvailableSlots])
    ensures dates == [] ==> |k| == if historyState then 1 else 2
  {
    (if historyState then [] else [[CurrentReservations, AvailableSlots]]) + Chunk(Labels(dates), 3) + [[ReservationTypeEdit]]
  }

  lemma DateKeyboardShape(dates: seq<string>, historyState: bool)
    ensures var k := DateKeyboard(dates, historyState);
            var header := if historyState then 0 else 1;
            |k| >= 1 + header && k[|k| - 1] == [ReservationTypeEdit]
            && (!historyState ==> k[0] == [CurrentReservations, AvailableSlots])
            && Flatten(k[header..|k| - 1]) == Labels(dates)
            && forall r :: header <= r < |k| - 1 ==> 1 <= |k[r]| <= 3
  {
    var k := DateKeyboard(dates, historyState);
    var header: seq<seq<Button>> := if historyState then [] else [[CurrentReservations, AvailableSlots]];
    assert k[|header|..|k| - 1] == Chunk(Labels(dates), 3);
    ChunkFlatten(Labels(dates), 3);
    ChunkRows(Labels(dates), 3);
  }

  /** `Keyboard.slot`: the back row first, then each distinct slot of the history once,
      three to a row. */
  function SlotKeyboard(history: seq<string>): Keyboard
  {
    [[Back]] + Chunk(Labels(Unique(history)), 3)
  }

  lemma SlotKeyboardShape(history: seq<string>, slot: string)
    ensures var k := SlotKeyboard(history);
            k[0] == [Back]
            && Flatten(k[1..]) == Labels(Unique(history))
            && (Label(slot) in Flatten(k[1..]) <==> slot in history)
            && forall r :: 1 <= r < |k| ==> 1 <= |k[r]| <= 3
  {
    var k := SlotKeyboard(history);
    var u := Unique(history);
    assert k[1..] == Chunk(Labels(u), 3);
    ChunkFlatten(Labels(u), 3);
    ChunkRows(Labels(u), 3);
    if slot in history {
      var i :| 0 <= i < |u| && u[i] == slot;
      assert Labels(u)[i] == Label(slot);
    }
    if Label(slot) in Labels(u) {
      var i :| 0 <= i < |u| && Labels(u)[i] == Label(slot);
    }
  }
}
