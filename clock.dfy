/** Dates, times of day and the `%H:%M` / `%A, %Y-%m-%d` formats the bot reads and writes.

    A date is a day number (days since 1970-01-01, a Thursday); a time of day is a
    number of minutes since midnight; an instant is a number of seconds on the
    Europe/Rome wall clock since 1970-01-01 00:00. */
module Clock {
  import opened Wrappers
  import opened Text

  type MinuteOfDay = m: int | 0 <= m < 1440

  const Saturday := 5
  const Sunday := 6

  /** Python's `date.weekday()`: Monday is 0 and Sunday is 6. */
  function Weekday(day: int): (w: int)
    ensures 0 <= w < 7
  {
    (day + 3) % 7
  }

  /** 2026-10-17 (day 20743) is a Saturday, as the calendar says. */
  lemma WeekdayOfKnownDay()
    ensures Weekday(20743) == Saturday
    ensures Weekday(0) == 3
  {
  }

  /** The wall-clock instant of `minute` on `day`, in seconds. */
  function LocalInstant(day: int, minute: int): int
  {
    day * 86400 + minute * 60
  }

  /** The part of `strptime(s, '%H:%M')` where the colon sits at index `k`:
      one or two digits of hour (at most 23), one or two digits of minute (at most 59),
      and nothing else. */
  function ParseClockAt(s: string, k: nat): Option<MinuteOfDay>
    requires k < |s|
  {
    var h, m := s[..k], s[k + 1..];
    if s[k] == ':' && 1 <= |h| <= 2 && 1 <= |m| <= 2 && AllDigits(h) && AllDigits(m)
       && DigitsValue(h) < 24 && DigitsValue(m) < 60
    then Some(DigitsValue(h) * 60 + DigitsValue(m))
    else None
  }

  /** `datetime.strptime(s, '%H:%M').time()`, or None where it raises ValueError. */
  function ParseClock(s: string): Option<MinuteOfDay>
  {
    if |s| >= 2 && ParseClockAt(s, 1).Some? then ParseClockAt(s, 1)
    else if |s| >= 3 then ParseClockAt(s, 2)
    else None
  }

  /** `t.strftime('%H:%M')`. */
  function FormatClock(m: MinuteOfDay): (s: string)
    ensures |s| == 5 && s[2] == ':'
    ensures AllDigits(s[..2]) && AllDigits(s[3..])
  {
    Pad2(m / 60) + ":" + Pad2(m % 60)
  }

  /** Reading back what `strftime('%H:%M')` wrote gives the same time of day. */
  lemma ParseFormatClock(m: MinuteOfDay)
    ensures ParseClock(FormatClock(m)) == Some(m)
  {
    var s := FormatClock(m);
    assert s[..2] == Pad2(m / 60);
    assert s[3..] == Pad2(m % 60);
    assert !IsDigit(s[2]);
    assert ParseClockAt(s, 1).None? by {
      assert s[1 + 1..][0] == s[2];
      assert !AllDigits(s[1 + 1..]);
    }
  }

  /** Proleptic Gregorian (year, month, day) of a day number. */
  function CivilFromDays(day: int): (int, int, int)
  {
    var z := day + 719468;
    var era := z / 146097;
    var doe := z - era * 146097;
    var yoe := (doe - doe / 1460 + doe / 36524 - doe / 146096) / 365;
    var doy := doe - (365 * yoe + yoe / 4 - yoe / 100);
    var mp := (5 * doy + 2) / 153;
    var d := doy - (153 * mp + 2) / 5 + 1;
    var m := if mp < 10 then mp + 3 else mp - 9;
    (yoe + era * 400 + (if m <= 2 then 1 else 0), m, d)
  }

  function PadInt(x: int, width: nat): string
  {
    if x < 0 then IntToString(x) else ZeroPad(NatToString(x), width)
  }

  /** `d.strftime('%Y-%m-%d')`. */
  function IsoDate(day: int): string
  {
    var (y, m, d) := CivilFromDays(day);
    PadInt(y, 4) + "-" + PadInt(m, 2) + "-" + PadInt(d, 2)
  }

  /** `d.strftime('%A')`, indexed by the weekday number. */
  const WeekdayNames: seq<string> :=
    ["Monday", "Tuesday", "Wednesday", "Thursday", "Friday", "Saturday", "Sunday"]

  /** `d.strftime('%A, %Y-%m-%d')`, the label of a day on the date keyboard. */
  function DayLabel(day: int): string
  {
    WeekdayNames[Weekday(day)] + ", " + IsoDate(day)
  }
}
