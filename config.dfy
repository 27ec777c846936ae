/** The opening hours of the library and the hour windows of the scheduled jobs. */
module Config {

  /** An (opening, closing) pair of whole hours. */
  datatype Hours = Hours(opening: int, closing: int)

  /** `Schedule`: a table of hour windows, keyed by weekday number or by job name. */
  datatype Schedule<K> = Schedule(hours: map<K, Hours>)

  /** `Schedule.get_hours`: the window under `key`, or (0, 0) when there is none. */
  function GetHours<K>(s: Schedule<K>, key: K): (h: Hours)
    ensures key in s.hours ==> h == s.hours[key]
    ensures key !in s.hours ==> h == Hours(0, 0)
  {
    if key in s.hours then s.hours[key] else Hours(0, 0)
  }

  /** `Schedule.weekly`: Monday (0) to Friday (4) 9 to 22, Saturday and Sunday 9 to 13. */
  function Weekly(): Schedule<int>
  {
    Schedule(map[0 := Hours(9, 22), 1 := Hours(9, 22), 2 := Hours(9, 22), 3 := Hours(9, 22),
                 4 := Hours(9, 22), 5 := Hours(9, 13), 6 := Hours(9, 13)])
  }

  const JobKeys: seq<string> := ["weekday", "sat", "sun", "availability", "availability_sat"]

  /** The job windows in standard time, before any daylight-saving adjustment. */
  function StandardJobHours(key: string): Hours
  {
    if key == "weekday" then Hours(5, 20)
    else if key == "availability" then Hours(5, 18)
    else Hours(5, 11)
  }

  /** `Schedule.jobs(daylight_saving)`: every window moved one hour later in daylight-saving time. */
  function Jobs(daylightSaving: bool): Schedule<string>
  {
    var adjustment := if daylightSaving then 1 else 0;
    var base := StandardJobHours;
    Schedule(map k | k in JobKeys :: Hours(base(k).opening + adjustment, base(k).closing + adjustment))
  }

  /** The weekly table: 9 to 22 on weekdays, 9 to 13 at the weekend. */
  lemma WeeklyHours(weekday: int)
    requires 0 <= weekday < 7
    ensures GetHours(Weekly(), weekday) == if weekday < 5 then Hours(9, 22) else Hours(9, 13)
  {
  }

  /** Any weekday number outside 0..6 reads as (0, 0). */
  lemma WeeklyUnknownKey(key: int)
    requires key < 0 || key >= 7
    ensures GetHours(Weekly(), key) == Hours(0, 0)
  {
  }

  /** The library opens before it closes on every day of the week. */
  lemma WeeklyOpensBeforeClosing(weekday: int)
    requires 0 <= weekday < 7
    ensures GetHours(Weekly(), weekday).opening < GetHours(Weekly(), weekday).closing
  {
  }

  /** Daylight saving moves each job window by exactly one hour, and standard time by none;
      the set of job names is the same either way. */
  lemma JobsShift(key: string)
    ensures key in Jobs(true).hours <==> key in Jobs(false).hours
    ensures key in Jobs(false).hours ==>
      GetHours(Jobs(false), key) == StandardJobHours(key)
      && GetHours(Jobs(true), key) == Hours(StandardJobHours(key).opening + 1, StandardJobHours(key).closing + 1)
    ensures key !in JobKeys ==> GetHours(Jobs(true), key) == Hours(0, 0) == GetHours(Jobs(false), key)
  {
  }
}
