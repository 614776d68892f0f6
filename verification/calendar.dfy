/** The JavaScript `Date` arithmetic the period routes rely on, over integer milliseconds:
    the day number and weekday of a time value, `new Date(year, month, day, ...)` with its
    month overflow and two-digit-year rules, and the validity range of a time value.
    These follow the definitions of section 21.4.1 of ECMA-262 (Day, WeekDay, DayFromYear,
    MakeDay, MakeTime, MakeDate, TimeClip); local time is taken to equal UTC. */
module Calendar {
  import opened Common

  const MsPerDay := 86400000
  /** The largest magnitude of a valid time value (TimeClip). */
  const MaxTimeMs := 8640000000000000

  /** The day number of a time value: floor(t / msPerDay). */
  function Day(t: int): int
  {
    t / MsPerDay
  }

  /** 0 is Sunday, 1 is Monday; 1 January 1970 was a Thursday. */
  function WeekDay(t: int): (w: int)
    ensures 0 <= w < 7
  {
    (Day(t) + 4) % 7
  }

  predicate IsLeapYear(y: int)
  {
    y % 4 == 0 && (y % 100 != 0 || y % 400 == 0)
  }

  function DaysInYear(y: int): int
  {
    if IsLeapYear(y) then 366 else 365
  }

  /** Month lengths, months counted from 0 as JavaScript does. */
  function DaysInMonth(y: int, m: int): int
    requires 0 <= m < 12
  {
    if m == 1 then (if IsLeapYear(y) then 29 else 28)
    else if m == 3 || m == 5 || m == 8 || m == 10 then 30
    else 31
  }

  /** Days of year `y` before the first of month `m` (month 12 is the year's end). */
  function DaysBeforeMonth(y: int, m: int): int
    requires 0 <= m <= 12
  {
    [0, 31, 59, 90, 120, 151, 181, 212, 243, 273, 304, 334, 365][m]
      + (if IsLeapYear(y) && m >= 2 then 1 else 0)
  }

  /** The cumulative table agrees with the month lengths, and a year's months fill the year. */
  lemma MonthsFillYear(y: int, m: int)
    requires 0 <= m < 12
    ensures DaysBeforeMonth(y, m + 1) == DaysBeforeMonth(y, m) + DaysInMonth(y, m)
    ensures DaysBeforeMonth(y, 12) == DaysInYear(y)
  {
  }

  /** The day number of 1 January of year `y`, in closed form. */
  function DayFromYear(y: int): int
  {
    365 * (y - 1970) + (y - 1969) / 4 - (y - 1901) / 100 + (y - 1601) / 400
  }

  lemma StepOfFloor(x: int)
    ensures (x + 1) / 4 == x / 4 + (if (x + 1) % 4 == 0 then 1 else 0)
    ensures (x + 1) / 100 == x / 100 + (if (x + 1) % 100 == 0 then 1 else 0)
    ensures (x + 1) / 400 == x / 400 + (if (x + 1) % 400 == 0 then 1 else 0)
  {
  }

  /** Consecutive years start DaysInYear apart. */
  lemma DayFromYearStep(y: int)
    ensures DayFromYear(y + 1) == DayFromYear(y) + DaysInYear(y)
  {
    StepOfFloor(y - 1969);
    StepOfFloor(y - 1901);
    StepOfFloor(y - 1601);
    ShiftedRemainders(y);
    var a := (y - 1968) / 4 - (y - 1969) / 4;
    var b := (y - 1900) / 100 - (y - 1901) / 100;
    var c := (y - 1600) / 400 - (y - 1601) / 400;
    assert a == (if y % 4 == 0 then 1 else 0);
    assert b == (if y % 100 == 0 then 1 else 0);
    assert c == (if y % 400 == 0 then 1 else 0);
    assert DayFromYear(y + 1) == DayFromYear(y) + 365 + a - b + c;
    CenturiesAreLeapCandidates(y);
  }

  lemma CenturiesAreLeapCandidates(y: int)
    ensures y % 400 == 0 ==> y % 100 == 0
    ensures y % 100 == 0 ==> y % 4 == 0
  {
    var q := y / 400;
    var p := y / 100;
    if y % 400 == 0 {
      assert y == 400 * q;
      assert y == 100 * (4 * q) + 0;
    }
    if y % 100 == 0 {
      assert y == 100 * p;
      assert y == 4 * (25 * p) + 0;
    }
  }

  lemma ShiftedRemainders(y: int)
    ensures (y - 1968) % 4 == y % 4
    ensures (y - 1900) % 100 == y % 100
    ensures (y - 1600) % 400 == y % 400
  {
    assert y - 1968 == 4 * (y / 4 - 492) + y % 4;
    assert y - 1900 == 100 * (y / 100 - 19) + y % 100;
    assert y - 1600 == 400 * (y / 400 - 4) + y % 400;
  }

  /** Days in the `count` years starting with year `from`, counted one year at a time. */
  function DaysOfYears(from: int, count: nat): int
  {
    if count == 0 then 0 else DaysOfYears(from, count - 1) + DaysInYear(from + count - 1)
  }

  /** The closed form agrees with counting year lengths from the 1970 epoch, in both directions. */
  lemma {:induction false} DayFromYearCountsYears(y: int)
    ensures y >= 1970 ==> DayFromYear(y) == DaysOfYears(1970, y - 1970)
    ensures y < 1970 ==> DayFromYear(y) == -DaysOfYears(y, 1970 - y)
    decreases if y >= 1970 then y - 1970 else 1970 - y
  {
    if y > 1970 {
      DayFromYearCountsYears(y - 1);
      DayFromYearStep(y - 1);
    } else if y < 1970 {
      DayFromYearCountsYears(y + 1);
      DayFromYearStep(y);
      DaysOfYearsFront(y, 1970 - y);
    }
  }

  lemma {:induction false} DaysOfYearsFront(from: int, count: nat)
    requires count > 0
    ensures DaysOfYears(from, count) == DaysInYear(from) + DaysOfYears(from + 1, count - 1)
  {
    if count > 1 {
      DaysOfYearsFront(from, count - 1);
    }
  }

  /** MakeDay(year, month, date): months outside 0..11 carry into the year. */
  function MakeDay(year: int, month: int, date: int): int
  {
    var ym := year + month / 12;
    var mn := month % 12;
    DayFromYear(ym) + DaysBeforeMonth(ym, mn) + date - 1
  }

  /** The first of the month after `month` is as many days later as `month` has. */
  lemma NextMonthStart(year: int, month: int)
    ensures MakeDay(year, month + 1, 1) == MakeDay(year, month, 1) + DaysInMonth(year + month / 12, month % 12)
  {
    var ym, mn := year + month / 12, month % 12;
    MonthsFillYear(ym, mn);
    if mn == 11 {
      assert (month + 1) / 12 == month / 12 + 1 && (month + 1) % 12 == 0;
      DayFromYearStep(ym);
    } else {
      assert (month + 1) / 12 == month / 12 && (month + 1) % 12 == mn + 1;
    }
  }

  function MakeTime(hour: int, minute: int, second: int, ms: int): int
  {
    ((hour * 60 + minute) * 60 + second) * 1000 + ms
  }

  /** 23:59:59.999 is the last millisecond of a day. */
  lemma LastMillisecond()
    ensures MakeTime(23, 59, 59, 999) == MsPerDay - 1
  {
  }

  function MakeDate(day: int, time: int): int
  {
    day * MsPerDay + time
  }

  /** None stands for an Invalid Date (NaN time value). */
  function TimeClip(t: int): (r: Option<int>)
    ensures r.Some? <==> -MaxTimeMs <= t <= MaxTimeMs
    ensures r.Some? ==> r.value == t
  {
    if -MaxTimeMs <= t <= MaxTimeMs then Some(t) else None
  }

  /** The year the Date constructor uses: 0..99 mean 1900..1999. */
  function FullYear(y: int): (r: int)
    ensures 0 <= y <= 99 ==> r == 1900 + y
    ensures (y < 0 || y > 99) ==> r == y
  {
    if 0 <= y <= 99 then 1900 + y else y
  }

  /** `new Date(year, month, day, hours, minutes, seconds, ms)` in local time. */
  function NewDate(year: int, month: int, day: int, hours: int, minutes: int, seconds: int, ms: int): Option<int>
  {
    TimeClip(MakeDate(MakeDay(FullYear(year), month, day), MakeTime(hours, minutes, seconds, ms)))
  }

  /** A two-digit year names a year of the twentieth century: `new Date(24, m, d)` is the date
      in 1924, while years from 100 on are taken as written. */
  lemma TwoDigitYears(year: int, month: int, day: int, hours: int, minutes: int, seconds: int, ms: int)
    requires 0 <= year <= 99
    ensures NewDate(year, month, day, hours, minutes, seconds, ms)
            == NewDate(1900 + year, month, day, hours, minutes, seconds, ms)
  {
  }

  /** `new Date(...)` is an Invalid Date exactly when the moment it names lies more than
      8.64e15 ms from the epoch; otherwise it is that moment. */
  lemma NewDateRange(year: int, month: int, day: int, hours: int, minutes: int, seconds: int, ms: int)
    ensures var t := MakeDay(FullYear(year), month, day) * MsPerDay + MakeTime(hours, minutes, seconds, ms);
            && (NewDate(year, month, day, hours, minutes, seconds, ms).None? <==> t < -MaxTimeMs || MaxTimeMs < t)
            && (NewDate(year, month, day, hours, minutes, seconds, ms).Some? ==>
                  NewDate(year, month, day, hours, minutes, seconds, ms).value == t)
  {
  }

  /** The day of `new Date(y, m, d)` moves with `d`, whatever the month's length. */
  lemma MakeDayDate(year: int, month: int, date: int)
    ensures MakeDay(year, month, date) == MakeDay(year, month, 1) + date - 1
  {
  }

  /** `d.setHours(h, mi, s, ms)`: the same day at the given time; an Invalid Date (None) stays invalid. */
  function SetHours(t: Option<int>, hours: int, minutes: int, seconds: int, ms: int): Option<int>
  {
    if t.None? then None else TimeClip(MakeDate(Day(t.value), MakeTime(hours, minutes, seconds, ms)))
  }

  /** `d.setDate(d.getDate() + days)`, taken as a move of the day number by `days` that keeps
      the time within the day. The standard computes MakeDay(YearFromTime(t), MonthFromTime(t),
      DateFromTime(t) + days) instead; the two agree because MakeDay is linear in its date
      argument (MakeDayDate), but YearFromTime, MonthFromTime and DateFromTime are not part of
      this model, so ShiftDateByDays is a fact about this definition. */
  function ShiftDate(t: Option<int>, days: int): Option<int>
  {
    if t.None? then None else TimeClip(MakeDate(Day(t.value) + days, t.value % MsPerDay))
  }

  /** A time value splits into its day number and its time within the day. */
  lemma DaySplit(day: int, time: int)
    requires 0 <= time < MsPerDay
    ensures Day(MakeDate(day, time)) == day
    ensures MakeDate(day, time) % MsPerDay == time
  {
  }

  lemma TimeSplit(t: int)
    ensures t == MakeDate(Day(t), t % MsPerDay) && 0 <= t % MsPerDay < MsPerDay
  {
  }

  /** `setHours` to a time within the day keeps the day and sets the time within it. */
  lemma SetHoursWithinDay(t: int, hours: int, minutes: int, seconds: int, ms: int)
    requires 0 <= MakeTime(hours, minutes, seconds, ms) < MsPerDay
    requires SetHours(Some(t), hours, minutes, seconds, ms).Some?
    ensures var r := SetHours(Some(t), hours, minutes, seconds, ms).value;
            && r == MakeDate(Day(t), MakeTime(hours, minutes, seconds, ms))
            && Day(r) == Day(t)
            && r % MsPerDay == MakeTime(hours, minutes, seconds, ms)
  {
    DaySplit(Day(t), MakeTime(hours, minutes, seconds, ms));
  }

  /** `setDate(getDate() + days)` moves a valid time by whole days. */
  lemma ShiftDateByDays(t: int, days: int)
    requires ShiftDate(Some(t), days).Some?
    ensures var r := ShiftDate(Some(t), days).value;
            && r == t + days * MsPerDay
            && Day(r) == Day(t) + days
            && r % MsPerDay == t % MsPerDay
  {
    TimeSplit(t);
    DaySplit(Day(t) + days, t % MsPerDay);
  }
}
