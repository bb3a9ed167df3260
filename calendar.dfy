/** Proleptic Gregorian dates, as Python's `datetime.date` counts them, and
    timestamps as whole seconds since 1970-01-01 00:00:00 (the time axis of
    the NetCDF files, without time zone). */
module Calendar {

  const SecondsPerDay: int := 86400
  const SecondsPerHour: int := 3600

  datatype Date = Date(year: int, month: int, day: int)

  predicate IsLeapYear(y: int)
  {
    y % 4 == 0 && (y % 100 != 0 || y % 400 == 0)
  }

  function DaysInMonth(y: int, m: int): (r: int)
    requires 1 <= m <= 12
    ensures 28 <= r <= 31
  {
    if m == 2 then (if IsLeapYear(y) then 29 else 28)
    else if m == 4 || m == 6 || m == 9 || m == 11 then 30
    else 31
  }

  /** A date `datetime.date` accepts: years 1 to 9999 and a day that exists
      in its month. */
  predicate ValidDate(d: Date)
  {
    1 <= d.year <= 9999 && 1 <= d.month <= 12 && 1 <= d.day <= DaysInMonth(d.year, d.month)
  }

  function YearLength(y: int): int
  {
    if IsLeapYear(y) then 366 else 365
  }

  /** Days from 1970-01-01 to January 1st of year `y` (negative before 1970). */
  function DaysBeforeYear(y: int): int
    decreases if y >= 1970 then y - 1970 else 1970 - y
  {
    if y == 1970 then 0
    else if y > 1970 then DaysBeforeYear(y - 1) + YearLength(y - 1)
    else DaysBeforeYear(y + 1) - YearLength(y)
  }

  /** Days in year `y` before the first day of month `m`. */
  function DaysBeforeMonth(y: int, m: int): int
    requires 1 <= m <= 13
  {
    if m == 1 then 0 else DaysBeforeMonth(y, m - 1) + DaysInMonth(y, m - 1)
  }

  /** Days since 1970-01-01 (day 0); 2018-03-13 is day 17603. */
  function DayNumber(d: Date): int
    requires 1 <= d.month <= 12
  {
    DaysBeforeYear(d.year) + DaysBeforeMonth(d.year, d.month) + d.day - 1
  }

  /** The calendar day before `d` (`date - timedelta(days=1)`). */
  function PrevDay(d: Date): Date
    requires ValidDate(d)
  {
    if d.day > 1 then Date(d.year, d.month, d.day - 1)
    else if d.month > 1 then Date(d.year, d.month - 1, DaysInMonth(d.year, d.month - 1))
    else Date(d.year - 1, 12, 31)
  }

  lemma DaysBeforeYearStep(y: int)
    ensures DaysBeforeYear(y + 1) == DaysBeforeYear(y) + YearLength(y)
  {
  }

  lemma YearLengthByMonths(y: int)
    ensures DaysBeforeMonth(y, 13) == YearLength(y)
  {
    assert DaysBeforeMonth(y, 2) == 31;
    assert DaysBeforeMonth(y, 3) == 31 + DaysInMonth(y, 2);
    assert DaysBeforeMonth(y, 4) == DaysBeforeMonth(y, 3) + 31;
    assert DaysBeforeMonth(y, 5) == DaysBeforeMonth(y, 4) + 30;
    assert DaysBeforeMonth(y, 6) == DaysBeforeMonth(y, 5) + 31;
    assert DaysBeforeMonth(y, 7) == DaysBeforeMonth(y, 6) + 30;
    assert DaysBeforeMonth(y, 8) == DaysBeforeMonth(y, 7) + 31;
    assert DaysBeforeMonth(y, 9) == DaysBeforeMonth(y, 8) + 31;
    assert DaysBeforeMonth(y, 10) == DaysBeforeMonth(y, 9) + 30;
    assert DaysBeforeMonth(y, 11) == DaysBeforeMonth(y, 10) + 31;
    assert DaysBeforeMonth(y, 12) == DaysBeforeMonth(y, 11) + 30;
    assert DaysBeforeMonth(y, 13) == DaysBeforeMonth(y, 12) + 31;
  }

  /** Stepping back one calendar day stays a valid date (after 0001-01-01)
      and lowers the day number by exactly one. */
  lemma PrevDayNumber(d: Date)
    requires ValidDate(d) && d != Date(1, 1, 1)
    ensures ValidDate(PrevDay(d))
    ensures DayNumber(PrevDay(d)) == DayNumber(d) - 1
  {
    if d.day == 1 && d.month == 1 {
      DaysBeforeYearStep(d.year - 1);
      YearLengthByMonths(d.year - 1);
    }
  }

  /** Before 1970 every year has at least 365 days, so January 1st of year
      `y` lies at least `365 * (1970 - y)` days before the epoch. */
  lemma {:induction false} DaysBeforeYearBelow(y: int)
    requires y <= 1970
    ensures DaysBeforeYear(y) <= (y - 1970) * 365
    decreases 1970 - y
  {
    if y < 1970 {
      DaysBeforeYearBelow(y + 1);
    }
  }

  /** Whole days since the epoch: the calendar date of timestamp `t`. */
  function Day(t: int): int
  {
    t / SecondsPerDay
  }

  /** Seconds since the midnight that starts the day of `t`. */
  function TimeOfDay(t: int): (r: int)
    ensures 0 <= r < SecondsPerDay
    ensures t == Day(t) * SecondsPerDay + r
  {
    t % SecondsPerDay
  }

  /** The timestamp of the midnight that starts the day of `t`
      (`t.replace(hour=0, minute=0, second=0)`). */
  function Midnight(t: int): (r: int)
    ensures r <= t < r + SecondsPerDay
    ensures TimeOfDay(r) == 0 && Day(r) == Day(t)
  {
    t - TimeOfDay(t)
  }

  /** The hour field of `t` (`Timestamp.hour`). */
  function Hour(t: int): (h: int)
    ensures 0 <= h < 24
  {
    TimeOfDay(t) / SecondsPerHour
  }

  /** A timestamp built from a day number and a time of day falls on that
      day at that time of day. */
  lemma DayOfTimestamp(day: int, secs: int)
    requires 0 <= secs < SecondsPerDay
    ensures Day(day * SecondsPerDay + secs) == day
    ensures TimeOfDay(day * SecondsPerDay + secs) == secs
  {
  }

  /** The range of `pandas.Timestamp` (nanoseconds in a signed 64-bit
      integer), in whole seconds. */
  const MinTimestamp: int := -9223372036
  const MaxTimestamp: int := 9223372036

  predicate InTimestampRange(t: int)
  {
    MinTimestamp <= t <= MaxTimestamp
  }
}
