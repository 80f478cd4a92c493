/** Naive (zone-less) date-times of the proleptic Gregorian calendar, as
    chrono's `NaiveDate`, `NaiveTime` and `NaiveDateTime` represent them. */
module Calendar {

  /** The six fields a date-time is built from, before any validation. */
  datatype CalendarFields = CalendarFields(year: int, month: int, day: int, hour: int, minute: int, second: int)

  /** chrono's year bounds (`i32::MIN >> 13` and `i32::MAX >> 13`). */
  const MinYear: int := -262144
  const MaxYear: int := 262143

  predicate IsLeapYear(y: int) {
    y % 4 == 0 && (y % 100 != 0 || y % 400 == 0)
  }

  function DaysInMonth(y: int, m: int): int
    requires 1 <= m <= 12
  {
    if m == 2 then (if IsLeapYear(y) then 29 else 28)
    else if m == 4 || m == 6 || m == 9 || m == 11 then 30
    else 31
  }

  function DaysInYear(y: int): int {
    if IsLeapYear(y) then 366 else 365
  }

  /** What `NaiveDate::from_ymd_opt` accepts. */
  predicate IsValidDate(y: int, m: int, d: int) {
    MinYear <= y <= MaxYear && 1 <= m <= 12 && 1 <= d <= DaysInMonth(y, m)
  }

  /** What `NaiveTime::from_hms_milli_opt(h, m, s, 0)` accepts. */
  predicate IsValidTime(h: int, mi: int, s: int) {
    0 <= h < 24 && 0 <= mi < 60 && 0 <= s < 60
  }

  predicate IsValid(f: CalendarFields) {
    IsValidDate(f.year, f.month, f.day) && IsValidTime(f.hour, f.minute, f.second)
  }

  /** A value of chrono's `NaiveDateTime` with zero sub-second part: only valid
      fields can be constructed. */
  type NaiveDateTime = f: CalendarFields | IsValid(f) witness CalendarFields(1970, 1, 1, 0, 0, 0)

  /** Number of leap years among the years 1 .. y-1 (shifted consistently for
      y <= 0, which is all that differences of it need). */
  function LeapYearsBefore(y: int): int {
    (y - 1) / 4 - (y - 1) / 100 + (y - 1) / 400
  }

  /** Days from 1970-01-01 to the first of January of year y. */
  function DaysBeforeYear(y: int): int {
    365 * (y - 1970) + LeapYearsBefore(y) - LeapYearsBefore(1970)
  }

  /** Days from the first of January to the first of month m of year y. */
  function DaysBeforeMonth(y: int, m: int): int
    requires 1 <= m <= 12
  {
    [0, 31, 59, 90, 120, 151, 181, 212, 243, 273, 304, 334][m - 1]
      + (if m > 2 && IsLeapYear(y) then 1 else 0)
  }

  /** Days from 1970-01-01 to the given date (negative before it). */
  function DaysFromCivil(y: int, m: int, d: int): int
    requires 1 <= m <= 12
  {
    DaysBeforeYear(y) + DaysBeforeMonth(y, m) + d - 1
  }

  const NanosPerSecond: int := 1_000_000_000
  const NanosPerMinute: int := 60_000_000_000

  /** Nanoseconds from 1970-01-01 00:00:00 to dt, read on one and the same wall
      clock: `dt.and_utc().timestamp_nanos()`. */
  function WallNanos(dt: NaiveDateTime): int {
    ((DaysFromCivil(dt.year, dt.month, dt.day) * 86400
      + dt.hour * 3600 + dt.minute * 60 + dt.second) * 1_000_000_000)
  }

  /** The day count starts at the Unix epoch. */
  lemma EpochIsDayZero()
    ensures DaysFromCivil(1970, 1, 1) == 0
  {
  }

  /** Advancing one day inside a month advances the count by one. */
  lemma NextDayInMonth(y: int, m: int, d: int)
    requires 1 <= m <= 12 && 1 <= d < DaysInMonth(y, m)
    ensures DaysFromCivil(y, m, d + 1) == DaysFromCivil(y, m, d) + 1
  {
  }

  /** The first of the next month follows the last day of this month. */
  lemma NextDayAcrossMonth(y: int, m: int)
    requires 1 <= m < 12
    ensures DaysFromCivil(y, m + 1, 1) == DaysFromCivil(y, m, DaysInMonth(y, m)) + 1
  {
  }

  /** Stepping y by one crosses a multiple of 4, 100 or 400 exactly when y is one. */
  lemma {:induction false} MultipleOfFourStep(y: int)
    ensures y / 4 - (y - 1) / 4 == (if y % 4 == 0 then 1 else 0)
  {
  }

  lemma {:induction false} MultipleOfHundredStep(y: int)
    ensures y / 100 - (y - 1) / 100 == (if y % 100 == 0 then 1 else 0)
  {
  }

  lemma {:induction false} MultipleOfFourHundredStep(y: int)
    ensures y / 400 - (y - 1) / 400 == (if y % 400 == 0 then 1 else 0)
  {
  }

  lemma {:induction false} LeapYearsStep(y: int)
    ensures LeapYearsBefore(y + 1) - LeapYearsBefore(y) == (if IsLeapYear(y) then 1 else 0)
  {
    MultipleOfFourStep(y);
    MultipleOfHundredStep(y);
    MultipleOfFourHundredStep(y);
  }

  /** Each year is exactly as long as the Gregorian rule says. */
  lemma {:induction false} YearLength(y: int)
    ensures DaysBeforeYear(y + 1) == DaysBeforeYear(y) + DaysInYear(y)
  {
    LeapYearsStep(y);
  }

  /** The first of January follows the thirty-first of December. */
  lemma {:induction false} NextDayAcrossYear(y: int)
    ensures DaysFromCivil(y + 1, 1, 1) == DaysFromCivil(y, 12, 31) + 1
  {
    YearLength(y);
  }

  /** Every valid date of year y lies in [DaysBeforeYear(y), DaysBeforeYear(y + 1)). */
  lemma {:induction false} DateWithinYear(y: int, m: int, d: int)
    requires 1 <= m <= 12 && 1 <= d <= DaysInMonth(y, m)
    ensures DaysBeforeYear(y) <= DaysFromCivil(y, m, d) < DaysBeforeYear(y + 1)
  {
    YearLength(y);
  }

  lemma {:induction false} YearsIncrease(y1: int, y2: int)
    requires y1 < y2
    ensures DaysBeforeYear(y1 + 1) <= DaysBeforeYear(y2)
    decreases y2 - y1
  {
    if y1 + 1 < y2 {
      YearsIncrease(y1 + 1, y2);
      YearLength(y1 + 1);
    }
  }

  /** Calendar order of dates, year first. */
  predicate DateBefore(y1: int, m1: int, d1: int, y2: int, m2: int, d2: int) {
    y1 < y2 || (y1 == y2 && (m1 < m2 || (m1 == m2 && d1 < d2)))
  }

  /** The day count orders valid dates as the calendar does; in particular it
      is one-to-one on them. */
  lemma {:induction false} DaysFromCivilIncreasing(y1: int, m1: int, d1: int, y2: int, m2: int, d2: int)
    requires 1 <= m1 <= 12 && 1 <= d1 <= DaysInMonth(y1, m1)
    requires 1 <= m2 <= 12 && 1 <= d2 <= DaysInMonth(y2, m2)
    requires DateBefore(y1, m1, d1, y2, m2, d2)
    ensures DaysFromCivil(y1, m1, d1) < DaysFromCivil(y2, m2, d2)
  {
    if y1 < y2 {
      DateWithinYear(y1, m1, d1);
      DateWithinYear(y2, m2, d2);
      YearsIncrease(y1, y2);
    } else if m1 < m2 {
      assert DaysBeforeMonth(y1, m1) + DaysInMonth(y1, m1) <= DaysBeforeMonth(y1, m2);
    }
  }

  /** Division by a minute of whole minutes plus a smaller remainder. */
  lemma {:induction false} MinuteDivision(q: int, r: int)
    requires 0 <= r < NanosPerMinute
    ensures (q * NanosPerMinute + r) / NanosPerMinute == q
    ensures (q * NanosPerMinute + r) % NanosPerMinute == r
  {
  }

  /** The seconds field is exactly what truncation to the minute drops from
      the wall-clock stamp. */
  lemma {:induction false} WallNanosMinuteRemainder(dt: NaiveDateTime)
    ensures WallNanos(dt) % NanosPerMinute == dt.second * NanosPerSecond
  {
    var minutes := DaysFromCivil(dt.year, dt.month, dt.day) * 1440 + dt.hour * 60 + dt.minute;
    assert WallNanos(dt) == minutes * 60_000_000_000 + dt.second * 1_000_000_000;
    MinuteDivision(minutes, dt.second * 1_000_000_000);
  }

  /** Two distinct date-times have distinct wall-clock stamps. */
  lemma {:induction false} WallNanosInjective(a: NaiveDateTime, b: NaiveDateTime)
    requires WallNanos(a) == WallNanos(b)
    ensures a == b
  {
    var da := DaysFromCivil(a.year, a.month, a.day);
    var db := DaysFromCivil(b.year, b.month, b.day);
    var sa := a.hour * 3600 + a.minute * 60 + a.second;
    var sb := b.hour * 3600 + b.minute * 60 + b.second;
    assert (da * 86400 + sa) * 1_000_000_000 == (db * 86400 + sb) * 1_000_000_000;
    assert da * 86400 + sa == db * 86400 + sb;
    assert da == db && sa == sb;
    assert a.hour == b.hour;
    assert a.minute == b.minute && a.second == b.second;
    if DateBefore(a.year, a.month, a.day, b.year, b.month, b.day) {
      DaysFromCivilIncreasing(a.year, a.month, a.day, b.year, b.month, b.day);
    } else if DateBefore(b.year, b.month, b.day, a.year, a.month, a.day) {
      DaysFromCivilIncreasing(b.year, b.month, b.day, a.year, a.month, a.day);
    }
  }
}
