/**
 * Moments and their calendar. An Instant counts nanoseconds from 0001-01-01T00:00:00Z, so
 * that the zero moment of the program is 0; only whole seconds are ever written down.
 */
module Clock {
  type Instant = int

  const NANOS_PER_SECOND := 1_000_000_000
  const SECONDS_PER_DAY := 86_400

  datatype Civil = Civil(year: int, month: int, day: int, hour: int, minute: int, second: int)

  function SecondOf(at: Instant): int {
    at / NANOS_PER_SECOND
  }

  /** The moment cut down to its second, which is all a timestamp keeps. */
  function ToTheSecond(at: Instant): Instant {
    SecondOf(at) * NANOS_PER_SECOND
  }

  // ------------------------------------------------------------------ the Gregorian calendar

  predicate IsLeap(year: int) {
    year % 4 == 0 && (year % 100 != 0 || year % 400 == 0)
  }

  /** Days from 0001-01-01 to the first of January of a year. */
  function DaysBeforeYear(year: int): int {
    365 * (year - 1) + (year - 1) / 4 - (year - 1) / 100 + (year - 1) / 400
  }

  function DaysIn(year: int, month: int): (days: int)
    requires 1 <= month <= 12
    ensures 28 <= days <= 31
  {
    if month == 2 then if IsLeap(year) then 29 else 28
    else if month == 4 || month == 6 || month == 9 || month == 11 then 30
    else 31
  }

  /** Days from the first of January to the first of a month; month 13 is the next January. */
  function DaysBeforeMonth(year: int, month: int): (days: int)
    requires 1 <= month <= 13
    ensures days >= 28 * (month - 1)
  {
    if month == 1 then 0 else DaysBeforeMonth(year, month - 1) + DaysIn(year, month - 1)
  }

  predicate IsDate(c: Civil) {
    && 1 <= c.month <= 12
    && 1 <= c.day <= DaysIn(c.year, c.month)
    && 0 <= c.hour < 24 && 0 <= c.minute < 60 && 0 <= c.second < 60
  }

  function DayNumber(year: int, month: int, day: int): int
    requires 1 <= month <= 12
  {
    DaysBeforeYear(year) + DaysBeforeMonth(year, month) + day - 1
  }

  /** Seconds from 0001-01-01T00:00:00Z to a date and time of day. */
  function SecondsAt(c: Civil): int
    requires IsDate(c)
  {
    DayNumber(c.year, c.month, c.day) * SECONDS_PER_DAY + c.hour * 3600 + c.minute * 60 + c.second
  }

  lemma MonthsOfAYear(year: int)
    ensures DaysBeforeMonth(year, 13) == 365 + if IsLeap(year) then 1 else 0
  {
    assert DaysBeforeMonth(year, 2) == 31;
    assert DaysBeforeMonth(year, 3) == 31 + DaysIn(year, 2);
    assert DaysBeforeMonth(year, 5) == DaysBeforeMonth(year, 3) + 61;
    assert DaysBeforeMonth(year, 7) == DaysBeforeMonth(year, 5) + 61;
    assert DaysBeforeMonth(year, 9) == DaysBeforeMonth(year, 7) + 62;
    assert DaysBeforeMonth(year, 11) == DaysBeforeMonth(year, 9) + 61;
  }

  /** Where the months of a year begin. */
  lemma MonthsBegin(year: int, month: int)
    requires 1 <= month <= 13
    ensures DaysBeforeMonth(year, month)
         == [0, 31, 59, 90, 120, 151, 181, 212, 243, 273, 304, 334, 365][month - 1]
            + if IsLeap(year) && month > 2 then 1 else 0
  {
    assert DaysBeforeMonth(year, 2) == 31;
    assert DaysBeforeMonth(year, 3) == 31 + DaysIn(year, 2);
    assert DaysBeforeMonth(year, 4) == DaysBeforeMonth(year, 3) + 31;
    assert DaysBeforeMonth(year, 5) == DaysBeforeMonth(year, 4) + 30;
    assert DaysBeforeMonth(year, 6) == DaysBeforeMonth(year, 5) + 31;
    assert DaysBeforeMonth(year, 7) == DaysBeforeMonth(year, 6) + 30;
    assert DaysBeforeMonth(year, 8) == DaysBeforeMonth(year, 7) + 31;
    assert DaysBeforeMonth(year, 9) == DaysBeforeMonth(year, 8) + 31;
    assert DaysBeforeMonth(year, 10) == DaysBeforeMonth(year, 9) + 30;
    assert DaysBeforeMonth(year, 11) == DaysBeforeMonth(year, 10) + 31;
    assert DaysBeforeMonth(year, 12) == DaysBeforeMonth(year, 11) + 30;
    assert DaysBeforeMonth(year, 13) == DaysBeforeMonth(year, 12) + 31;
  }

  /** The first second there is, the first of Unix time, and a leap day. */
  lemma SomeMoments()
    ensures IsDate(Civil(1, 1, 1, 0, 0, 0)) && SecondsAt(Civil(1, 1, 1, 0, 0, 0)) == 0
    ensures IsDate(Civil(1970, 1, 1, 0, 0, 0)) && SecondsAt(Civil(1970, 1, 1, 0, 0, 0)) == 62_135_596_800
    ensures IsDate(Civil(2000, 2, 29, 23, 59, 59)) && SecondsAt(Civil(2000, 2, 29, 23, 59, 59)) == 63_087_465_599
  {
    MonthsBegin(1, 1);
    MonthsBegin(1970, 1);
    MonthsBegin(2000, 2);
  }

  lemma Fourths(n: int)
    ensures n / 4 == (n - 1) / 4 + if n % 4 == 0 then 1 else 0
  {
  }

  lemma Hundredths(n: int)
    ensures n / 100 == (n - 1) / 100 + if n % 100 == 0 then 1 else 0
  {
  }

  lemma FourHundredths(n: int)
    ensures n / 400 == (n - 1) / 400 + if n % 400 == 0 then 1 else 0
  {
  }

  lemma WholeHundreds(n: int)
    ensures n % 400 == 0 ==> n % 100 == 0
    ensures n % 100 == 0 ==> n % 4 == 0
  {
    var q, r := n / 400, n % 400;
    assert n == 100 * (4 * q) + r;
    var q', r' := n / 100, n % 100;
    assert n == 4 * (25 * q') + r';
  }

  lemma LeapDays(year: int)
    ensures DaysBeforeYear(year + 1) == DaysBeforeYear(year) + 365 + if IsLeap(year) then 1 else 0
  {
    Fourths(year);
    Hundredths(year);
    FourHundredths(year);
    WholeHundreds(year);
  }

  lemma YearLength(year: int)
    ensures DaysBeforeYear(year + 1) == DaysBeforeYear(year) + DaysBeforeMonth(year, 13)
    ensures 365 <= DaysBeforeYear(year + 1) - DaysBeforeYear(year) <= 366
  {
    MonthsOfAYear(year);
    LeapDays(year);
  }

  lemma {:induction false} YearsAreOrdered(a: int, b: int)
    requires a < b
    ensures DaysBeforeYear(a + 1) <= DaysBeforeYear(b)
    decreases b - a
  {
    if a + 1 < b {
      YearsAreOrdered(a, b - 1);
      YearLength(b - 1);
    }
  }

  lemma {:induction false} MonthsAreOrdered(year: int, a: int, b: int)
    requires 1 <= a < b <= 13
    ensures DaysBeforeMonth(year, a) + DaysIn(year, a) <= DaysBeforeMonth(year, b)
    decreases b - a
  {
    if a + 1 < b {
      MonthsAreOrdered(year, a, b - 1);
    }
  }

  // ------------------------------------------------------------------ from seconds to a date

  function YearFrom(day: int, year: int): (found: int)
    requires DaysBeforeYear(year) <= day
    ensures DaysBeforeYear(found) <= day < DaysBeforeYear(found + 1)
    decreases day - DaysBeforeYear(year)
  {
    if day < DaysBeforeYear(year + 1) then year
    else
      YearLength(year);
      YearFrom(day, year + 1)
  }

  /** A year that does not begin after a day: where the search for its year starts. */
  function YearBefore(day: int): (year: int)
    ensures DaysBeforeYear(year) <= day
  {
    if day >= 0 then 1 else day
  }

  function MonthFrom(year: int, ordinal: int, month: int): (found: int)
    requires 1 <= month <= 12
    requires DaysBeforeMonth(year, month) <= ordinal < DaysBeforeMonth(year, 13)
    ensures 1 <= found <= 12
    ensures DaysBeforeMonth(year, found) <= ordinal < DaysBeforeMonth(year, found + 1)
    decreases 12 - month
  {
    if ordinal < DaysBeforeMonth(year, month + 1) then month else MonthFrom(year, ordinal, month + 1)
  }

  /** The date of a day, at midnight. */
  function DateAt(day: int): (c: Civil)
    ensures IsDate(c) && SecondsAt(c) == day * SECONDS_PER_DAY
  {
    var year := YearFrom(day, YearBefore(day));
    var ordinal := day - DaysBeforeYear(year);
    YearLength(year);
    var month := MonthFrom(year, ordinal, 1);
    Civil(year, month, ordinal - DaysBeforeMonth(year, month) + 1, 0, 0, 0)
  }

  lemma TimeOfDay(rest: int)
    requires 0 <= rest < SECONDS_PER_DAY
    ensures 0 <= rest / 3600 < 24 && 0 <= rest % 3600 / 60 < 60 && 0 <= rest % 60 < 60
    ensures rest / 3600 * 3600 + rest % 3600 / 60 * 60 + rest % 60 == rest
  {
    assert rest % 3600 % 60 == rest % 60;
  }

  /** The date and time of day of a number of seconds, in UTC. */
  function CivilAt(seconds: int): (c: Civil)
    ensures IsDate(c) && SecondsAt(c) == seconds
  {
    var rest := seconds % SECONDS_PER_DAY;
    TimeOfDay(rest);
    DateAt(seconds / SECONDS_PER_DAY).(hour := rest / 3600, minute := rest % 3600 / 60, second := rest % 60)
  }

  /** Which of two dates reads first, field by field. */
  predicate Before(a: Civil, b: Civil) {
    || a.year < b.year
    || (a.year == b.year && (
        || a.month < b.month
        || (a.month == b.month && (
            || a.day < b.day
            || (a.day == b.day && (
                || a.hour < b.hour
                || (a.hour == b.hour && (
                    || a.minute < b.minute
                    || (a.minute == b.minute && a.second < b.second)))))))))
  }

  /** Reading dates field by field is reading time. */
  lemma DatesReadInOrder(a: Civil, b: Civil)
    requires IsDate(a) && IsDate(b) && Before(a, b)
    ensures SecondsAt(a) < SecondsAt(b)
  {
    var dayA, dayB := DayNumber(a.year, a.month, a.day), DayNumber(b.year, b.month, b.day);
    if a.year < b.year {
      YearsAreOrdered(a.year, b.year);
      YearLength(a.year);
      MonthsAreOrdered(a.year, a.month, 13);
      assert dayA < dayB;
    } else if a.month < b.month {
      MonthsAreOrdered(a.year, a.month, b.month);
      assert dayA < dayB;
    }
  }

  lemma LaterReadsLater(a: int, b: int)
    requires a < b
    ensures Before(CivilAt(a), CivilAt(b))
  {
    if Before(CivilAt(b), CivilAt(a)) {
      DatesReadInOrder(CivilAt(b), CivilAt(a));
    }
  }

  const YEAR_ZERO := SecondsAt(Civil(0, 1, 1, 0, 0, 0))
  const YEAR_TEN_THOUSAND := SecondsAt(Civil(10_000, 1, 1, 0, 0, 0))

  /** The moments a four-digit year can write: 0000-01-01 up to, and without, 10000-01-01. */
  predicate FourDigitYear(seconds: int) {
    YEAR_ZERO <= seconds < YEAR_TEN_THOUSAND
  }

  /** A date is before another exactly when its second is. */
  lemma DatesAreSeconds(a: Civil, b: Civil)
    requires IsDate(a) && IsDate(b)
    ensures Before(a, b) <==> SecondsAt(a) < SecondsAt(b)
  {
    hide SecondsAt, IsDate;
    if Before(a, b) {
      DatesReadInOrder(a, b);
    } else if Before(b, a) {
      DatesReadInOrder(b, a);
    } else {
      assert a == b;
    }
  }

  lemma FourDigitsWriteIt(seconds: int)
    ensures FourDigitYear(seconds) <==> 0 <= CivilAt(seconds).year <= 9999
  {
    var c, first, end := CivilAt(seconds), Civil(0, 1, 1, 0, 0, 0), Civil(10_000, 1, 1, 0, 0, 0);
    assert IsDate(first) && IsDate(end);
    hide CivilAt, SecondsAt;
    DatesAreSeconds(c, first);
    DatesAreSeconds(c, end);
  }
}
