/** The proleptic Gregorian calendar behind JavaScript's `Date`, with local time taken to be UTC:
    day numbers counted from 1970-01-01, timestamps in milliseconds. */
module Calendar {

  const DAY_MS: int := 86400000

  predicate IsLeap(year: int)
  {
    year % 4 == 0 && (year % 100 != 0 || year % 400 == 0)
  }

  function DaysInMonth(year: int, month: int): (n: int)
    requires 1 <= month <= 12
    ensures 28 <= n <= 31
    ensures month == 2 ==> (n == 29 <==> IsLeap(year))
  {
    if month == 2 then (if IsLeap(year) then 29 else 28)
    else if month in {4, 6, 9, 11} then 30
    else 31
  }

  /** The days from 0000-03-01 to the first of March of year `y`, the start of a March-based year. */
  function MarchDays(y: int): int
  {
    var era := y / 400;
    var yoe := y - era * 400;
    era * 146097 + yoe * 365 + yoe / 4 - yoe / 100
  }

  /** The days from the first of March to the first of `month`, in the March-based year. */
  function DaysBeforeMonth(month: int): int
    requires 1 <= month <= 12
  {
    (153 * ((month + 9) % 12) + 2) / 5
  }

  /** The day number of `year-month-day`, counted from 1970-01-01. A day beyond the month's end runs on
      into the following months, as `new Date(year, month - 1, day)` does. */
  function DaysFromCivil(year: int, month: int, day: int): int
    requires 1 <= month <= 12
  {
    MarchDays(if month <= 2 then year - 1 else year) + DaysBeforeMonth(month) + day - 1 - 719468
  }

  lemma Epoch()
    ensures DaysFromCivil(1970, 1, 1) == 0
  {
  }

  /** The days from the start of a 400-year era to the March-based year `k` of that era. */
  function YearOfEraDays(k: int): int
  {
    k * 365 + k / 4 - k / 100
  }

  lemma MarchDaysByEra(y: int)
    ensures MarchDays(y) == (y / 400) * 146097 + YearOfEraDays(y % 400)
  {
    assert y - (y / 400) * 400 == y % 400;
  }

  /** Moving to the next year either stays in the era or starts the next one. */
  lemma NextYearOfEra(y: int)
    ensures y % 400 == 399 ==> (y + 1) / 400 == y / 400 + 1 && (y + 1) % 400 == 0
    ensures y % 400 != 399 ==> (y + 1) / 400 == y / 400 && (y + 1) % 400 == y % 400 + 1
  {
    var q, r := y / 400, y % 400;
    assert y + 1 == q * 400 + (r + 1);
    if r == 399 {
      assert y + 1 == (q + 1) * 400 + 0;
    }
  }

  /** Leap years repeat every 400 years. */
  lemma LeapByEra(y: int)
    ensures IsLeap(y) <==> var k := y % 400; k % 4 == 0 && (k % 100 != 0 || k == 0)
  {
    FourInEra(y);
    HundredInEra(y);
  }

  lemma FourInEra(y: int)
    ensures y % 4 == (y % 400) % 4
  {
    var q, k := y / 400, y % 400;
    var p, r := k / 4, k % 4;
    assert k == 4 * p + r;
    assert y == 4 * (100 * q + p) + r;
  }

  lemma HundredInEra(y: int)
    ensures y % 100 == (y % 400) % 100
  {
    var q, k := y / 400, y % 400;
    var p, r := k / 100, k % 100;
    assert k == 100 * p + r;
    assert y == 100 * (4 * q + p) + r;
  }

  /** Within an era, year `k` of a March-based era is 366 days long exactly when the year after it is leap. */
  lemma YearOfEraStep(k: int)
    requires 0 <= k < 399
    ensures YearOfEraDays(k + 1) - YearOfEraDays(k)
      == if (k + 1) % 4 == 0 && (k + 1) % 100 != 0 then 366 else 365
  {
    assert (k + 1) / 4 - k / 4 == if (k + 1) % 4 == 0 then 1 else 0;
    assert (k + 1) / 100 - k / 100 == if (k + 1) % 100 == 0 then 1 else 0;
  }

  /** A March-based year holds 366 days exactly when the February at its end has a 29th. */
  lemma MarchYearLength(y: int)
    ensures MarchDays(y + 1) - MarchDays(y) == if IsLeap(y + 1) then 366 else 365
  {
    MarchDaysByEra(y);
    MarchDaysByEra(y + 1);
    NextYearOfEra(y);
    LeapByEra(y + 1);
    if y % 400 == 399 {
      assert YearOfEraDays(399) == 145731;
    } else {
      YearOfEraStep(y % 400);
    }
  }

  /** A year holds 365 days, or 366 when the February it spans has 29. */
  lemma YearLength(year: int, month: int, day: int)
    requires 1 <= month <= 12
    ensures var n := DaysFromCivil(year + 1, month, day) - DaysFromCivil(year, month, day);
      n == (if IsLeap(if month <= 2 then year else year + 1) then 366 else 365)
  {
    MarchYearLength(if month <= 2 then year - 1 else year);
  }

  /** `new Date(year, 1, 29)` in a common year is the first of March. */
  lemma FebruaryRollover(year: int)
    requires !IsLeap(year)
    ensures DaysFromCivil(year, 2, 29) == DaysFromCivil(year, 3, 1)
  {
    MarchYearLength(year - 1);
    assert DaysBeforeMonth(2) == 337 && DaysBeforeMonth(3) == 0;
    assert MarchDays(year) - MarchDays(year - 1) == 365;
  }

  /** No day of a year comes before its first of January. */
  lemma YearStart(year: int, month: int, day: int)
    requires 1 <= month <= 12 && day >= 1
    ensures DaysFromCivil(year, month, day) >= DaysFromCivil(year, 1, 1)
  {
    MarchYearLength(year - 1);
    if month >= 3 {
      assert DaysBeforeMonth(month) >= 0;
    }
  }

  /** Every day of a year, up to the 31st of any month, comes before the next first of January. */
  lemma YearEnd(year: int, month: int, day: int)
    requires 1 <= month <= 12 && day <= 31
    ensures DaysFromCivil(year, month, day) < DaysFromCivil(year + 1, 1, 1)
  {
    MarchYearLength(year - 1);
    if month >= 3 {
      assert DaysBeforeMonth(month) <= 275;
    }
  }

  /** A local date and time of day, as the getters of a JavaScript `Date` report it. */
  datatype DateTime = DateTime(year: int, month: int, day: int, msOfDay: int)
  {
    predicate Valid()
    {
      1 <= month <= 12 && 1 <= day <= DaysInMonth(year, month) && 0 <= msOfDay < DAY_MS
    }
  }

  /** The day number of a date-time. */
  function DayNumber(t: DateTime): int
    requires t.Valid()
  {
    DaysFromCivil(t.year, t.month, t.day)
  }

  /** `getTime()`: milliseconds since the epoch. */
  function TimeOf(t: DateTime): (ms: int)
    requires t.Valid()
    ensures ms / DAY_MS == DayNumber(t) && ms % DAY_MS == t.msOfDay
  {
    DayNumber(t) * DAY_MS + t.msOfDay
  }

  /** `getDay()` of the day with the given number: 0 for Sunday to 6 for Saturday; day 0 was a Thursday. */
  function Weekday(dayNumber: int): (w: int)
    ensures 0 <= w < 7
  {
    (dayNumber + 4) % 7
  }

  /** Consecutive days have consecutive weekdays, Saturday followed by Sunday. */
  lemma WeekdayNext(dayNumber: int)
    ensures Weekday(dayNumber + 1) == (Weekday(dayNumber) + 1) % 7
  {
  }
}
