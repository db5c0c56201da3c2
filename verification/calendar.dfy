/**
 * Calendar dates, times of day and the millisecond timeline the app compares them on.
 *
 * The app keeps dates as 'YYYY-MM-DD' strings and times as 'HH:mm' strings and lets `Date`
 * turn them into milliseconds. Here a date is a proleptic Gregorian triple and every instant
 * is a count of milliseconds on one local timeline whose day 0 is 0000-01-01.
 */
module Calendar {

  type Month = m: int | 1 <= m <= 12 witness 1
  type DayOfMonth = d: int | 1 <= d <= 31 witness 1
  type Hour = h: int | 0 <= h < 24 witness 0
  type Minute = m: int | 0 <= m < 60 witness 0

  /** A calendar day, as held in a 'YYYY-MM-DD' string. */
  datatype Date = Date(year: nat, month: Month, day: DayOfMonth)

  /** A time of day, as held in an 'HH:mm' string. */
  datatype TimeOfDay = TimeOfDay(hour: Hour, minute: Minute)

  const MinuteMs: int := 60_000
  const DayMs: int := 86_400_000

  predicate IsLeapYear(y: nat) {
    y % 4 == 0 && (y % 100 != 0 || y % 400 == 0)
  }

  function YearLength(y: nat): nat {
    if IsLeapYear(y) then 366 else 365
  }

  function DaysInMonth(y: nat, m: Month): (r: nat)
    ensures 28 <= r <= 31
  {
    if m == 2 then (if IsLeapYear(y) then 29 else 28)
    else if m == 4 || m == 6 || m == 9 || m == 11 then 30
    else 31
  }

  /** Days of year `y` that lie before the first of month `m`. */
  function DaysBeforeMonth(y: nat, m: Month): nat {
    var cumulative := [0, 31, 59, 90, 120, 151, 181, 212, 243, 273, 304, 334];
    cumulative[m - 1] + (if m > 2 && IsLeapYear(y) then 1 else 0)
  }

  /** Days from 0000-01-01 to the first of January of year `y`. */
  function DaysBeforeYear(y: nat): nat {
    365 * y + (y + 3) / 4 - (y + 99) / 100 + (y + 399) / 400
  }

  /** The day really exists: no 30th of February. */
  predicate ValidDate(d: Date) {
    d.day <= DaysInMonth(d.year, d.month)
  }

  /** The number of the day on the timeline: 0 for 0000-01-01. */
  function DayNumber(d: Date): nat {
    DaysBeforeYear(d.year) + DaysBeforeMonth(d.year, d.month) + d.day - 1
  }

  /** Calendar order of dates, field by field. */
  predicate Before(a: Date, b: Date) {
    a.year < b.year
    || (a.year == b.year && a.month < b.month)
    || (a.year == b.year && a.month == b.month && a.day < b.day)
  }

  function MinutesOfDay(t: TimeOfDay): (r: nat)
    ensures r < 1440
  {
    t.hour * 60 + t.minute
  }

  /** Midnight at the start of `d`. */
  function DayStartMs(d: Date): int {
    DayNumber(d) * DayMs
  }

  /** The instant `new Date(`${date}T${time}`)` denotes. */
  function InstantMs(d: Date, t: TimeOfDay): int {
    DayStartMs(d) + MinutesOfDay(t) * MinuteMs
  }

  /** `getDay()` of an instant: 0 for Sunday up to 6 for Saturday (0000-01-01 was a Saturday). */
  function Weekday(instantMs: int): (r: int)
    ensures 0 <= r < 7
  {
    (instantMs / DayMs + 6) % 7
  }

  /** Sunday, 4 January 1970: a fixed day whose weekday is known. */
  const EpochSunday: Date := Date(1970, 1, 4)

  /** The anchor: 1970-01-04 is a valid date, day 719531 of the timeline, and a Sunday. */
  lemma EpochSundayIsSunday()
    ensures ValidDate(EpochSunday) && DayNumber(EpochSunday) == 719531
    ensures Weekday(DayStartMs(EpochSunday)) == 0
  {
  }

  /** The weekday is the number of whole days since a known Sunday, modulo 7: 0 is Sunday. */
  lemma WeekdayCountsFromSunday(t: int)
    ensures Weekday(t) == (t / DayMs - DayNumber(EpochSunday)) % 7
  {
    EpochSundayIsSunday();
    var x := t / DayMs;
    assert x - 719531 == (x + 6) - 7 * 102791;
  }

  /** One day later is one weekday later, Saturday wrapping to Sunday. */
  lemma WeekdayStep(t: int)
    ensures Weekday(t + DayMs) == (Weekday(t) + 1) % 7
  {
    assert (t + DayMs) / DayMs == t / DayMs + 1;
  }

  /** The calendar day after `d` (`setDate(getDate() + 1)`). */
  function NextDay(d: Date): (r: Date)
    ensures ValidDate(d) ==> ValidDate(r) && DayNumber(r) == DayNumber(d) + 1
    ensures ValidDate(d) ==> Before(d, r)
  {
    if d.day < DaysInMonth(d.year, d.month) then
      Date(d.year, d.month, d.day + 1)
    else if d.month < 12 then
      MonthStep(d.year, d.month);
      Date(d.year, d.month + 1, 1)
    else
      YearStep(d.year);
      Date(d.year + 1, 1, 1)
  }

  lemma MonthStep(y: nat, m: Month)
    requires m < 12
    ensures DaysBeforeMonth(y, m + 1) == DaysBeforeMonth(y, m) + DaysInMonth(y, m)
  {
  }

  lemma YearStep(y: nat)
    ensures DaysBeforeYear(y + 1) == DaysBeforeYear(y) + YearLength(y)
  {
    QuotientStep(y);
    DivisorChain(y);
    var a := if y % 4 == 0 then 1 else 0;
    var b := if y % 100 == 0 then 1 else 0;
    var c := if y % 400 == 0 then 1 else 0;
    assert DaysBeforeYear(y + 1) == DaysBeforeYear(y) + 365 + a - b + c;
    assert a - b + c == if IsLeapYear(y) then 1 else 0;
  }

  /** A multiple of 400 is a multiple of 100, and a multiple of 100 is a multiple of 4. */
  lemma DivisorChain(y: nat)
    ensures y % 400 == 0 ==> y % 100 == 0
    ensures y % 100 == 0 ==> y % 4 == 0
  {
    if y % 400 == 0 {
      assert y == 100 * (4 * (y / 400));
    }
    if y % 100 == 0 {
      assert y == 4 * (25 * (y / 100));
    }
  }

  /** Moving `y` up by one adds a multiple of 4, 100 or 400 exactly when `y` is one. */
  lemma QuotientStep(y: nat)
    ensures (y + 4) / 4 == (y + 3) / 4 + (if y % 4 == 0 then 1 else 0)
    ensures (y + 100) / 100 == (y + 99) / 100 + (if y % 100 == 0 then 1 else 0)
    ensures (y + 400) / 400 == (y + 399) / 400 + (if y % 400 == 0 then 1 else 0)
  {
    assert (y + 4) / 4 == y / 4 + 1;
    assert (y + 3) / 4 == if y % 4 == 0 then y / 4 else y / 4 + 1;
    assert (y + 100) / 100 == y / 100 + 1;
    assert (y + 99) / 100 == if y % 100 == 0 then y / 100 else y / 100 + 1;
    assert (y + 400) / 400 == y / 400 + 1;
    assert (y + 399) / 400 == if y % 400 == 0 then y / 400 else y / 400 + 1;
  }

  /** A valid day lies inside its year. */
  lemma DayOfYearBound(d: Date)
    requires ValidDate(d)
    ensures DaysBeforeMonth(d.year, d.month) + d.day <= YearLength(d.year)
  {
  }

  lemma {:induction false} DaysBeforeYearMonotone(a: nat, b: nat)
    requires a < b
    ensures DaysBeforeYear(a) + YearLength(a) <= DaysBeforeYear(b)
    decreases b - a
  {
    YearStep(a);
    if a + 1 < b {
      DaysBeforeYearMonotone(a + 1, b);
    }
  }

  lemma DaysBeforeMonthMonotone(y: nat, a: Month, b: Month)
    requires a < b
    ensures DaysBeforeMonth(y, a) + DaysInMonth(y, a) <= DaysBeforeMonth(y, b)
  {
  }

  /** Day numbers follow calendar order: a valid date is before another iff its number is smaller. */
  lemma DayNumberOrder(a: Date, b: Date)
    requires ValidDate(a) && ValidDate(b)
    ensures Before(a, b) <==> DayNumber(a) < DayNumber(b)
    ensures a == b <==> DayNumber(a) == DayNumber(b)
  {
    if Before(a, b) {
      DayNumberIncreases(a, b);
    } else if Before(b, a) {
      DayNumberIncreases(b, a);
    } else {
      assert a == b;
    }
  }

  lemma DayNumberIncreases(a: Date, b: Date)
    requires ValidDate(a) && ValidDate(b) && Before(a, b)
    ensures DayNumber(a) < DayNumber(b)
  {
    if a.year < b.year {
      DayOfYearBound(a);
      DaysBeforeYearMonotone(a.year, b.year);
    } else if a.month < b.month {
      DaysBeforeMonthMonotone(a.year, a.month, b.month);
    }
  }

  /** The next calendar day falls on the next weekday. */
  lemma WeekdayNextDay(d: Date)
    requires ValidDate(d)
    ensures Weekday(DayStartMs(NextDay(d))) == (Weekday(DayStartMs(d)) + 1) % 7
  {
    assert DayStartMs(NextDay(d)) == DayStartMs(d) + DayMs;
    WeekdayStep(DayStartMs(d));
  }
}
