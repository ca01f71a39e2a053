/**
  Calendar arithmetic shared by every stage of the scheduler: proleptic
  Gregorian dates, day numbers, weekdays and minute instants.

  Day number 0 is 0001-01-01, a Monday. An instant is a day number times
  1440 plus a minute of that day, so "24:00" of a day and "00:00" of the
  next are the same instant.
*/
module CivilTime {

  const MinutesPerDay: int := 1440
  const MinutesPerHour: int := 60

  /** A time of day in whole minutes; 1440 stands for the sentinel "24:00". */
  type Minute = m: int | 0 <= m <= 1440

  /** A calendar date: year, month 1..12, day of month. */
  datatype Civil = Civil(year: int, month: int, day: int)

  predicate IsLeapYear(y: int) {
    y % 4 == 0 && (y % 100 != 0 || y % 400 == 0)
  }

  function DaysInMonth(y: int, m: int): (n: int)
    ensures 28 <= n <= 31
    ensures m == 2 ==> (n == 29 <==> IsLeapYear(y))
  {
    if m == 2 then (if IsLeapYear(y) then 29 else 28)
    else if m == 4 || m == 6 || m == 9 || m == 11 then 30
    else 31
  }

  predicate Valid(c: Civil) {
    1 <= c.year && 1 <= c.month <= 12 && 1 <= c.day <= DaysInMonth(c.year, c.month)
  }

  /** Months counted from January of year 1, which has index 0. */
  function MonthIndex(y: int, m: int): int {
    (y - 1) * 12 + (m - 1)
  }

  function YearOfIndex(i: int): int {
    i / 12 + 1
  }

  function MonthOfIndex(i: int): int {
    i % 12 + 1
  }

  /** The days of the years before year y, from year 1 on. */
  function DaysBeforeYear(y: int): int {
    var p := y - 1;
    365 * p + p / 4 - p / 100 + p / 400
  }

  /** The days of the months of year y before month m. */
  function DaysBeforeMonth(y: int, m: int): int {
    var common :=
      if m <= 1 then 0 else if m == 2 then 31 else if m == 3 then 59 else if m == 4 then 90
      else if m == 5 then 120 else if m == 6 then 151 else if m == 7 then 181 else if m == 8 then 212
      else if m == 9 then 243 else if m == 10 then 273 else if m == 11 then 304 else 334;
    if m > 2 && IsLeapYear(y) then common + 1 else common
  }

  /** The day number of a date: the days elapsed since 0001-01-01, counted by the leap-year rule. */
  function DayNumber(c: Civil): int {
    DaysBeforeYear(c.year) + DaysBeforeMonth(c.year, c.month) + c.day - 1
  }

  /** The first day of the month with index i. */
  function FirstOfMonth(i: int): Civil {
    Civil(YearOfIndex(i), MonthOfIndex(i), 1)
  }

  /** Calendar order: a comes before b by year, then month, then day. */
  predicate Before(a: Civil, b: Civil) {
    a.year < b.year
    || (a.year == b.year && a.month < b.month)
    || (a.year == b.year && a.month == b.month && a.day < b.day)
  }

  /** Day of the week of a day number, 0 = Sunday .. 6 = Saturday. */
  function Weekday(d: int): (w: int)
    ensures 0 <= w < 7
  {
    (d + 1) % 7
  }

  predicate IsWeekend(d: int) {
    Weekday(d) == 0 || Weekday(d) == 6
  }

  /** The instant of minute m of day d. */
  function Instant(d: int, m: int): int {
    d * MinutesPerDay + m
  }

  /** The calendar day an instant falls on. */
  function DayOf(t: int): int {
    t / MinutesPerDay
  }

  /** The hour (0..23) shown by a clock at instant t. */
  function HourOf(t: int): (h: int)
    ensures 0 <= h < 24
  {
    (t % MinutesPerDay) / MinutesPerHour
  }

  /** An instant falls on the day whose minutes it lies between. */
  lemma DayOfInstant(t: int, d: int)
    requires Instant(d, 0) <= t < Instant(d + 1, 0)
    ensures DayOf(t) == d
  {
  }

  /** A later instant never falls on an earlier day. */
  lemma DayOfMonotone(s: int, t: int)
    requires s <= t
    ensures DayOf(s) <= DayOf(t)
  {
  }

  lemma {:induction false} IndexParts(y: int, m: int)
    requires 1 <= m <= 12
    ensures YearOfIndex(MonthIndex(y, m)) == y && MonthOfIndex(MonthIndex(y, m)) == m
  {
    var i := MonthIndex(y, m);
    assert i == (y - 1) * 12 + (m - 1);
    assert 0 <= m - 1 < 12;
  }

  lemma IndexOfParts(i: int)
    ensures MonthIndex(YearOfIndex(i), MonthOfIndex(i)) == i
    ensures 1 <= MonthOfIndex(i) <= 12
  {
  }

  /** Each leap-year count goes up by one from year y - 1 to year y exactly when y is a multiple. */
  lemma FourStep(y: int)
    ensures y / 4 - (y - 1) / 4 == (if y % 4 == 0 then 1 else 0)
  {
  }

  lemma HundredStep(y: int)
    ensures y / 100 - (y - 1) / 100 == (if y % 100 == 0 then 1 else 0)
  {
  }

  lemma FourHundredStep(y: int)
    ensures y / 400 - (y - 1) / 400 == (if y % 400 == 0 then 1 else 0)
  {
  }

  /** A year has 366 days when it is a leap year and 365 otherwise. */
  lemma YearLength(y: int)
    requires y >= 1
    ensures DaysBeforeYear(y + 1) == DaysBeforeYear(y) + (if IsLeapYear(y) then 366 else 365)
  {
    FourStep(y);
    HundredStep(y);
    FourHundredStep(y);
  }

  /** The month index after i: the next month of the same year, or January of the next. */
  lemma IndexNext(i: int)
    ensures MonthOfIndex(i) < 12 ==> YearOfIndex(i + 1) == YearOfIndex(i) && MonthOfIndex(i + 1) == MonthOfIndex(i) + 1
    ensures MonthOfIndex(i) == 12 ==> YearOfIndex(i + 1) == YearOfIndex(i) + 1 && MonthOfIndex(i + 1) == 1
  {
  }

  /** Within a year, the days before month m + 1 are those before m plus the length of m. */
  lemma DaysBeforeMonthNext(y: int, m: int)
    requires 1 <= m < 12
    ensures DaysBeforeMonth(y, m + 1) == DaysBeforeMonth(y, m) + DaysInMonth(y, m)
  {
  }

  lemma DecemberEnds(y: int)
    ensures DaysBeforeMonth(y, 12) + DaysInMonth(y, 12) == (if IsLeapYear(y) then 366 else 365)
  {
  }

  /** Year 1 starts at day 0 and later years never start earlier. */
  lemma {:induction false} DaysBeforeYearGrows(y: int, z: int)
    requires 1 <= y <= z
    ensures 0 <= DaysBeforeYear(y) <= DaysBeforeYear(z)
    decreases z
  {
    if y < z {
      DaysBeforeYearGrows(y, z - 1);
      YearLength(z - 1);
    }
  }

  /** A month ends no later than any later month of the same year begins. */
  lemma {:induction false} MonthEndsBefore(y: int, m: int, k: int)
    requires 1 <= m < k <= 12
    ensures DaysBeforeMonth(y, m) + DaysInMonth(y, m) <= DaysBeforeMonth(y, k)
    decreases k
  {
    DaysBeforeMonthNext(y, k - 1);
    if m < k - 1 {
      MonthEndsBefore(y, m, k - 1);
    }
  }

  /** Every month ends within its year. */
  lemma MonthFitsYear(y: int, m: int)
    requires 1 <= m <= 12
    ensures DaysBeforeMonth(y, m) + DaysInMonth(y, m) <= (if IsLeapYear(y) then 366 else 365)
  {
    DecemberEnds(y);
    if m < 12 {
      MonthEndsBefore(y, m, 12);
    }
  }

  /** Every date of a year comes before the first day of any later year. */
  lemma YearEndsBefore(c: Civil, z: int)
    requires Valid(c) && c.year < z
    ensures DayNumber(c) < DaysBeforeYear(z)
  {
    MonthFitsYear(c.year, c.month);
    YearLength(c.year);
    DaysBeforeYearGrows(c.year + 1, z);
  }

  /** The day number follows calendar order: an earlier date has a smaller day number. */
  lemma DayNumberOrder(a: Civil, b: Civil)
    requires Valid(a) && Valid(b) && Before(a, b)
    ensures DayNumber(a) < DayNumber(b)
  {
    if a.year < b.year {
      YearEndsBefore(a, b.year);
      assert DaysBeforeYear(b.year) <= DayNumber(b);
    } else if a.month < b.month {
      MonthEndsBefore(a.year, a.month, b.month);
    }
  }

  /** A larger month index is a later month. */
  lemma IndexOrder(y: int, m: int, z: int, k: int)
    requires 1 <= m <= 12 && 1 <= k <= 12
    requires MonthIndex(y, m) < MonthIndex(z, k)
    ensures y < z || (y == z && m < k)
  {
  }

  /** The day after the last day of a month is the first day of the next month. */
  lemma MonthEndThenNext(y: int, m: int)
    requires 1 <= m <= 12
    ensures NextDay(Civil(y, m, DaysInMonth(y, m))) == FirstOfMonth(MonthIndex(y, m) + 1)
  {
    IndexParts(y, m);
    IndexNext(MonthIndex(y, m));
  }

  /** The date that follows c. */
  function NextDay(c: Civil): Civil {
    if c.day < DaysInMonth(c.year, c.month) then Civil(c.year, c.month, c.day + 1)
    else if c.month < 12 then Civil(c.year, c.month + 1, 1)
    else Civil(c.year + 1, 1, 1)
  }

  lemma NextDayIsNext(c: Civil)
    requires Valid(c)
    ensures Valid(NextDay(c))
    ensures DayNumber(NextDay(c)) == DayNumber(c) + 1
  {
    if c.day == DaysInMonth(c.year, c.month) {
      if c.month < 12 {
        DaysBeforeMonthNext(c.year, c.month);
      } else {
        DecemberEnds(c.year);
        YearLength(c.year);
      }
    }
  }

  /** The date n days after c, one day at a time (JS setDate(getDate() + n)). */
  function AddDays(c: Civil, n: nat): Civil
    decreases n
  {
    if n == 0 then c else AddDays(NextDay(c), n - 1)
  }

  lemma {:induction false} AddDaysIsLater(c: Civil, n: nat)
    requires Valid(c)
    ensures Valid(AddDays(c, n))
    ensures DayNumber(AddDays(c, n)) == DayNumber(c) + n
    decreases n
  {
    if n > 0 {
      NextDayIsNext(c);
      AddDaysIsLater(NextDay(c), n - 1);
    }
  }

  /** Within a month, adding days only moves the day of month. */
  lemma {:induction false} AddDaysWithinMonth(c: Civil, n: nat)
    requires Valid(c) && c.day + n <= DaysInMonth(c.year, c.month)
    ensures AddDays(c, n) == Civil(c.year, c.month, c.day + n)
    decreases n
  {
    if n > 0 {
      AddDaysWithinMonth(NextDay(c), n - 1);
    }
  }

  /**
    JS setMonth(getMonth() + n): the month moves n ahead (carrying into the
    year), the day of month is kept, and a day the target month does not have
    spills over into the following month (January 31 plus one month is
    March 2 or 3).
  */
  function AddMonths(c: Civil, n: nat): Civil {
    var t := MonthIndex(c.year, c.month) + n;
    var length := DaysInMonth(YearOfIndex(t), MonthOfIndex(t));
    if c.day <= length then Civil(YearOfIndex(t), MonthOfIndex(t), c.day)
    else Civil(YearOfIndex(t + 1), MonthOfIndex(t + 1), c.day - length)
  }

  lemma AddMonthsIsLater(c: Civil, n: nat)
    requires Valid(c) && n >= 1
    ensures Valid(AddMonths(c, n))
    ensures DayNumber(AddMonths(c, n)) > DayNumber(c)
    ensures DayNumber(AddMonths(c, n)) >= DayNumber(FirstOfMonth(MonthIndex(c.year, c.month) + n))
  {
    var t := MonthIndex(c.year, c.month) + n;
    var y, m := YearOfIndex(t), MonthOfIndex(t);
    var length := DaysInMonth(y, m);
    IndexOfParts(t);
    IndexOrder(c.year, c.month, y, m);
    if c.day <= length {
      var later := Civil(y, m, c.day);
      assert AddMonths(c, n) == later;
      DayNumberOrder(c, later);
    } else {
      var y', m' := YearOfIndex(t + 1), MonthOfIndex(t + 1);
      var later := Civil(y', m', c.day - length);
      assert AddMonths(c, n) == later;
      IndexOfParts(t + 1);
      IndexOrder(c.year, c.month, y', m');
      IndexOrder(y, m, y', m');
      DayNumberOrder(c, later);
      DayNumberOrder(FirstOfMonth(t), later);
    }
  }

  /** For a day of month every month has, stepping a month keeps the day. */
  lemma AddMonthKeepsDay(c: Civil)
    requires Valid(c) && c.day <= 28
    ensures AddMonths(c, 1).day == c.day
    ensures MonthIndex(AddMonths(c, 1).year, AddMonths(c, 1).month) == MonthIndex(c.year, c.month) + 1
  {
    IndexOfParts(MonthIndex(c.year, c.month) + 1);
  }
}
