/**
 * Abstract civil dates in the proleptic Gregorian calendar.
 *
 * The dashboard works on JavaScript `Date` objects at local midnight; this
 * module replaces them by plain (year, month, day) triples, with months
 * numbered 1..12 (JavaScript's `getMonth()` is this minus one).  A day count
 * (`DayNumber`, 0001-01-01 is day 0) gives weekdays and lets day stepping be
 * stated as arithmetic.
 */
module CivilDate {

  datatype Date = Date(year: int, month: int, day: int)

  predicate IsLeapYear(y: int) {
    (y % 4 == 0 && y % 100 != 0) || y % 400 == 0
  }

  /** Number of days of month `m` (1..12) of year `y`. */
  function DaysInMonth(y: int, m: int): (n: int)
    ensures 28 <= n <= 31
    ensures m == 2 ==> (n == 29 <==> IsLeapYear(y))
  {
    if m == 2 then (if IsLeapYear(y) then 29 else 28)
    else if m == 4 || m == 6 || m == 9 || m == 11 then 30
    else 31
  }

  predicate ValidDate(d: Date) {
    1 <= d.month <= 12 && 1 <= d.day <= DaysInMonth(d.year, d.month)
  }

  /** Days in all the years before year `y` since 0001-01-01 (negative before it). */
  function DaysBeforeYear(y: int): int {
    365 * (y - 1) + (y - 1) / 4 - (y - 1) / 100 + (y - 1) / 400
  }

  /** Days in the months of year `y` before month `m`. */
  function DaysBeforeMonth(y: int, m: int): (n: int)
    requires 1 <= m <= 12
    ensures 0 <= n <= 335
  {
    var base :=
      if m == 1 then 0 else if m == 2 then 31 else if m == 3 then 59
      else if m == 4 then 90 else if m == 5 then 120 else if m == 6 then 151
      else if m == 7 then 181 else if m == 8 then 212 else if m == 9 then 243
      else if m == 10 then 273 else if m == 11 then 304 else 334;
    if m > 2 && IsLeapYear(y) then base + 1 else base
  }

  function YearLength(y: int): int {
    if IsLeapYear(y) then 366 else 365
  }

  /** Days since 0001-01-01 (proleptic Gregorian). */
  function DayNumber(d: Date): int
    requires ValidDate(d)
  {
    DaysBeforeYear(d.year) + DaysBeforeMonth(d.year, d.month) + d.day - 1
  }

  /** Weekday index as JavaScript's `getDay()`: 0 = Sunday .. 6 = Saturday. */
  function Weekday(d: Date): (w: int)
    requires ValidDate(d)
    ensures 0 <= w < 7
  {
    // 0001-01-01 was a Monday
    (DayNumber(d) + 1) % 7
  }

  /** The calendar day after `d`, rolling over month and year ends. */
  function NextDay(d: Date): (r: Date)
    requires ValidDate(d)
    ensures ValidDate(r)
  {
    if d.day < DaysInMonth(d.year, d.month) then Date(d.year, d.month, d.day + 1)
    else if d.month < 12 then Date(d.year, d.month + 1, 1)
    else Date(d.year + 1, 1, 1)
  }

  /** The calendar day before `d`, rolling back over month and year starts. */
  function PrevDay(d: Date): (r: Date)
    requires ValidDate(d)
    ensures ValidDate(r)
  {
    if d.day > 1 then Date(d.year, d.month, d.day - 1)
    else if d.month > 1 then Date(d.year, d.month - 1, DaysInMonth(d.year, d.month - 1))
    else Date(d.year - 1, 12, 31)
  }

  /** `d` moved by `n` days, as `setDate(getDate() + n)` does. */
  function AddDays(d: Date, n: int): (r: Date)
    requires ValidDate(d)
    ensures ValidDate(r)
    decreases if n < 0 then -n else n
  {
    if n == 0 then d
    else if n > 0 then AddDays(NextDay(d), n - 1)
    else AddDays(PrevDay(d), n + 1)
  }

  /**
   * `d` moved by `k` months as JavaScript's `setMonth(getMonth() + k)` does:
   * the month index is normalised into a year, and the day of month is kept
   * by counting `day - 1` days from the first of the target month, so a day
   * past the end of a short month overflows into the month after it.
   */
  function AddMonths(d: Date, k: int): (r: Date)
    requires ValidDate(d)
    ensures ValidDate(r)
  {
    var index := d.month - 1 + k;
    AddDays(Date(d.year + index / 12, index % 12 + 1, 1), d.day - 1)
  }

  /** The last day of month `m` computed as the source does: day 0 of the month after. */
  function DayZeroOfNextMonth(y: int, m: int): (r: Date)
    requires 1 <= m <= 12
    ensures ValidDate(r)
  {
    var next := if m < 12 then Date(y, m + 1, 1) else Date(y + 1, 1, 1);
    PrevDay(next)
  }

  // ---------------------------------------------------------------------
  // Lemmas
  // ---------------------------------------------------------------------

  lemma DivStep(y: int, k: int)
    requires k == 4 || k == 100 || k == 400
    ensures y / k - (y - 1) / k == if y % k == 0 then 1 else 0
  {
    var q, r := y / k, y % k;
    assert y == k * q + r && 0 <= r < k;
    if r == 0 {
      assert y - 1 == k * (q - 1) + (k - 1);
    } else {
      assert y - 1 == k * q + (r - 1);
    }
  }

  lemma LeapByDivisors(y: int)
    ensures (if y % 4 == 0 then 1 else 0) - (if y % 100 == 0 then 1 else 0) + (if y % 400 == 0 then 1 else 0)
            == if IsLeapYear(y) then 1 else 0
  {
    if y % 400 == 0 {
      var q := y / 400;
      assert y == 400 * q;
      assert y == 100 * (4 * q) && y == 4 * (100 * q);
    } else if y % 100 == 0 {
      var q := y / 100;
      assert y == 100 * q;
      assert y == 4 * (25 * q);
    }
  }

  /** Successive years start `YearLength` days apart. */
  lemma DaysBeforeNextYear(y: int)
    ensures DaysBeforeYear(y + 1) == DaysBeforeYear(y) + YearLength(y)
  {
    DivStep(y, 4);
    DivStep(y, 100);
    DivStep(y, 400);
    LeapByDivisors(y);
  }

  lemma DayNumberInYear(d: Date)
    requires ValidDate(d)
    ensures DaysBeforeYear(d.year) <= DayNumber(d) < DaysBeforeYear(d.year) + YearLength(d.year)
  {
  }

  lemma {:induction false} DaysBeforeYearMonotone(a: int, b: int)
    requires a <= b
    ensures DaysBeforeYear(a) + 365 * (b - a) <= DaysBeforeYear(b)
    decreases b - a
  {
    if a < b {
      DaysBeforeYearMonotone(a, b - 1);
      DaysBeforeNextYear(b - 1);
    }
  }

  /** Stepping one day forward adds one to the day count. */
  lemma NextDayNumber(d: Date)
    requires ValidDate(d)
    ensures DayNumber(NextDay(d)) == DayNumber(d) + 1
  {
    if d.day == DaysInMonth(d.year, d.month) && d.month == 12 {
      DaysBeforeNextYear(d.year);
    }
  }

  lemma NextOfPrev(d: Date)
    requires ValidDate(d)
    ensures NextDay(PrevDay(d)) == d
  {
  }

  /** Stepping one day back subtracts one from the day count. */
  lemma PrevDayNumber(d: Date)
    requires ValidDate(d)
    ensures DayNumber(PrevDay(d)) == DayNumber(d) - 1
  {
    NextOfPrev(d);
    NextDayNumber(PrevDay(d));
  }

  /** `AddDays` moves the day count by exactly `n`. */
  lemma {:induction false} AddDaysNumber(d: Date, n: int)
    requires ValidDate(d)
    ensures DayNumber(AddDays(d, n)) == DayNumber(d) + n
    decreases if n < 0 then -n else n, 1
  {
    if n > 0 {
      AddDaysForward(d, n);
    } else if n < 0 {
      AddDaysBackward(d, n);
    }
  }

  lemma {:induction false} AddDaysForward(d: Date, n: int)
    requires ValidDate(d) && n > 0
    ensures DayNumber(AddDays(d, n)) == DayNumber(d) + n
    decreases n, 0
  {
    var e := NextDay(d);
    AddDaysStep(d, n);
    NextDayNumber(d);
    AddDaysNumber(e, n - 1);
  }

  lemma {:induction false} AddDaysBackward(d: Date, n: int)
    requires ValidDate(d) && n < 0
    ensures DayNumber(AddDays(d, n)) == DayNumber(d) + n
    decreases -n, 0
  {
    var e := PrevDay(d);
    AddDaysStep(d, n);
    PrevDayNumber(d);
    AddDaysNumber(e, n + 1);
  }

  /** One step of `AddDays`, taken towards zero. */
  lemma AddDaysStep(d: Date, n: int)
    requires ValidDate(d)
    ensures n > 0 ==> AddDays(d, n) == AddDays(NextDay(d), n - 1)
    ensures n < 0 ==> AddDays(d, n) == AddDays(PrevDay(d), n + 1)
  {
  }

  /** A valid date is determined by its day count. */
  lemma DayNumberInjective(a: Date, b: Date)
    requires ValidDate(a) && ValidDate(b)
    requires DayNumber(a) == DayNumber(b)
    ensures a == b
  {
    if a.year < b.year {
      YearsApart(a, b);
      assert false;
    } else if b.year < a.year {
      YearsApart(b, a);
      assert false;
    }
    assert a.year == b.year;
    if a.month != b.month {
      MonthsApart(a.year, if a.month < b.month then a else b, if a.month < b.month then b else a);
    }
  }

  /** A date of an earlier year comes earlier on the day count. */
  lemma YearsApart(a: Date, b: Date)
    requires ValidDate(a) && ValidDate(b) && a.year < b.year
    ensures DayNumber(a) < DayNumber(b)
  {
    DayNumberInYear(a);
    DayNumberInYear(b);
    DaysBeforeYearMonotone(a.year + 1, b.year);
    DaysBeforeNextYear(a.year);
  }

  lemma MonthsApart(y: int, a: Date, b: Date)
    requires ValidDate(a) && ValidDate(b) && a.year == y && b.year == y && a.month < b.month
    ensures DayNumber(a) < DayNumber(b)
  {
    assert DaysBeforeMonth(y, a.month) + DaysInMonth(y, a.month) <= DaysBeforeMonth(y, b.month);
  }

  /** Weekdays advance by one, modulo seven, from one day to the next. */
  lemma NextDayWeekday(d: Date)
    requires ValidDate(d)
    ensures Weekday(NextDay(d)) == (Weekday(d) + 1) % 7
  {
    NextDayNumber(d);
    ModSevenStep(DayNumber(d) + 1);
  }

  lemma ModSevenStep(x: int)
    ensures (x + 1) % 7 == (x % 7 + 1) % 7
  {
    var q, r := x / 7, x % 7;
    assert x == 7 * q + r;
    if r == 6 {
      assert x + 1 == 7 * (q + 1);
    } else {
      assert x + 1 == 7 * q + (r + 1);
    }
  }

  lemma ModSevenUnique(x: int, q: int, r: int)
    requires x == 7 * q + r && 0 <= r < 7
    ensures x % 7 == r
  {
  }

  /** Moving `n` days moves the weekday by `n`, modulo 7. */
  lemma WeekdayAfter(d: Date, n: int)
    requires ValidDate(d)
    ensures Weekday(AddDays(d, n)) == (Weekday(d) + n) % 7
  {
    AddDaysNumber(d, n);
    var x := DayNumber(d) + 1;
    var a := x % 7 + n;
    assert x == 7 * (x / 7) + x % 7;
    assert a == 7 * (a / 7) + a % 7;
    ModSevenUnique(x + n, x / 7 + a / 7, a % 7);
  }

  /** The source's "day 0 of the next month" is the last day of the month. */
  lemma DayZeroIsLastDay(y: int, m: int)
    requires 1 <= m <= 12
    ensures DayZeroOfNextMonth(y, m) == Date(y, m, DaysInMonth(y, m))
  {
  }

  /** Counting forward within a month stays in that month. */
  lemma AddDaysWithinMonth(d: Date, n: nat)
    requires ValidDate(d) && d.day + n <= DaysInMonth(d.year, d.month)
    ensures AddDays(d, n) == Date(d.year, d.month, d.day + n)
  {
    AddDaysNumber(d, n);
    DayNumberInjective(AddDays(d, n), Date(d.year, d.month, d.day + n));
  }

  /** Month stepping keeps the day of month when the target month has it. */
  lemma AddMonthsKeepsDay(d: Date, k: int)
    requires ValidDate(d)
    requires d.day <= DaysInMonth(d.year + (d.month - 1 + k) / 12, (d.month - 1 + k) % 12 + 1)
    ensures AddMonths(d, k) == Date(d.year + (d.month - 1 + k) / 12, (d.month - 1 + k) % 12 + 1, d.day)
  {
    var index := d.month - 1 + k;
    AddDaysWithinMonth(Date(d.year + index / 12, index % 12 + 1, 1), d.day - 1);
  }

  /**
   * Month stepping from a day the target month lacks (Jan 31 + 1 month)
   * overflows into the month after the target, by the missing days.
   */
  lemma AddMonthsOverflows(d: Date, k: int)
    requires ValidDate(d)
    requires d.day > DaysInMonth(d.year + (d.month - 1 + k) / 12, (d.month - 1 + k) % 12 + 1)
    ensures var y, m := d.year + (d.month - 1 + k) / 12, (d.month - 1 + k) % 12 + 1;
            m < 12 && AddMonths(d, k) == Date(y, m + 1, d.day - DaysInMonth(y, m))
  {
    var index := d.month - 1 + k;
    var y, m := d.year + index / 12, index % 12 + 1;
    assert m < 12;
    var first := Date(y, m, 1);
    var target := Date(y, m + 1, d.day - DaysInMonth(y, m));
    assert ValidDate(target);
    DaysBeforeNextMonth(y, m);
    assert DayNumber(target) == DayNumber(first) + d.day - 1;
    AddDaysNumber(first, d.day - 1);
    DayNumberInjective(AddMonths(d, k), target);
  }

  /** Consecutive months of a year are one month length apart on the day count. */
  lemma DaysBeforeNextMonth(y: int, m: int)
    requires 1 <= m < 12
    ensures DaysBeforeMonth(y, m + 1) == DaysBeforeMonth(y, m) + DaysInMonth(y, m)
  {
  }

  /** 2023-10-17, the dashboard's initial pivot date, is a Tuesday. */
  lemma InitialPivotIsTuesday()
    ensures ValidDate(Date(2023, 10, 17)) && Weekday(Date(2023, 10, 17)) == 2
  {
  }

  /** Jan 31 plus one month is Mar 3 in a common year. */
  lemma JanuaryThirtyFirstPlusOneMonth()
    ensures AddMonths(Date(2023, 1, 31), 1) == Date(2023, 3, 3)
  {
    AddMonthsOverflows(Date(2023, 1, 31), 1);
  }
}
