/**
 * The proleptic Gregorian calendar restricted to what the calendar scripts use of
 * Python's `datetime.date`: valid dates of years 1 through 9999, the day after a date
 * (`date + timedelta(days=1)`), the date comparison operators and the day count
 * `(a - b).days`, which is the difference of the two dates' ordinals.
 */
module Gregorian {

  const MinYear := 1
  const MaxYear := 9999

  /** A calendar date; only the values satisfying `Valid` stand for real dates. */
  datatype Date = Date(year: int, month: int, day: int)

  /** The latest date Python can represent. */
  const MaxDate := Date(MaxYear, 12, 31)

  /** The ordinal of `MaxDate`. */
  const MaxOrdinal := 3652059

  /** The Gregorian leap-year rule, as the scripts test it on the current date. */
  predicate IsLeapYear(y: int) {
    (y % 4 == 0 && y % 100 != 0) || y % 400 == 0
  }

  function DaysInYear(y: int): int {
    if IsLeapYear(y) then 366 else 365
  }

  function DaysInMonth(y: int, m: int): (n: int)
    requires 1 <= m <= 12
    ensures 28 <= n <= 31
  {
    if m == 2 then (if IsLeapYear(y) then 29 else 28)
    else if m == 4 || m == 6 || m == 9 || m == 11 then 30
    else 31
  }

  predicate Valid(d: Date) {
    MinYear <= d.year <= MaxYear &&
    1 <= d.month <= 12 &&
    1 <= d.day <= DaysInMonth(d.year, d.month)
  }

  /** Days before the first of each month in a common year (index 0 is January). */
  const CommonDaysBeforeMonth: seq<int> := [0, 31, 59, 90, 120, 151, 181, 212, 243, 273, 304, 334]

  /** Days of year `y` before the first of month `m`, as Python's `_days_before_month`. */
  function DaysBeforeMonth(y: int, m: int): int
    requires 1 <= m <= 12
  {
    CommonDaysBeforeMonth[m - 1] + (if m > 2 && IsLeapYear(y) then 1 else 0)
  }

  /** Days before January 1 of year `y`, counted from January 1 of year 1: the lengths of the years before it. */
  function DaysBeforeYear(y: int): int
    decreases y
  {
    if y <= MinYear then 0 else DaysBeforeYear(y - 1) + DaysInYear(y - 1)
  }

  /** Python's `_days_before_year`: the same count in closed form. */
  function DaysBeforeYearFormula(y: int): int {
    var p := y - 1;
    p * 365 + p / 4 - p / 100 + p / 400
  }

  /** Python's `date.toordinal()`: January 1 of year 1 has ordinal 1. */
  function Ordinal(d: Date): int
    requires 1 <= d.month <= 12
  {
    DaysBeforeYear(d.year) + DaysBeforeMonth(d.year, d.month) + d.day
  }

  /** Python's `a < b` on dates: lexicographic on (year, month, day). */
  predicate Before(a: Date, b: Date) {
    a.year < b.year ||
    (a.year == b.year && (a.month < b.month || (a.month == b.month && a.day < b.day)))
  }

  /** `date + timedelta(days=1)`; Python raises OverflowError on `MaxDate`. */
  function Succ(d: Date): (r: Date)
    requires Valid(d) && d != MaxDate
    ensures Valid(r) && Before(d, r)
  {
    if d.day < DaysInMonth(d.year, d.month) then Date(d.year, d.month, d.day + 1)
    else if d.month < 12 then Date(d.year, d.month + 1, 1)
    else Date(d.year + 1, 1, 1)
  }

  /** The date `i` days after `d`. */
  function DayAfter(d: Date, i: nat): (r: Date)
    requires Valid(d) && Ordinal(d) + i <= MaxOrdinal
    ensures Valid(r) && Ordinal(r) == Ordinal(d) + i
  {
    if i == 0 then d
    else
      var p := DayAfter(d, i - 1);
      OrdinalBounds(p);
      assert p != MaxDate;
      OrdinalSucc(p);
      Succ(p)
  }

  /** Counting `i + 1` days from `d` is counting `i` days from the day after `d`. */
  lemma {:induction false} DayAfterShift(d: Date, i: nat)
    requires Valid(d) && Ordinal(d) + i + 1 <= MaxOrdinal
    ensures d != MaxDate && Ordinal(Succ(d)) + i <= MaxOrdinal
    ensures DayAfter(Succ(d), i) == DayAfter(d, i + 1)
  {
    OrdinalBounds(d);
    OrdinalSucc(d);
    if i > 0 {
      DayAfterShift(d, i - 1);
    }
  }

  /** The date `i + 1` days after `d` is the day after the date `i` days after `d`. */
  lemma DayAfterNext(d: Date, i: nat)
    requires Valid(d) && Ordinal(d) + i + 1 <= MaxOrdinal
    ensures DayAfter(d, i) != MaxDate && DayAfter(d, i + 1) == Succ(DayAfter(d, i))
  {
    OrdinalBounds(DayAfter(d, i));
  }

  /** Python's `date.weekday()`: Monday is 0 and Sunday is 6. */
  function Weekday(d: Date): (w: int)
    requires 1 <= d.month <= 12
    ensures 0 <= w < 7
  {
    (Ordinal(d) + 6) % 7
  }

  // ---------------------------------------------------------------------------
  // Lemmas

  /** Divisibility by 400 implies divisibility by 100, which implies divisibility by 4. */
  lemma CenturyDivisibility(y: int)
    ensures y % 400 == 0 ==> y % 100 == 0
    ensures y % 100 == 0 ==> y % 4 == 0
  {
    if y % 400 == 0 {
      var q := y / 400;
      assert y == 400 * q;
      assert y / 100 == 4 * q;
    }
    if y % 100 == 0 {
      var q := y / 100;
      assert y == 100 * q;
      assert y / 4 == 25 * q;
    }
  }

  /** A year contributes exactly its own length to the day count. */
  lemma DaysBeforeNextYear(y: int)
    requires MinYear <= y
    ensures DaysBeforeYear(y + 1) == DaysBeforeYear(y) + DaysInYear(y)
  {
  }

  /** The closed form also grows by the length of each year. */
  lemma FormulaNextYear(y: int)
    requires MinYear <= y
    ensures DaysBeforeYearFormula(y + 1) == DaysBeforeYearFormula(y) + DaysInYear(y)
  {
    assert y / 4 == (y - 1) / 4 + (if y % 4 == 0 then 1 else 0);
    assert y / 100 == (y - 1) / 100 + (if y % 100 == 0 then 1 else 0);
    assert y / 400 == (y - 1) / 400 + (if y % 400 == 0 then 1 else 0);
    CenturyDivisibility(y);
  }

  /** The sum of the year lengths agrees with Python's closed form for every year. */
  lemma {:induction false} DaysBeforeYearClosedForm(y: int)
    requires MinYear <= y
    ensures DaysBeforeYear(y) == DaysBeforeYearFormula(y)
    decreases y
  {
    if y > MinYear {
      DaysBeforeYearClosedForm(y - 1);
      FormulaNextYear(y - 1);
    }
  }

  lemma {:induction false} DaysBeforeYearMonotone(y1: int, y2: int)
    requires MinYear <= y1 <= y2
    ensures DaysBeforeYear(y1) + 365 * (y2 - y1) <= DaysBeforeYear(y2)
    decreases y2 - y1
  {
    if y1 < y2 {
      DaysBeforeYearMonotone(y1, y2 - 1);
      DaysBeforeNextYear(y2 - 1);
    }
  }

  /** The ordinal of the day after `d` is one more than that of `d`. */
  lemma OrdinalSucc(d: Date)
    requires Valid(d) && d != MaxDate
    ensures Ordinal(Succ(d)) == Ordinal(d) + 1
  {
    if d.day == DaysInMonth(d.year, d.month) && d.month == 12 {
      DaysBeforeNextYear(d.year);
    }
  }

  /** Within a year, a later month starts after every day of an earlier one. */
  lemma DaysBeforeLaterMonth(y: int, m1: int, m2: int)
    requires 1 <= m1 < m2 <= 12
    ensures DaysBeforeMonth(y, m1) + DaysInMonth(y, m1) <= DaysBeforeMonth(y, m2)
  {
  }

  /** Python's date comparison agrees with the comparison of ordinals. */
  lemma OrdinalOrder(a: Date, b: Date)
    requires Valid(a) && Valid(b)
    ensures Before(a, b) <==> Ordinal(a) < Ordinal(b)
    ensures a == b <==> Ordinal(a) == Ordinal(b)
  {
    if Before(a, b) {
      BeforeOrdinal(a, b);
    } else if Before(b, a) {
      BeforeOrdinal(b, a);
    }
  }

  lemma BeforeOrdinal(a: Date, b: Date)
    requires Valid(a) && Valid(b) && Before(a, b)
    ensures Ordinal(a) < Ordinal(b)
  {
    if a.year < b.year {
      if a.month < 12 {
        DaysBeforeLaterMonth(a.year, a.month, 12);
      }
      DaysBeforeNextYear(a.year);
      DaysBeforeYearMonotone(a.year + 1, b.year);
    } else if a.month < b.month {
      DaysBeforeLaterMonth(a.year, a.month, b.month);
    }
  }

  /** No valid date comes after `MaxDate`. */
  lemma MaxDateLatest(d: Date)
    requires Valid(d)
    ensures !Before(MaxDate, d)
  {
  }

  /** Every valid date has an ordinal between 1 and `MaxOrdinal`. */
  lemma OrdinalBounds(d: Date)
    requires Valid(d)
    ensures 1 <= Ordinal(d) <= MaxOrdinal
    ensures Ordinal(d) == MaxOrdinal <==> d == MaxDate
  {
    OrdinalOrder(d, MaxDate);
    DaysBeforeYearMonotone(1, d.year);
    DaysBeforeYearClosedForm(MaxYear);
  }

  /** Distinct valid dates have distinct ordinals. */
  lemma OrdinalInjective(a: Date, b: Date)
    requires Valid(a) && Valid(b) && Ordinal(a) == Ordinal(b)
    ensures a == b
  {
    OrdinalOrder(a, b);
  }

  /** Consecutive days have consecutive weekdays. */
  lemma WeekdaySucc(d: Date)
    requires Valid(d) && d != MaxDate
    ensures Weekday(Succ(d)) == (Weekday(d) + 1) % 7
  {
    OrdinalSucc(d);
    ModSucc(Ordinal(d) + 6);
  }

  /** Counting one more day from `d` moves the weekday on by one. */
  lemma WeekdayDayAfter(d: Date, i: nat)
    requires Valid(d) && Ordinal(d) + i + 1 <= MaxOrdinal
    ensures Weekday(DayAfter(d, i + 1)) == (Weekday(DayAfter(d, i)) + 1) % 7
  {
    ModSucc(Ordinal(d) + i + 6);
  }

  lemma ModSucc(n: int)
    ensures (n + 1) % 7 == (n % 7 + 1) % 7
  {
  }

  /** January 1 of year 1 is a Monday, and December 22, 2024 is a Sunday. */
  lemma KnownWeekdays()
    ensures Weekday(Date(1, 1, 1)) == 0
    ensures Ordinal(Date(2024, 12, 22)) == 739242 && Weekday(Date(2024, 12, 22)) == 6
    ensures Ordinal(MaxDate) == MaxOrdinal
  {
    DaysBeforeYearClosedForm(1);
    DaysBeforeYearClosedForm(2024);
    DaysBeforeYearClosedForm(MaxYear);
  }
}
