/**
 * The proleptic Gregorian calendar as Python's `datetime` module implements
 * it: the valid range of `datetime(year, month, day)` and the day ordinal
 * that date subtraction uses.
 */
module Calendar {

  const MinYear := 1
  const MaxYear := 9999

  predicate IsLeap(y: int) {
    y % 4 == 0 && (y % 100 != 0 || y % 400 == 0)
  }

  /** The number of days in month `m` of year `y`. */
  function MonthLength(y: int, m: int): int
    requires 1 <= m <= 12
  {
    if m == 2 then (if IsLeap(y) then 29 else 28)
    else if m == 4 || m == 6 || m == 9 || m == 11 then 30
    else 31
  }

  /** What `datetime(y, m, d)` accepts without raising `ValueError`. */
  predicate IsDate(y: int, m: int, d: int) {
    MinYear <= y <= MaxYear && 1 <= m <= 12 && 1 <= d <= MonthLength(y, m)
  }

  /** Days in the years before `y`. */
  function DaysBeforeYear(y: int): int
    requires y >= 1
  {
    var p := y - 1;
    365 * p + p / 4 - p / 100 + p / 400
  }

  /** Days in year `y` before the first of month `m`; month 13 stands for the year's end. */
  function DaysBeforeMonth(y: int, m: int): int
    requires 1 <= m <= 13
  {
    var common := [0, 31, 59, 90, 120, 151, 181, 212, 243, 273, 304, 334, 365][m - 1];
    if m > 2 && IsLeap(y) then common + 1 else common
  }

  /** `date(y, m, d).toordinal()`: day 1 is 0001-01-01. */
  function Ordinal(y: int, m: int, d: int): (o: int)
    requires IsDate(y, m, d)
    ensures o >= 1
    ensures o == 1 <==> y == 1 && m == 1 && d == 1
  {
    DaysBeforeYear(y) + DaysBeforeMonth(y, m) + d
  }

  /** The cumulative table agrees with the month lengths. */
  lemma {:induction false} MonthStep(y: int, m: int)
    requires 1 <= m <= 12
    ensures DaysBeforeMonth(y, m + 1) == DaysBeforeMonth(y, m) + MonthLength(y, m)
  {
  }

  lemma {:induction false} StepBy4(p: int)
    requires p >= 0
    ensures (p + 1) / 4 - p / 4 == if (p + 1) % 4 == 0 then 1 else 0
  {
  }

  lemma {:induction false} StepBy100(p: int)
    requires p >= 0
    ensures (p + 1) / 100 - p / 100 == if (p + 1) % 100 == 0 then 1 else 0
  {
  }

  lemma {:induction false} StepBy400(p: int)
    requires p >= 0
    ensures (p + 1) / 400 - p / 400 == if (p + 1) % 400 == 0 then 1 else 0
  {
  }

  /** Multiples of 400 are multiples of 100, and those are multiples of 4. */
  lemma {:induction false} Divisors(y: int)
    ensures y % 400 == 0 ==> y % 100 == 0
    ensures y % 100 == 0 ==> y % 4 == 0
  {
    if y % 400 == 0 {
      MultipleOf100(y, 4 * (y / 400));
    }
    if y % 100 == 0 {
      MultipleOf4(y, 25 * (y / 100));
    }
  }

  lemma {:induction false} MultipleOf100(y: int, q: int)
    requires y == 100 * q
    ensures y % 100 == 0
  {
  }

  lemma {:induction false} MultipleOf4(y: int, q: int)
    requires y == 4 * q
    ensures y % 4 == 0
  {
  }

  /** A year has 366 days when it is a leap year and 365 otherwise. */
  lemma {:induction false} YearLength(y: int)
    requires y >= 1
    ensures DaysBeforeYear(y + 1) - DaysBeforeYear(y) == (if IsLeap(y) then 366 else 365)
    ensures DaysBeforeYear(y + 1) - DaysBeforeYear(y) == DaysBeforeMonth(y, 13)
  {
    var p := y - 1;
    StepBy4(p);
    StepBy100(p);
    StepBy400(p);
    Divisors(y);
    assert DaysBeforeYear(y + 1) - DaysBeforeYear(y)
      == 365 + ((p + 1) / 4 - p / 4) - ((p + 1) / 100 - p / 100) + ((p + 1) / 400 - p / 400);
    assert DaysBeforeMonth(y, 13) == if IsLeap(y) then 366 else 365;
  }

  /** The first day of the month after (`y`, `m`), as `datetime` would build it. */
  function NextMonth(y: int, m: int): (int, int)
    requires 1 <= m <= 12
  {
    if m == 12 then (y + 1, 1) else (y, m + 1)
  }

  /**
   * From the first of a month to the first of the next is exactly that
   * month's length, across the December/January boundary as well.
   */
  lemma {:induction false} MonthDistance(y: int, m: int)
    requires IsDate(y, m, 1)
    requires IsDate(NextMonth(y, m).0, NextMonth(y, m).1, 1)
    ensures Ordinal(NextMonth(y, m).0, NextMonth(y, m).1, 1) - Ordinal(y, m, 1) == MonthLength(y, m)
  {
    MonthStep(y, m);
    if m == 12 {
      YearLength(y);
    }
  }

  /** Month lengths lie between 28 and 31, and February has 29 days exactly in leap years. */
  lemma {:induction false} MonthLengthRange(y: int, m: int)
    requires 1 <= m <= 12
    ensures 28 <= MonthLength(y, m) <= 31
    ensures m == 2 ==> (MonthLength(y, m) == 29 <==> IsLeap(y))
  {
  }
}
