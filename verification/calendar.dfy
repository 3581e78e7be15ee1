/** Python's `datetime.date(y, m, d).toordinal()`: the proleptic Gregorian
    day number with 0001-01-01 as day 1, and the ValueError `date()` raises
    for a year outside 1..9999, a month outside 1..12 or a day past the end
    of the month. */
module Calendar {
  import opened Base

  const MinYear := 1
  const MaxYear := 9999

  predicate IsLeap(y: int) {
    y % 4 == 0 && (y % 100 != 0 || y % 400 == 0)
  }

  function DaysInYear(y: int): int {
    if IsLeap(y) then 366 else 365
  }

  function DaysInMonth(y: int, m: int): (n: int)
    requires 1 <= m <= 12
    ensures 28 <= n <= 31
  {
    if m == 2 then (if IsLeap(y) then 29 else 28)
    else if m == 4 || m == 6 || m == 9 || m == 11 then 30
    else 31
  }

  predicate ValidDate(y: int, m: int, d: int) {
    MinYear <= y <= MaxYear && 1 <= m <= 12 && 1 <= d <= DaysInMonth(y, m)
  }

  /** Days in the years before y, in closed form (as the datetime module
      computes it). */
  function DaysBeforeYear(y: int): int
    requires y >= 1
  {
    var z := y - 1;
    z * 365 + z / 4 - z / 100 + z / 400
  }

  /** Days in the months of year y before month m, from the cumulative
      month table plus the leap day after February. */
  function DaysBeforeMonth(y: int, m: int): int
    requires 1 <= m <= 12
  {
    var table := [0, 31, 59, 90, 120, 151, 181, 212, 243, 273, 304, 334];
    table[m - 1] + (if m > 2 && IsLeap(y) then 1 else 0)
  }

  /** `date(y, m, d).toordinal()`, raising ValueError for an invalid date. */
  function Ordinal(y: int, m: int, d: int): (r: Result<int>)
    ensures r.Ok? <==> ValidDate(y, m, d)
    ensures r.Ok? ==> r.value >= 1
  {
    if !(MinYear <= y <= MaxYear) then Raise(ValueError("year is out of range"))
    else if !(1 <= m <= 12) then Raise(ValueError("month must be in 1..12"))
    else if !(1 <= d <= DaysInMonth(y, m)) then Raise(ValueError("day is out of range for month"))
    else Ok(DaysBeforeYear(y) + DaysBeforeMonth(y, m) + d)
  }

  /** Reference definition: the days before year y counted one year at a time. */
  function DaysBeforeYearCounted(y: int): int
    requires y >= 1
  {
    if y == 1 then 0 else DaysBeforeYearCounted(y - 1) + DaysInYear(y - 1)
  }

  /** The calendar day after (y, m, d). */
  function NextDay(y: int, m: int, d: int): (int, int, int)
    requires ValidDate(y, m, d)
  {
    if d < DaysInMonth(y, m) then (y, m, d + 1)
    else if m < 12 then (y, m + 1, 1)
    else (y + 1, 1, 1)
  }

  lemma StepDiv4(y: int)
    requires y >= 1
    ensures y / 4 - (y - 1) / 4 == if y % 4 == 0 then 1 else 0
  {
  }

  lemma StepDiv100(y: int)
    requires y >= 1
    ensures y / 100 - (y - 1) / 100 == if y % 100 == 0 then 1 else 0
  {
  }

  lemma StepDiv400(y: int)
    requires y >= 1
    ensures y / 400 - (y - 1) / 400 == if y % 400 == 0 then 1 else 0
  {
  }

  /** A multiple of 400 is a multiple of 100. */
  lemma Nest400(y: int)
    ensures y % 400 == 0 ==> y % 100 == 0
  {
    if y % 400 == 0 {
      var k := y / 400;
      assert y == 100 * (4 * k);
      assert y / 100 == 4 * k;
    }
  }

  /** A multiple of 100 is a multiple of 4. */
  lemma Nest100(y: int)
    ensures y % 100 == 0 ==> y % 4 == 0
  {
    if y % 100 == 0 {
      var k := y / 100;
      assert y == 4 * (25 * k);
      assert y / 4 == 25 * k;
    }
  }

  /** Consecutive years in the closed form differ by the length of the
      earlier year. */
  lemma DaysBeforeYearStep(y: int)
    requires y >= 1
    ensures DaysBeforeYear(y + 1) == DaysBeforeYear(y) + DaysInYear(y)
  {
    StepDiv4(y);
    StepDiv100(y);
    StepDiv400(y);
    Nest400(y);
    Nest100(y);
  }

  /** The closed form agrees with counting year by year. */
  lemma {:induction false} DaysBeforeYearAgrees(y: int)
    requires y >= 1
    ensures DaysBeforeYear(y) == DaysBeforeYearCounted(y)
    decreases y
  {
    if y > 1 {
      DaysBeforeYearAgrees(y - 1);
      DaysBeforeYearStep(y - 1);
    }
  }

  /** The month table agrees with the month lengths. */
  lemma DaysBeforeMonthStep(y: int, m: int)
    requires 1 <= m < 12
    ensures DaysBeforeMonth(y, m + 1) == DaysBeforeMonth(y, m) + DaysInMonth(y, m)
  {
  }

  lemma DaysBeforeMonthLast(y: int)
    ensures DaysBeforeMonth(y, 12) + DaysInMonth(y, 12) == DaysInYear(y)
  {
  }

  /** The ordinal of the next calendar day is one more: consecutive dates
      are exactly one whole day apart. */
  lemma OrdinalNextDay(y: int, m: int, d: int)
    requires ValidDate(y, m, d)
    requires ValidDate(NextDay(y, m, d).0, NextDay(y, m, d).1, NextDay(y, m, d).2)
    ensures Ordinal(NextDay(y, m, d).0, NextDay(y, m, d).1, NextDay(y, m, d).2).value
            == Ordinal(y, m, d).value + 1
  {
    if d < DaysInMonth(y, m) {
    } else if m < 12 {
      DaysBeforeMonthStep(y, m);
    } else {
      DaysBeforeYearStep(y);
      DaysBeforeMonthLast(y);
    }
  }

  /** Day one of the proleptic Gregorian calendar. */
  lemma OrdinalDayOne()
    ensures Ordinal(1, 1, 1) == Ok(1)
  {
  }

  /** A date used in the examples of the simulation setup. */
  lemma OrdinalExample()
    ensures Ordinal(2021, 8, 24) == Ok(738026)
  {
    assert DaysBeforeYear(2021) == 737790;
    assert DaysBeforeMonth(2021, 8) == 212;
  }

  /** February 29 exists in 2020 and not in 2021. */
  lemma OrdinalLeapDay()
    ensures Ordinal(2021, 2, 29).Raise?
    ensures Ordinal(2020, 2, 29) == Ok(737484)
  {
    assert DaysBeforeYear(2020) == 737424;
    assert DaysBeforeMonth(2020, 2) == 31;
  }
}
