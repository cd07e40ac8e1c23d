/** A reference model of the proleptic Gregorian calendar, written the
    naive way: a date's day number is the sum of the lengths of all years
    and months before it, counted from 0001-01-01. The engine in module
    Grcal is proved against this model. */
module Calendar {
  import opened GrcalRules

  /** A January-based calendar date with a one-based month and day. */
  datatype Date = Date(year: int, month: int, day: int)

  /** Offset zero of the day-offset system: the first Gregorian day. */
  const EPOCH: Date := Date(1582, 10, 15)

  /** The day number of EPOCH, as EpochDayNumber proves. */
  const EPOCH_DAY_NUMBER: int := 577735

  /** "Thirty days hath September, April, June and November." */
  function DaysInMonth(year: int, month: int): int
    requires year >= 1 && 1 <= month <= 12
  {
    if month == 2 then (if IsLeapYear(year) then 29 else 28)
    else if month == 4 || month == 6 || month == 9 || month == 11 then 30
    else 31
  }

  function DaysInYear(year: int): int
    requires year >= 1
  {
    if IsLeapYear(year) then 366 else 365
  }

  /** A calendar date with a year of 1 to 9999 whose day exists in its month. */
  predicate IsValidDate(d: Date) {
    1 <= d.year <= MAX_YEAR && 1 <= d.month <= 12 && 1 <= d.day <= DaysInMonth(d.year, d.month)
  }

  /** Days from 0001-01-01 to the first of January of the given year,
      adding up the lengths of the earlier years one by one. */
  ghost function DaysBeforeYear(year: int): int
    requires year >= 1
    decreases year
  {
    if year == 1 then 0 else DaysBeforeYear(year - 1) + DaysInYear(year - 1)
  }

  /** Days from the first of January to the first of the given month;
      month 13 stands for the end of the year. */
  ghost function DaysBeforeMonth(year: int, month: int): int
    requires year >= 1 && 1 <= month <= 13
    decreases month
  {
    if month == 1 then 0 else DaysBeforeMonth(year, month - 1) + DaysInMonth(year, month - 1)
  }

  /** Days from 0001-01-01 to the date (0001-01-01 itself is day 0). */
  ghost function DayNumber(d: Date): int
    requires d.year >= 1 && 1 <= d.month <= 12
  {
    DaysBeforeYear(d.year) + DaysBeforeMonth(d.year, d.month) + d.day - 1
  }

  /** The day offset of a date: days since 1582-10-15. */
  ghost function DaysSinceEpoch(d: Date): int
    requires d.year >= 1 && 1 <= d.month <= 12
  {
    DayNumber(d) - EPOCH_DAY_NUMBER
  }

  /** A date the engine supports: valid, and within [0, GRCAL_DAY_MAX]. */
  ghost predicate IsSupportedDate(d: Date) {
    IsValidDate(d) && 0 <= DaysSinceEpoch(d) <= GRCAL_DAY_MAX
  }

  /** Weekday 1 (Monday) to 7 (Sunday); 0001-01-01 of the proleptic
      Gregorian calendar is a Monday. */
  ghost function DayOfWeek(d: Date): int
    requires d.year >= 1 && 1 <= d.month <= 12
  {
    DayNumber(d) % 7 + 1
  }

  /** Chronological order of dates. */
  predicate Before(a: Date, b: Date) {
    a.year < b.year
    || (a.year == b.year && a.month < b.month)
    || (a.year == b.year && a.month == b.month && a.day < b.day)
  }

  /** The number of leap years among the years 1 to n. */
  function LeapsThrough(n: int): int {
    n / 4 - n / 100 + n / 400
  }

  // ---------------------------------------------------------------------
  // Closed forms of the day sums

  /** Going from n - 1 to n, the quotient by k grows exactly when k divides n. */
  lemma QuotientStep(n: int, k: int)
    requires k == 4 || k == 100 || k == 400
    ensures n / k == (n - 1) / k + (if n % k == 0 then 1 else 0)
  {
    var a, b := (n - 1) / k, (n - 1) % k;
    assert n - 1 == k * a + b && 0 <= b < k;
    if b == k - 1 {
      assert n == k * (a + 1);
      assert n / k == a + 1 && n % k == 0;
    } else {
      assert n == k * a + (b + 1);
      assert n / k == a && n % k == b + 1;
    }
  }

  lemma LeapsThroughStep(n: int)
    requires n >= 1
    ensures LeapsThrough(n) == LeapsThrough(n - 1) + (if IsLeapYear(n) then 1 else 0)
  {
    QuotientStep(n, 4);
    QuotientStep(n, 100);
    QuotientStep(n, 400);
    DivisorChain(n);
  }

  /** A multiple of 400 is a multiple of 100, and a multiple of 100 one of 4. */
  lemma DivisorChain(n: int)
    ensures n % 400 == 0 ==> n % 100 == 0
    ensures n % 100 == 0 ==> n % 4 == 0
  {
    if n % 400 == 0 {
      var m := 4 * (n / 400);
      assert n == 100 * m;
      MultipleRemainder(m);
    }
    if n % 100 == 0 {
      var m := 25 * (n / 100);
      assert n == 4 * m;
      MultipleRemainder(m);
    }
  }

  lemma MultipleRemainder(m: int)
    ensures (100 * m) % 100 == 0 && (4 * m) % 4 == 0
  {
  }

  /** The year-by-year sum equals 365 days a year plus one per leap year. */
  lemma {:induction false} DaysBeforeYearClosedForm(year: int)
    requires year >= 1
    ensures DaysBeforeYear(year) == 365 * (year - 1) + LeapsThrough(year - 1)
    decreases year
  {
    if year > 1 {
      DaysBeforeYearClosedForm(year - 1);
      LeapsThroughStep(year - 1);
    }
  }

  lemma DaysBeforeNextYear(year: int)
    requires year >= 1
    ensures DaysBeforeYear(year + 1) == DaysBeforeYear(year) + DaysInYear(year)
  {
  }

  /** The familiar cumulative month table, plus a day after February in leap years. */
  lemma {:induction false} DaysBeforeMonthTable(year: int, month: int)
    requires year >= 1 && 1 <= month <= 13
    ensures DaysBeforeMonth(year, month)
         == [0, 31, 59, 90, 120, 151, 181, 212, 243, 273, 304, 334, 365][month - 1]
            + (if month > 2 && IsLeapYear(year) then 1 else 0)
    decreases month
  {
    if month > 1 {
      DaysBeforeMonthTable(year, month - 1);
    }
  }

  /** The months of a year add up to the year's length. */
  lemma MonthsMakeYear(year: int)
    requires year >= 1
    ensures DaysBeforeMonth(year, 13) == DaysInYear(year)
  {
    DaysBeforeMonthTable(year, 13);
  }

  /** 400 Gregorian years always hold QC_DAYS days. */
  lemma QuadCenturyDays(year: int)
    requires year >= 1
    ensures DaysBeforeYear(year + QC_YEARS) == DaysBeforeYear(year) + QC_DAYS
  {
    DaysBeforeYearClosedForm(year);
    DaysBeforeYearClosedForm(year + QC_YEARS);
    var n := year - 1;
    assert (n + 400) / 4 == n / 4 + 100;
    assert (n + 400) / 100 == n / 100 + 4;
    assert (n + 400) / 400 == n / 400 + 1;
  }

  // ---------------------------------------------------------------------
  // Order

  lemma {:induction false} DaysBeforeMonthMonotone(year: int, m1: int, m2: int)
    requires year >= 1 && 1 <= m1 <= m2 <= 13
    ensures DaysBeforeMonth(year, m1) + (m2 - m1) * 28 <= DaysBeforeMonth(year, m2)
    decreases m2
  {
    if m1 < m2 {
      DaysBeforeMonthMonotone(year, m1, m2 - 1);
    }
  }

  lemma {:induction false} DaysBeforeYearMonotone(y1: int, y2: int)
    requires 1 <= y1 <= y2
    ensures DaysBeforeYear(y1) + (y2 - y1) * 365 <= DaysBeforeYear(y2)
    decreases y2
  {
    if y1 < y2 {
      DaysBeforeYearMonotone(y1, y2 - 1);
    }
  }

  /** A date whose day exists in its month lies inside its year. */
  lemma DayNumberWithinYear(d: Date)
    requires d.year >= 1 && 1 <= d.month <= 12 && 1 <= d.day <= DaysInMonth(d.year, d.month)
    ensures DaysBeforeYear(d.year) <= DayNumber(d) < DaysBeforeYear(d.year + 1)
  {
    DaysBeforeMonthMonotone(d.year, d.month + 1, 13);
    MonthsMakeYear(d.year);
  }

  lemma BeforeMeansSmallerDayNumber(a: Date, b: Date)
    requires a.year >= 1 && 1 <= a.month <= 12 && 1 <= a.day <= DaysInMonth(a.year, a.month)
    requires b.year >= 1 && 1 <= b.month <= 12 && 1 <= b.day
    requires Before(a, b)
    ensures DayNumber(a) < DayNumber(b)
  {
    DaysBeforeMonthMonotone(b.year, 1, b.month);
    if a.year < b.year {
      DayNumberWithinYear(a);
      DaysBeforeYearMonotone(a.year + 1, b.year);
      assert DayNumber(a) < DaysBeforeYear(b.year) <= DayNumber(b);
    } else if a.month < b.month {
      DaysBeforeMonthMonotone(a.year, a.month + 1, b.month);
      assert DaysBeforeMonth(a.year, a.month + 1) == DaysBeforeMonth(a.year, a.month) + DaysInMonth(a.year, a.month);
    }
  }

  /** Day offsets order valid dates exactly as the calendar does. */
  lemma DateOrder(a: Date, b: Date)
    requires IsValidDate(a) && IsValidDate(b)
    ensures Before(a, b) <==> DaysSinceEpoch(a) < DaysSinceEpoch(b)
  {
    if Before(a, b) {
      BeforeMeansSmallerDayNumber(a, b);
    } else if a != b {
      BeforeMeansSmallerDayNumber(b, a);
    }
  }

  /** No two valid dates share a day offset. */
  lemma DateInjective(a: Date, b: Date)
    requires IsValidDate(a) && IsValidDate(b)
    requires DaysSinceEpoch(a) == DaysSinceEpoch(b)
    ensures a == b
  {
    DateOrder(a, b);
    DateOrder(b, a);
  }

  // ---------------------------------------------------------------------
  // Fixed points of the offset system

  /** EPOCH_DAY_NUMBER is the day number of 1582-10-15, so 1582-10-15 is offset 0. */
  lemma EpochDayNumber()
    ensures DayNumber(EPOCH) == EPOCH_DAY_NUMBER
    ensures DaysSinceEpoch(EPOCH) == 0
  {
    DaysBeforeYearClosedForm(1582);
    DaysBeforeMonthTable(1582, 10);
  }

  /** 9999-12-31 is offset GRCAL_DAY_MAX. */
  lemma LastDateIsDayMax()
    ensures IsValidDate(Date(9999, 12, 31))
    ensures DaysSinceEpoch(Date(9999, 12, 31)) == GRCAL_DAY_MAX
  {
    EpochDayNumber();
    DaysBeforeYearClosedForm(9999);
    DaysBeforeMonthTable(9999, 12);
  }

  /** 1970-01-01 is offset GRCAL_DAY_UNIX. */
  lemma UnixEpochIsDayUnix()
    ensures IsValidDate(Date(1970, 1, 1))
    ensures DaysSinceEpoch(Date(1970, 1, 1)) == GRCAL_DAY_UNIX
  {
    EpochDayNumber();
    DaysBeforeYearClosedForm(1970);
  }

  /** Offset zero, 1582-10-15, is a Friday. */
  lemma EpochIsFriday()
    ensures DayOfWeek(EPOCH) == 5
  {
    EpochDayNumber();
  }

  /** Every date of year 10000 or later is past GRCAL_DAY_MAX. */
  lemma NoDateAfterYear9999(d: Date)
    requires d.year > MAX_YEAR && 1 <= d.month <= 12 && d.day >= 1
    ensures DaysSinceEpoch(d) > GRCAL_DAY_MAX
  {
    EpochDayNumber();
    DaysBeforeYearClosedForm(MAX_YEAR + 1);
    DaysBeforeYearMonotone(MAX_YEAR + 1, d.year);
    DaysBeforeMonthMonotone(d.year, 1, d.month);
    assert DaysBeforeYear(MAX_YEAR + 1) <= DayNumber(d);
  }

  /** A valid date is supported exactly when it is not before 1582-10-15. */
  lemma SupportedRange(d: Date)
    requires IsValidDate(d)
    ensures IsSupportedDate(d) <==> !Before(d, EPOCH)
  {
    EpochDayNumber();
    DateOrder(d, EPOCH);
    LastDateIsDayMax();
    DateOrder(Date(9999, 12, 31), d);
  }

  /** 2000 is a leap year of the supported range. */
  lemma LeapDayOf2000()
    ensures IsSupportedDate(Date(2000, 2, 29))
  {
    SupportedRange(Date(2000, 2, 29));
  }

  /** 1900 and 2023 are not leap years, and no month has 32 days. */
  lemma NonexistentDays()
    ensures !IsValidDate(Date(1900, 2, 29)) && !IsValidDate(Date(2023, 2, 29))
    ensures !IsValidDate(Date(9999, 12, 32))
  {
  }

}
