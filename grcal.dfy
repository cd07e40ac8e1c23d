/** The calendar engine of grcal.c: conversion from a day offset to a date,
    from a date to a day offset, and from a day offset to a weekday.
    Internally both conversions count days from 1200-03-01 and use
    March-based years, in which February is the last month. */
module Grcal {
  import opened Wrappers
  import opened GrcalRules
  import opened Calendar

  // ---------------------------------------------------------------------
  // The internal coordinates

  /** The internal day count of a date: its day offset shifted by
      DAY_OFFSET, which DayOffsetIsEpoch shows to count from 1200-03-01. */
  ghost function InternalDay(d: Date): int
    requires d.year >= 1 && 1 <= d.month <= 12
  {
    DaysSinceEpoch(d) + DAY_OFFSET
  }

  /** Days from the first of March to the first of the zero-based
      March-based month m, by the month table. */
  ghost function DaysBeforeMarchMonth(m: int): int
    requires 0 <= m < MONTH_COUNT
    decreases m
  {
    if m == 0 then 0 else DaysBeforeMarchMonth(m - 1) + MonthLength(m - 1)
  }

  /** The January-based date of zero-based day dd of zero-based month mm of
      March-based year yy. */
  function FromMarchBased(yy: int, mm: int, dd: int): Date
    requires 0 <= mm < MONTH_COUNT
  {
    if mm + MONTH_OFFSET >= MONTH_COUNT then Date(yy + 1, mm + MONTH_OFFSET - MONTH_COUNT + 1, dd + 1)
    else Date(yy, mm + MONTH_OFFSET + 1, dd + 1)
  }

  /** DAY_OFFSET is 1582-10-15 counted from 1200-03-01: internal day zero
      is 1200-03-01. */
  lemma DayOffsetIsEpoch()
    ensures InternalDay(Date(BASE_YEAR, 3, 1)) == 0
  {
    DaysBeforeYearClosedForm(BASE_YEAR);
    DaysBeforeMonthTable(BASE_YEAR, 3);
  }

  lemma {:induction false} DaysBeforeMarchMonthTable(m: int)
    requires 0 <= m < MONTH_COUNT
    ensures DaysBeforeMarchMonth(m) == [0, 31, 61, 92, 122, 153, 184, 214, 245, 275, 306, 337][m]
    decreases m
  {
    if m > 0 {
      DaysBeforeMarchMonthTable(m - 1);
    }
  }

  /** The month table, with February's length taken from the leap-year
      rule for the January-based year after the March-based year, gives
      every month its calendar length. */
  lemma MonthLengthAgrees(yy: int, mm: int)
    requires yy >= 1 && 0 <= mm < MONTH_COUNT
    ensures var d := FromMarchBased(yy, mm, 0);
      DaysInMonth(d.year, d.month)
      == if MonthLength(mm) == 0 then (if IsLeapYear(yy + 1) then LEAP_MONTH_LENGTH else NONLEAP_MONTH_LENGTH)
         else MonthLength(mm)
  {
  }

  /** The leap years up to a March-based year, counted by cycles. */
  lemma LeapsThroughCycles(qc: int, c: int, q: int, y: int)
    requires qc >= 0 && 0 <= c < QC_C_COUNT && 0 <= q < C_Q_COUNT && 0 <= y < Q_Y_COUNT
    ensures LeapsThrough(BASE_YEAR + qc * QC_YEARS + c * C_YEARS + q * Q_YEARS + y)
         == LeapsThrough(BASE_YEAR) + 97 * qc + 24 * c + q
  {
    var n := BASE_YEAR + qc * QC_YEARS + c * C_YEARS + q * Q_YEARS + y;
    assert n == 4 * (300 + 100 * qc + 25 * c + q) + y;
    assert n / 4 == 300 + 100 * qc + 25 * c + q;
    assert n == 100 * (12 + 4 * qc + c) + 4 * q + y;
    assert n / 100 == 12 + 4 * qc + c;
    assert n == 400 * (3 + qc) + 100 * c + 4 * q + y;
    assert n / 400 == 3 + qc;
  }

  /** Days from 1200-03-01 to the first of March of a March-based year. */
  lemma MarchYearStart(yy: int)
    requires yy >= BASE_YEAR
    ensures InternalDay(Date(yy, 3, 1)) == 365 * (yy - BASE_YEAR) + LeapsThrough(yy) - LeapsThrough(BASE_YEAR)
  {
    DaysBeforeYearClosedForm(yy);
    LeapsThroughStep(yy);
    DaysBeforeMonthTable(yy, 3);
  }

  /** From March to December the month table and the calendar agree month by
      month; month mm + 3 of 13 stands for the end of the year. */
  lemma {:induction false} MarchMonthsWithinYear(yy: int, mm: int)
    requires yy >= 1 && 0 <= mm <= 10
    ensures DaysBeforeMonth(yy, mm + 3) == DaysBeforeMonth(yy, 3) + DaysBeforeMarchMonth(mm)
    decreases mm
  {
    if mm > 0 {
      MarchMonthsWithinYear(yy, mm - 1);
      assert DaysInMonth(yy, mm + 2) == MonthLength(mm - 1);
    }
  }

  /** Days from the first of March of a March-based year to a day in it. */
  lemma WithinMarchYear(yy: int, mm: int, dd: int)
    requires yy >= BASE_YEAR && 0 <= mm < MONTH_COUNT
    ensures InternalDay(FromMarchBased(yy, mm, dd)) == InternalDay(Date(yy, 3, 1)) + DaysBeforeMarchMonth(mm) + dd
  {
    var d := FromMarchBased(yy, mm, dd);
    assert DayNumber(Date(yy, 3, 1)) == DaysBeforeYear(yy) + DaysBeforeMonth(yy, 3);
    if mm + MONTH_OFFSET >= MONTH_COUNT {
      MarchMonthsWithinYear(yy, 10);
      MonthsMakeYear(yy);
      DaysBeforeNextYear(yy);
      var janFeb := if mm == 10 then 0 else 31;
      assert DaysBeforeMonth(yy + 1, d.month) == janFeb;
      assert DaysBeforeMarchMonth(mm) == DaysBeforeMarchMonth(10) + janFeb;
      assert DayNumber(d) == DaysBeforeYear(yy) + DaysInYear(yy) + janFeb + dd;
    } else {
      MarchMonthsWithinYear(yy, mm);
      assert DayNumber(d) == DaysBeforeYear(yy) + DaysBeforeMonth(yy, mm + 3) + dd;
    }
  }

  /** A day of a March-based year that the month walk places in month mm
      exists in that month. */
  lemma MarchDayFits(yy: int, mm: int, dd: int)
    requires yy >= 1 && 0 <= mm < MONTH_COUNT && 0 <= dd
    requires DaysBeforeMarchMonth(mm) + dd < Y_DAYS + (if IsLeapYear(yy + 1) then 1 else 0)
    requires MonthLength(mm) == 0 || dd < MonthLength(mm)
    ensures var d := FromMarchBased(yy, mm, dd); d.day <= DaysInMonth(d.year, d.month)
  {
    DaysBeforeMarchMonthTable(mm);
    MonthLengthAgrees(yy, mm);
  }

  /** The cycle decomposition used by both conversions: the internal day of
      a March-based date whose year is BASE_YEAR plus qc quad centuries, c
      centuries, q quad years and y years. */
  lemma MarchDateInternalDay(qc: int, c: int, q: int, y: int, mm: int, dd: int)
    requires qc >= 0 && 0 <= c < QC_C_COUNT && 0 <= q < C_Q_COUNT && 0 <= y < Q_Y_COUNT
    requires 0 <= mm < MONTH_COUNT
    ensures InternalDay(FromMarchBased(BASE_YEAR + qc * QC_YEARS + c * C_YEARS + q * Q_YEARS + y, mm, dd))
         == qc * QC_DAYS + c * C_DAYS + q * Q_DAYS + y * Y_DAYS + DaysBeforeMarchMonth(mm) + dd
  {
    var yy := BASE_YEAR + qc * QC_YEARS + c * C_YEARS + q * Q_YEARS + y;
    LeapsThroughCycles(qc, c, q, y);
    MarchYearStart(yy);
    WithinMarchYear(yy, mm, dd);
  }

  /** The same decomposition, seen from 1582-10-15. */
  lemma MarchDateOffset(qc: int, c: int, q: int, y: int, yy: int, mm: int, dd: int)
    requires qc >= 0 && 0 <= c < QC_C_COUNT && 0 <= q < C_Q_COUNT && 0 <= y < Q_Y_COUNT
    requires yy == BASE_YEAR + qc * QC_YEARS + c * C_YEARS + q * Q_YEARS + y
    requires 0 <= mm < MONTH_COUNT
    ensures DaysSinceEpoch(FromMarchBased(yy, mm, dd))
         == qc * QC_DAYS + c * C_DAYS + q * Q_DAYS + y * Y_DAYS + DaysBeforeMarchMonth(mm) + dd - DAY_OFFSET
  {
    MarchDateInternalDay(qc, c, q, y, mm, dd);
  }

  /** The last March-based year of a quad year ends with a leap day,
      except at the end of a century that does not end a quad century. */
  lemma QuadYearEndsWithLeapDay(qc: int, c: int, q: int)
    requires qc >= 0 && 0 <= c < QC_C_COUNT && 0 <= q < C_Q_COUNT
    requires q < C_Q_COUNT - 1 || c == QC_C_COUNT - 1
    ensures IsLeapYear(BASE_YEAR + qc * QC_YEARS + c * C_YEARS + q * Q_YEARS + (Q_Y_COUNT - 1) + 1)
  {
    var n := BASE_YEAR + qc * QC_YEARS + c * C_YEARS + q * Q_YEARS + Q_Y_COUNT;
    assert n == 4 * (301 + 100 * qc + 25 * c + q);
    if q < C_Q_COUNT - 1 {
      assert n == 100 * (12 + 4 * qc + c) + 4 * (q + 1);
    } else {
      assert n == 400 * (4 + qc);
    }
  }

  /** What the chain of quotients and remainders leaves: at most 4
      centuries and at most 4 years, each only on the leap day that ends
      the cycle. */
  lemma QuotientChain(n: int, qc: int, c: int, q: int, y: int, d: int)
    requires n >= 0
    requires qc == n / QC_DAYS && c == n % QC_DAYS / C_DAYS
    requires q == n % QC_DAYS % C_DAYS / Q_DAYS && y == n % QC_DAYS % C_DAYS % Q_DAYS / Y_DAYS
    requires d == n % QC_DAYS % C_DAYS % Q_DAYS % Y_DAYS
    ensures n == qc * QC_DAYS + c * C_DAYS + q * Q_DAYS + y * Y_DAYS + d
    ensures qc >= 0 && 0 <= c <= QC_C_COUNT && 0 <= q < C_Q_COUNT && 0 <= y <= Q_Y_COUNT && 0 <= d < Y_DAYS
    ensures c == QC_C_COUNT ==> q == 0 && y == 0 && d == 0
    ensures y == Q_Y_COUNT ==> d == 0 && c < QC_C_COUNT && q < C_Q_COUNT - 1
  {
  }

  /** The split of a year count into quad centuries, centuries, quad years
      and years. */
  lemma YearChain(t: int, qc: int, c: int, q: int, y: int)
    requires t >= 0
    requires qc == t / QC_YEARS && c == t % QC_YEARS / C_YEARS
    requires q == t % QC_YEARS % C_YEARS / Q_YEARS && y == t % QC_YEARS % C_YEARS % Q_YEARS
    ensures t == qc * QC_YEARS + c * C_YEARS + q * Q_YEARS + y
    ensures qc >= 0 && 0 <= c < QC_C_COUNT && 0 <= q < C_Q_COUNT && 0 <= y < Q_Y_COUNT
  {
  }

  // ---------------------------------------------------------------------
  // grcal_offsetToDate

  /** The date of a day offset: the one valid date that lies offs days
      after 1582-10-15. */
  method OffsetToDate(offs0: int) returns (date: Date)
    requires 0 <= offs0 <= GRCAL_DAY_MAX
    ensures IsValidDate(date)
    ensures DaysSinceEpoch(date) == offs0
  {
    // Day zero becomes 1200-03-01
    var offs := offs0 + DAY_OFFSET;

    var qc := offs / QC_DAYS;
    offs := offs % QC_DAYS;
    var c := offs / C_DAYS;
    offs := offs % C_DAYS;
    var q := offs / Q_DAYS;
    offs := offs % Q_DAYS;
    var y := offs / Y_DAYS;
    offs := offs % Y_DAYS;
    var d := offs;
    QuotientChain(offs0 + DAY_OFFSET, qc, c, q, y, d);

    // The leap day that ends a quad century
    if c == QC_C_COUNT {
      c := QC_C_COUNT - 1;
      q := C_Q_COUNT - 1;
      y := Q_Y_COUNT - 1;
      d := Y_LEAP_DAYS - 1;
    }
    // The leap day that ends a quad year
    if y == Q_Y_COUNT {
      y := Q_Y_COUNT - 1;
      d := Y_LEAP_DAYS - 1;
    }
    assert 0 <= c < QC_C_COUNT && 0 <= q < C_Q_COUNT && 0 <= y < Q_Y_COUNT;
    assert offs0 + DAY_OFFSET == qc * QC_DAYS + c * C_DAYS + q * Q_DAYS + y * Y_DAYS + d;
    assert 0 <= d < Y_LEAP_DAYS;
    assert d == Y_LEAP_DAYS - 1 ==> y == Q_Y_COUNT - 1 && (q < C_Q_COUNT - 1 || c == QC_C_COUNT - 1);

    // The March-based year
    var year := qc * QC_YEARS + c * C_YEARS + q * Q_YEARS + y + BASE_YEAR;
    if d == Y_LEAP_DAYS - 1 {
      QuadYearEndsWithLeapDay(qc, c, q);
    }
    assert d < Y_DAYS + (if IsLeapYear(year + 1) then 1 else 0);

    // The March-based month
    ghost var dayOfYear := d;
    var month := 0;
    while d > 0
      invariant 0 <= month < MONTH_COUNT && 0 <= d
      invariant dayOfYear == DaysBeforeMarchMonth(month) + d
      decreases d
    {
      var ml := MonthLength(month);
      if ml == 0 || d < ml {
        break;
      }
      month := month + 1;
      d := d - ml;
    }
    ghost var marchDate := FromMarchBased(year, month, d);
    assert MonthLength(month) == 0 || d < MonthLength(month);
    MarchDayFits(year, month, d);
    MarchDateOffset(qc, c, q, y, year, month, d);
    assert DaysSinceEpoch(marchDate) == offs0;
    if marchDate.year > MAX_YEAR {
      NoDateAfterYear9999(marchDate);
    }
    assert IsValidDate(marchDate);

    // Back to January-based, one-based months and days
    var day := d + 1;
    month := month + MONTH_OFFSET;
    if month >= MONTH_COUNT {
      month := month - MONTH_COUNT;
      year := year + 1;
    }
    month := month + 1;
    date := Date(year, month, day);
    assert date == marchDate;
  }

  // ---------------------------------------------------------------------
  // grcal_dateToOffset

  /** A supported date lies after BASE_YEAR, so the support check can wait
      until the date is known to exist and its offset is computed. */
  lemma SupportedAfterBaseYear(d: Date)
    ensures IsSupportedDate(d) <==> BASE_YEAR < d.year && IsValidDate(d) && 0 <= DaysSinceEpoch(d) <= GRCAL_DAY_MAX
  {
    if IsValidDate(d) && d.year <= BASE_YEAR {
      SupportedRange(d);
    }
  }

  /** The day offset of a date, or None when the date is not valid or not
      within the supported range; nothing is produced on failure. */
  method DateToOffset(year0: int, month0: int, dayOfMonth0: int) returns (r: Option<int>)
    ensures r.Some? <==> IsSupportedDate(Date(year0, month0, dayOfMonth0))
    ensures r.Some? ==> r.value == DaysSinceEpoch(Date(year0, month0, dayOfMonth0))
  {
    ghost var date := Date(year0, month0, dayOfMonth0);
    var year, month, dayofmonth := year0, month0, dayOfMonth0;
    var result := true;
    var monthLen := 0;

    if year <= BASE_YEAR || month < 1 || dayofmonth < 1 {
      result := false;
    }
    if result {
      if year > MAX_YEAR || month > MONTH_COUNT {
        result := false;
      }
    }

    assert result <==> BASE_YEAR < year0 <= MAX_YEAR && 1 <= month0 <= MONTH_COUNT && dayOfMonth0 >= 1;

    // Zero-based day of month
    if result {
      dayofmonth := dayofmonth - 1;
    }

    // March-based year and zero-based month
    if result {
      month := month - 1 - MONTH_OFFSET;
      if month < 0 {
        year := year - 1;
        month := month + MONTH_COUNT;
      }
      assert FromMarchBased(year, month, dayofmonth) == date;
    }

    // The length of the month, February by the leap-year rule
    if result {
      monthLen := MonthLength(month);
      if monthLen == 0 {
        if IsLeapYear(year + 1) {
          monthLen := LEAP_MONTH_LENGTH;
        } else {
          monthLen := NONLEAP_MONTH_LENGTH;
        }
      }
      MonthLengthAgrees(year, month);
      if dayofmonth >= monthLen {
        result := false;
      }
    }
    ghost var marchYear := year;
    assert result <==> BASE_YEAR < year0 && IsValidDate(date);
    assert result ==> FromMarchBased(marchYear, month, dayofmonth) == date && 0 <= month < MONTH_COUNT;

    // Years since BASE_YEAR, split into cycles
    if result {
      year := year - BASE_YEAR;
    }
    var qc, c, q, y := 0, 0, 0, 0;
    if result {
      qc := year / QC_YEARS;
      year := year % QC_YEARS;
      c := year / C_YEARS;
      year := year % C_YEARS;
      q := year / Q_YEARS;
      y := year % Q_YEARS;
      YearChain(marchYear - BASE_YEAR, qc, c, q, y);
    }

    // Days from 1200-03-01 to the start of the year
    var offs := 0;
    if result {
      offs := qc * QC_DAYS + c * C_DAYS + q * Q_DAYS + y * Y_DAYS;
    }

    // Days to the start of the month
    if result {
      ghost var yearStart := offs;
      for x := 0 to month
        invariant offs == yearStart + DaysBeforeMarchMonth(x)
      {
        offs := offs + MonthLength(x);
      }
    }

    assert result ==> offs == qc * QC_DAYS + c * C_DAYS + q * Q_DAYS + y * Y_DAYS + DaysBeforeMarchMonth(month);

    // The day within the month, then day zero back to 1582-10-15
    if result {
      offs := offs + dayofmonth;
    }
    if result {
      offs := offs - DAY_OFFSET;
      MarchDateOffset(qc, c, q, y, marchYear, month, dayofmonth);
    }
    assert result ==> IsValidDate(date) && offs == DaysSinceEpoch(date);
    SupportedAfterBaseYear(date);

    if result {
      if offs < 0 || offs > GRCAL_DAY_MAX {
        result := false;
      }
    }

    if result {
      r := Some(offs);
    } else {
      r := None;
    }
  }

  // ---------------------------------------------------------------------
  // grcal_weekday

  /** The weekday of a day offset, 1 for Monday to 7 for Sunday; the
      roll-forward keeps the operand of the modulo non-negative without
      changing the result. */
  function Weekday(offs0: int): (wd: int)
    requires 0 <= offs0 <= GRCAL_DAY_MAX
    ensures 1 <= wd <= WEEK_LENGTH
    ensures wd == (offs0 - FIRST_MONDAY) % WEEK_LENGTH + 1
  {
    var offs := if offs0 < FIRST_MONDAY then offs0 + WEEK_LENGTH else offs0;
    (offs - FIRST_MONDAY) % WEEK_LENGTH + 1
  }

  /** Weekday gives every supported date its calendar weekday. */
  lemma WeekdayOfDate(d: Date)
    requires IsSupportedDate(d)
    ensures Weekday(DaysSinceEpoch(d)) == DayOfWeek(d)
  {
    EpochDayNumber();
    var o := DaysSinceEpoch(d);
    WholeWeeks(o - FIRST_MONDAY);
    assert DayOfWeek(d) == (o - FIRST_MONDAY + 7 * 82534) % WEEK_LENGTH + 1;
  }

  /** Shifting a day by 82534 whole weeks keeps its weekday. */
  lemma WholeWeeks(x: int)
    ensures (x + 7 * 82534) % WEEK_LENGTH == x % WEEK_LENGTH
  {
    assert x + 7 * 82534 == 7 * (x / 7 + 82534) + x % 7;
  }

  /** Offset zero is a Friday, and the weekday repeats every seven days
      and advances by one each day. */
  lemma WeekdaySequence(offs: int)
    requires 0 <= offs && offs + WEEK_LENGTH <= GRCAL_DAY_MAX
    ensures Weekday(0) == 5
    ensures Weekday(offs + WEEK_LENGTH) == Weekday(offs)
    ensures Weekday(offs + 1) == Weekday(offs) % WEEK_LENGTH + 1
  {
  }

  // ---------------------------------------------------------------------
  // The round-trip laws of the two conversions

  /** Converting an offset to a date and back gives the offset. */
  method OffsetRoundTrip(offs: int) returns (back: Option<int>)
    requires 0 <= offs <= GRCAL_DAY_MAX
    ensures back == Some(offs)
  {
    var date := OffsetToDate(offs);
    back := DateToOffset(date.year, date.month, date.day);
  }

  /** Converting an accepted date to an offset and back gives the date. */
  method DateRoundTrip(year: int, month: int, day: int) returns (back: Option<Date>)
    ensures back.Some? <==> IsSupportedDate(Date(year, month, day))
    ensures back.Some? ==> back.value == Date(year, month, day)
  {
    var offs := DateToOffset(year, month, day);
    if offs.Some? {
      var date := OffsetToDate(offs.value);
      DateInjective(date, Date(year, month, day));
      back := Some(date);
    } else {
      back := None;
    }
  }

  /** The dates of the fixed offsets: 0, GRCAL_DAY_UNIX and GRCAL_DAY_MAX. */
  lemma FixedOffsets(d: Date)
    requires IsValidDate(d)
    ensures DaysSinceEpoch(d) == 0 <==> d == EPOCH
    ensures DaysSinceEpoch(d) == GRCAL_DAY_UNIX <==> d == Date(1970, 1, 1)
    ensures DaysSinceEpoch(d) == GRCAL_DAY_MAX <==> d == Date(9999, 12, 31)
  {
    EpochDayNumber();
    UnixEpochIsDayUnix();
    LastDateIsDayMax();
    if DaysSinceEpoch(d) == 0 {
      DateInjective(d, EPOCH);
    }
    if DaysSinceEpoch(d) == GRCAL_DAY_UNIX {
      DateInjective(d, Date(1970, 1, 1));
    }
    if DaysSinceEpoch(d) == GRCAL_DAY_MAX {
      DateInjective(d, Date(9999, 12, 31));
    }
  }

  /** The conversions at the fixed offsets: 0 is 1582-10-15,
      GRCAL_DAY_UNIX is 1970-01-01 and GRCAL_DAY_MAX is 9999-12-31. */
  method FixedDates() returns (first: Date, unix: Date, last: Date)
    ensures first == EPOCH && unix == Date(1970, 1, 1) && last == Date(9999, 12, 31)
  {
    first := OffsetToDate(0);
    unix := OffsetToDate(GRCAL_DAY_UNIX);
    last := OffsetToDate(GRCAL_DAY_MAX);
    FixedOffsets(first);
    FixedOffsets(unix);
    FixedOffsets(last);
  }

}
