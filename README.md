# grcal in Dafny

A model of grcal, a small proleptic Gregorian calendar engine, together
with the core of its command-line front end, `grcal_query`.

The engine converts between two forms of a date:

- a day offset, where offset 0 is 1582-10-15 (the first Gregorian day)
  and the last offset, `GRCAL_DAY_MAX` = 3074323, is 9999-12-31;
- a (year, month, day) triple.

It also gives the weekday of an offset, from 1 (Monday) to 7 (Sunday).

Internally, both conversions count days from 1200-03-01 and use
March-based years. In a March-based year February is the last month, so
the only month of variable length is the last entry of a twelve-entry
table. The front end parses its arguments with a hand-written int32
parser. It checks the argument count and the value ranges, then calls the
engine.

The project has five modules:

- `Wrappers` (`wrappers.dfy`): the `Option` type.
- `GrcalRules` (`grcal_rules.dfy`): the constants of grcal.h and grcal.c,
  `isLeapYear` and `monthLength`.
- `Calendar` (`calendar.dfy`): an independent reference calendar, written
  the naive way. A date's day number is the sum of the lengths of all
  years and months before it, counted from 0001-01-01. This module also
  holds the order of dates and the fixed points of the offset system.
- `Grcal` (`grcal.dfy`):
  - `grcal_offsetToDate` and `grcal_dateToOffset` as imperative methods
    that follow the C statement by statement;
  - `grcal_weekday` as a function;
  - the lemmas about March-based years and the 400/100/4/1-year cycles
    that tie the engine to the reference calendar.
- `GrcalQuery` (`grcal_query.dfy`):
  - `parseInt` as a loop proved equal to a specification of signed
    decimal numerals;
  - `main` as a method that returns what would be reported and the exit
    status.

The engine is proved against the reference calendar:

- `OffsetToDate` returns the valid date whose day offset is its input.
- `DateToOffset` succeeds exactly on the valid dates from 1582-10-15 to
  9999-12-31, and returns their day offset.
- The round trips in both directions follow from those two facts and
  from `DateInjective`.

## Model

| member | source | states |
|---|---|---|
| GrcalRules.MonthLength | grcal.c:217-246 | for a March-based month index 0..11 the pattern gives 31 or 30 days, and 0 (variable length) exactly at index 11, February |
| Calendar.LeapsThroughStep | grcal.c:175-195 | the count of leap years n/4 - n/100 + n/400 grows by one from n - 1 to n exactly when isLeapYear(n) holds |
| Calendar.DaysBeforeYearClosedForm | grcal.c:85-94 | the year-by-year sum of 365- and 366-day years equals 365 days a year plus one day per leap year |
| Calendar.QuadCenturyDays | grcal.c:70-73 | every span of 400 Gregorian years holds QC_DAYS = 146097 days, wherever it starts |
| Calendar.DateOrder | grcal.h:13-19 | for valid dates, one is before another in the calendar exactly when its day offset is smaller |
| Calendar.DateInjective | grcal.h:50-61 | two valid dates with the same day offset are the same date |
| Calendar.EpochDayNumber | grcal.h:13-14 | 1582-10-15 is day offset 0 |
| Calendar.LastDateIsDayMax | grcal.h:33-39 | 9999-12-31 is a valid date and its day offset is GRCAL_DAY_MAX |
| Calendar.UnixEpochIsDayUnix | grcal.h:41-48 | 1970-01-01 is a valid date and its day offset is GRCAL_DAY_UNIX |
| Calendar.EpochIsFriday | grcal.c:26-32 | 1582-10-15 falls on a Friday in the reference weekday count |
| Calendar.NoDateAfterYear9999 | grcal.c:133-136 | every date in a year after MAX_YEAR lies past GRCAL_DAY_MAX |
| Calendar.SupportedRange | grcal.h:13-19 | a valid date is in the supported range exactly when it is not before 1582-10-15 |
| Calendar.LeapDayOf2000 | grcal.c:175-195 | 2000-02-29 exists and is supported, because 2000 is divisible by 400 |
| Calendar.NonexistentDays | grcal.c:175-195 | 1900-02-29, 2023-02-29 and 9999-12-32 are not valid dates |
| Grcal.DayOffsetIsEpoch | grcal.c:17-24 | shifting day offsets by DAY_OFFSET = 139750 puts internal day zero at 1200-03-01 |
| Grcal.DaysBeforeMarchMonthTable | grcal.c:138-150 | summing the pattern's month lengths gives the cumulative March-based month table |
| Grcal.MonthLengthAgrees | grcal.c:426-448 | the pattern length, or 29/28 by isLeapYear(year + 1) for the last month, is the calendar length of every month of a March-based year |
| Grcal.LeapsThroughCycles | grcal.c:96-124 | a year BASE_YEAR + 400qc + 100c + 4q + y has 97qc + 24c + q more leap years up to it than BASE_YEAR |
| Grcal.MarchYearStart | grcal.c:470-474 | 1 March of March-based year yy is 365(yy - 1200) days plus the leap days in between after 1200-03-01 |
| Grcal.MarchMonthsWithinYear | grcal.c:476-485 | from March to December, the pattern sums agree with the calendar month by month |
| Grcal.WithinMarchYear | grcal.c:476-490 | day dd of month mm of a March-based year lies DaysBeforeMarchMonth(mm) + dd days after its 1 March, across the January wrap-around |
| Grcal.MarchDayFits | grcal.c:326-340 | a day that the month walk leaves in month mm exists in that month of the calendar |
| Grcal.MarchDateInternalDay | grcal.c:457-490 | the internal day of a March-based date is the sum of its cycle counts times the cycle lengths plus the month and day offsets |
| Grcal.MarchDateOffset | grcal.c:457-495 | the same sum minus DAY_OFFSET is the date's day offset |
| Grcal.QuadYearEndsWithLeapDay | grcal.c:300-318 | day 365 of the last year of a quad year exists, except at a century end that is not a quad-century end |
| Grcal.QuotientChain | grcal.c:284-298 | the quotient chain decomposes the shifted offset exactly; c = 4 happens only on the quad-century leap day, and y = 4 only on a quad-year leap day |
| Grcal.YearChain | grcal.c:457-468 | the year chain decomposes the years since BASE_YEAR into in-range cycle counts |
| Grcal.OffsetToDate | grcal.c:258-373 | for an offset in [0, GRCAL_DAY_MAX], the result is a valid date (month 1..12, day within its month) and its day offset is the input |
| Grcal.SupportedAfterBaseYear | grcal.c:395-399 | rejecting years up to BASE_YEAR early loses no supported date |
| Grcal.DateToOffset | grcal.c:378-513 | succeeds exactly for valid dates from 1582-10-15 to 9999-12-31, and then returns the date's day offset |
| Grcal.Weekday | grcal.c:518-533 | the result is in 1..7, and the roll-forward by a week does not change it: it is (offs - 3) mod 7 + 1 |
| Grcal.WeekdayOfDate | grcal.c:518-533 | the weekday of a supported date's offset is the date's weekday in the reference calendar, which counts 0001-01-01 as a Monday |
| Grcal.WeekdaySequence | grcal.h:122-150 | offset 0 is a Friday (5), weekdays repeat every seven days, and each day advances the weekday by one, wrapping from 7 to 1 |
| Grcal.OffsetRoundTrip | grcal.h:50-84 | converting an in-range offset to a date and back gives that offset |
| Grcal.DateRoundTrip | grcal.h:86-120 | for any triple, the date conversion succeeds exactly on supported dates, and converting back gives the same triple |
| Grcal.FixedOffsets | grcal.h:33-48 | among valid dates, only 1582-10-15 has offset 0, only 1970-01-01 has GRCAL_DAY_UNIX and only 9999-12-31 has GRCAL_DAY_MAX |
| Grcal.FixedDates | grcal.h:33-48 | OffsetToDate maps 0, GRCAL_DAY_UNIX and GRCAL_DAY_MAX to 1582-10-15, 1970-01-01 and 9999-12-31 |
| GrcalQuery.Terminated | grcal_query.c:115-121 | the C string held by a character sequence is its longest prefix without a NUL, stopping at the first NUL |
| GrcalQuery.ParseInt | grcal_query.c:90-170 | the parser's result is exactly ParseSpec of the C string: an optional sign and one or more digits whose value is at most INT32_MAX, negated after '-' |
| GrcalQuery.ParseStep | grcal_query.c:121-155 | each loop step extends the numeral read so far, and failing on a non-digit or on overflow means the whole text is rejected |
| GrcalQuery.PrefixValue | grcal_query.c:133-149 | a numeral is worth at least as much as any of its prefixes, so an overflow part way through cannot be recovered |
| GrcalQuery.FormatParseRoundTrip | grcal_query.c:128-169 | every value in [-INT32_MAX, INT32_MAX] parses back from its decimal numeral |
| GrcalQuery.RejectsInt32Min | grcal_query.c:77-78 | "-2147483648", INT32_MIN, is rejected |
| GrcalQuery.RejectsOverflow | grcal_query.c:133-149 | a numeral worth more than INT32_MAX is rejected with no sign, with '+' and with '-' |
| GrcalQuery.RejectsEmpty | grcal_query.c:114-117 | "", "+" and "-" are rejected |
| GrcalQuery.LeadingZeroIgnored | grcal_query.c:128-149 | a leading zero does not change how a numeral parses |
| GrcalQuery.SignedNumerals | grcal_query.c:102-112 | a numeral parses as its value, '+' changes nothing, and '-' negates it |
| GrcalQuery.Query | grcal_query.c:177-322 | the outcome of every argument list: a wrong count; a parse failure per argument; each range check in order; an invalid date; otherwise the date and weekday name, or the offset. The status is 0 exactly on success |
| GrcalQuery.FirstAndLastDayNames | grcal_query.c:51-59 | offsets 0 and GRCAL_DAY_MAX are both reported as "Fri" |

## Left out

- Printing is not modelled. This covers the messages on standard error,
  the program name used in them (`argv[0]`), and the output formats
  `YYYY-MM-DD Www` and `%ld`. `GrcalQuery.Query` returns an `Outcome`
  naming what would be reported.
- Output pointers are replaced by results. `grcal_offsetToDate` returns
  a `Date`, and `grcal_dateToOffset` and `parseInt` return an `Option`.
  So the rule that a NULL pointer skips the write, and the undefined
  result when two output pointers alias, have no counterpart. "Nothing is
  written on failure" becomes `None`.
- `abort()` on an out-of-range parameter becomes a `requires`. This
  covers `isLeapYear`, `monthLength`, `grcal_offsetToDate` and
  `grcal_weekday`. The abort in `monthLength` on a character
  outside the pattern is a dead branch. The NULL checks on `pstr`, `pv`, `argv`
  and `argv[i]`, and the unreachable abort at the end of `main`, are
  pointer plumbing and are left out.
- Arguments are Dafny strings rather than NUL-terminated C strings.
  `Terminated` recovers the C string: the characters up to the first
  NUL.
- C integer widths are not modelled, except for the explicit `INT32_MAX`
  bound in `parseInt`. Dafny's `int` is unbounded.
  - In the engine every intermediate value stays below 2^31. The largest
    is `GRCAL_DAY_MAX + DAY_OFFSET` = 3214073.
  - Every `/` and `%` in the engine has non-negative operands, so
    Dafny's Euclidean division agrees with C's.
- The reference calendar's valid dates have years 1 to 9999 only. The
  engine rejects years up to 1200 and after 9999 before any calendar
  reasoning, so no date it could accept is missing.
- Dates before 1582-10-15 are not given Julian-calendar meaning. The
  reference calendar is proleptic Gregorian throughout, like the engine's
  internal computation.
