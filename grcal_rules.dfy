/** The constants of grcal.h and grcal.c, and the two static helpers of
    grcal.c: the Gregorian leap-year rule and the March-based month table. */
module GrcalRules {

  /** The largest supported day offset; it is 9999-12-31. */
  const GRCAL_DAY_MAX: int := 3074323

  /** The day offset of the Unix epoch, 1970-01-01. */
  const GRCAL_DAY_UNIX: int := 141427

  /** The day offset of 1582-10-15 when day zero is 1200-03-01. */
  const DAY_OFFSET: int := 139750

  /** The day offset of the first Monday; offset zero is a Friday. */
  const FIRST_MONDAY: int := 3

  const WEEK_LENGTH: int := 7
  const MONTH_COUNT: int := 12

  /** How many months March-based years are shifted from January-based ones. */
  const MONTH_OFFSET: int := 2

  const LONG_MONTH_LENGTH: int := 31
  const SHORT_MONTH_LENGTH: int := 30
  const LEAP_MONTH_LENGTH: int := 29
  const NONLEAP_MONTH_LENGTH: int := 28

  /** Days in an aligned quad century, century, quad year and plain year. */
  const QC_DAYS: int := 146097
  const C_DAYS: int := 36524
  const Q_DAYS: int := 1461
  const Y_DAYS: int := 365
  const Y_LEAP_DAYS: int := 366

  const QC_C_COUNT: int := 4
  const C_Q_COUNT: int := 25
  const Q_Y_COUNT: int := 4

  const QC_YEARS: int := 400
  const C_YEARS: int := 100
  const Q_YEARS: int := 4

  /** The (March-based) year of internal day zero, 1200-03-01. */
  const BASE_YEAR: int := 1200

  /** The last supported year. */
  const MAX_YEAR: int := 9999

  /** March-based month lengths: '+' is 31 days, '-' is 30 days and '*'
      is the variable-length month (February), which comes last. */
  const M_PATTERN: string := "+-+-++-+-++*"

  /** Whether a January-based year is a Gregorian leap year; a year below
      one is a fault of the caller. */
  function IsLeapYear(y: int): bool
    requires y >= 1
  {
    y % 400 == 0 || (y % 4 == 0 && y % 100 != 0)
  }

  /** The length of the zero-based, March-based month i (0 is March), or
      zero for the variable-length month. */
  function MonthLength(i: int): (len: int)
    requires 0 <= i < MONTH_COUNT
    ensures len == 0 <==> i == MONTH_COUNT - 1
    ensures len != 0 ==> len == LONG_MONTH_LENGTH || len == SHORT_MONTH_LENGTH
  {
    var c := M_PATTERN[i];
    if c == '+' then LONG_MONTH_LENGTH
    else if c == '-' then SHORT_MONTH_LENGTH
    else if c == '*' then 0
    else assert false; 0
  }

}
