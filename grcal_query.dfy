/** The grcal_query program: its integer parser, and the way its entry
    point checks the argument count and the ranges before calling the
    engine in module Grcal. Printing is left out; each run ends in an
    Outcome that says what would be reported. */
module GrcalQuery {
  import opened Wrappers
  import opened GrcalRules
  import opened Calendar
  import opened Grcal

  const INT32_MAX: int := 0x7FFF_FFFF

  /** The terminating character of a C string. */
  const NUL: char := '\0'

  /** Three-letter weekday names, starting with Monday. */
  const DAY_NAMES: seq<string> := ["Mon", "Tue", "Wed", "Thu", "Fri", "Sat", "Sun"]

  // ---------------------------------------------------------------------
  // The text of a C string

  /** The character at position i, reading past the end as the terminator. */
  function At(s: string, i: int): char {
    if 0 <= i < |s| then s[i] else NUL
  }

  /** The C string that s holds: its characters up to the first terminator. */
  function Terminated(s: string): (t: string)
    ensures |t| <= |s| && t == s[..|t|]
    ensures forall i :: 0 <= i < |t| ==> t[i] != NUL
    ensures |t| < |s| ==> s[|t|] == NUL
  {
    if |s| == 0 || s[0] == NUL then [] else [s[0]] + Terminated(s[1..])
  }

  // ---------------------------------------------------------------------
  // Decimal numerals

  predicate IsDigit(c: char) {
    '0' <= c <= '9'
  }

  predicate AllDigits(ds: string) {
    forall i :: 0 <= i < |ds| ==> IsDigit(ds[i])
  }

  function DigitValue(c: char): int {
    c as int - '0' as int
  }

  /** The value of a numeral, most significant digit first. */
  function DecimalValue(ds: string): nat
    requires AllDigits(ds)
  {
    if |ds| == 0 then 0 else 10 * DecimalValue(ds[..|ds| - 1]) + DigitValue(ds[|ds| - 1])
  }

  /** What parseInt accepts: an optional sign, then one or more decimal
      digits whose value is at most INT32_MAX. */
  function ParseSpec(t: string): Option<int> {
    var negative := |t| > 0 && t[0] == '-';
    var body := if |t| > 0 && (t[0] == '+' || t[0] == '-') then t[1..] else t;
    if |body| == 0 || !AllDigits(body) then None
    else
      var v: int := DecimalValue(body);
      if v > INT32_MAX then None
      else if negative then Some(-v)
      else Some(v)
  }

  /** The decimal numeral of a natural number, without leading zeros. */
  function Digits(n: nat): string
    decreases n
  {
    (if n < 10 then [] else Digits(n / 10)) + ['0' + (n % 10) as char]
  }

  /** The numeral of an integer, with a '-' when it is negative. */
  function FormatInt(v: int): string {
    if v < 0 then "-" + Digits(-v) else Digits(v)
  }

  // ---------------------------------------------------------------------
  // parseInt

  /** parseInt: the value of the C string s, or None when it is not an
      optionally signed numeral in the range of int32 other than
      INT32_MIN. */
  method ParseInt(s: string) returns (r: Option<int>)
    ensures r == ParseSpec(Terminated(s))
  {
    ghost var t := Terminated(s);
    var negflag := false;
    var result := 0;
    var status := true;
    var d := 0;
    var p := 0;

    // An optional sign character
    if At(s, p) == '+' {
      negflag := false;
      p := p + 1;
    } else if At(s, p) == '-' {
      negflag := true;
      p := p + 1;
    } else {
      negflag := false;
    }
    ghost var start := p;
    ghost var body := t[start..];
    TerminatorAt(s, start);
    assert negflag <==> |t| > 0 && t[0] == '-';
    assert body == if |t| > 0 && (t[0] == '+' || t[0] == '-') then t[1..] else t;

    // At least one digit
    if At(s, p) == NUL {
      status := false;
    }

    // All the digits, watching for overflow
    if status {
      while At(s, p) != NUL
        invariant start <= p <= |t|
        invariant status
        invariant AllDigits(t[start..p]) && result == DecimalValue(t[start..p]) <= INT32_MAX
        decreases |s| - p
      {
        TerminatorAt(s, p);
        var c := At(s, p);
        if c < '0' || c > '9' {
          status := false;
        }
        if status {
          d := DigitValue(c);
        }
        ghost var before := result;
        if status {
          if result <= INT32_MAX / 10 {
            result := result * 10;
          } else {
            status := false;
          }
        }
        if status {
          if result <= INT32_MAX - d {
            result := result + d;
          } else {
            status := false;
          }
        }
        ParseStep(t, start, p, before);
        if !status {
          assert !IsDigit(c) || 10 * before + DigitValue(c) > INT32_MAX;
          break;
        }
        p := p + 1;
      }
      if status {
        TerminatorAt(s, p);
        assert t[start..p] == body;
      }
    }

    if status && negflag {
      result := -result;
    }

    if status {
      r := Some(result);
    } else {
      r := None;
    }
  }

  /** One step of the digit loop: the next character extends the numeral
      read so far, or shows that the whole text after the sign is not an
      acceptable numeral. */
  lemma ParseStep(t: string, start: int, p: int, value: int)
    requires 0 <= start <= p < |t|
    requires AllDigits(t[start..p]) && value == DecimalValue(t[start..p])
    ensures IsDigit(t[p]) ==> AllDigits(t[start..p + 1]) && DecimalValue(t[start..p + 1]) == 10 * value + DigitValue(t[p])
    ensures !IsDigit(t[p]) || 10 * value + DigitValue(t[p]) > INT32_MAX ==>
      !AllDigits(t[start..]) || DecimalValue(t[start..]) > INT32_MAX
  {
    assert t[start..p] + [t[p]] == t[start..p + 1];
    if IsDigit(t[p]) {
      AppendDigit(t[start..p], t[p]);
    }
    var body := t[start..];
    if AllDigits(body) {
      assert body[..p + 1 - start] == t[start..p + 1];
      PrefixValue(body, p + 1 - start);
    } else {
      assert !IsDigit(t[p]) ==> !IsDigit(body[p - start]);
    }
  }

  /** Appending a digit to a numeral multiplies its value by ten and adds the digit. */
  lemma AppendDigit(ds: string, c: char)
    requires AllDigits(ds) && IsDigit(c)
    ensures AllDigits(ds + [c]) && DecimalValue(ds + [c]) == 10 * DecimalValue(ds) + DigitValue(c)
  {
    assert (ds + [c])[..|ds|] == ds;
  }

  /** Within the C string s, the terminator is met exactly at its end. */
  lemma TerminatorAt(s: string, p: int)
    requires 0 <= p <= |Terminated(s)|
    ensures At(s, p) == NUL <==> p == |Terminated(s)|
    ensures p < |Terminated(s)| ==> At(s, p) == Terminated(s)[p]
  {
  }

  /** A numeral is worth at least as much as any of its prefixes. */
  lemma {:induction false} PrefixValue(ds: string, k: int)
    requires AllDigits(ds) && 0 <= k <= |ds|
    ensures DecimalValue(ds[..k]) <= DecimalValue(ds)
    decreases |ds| - k
  {
    if k < |ds| {
      PrefixValue(ds, k + 1);
      assert ds[..k] + [ds[k]] == ds[..k + 1];
      AppendDigit(ds[..k], ds[k]);
    } else {
      assert ds[..k] == ds;
    }
  }

  // ---------------------------------------------------------------------
  // Properties of the parser

  lemma {:induction false} DigitsAreDigits(n: nat)
    ensures |Digits(n)| > 0 && AllDigits(Digits(n))
    ensures DecimalValue(Digits(n)) == n
    decreases n
  {
    var ds := Digits(n);
    if n >= 10 {
      DigitsAreDigits(n / 10);
    }
    assert ds[..|ds| - 1] == (if n < 10 then [] else Digits(n / 10));
  }

  /** Every int32 value other than INT32_MIN parses back from its numeral. */
  lemma FormatParseRoundTrip(v: int)
    requires -INT32_MAX <= v <= INT32_MAX
    ensures Terminated(FormatInt(v)) == FormatInt(v)
    ensures ParseSpec(FormatInt(v)) == Some(v)
  {
    var n: nat := if v < 0 then -v else v;
    DigitsAreDigits(n);
    var t := FormatInt(v);
    var ds := Digits(n);
    SignedNumerals(ds);
    WholeString(ds);
    if v < 0 {
      assert t[1..] == ds;
    }
  }

  /** A numeral holds no terminator, so it is its own C string. */
  lemma {:induction false} WholeString(s: string)
    requires AllDigits(s)
    ensures Terminated(s) == s
    decreases |s|
  {
    if |s| > 0 {
      assert IsDigit(s[0]);
      WholeString(s[1..]);
    }
  }

  /** INT32_MIN, -2147483648, is not accepted. */
  lemma RejectsInt32Min()
    ensures ParseSpec(FormatInt(-INT32_MAX - 1)) == None
  {
    DigitsAreDigits(INT32_MAX + 1);
  }

  /** Any numeral worth more than INT32_MAX is rejected, whatever its sign. */
  lemma RejectsOverflow(sign: string, ds: string)
    requires sign == "" || sign == "+" || sign == "-"
    requires |ds| > 0 && AllDigits(ds) && DecimalValue(ds) > INT32_MAX
    ensures ParseSpec(sign + ds) == None
  {
    assert (sign + ds)[|sign|..] == ds;
  }

  /** The empty string and a lone sign are rejected. */
  lemma RejectsEmpty()
    ensures ParseSpec("") == None && ParseSpec("+") == None && ParseSpec("-") == None
  {
  }

  /** A leading zero does not change the value of a numeral. */
  lemma {:induction false} LeadingZeroValue(ds: string)
    requires AllDigits(ds)
    ensures AllDigits("0" + ds) && DecimalValue("0" + ds) == DecimalValue(ds)
    decreases |ds|
  {
    if |ds| > 0 {
      LeadingZeroValue(ds[..|ds| - 1]);
      assert ("0" + ds)[..|ds|] == "0" + ds[..|ds| - 1];
    }
  }

  /** Leading zeros are ignored: "007" parses as "7". */
  lemma LeadingZeroIgnored(ds: string)
    requires |ds| > 0 && AllDigits(ds)
    ensures ParseSpec("0" + ds) == ParseSpec(ds)
  {
    LeadingZeroValue(ds);
  }

  /** A numeral is read as its value; '+' changes nothing and '-' negates it. */
  lemma SignedNumerals(ds: string)
    requires |ds| > 0 && AllDigits(ds)
    ensures ParseSpec(ds) == if DecimalValue(ds) > INT32_MAX then None else Some(DecimalValue(ds))
    ensures ParseSpec("+" + ds) == ParseSpec(ds)
    ensures ParseSpec("-" + ds) == if DecimalValue(ds) > INT32_MAX then None else Some(0 - DecimalValue(ds))
  {
    assert IsDigit(ds[0]);
    assert ("+" + ds)[1..] == ds;
    assert ("-" + ds)[1..] == ds;
  }

  // ---------------------------------------------------------------------
  // The program entry point

  /** Why a run failed; each stands for one message on standard error. */
  datatype Failure =
    | WrongArgCount
    | BadOffset | OffsetOutOfRange
    | BadYear | BadMonth | BadDay
    | YearOutOfRange | MonthOutOfRange | DayOutOfRange
    | InvalidDate

  /** What a run reports: a date with its weekday name, a day offset, or
      a failure. */
  datatype Outcome =
    | Converted(date: Date, dayName: string)
    | Encoded(offs: int)
    | Failed(failure: Failure)

  /** The entry point, given the arguments after the program name; status
      is the process exit status, 0 on success and 1 on failure. */
  method Query(args: seq<string>) returns (outcome: Outcome, status: int)
    ensures status == (if outcome.Failed? then 1 else 0)
    ensures |args| != 1 && |args| != 3 ==> outcome == Failed(WrongArgCount)
    ensures |args| == 1 ==>
      match ParseSpec(Terminated(args[0]))
      case None => outcome == Failed(BadOffset)
      case Some(v) =>
        if v < 0 || v > GRCAL_DAY_MAX then outcome == Failed(OffsetOutOfRange)
        else (outcome.Converted? && IsValidDate(outcome.date) && DaysSinceEpoch(outcome.date) == v
              && outcome.dayName == DAY_NAMES[DayOfWeek(outcome.date) - 1])
    ensures |args| == 3 ==>
      var year, month, day := ParseSpec(Terminated(args[0])), ParseSpec(Terminated(args[1])), ParseSpec(Terminated(args[2]));
      if year.None? then outcome == Failed(BadYear)
      else if month.None? then outcome == Failed(BadMonth)
      else if day.None? then outcome == Failed(BadDay)
      else if year.value < 0 || year.value > MAX_YEAR then outcome == Failed(YearOutOfRange)
      else if month.value < 1 || month.value > MONTH_COUNT then outcome == Failed(MonthOutOfRange)
      else if day.value < 1 || day.value > LONG_MONTH_LENGTH then outcome == Failed(DayOutOfRange)
      else if !IsSupportedDate(Date(year.value, month.value, day.value)) then outcome == Failed(InvalidDate)
      else outcome == Encoded(DaysSinceEpoch(Date(year.value, month.value, day.value)))
  {
    var ok := true;
    outcome := Failed(WrongArgCount);

    // One argument or three
    if |args| != 1 && |args| != 3 {
      ok := false;
    }

    if ok && |args| == 1 {
      var inOffs := ParseInt(args[0]);
      if inOffs.None? {
        outcome := Failed(BadOffset);
        ok := false;
      }
      if ok {
        if inOffs.value < 0 || inOffs.value > GRCAL_DAY_MAX {
          outcome := Failed(OffsetOutOfRange);
          ok := false;
        }
      }
      if ok {
        var date := OffsetToDate(inOffs.value);
        var wkday := Weekday(inOffs.value);
        WeekdayOfDate(date);
        outcome := Converted(date, DAY_NAMES[wkday - 1]);
      }
    } else if ok && |args| == 3 {
      var inYear, inMonth, inDay := None, None, None;
      inYear := ParseInt(args[0]);
      if inYear.None? {
        outcome := Failed(BadYear);
        ok := false;
      }
      if ok {
        inMonth := ParseInt(args[1]);
        if inMonth.None? {
          outcome := Failed(BadMonth);
          ok := false;
        }
      }
      if ok {
        inDay := ParseInt(args[2]);
        if inDay.None? {
          outcome := Failed(BadDay);
          ok := false;
        }
      }

      // Basic ranges, before the values are handed to the engine
      if ok {
        if inYear.value < 0 || inYear.value > MAX_YEAR {
          outcome := Failed(YearOutOfRange);
          ok := false;
        }
      }
      if ok {
        if inMonth.value < 1 || inMonth.value > MONTH_COUNT {
          outcome := Failed(MonthOutOfRange);
          ok := false;
        }
      }
      if ok {
        if inDay.value < 1 || inDay.value > LONG_MONTH_LENGTH {
          outcome := Failed(DayOutOfRange);
          ok := false;
        }
      }

      if ok {
        var offs := DateToOffset(inYear.value, inMonth.value, inDay.value);
        if offs.None? {
          outcome := Failed(InvalidDate);
          ok := false;
        } else {
          outcome := Encoded(offs.value);
        }
      }
    }

    if ok {
      status := 0;
    } else {
      status := 1;
    }
  }

  /** Offset zero is reported as a Friday, and the last offset is a Friday too. */
  lemma FirstAndLastDayNames()
    ensures DAY_NAMES[Weekday(0) - 1] == "Fri"
    ensures DAY_NAMES[Weekday(GRCAL_DAY_MAX) - 1] == "Fri"
  {
  }

}
