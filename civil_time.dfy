/** Minute-precision civil timestamps as the rental code writes and reads them
    with the pattern `yyyy-MM-dd HH:mm`, their day numbers, and the whole-day
    difference `ChronoUnit.DAYS.between` computes on two `LocalDateTime`s. */
module CivilTime {
  import opened Common

  /** A `LocalDateTime` whose seconds and nanoseconds are zero. */
  datatype DateTime = DateTime(year: int, month: int, day: int, hour: int, minute: int)

  predicate IsLeapYear(y: int)
  {
    y % 4 == 0 && (y % 100 != 0 || y % 400 == 0)
  }

  function YearLength(y: int): int
  {
    if IsLeapYear(y) then 366 else 365
  }

  function DaysInMonth(y: int, m: int): int
  {
    if m == 2 then (if IsLeapYear(y) then 29 else 28)
    else if m == 4 || m == 6 || m == 9 || m == 11 then 30
    else 31
  }

  /** A timestamp the four-digit year pattern can print: a real calendar date
      between the years 1 and 9999 and a time of day to the minute. */
  predicate Valid(t: DateTime)
  {
    && 1 <= t.year <= 9999
    && 1 <= t.month <= 12
    && 1 <= t.day <= DaysInMonth(t.year, t.month)
    && 0 <= t.hour < 24
    && 0 <= t.minute < 60
  }

  /** Days of year y that lie before the first of month m (m = 13: the whole year). */
  function DaysBeforeMonth(y: int, m: int): int
    requires 1 <= m <= 13
  {
    var common :=
      if m == 1 then 0 else if m == 2 then 31 else if m == 3 then 59
      else if m == 4 then 90 else if m == 5 then 120 else if m == 6 then 151
      else if m == 7 then 181 else if m == 8 then 212 else if m == 9 then 243
      else if m == 10 then 273 else if m == 11 then 304 else if m == 12 then 334
      else 365;
    if m > 2 && IsLeapYear(y) then common + 1 else common
  }

  /** Days from 0001-01-01 to the first of January of year y (proleptic Gregorian). */
  function DaysBeforeYear(y: int): int
    requires y >= 1
  {
    var p := y - 1;
    365 * p + p / 4 - p / 100 + p / 400
  }

  /** Days from civil: the number of days from 0001-01-01 to the date of t. */
  function DayNumber(t: DateTime): int
    requires Valid(t)
  {
    DaysBeforeYear(t.year) + DaysBeforeMonth(t.year, t.month) + t.day - 1
  }

  function MinuteOfDay(t: DateTime): int
  {
    t.hour * 60 + t.minute
  }

  /** Minutes since 0001-01-01 00:00. */
  function Minutes(t: DateTime): int
    requires Valid(t)
  {
    DayNumber(t) * 1440 + MinuteOfDay(t)
  }

  // ---------------------------------------------------------------------
  // Calendar arithmetic

  lemma YearStep(y: int)
    requires y >= 1
    ensures DaysBeforeYear(y + 1) == DaysBeforeYear(y) + YearLength(y)
  {
    StepOver4(y);
    StepOver100(y);
    StepOver400(y);
  }

  /* One more year adds one to each of the three leap-year counts exactly
     when it is a multiple of the period. */
  lemma StepOver4(y: int)
    ensures y / 4 == (y - 1) / 4 + (if y % 4 == 0 then 1 else 0)
  {
    var q, r := (y - 1) / 4, (y - 1) % 4;
    assert y == 4 * q + r + 1;
  }

  lemma StepOver100(y: int)
    ensures y / 100 == (y - 1) / 100 + (if y % 100 == 0 then 1 else 0)
  {
    var q, r := (y - 1) / 100, (y - 1) % 100;
    assert y == 100 * q + r + 1;
  }

  lemma StepOver400(y: int)
    ensures y / 400 == (y - 1) / 400 + (if y % 400 == 0 then 1 else 0)
  {
    var q, r := (y - 1) / 400, (y - 1) % 400;
    assert y == 400 * q + r + 1;
  }

  lemma {:induction false} DaysBeforeYearIncreasing(a: int, b: int)
    requires 1 <= a < b
    ensures DaysBeforeYear(a) + YearLength(a) <= DaysBeforeYear(b)
    decreases b - a
  {
    YearStep(a);
    if a + 1 < b {
      DaysBeforeYearIncreasing(a + 1, b);
    }
  }

  /** Each month occupies exactly its own length: the months tile the year. */
  lemma MonthStep(y: int, m: int)
    requires 1 <= m <= 12
    ensures DaysBeforeMonth(y, m + 1) == DaysBeforeMonth(y, m) + DaysInMonth(y, m)
  {
  }

  lemma {:induction false} DaysBeforeMonthIncreasing(y: int, a: int, b: int)
    requires 1 <= a < b <= 13
    ensures DaysBeforeMonth(y, a) + DaysInMonth(y, a) <= DaysBeforeMonth(y, b)
    decreases b - a
  {
    MonthStep(y, a);
    if a + 1 < b {
      DaysBeforeMonthIncreasing(y, a + 1, b);
    }
  }

  /** `LocalDate.isBefore`: the order of (year, month, day). */
  predicate DateBefore(a: DateTime, b: DateTime)
  {
    || a.year < b.year
    || (a.year == b.year && a.month < b.month)
    || (a.year == b.year && a.month == b.month && a.day < b.day)
  }

  predicate SameDate(a: DateTime, b: DateTime)
  {
    a.year == b.year && a.month == b.month && a.day == b.day
  }

  lemma DateBeforeNumbers(a: DateTime, b: DateTime)
    requires Valid(a) && Valid(b) && DateBefore(a, b)
    ensures DayNumber(a) < DayNumber(b)
  {
    if a.year < b.year {
      DaysBeforeMonthIncreasing(a.year, a.month, 13);
      DaysBeforeYearIncreasing(a.year, b.year);
    } else if a.month < b.month {
      DaysBeforeMonthIncreasing(a.year, a.month, b.month);
    }
  }

  /** Day numbers order dates exactly as `LocalDate` comparison does. */
  lemma DayNumberOrder(a: DateTime, b: DateTime)
    requires Valid(a) && Valid(b)
    ensures DateBefore(a, b) <==> DayNumber(a) < DayNumber(b)
    ensures SameDate(a, b) <==> DayNumber(a) == DayNumber(b)
  {
    if DateBefore(a, b) {
      DateBeforeNumbers(a, b);
    } else if DateBefore(b, a) {
      DateBeforeNumbers(b, a);
    }
  }

  lemma DayNumberBounds(t: DateTime)
    requires Valid(t)
    ensures 0 <= DayNumber(t) < 366 * 10000
  {
    DaysBeforeMonthIncreasing(t.year, t.month, 13);
    var p := t.year - 1;
    assert p / 4 - p / 100 + p / 400 <= p;
  }

  // ---------------------------------------------------------------------
  // ChronoUnit.DAYS.between

  /** Division that truncates toward zero, as Java's `/` on longs does. */
  function TruncDiv(x: int, n: int): int
    requires n > 0
  {
    if x >= 0 then x / n else -((-x) / n)
  }

  /** `LocalDateTime.until(end, DAYS)`: the difference of the two dates, moved
      one day toward the start when the end's time of day has not yet reached
      the start's. */
  function ChronoDaysBetween(s: DateTime, e: DateTime): int
    requires Valid(s) && Valid(e)
  {
    if DateBefore(s, e) && MinuteOfDay(e) < MinuteOfDay(s) then DayNumber(e) - 1 - DayNumber(s)
    else if DateBefore(e, s) && MinuteOfDay(e) > MinuteOfDay(s) then DayNumber(e) + 1 - DayNumber(s)
    else DayNumber(e) - DayNumber(s)
  }

  /** The date-based computation counts complete 1440-minute periods between
      the two instants, truncated toward zero. */
  lemma ChronoDaysAreWholePeriods(s: DateTime, e: DateTime)
    requires Valid(s) && Valid(e)
    ensures ChronoDaysBetween(s, e) == TruncDiv(Minutes(e) - Minutes(s), 1440)
  {
    DayNumberOrder(s, e);
    var d := DayNumber(e) - DayNumber(s);
    var dt := MinuteOfDay(e) - MinuteOfDay(s);
    var x := Minutes(e) - Minutes(s);
    assert x == d * 1440 + dt;
    assert -1440 < dt < 1440;
    if d > 0 {
      if dt < 0 {
        assert x == (d - 1) * 1440 + (1440 + dt);
      } else {
        assert x == d * 1440 + dt;
      }
    } else if d < 0 {
      if dt > 0 {
        assert -x == (-d - 1) * 1440 + (1440 - dt);
      } else {
        assert -x == (-d) * 1440 + (-dt);
      }
    }
  }

  /** The day count is far inside Java's int range, so `(int) days` never wraps. */
  lemma ChronoDaysFitInt(s: DateTime, e: DateTime)
    requires Valid(s) && Valid(e)
    ensures ToInt32(ChronoDaysBetween(s, e)) == ChronoDaysBetween(s, e)
  {
    DayNumberBounds(s);
    DayNumberBounds(e);
    ToInt32InRange(ChronoDaysBetween(s, e));
  }

  // ---------------------------------------------------------------------
  // The pattern yyyy-MM-dd HH:mm

  function Digit(n: int): char
    requires 0 <= n < 10
  {
    ('0' as int + n) as char
  }

  predicate IsDigit(c: char)
  {
    '0' <= c <= '9'
  }

  function DigitValue(c: char): int
    requires IsDigit(c)
  {
    c as int - '0' as int
  }

  function Pad2(n: int): string
    requires 0 <= n < 100
  {
    [Digit(n / 10), Digit(n % 10)]
  }

  function Pad4(n: int): string
    requires 0 <= n < 10000
  {
    [Digit(n / 1000), Digit(n / 100 % 10), Digit(n / 10 % 10), Digit(n % 10)]
  }

  /** `start.format(DateTimeFormatter.ofPattern("yyyy-MM-dd HH:mm"))`. */
  function Format(t: DateTime): (s: string)
    requires Valid(t)
  {
    Pad4(t.year) + "-" + Pad2(t.month) + "-" + Pad2(t.day) + " " + Pad2(t.hour) + ":" + Pad2(t.minute)
  }

  predicate AllDigits(s: string)
  {
    forall i :: 0 <= i < |s| ==> IsDigit(s[i])
  }

  function Number2(s: string): int
    requires |s| == 2 && AllDigits(s)
  {
    10 * DigitValue(s[0]) + DigitValue(s[1])
  }

  function Number4(s: string): int
    requires |s| == 4 && AllDigits(s)
  {
    1000 * DigitValue(s[0]) + 100 * DigitValue(s[1]) + 10 * DigitValue(s[2]) + DigitValue(s[3])
  }

  predicate WellShaped(s: string)
  {
    && |s| == 16
    && s[4] == '-' && s[7] == '-' && s[10] == ' ' && s[13] == ':'
    && AllDigits(s[0..4]) && AllDigits(s[5..7]) && AllDigits(s[8..10])
    && AllDigits(s[11..13]) && AllDigits(s[14..16])
  }

  /** `LocalDateTime.parse(s, ofPattern("yyyy-MM-dd HH:mm"))`; None stands for
      the DateTimeParseException. Only strings in the canonical shape with a
      real date and time are accepted, and nothing else is: a parsed value
      prints back as exactly the string it came from. */
  function Parse(s: string): (r: Option<DateTime>)
    ensures r.Some? ==> Valid(r.value) && Format(r.value) == s
  {
    if !WellShaped(s) then None
    else
      var t := DateTime(Number4(s[0..4]), Number2(s[5..7]), Number2(s[8..10]),
                        Number2(s[11..13]), Number2(s[14..16]));
      if !Valid(t) then None
      else
        Pad4Number(s[0..4]);
        Pad2Number(s[5..7]);
        Pad2Number(s[8..10]);
        Pad2Number(s[11..13]);
        Pad2Number(s[14..16]);
        assert s == s[0..4] + "-" + s[5..7] + "-" + s[8..10] + " " + s[11..13] + ":" + s[14..16];
        Some(t)
  }

  lemma Pad2Number(s: string)
    requires |s| == 2 && AllDigits(s)
    ensures Pad2(Number2(s)) == s
  {
    var a, b := DigitValue(s[0]), DigitValue(s[1]);
    assert (10 * a + b) / 10 == a && (10 * a + b) % 10 == b;
  }

  lemma Pad4Number(s: string)
    requires |s| == 4 && AllDigits(s)
    ensures Pad4(Number4(s)) == s
  {
    var a, b, c, d := DigitValue(s[0]), DigitValue(s[1]), DigitValue(s[2]), DigitValue(s[3]);
    var n := 1000 * a + 100 * b + 10 * c + d;
    assert n / 1000 == a;
    assert n / 100 == 10 * a + b;
    assert n / 100 % 10 == b;
    assert n / 10 == 100 * a + 10 * b + c;
    assert n / 10 % 10 == c;
    assert n % 10 == d;
  }

  lemma NumberPad2(n: int)
    requires 0 <= n < 100
    ensures AllDigits(Pad2(n)) && Number2(Pad2(n)) == n
  {
  }

  lemma NumberPad4(n: int)
    requires 0 <= n < 10000
    ensures AllDigits(Pad4(n)) && Number4(Pad4(n)) == n
  {
    var a := n / 1000;
    var b := (n - 1000 * a) / 100;
    var c := (n - 1000 * a - 100 * b) / 10;
    var d := n - 1000 * a - 100 * b - 10 * c;
    assert 0 <= b < 10 && 0 <= c < 10 && 0 <= d < 10;
    assert n / 100 == 10 * a + b;
    assert n / 100 % 10 == b;
    assert n / 10 == 100 * a + 10 * b + c;
    assert n / 10 % 10 == c;
    assert n % 10 == d;
  }

  /** Formatting a timestamp and parsing the text gives the timestamp back. */
  lemma ParseFormat(t: DateTime)
    requires Valid(t)
    ensures Parse(Format(t)) == Some(t)
  {
    var s := Format(t);
    NumberPad4(t.year);
    NumberPad2(t.month);
    NumberPad2(t.day);
    NumberPad2(t.hour);
    NumberPad2(t.minute);
    assert s[0..4] == Pad4(t.year);
    assert s[5..7] == Pad2(t.month);
    assert s[8..10] == Pad2(t.day);
    assert s[11..13] == Pad2(t.hour);
    assert s[14..16] == Pad2(t.minute);
  }
}
