/**
  The log's timestamps: Python `datetime` values at second precision, the
  `"%Y-%m-%d %H:%M:%S"` text `strftime` writes for them, the `strptime` that reads
  it back, and their place on the microsecond timeline the clock readings use.
 */
module Timestamp {
  import opened Wrappers
  import opened Text

  /** A naive `datetime` at second precision (the log stores no fractions). */
  datatype DateTime = DateTime(year: int, month: int, day: int, hour: int, minute: int, second: int)

  predicate IsLeapYear(y: int) {
    y % 4 == 0 && (y % 100 != 0 || y % 400 == 0)
  }

  function DaysInMonth(y: int, m: int): int
    requires 1 <= m <= 12
  {
    if m == 2 then (if IsLeapYear(y) then 29 else 28)
    else if m == 4 || m == 6 || m == 9 || m == 11 then 30
    else 31
  }

  /** The values Python's `datetime` constructor accepts (years 1..9999). */
  predicate ValidDateTime(d: DateTime) {
    && 1 <= d.year <= 9999
    && 1 <= d.month <= 12
    && 1 <= d.day <= DaysInMonth(d.year, d.month)
    && 0 <= d.hour < 24
    && 0 <= d.minute < 60
    && 0 <= d.second < 60
  }

  /** `a <= b` as Python compares two naive datetimes: field by field, the year first. */
  predicate NotAfter(a: DateTime, b: DateTime) {
    if a.year != b.year then a.year < b.year
    else if a.month != b.month then a.month < b.month
    else if a.day != b.day then a.day < b.day
    else if a.hour != b.hour then a.hour < b.hour
    else if a.minute != b.minute then a.minute < b.minute
    else a.second <= b.second
  }

  // ---------------------------------------------------------------------------
  // strftime("%Y-%m-%d %H:%M:%S")

  function Digit(n: int): (c: char)
    requires 0 <= n < 10
    ensures IsDigit(c)
  {
    ('0' as int + n) as char
  }

  function DigitValue(c: char): int {
    c as int - '0' as int
  }

  /** A field in two zero-padded decimal digits. */
  function Pad2(n: int): (s: string)
    requires 0 <= n < 100
    ensures |s| == 2 && AllDigits(s)
  {
    [Digit(n / 10), Digit(n % 10)]
  }

  /** A year in four zero-padded decimal digits. */
  function Pad4(n: int): (s: string)
    requires 0 <= n < 10000
    ensures |s| == 4 && AllDigits(s)
  {
    Pad2(n / 100) + Pad2(n % 100)
  }

  function DatePart(d: DateTime): string
    requires ValidDateTime(d)
  {
    Pad4(d.year) + "-" + Pad2(d.month) + "-" + Pad2(d.day)
  }

  function ClockPart(d: DateTime): string
    requires ValidDateTime(d)
  {
    Pad2(d.hour) + ":" + Pad2(d.minute) + ":" + Pad2(d.second)
  }

  /** `d.strftime("%Y-%m-%d %H:%M:%S")`: nineteen characters, digits everywhere
      except the two dashes, the space and the two colons. */
  function Format(d: DateTime): (s: string)
    requires ValidDateTime(d)
    ensures |s| == 19
    ensures s[4] == '-' && s[7] == '-' && s[10] == ' ' && s[13] == ':' && s[16] == ':'
    ensures forall i | 0 <= i < 19 && i !in {4, 7, 10, 13, 16} :: IsDigit(s[i])
  {
    DatePart(d) + " " + ClockPart(d)
  }

  // ---------------------------------------------------------------------------
  // strptime(s, "%Y-%m-%d %H:%M:%S") on the fixed-width text

  function Value2(s: string): int
    requires |s| == 2
  {
    10 * DigitValue(s[0]) + DigitValue(s[1])
  }

  function Value4(s: string): int
    requires |s| == 4
  {
    100 * Value2(s[..2]) + Value2(s[2..])
  }

  /** The text has the punctuation of the format and digits everywhere else. */
  predicate HasTimestampShape(s: string) {
    && |s| == 19
    && s[4] == '-' && s[7] == '-' && s[10] == ' ' && s[13] == ':' && s[16] == ':'
    && AllDigits(s[..4]) && AllDigits(s[5..7]) && AllDigits(s[8..10])
    && AllDigits(s[11..13]) && AllDigits(s[14..16]) && AllDigits(s[17..])
  }

  /** Reads `s` as `"%Y-%m-%d %H:%M:%S"`; `None` where `strptime` raises. A result
      is a valid datetime whose text is `s` again. */
  function ParseTimestamp(s: string): (r: Option<DateTime>)
    ensures r.Some? ==> ValidDateTime(r.value) && Format(r.value) == s
  {
    if HasTimestampShape(s) then
      var d := DateTime(Value4(s[..4]), Value2(s[5..7]), Value2(s[8..10]),
                        Value2(s[11..13]), Value2(s[14..16]), Value2(s[17..]));
      if ValidDateTime(d) then
        FormatOfShape(s, d);
        Some(d)
      else None
    else None
  }

  lemma Pad2OfValue2(s: string)
    requires |s| == 2 && AllDigits(s)
    ensures 0 <= Value2(s) < 100 && Pad2(Value2(s)) == s
  {
    var v := Value2(s);
    assert v / 10 == DigitValue(s[0]) && v % 10 == DigitValue(s[1]);
  }

  lemma Pad4OfValue4(s: string)
    requires |s| == 4 && AllDigits(s)
    ensures 0 <= Value4(s) < 10000 && Pad4(Value4(s)) == s
  {
    Pad2OfValue2(s[..2]);
    Pad2OfValue2(s[2..]);
    var v := Value4(s);
    assert v / 100 == Value2(s[..2]) && v % 100 == Value2(s[2..]);
    assert s == s[..2] + s[2..];
  }

  lemma Value2OfPad2(n: int)
    requires 0 <= n < 100
    ensures Value2(Pad2(n)) == n
  {
  }

  lemma Value4OfPad4(n: int)
    requires 0 <= n < 10000
    ensures Value4(Pad4(n)) == n
  {
    var s := Pad4(n);
    assert s[..2] == Pad2(n / 100) && s[2..] == Pad2(n % 100);
    Value2OfPad2(n / 100);
    Value2OfPad2(n % 100);
  }

  lemma FormatOfShape(s: string, d: DateTime)
    requires HasTimestampShape(s)
    requires d == DateTime(Value4(s[..4]), Value2(s[5..7]), Value2(s[8..10]),
                           Value2(s[11..13]), Value2(s[14..16]), Value2(s[17..]))
    requires ValidDateTime(d)
    ensures Format(d) == s
  {
    Pad4OfValue4(s[..4]);
    Pad2OfValue2(s[5..7]);
    Pad2OfValue2(s[8..10]);
    Pad2OfValue2(s[11..13]);
    Pad2OfValue2(s[14..16]);
    Pad2OfValue2(s[17..]);
    var f := Format(d);
    forall i | 0 <= i < 19 ensures f[i] == s[i] {
      if i < 4 { assert f[i] == s[..4][i]; }
      else if 5 <= i < 7 { assert f[i] == s[5..7][i - 5]; }
      else if 8 <= i < 10 { assert f[i] == s[8..10][i - 8]; }
      else if 11 <= i < 13 { assert f[i] == s[11..13][i - 11]; }
      else if 14 <= i < 16 { assert f[i] == s[14..16][i - 14]; }
      else if 17 <= i { assert f[i] == s[17..][i - 17]; }
    }
  }

  /** Reading back the text of a valid datetime gives the datetime: `strptime`
      undoes `strftime` for this format. */
  lemma ParseFormat(d: DateTime)
    requires ValidDateTime(d)
    ensures ParseTimestamp(Format(d)) == Some(d)
  {
    var s := Format(d);
    assert s[..4] == Pad4(d.year);
    assert s[5..7] == Pad2(d.month) && s[8..10] == Pad2(d.day);
    assert s[11..13] == Pad2(d.hour) && s[14..16] == Pad2(d.minute) && s[17..] == Pad2(d.second);
    Value4OfPad4(d.year);
    Value2OfPad2(d.month);
    Value2OfPad2(d.day);
    Value2OfPad2(d.hour);
    Value2OfPad2(d.minute);
    Value2OfPad2(d.second);
    assert HasTimestampShape(s);
  }

  // ---------------------------------------------------------------------------
  // the text order is the chronological order

  lemma {:induction false} Pad2Order(a: int, b: int)
    requires 0 <= a < 100 && 0 <= b < 100
    ensures StrLe(Pad2(a), Pad2(b)) == (a <= b)
    ensures (Pad2(a) == Pad2(b)) == (a == b)
  {
    var pa, pb := Pad2(a), Pad2(b);
    assert pa[1..] == [pa[1]] && pb[1..] == [pb[1]];
    assert pa[1..][1..] == [] && pb[1..][1..] == [];
    if a == b { StrLeRefl(pa); }
    Value2OfPad2(a);
    Value2OfPad2(b);
  }

  lemma Pad4Order(a: int, b: int)
    requires 0 <= a < 10000 && 0 <= b < 10000
    ensures StrLe(Pad4(a), Pad4(b)) == (a <= b)
    ensures (Pad4(a) == Pad4(b)) == (a == b)
  {
    StrLeConcat(Pad2(a / 100), Pad2(a % 100), Pad2(b / 100), Pad2(b % 100));
    Pad2Order(a / 100, b / 100);
    Pad2Order(a % 100, b % 100);
  }

  /** Three same-width fields joined by one separator compare field by field. */
  lemma Fields3Order(x1: string, x2: string, x3: string, y1: string, y2: string, y3: string, c: char)
    requires |x1| == |y1| && |x2| == |y2|
    ensures StrLe(x1 + [c] + x2 + [c] + x3, y1 + [c] + y2 + [c] + y3)
         == if x1 != y1 then StrLe(x1, y1) else if x2 != y2 then StrLe(x2, y2) else StrLe(x3, y3)
    ensures (x1 + [c] + x2 + [c] + x3 == y1 + [c] + y2 + [c] + y3) == (x1 == y1 && x2 == y2 && x3 == y3)
  {
    var u, v := x1 + [c] + x2 + [c] + x3, y1 + [c] + y2 + [c] + y3;
    assert u == x1 + ([c] + (x2 + ([c] + x3)));
    assert v == y1 + ([c] + (y2 + ([c] + y3)));
    StrLeConcat(x1, [c] + (x2 + ([c] + x3)), y1, [c] + (y2 + ([c] + y3)));
    StrLeConcat([c], x2 + ([c] + x3), [c], y2 + ([c] + y3));
    StrLeConcat(x2, [c] + x3, y2, [c] + y3);
    StrLeConcat([c], x3, [c], y3);
    if u == v {
      assert x1 == u[..|x1|] == v[..|y1|] == y1;
      assert x2 == u[|x1| + 1..|x1| + 1 + |x2|] == v[|y1| + 1..|y1| + 1 + |y2|] == y2;
      assert x3 == u[|x1| + |x2| + 2..] == v[|y1| + |y2| + 2..] == y3;
    }
  }

  /** The date texts compare as the (year, month, day) triples do. */
  lemma DatePartOrder(a: DateTime, b: DateTime)
    requires ValidDateTime(a) && ValidDateTime(b)
    ensures StrLe(DatePart(a), DatePart(b))
         == if a.year != b.year then a.year < b.year
            else if a.month != b.month then a.month < b.month
            else a.day <= b.day
    ensures (DatePart(a) == DatePart(b)) == (a.year == b.year && a.month == b.month && a.day == b.day)
  {
    Pad4Order(a.year, b.year);
    Pad2Order(a.month, b.month);
    Pad2Order(a.day, b.day);
    Fields3Order(Pad4(a.year), Pad2(a.month), Pad2(a.day), Pad4(b.year), Pad2(b.month), Pad2(b.day), '-');
  }

  /** The clock texts compare as the (hour, minute, second) triples do. */
  lemma ClockPartOrder(a: DateTime, b: DateTime)
    requires ValidDateTime(a) && ValidDateTime(b)
    ensures StrLe(ClockPart(a), ClockPart(b))
         == if a.hour != b.hour then a.hour < b.hour
            else if a.minute != b.minute then a.minute < b.minute
            else a.second <= b.second
  {
    Pad2Order(a.hour, b.hour);
    Pad2Order(a.minute, b.minute);
    Pad2Order(a.second, b.second);
    Fields3Order(Pad2(a.hour), Pad2(a.minute), Pad2(a.second), Pad2(b.hour), Pad2(b.minute), Pad2(b.second), ':');
  }

  /** The log texts of two valid datetimes compare as strings exactly as the
      datetimes compare in time, so sorting on the text sorts chronologically. */
  lemma FormatOrder(a: DateTime, b: DateTime)
    requires ValidDateTime(a) && ValidDateTime(b)
    ensures StrLe(Format(a), Format(b)) == NotAfter(a, b)
  {
    DatePartOrder(a, b);
    ClockPartOrder(a, b);
    StrLeConcat(DatePart(a), " " + ClockPart(a), DatePart(b), " " + ClockPart(b));
    StrLeConcat(" ", ClockPart(a), " ", ClockPart(b));
    assert Format(a) == DatePart(a) + (" " + ClockPart(a));
    assert Format(b) == DatePart(b) + (" " + ClockPart(b));
  }

  // ---------------------------------------------------------------------------
  // the microsecond timeline

  const MicrosPerSecond: int := 1_000_000
  const MicrosPerMinute: int := 60 * MicrosPerSecond

  /** Days in the years before `y` (Python's `_days_before_year`). */
  function DaysBeforeYear(y: int): int {
    var p := y - 1;
    p * 365 + p / 4 - p / 100 + p / 400
  }

  /** Days in the months of year `y` before month `m` (Python's `_days_before_month`). */
  function DaysBeforeMonth(y: int, m: int): int
    requires 1 <= m <= 12
  {
    var table := [0, 31, 59, 90, 120, 151, 181, 212, 243, 273, 304, 334];
    table[m - 1] + (if m > 2 && IsLeapYear(y) then 1 else 0)
  }

  /** Days from 0001-01-01 to the date of `d` (Python's ordinal, less one). */
  function DayNumber(d: DateTime): int
    requires ValidDateTime(d)
  {
    DaysBeforeYear(d.year) + DaysBeforeMonth(d.year, d.month) + d.day - 1
  }

  /** Seconds from midnight to the time of day of `d`. */
  function SecondOfDay(d: DateTime): int {
    (d.hour * 60 + d.minute) * 60 + d.second
  }

  /** Microseconds from 0001-01-01 00:00:00 to `d`: the proleptic Gregorian
      ordinal Python's datetime arithmetic works on, scaled to microseconds. */
  function Micros(d: DateTime): int
    requires ValidDateTime(d)
  {
    (DayNumber(d) * 86400 + SecondOfDay(d)) * MicrosPerSecond
  }

  /** `n / k` grows by one exactly when `n` reaches a multiple of `k`. */
  lemma QuotientStep(n: int, k: int)
    requires n >= 1 && (k == 4 || k == 100 || k == 400)
    ensures n / k == (n - 1) / k + (if n % k == 0 then 1 else 0)
  {
    if k == 4 {
      assert n / 4 == (n - 1) / 4 + (if n % 4 == 0 then 1 else 0);
    } else if k == 100 {
      assert n / 100 == (n - 1) / 100 + (if n % 100 == 0 then 1 else 0);
    } else {
      assert n / 400 == (n - 1) / 400 + (if n % 400 == 0 then 1 else 0);
    }
  }

  /** Multiples of 400 are multiples of 100, and those are multiples of 4. */
  lemma MultipleChain(y: int)
    ensures y % 400 == 0 ==> y % 100 == 0
    ensures y % 100 == 0 ==> y % 4 == 0
  {
    if y % 400 == 0 {
      Multiple400(y);
    }
    if y % 100 == 0 {
      Multiple100(y);
    }
  }

  lemma Multiple400(y: int)
    requires y % 400 == 0
    ensures y % 100 == 0
  {
    var q := y / 400;
    assert y == 100 * (4 * q) + 0;
  }

  lemma Multiple100(y: int)
    requires y % 100 == 0
    ensures y % 4 == 0
  {
    var q := y / 100;
    assert y == 4 * (25 * q) + 0;
  }

  /** A year has 366 days when it is a leap year and 365 otherwise. */
  lemma YearLength(y: int)
    requires y >= 1
    ensures DaysBeforeYear(y + 1) == DaysBeforeYear(y) + (if IsLeapYear(y) then 366 else 365)
  {
    QuotientStep(y, 4);
    QuotientStep(y, 100);
    QuotientStep(y, 400);
    MultipleChain(y);
  }

  lemma {:induction false} DaysBeforeYearGrows(y1: int, y2: int)
    requires 1 <= y1 < y2
    ensures DaysBeforeYear(y1) + (if IsLeapYear(y1) then 366 else 365) <= DaysBeforeYear(y2)
    decreases y2 - y1
  {
    YearLength(y1);
    if y1 + 1 < y2 {
      DaysBeforeYearGrows(y1 + 1, y2);
    }
  }

  /** A valid date falls inside its year. */
  lemma DayOfYearBound(d: DateTime)
    requires ValidDateTime(d)
    ensures 0 <= DaysBeforeMonth(d.year, d.month) + d.day - 1 < (if IsLeapYear(d.year) then 366 else 365)
  {
  }

  /** A valid date falls inside its month, before the next month starts. */
  lemma DaysBeforeMonthGrows(y: int, m1: int, m2: int)
    requires 1 <= m1 < m2 <= 12
    ensures DaysBeforeMonth(y, m1) + DaysInMonth(y, m1) <= DaysBeforeMonth(y, m2)
  {
  }

  /** Day numbers follow the calendar order of dates. */
  lemma DayNumberOrder(a: DateTime, b: DateTime)
    requires ValidDateTime(a) && ValidDateTime(b)
    ensures (a.year, a.month, a.day) == (b.year, b.month, b.day) ==> DayNumber(a) == DayNumber(b)
    ensures (a.year < b.year || (a.year == b.year && (a.month < b.month || (a.month == b.month && a.day < b.day))))
            ==> DayNumber(a) < DayNumber(b)
  {
    if a.year < b.year {
      DayOfYearBound(a);
      DaysBeforeYearGrows(a.year, b.year);
    } else if a.year == b.year && a.month < b.month {
      DaysBeforeMonthGrows(a.year, a.month, b.month);
    }
  }

  /** The timeline follows the order of datetimes. */
  lemma MicrosOrder(a: DateTime, b: DateTime)
    requires ValidDateTime(a) && ValidDateTime(b)
    ensures NotAfter(a, b) <==> Micros(a) <= Micros(b)
  {
    DayNumberOrder(a, b);
    DayNumberOrder(b, a);
    assert 0 <= SecondOfDay(a) < 86400 && 0 <= SecondOfDay(b) < 86400;
  }

  /** The log's timestamp texts sort exactly as their times lie on the timeline:
      comparing the text is comparing the time. */
  lemma TextOrderIsTimeOrder(a: DateTime, b: DateTime)
    requires ValidDateTime(a) && ValidDateTime(b)
    ensures StrLe(Format(a), Format(b)) <==> Micros(a) <= Micros(b)
  {
    FormatOrder(a, b);
    MicrosOrder(a, b);
  }
}
