/** Calendar dates as Python's `datetime.date` handles them: validity,
    ordinal day numbers (`date.toordinal`), comparison, and the
    `"%Y-%m-%d"` text the ledger stores (main.py:224-225, 256). */
module Dates {
  import opened Wrappers
  import opened Numerals

  datatype Date = Date(year: int, month: int, day: int)

  predicate IsLeap(y: int)
  {
    y % 4 == 0 && (y % 100 != 0 || y % 400 == 0)
  }

  function DaysInMonth(y: int, m: int): int
  {
    if m == 2 then (if IsLeap(y) then 29 else 28)
    else if m == 4 || m == 6 || m == 9 || m == 11 then 30
    else 31
  }

  function DaysInYear(y: int): int
  {
    if IsLeap(y) then 366 else 365
  }

  /** The dates `datetime.date` accepts: years 1 to 9999. */
  predicate ValidDate(d: Date)
  {
    1 <= d.year <= 9999 && 1 <= d.month <= 12 && 1 <= d.day <= DaysInMonth(d.year, d.month)
  }

  type CalendarDate = d: Date | ValidDate(d) witness Date(1970, 1, 1)

  /** `date.max.toordinal()`, the ordinal of 9999-12-31. */
  const MaxOrdinal: int := 3652059

  function DaysBeforeYear(y: int): int
    requires y >= 1
  {
    var p := y - 1;
    365 * p + p / 4 - p / 100 + p / 400
  }

  function DaysBeforeMonth(y: int, m: int): int
    requires 1 <= m <= 12
  {
    var common :=
      if m == 1 then 0 else if m == 2 then 31 else if m == 3 then 59
      else if m == 4 then 90 else if m == 5 then 120 else if m == 6 then 151
      else if m == 7 then 181 else if m == 8 then 212 else if m == 9 then 243
      else if m == 10 then 273 else if m == 11 then 304 else 334;
    common + (if m > 2 && IsLeap(y) then 1 else 0)
  }

  /** `date.toordinal()`: day 1 is 0001-01-01. */
  function Ordinal(d: Date): int
    requires ValidDate(d)
  {
    DaysBeforeYear(d.year) + DaysBeforeMonth(d.year, d.month) + d.day
  }

  /** Python's `<` on dates: year, then month, then day. */
  predicate Before(a: Date, b: Date)
  {
    a.year < b.year
    || (a.year == b.year && (a.month < b.month || (a.month == b.month && a.day < b.day)))
  }

  /** Division by a positive constant steps up by one exactly at its multiples. */
  lemma DivStep(p: int, k: int)
    requires p >= 0 && (k == 4 || k == 100 || k == 400)
    ensures (p + 1) / k == p / k + (if (p + 1) % k == 0 then 1 else 0)
  {
  }

  lemma Divisibility(y: int)
    ensures y % 400 == 0 ==> y % 100 == 0
    ensures y % 100 == 0 ==> y % 4 == 0
  {
    if y % 400 == 0 {
      MultipleOf400(y);
    }
    if y % 100 == 0 {
      MultipleOf100(y);
    }
  }

  lemma MultipleOf400(y: int)
    requires y % 400 == 0
    ensures y % 100 == 0
  {
    var q := y / 400;
    assert y == 400 * q;
    assert y == 100 * (4 * q) + 0;
  }

  lemma MultipleOf100(y: int)
    requires y % 100 == 0
    ensures y % 4 == 0
  {
    var q := y / 100;
    assert y == 100 * q;
    assert y == 4 * (25 * q) + 0;
  }

  lemma NextYear(y: int)
    requires y >= 1
    ensures DaysBeforeYear(y + 1) == DaysBeforeYear(y) + DaysInYear(y)
  {
    var p := y - 1;
    DivStep(p, 4);
    DivStep(p, 100);
    DivStep(p, 400);
    Divisibility(y);
  }

  lemma {:induction false} YearsApart(y1: int, y2: int)
    requires 1 <= y1 < y2
    ensures DaysBeforeYear(y1) + DaysInYear(y1) <= DaysBeforeYear(y2)
    decreases y2 - y1
  {
    NextYear(y1);
    if y1 + 1 < y2 {
      YearsApart(y1 + 1, y2);
    }
  }

  lemma MonthsApart(y: int, m1: int, m2: int)
    requires 1 <= m1 < m2 <= 12
    ensures DaysBeforeMonth(y, m1) + DaysInMonth(y, m1) <= DaysBeforeMonth(y, m2)
  {
  }

  lemma WithinYear(d: Date)
    requires ValidDate(d)
    ensures DaysBeforeMonth(d.year, d.month) + d.day <= DaysInYear(d.year)
  {
  }

  lemma OrdinalStrict(a: Date, b: Date)
    requires ValidDate(a) && ValidDate(b) && Before(a, b)
    ensures Ordinal(a) < Ordinal(b)
  {
    if a.year < b.year {
      WithinYear(a);
      YearsApart(a.year, b.year);
    } else if a.month < b.month {
      MonthsApart(a.year, a.month, b.month);
    }
  }

  /** Comparing ordinals is comparing dates: the model's cutoff test on
      ordinals is Python's `date >= cutoff_date`. */
  lemma OrdinalOrder(a: Date, b: Date)
    requires ValidDate(a) && ValidDate(b)
    ensures Before(a, b) <==> Ordinal(a) < Ordinal(b)
    ensures a == b <==> Ordinal(a) == Ordinal(b)
  {
    if Before(a, b) {
      OrdinalStrict(a, b);
    } else if Before(b, a) {
      OrdinalStrict(b, a);
    }
  }

  /** Every valid date has an ordinal within `date.min` .. `date.max`. */
  lemma OrdinalRange(d: Date)
    requires ValidDate(d)
    ensures 1 <= Ordinal(d) <= MaxOrdinal
  {
    WithinYear(d);
    if d.year < 9999 {
      YearsApart(d.year, 9999);
    }
  }

  function Pad2(n: int): (r: string)
    requires 0 <= n < 100
    ensures |r| == 2 && AllDigits(r)
  {
    [Digit(n / 10), Digit(n % 10)]
  }

  function Pad4(n: int): (r: string)
    requires 0 <= n < 10000
    ensures |r| == 4 && AllDigits(r)
  {
    [Digit(n / 1000), Digit(n / 100 % 10), Digit(n / 10 % 10), Digit(n % 10)]
  }

  /** `date.strftime("%Y-%m-%d")`. */
  function FormatIso(d: Date): (r: string)
    requires ValidDate(d)
    ensures |r| == 10
  {
    Pad4(d.year) + "-" + Pad2(d.month) + "-" + Pad2(d.day)
  }

  /** `datetime.strptime(s, '%Y-%m-%d').date()`, for zero-padded fields:
      None where Python raises ValueError. */
  function ParseIso(s: string): (r: Option<Date>)
    ensures r.Some? ==> ValidDate(r.value)
  {
    if |s| == 10 && s[4] == '-' && s[7] == '-'
       && AllDigits(s[..4]) && AllDigits(s[5..7]) && AllDigits(s[8..])
    then
      var d := Date(Num(s[..4]), Num(s[5..7]), Num(s[8..]));
      if ValidDate(d) then Some(d) else None
    else None
  }

  lemma Num2(s: string)
    requires |s| == 2 && AllDigits(s)
    ensures Num(s) == DigitValue(s[0]) * 10 + DigitValue(s[1])
  {
    assert s[..1][..0] == [];
    assert Num(s[..1]) == DigitValue(s[0]);
  }

  lemma Num4(s: string)
    requires |s| == 4 && AllDigits(s)
    ensures Num(s) == DigitValue(s[0]) * 1000 + DigitValue(s[1]) * 100 + DigitValue(s[2]) * 10 + DigitValue(s[3])
  {
    assert s[..3][..2] == s[..2];
    Num2(s[..2]);
  }

  lemma Pad2Value(n: int)
    requires 0 <= n < 100
    ensures Num(Pad2(n)) == n
  {
    Num2(Pad2(n));
  }

  lemma Pad4Value(n: int)
    requires 0 <= n < 10000
    ensures Num(Pad4(n)) == n
  {
    Num4(Pad4(n));
    var a, b, c, d := n / 1000, n / 100 % 10, n / 10 % 10, n % 10;
    DivByTen(n);
    DivByTen(n / 10);
    DivByTen(n / 100);
    assert n / 10 / 10 == n / 100 && n / 100 / 10 == n / 1000;
  }

  lemma DivByTen(n: int)
    requires n >= 0
    ensures n == 10 * (n / 10) + n % 10 && 0 <= n % 10 < 10
  {
  }

  lemma Pad2OfNum(s: string)
    requires |s| == 2 && AllDigits(s)
    ensures Num(s) < 100 && Pad2(Num(s)) == s
  {
    Num2(s);
  }

  lemma Pad4OfNum(s: string)
    requires |s| == 4 && AllDigits(s)
    ensures Num(s) < 10000 && Pad4(Num(s)) == s
  {
    Num4(s);
    var a, b, c, d := DigitValue(s[0]), DigitValue(s[1]), DigitValue(s[2]), DigitValue(s[3]);
    var n := Num(s);
    assert n == a * 1000 + b * 100 + c * 10 + d;
    assert n % 10 == d;
    assert n / 10 == a * 100 + b * 10 + c;
    assert n / 10 % 10 == c;
    assert n / 100 == a * 10 + b;
    assert n / 100 % 10 == b;
    assert n / 1000 == a;
    assert Pad4(n) == [Digit(a), Digit(b), Digit(c), Digit(d)];
  }

  /** A date written to the ledger reads back as the same date. */
  lemma ParseFormatIso(d: Date)
    requires ValidDate(d)
    ensures ParseIso(FormatIso(d)) == Some(d)
  {
    var s := FormatIso(d);
    assert s[..4] == Pad4(d.year) && s[5..7] == Pad2(d.month) && s[8..] == Pad2(d.day);
    Pad4Value(d.year);
    Pad2Value(d.month);
    Pad2Value(d.day);
  }

  /** The strict form is canonical: a date string that parses is exactly
      what formatting its date writes. */
  lemma FormatParseIso(s: string)
    requires ParseIso(s).Some?
    ensures FormatIso(ParseIso(s).value) == s
  {
    var d := ParseIso(s).value;
    Pad4OfNum(s[..4]);
    Pad2OfNum(s[5..7]);
    Pad2OfNum(s[8..]);
    assert s == s[..4] + "-" + s[5..7] + "-" + s[8..];
  }

  /** `date.weekday()`: Monday is 0 and Sunday is 6. Day 1 of the calendar,
      0001-01-01, was a Monday. */
  function Weekday(d: CalendarDate): (w: int)
    ensures 0 <= w < 7
  {
    (Ordinal(d) + 6) % 7
  }

  /** Days of the week repeat every seven days and advance one a day. */
  lemma WeekdayAdvances(a: CalendarDate, b: CalendarDate, n: nat)
    requires Ordinal(b) == Ordinal(a) + n
    ensures Weekday(b) == (Weekday(a) + n) % 7
  {
    ModSevenShift(Ordinal(a) + 6, n);
  }

  lemma ModSevenShift(x: int, n: int)
    ensures (x + n) % 7 == (x % 7 + n) % 7
  {
    var q, r := x / 7, x % 7;
    assert x + n == 7 * q + (r + n);
    var q2, r2 := (r + n) / 7, (r + n) % 7;
    assert x + n == 7 * (q + q2) + r2;
  }

  const DayNames: seq<string> := ["Mon", "Tue", "Wed", "Thu", "Fri", "Sat", "Sun"]
  const MonthNames: seq<string> := ["Jan", "Feb", "Mar", "Apr", "May", "Jun", "Jul", "Aug", "Sep", "Oct", "Nov", "Dec"]

  /** `date.strftime('%a, %d %b %Y')` in the C locale, as in "Mon, 01 Jan 2024". */
  function LongDate(d: CalendarDate): (r: string)
    ensures |r| == 16
  {
    DayNames[Weekday(d)] + ", " + Pad2(d.day) + " " + MonthNames[d.month - 1] + " " + Pad4(d.year)
  }

  /** The date text is one line. */
  lemma LongDateOneLine(d: CalendarDate)
    ensures '\n' !in LongDate(d)
  {
    var s := LongDate(d);
    assert forall i :: 0 <= i < 4 ==> '\n' != Pad4(d.year)[i];
    assert forall i :: 0 <= i < 2 ==> '\n' != Pad2(d.day)[i];
    assert s == DayNames[Weekday(d)] + ", " + Pad2(d.day) + " " + MonthNames[d.month - 1] + " " + Pad4(d.year);
  }

  lemma LongDateExample()
    ensures Weekday(Date(2024, 1, 1)) == 0
    ensures LongDate(Date(2024, 1, 1)) == "Mon, 01 Jan 2024"
  {
    assert Ordinal(Date(2024, 1, 1)) == 738886;
  }
}
