/** Calendar dates as the service sees them through Go's `time` package:
    `Year()`, `Month()`, `Day()`, the zero `time.Time`, and
    `time.Parse` with the layout "02-01-2006" (two-digit day, two-digit
    month, four-digit year, separated by '-'). */
module Dates {
  import opened Common

  datatype Date = Date(year: int, month: int, day: int)

  /** The zero `time.Time`: January 1 of year 1. */
  const ZeroDate := Date(1, 1, 1)

  predicate IsLeap(year: int)
  {
    year % 4 == 0 && (year % 100 != 0 || year % 400 == 0)
  }

  /** The number of days in `month` of `year` (Go's `daysIn`). */
  function DaysIn(month: int, year: int): int
  {
    if month == 2 then (if IsLeap(year) then 29 else 28)
    else if month == 4 || month == 6 || month == 9 || month == 11 then 30
    else 31
  }

  /** A date the Gregorian calendar has. */
  predicate IsValid(d: Date)
  {
    1 <= d.month <= 12 && 1 <= d.day <= DaysIn(d.month, d.year)
  }

  /** `(a.month, a.day) < (b.month, b.day)` in lexicographic order. */
  predicate EarlierInYear(a: Date, b: Date)
  {
    a.month < b.month || (a.month == b.month && a.day < b.day)
  }

  /** `a` comes strictly before `b` (lexicographic on year, month, day). */
  predicate Before(a: Date, b: Date)
  {
    a.year < b.year || (a.year == b.year && EarlierInYear(a, b))
  }

  predicate NotAfter(a: Date, b: Date)
  {
    !Before(b, a)
  }

  predicate IsDigit(c: char)
  {
    '0' <= c <= '9'
  }

  function DigitValue(c: char): int
    requires IsDigit(c)
  {
    c as int - '0' as int
  }

  function DigitChar(n: int): char
    requires 0 <= n <= 9
  {
    ('0' as int + n) as char
  }

  /** The layout's fixed shape: ten characters, DD-MM-YYYY, digits where the
      layout has digits. */
  predicate HasLayoutShape(s: string)
  {
    |s| == 10 && s[2] == '-' && s[5] == '-'
    && IsDigit(s[0]) && IsDigit(s[1]) && IsDigit(s[3]) && IsDigit(s[4])
    && IsDigit(s[6]) && IsDigit(s[7]) && IsDigit(s[8]) && IsDigit(s[9])
  }

  /** `time.Parse("02-01-2006", s)`: `None` stands for the parse error.
      The month must lie in 1..12 and the day in 1..days of that month. */
  function ParseDate(s: string): (r: Option<Date>)
    ensures r.Some? ==> IsValid(r.value) && 0 <= r.value.year <= 9999
  {
    if HasLayoutShape(s) then
      var day := 10 * DigitValue(s[0]) + DigitValue(s[1]);
      var month := 10 * DigitValue(s[3]) + DigitValue(s[4]);
      var year := 1000 * DigitValue(s[6]) + 100 * DigitValue(s[7]) + 10 * DigitValue(s[8]) + DigitValue(s[9]);
      if 1 <= month <= 12 && 1 <= day <= DaysIn(month, year) then Some(Date(year, month, day)) else None
    else None
  }

  function TwoDigits(n: int): (s: string)
    requires 0 <= n <= 99
  {
    [DigitChar(n / 10), DigitChar(n % 10)]
  }

  function FourDigits(n: int): (s: string)
    requires 0 <= n <= 9999
  {
    TwoDigits(n / 100) + TwoDigits(n % 100)
  }

  /** `d.Format("02-01-2006")` for a date with a four-digit year. */
  function FormatDate(d: Date): (s: string)
    requires IsValid(d) && 0 <= d.year <= 9999
  {
    TwoDigits(d.day) + "-" + TwoDigits(d.month) + "-" + FourDigits(d.year)
  }

  lemma TwoDigitsValue(n: int)
    requires 0 <= n <= 99
    ensures IsDigit(TwoDigits(n)[0]) && IsDigit(TwoDigits(n)[1])
    ensures 10 * DigitValue(TwoDigits(n)[0]) + DigitValue(TwoDigits(n)[1]) == n
  {
  }

  lemma FourDigitsValue(n: int)
    requires 0 <= n <= 9999
    ensures forall k :: 0 <= k < 4 ==> IsDigit(FourDigits(n)[k])
    ensures 1000 * DigitValue(FourDigits(n)[0]) + 100 * DigitValue(FourDigits(n)[1])
            + 10 * DigitValue(FourDigits(n)[2]) + DigitValue(FourDigits(n)[3]) == n
  {
    TwoDigitsValue(n / 100);
    TwoDigitsValue(n % 100);
    var hi, lo := TwoDigits(n / 100), TwoDigits(n % 100);
    assert FourDigits(n)[0] == hi[0] && FourDigits(n)[1] == hi[1];
    assert FourDigits(n)[2] == lo[0] && FourDigits(n)[3] == lo[1];
    assert 1000 * DigitValue(hi[0]) + 100 * DigitValue(hi[1]) == 100 * (n / 100);
    assert n == 100 * (n / 100) + n % 100;
  }

  lemma TwoDigitsOfValue(a: char, b: char)
    requires IsDigit(a) && IsDigit(b)
    ensures TwoDigits(10 * DigitValue(a) + DigitValue(b)) == [a, b]
  {
  }

  lemma FourDigitsOfValue(a: char, b: char, c: char, e: char)
    requires IsDigit(a) && IsDigit(b) && IsDigit(c) && IsDigit(e)
    ensures FourDigits(1000 * DigitValue(a) + 100 * DigitValue(b) + 10 * DigitValue(c) + DigitValue(e)) == [a, b, c, e]
  {
    var hi := 10 * DigitValue(a) + DigitValue(b);
    var lo := 10 * DigitValue(c) + DigitValue(e);
    var n := 1000 * DigitValue(a) + 100 * DigitValue(b) + 10 * DigitValue(c) + DigitValue(e);
    assert n == 100 * hi + lo && 0 <= lo < 100;
    assert n / 100 == hi && n % 100 == lo;
    TwoDigitsOfValue(a, b);
    TwoDigitsOfValue(c, e);
  }

  /** Every date with a four-digit year survives formatting and parsing. */
  lemma ParseFormat(d: Date)
    requires IsValid(d) && 0 <= d.year <= 9999
    ensures ParseDate(FormatDate(d)) == Some(d)
  {
    var s := FormatDate(d);
    var dd, mm, yyyy := TwoDigits(d.day), TwoDigits(d.month), FourDigits(d.year);
    TwoDigitsValue(d.day);
    TwoDigitsValue(d.month);
    FourDigitsValue(d.year);
    assert s[0] == dd[0] && s[1] == dd[1] && s[2] == '-';
    assert s[3] == mm[0] && s[4] == mm[1] && s[5] == '-';
    assert s[6] == yyyy[0] && s[7] == yyyy[1] && s[8] == yyyy[2] && s[9] == yyyy[3];
    assert HasLayoutShape(s);
  }

  /** The parser accepts only the canonical text of the date it returns. */
  lemma FormatParse(s: string)
    requires ParseDate(s).Some?
    ensures FormatDate(ParseDate(s).value) == s
  {
    var d := ParseDate(s).value;
    TwoDigitsOfValue(s[0], s[1]);
    TwoDigitsOfValue(s[3], s[4]);
    FourDigitsOfValue(s[6], s[7], s[8], s[9]);
    assert TwoDigits(d.day) == s[..2];
    assert TwoDigits(d.month) == s[3..5];
    assert FourDigits(d.year) == s[6..];
    assert s == s[..2] + "-" + s[3..5] + "-" + s[6..];
  }

  /** The ISO text "1990-01-01" is not in the layout's shape, so parsing it fails. */
  lemma IsoTextDoesNotParse()
    ensures ParseDate("1990-01-01") == None
  {
  }
}
