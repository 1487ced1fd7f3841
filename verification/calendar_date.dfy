/**
  Go's `time.Parse("2006-01-02", s)` as the server uses it for due dates: the
  `full-date` of section 5.6 of RFC 3339 with the day-of-month limits of its
  section 5.7, proleptic Gregorian leap years.
 */
module CalendarDate {
  import opened Wrappers

  /** A calendar date at midnight UTC, the only kind of time the parser returns. */
  datatype Date = Date(year: int, month: int, day: int)

  /** The date of Go's zero `time.Time`: January 1, year 1. */
  const ZeroDate := Date(1, 1, 1)

  const Layout := "2006-01-02"

  predicate IsLeap(year: int) {
    year % 4 == 0 && (year % 100 != 0 || year % 400 == 0)
  }

  function DaysIn(month: int, year: int): (n: int)
    requires 1 <= month <= 12
    ensures 28 <= n <= 31
    ensures month == 2 ==> (n == 29 <==> IsLeap(year))
  {
    if month == 2 then (if IsLeap(year) then 29 else 28)
    else if month == 4 || month == 6 || month == 9 || month == 11 then 30
    else 31
  }

  /** A date the layout can express: four-digit year, real month, real day of that month. */
  predicate Valid(d: Date) {
    0 <= d.year <= 9999 && 1 <= d.month <= 12 && 1 <= d.day <= DaysIn(d.month, d.year)
  }

  predicate IsDigit(c: char) {
    '0' <= c <= '9'
  }

  function DigitValue(c: char): (v: int)
    requires IsDigit(c)
    ensures 0 <= v <= 9
  {
    c as int - '0' as int
  }

  function DigitChar(v: int): (c: char)
    requires 0 <= v <= 9
    ensures IsDigit(c) && DigitValue(c) == v
  {
    ('0' as int + v) as char
  }

  /** The number written by two digits. */
  function Value2(s: string, i: int): (v: int)
    requires 0 <= i && i + 2 <= |s| && IsDigit(s[i]) && IsDigit(s[i + 1])
    ensures 0 <= v <= 99
  {
    10 * DigitValue(s[i]) + DigitValue(s[i + 1])
  }

  /** The number written by four digits. */
  function Value4(s: string): (v: int)
    requires |s| >= 4 && IsDigit(s[0]) && IsDigit(s[1]) && IsDigit(s[2]) && IsDigit(s[3])
    ensures 0 <= v <= 9999
  {
    1000 * DigitValue(s[0]) + 100 * DigitValue(s[1]) + 10 * DigitValue(s[2]) + DigitValue(s[3])
  }

  /** Why a parse failed, carrying the whole input as Go's `ParseError.Value` does. */
  datatype ParseError =
    | CannotParse(value: string, valueElem: string, layoutElem: string)
    | OutOfRange(value: string, what: string)
    | ExtraText(value: string, rest: string)

  /** `ParseError.Error()`; Go's `quote` escaping of unusual characters is not modelled. */
  function ErrorText(e: ParseError): string {
    match e
    case CannotParse(v, elem, layoutElem) =>
      "parsing time \"" + v + "\" as \"" + Layout + "\": cannot parse \"" + elem + "\" as \"" + layoutElem + "\""
    case OutOfRange(v, what) => "parsing time \"" + v + "\": " + what + " out of range"
    case ExtraText(v, rest) => "parsing time \"" + v + "\": extra text: \"" + rest + "\""
  }

  /**
    The parse, element by element in Go's order: four-digit year, '-',
    two-digit month with its range check, '-', two-digit day, no extra text,
    then the day checked against the month.
   */
  function Parse(value: string): (r: Result<Date, ParseError>)
    ensures r.Success? ==> Valid(r.value)
    ensures r.Failure? ==> r.error.value == value
  {
    if |value| < 4 || !IsDigit(value[0]) || !IsDigit(value[1]) || !IsDigit(value[2]) || !IsDigit(value[3]) then
      Failure(CannotParse(value, value, "2006"))
    else
      var year := Value4(value);
      var rest := value[4..];
      if rest == [] || rest[0] != '-' then Failure(CannotParse(value, rest, "-"))
      else
        var rest := rest[1..];
        if |rest| < 2 || !IsDigit(rest[0]) || !IsDigit(rest[1]) then Failure(CannotParse(value, rest, "01"))
        else
          var month := Value2(rest, 0);
          if month < 1 || 12 < month then Failure(OutOfRange(value, "month"))
          else
            var rest := rest[2..];
            if rest == [] || rest[0] != '-' then Failure(CannotParse(value, rest, "-"))
            else
              var rest := rest[1..];
              if |rest| < 2 || !IsDigit(rest[0]) || !IsDigit(rest[1]) then Failure(CannotParse(value, rest, "02"))
              else
                var day := Value2(rest, 0);
                if |rest| > 2 then Failure(ExtraText(value, rest[2..]))
                else if day < 1 || day > DaysIn(month, year) then Failure(OutOfRange(value, "day"))
                else Success(Date(year, month, day))
  }

  /** The RFC 3339 `full-date` production with the section 5.7 day limits, stated directly. */
  predicate IsFullDate(s: string) {
    && |s| == 10
    && IsDigit(s[0]) && IsDigit(s[1]) && IsDigit(s[2]) && IsDigit(s[3])
    && s[4] == '-'
    && IsDigit(s[5]) && IsDigit(s[6])
    && s[7] == '-'
    && IsDigit(s[8]) && IsDigit(s[9])
    && 1 <= Value2(s, 5) <= 12
    && 1 <= Value2(s, 8) <= DaysIn(Value2(s, 5), Value4(s))
  }

  /** The parser accepts exactly the RFC 3339 full-dates, reading the three numbers off them. */
  lemma ParseAcceptsExactlyFullDates(s: string)
    ensures Parse(s).Success? <==> IsFullDate(s)
    ensures Parse(s).Success? ==> Parse(s).value == Date(Value4(s), Value2(s, 5), Value2(s, 8))
  {
    if |s| >= 10 {
      assert s[4..][1..][2..][1..] == s[8..];
      assert s[4..][1..] == s[5..];
    }
  }

  function Pad2(n: int): (s: string)
    requires 0 <= n <= 99
    ensures |s| == 2 && IsDigit(s[0]) && IsDigit(s[1])
  {
    [DigitChar(n / 10), DigitChar(n % 10)]
  }

  function Pad4(n: int): (s: string)
    requires 0 <= n <= 9999
    ensures |s| == 4 && IsDigit(s[0]) && IsDigit(s[1]) && IsDigit(s[2]) && IsDigit(s[3])
  {
    [DigitChar(n / 1000), DigitChar(n / 100 % 10), DigitChar(n / 10 % 10), DigitChar(n % 10)]
  }

  /** `t.Format("2006-01-02")`: zero-padded year, month and day. */
  function Format(d: Date): (s: string)
    requires Valid(d)
    ensures |s| == 10 && s[4] == '-' && s[7] == '-'
  {
    Pad4(d.year) + "-" + Pad2(d.month) + "-" + Pad2(d.day)
  }

  lemma Pad2Value(n: int)
    requires 0 <= n <= 99
    ensures Value2(Pad2(n), 0) == n
  {
  }

  lemma Pad4Value(n: int)
    requires 0 <= n <= 9999
    ensures Value4(Pad4(n)) == n
  {
    var a, b, c, d := n / 1000, n / 100 % 10, n / 10 % 10, n % 10;
    assert n / 100 == 10 * a + b;
    assert n / 10 == 10 * (n / 100) + c;
    assert n == 10 * (n / 10) + d;
  }

  /** Formatting a valid date and parsing it back gives the date. */
  lemma FormatThenParse(d: Date)
    requires Valid(d)
    ensures Parse(Format(d)) == Success(d)
  {
    var s := Format(d);
    assert s[..4] == Pad4(d.year) && s[5..7] == Pad2(d.month) && s[8..] == Pad2(d.day);
    Pad4Value(d.year);
    Pad2Value(d.month);
    Pad2Value(d.day);
    assert Value4(s) == Value4(Pad4(d.year));
    assert Value2(s, 5) == Value2(Pad2(d.month), 0);
    assert Value2(s, 8) == Value2(Pad2(d.day), 0);
    ParseAcceptsExactlyFullDates(s);
  }

  lemma ValuePad2(s: string, i: int)
    requires 0 <= i && i + 2 <= |s| && IsDigit(s[i]) && IsDigit(s[i + 1])
    ensures Pad2(Value2(s, i)) == s[i..i + 2]
  {
  }

  lemma ValuePad4(s: string)
    requires |s| >= 4 && IsDigit(s[0]) && IsDigit(s[1]) && IsDigit(s[2]) && IsDigit(s[3])
    ensures Pad4(Value4(s)) == s[..4]
  {
    var n := Value4(s);
    var a, b, c, d := DigitValue(s[0]), DigitValue(s[1]), DigitValue(s[2]), DigitValue(s[3]);
    assert n / 1000 == a;
    assert n / 100 == 10 * a + b;
    assert n / 10 == 100 * a + 10 * b + c;
    assert n % 10 == d;
  }

  /** A string the parser accepts is the canonical spelling of the date it yields. */
  lemma ParseThenFormat(s: string)
    requires Parse(s).Success?
    ensures Format(Parse(s).value) == s
  {
    ParseAcceptsExactlyFullDates(s);
    ValuePad4(s);
    ValuePad2(s, 5);
    ValuePad2(s, 8);
    assert s == s[..4] + "-" + s[5..7] + "-" + s[8..10];
  }
}
