/**
 * Calendar dates and their `%m/%d/%Y` rendering: two-digit zero-padded month,
 * two-digit zero-padded day, four-digit year, separated by slashes.
 * `ParseDate` reads that shape back; the round-trip lemmas prove the rendering loses nothing.
 */
module Calendar {
  import opened Options

  datatype CalendarDate = CalendarDate(year: int, month: int, day: int)

  predicate IsLeapYear(y: int) {
    y % 4 == 0 && (y % 100 != 0 || y % 400 == 0)
  }

  function DaysInMonth(y: int, m: int): (n: int)
    requires 1 <= m <= 12
    ensures 28 <= n <= 31
  {
    if m == 2 then (if IsLeapYear(y) then 29 else 28)
    else if m == 4 || m == 6 || m == 9 || m == 11 then 30
    else 31
  }

  /** The dates a Python `datetime` can hold (years 1 to 9999). */
  predicate ValidDate(d: CalendarDate) {
    && 1 <= d.year <= 9999
    && 1 <= d.month <= 12
    && 1 <= d.day <= DaysInMonth(d.year, d.month)
  }

  type Date = d: CalendarDate | ValidDate(d) witness CalendarDate(1970, 1, 1)

  predicate IsDigit(c: char) {
    '0' <= c <= '9'
  }

  function DigitChar(n: int): (c: char)
    requires 0 <= n <= 9
    ensures IsDigit(c)
  {
    ('0' as int + n) as char
  }

  function DigitValue(c: char): (n: int)
    requires IsDigit(c)
    ensures 0 <= n <= 9
  {
    c as int - '0' as int
  }

  predicate AllDigits(s: string) {
    forall i :: 0 <= i < |s| ==> IsDigit(s[i])
  }

  /** The number a string of decimal digits denotes, most significant digit first. */
  function DecimalValue(s: string): (n: nat)
    requires AllDigits(s)
  {
    if |s| == 0 then 0 else DecimalValue(s[..|s| - 1]) * 10 + DigitValue(s[|s| - 1])
  }

  /** `n` as exactly two decimal digits, with a leading zero below 10. */
  function Pad2(n: int): (s: string)
    requires 0 <= n < 100
    ensures |s| == 2 && AllDigits(s)
  {
    [DigitChar(n / 10), DigitChar(n % 10)]
  }

  /** `n` as exactly four decimal digits, with leading zeros below 1000. */
  function Pad4(n: int): (s: string)
    requires 0 <= n < 10000
    ensures |s| == 4 && AllDigits(s)
  {
    var tens := n / 10;
    var hundreds := tens / 10;
    [DigitChar(hundreds / 10), DigitChar(hundreds % 10), DigitChar(tens % 10), DigitChar(n % 10)]
  }

  /** `strftime('%m/%d/%Y')`. */
  function FormatDate(d: Date): (s: string)
    ensures |s| == 10 && s[2] == '/' && s[5] == '/'
    ensures AllDigits(s[..2]) && AllDigits(s[3..5]) && AllDigits(s[6..])
  {
    Pad2(d.month) + "/" + Pad2(d.day) + "/" + Pad4(d.year)
  }

  /** Reads `MM/DD/YYYY` back; any other shape is rejected. Range checks are left to `ValidDate`. */
  function ParseDate(s: string): (r: Option<CalendarDate>)
    ensures r.Some? ==> |s| == 10
  {
    if |s| == 10 && s[2] == '/' && s[5] == '/'
       && AllDigits(s[..2]) && AllDigits(s[3..5]) && AllDigits(s[6..])
    then Some(CalendarDate(DecimalValue(s[6..]), DecimalValue(s[..2]), DecimalValue(s[3..5])))
    else None
  }

  lemma DigitRoundTrip(n: int)
    requires 0 <= n <= 9
    ensures DigitValue(DigitChar(n)) == n
  {
  }

  lemma CharRoundTrip(c: char)
    requires IsDigit(c)
    ensures DigitChar(DigitValue(c)) == c
  {
  }

  lemma DecimalValue1(s: string)
    requires |s| == 1 && AllDigits(s)
    ensures DecimalValue(s) == DigitValue(s[0])
  {
    assert s[..0] == [];
  }

  lemma DecimalValue2(s: string)
    requires |s| == 2 && AllDigits(s)
    ensures DecimalValue(s) == DigitValue(s[0]) * 10 + DigitValue(s[1])
  {
    DecimalValue1(s[..1]);
  }

  lemma DecimalValue4(s: string)
    requires |s| == 4 && AllDigits(s)
    ensures DecimalValue(s) == ((DigitValue(s[0]) * 10 + DigitValue(s[1])) * 10 + DigitValue(s[2])) * 10 + DigitValue(s[3])
  {
    DecimalValue2(s[..2]);
    assert s[..3][..2] == s[..2];
    assert DecimalValue(s[..3]) == DecimalValue(s[..2]) * 10 + DigitValue(s[2]);
  }

  lemma Pad2Value(n: int)
    requires 0 <= n < 100
    ensures DecimalValue(Pad2(n)) == n
  {
    DecimalValue2(Pad2(n));
    DigitRoundTrip(n / 10);
    DigitRoundTrip(n % 10);
  }

  lemma Pad4Value(n: int)
    requires 0 <= n < 10000
    ensures DecimalValue(Pad4(n)) == n
  {
    var tens := n / 10;
    var hundreds := tens / 10;
    DecimalValue4(Pad4(n));
    DigitRoundTrip(hundreds / 10);
    DigitRoundTrip(hundreds % 10);
    DigitRoundTrip(tens % 10);
    DigitRoundTrip(n % 10);
  }

  lemma Pad2OfValue(s: string)
    requires |s| == 2 && AllDigits(s)
    ensures DecimalValue(s) < 100
    ensures Pad2(DecimalValue(s)) == s
  {
    DecimalValue2(s);
    CharRoundTrip(s[0]);
    CharRoundTrip(s[1]);
  }

  lemma Pad4OfValue(s: string)
    requires |s| == 4 && AllDigits(s)
    ensures DecimalValue(s) < 10000
    ensures Pad4(DecimalValue(s)) == s
  {
    var a, b, c, d := DigitValue(s[0]), DigitValue(s[1]), DigitValue(s[2]), DigitValue(s[3]);
    DecimalValue4(s);
    var n := DecimalValue(s);
    assert n / 10 == (a * 10 + b) * 10 + c && n % 10 == d;
    assert n / 10 / 10 == a * 10 + b && n / 10 % 10 == c;
    assert n / 10 / 10 / 10 == a && n / 10 / 10 % 10 == b;
    CharRoundTrip(s[0]);
    CharRoundTrip(s[1]);
    CharRoundTrip(s[2]);
    CharRoundTrip(s[3]);
  }

  /** Rendering loses nothing: the rendered text reads back as the same date. */
  lemma {:induction false} ParseFormatRoundTrip(d: Date)
    ensures ParseDate(FormatDate(d)) == Some(d)
  {
    var s := FormatDate(d);
    assert s[..2] == Pad2(d.month);
    assert s[3..5] == Pad2(d.day);
    assert s[6..] == Pad4(d.year);
    Pad2Value(d.month);
    Pad2Value(d.day);
    Pad4Value(d.year);
  }

  /** Every text that reads as a valid date is exactly that date's rendering. */
  lemma {:induction false} FormatParseRoundTrip(s: string)
    requires ParseDate(s).Some? && ValidDate(ParseDate(s).value)
    ensures FormatDate(ParseDate(s).value) == s
  {
    Pad2OfValue(s[..2]);
    Pad2OfValue(s[3..5]);
    Pad4OfValue(s[6..]);
    var d: Date := ParseDate(s).value;
    assert FormatDate(d) == s[..2] + "/" + s[3..5] + "/" + s[6..];
    assert s == s[..2] + [s[2]] + s[3..5] + [s[5]] + s[6..];
  }

  /** Distinct dates render to distinct texts. */
  lemma {:induction false} FormatDateInjective(d1: Date, d2: Date)
    requires FormatDate(d1) == FormatDate(d2)
    ensures d1 == d2
  {
    ParseFormatRoundTrip(d1);
    ParseFormatRoundTrip(d2);
  }
}
