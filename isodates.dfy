/** The complete calendar-date extended format `YYYY-MM-DD` of ISO 8601
    (section 4.1.2.2 of ISO 8601:2004), as `strftime('%Y-%m-%d')` writes it
    and the store's readers parse it back, and the `YYYY-MM` month key. */
module IsoDates {
  import opened Calendar
  import opened Optional

  predicate IsDigit(c: char) {
    '0' <= c <= '9'
  }

  predicate AllDigits(s: string) {
    forall k :: 0 <= k < |s| ==> IsDigit(s[k])
  }

  function Digit(n: int): (c: char)
    requires 0 <= n <= 9
    ensures IsDigit(c)
  {
    ('0' as int + n) as char
  }

  function DigitValue(c: char): (n: int)
    requires IsDigit(c)
    ensures 0 <= n <= 9
  {
    c as int - '0' as int
  }

  /** The value of a string of decimal digits, most significant first. */
  function Number(s: string): (n: nat)
    requires AllDigits(s)
  {
    if s == [] then 0 else Number(s[..|s| - 1]) * 10 + DigitValue(s[|s| - 1])
  }

  /** Two-digit zero-padded decimal (`%m`, `%d`). */
  function Pad2(n: int): (s: string)
    requires 0 <= n <= 99
    ensures |s| == 2 && AllDigits(s)
  {
    [Digit(n / 10), Digit(n % 10)]
  }

  /** Four-digit zero-padded decimal (`%Y`). */
  function Pad4(n: int): (s: string)
    requires 0 <= n <= 9999
    ensures |s| == 4 && AllDigits(s)
  {
    [Digit(n / 1000), Digit(n / 100 % 10), Digit(n / 10 % 10), Digit(n % 10)]
  }

  lemma DigitRoundTrip(n: int)
    requires 0 <= n <= 9
    ensures DigitValue(Digit(n)) == n
  {
  }

  /** Unfolds `Number` on strings of two and of four digits. */
  lemma NumberOfTwo(s: string)
    requires |s| == 2 && AllDigits(s)
    ensures Number(s) == DigitValue(s[0]) * 10 + DigitValue(s[1])
  {
    var s1 := s[..1];
    assert s1[..0] == [];
    assert Number(s1) == DigitValue(s[0]);
  }

  lemma NumberOfFour(s: string)
    requires |s| == 4 && AllDigits(s)
    ensures Number(s) == DigitValue(s[0]) * 1000 + DigitValue(s[1]) * 100 + DigitValue(s[2]) * 10 + DigitValue(s[3])
  {
    var s3 := s[..3];
    assert s3[..2] == s[..2];
    NumberOfTwo(s[..2]);
    assert Number(s3) == Number(s[..2]) * 10 + DigitValue(s[2]);
  }

  lemma Pad2RoundTrip(n: int)
    requires 0 <= n <= 99
    ensures Number(Pad2(n)) == n
  {
    NumberOfTwo(Pad2(n));
    DigitRoundTrip(n / 10);
    DigitRoundTrip(n % 10);
  }

  lemma Pad4RoundTrip(n: int)
    requires 0 <= n <= 9999
    ensures Number(Pad4(n)) == n
  {
    var s := Pad4(n);
    NumberOfFour(s);
    DigitRoundTrip(n / 1000);
    DigitRoundTrip(n / 100 % 10);
    DigitRoundTrip(n / 10 % 10);
    DigitRoundTrip(n % 10);
    DecimalDigits(n);
  }

  /** A number below 10000 is the sum of its four decimal digits' place values. */
  lemma DecimalDigits(n: int)
    requires 0 <= n <= 9999
    ensures n == n / 1000 * 1000 + n / 100 % 10 * 100 + n / 10 % 10 * 10 + n % 10
  {
    assert n / 100 == n / 1000 * 10 + n / 100 % 10;
    assert n / 10 == n / 100 * 10 + n / 10 % 10;
  }

  /** The date as `date.strftime('%Y-%m-%d')` writes it. */
  function IsoDate(d: Date): (s: string)
    requires IsValid(d)
    ensures |s| == 10 && s[4] == '-' && s[7] == '-'
  {
    Pad4(d.year) + "-" + Pad2(d.month) + "-" + Pad2(d.day)
  }

  /** The month key `YYYY-MM`, as `STRFTIME('%Y-%m', Date)` and
      `to_period('M').astype(str)` write it. */
  function MonthKey(d: Date): (s: string)
    requires IsValid(d)
    ensures |s| == 7 && s[4] == '-'
  {
    Pad4(d.year) + "-" + Pad2(d.month)
  }

  /** Reading a stored date back: exactly ten characters `DDDD-DD-DD` naming a
      valid calendar date; anything else is rejected. */
  function ParseIsoDate(s: string): (r: Option<Date>)
    ensures r.Some? ==> IsValid(r.value)
  {
    if |s| == 10 && s[4] == '-' && s[7] == '-'
       && AllDigits(s[..4]) && AllDigits(s[5..7]) && AllDigits(s[8..])
    then
      var d := Date(Number(s[..4]), Number(s[5..7]), Number(s[8..]));
      if IsValid(d) then Some(d) else None
    else None
  }

  /** Writing a date and reading it back gives the same date. */
  lemma ParseFormatted(d: Date)
    requires IsValid(d)
    ensures ParseIsoDate(IsoDate(d)) == Some(d)
  {
    var s := IsoDate(d);
    assert s[..4] == Pad4(d.year);
    assert s[5..7] == Pad2(d.month);
    assert s[8..] == Pad2(d.day);
    Pad4RoundTrip(d.year);
    Pad2RoundTrip(d.month);
    Pad2RoundTrip(d.day);
  }

  /** The parser accepts only the canonical spelling: whatever it reads is
      exactly what `strftime` would write for that date. */
  lemma FormattedParse(s: string, d: Date)
    requires ParseIsoDate(s) == Some(d)
    ensures IsoDate(d) == s
  {
    DigitsRoundTrip4(s[..4]);
    DigitsRoundTrip2(s[5..7]);
    DigitsRoundTrip2(s[8..]);
    assert s == s[..4] + "-" + s[5..7] + "-" + s[8..];
  }

  lemma DigitsRoundTrip2(s: string)
    requires |s| == 2 && AllDigits(s)
    ensures Number(s) <= 99 && Pad2(Number(s)) == s
  {
    NumberOfTwo(s);
  }

  lemma DigitsRoundTrip4(s: string)
    requires |s| == 4 && AllDigits(s)
    ensures Number(s) <= 9999 && Pad4(Number(s)) == s
  {
    NumberOfFour(s);
    var a, b, c, e := DigitValue(s[0]), DigitValue(s[1]), DigitValue(s[2]), DigitValue(s[3]);
    var n := Number(s);
    assert n == a * 1000 + b * 100 + c * 10 + e;
    assert n / 1000 == a;
    assert n / 100 == a * 10 + b;
    assert n / 10 == a * 100 + b * 10 + c;
    assert n / 100 % 10 == b;
    assert n / 10 % 10 == c;
    assert n % 10 == e;
    assert Digit(a) == s[0] && Digit(b) == s[1] && Digit(c) == s[2] && Digit(e) == s[3];
  }

  /** The month key is the first seven characters of the written date. */
  lemma MonthKeyIsPrefix(d: Date)
    requires IsValid(d)
    ensures MonthKey(d) == IsoDate(d)[..7]
  {
  }

  /** Two dates share a month key exactly when they fall in the same month
      of the same year. */
  lemma MonthKeySameMonth(a: Date, b: Date)
    requires IsValid(a) && IsValid(b)
    ensures MonthKey(a) == MonthKey(b) <==> (a.year == b.year && a.month == b.month)
  {
    if MonthKey(a) == MonthKey(b) {
      assert MonthKey(a)[..4] == Pad4(a.year) && MonthKey(b)[..4] == Pad4(b.year);
      assert MonthKey(a)[5..] == Pad2(a.month) && MonthKey(b)[5..] == Pad2(b.month);
      Pad4RoundTrip(a.year); Pad4RoundTrip(b.year);
      Pad2RoundTrip(a.month); Pad2RoundTrip(b.month);
    }
  }
}
