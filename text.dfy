/**
  The string handling the habit tracker relies on: Python's `str.strip()`
  test for blank names, decimal rendering of integers (an f-string `{n}`),
  and the `YYYY-MM-DD` form of a date (ISO 8601 calendar date, extended
  format, section 4.1.2.2 of ISO 8601:2004) written by `strftime` and read
  back by `strptime`.
*/
module Text {
  import opened Failures
  import opened Calendar

  // ---------------------------------------------------------------------------
  // Blank strings

  /** Python's str.isspace() on one character. */
  predicate IsSpace(c: char) {
    var n := c as int;
    (0x09 <= n <= 0x0D) || (0x1C <= n <= 0x20) || n == 0x85 || n == 0xA0 || n == 0x1680
    || (0x2000 <= n <= 0x200A) || n == 0x2028 || n == 0x2029 || n == 0x202F || n == 0x205F || n == 0x3000
  }

  /** s with its leading whitespace removed (str.lstrip()). */
  function StripStart(s: string): (r: string)
    ensures |r| <= |s| && r == s[|s| - |r|..]
    ensures r == [] || !IsSpace(r[0])
    ensures forall i :: 0 <= i < |s| - |r| ==> IsSpace(s[i])
  {
    if s != [] && IsSpace(s[0]) then StripStart(s[1..]) else s
  }

  /** s with its trailing whitespace removed (str.rstrip()). */
  function StripEnd(s: string): (r: string)
    ensures |r| <= |s| && r == s[..|r|]
    ensures r == [] || !IsSpace(r[|r| - 1])
    ensures forall i :: |r| <= i < |s| ==> IsSpace(s[i])
  {
    if s != [] && IsSpace(s[|s| - 1]) then StripEnd(s[..|s| - 1]) else s
  }

  /** str.strip(). */
  function Strip(s: string): string {
    StripEnd(StripStart(s))
  }

  /** `not s.strip()`: the test the source applies to names and periodicities. */
  predicate IsBlank(s: string) {
    Strip(s) == []
  }

  /** A string is blank exactly when every character of it is whitespace. */
  lemma BlankIffAllSpace(s: string)
    ensures IsBlank(s) <==> forall i :: 0 <= i < |s| ==> IsSpace(s[i])
  {
    var t := StripStart(s);
    if t != [] {
      assert !IsSpace(t[0]);
      assert StripEnd(t) != [];
      assert !IsSpace(s[|s| - |t|]);
    }
  }

  /** A string that starts with a non-space character is not blank. */
  lemma NotBlank(s: string)
    requires s != [] && !IsSpace(s[0])
    ensures !IsBlank(s)
  {
    BlankIffAllSpace(s);
  }

  // ---------------------------------------------------------------------------
  // Decimal digits

  predicate IsDigit(c: char) {
    '0' <= c <= '9'
  }

  predicate AllDigits(s: string) {
    forall i :: 0 <= i < |s| ==> IsDigit(s[i])
  }

  function DigitChar(n: int): (c: char)
    requires 0 <= n <= 9
    ensures IsDigit(c) && c as int - '0' as int == n
  {
    ('0' as int + n) as char
  }

  function DigitValue(c: char): int {
    c as int - '0' as int
  }

  /** The number a string of decimal digits denotes. */
  function DigitsValue(s: string): int {
    if s == [] then 0 else DigitsValue(s[..|s| - 1]) * 10 + DigitValue(s[|s| - 1])
  }

  /** Python's rendering of a natural number: no sign, no leading zeros. */
  function Decimal(n: nat): (s: string)
    ensures 1 <= |s| && AllDigits(s)
    ensures s[0] == '0' ==> n == 0
  {
    if n < 10 then [DigitChar(n)] else Decimal(n / 10) + [DigitChar(n % 10)]
  }

  /** Python's str() of an integer: a minus sign before a negative number. */
  function IntString(i: int): (s: string)
    ensures 1 <= |s|
    ensures forall k :: 0 <= k < |s| ==> s[k] == '-' || IsDigit(s[k])
  {
    if i < 0 then "-" + Decimal(-i) else Decimal(i)
  }

  /** Reads back what IntString wrote. */
  function ParseInt(s: string): int {
    if s != [] && s[0] == '-' then -DigitsValue(s[1..]) else DigitsValue(s)
  }

  lemma {:induction false} DecimalValue(n: nat)
    ensures DigitsValue(Decimal(n)) == n
  {
    var s := Decimal(n);
    assert s[..|s| - 1] == if n < 10 then [] else Decimal(n / 10);
    if n >= 10 {
      DecimalValue(n / 10);
    }
  }

  /** IntString loses nothing: the number can be read back from it. */
  lemma IntStringRoundTrip(i: int)
    ensures ParseInt(IntString(i)) == i
  {
    if i < 0 {
      DecimalValue(-i);
      assert IntString(i)[1..] == Decimal(-i);
    } else {
      DecimalValue(i);
    }
  }

  /** Distinct integers are rendered as distinct strings. */
  lemma IntStringInjective(i: int, j: int)
    ensures IntString(i) == IntString(j) ==> i == j
  {
    IntStringRoundTrip(i);
    IntStringRoundTrip(j);
  }

  // ---------------------------------------------------------------------------
  // YYYY-MM-DD

  /** The last `width` decimal digits of n, zero-padded (strftime's %Y, %m, %d). */
  function Fixed(n: nat, width: nat): (s: string)
    ensures |s| == width && AllDigits(s)
  {
    if width == 0 then [] else Fixed(n / 10, width - 1) + [DigitChar(n % 10)]
  }

  function Pow10(width: nat): nat {
    if width == 0 then 1 else 10 * Pow10(width - 1)
  }

  lemma {:induction false} FixedValue(n: nat, width: nat)
    requires n < Pow10(width)
    ensures DigitsValue(Fixed(n, width)) == n
  {
    if width > 0 {
      var s := Fixed(n, width);
      assert s[..width - 1] == Fixed(n / 10, width - 1);
      FixedValue(n / 10, width - 1);
    }
  }

  /** A string of digits is the zero-padded rendering of its own value. */
  lemma {:induction false} FixedOfDigits(s: string)
    requires AllDigits(s)
    ensures 0 <= DigitsValue(s) < Pow10(|s|)
    ensures Fixed(DigitsValue(s), |s|) == s
  {
    if s != [] {
      var t := s[..|s| - 1];
      FixedOfDigits(t);
      var v := DigitsValue(s);
      assert v / 10 == DigitsValue(t) && v % 10 == DigitValue(s[|s| - 1]);
      assert s == t + [s[|s| - 1]];
    }
  }

  /** date.strftime("%Y-%m-%d") for a date with a four-digit year. */
  function FormatDate(d: CalendarDate): (s: string)
    ensures |s| == 10 && s[4] == '-' && s[7] == '-'
  {
    Fixed(d.year, 4) + "-" + Fixed(d.month, 2) + "-" + Fixed(d.day, 2)
  }

  /** The characters of s at the digit positions of YYYY-MM-DD are digits. */
  predicate DateShaped(s: string) {
    |s| == 10 && s[4] == '-' && s[7] == '-'
    && AllDigits(s[..4]) && AllDigits(s[5..7]) && AllDigits(s[8..])
  }

  /**
    datetime.strptime(s, "%Y-%m-%d") for the canonical zero-padded form: the
    fields must be digits at their positions and name a date that exists.
  */
  function ParseDate(s: string): Result<CalendarDate> {
    if !DateShaped(s) then Err(InvalidDate)
    else
      var d := Date(DigitsValue(s[..4]), DigitsValue(s[5..7]), DigitsValue(s[8..]));
      if IsValidDate(d) then var c: CalendarDate := d; Ok(c) else Err(InvalidDate)
  }

  /** Reading a written date gives the date back. */
  lemma ParseFormatDate(d: CalendarDate)
    ensures ParseDate(FormatDate(d)) == Ok(d)
  {
    var s := FormatDate(d);
    assert s[..4] == Fixed(d.year, 4);
    assert s[5..7] == Fixed(d.month, 2);
    assert s[8..] == Fixed(d.day, 2);
    assert Pow10(2) == 100 && Pow10(4) == 10000;
    FixedValue(d.year, 4);
    FixedValue(d.month, 2);
    FixedValue(d.day, 2);
  }

  /** Every string ParseDate accepts is the one FormatDate writes for its date. */
  lemma FormatParseDate(s: string)
    ensures ParseDate(s).Ok? ==> FormatDate(ParseDate(s).value) == s
  {
    if ParseDate(s).Ok? {
      FixedOfDigits(s[..4]);
      FixedOfDigits(s[5..7]);
      FixedOfDigits(s[8..]);
      assert s == s[..4] + "-" + s[5..7] + "-" + s[8..];
    }
  }
}
