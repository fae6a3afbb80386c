/**
 * The few `java.lang` operations the authenticator relies on: decimal parsing of `int` and
 * `long` values, decimal printing of `long` values, `Boolean.parseBoolean`, `Math.floorDiv`
 * and the two's-complement wrap-around of `long` arithmetic.
 */
module JavaLang {
  import opened Wrappers

  const MinInt: int := -0x8000_0000
  const MaxInt: int := 0x7fff_ffff
  const MinLong: int := -0x8000_0000_0000_0000
  const MaxLong: int := 0x7fff_ffff_ffff_ffff
  const LongModulus: int := 0x1_0000_0000_0000_0000

  /** Java `int` values. */
  type Int32 = x: int | MinInt <= x <= MaxInt

  /** Java `long` values. */
  type Int64 = x: int | MinLong <= x <= MaxLong

  /** The exceptions of this model. */
  datatype Exception = NumberFormatException

  /** Two's-complement wrap-around of a mathematical integer into a `long`. */
  function WrapLong(x: int): (r: Int64)
    ensures (r - x) % LongModulus == 0
    ensures MinLong <= x <= MaxLong ==> r == x
  {
    (x - MinLong) % LongModulus + MinLong
  }

  /** `Math.floorDiv`: the largest integer not above the rational quotient `x / y`. */
  function FloorDiv(x: int, y: int): (q: int)
    requires y != 0
    ensures y > 0 ==> y * q <= x < y * q + y
    ensures y < 0 ==> y * q >= x > y * q + y
  {
    if y > 0 then x / y
    else
      var q := (-x) / (-y);
      assert (-y) * q <= -x < (-y) * q + (-y);
      assert (-y) * q == -(y * q);
      q
  }

  predicate IsDigit(c: char) {
    '0' <= c <= '9'
  }

  predicate AllDigits(s: string) {
    forall i :: 0 <= i < |s| ==> IsDigit(s[i])
  }

  function DigitValue(c: char): (d: nat)
    requires IsDigit(c)
    ensures d < 10
  {
    (c as int) - ('0' as int)
  }

  function DigitChar(d: nat): (c: char)
    requires d < 10
    ensures IsDigit(c) && DigitValue(c) == d
  {
    (d + '0' as int) as char
  }

  /** The number a string of decimal digits denotes, most significant digit first. */
  function DigitsValue(s: string): nat
    requires AllDigits(s)
  {
    if s == [] then 0 else 10 * DigitsValue(s[..|s| - 1]) + DigitValue(s[|s| - 1])
  }

  /** The decimal digits of `n`, without leading zeros. */
  function NatToDecimal(n: nat): (s: string)
    ensures |s| > 0 && AllDigits(s)
    ensures s[0] == '0' ==> n == 0
  {
    if n < 10 then [DigitChar(n)] else NatToDecimal(n / 10) + [DigitChar(n % 10)]
  }

  lemma {:induction false} DecimalRoundTrip(n: nat)
    ensures DigitsValue(NatToDecimal(n)) == n
  {
    if n >= 10 {
      var s := NatToDecimal(n);
      assert s[..|s| - 1] == NatToDecimal(n / 10);
      DecimalRoundTrip(n / 10);
    }
  }

  /** `Long.toString`: a minus sign for negative values, then the decimal digits. */
  function LongToString(n: Int64): (s: string)
    ensures |s| > 0
    ensures s[0] == '-' <==> n < 0
  {
    if n < 0 then "-" + NatToDecimal(-(n as int)) else NatToDecimal(n)
  }

  /**
   * The shape `Integer.parseInt` and `Long.parseLong` accept before the range check: an
   * optional `-` or `+` followed by at least one decimal digit.
   */
  predicate IsNumeral(s: string) {
    if |s| > 0 && (s[0] == '-' || s[0] == '+') then |s| > 1 && AllDigits(s[1..])
    else |s| > 0 && AllDigits(s)
  }

  function NumeralValue(s: string): int
    requires IsNumeral(s)
  {
    if s[0] == '-' then -(DigitsValue(s[1..]) as int)
    else if s[0] == '+' then DigitsValue(s[1..])
    else DigitsValue(s)
  }

  /** Decimal parsing into `[lo, hi]`; `None` where Java throws `NumberFormatException`. */
  function ParseSigned(s: Option<string>, lo: int, hi: int): (r: Option<int>)
    ensures r.Some? ==> s.Some? && IsNumeral(s.value) && lo <= r.value <= hi
    ensures r.Some? ==> r.value == NumeralValue(s.value)
    ensures s.Some? && IsNumeral(s.value) && lo <= NumeralValue(s.value) <= hi ==> r.Some?
  {
    if s.Some? && IsNumeral(s.value) && lo <= NumeralValue(s.value) <= hi
    then Some(NumeralValue(s.value))
    else None
  }

  /** `Integer.parseInt`, with `None` for a `null` argument and for every rejected string. */
  function ParseInt(s: Option<string>): (r: Option<Int32>)
    ensures r.Some? ==> s.Some? && IsNumeral(s.value)
    ensures r.Some? ==> r.value == NumeralValue(s.value)
  {
    match ParseSigned(s, MinInt, MaxInt)
    case None => None
    case Some(v) => Some(v)
  }

  /** `Long.parseLong`, with `None` for a `null` argument and for every rejected string. */
  function ParseLong(s: Option<string>): (r: Option<Int64>)
    ensures r.Some? ==> s.Some? && IsNumeral(s.value)
    ensures r.Some? ==> r.value == NumeralValue(s.value)
  {
    match ParseSigned(s, MinLong, MaxLong)
    case None => None
    case Some(v) => Some(v)
  }

  /** Every `long` survives printing with `Long.toString` and parsing with `Long.parseLong`. */
  lemma LongRoundTrip(n: Int64)
    ensures ParseLong(Some(LongToString(n))) == Some(n)
  {
    var s := LongToString(n);
    if n < 0 {
      var m: nat := -(n as int);
      var d := NatToDecimal(m);
      DecimalRoundTrip(m);
      assert s == "-" + d && s[1..] == d;
      assert IsNumeral(s) && NumeralValue(s) == n;
    } else {
      var d := NatToDecimal(n);
      DecimalRoundTrip(n);
      assert s == d && IsDigit(s[0]);
      assert IsNumeral(s) && NumeralValue(s) == n;
    }
  }

  /** Every `int`, printed in decimal, is accepted by `Integer.parseInt` and read back as itself. */
  lemma IntRoundTrip(n: Int32)
    ensures ParseInt(Some(LongToString(n))) == Some(n)
  {
    LongRoundTrip(n);
  }

  lemma ParseRejectsNonNumerals(s: Option<string>)
    requires s.None? || !IsNumeral(s.value)
    ensures ParseInt(s).None? && ParseLong(s).None?
  {
  }

  /** `Integer.parseInt` rejects a numeral whose value lies outside the `int` range. */
  lemma ParseIntRejectsOutOfRange(s: string)
    requires IsNumeral(s) && !(MinInt <= NumeralValue(s) <= MaxInt)
    ensures ParseInt(Some(s)).None?
  {
  }

  function ToLowerAscii(c: char): char {
    if 'A' <= c <= 'Z' then (c as int + 32) as char else c
  }

  /** `String.equalsIgnoreCase`, restricted to ASCII case folding. */
  predicate EqualsIgnoreCase(a: string, b: string) {
    |a| == |b| && forall i :: 0 <= i < |a| ==> ToLowerAscii(a[i]) == ToLowerAscii(b[i])
  }

  /** `Boolean.parseBoolean`: true exactly for a non-null "true" in any letter case. */
  function ParseBoolean(s: Option<string>): (r: bool)
    ensures r ==> s.Some? && |s.value| == 4
  {
    s.Some? && EqualsIgnoreCase(s.value, "true")
  }

  /** `Boolean.parseBoolean` yields true exactly for the four letters of "true", each in either case. */
  lemma ParseBooleanMeaning(s: Option<string>)
    ensures ParseBoolean(s) <==>
      s.Some? && |s.value| == 4 && forall i :: 0 <= i < 4 ==> s.value[i] == "true"[i] || s.value[i] == "TRUE"[i]
  {
  }

  lemma ParseBooleanExamples()
    ensures ParseBoolean(Some("true")) && ParseBoolean(Some("TRUE")) && ParseBoolean(Some("True"))
    ensures !ParseBoolean(Some("false")) && !ParseBoolean(None) && !ParseBoolean(Some("yes"))
  {
    assert ToLowerAscii('T') == 't' && ToLowerAscii('R') == 'r';
    assert ToLowerAscii('U') == 'u' && ToLowerAscii('E') == 'e';
  }
}
