/**
 Decimal digit strings, and the two `java.lang` parsers the listing parser calls:
 `Integer.parseInt` and `Long.parseLong` in radix 10. A `NumberFormatException`
 is modelled as `None`.
 */
module Decimal {
  import opened Wrappers

  const INT_MIN: int := -0x8000_0000
  const INT_MAX: int := 0x7FFF_FFFF
  const LONG_MIN: int := -0x8000_0000_0000_0000
  const LONG_MAX: int := 0x7FFF_FFFF_FFFF_FFFF

  /** The ASCII digits, which is what `\d` and `[0-9]` match in a Java pattern. */
  predicate IsDigit(c: char) {
    '0' <= c <= '9'
  }

  predicate AllDigits(s: string) {
    forall k :: 0 <= k < |s| ==> IsDigit(s[k])
  }

  function DigitValue(c: char): (d: nat)
    requires IsDigit(c)
    ensures d < 10
  {
    c as int - '0' as int
  }

  function DigitChar(d: nat): (c: char)
    requires d < 10
    ensures IsDigit(c) && DigitValue(c) == d
  {
    ('0' as int + d) as char
  }

  function Pow10(n: nat): (p: nat)
    ensures p >= 1
  {
    if n == 0 then 1 else 10 * Pow10(n - 1)
  }

  /** The value of a digit string, most significant digit first; leading zeros are allowed. */
  function DecimalValue(s: string): (v: nat)
    requires AllDigits(s)
    ensures v < Pow10(|s|)
    decreases |s|
  {
    if |s| == 0 then 0
    else
      10 * DecimalValue(s[..|s| - 1]) + DigitValue(s[|s| - 1])
  }

  /** The `width` lowest decimal digits of `n`, zero-padded on the left (the inverse of DecimalValue). */
  function PadDigits(n: nat, width: nat): (s: string)
    ensures |s| == width && AllDigits(s)
  {
    if width == 0 then "" else PadDigits(n / 10, width - 1) + [DigitChar(n % 10)]
  }

  lemma {:induction false} PadDigitsValue(n: nat, width: nat)
    requires n < Pow10(width)
    ensures DecimalValue(PadDigits(n, width)) == n
  {
    if width > 0 {
      var s := PadDigits(n, width);
      assert s[..width - 1] == PadDigits(n / 10, width - 1);
      PadDigitsValue(n / 10, width - 1);
    }
  }

  /**
   The radix-10 parse shared by `Integer.parseInt` and `Long.parseLong`: an optional
   leading '-' or '+', then at least one digit, and the value must lie in [lo, hi].
   Every other string raises NumberFormatException.
   */
  function JavaParseDecimal(s: string, lo: int, hi: int): (r: Option<int>)
    ensures r.Some? ==> lo <= r.value <= hi
  {
    if |s| == 0 then None
    else if s[0] == '-' || s[0] == '+' then
      if |s| == 1 || !AllDigits(s[1..]) then None
      else
        var magnitude: int := DecimalValue(s[1..]);
        var v: int := if s[0] == '-' then -magnitude else magnitude;
        if lo <= v <= hi then Some(v) else None
    else if AllDigits(s) then
      var v := DecimalValue(s);
      if lo <= v <= hi then Some(v) else None
    else None
  }

  /** `Integer.parseInt(s)`. */
  function ParseInt(s: string): Option<int> {
    JavaParseDecimal(s, INT_MIN, INT_MAX)
  }

  /** `Long.parseLong(s)`. */
  function ParseLong(s: string): Option<int> {
    JavaParseDecimal(s, LONG_MIN, LONG_MAX)
  }

  /** On a non-empty digit string (what a `\d+` group captures) the parse succeeds exactly when the value is at most `hi`. */
  lemma ParseDigitString(s: string, lo: int, hi: int)
    requires |s| > 0 && AllDigits(s) && lo <= 0
    ensures JavaParseDecimal(s, lo, hi) == if DecimalValue(s) <= hi then Some(DecimalValue(s)) else None
  {
    assert IsDigit(s[0]);
  }

  /** A string holding a comma (a device's "major, minor" pair) never parses. */
  lemma ParseRejectsComma(s: string, k: nat, lo: int, hi: int)
    requires k < |s| && s[k] == ','
    ensures JavaParseDecimal(s, lo, hi) == None
  {
    if k > 0 {
      assert s[1..][k - 1] == ',';
    }
  }

  /** Parsing a padded digit string recovers the number it was printed from. */
  lemma {:induction false} ParseLongOfPadDigits(n: nat, width: nat)
    requires 0 < width && n < Pow10(width) && n <= LONG_MAX
    ensures ParseLong(PadDigits(n, width)) == Some(n)
  {
    var s := PadDigits(n, width);
    PadDigitsValue(n, width);
    ParseDigitString(s, LONG_MIN, LONG_MAX);
  }
}
