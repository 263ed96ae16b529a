/**
 * The ANSI colour escape builder of the logging framework: an SGR control
 * sequence "ESC [ <code> m" (section 8.3.117 of ECMA-48), or the empty
 * string when the process-wide colour suppression is on.
 */
module Logging {

  const ESC: char := '\U{1B}'

  predicate IsDigit(c: char) { '0' <= c <= '9' }

  function DigitChar(d: nat): (c: char)
    requires d < 10
    ensures IsDigit(c) && c as int - '0' as int == d
  {
    "0123456789"[d]
  }

  function DigitValue(c: char): (d: nat)
    requires IsDigit(c)
    ensures d < 10 && DigitChar(d) == c
  {
    c as int - '0' as int
  }

  /** Decimal rendering of a natural number, most significant digit first. */
  function NatToDecimal(n: nat): (s: string)
    ensures |s| >= 1
    ensures forall i :: 0 <= i < |s| ==> IsDigit(s[i])
    ensures |s| > 1 ==> s[0] != '0'
    decreases n
  {
    if n < 10 then [DigitChar(n)] else NatToDecimal(n / 10) + [DigitChar(n % 10)]
  }

  /** `std::to_string` of an `int`: a minus sign for negative values, then the digits. */
  function IntToString(x: int): (s: string)
  {
    if x < 0 then "-" + NatToDecimal(-x) else NatToDecimal(x)
  }

  /** The value a string of decimal digits denotes. */
  function ParseNat(s: string): (n: nat)
    requires forall i :: 0 <= i < |s| ==> IsDigit(s[i])
  {
    if |s| == 0 then 0 else ParseNat(s[..|s| - 1]) * 10 + DigitValue(s[|s| - 1])
  }

  /** Every character is a decimal digit. */
  predicate AllDigits(s: string) {
    forall i :: 0 <= i < |s| ==> IsDigit(s[i])
  }

  /** An optional minus sign followed by at least one digit. */
  predicate IsIntLiteral(s: string) {
    if |s| >= 1 && s[0] == '-' then |s| >= 2 && AllDigits(s[1..]) else |s| >= 1 && AllDigits(s)
  }

  /** The inverse of IntToString: an optional minus sign, then digits. */
  function ParseInt(s: string): (x: int)
    requires IsIntLiteral(s)
  {
    if s[0] == '-' then -(ParseNat(s[1..]) as int) else ParseNat(s)
  }

  lemma {:induction false} ParseNatOfDecimal(n: nat)
    ensures ParseNat(NatToDecimal(n)) == n
    decreases n
  {
    if n >= 10 {
      var s := NatToDecimal(n);
      assert s[..|s| - 1] == NatToDecimal(n / 10);
      ParseNatOfDecimal(n / 10);
    }
  }

  /** The rendering of an int reads back as that int. */
  lemma IntToStringRoundTrip(x: int)
    ensures IsIntLiteral(IntToString(x)) && ParseInt(IntToString(x)) == x
  {
    var s := IntToString(x);
    if x < 0 {
      var digits := NatToDecimal(-x);
      assert s == "-" + digits;
      assert s[1..] == digits;
      assert AllDigits(digits);
      ParseNatOfDecimal(-x);
      assert ParseInt(s) == -(ParseNat(digits) as int);
    } else {
      var digits := NatToDecimal(x);
      assert s == digits && AllDigits(digits) && IsDigit(s[0]);
      ParseNatOfDecimal(x);
    }
  }

  /**
   * The escape sequence for colour code `code`; `suppressColor` is the
   * process-wide flag the source reads.
   */
  function StringStreamColor(code: int, suppressColor: bool): (r: string)
    ensures suppressColor ==> r == ""
    ensures !suppressColor ==> |r| == 3 + |IntToString(code)|
    ensures !suppressColor ==> r[0] == ESC && r[1] == '[' && r[|r| - 1] == 'm'
    ensures !suppressColor ==> r[2..|r| - 1] == IntToString(code)
  {
    if suppressColor then "" else [ESC, '['] + IntToString(code) + "m"
  }

  /**
   * An unsuppressed sequence carries its code: reading the parameter between
   * '[' and the final 'm' gives back the code.
   */
  lemma StringStreamColorCarriesCode(code: int)
    ensures var r := StringStreamColor(code, false);
      IsIntLiteral(r[2..|r| - 1]) && ParseInt(r[2..|r| - 1]) == code
  {
    IntToStringRoundTrip(code);
  }

  /** For a non-negative code (every enumerator of the colour code type), the parameter is digits only. */
  lemma StringStreamColorDigitsOnly(code: int)
    requires code >= 0
    ensures var r := StringStreamColor(code, false);
      forall i :: 2 <= i < |r| - 1 ==> IsDigit(r[i])
  {
  }
}
