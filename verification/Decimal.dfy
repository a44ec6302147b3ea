/**
 * Decimal text of integers: the serialiser `str(n)` that writes the high-score
 * file and formats the score and level, and the parser `int(text)` that reads
 * the file back. The parser accepts an optional sign followed by one or more
 * ASCII digits, leading zeros allowed.
 */
module Decimal {
  import opened Wrappers

  predicate IsDigit(c: char) {
    '0' <= c <= '9'
  }

  predicate AllDigits(s: string) {
    forall i :: 0 <= i < |s| ==> IsDigit(s[i])
  }

  function DigitChar(d: nat): (c: char)
    requires d < 10
    ensures IsDigit(c)
  {
    (48 + d) as char
  }

  function DigitValue(c: char): (d: nat)
    requires IsDigit(c)
    ensures d < 10 && DigitChar(d) == c
  {
    c as int - 48
  }

  /** The value of a string of digits, most significant first. */
  function DigitsValue(s: string): nat
    requires AllDigits(s)
  {
    if s == [] then 0 else DigitsValue(s[..|s| - 1]) * 10 + DigitValue(s[|s| - 1])
  }

  /** Canonical decimal digits of a natural number: no leading zero unless the number is 0. */
  function NatToDecimal(n: nat): (s: string)
    ensures |s| >= 1 && AllDigits(s)
    ensures s[0] == '0' <==> n == 0
    ensures n == 0 ==> s == "0"
  {
    if n < 10 then [DigitChar(n)] else NatToDecimal(n / 10) + [DigitChar(n % 10)]
  }

  /** Python's `str` on an int: a `-` before the magnitude's digits for negatives. */
  function IntToDecimal(x: int): (s: string)
    ensures |s| >= 1
    ensures x >= 0 ==> AllDigits(s)
    ensures x < 0 ==> s[0] == '-' && AllDigits(s[1..])
  {
    if x < 0 then "-" + NatToDecimal(-x) else NatToDecimal(x)
  }

  /**
   * Python's `int` on a string, restricted to an optional `+` or `-` sign followed by
   * at least one ASCII digit; any other text is a parse failure (`ValueError`).
   */
  function ParseInt(s: string): (r: Option<int>)
    ensures r.Some? <==> ((|s| >= 1 && AllDigits(s)) || (|s| >= 2 && (s[0] == '-' || s[0] == '+') && AllDigits(s[1..])))
  {
    if |s| >= 1 && (s[0] == '-' || s[0] == '+') then
      if |s| >= 2 && AllDigits(s[1..]) then
        Some(if s[0] == '-' then -(DigitsValue(s[1..]) as int) else DigitsValue(s[1..]))
      else None
    else if |s| >= 1 && AllDigits(s) then Some(DigitsValue(s))
    else None
  }

  lemma {:induction false} DigitsValueOfDecimal(n: nat)
    ensures DigitsValue(NatToDecimal(n)) == n
  {
    if n >= 10 {
      var s := NatToDecimal(n);
      assert s[..|s| - 1] == NatToDecimal(n / 10);
      DigitsValueOfDecimal(n / 10);
    }
  }

  /** Reading back what `str` wrote gives the same integer. */
  lemma {:induction false} ParseIntToDecimal(x: int)
    ensures ParseInt(IntToDecimal(x)) == Some(x)
  {
    if x < 0 {
      var d := NatToDecimal(-x);
      var s := "-" + d;
      assert s == IntToDecimal(x);
      assert s[0] == '-' && s[1..] == d && |s| >= 2;
      DigitsValueOfDecimal(-x);
      assert ParseInt(s) == Some(-(DigitsValue(d) as int));
    } else {
      var s := NatToDecimal(x);
      assert IsDigit(s[0]);
      DigitsValueOfDecimal(x);
      assert ParseInt(s) == Some(DigitsValue(s));
    }
  }

  /** A `+` sign changes nothing about the parsed value. */
  lemma ParseIntPlusSign(d: string)
    requires |d| >= 1 && AllDigits(d)
    ensures ParseInt("+" + d) == ParseInt(d)
  {
  }

  /** A `-` sign negates the parsed value (so `-0` parses as 0). */
  lemma ParseIntMinusSign(d: string)
    requires |d| >= 1 && AllDigits(d)
    ensures ParseInt(d).Some? && ParseInt("-" + d) == Some(-ParseInt(d).value)
  {
  }

  lemma {:induction false} DigitsValueLeadingZero(d: string)
    requires AllDigits(d)
    ensures AllDigits("0" + d) && DigitsValue("0" + d) == DigitsValue(d)
  {
    if d != [] {
      var z := "0" + d;
      assert z[..|z| - 1] == "0" + d[..|d| - 1];
      assert z[|z| - 1] == d[|d| - 1];
      DigitsValueLeadingZero(d[..|d| - 1]);
    }
  }

  /** Leading zeros do not change the parsed value. */
  lemma ParseIntLeadingZero(d: string)
    requires |d| >= 1 && AllDigits(d)
    ensures ParseInt("0" + d) == ParseInt(d)
  {
    DigitsValueLeadingZero(d);
  }

  lemma {:induction false} LeadingNonZeroPositive(s: string)
    requires AllDigits(s) && |s| >= 1 && s[0] != '0'
    ensures DigitsValue(s) >= 1
  {
    if |s| >= 2 {
      LeadingNonZeroPositive(s[..|s| - 1]);
    }
  }

  /** Digits without a superfluous leading zero are exactly what `str` writes for their value. */
  lemma {:induction false} DecimalOfDigitsValue(s: string)
    requires AllDigits(s) && |s| >= 1
    requires s[0] == '0' ==> |s| == 1
    ensures NatToDecimal(DigitsValue(s)) == s
  {
    if |s| >= 2 {
      var p, d := s[..|s| - 1], DigitValue(s[|s| - 1]);
      var n := DigitsValue(s);
      LeadingNonZeroPositive(p);
      DecimalOfDigitsValue(p);
      assert n == DigitsValue(p) * 10 + d;
      assert n / 10 == DigitsValue(p) && n % 10 == d;
      assert NatToDecimal(n) == NatToDecimal(DigitsValue(p)) + [DigitChar(d)];
      assert s == p + [s[|s| - 1]];
    }
  }

  /** Text that `str` could have produced: canonical digits, optionally after `-` for a non-zero magnitude. */
  predicate IsCanonical(s: string) {
    if |s| >= 1 && s[0] == '-' then |s| >= 2 && AllDigits(s[1..]) && s[1] != '0'
    else |s| >= 1 && AllDigits(s) && (s[0] == '0' ==> |s| == 1)
  }

  /** Every canonical text parses, and writing the parsed value back reproduces the text. */
  lemma {:induction false} DecimalOfParseInt(s: string)
    requires IsCanonical(s)
    ensures ParseInt(s).Some? && IntToDecimal(ParseInt(s).value) == s
  {
    if s[0] == '-' {
      var d := s[1..];
      LeadingNonZeroPositive(d);
      DecimalOfDigitsValue(d);
      assert s == "-" + d;
    } else {
      DecimalOfDigitsValue(s);
    }
  }

  /** `str` always produces canonical text. */
  lemma IntToDecimalIsCanonical(x: int)
    ensures IsCanonical(IntToDecimal(x))
  {
  }
}
