/**
 * The `,` grouping option of Python's format mini-language (PEP 378) on an int:
 * the decimal digits grouped in threes from the right, groups separated by
 * commas, a `-` in front for negatives.
 */
module Thousands {
  import opened Wrappers
  import opened Decimal

  /** Inserts a comma before every complete group of three digits counted from the right. */
  function Group3(d: string): string {
    if |d| <= 3 then d else Group3(d[..|d| - 3]) + "," + d[|d| - 3..]
  }

  /** `format(x, ",")`. */
  function FormatThousands(x: int): string {
    if x < 0 then "-" + Group3(NatToDecimal(-x)) else Group3(NatToDecimal(x))
  }

  /**
   * What `format(x, ",")` is: grouped digits after a `-` exactly when `x` is
   * negative; without its commas it is `str(x)`, which reads back as `x`.
   */
  lemma FormatThousandsMeaning(x: int)
    ensures RemoveCommas(FormatThousands(x)) == IntToDecimal(x)
    ensures ParseInt(RemoveCommas(FormatThousands(x))) == Some(x)
    ensures |FormatThousands(x)| >= 1 && (x < 0 <==> FormatThousands(x)[0] == '-')
    ensures IsGrouped(if x < 0 then FormatThousands(x)[1..] else FormatThousands(x))
  {
    var digits := NatToDecimal(if x < 0 then -x else x);
    RemoveCommasGroup3(digits);
    Group3Layout(digits);
    ParseIntToDecimal(x);
    if x < 0 {
      RemoveCommasAppend("-", Group3(digits));
      assert ("-" + Group3(digits))[1..] == Group3(digits);
    } else {
      assert Group3(digits)[0] != '-';
    }
  }

  function RemoveCommas(t: string): (u: string)
    ensures |u| <= |t|
    ensures forall i :: 0 <= i < |u| ==> u[i] != ','
  {
    if t == [] then [] else (if t[0] == ',' then [] else [t[0]]) + RemoveCommas(t[1..])
  }

  lemma {:induction false} RemoveCommasAppend(a: string, b: string)
    ensures RemoveCommas(a + b) == RemoveCommas(a) + RemoveCommas(b)
  {
    if a == [] {
      assert a + b == b;
    } else {
      assert (a + b)[0] == a[0] && (a + b)[1..] == a[1..] + b;
      RemoveCommasAppend(a[1..], b);
    }
  }

  lemma {:induction false} RemoveCommasOfDigits(d: string)
    requires AllDigits(d)
    ensures RemoveCommas(d) == d
  {
    if d != [] {
      RemoveCommasOfDigits(d[1..]);
    }
  }

  /** Dropping the separators gives back the digits that were grouped. */
  lemma {:induction false} RemoveCommasGroup3(d: string)
    requires AllDigits(d)
    ensures RemoveCommas(Group3(d)) == d
  {
    if |d| <= 3 {
      RemoveCommasOfDigits(d);
    } else {
      var head, tail := d[..|d| - 3], d[|d| - 3..];
      var g := Group3(head);
      assert Group3(d) == (g + ",") + tail;
      RemoveCommasGroup3(head);
      RemoveCommasOfDigits(tail);
      RemoveCommasAppend(g + ",", tail);
      RemoveCommasAppend(g, ",");
      assert RemoveCommas(",") == [] + RemoveCommas([]);
      assert d == head + tail;
    }
  }

  /**
   * Where the separators sit in grouped text `t`: a comma exactly at the positions
   * whose distance from the end is a multiple of 4, a digit everywhere else, and a
   * length that is not a multiple of 4. So the leading group has 1 to 3 digits
   * and every later group exactly 3.
   */
  predicate IsGrouped(t: string) {
    && |t| % 4 != 0
    && forall i :: 0 <= i < |t| ==> if (|t| - i) % 4 == 0 then t[i] == ',' else IsDigit(t[i])
  }

  /** Appending a comma and three more digits to grouped text keeps it grouped. */
  lemma GroupedAppend(g: string, tail: string)
    requires IsGrouped(g)
    requires |tail| == 3 && AllDigits(tail)
    ensures IsGrouped(g + "," + tail)
  {
  }

  /** Group3 yields grouped text with (|d| - 1) / 3 commas. */
  lemma {:induction false} Group3Layout(d: string)
    requires AllDigits(d) && |d| >= 1
    ensures |Group3(d)| == |d| + (|d| - 1) / 3
    ensures IsGrouped(Group3(d))
  {
    if |d| > 3 {
      var head, tail := d[..|d| - 3], d[|d| - 3..];
      Group3Layout(head);
      GroupedAppend(Group3(head), tail);
    }
  }

  /** Worked cases: numbers below 1000 carry no comma. */
  lemma FormatThousandsSmallExamples()
    ensures FormatThousands(0) == "0" && FormatThousands(999) == "999"
  {
    assert NatToDecimal(9) == "9" && NatToDecimal(99) == "99" && NatToDecimal(999) == "999";
  }

  /** Worked cases: a comma before each complete group of three, the sign in front. */
  lemma FormatThousandsGroupedExamples()
    ensures FormatThousands(1000) == "1,000" && FormatThousands(-1234) == "-1,234"
  {
    assert FormatThousands(1000) == Group3(NatToDecimal(1000));
    assert FormatThousands(-1234) == "-" + Group3(NatToDecimal(1234));
    DecimalExamples();
    assert Group3("1000") == "1,000" by {
      assert "1000"[..1] == "1" && "1000"[1..] == "000";
    }
    assert Group3("1234") == "1,234" by {
      assert "1234"[..1] == "1" && "1234"[1..] == "234";
    }
  }

  lemma DecimalExamples()
    ensures NatToDecimal(1000) == "1000" && NatToDecimal(1234) == "1234"
  {
    assert NatToDecimal(1) == "1" && NatToDecimal(10) == "10" && NatToDecimal(100) == "100";
    assert NatToDecimal(12) == "12" && NatToDecimal(123) == "123";
  }
}
