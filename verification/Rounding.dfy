/**
 * Python's `round(n, -1)` on an int: the multiple of 10 nearest to `n`, an exact
 * tie (last digit 5) going to the multiple whose quotient by 10 is even
 * ("round half to even"), for negative `n` as well.
 */
module Rounding {

  function Abs(x: int): nat {
    if x < 0 then -x else x
  }

  predicate IsMultipleOf10(m: int) {
    m % 10 == 0
  }

  function Round10(x: int): (r: int)
    ensures IsMultipleOf10(r)
    ensures Abs(x - r) <= 5
    ensures Abs(x - r) == 5 ==> (r / 10) % 2 == 0
  {
    var q, rem := x / 10, x % 10;
    if rem < 5 || (rem == 5 && q % 2 == 0) then 10 * q else 10 * (q + 1)
  }

  /** No multiple of 10 is closer to `x` than the rounded value. */
  lemma Round10Nearest(x: int, m: int)
    requires IsMultipleOf10(m)
    ensures Abs(x - Round10(x)) <= Abs(x - m)
  {
  }

  /**
   * The three properties in Round10's contract determine its result: any multiple
   * of 10 within 5 of `x` that breaks a tie toward an even quotient is Round10(x).
   */
  lemma Round10Unique(x: int, m: int)
    requires IsMultipleOf10(m)
    requires Abs(x - m) <= 5
    requires Abs(x - m) == 5 ==> (m / 10) % 2 == 0
    ensures m == Round10(x)
  {
  }

  /** A larger score never shows a smaller rounded value. */
  lemma Round10Monotonic(x: int, y: int)
    requires x <= y
    ensures Round10(x) <= Round10(y)
  {
  }

  /** Rounding an already rounded value changes nothing. */
  lemma Round10Idempotent(x: int)
    ensures Round10(Round10(x)) == Round10(x)
  {
  }

  /** Worked cases of the tie rule and of ordinary rounding. */
  lemma Round10Examples()
    ensures Round10(25) == 20 && Round10(35) == 40 && Round10(15) == 20
    ensures Round10(-25) == -20 && Round10(-35) == -40
    ensures Round10(1234) == 1230 && Round10(1236) == 1240 && Round10(1235) == 1240
  {
  }
}
