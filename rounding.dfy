/**
 * `round(price / weight, 0)` taken exactly: the rational quotient rounded to
 * the nearest integer, ties to the even neighbour (Python's rounding rule).
 */
module Rounding {

  function Abs(x: int): nat { if x < 0 then -x else x }

  /**
   * `q` is within half a unit of `p / w`, and even when exactly half a unit
   * away (all multiplied through by `w` so that it stays in the integers).
   */
  predicate NearestEven(q: int, p: int, w: int) {
    2 * Abs(q * w - p) < Abs(w) || (2 * Abs(q * w - p) == Abs(w) && q % 2 == 0)
  }

  lemma MulNeg(q: int, w: int)
    ensures q * (-w) == -(q * w)
  {
  }

  lemma MulSucc(f: int, w: int)
    ensures (f + 1) * w == f * w + w
  {
  }

  lemma DivMod(p: int, w: int)
    requires w > 0
    ensures p == (p / w) * w + p % w && 0 <= p % w < w
  {
  }

  lemma AbsMul(d: int, w: int)
    ensures Abs(d * w) == Abs(d) * Abs(w)
  {
    if d < 0 { MulNeg(w, d); assert d * w == w * d; }
    if w < 0 { MulNeg(d, w); }
    if d < 0 && w < 0 { assert d * w == (-d) * (-w); }
  }

  lemma MulAtLeast(a: nat, b: nat)
    requires a >= 2 && b > 0
    ensures a * b >= 2 * b
  {
  }

  /**
   * The rounded quotient: the nearest integer to `p / w`, the even one on a
   * tie (a negative divisor is first moved to the dividend).
   */
  function RoundHalfEven(p: int, w: int): (q: int)
    requires w != 0
    ensures NearestEven(q, p, w)
    decreases if w < 0 then 1 else 0
  {
    if w < 0 then
      var flipped := RoundHalfEven(-p, -w);
      MulNeg(flipped, w);
      flipped
    else
      DivMod(p, w);
      MulSucc(p / w, w);
      var f, r := p / w, p % w;
      if 2 * r < w then f
      else if 2 * r > w then f + 1
      else if f % 2 == 0 then f
      else f + 1
  }

  lemma MulSub(q: int, q': int, w: int)
    ensures (q - q') * w == q * w - q' * w
  {
  }

  /** Two integers whose multiples of `w` lie within half of `|w|` of the same point differ by at most one. */
  lemma CloseMultiples(a: int, b: int, d: int, w: int)
    requires w != 0 && d * w == a - b
    requires 2 * Abs(a) <= Abs(w) && 2 * Abs(b) <= Abs(w)
    ensures Abs(d) <= 1
    ensures Abs(d) == 1 ==> 2 * Abs(a) == Abs(w) && 2 * Abs(b) == Abs(w)
  {
    AbsMul(d, w);
    if Abs(d) >= 2 {
      MulAtLeast(Abs(d), Abs(w));
    }
  }

  /** The rounded quotient is the only integer with that property, so the rounding rule fully determines it. */
  lemma RoundHalfEvenUnique(q: int, p: int, w: int)
    requires w != 0 && NearestEven(q, p, w)
    ensures q == RoundHalfEven(p, w)
  {
    var q' := RoundHalfEven(p, w);
    MulSub(q, q', w);
    CloseMultiples(q * w - p, q' * w - p, q - q', w);
  }

  /** Python's round(2.5) == 2, round(3.5) == 4, round(-2.5) == -2, and an exact quotient is kept. */
  lemma RoundHalfEvenExamples()
    ensures RoundHalfEven(5, 2) == 2 && RoundHalfEven(7, 2) == 4
    ensures RoundHalfEven(-5, 2) == -2 && RoundHalfEven(5, -2) == -2
    ensures RoundHalfEven(50, 2) == 25
  {
  }
}
