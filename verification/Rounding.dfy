/**
 Python's `round` on an exact quotient: the nearest integer, ties to even.
 */
module Rounding {

  /** `round(num / den)` in exact arithmetic. */
  function RoundHalfEven(num: int, den: int): int
    requires den > 0
  {
    var floor := num / den;
    var rest := num % den;
    if 2 * rest < den then floor
    else if 2 * rest > den then floor + 1
    else if floor % 2 == 0 then floor
    else floor + 1
  }

  /** `r` is an integer nearest to `num / den`, and the even one of two equally near. */
  ghost predicate IsRounded(r: int, num: int, den: int) {
    && -den <= 2 * (r * den - num) <= den
    && (2 * (r * den - num) == den || 2 * (r * den - num) == -den ==> r % 2 == 0)
  }

  lemma RoundNearest(num: int, den: int)
    requires den > 0
    ensures IsRounded(RoundHalfEven(num, den), num, den)
  {
    var floor := num / den;
    assert num == floor * den + num % den;
    assert (floor + 1) * den == floor * den + den;
  }

  lemma Times(k: nat, den: nat)
    ensures k >= 1 ==> k * den >= den
    ensures k >= 2 ==> k * den >= 2 * den
  {
    if k >= 2 {
      assert k * den == 2 * den + (k - 2) * den;
    }
  }

  /** Multiples of `den` are at least `den` apart. */
  lemma Apart(p: int, q: int, den: int)
    requires den > 0 && p > q
    ensures p * den >= q * den + den
    ensures p >= q + 2 ==> p * den >= q * den + 2 * den
  {
    assert p * den == q * den + (p - q) * den;
    Times(p - q, den);
  }

  /** A larger quotient never rounds to a smaller integer. */
  lemma RoundedMonotone(p: int, a: int, q: int, b: int, den: int)
    requires den > 0 && a <= b
    requires IsRounded(p, a, den) && IsRounded(q, b, den)
    ensures p <= q
  {
    if p > q {
      // both quotients would have to sit on the same tie, with both neighbours even
      Apart(p, q, den);
    }
  }

  /** The tie rule leaves exactly one rounded value. */
  lemma RoundUnique(num: int, den: int, r: int)
    requires den > 0 && IsRounded(r, num, den)
    ensures r == RoundHalfEven(num, den)
  {
    RoundNearest(num, den);
    RoundedMonotone(r, num, RoundHalfEven(num, den), num, den);
    RoundedMonotone(RoundHalfEven(num, den), num, r, num, den);
  }

  lemma RoundMonotone(a: int, b: int, den: int)
    requires den > 0 && a <= b
    ensures RoundHalfEven(a, den) <= RoundHalfEven(b, den)
  {
    RoundNearest(a, den);
    RoundNearest(b, den);
    RoundedMonotone(RoundHalfEven(a, den), a, RoundHalfEven(b, den), b, den);
  }

  lemma RoundWhole(k: int, den: int)
    requires den > 0
    ensures RoundHalfEven(k * den, den) == k
  {
    RoundUnique(k * den, den, k);
  }
}
