/**
 Integer ceiling division, characterised as a least number of groups.
 */
module Arithmetic {

  lemma MulLe(x: int, y: int, b: nat)
    requires x <= y
    ensures x * b <= y * b
  {
    assert y * b == x * b + (y - x) * b;
  }

  lemma MulLess(x: int, y: int, b: nat)
    requires x * b < y * b
    ensures x < y
  {
    if y <= x {
      MulLe(y, x, b);
    }
  }

  /** `math.ceil(a / b)`. */
  function CeilDiv(a: nat, b: nat): nat
    requires b > 0
  {
    (a + b - 1) / b
  }

  /** `q` groups of `b` hold `a`, and `q - 1` do not. */
  ghost predicate IsCeil(q: nat, a: nat, b: nat) {
    a <= q * b < a + b
  }

  lemma CeilDivIs(a: nat, b: nat)
    requires b > 0
    ensures IsCeil(CeilDiv(a, b), a, b)
    ensures a > 0 <==> CeilDiv(a, b) > 0
  {
  }

  lemma CeilLeast(c: nat, a: nat, b: nat, q: nat)
    requires IsCeil(c, a, b) && a <= q * b
    ensures c <= q
  {
    assert (q + 1) * b == q * b + b;
    MulLess(c, q + 1, b);
  }

  /** Any `q` that holds `a` is at least the ceiling. */
  lemma CeilDivLeast(a: nat, b: nat, q: nat)
    requires b > 0 && a <= q * b
    ensures CeilDiv(a, b) <= q
  {
    CeilDivIs(a, b);
    CeilLeast(CeilDiv(a, b), a, b, q);
  }

  lemma CeilDivUnique(a: nat, b: nat, q: nat)
    requires b > 0 && IsCeil(q, a, b)
    ensures q == CeilDiv(a, b)
  {
    CeilDivIs(a, b);
    CeilLeast(q, a, b, CeilDiv(a, b));
    CeilLeast(CeilDiv(a, b), a, b, q);
  }

  /**
   Spreading `n` over the rows that `m` per row would need gives some `c <= m`
   per row, and `c` per row needs exactly as many rows.
   */
  lemma CeilOfCeil(n: nat, m: nat)
    requires n > 0 && m > 0
    ensures var r := CeilDiv(n, m); r > 0 && var c := CeilDiv(n, r); 1 <= c <= m && CeilDiv(n, c) == r
  {
    var r := CeilDiv(n, m);
    CeilDivIs(n, m);
    assert m * r == r * m;
    CeilDivLeast(n, r, m);
    var c := CeilDiv(n, r);
    CeilDivIs(n, r);
    assert r * c == c * r;
    CeilDivLeast(n, c, r);
    FewerPerRow(n, c, m);
  }

  /** Narrower rows never mean fewer of them. */
  lemma FewerPerRow(n: nat, c: nat, m: nat)
    requires 0 < c <= m
    ensures CeilDiv(n, m) <= CeilDiv(n, c)
  {
    var s := CeilDiv(n, c);
    CeilDivIs(n, c);
    MulLe(c, m, s);
    assert c * s == s * c && m * s == s * m;
    CeilDivLeast(n, m, s);
  }
}
