/** Integer arithmetic facts the models lean on: Euclidean division and monotone products. */
module Arith {
  lemma DivMod(a: int, d: int)
    requires 0 < d
    ensures a == (a / d) * d + a % d && 0 <= a % d < d
  {
  }

  lemma DivBetween(a: int, d: int, q: int)
    requires 0 < d && q * d <= a < (q + 1) * d
    ensures a / d == q
  {
    DivMod(a, d);
    var p := a / d;
    if p < q {
      assert p + 1 <= q;
      MulMono(p + 1, q, d);
      assert false;
    } else if p > q {
      assert q + 1 <= p;
      MulMono(q + 1, p, d);
      assert false;
    }
  }

  lemma MulMono(a: int, b: int, c: int)
    requires a <= b && 0 <= c
    ensures a * c <= b * c
  {
    assert b * c - a * c == (b - a) * c;
  }

  /** Exact division: a multiple of d divided by d gives the multiplier back. */
  lemma DivExact(a: int, d: int, q: int)
    requires 0 < d && a == q * d
    ensures a / d == q && a % d == 0
  {
    DivModUnique(a, d, q, 0);
  }

  /** Division and remainder are determined by any decomposition a == q * d + r with 0 <= r < d. */
  lemma DivModUnique(a: int, d: int, q: int, r: int)
    requires 0 < d && a == q * d + r && 0 <= r < d
    ensures a / d == q && a % d == r
  {
    assert (q + 1) * d == q * d + d;
    DivBetween(a, d, q);
    DivMod(a, d);
  }
}
