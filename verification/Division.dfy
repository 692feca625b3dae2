/** Quotients and remainders. */
module Division {
  lemma MulMonotone(x: int, y: int, unit: int)
    requires x <= y && 0 <= unit
    ensures x * unit <= y * unit
  {
  }

  lemma DivBounds(offset: int, from: int, to: int, unit: int)
    requires unit > 0
    requires from * unit <= offset < to * unit
    ensures from <= offset / unit < to
  {
    var quotient := offset / unit;
    assert quotient * unit <= offset < (quotient + 1) * unit;
    if quotient < from {
      MulMonotone(quotient + 1, from, unit);
    }
    if to <= quotient {
      MulMonotone(to, quotient, unit);
    }
  }

  lemma ModUnique(x: int, q: int, r: int, m: int)
    requires m > 0 && 0 <= r < m && x == q * m + r
    ensures x % m == r && x / m == q
  {
    assert (q + 1) * m == q * m + m;
    DivBounds(x, q, q + 1, m);
    DivMod(x, m);
  }

  lemma DivMod(x: int, m: int)
    requires m > 0
    ensures x == x / m * m + x % m
  {
  }

  lemma QuotientBounds(x: nat, d: nat)
    requires 0 < d
    ensures x / d * d <= x < (x / d + 1) * d
  {
  }
}
