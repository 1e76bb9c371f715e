/** Facts about products and quotients of variables. */
module Arithmetic {

  lemma ProductMonotone(a: int, b: int, n: nat)
    requires a <= b
    ensures a * n <= b * n && n * a <= n * b
  {
  }

  lemma DivMod(x: int, m: nat)
    requires m > 0
    ensures x == m * (x / m) + x % m && 0 <= x % m < m
  {
  }

  lemma QuotientBounds(total: int, n: nat, f: int)
    requires n > 0 && f * n <= total
    ensures f <= total / n
  {
    var q := total / n;
    DivMod(total, n);
    if q < f { ProductMonotone(q + 1, f, n); }
  }

  lemma QuotientBelow(total: int, n: nat, f: int)
    requires n > 0 && total < f * n
    ensures total / n < f
  {
    var q := total / n;
    DivMod(total, n);
    if q >= f { ProductMonotone(f, q, n); }
  }
}
