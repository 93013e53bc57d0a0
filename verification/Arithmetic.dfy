/** Facts about products and quotients that proofs call by name. */
module Arithmetic {

  lemma Distribute(a: int, b: int, p: int)
    ensures (a + b) * p == a * p + b * p
  {}

  lemma Associate(a: int, b: int, p: int)
    ensures a * (b * p) == (a * b) * p
  {}

  lemma MulMonotone(a: nat, b: nat, p: nat)
    requires a <= b
    ensures a * p <= b * p
  {}

  lemma BelowOne(d: int, m: int)
    requires d * m < m && 0 < m
    ensures d <= 0
  {
    if d >= 1 {
      MulMonotone(1, d, m);
    }
  }

  // The quotient and remainder of a division are what the division equation says.
  lemma DivisionIs(x: int, m: int, q: int, r: int)
    requires 0 <= r < m && x == q * m + r
    ensures x / m == q && x % m == r
  {
    var d := x / m - q;
    Distribute(x / m, -q, m);
    Distribute(-(x / m), q, m);
    BelowOne(d, m);
    BelowOne(-d, m);
  }

  lemma Division(x: int, m: int)
    requires m > 0
    ensures x == x / m * m + x % m
  {}

  lemma SameRemainder(x: int, y: int, q: int, m: int)
    requires m > 0 && x == y + q * m
    ensures x % m == y % m
  {
    Distribute(y / m, q, m);
    DivisionIs(x, m, y / m + q, y % m);
  }

  lemma Product(a: nat, b: nat, c: nat, d: nat)
    requires a <= b && c <= d
    ensures a * c <= b * d
  {
    MulMonotone(a, b, c);
    MulMonotone(c, d, b);
  }
}
