/** The few facts about products and quotients that the clock and baud proofs share. */
module Arithmetic {
  lemma ProductOrder(a: int, b: int, k: int)
    requires a <= b && 0 <= k
    ensures a * k <= b * k
  {}

  lemma LessFromProduct(a: int, b: int, d: nat)
    requires a * d < b * d
    ensures a < b
  {}

  /** Division is the quotient with a remainder below the divisor. */
  lemma DivisionBounds(n: nat, d: nat)
    requires d > 0
    ensures n / d * d <= n < (n / d + 1) * d
  {}

  /** And it is the only one. */
  lemma QuotientOf(n: nat, q: nat, r: nat, d: nat)
    requires n == q * d + r && r < d
    ensures n / d == q
  {
    DivisionBounds(n, d);
    assert (q + 1) * d == q * d + d;
    LessFromProduct(n / d, q + 1, d);
    LessFromProduct(q, n / d + 1, d);
  }
}
