/** Facts about products that the solver wants one at a time. */
module Arithmetic {
  lemma Distribute(a: int, b: int, k: int)
    ensures (a + b) * k == a * k + b * k
  {}

  lemma NonNegative(a: nat, b: nat)
    ensures a * b >= 0
  {}

  lemma MulStep(i: nat, n: nat, k: nat)
    requires i < n
    ensures (i + 1) * k == i * k + k <= n * k
  {
    Distribute(i, 1, k);
    Distribute(i + 1, n - i - 1, k);
    NonNegative(n - i - 1, k);
  }

  /** Quotient and remainder are determined. */
  lemma DivModUnique(q: nat, r: nat, p: nat, s: nat, d: nat)
    requires r < d && s < d && q * d + r == p * d + s
    ensures q == p && r == s
  {
    if q < p { MulStep(q, p, d); } else if p < q { MulStep(p, q, d); }
  }
}
