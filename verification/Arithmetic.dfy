/** Facts about products and quotients that the solver does not find by itself. */
module Arithmetic {
  lemma MulOrdered(a: int, b: int, c: nat)
    ensures a <= b ==> a * c <= b * c
  {
  }

  /** Quotient and remainder are determined by `a == q * b + r` and `r < b`. */
  lemma DivUnique(a: nat, b: nat, q: nat, r: nat)
    requires a == q * b + r && r < b
    ensures a / b == q && a % b == r
  {
    var p := a / b;
    assert a == p * b + a % b;
    MulOrdered(p + 1, q, b);
    MulOrdered(q + 1, p, b);
    assert (p + 1) * b == p * b + b && (q + 1) * b == q * b + b;
  }
}
