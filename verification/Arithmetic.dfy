/**
  Powers of two, exclusive or, and what the verifier needs to be told about multiplication and remainders.
 */
module Arithmetic {
  function Pow2(n: nat): (p: nat)
    ensures p > 0
  {
    if n == 0 then 1 else 2 * Pow2(n - 1)
  }

  // The lowest n bits of a ^ b
  function Xor(a: nat, b: nat, n: nat): (x: nat)
    ensures x < Pow2(n)
  {
    if n == 0 then 0 else 2 * Xor(a / 2, b / 2, n - 1) + (a + b) % 2
  }

  lemma MulMono(a: int, b: int, d: nat)
    requires a <= b
    ensures a * d <= b * d
  {
  }

  // The remainder is determined by the quotient
  lemma {:induction false} ModUnique(n: nat, q: nat, d: nat)
    requires d > 0 && q * d <= n < q * d + d
    ensures n % d == n - q * d
  {
    var p := n / d;
    if p < q { MulMono(p + 1, q, d); }
    if q < p { MulMono(q + 1, p, d); }
  }
}
