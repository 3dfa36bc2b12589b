/** Facts about Euclidean division used to index term-major request orders. */
module Arith {

  /** Multiplying by one more copies the multiplicand once more. */
  lemma MulSucc(n: nat, d: nat)
    ensures (n + 1) * d == d + n * d
  {
  }

  /** A multiple of a positive number that lies strictly between its negation and itself is zero. */
  lemma SmallMultipleIsZero(d: int, p: int)
    requires 0 < p && -p < d * p < p
    ensures d == 0
  {
  }

  /** Quotient and remainder are the unique pair that decomposes `k`. */
  lemma DivUnique(k: int, p: int, q: int, r: int)
    requires 0 < p && 0 <= r < p && k == q * p + r
    ensures k / p == q && k % p == r
  {
    var q0, r0 := k / p, k % p;
    assert k == q0 * p + r0;
    assert (q0 - q) * p == r - r0;
    SmallMultipleIsZero(q0 - q, p);
  }

  /** Subtracting the divisor once lowers the quotient by one and keeps the remainder. */
  lemma DivStep(k: int, p: int)
    requires 0 < p <= k
    ensures k / p == (k - p) / p + 1 && k % p == (k - p) % p
  {
    var q, r := (k - p) / p, (k - p) % p;
    assert k - p == q * p + r;
    assert k == (q + 1) * p + r;
    DivUnique(k, p, q + 1, r);
  }

  /** Below the divisor, the quotient is zero and the remainder is the value itself. */
  lemma DivSmall(k: int, p: int)
    requires 0 <= k < p
    ensures k / p == 0 && k % p == k
  {
  }
}
