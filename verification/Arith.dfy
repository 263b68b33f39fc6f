/** The few facts about products and quotients that the proofs of this project share. */
module Arith {

  lemma MulMono(a: int, b: int, d: int)
    requires a <= b && 0 <= d
    ensures a * d <= b * d
  {
  }

  lemma QuotientUnique(n: int, d: int, k: int, r: int)
    requires 0 <= r < d && n == k * d + r
    ensures n / d == k && n % d == r
  {
    var q, m := n / d, n % d;
    assert n == q * d + m;
    assert (q - k) * d == q * d - k * d;
    if q > k {
      MulMono(1, q - k, d);
    } else if q < k {
      MulMono(q - k, -1, d);
    }
  }
}
