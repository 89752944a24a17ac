/** Facts about integer division shared by the countdowns and the tile layout. */
module Arith {
  /** Quotient and remainder are the only pair that recombines to `n` with the remainder
      below the divisor. */
  lemma DivModUnique(n: int, k: int, q: int, r: int)
    requires k > 0 && 0 <= r < k && n == k * q + r
    ensures n / k == q && n % k == r
  {
    var q', r' := n / k, n % k;
    assert k * (q - q') == r' - r;
    if q - q' >= 1 {
      MulAtLeast(k, q - q');
    } else if q' - q >= 1 {
      MulAtLeast(k, q' - q);
    }
  }

  lemma MulAtLeast(k: int, m: int)
    requires k > 0 && m >= 1
    ensures k * m >= k
  {
  }
}
