/** Division with remainder. */
module Arithmetic {

  /** Quotient and remainder are determined by their equation. */
  lemma DivUnique(a: int, k: int, q: int, r: int)
    requires k > 0 && a == k * q + r && 0 <= r < k
    ensures a / k == q && a % k == r
  {
    var d := a / k - q;
    assert k * d == k * (a / k) - k * q == r - a % k;
    Multiples(k, d);
  }

  lemma Multiples(k: int, d: int)
    requires k > 0
    ensures d >= 1 ==> k * d >= k
    ensures d <= -1 ==> k * d <= -k
  {
  }
}
