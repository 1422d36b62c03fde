/** Arithmetic facts that both average computations need. */
module Arith {

  /** One more copy of `k` in a product. */
  lemma MulSucc(n: int, k: int)
    ensures (n + 1) * k == n * k + k
  {
  }

  /** Converting a product of integers to a real is the product of the converted factors. */
  lemma CastProduct(a: int, b: int)
    ensures (a * b) as real == a as real * b as real
  {
  }

  /** A total between `n*lo` and `n*hi` over a positive count `n` lies between `lo` and `hi`. */
  lemma QuotientBounds(s: real, n: real, lo: real, hi: real)
    requires n > 0.0 && n * lo <= s <= n * hi
    ensures lo <= s / n <= hi
  {
    var q := s / n;
    assert s == q * n;
  }

  /** A sum of `n > 0` integers between `n * lo` and `n * hi` has its mean between `lo` and `hi`. */
  lemma MeanBetween(s: int, n: int, lo: int, hi: int)
    requires n > 0 && n * lo <= s <= n * hi
    ensures lo as real <= s as real / n as real <= hi as real
  {
    CastProduct(n, lo);
    CastProduct(n, hi);
    QuotientBounds(s as real, n as real, lo as real, hi as real);
  }
}
