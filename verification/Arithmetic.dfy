/**
 * Products, quotients and remainders, proved once for the modules that lay things out in blocks. Each fact
 * is stated for one pair of block and offset, so that the verifier never has to search for products on its
 * own: scaling keeps order, a number has one quotient and one remainder, and blocks of the same width that
 * follow each other stay inside their total.
 */
module Arithmetic {

  lemma Scaled(a: int, b: int, w: int)
    requires 0 <= w
    ensures a <= b ==> a * w <= b * w
    ensures a < b ==> a * w + w <= b * w
  {
    if a <= b {
      NonNegative(b - a, w);
      assert (b - a) * w == b * w - a * w;
    }
    if a < b {
      NonNegative(b - a - 1, w);
      assert (b - a - 1) * w == b * w - a * w - w;
    }
  }

  lemma NonNegative(x: int, y: int)
    requires 0 <= x && 0 <= y
    ensures 0 <= x * y
  {
  }

  lemma Radix(w: int, q: int, k: int, q': int, k': int)
    requires 0 <= k < w && 0 <= k' < w && q * w + k == q' * w + k'
    ensures q == q' && k == k'
  {
    Scaled(q, q', w);
    Scaled(q', q, w);
  }

  lemma Bounded(w: int, q: int, n: int, k: int)
    requires 0 <= q < n && 0 <= k < w
    ensures 0 <= q * w + k < n * w
  {
    Scaled(q, n, w);
    Scaled(0, q, w);
  }

  lemma Quotient(n: int, w: int, m: int)
    requires 0 <= n < m * w && 0 < w
    ensures 0 <= n / w < m && n == (n / w) * w + n % w
  {
    Scaled(m, n / w, w);
  }

  lemma LastBlock(w: int, n: int, i: int)
    requires 0 < w && 0 <= n && n * w <= i < n * w + w
    ensures i / w == n && i % w == i - n * w
  {
    assert i == (i / w) * w + i % w;
    Radix(w, i / w, i % w, n, i - n * w);
  }

  lemma SameDigits(w: int, i: int, j: int)
    requires 0 < w && i / w == j / w && i % w == j % w
    ensures i == j
  {
    assert i == (i / w) * w + i % w && j == (j / w) * w + j % w;
  }
}
