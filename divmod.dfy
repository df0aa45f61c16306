/** Mixed-radix arithmetic facts used by the port index helpers, and the
    powers of two shared by the hash table and the doubling analysis. */
module DivMod {

  /** 2^k. */
  function Pow2(k: nat): (p: nat)
    ensures p >= 1
  {
    if k == 0 then 1 else 2 * Pow2(k - 1)
  }

  lemma MulMono(x: int, y: int, n: int)
    requires x <= y && n >= 0
    ensures x * n <= y * n
  {
    assert y * n - x * n == (y - x) * n;
  }

  /** x*n + r with 0 <= x < bound and 0 <= r < n lies in [0, bound*n). */
  lemma MixRange(x: int, bound: int, r: int, n: int)
    requires 0 <= x < bound && 0 <= r < n
    ensures 0 <= x * n + r < bound * n
  {
    MulMono(0, x, n);
    MulMono(x, bound - 1, n);
    assert (bound - 1) * n == bound * n - n;
  }

  /** Division and remainder recover the digits of x*n + r. */
  lemma MixDecode(x: int, r: int, n: int)
    requires 0 <= r < n
    ensures (x * n + r) / n == x && (x * n + r) % n == r
  {
    var k := x * n + r;
    var q, m := k / n, k % n;
    assert k == q * n + m;
    assert (x - q) * n == m - r;
    if x - q >= 1 {
      MulMono(1, x - q, n);
    } else if x - q <= -1 {
      MulMono(x - q, -1, n);
    }
  }

  /** Every k in [0, bound*n) is (k/n)*n + k%n with k/n in [0, bound). */
  lemma MixSplit(k: int, bound: int, n: int)
    requires n > 0 && 0 <= k < bound * n
    ensures 0 <= k / n < bound && 0 <= k % n < n
    ensures k == (k / n) * n + k % n
  {
    var q := k / n;
    assert k == q * n + k % n;
    if q >= bound {
      MulMono(bound, q, n);
    }
    if q < 0 {
      MulMono(q, -1, n);
    }
  }
}
