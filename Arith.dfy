/** Facts about integer multiplication and division used for row-major buffers and count lists. */
module Arith {

  lemma MulOrder(a: int, b: int, m: nat)
    requires a >= b
    ensures a * m >= b * m
  {
    assert a * m == b * m + (a - b) * m;
  }

  /** The quotient and remainder of x by k are the only q, r with x == q * k + r and 0 <= r < k. */
  lemma DivUnique(x: int, k: nat, q: int, r: int)
    requires k > 0 && 0 <= r < k && x == q * k + r
    ensures x / k == q && x % k == r
  {
    var d := x / k - q;
    assert d * k == r - x % k;
    if d >= 1 {
      MulOrder(d, 1, k);
    } else if d <= -1 {
      MulOrder(-1, d, k);
    }
  }

  /** Index bounds of the row-major layout of an n by m buffer. */
  lemma FlatBounds(i: nat, n: nat, m: nat)
    requires i < n * m
    ensures m > 0 && i / m < n && i % m < m
  {
    if i / m >= n {
      MulOrder(i / m, n, m);
    }
  }

  /** Slot s of row v sits at v * m + s of the row-major layout. */
  lemma FlatIndex(v: nat, s: nat, n: nat, m: nat)
    requires v < n && s < m
    ensures v * m + s < n * m && (v * m + s) / m == v && (v * m + s) % m == s
  {
    MulOrder(n, v + 1, m);
    DivUnique(v * m + s, m, v, s);
  }
}
