/** Nonlinear facts that the index arithmetic needs. */
module Arithmetic {

  function Pow2(n: nat): (p: nat)
    ensures 0 < p
  {
    if n == 0 then 1 else 2 * Pow2(n - 1)
  }

  lemma Multiple(d: int, n: int)
    requires 0 < n
    ensures 1 <= d ==> n <= d * n
    ensures d <= -1 ==> d * n <= -n
  {
    if 1 <= d {
      assert d * n == n + (d - 1) * n;
    } else if d <= -1 {
      assert d * n == -n + (d + 1) * n;
    }
  }

  /** Quotient and remainder are unique. */
  lemma QuotientIs(n: int, a: int, q: int, r: int)
    requires 0 < n && a == q * n + r && 0 <= r < n
    ensures a / n == q && a % n == r
  {
    var d := a / n - q;
    assert (a / n) * n + a % n == a;
    assert d * n == r - a % n;
    Multiple(d, n);
  }

  lemma Quotient(a: nat, n: nat)
    requires 0 < n
    ensures 0 <= a / n && n * (a / n) <= a < n * (a / n) + n
    ensures n * (a / n) == a <==> a % n == 0
  {
    assert a == n * (a / n) + a % n;
  }

  lemma Product(a: nat, b: nat, c: nat, d: nat)
    requires a <= b && c <= d
    ensures a * c <= b * d
  {
    assert b * d - a * c == b * (d - c) + (b - a) * c;
  }

  /** Index x of row y in h rows of w. */
  lemma RowIndex(w: nat, h: nat, x: nat, y: nat)
    requires x < w && y < h
    ensures y * w + x < w * h
    ensures (y * w + x) / w == y && (y * w + x) % w == x
  {
    Product(y + 1, h, w, w);
    assert (y + 1) * w == y * w + w;
    QuotientIs(w, y * w + x, y, x);
  }
}
