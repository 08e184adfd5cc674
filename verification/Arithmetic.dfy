/** Division with remainder by a variable divisor. */
module Arithmetic {

  lemma MulAway(d: int, m: int)
    requires m > 0
    ensures d > 0 ==> d * m >= m
    ensures d < 0 ==> d * m + m <= 0
  {
    if d > 0 {
      assert (d - 1) * m >= 0;
    } else if d < 0 {
      assert (-d - 1) * m >= 0;
    }
  }

  /** Quotient and remainder are determined by the usual equation. */
  lemma DivModUnique(n: nat, m: nat, q: nat, r: nat)
    requires r < m && n == q * m + r
    ensures n / m == q && n % m == r
  {
    var d := n / m - q;
    assert (n / m) * m + n % m == n;
    assert d * m == r - n % m;
    MulAway(d, m);
  }

  lemma QuotientBelow(n: nat, m: nat, k: nat)
    requires n < m * k
    ensures m > 0 && 0 <= n / m < k
  {
    assert m > 0;
    var q := n / m;
    assert n == q * m + n % m;
    MulAway(q, m);
    MulAway(q - k, m);
    assert (q - k) * m == q * m - m * k;
  }
}
