/** What division yields. */
module Arithmetic {

  lemma DivModUnique(m: int, n: nat, d: int, e: nat)
    requires 0 < n && m == d * n + e && e < n
    ensures m / n == d && m % n == e
  {
    var x := m / n - d;
    assert x * n == e - m % n;
    assert (x >= 1 ==> x * n >= n) && (x <= -1 ==> x * n <= 0 - n);
  }
}
