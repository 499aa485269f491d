/** Division and multiplication facts shared by the codecs. */
module Arithmetic {

  lemma AtLeastOnce(d: int, m: int)
    requires d >= 1 && m >= 1
    ensures d * m >= m
  {
  }

  lemma QuotientUnique(x: int, m: int, q: int, r: int)
    requires m >= 1 && 0 <= r < m && x == q * m + r
    ensures x / m == q && x % m == r
  {
    var d := x / m - q;
    assert x == m * (x / m) + x % m;
    assert d * m == r - x % m;
    if d >= 1 { AtLeastOnce(d, m); }
    if -d >= 1 { AtLeastOnce(-d, m); }
  }
}
