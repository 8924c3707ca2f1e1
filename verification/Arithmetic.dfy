/** Division facts the solver does not find alone. */
module Arithmetic {
  lemma Below(m: nat, a: nat, b: nat)
    requires a < b
    ensures m * a + m <= m * b
  {
    assert m * b == m * (a + 1) + m * (b - a - 1);
  }

  lemma Quotient(x: nat, m: nat, q: nat)
    requires m > 0 && q * m <= x < (q + 1) * m
    ensures x / m == q
  {
    var r := x / m;
    assert x == m * r + x % m;
    if r < q { Below(m, r, q); }
    if r > q { Below(m, q, r); }
  }

  /** Numbers a multiple of `m` apart have the same remainder. */
  lemma ModEqual(x: int, y: int, m: nat, k: int)
    requires 0 < m && x == y + k * m
    ensures x % m == y % m
  {
    var q := x / m - y / m - k;
    assert x == m * (x / m) + x % m && y == m * (y / m) + y % m;
    assert m * q == y % m - x % m;
    assert m * q + m * -q == m * (q + -q) == 0;
    if q >= 1 { Below(m, 0, q); }
    if q <= -1 { Below(m, 0, -q); }
  }
}
