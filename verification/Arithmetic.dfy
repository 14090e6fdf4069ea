/** Facts about products, quotients and remainders used across the project. */
module Arithmetic {

  lemma MulAtLeast(x: nat, d: int)
    ensures d >= 1 ==> x * d >= x
    ensures d <= -1 ==> x * d <= -1 * x
  {
  }

  lemma ModUnique(x: int, m: nat, q: int, r: int)
    requires 0 < m && x == m * q + r && 0 <= r < m
    ensures x % m == r && x / m == q
  {
    assert m * (q - x / m) == x % m - r;
    MulAtLeast(m, q - x / m);
  }

  lemma ModAdd(x: int, y: int, m: nat)
    requires 0 < m && y % m == 0
    ensures (x + y) % m == x % m && (x - y) % m == x % m
  {
    assert m * (x / m + y / m) == m * (x / m) + m * (y / m);
    ModUnique(x + y, m, x / m + y / m, x % m);
    assert m * (x / m - y / m) == m * (x / m) - m * (y / m);
    ModUnique(x - y, m, x / m - y / m, x % m);
  }

  lemma ModStep(x: int, m: nat)
    requires 0 < m
    ensures (x - m) % m == x % m
  {
    ModUnique(m, m, 1, 0);
    ModAdd(x, m, m);
  }

  /** Two different multiples of `m` are at least `m` apart. */
  lemma AlignedGap(x: int, y: int, m: nat)
    requires 0 < m && x % m == 0 && y % m == 0
    ensures x < y ==> x + m <= y
  {
    assert y - x == m * (y / m - x / m);
    MulAtLeast(m, y / m - x / m);
  }
}
