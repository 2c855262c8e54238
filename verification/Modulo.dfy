/** Quotients and remainders by uniqueness, and 16-bit numbers. */
module Modulo {

  /** A conversion to int16_t. */
  function Int16(x: int): int {
    (x + 0x8000) % 0x10000 - 0x8000
  }

  lemma Scale(m: int, d: int)
    requires m > 0
    ensures d >= 1 ==> m * d >= m
    ensures d <= -1 ==> m * d <= -m
  {
  }

  lemma Between(m: int, d: int)
    requires -m < m * d < m
    ensures d == 0
  {
    Scale(m, d);
  }

  /** There is one quotient and one remainder. */
  lemma Unique(a: int, m: nat, q: int, r: nat)
    requires r < m && a == m * q + r
    ensures a / m == q && a % m == r
  {
    assert m * (a / m) + a % m == a;
    assert m * (a / m - q) == m * (a / m) - m * q;
    Between(m, a / m - q);
  }

  lemma CountOn(n: nat, m: nat)
    requires m > 0
    ensures (n + 1) % m == if n % m + 1 < m then n % m + 1 else 0
  {
    var q := n / m;
    assert n + 1 == m * q + (n % m + 1);
    if n % m + 1 < m {
      Unique(n + 1, m, q, n % m + 1);
    } else {
      assert m * (q + 1) == m * q + m;
      Unique(n + 1, m, q + 1, 0);
    }
  }

  lemma Next(i: nat, m: nat)
    requires i < m
    ensures (i + 1) % m == if i + 1 < m then i + 1 else 0
  {
    if i + 1 < m {
      Unique(i + 1, m, 0, i + 1);
    } else {
      Unique(i + 1, m, 1, 0);
    }
  }
}
