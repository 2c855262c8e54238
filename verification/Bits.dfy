/** Bit masks on natural numbers: and, powers of two, and what a mask of ones does. */
module Bits {
  import opened Modulo

  function Pow2(k: nat): (p: nat)
    ensures p >= 1
  {
    if k == 0 then 1 else 2 * Pow2(k - 1)
  }

  /** a & b */
  function And(a: nat, b: nat): nat
    decreases a + b
  {
    if a == 0 && b == 0 then 0 else 2 * And(a / 2, b / 2) + (if a % 2 == 1 && b % 2 == 1 then 1 else 0)
  }

  /** A mask of ones takes the remainder. */
  lemma {:induction false} MaskIsRemainder(x: nat, k: nat)
    ensures And(x, Pow2(k) - 1) == x % Pow2(k)
    decreases k, x
  {
    var p := Pow2(k);
    if k == 0 {
      AndZero(x);
    } else {
      var h := Pow2(k - 1);
      assert p == 2 * h;
      MaskIsRemainder(x / 2, k - 1);
      HalfRemainder(x, h);
      assert (p - 1) / 2 == h - 1 && (p - 1) % 2 == 1;
    }
  }

  lemma {:induction false} AndZero(x: nat)
    ensures And(x, 0) == 0
  {
    if x > 0 {
      AndZero(x / 2);
    }
  }

  lemma HalfRemainder(x: nat, h: nat)
    requires h > 0
    ensures x % (2 * h) == 2 * (x / 2 % h) + x % 2
  {
    var q := x / 2 / h;
    assert x / 2 == h * q + x / 2 % h;
    assert x == (2 * h) * q + (2 * (x / 2 % h) + x % 2);
    Unique(x, 2 * h, q, 2 * (x / 2 % h) + x % 2);
  }

  ghost predicate PowerOfTwo(c: nat) {
    exists k: nat :: c == Pow2(k)
  }

  /** The test of the ring buffer's constructor. */
  lemma {:induction false} PowerTest(c: nat)
    requires c > 0
    ensures And(c - 1, c) == 0 <==> PowerOfTwo(c)
  {
    if c == 1 {
      assert c == Pow2(0);
      assert And(0, 1) == 2 * And(0, 0) + 0;
    } else if c % 2 == 1 {
      // c - 1 and c share their upper bits
      assert (c - 1) / 2 == c / 2;
      AndSelf(c / 2);
      forall k: nat
        ensures c != Pow2(k)
      {
      }
    } else {
      assert (c - 1) / 2 == c / 2 - 1 && (c - 1) % 2 == 1;
      PowerTest(c / 2);
      if PowerOfTwo(c / 2) {
        var k: nat :| c / 2 == Pow2(k);
        assert c == Pow2(k + 1);
      }
      if PowerOfTwo(c) {
        var k: nat :| c == Pow2(k);
        assert c / 2 == Pow2(k - 1);
      }
    }
  }

  lemma {:induction false} AndSelf(x: nat)
    ensures And(x, x) == x
  {
    if x > 0 {
      AndSelf(x / 2);
    }
  }

  /** Subtraction in unsigned arithmetic of a wider type, then a mask: the difference modulo the mask plus one. */
  lemma MaskedDifference(w: nat, r: nat, k: nat, width: nat)
    requires k <= width && w < Pow2(width) && r < Pow2(width)
    ensures And((w - r) % Pow2(width), Pow2(k) - 1) == (w - r) % Pow2(k)
  {
    MaskIsRemainder((w - r) % Pow2(width), k);
    NestedRemainder(w - r, k, width);
  }

  lemma {:induction false} PowerDivides(k: nat, width: nat)
    requires k <= width
    ensures Pow2(width) == Pow2(k) * Pow2(width - k)
    decreases width
  {
    if k < width {
      PowerDivides(k, width - 1);
      assert Pow2(k) * Pow2(width - k) == Pow2(k) * (2 * Pow2(width - 1 - k)) == 2 * (Pow2(k) * Pow2(width - 1 - k));
    }
  }

  lemma NestedRemainder(x: int, k: nat, width: nat)
    requires k <= width
    ensures x % Pow2(width) % Pow2(k) == x % Pow2(k)
  {
    PowerDivides(k, width);
    RemainderOfRemainder(x, Pow2(k), Pow2(width - k));
  }

  lemma RemainderOfRemainder(x: int, m: nat, n: nat)
    requires m > 0 && n > 0 && m * n > 0
    ensures x % (m * n) % m == x % m
  {
    var q, r := x / (m * n), x % (m * n);
    assert x == m * n * q + r;
    assert m * n * q == m * (n * q);
    assert r == m * (r / m) + r % m;
    assert x == m * (n * q + r / m) + r % m;
    Unique(x, m, n * q + r / m, r % m);
  }
}
