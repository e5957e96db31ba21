/** Unsigned 64-bit wrap-around, and facts about remainders. */
module Modular {
  /** One past the largest uint64. */
  const WRAP: nat := 0x1_0000_0000_0000_0000

  /** The place that position x falls on among n in a circle. */
  function Spot(x: int, n: nat): (r: nat)
    requires n >= 1
    ensures r < n
  {
    x % n
  }

  lemma RemainderIs(a: int, n: nat, q: int, r: nat)
    requires r < n && a == n * q + r
    ensures a % n == r && a / n == q
  {
    var d := q - a / n;
    assert n * d == a % n - r by {
      assert n * q == n * (a / n) + n * d;
    }
    assert d >= 1 ==> n * d >= n;
    assert d <= -1 ==> n * d <= 0 - n;
  }

  lemma ShiftByMultiple(x: int, n: nat, q: int)
    requires n >= 1
    ensures (n * q + x) % n == x % n
  {
    assert n * q + x == n * (q + x / n) + x % n by {
      assert n * (q + x / n) == n * q + n * (x / n);
    }
    RemainderIs(n * q + x, n, q + x / n, x % n);
  }

  /** A remainder may be taken before or after an addition. */
  lemma AddInside(a: int, b: int, n: nat)
    requires n >= 1
    ensures (a % n + b) % n == (a + b) % n
  {
    ShiftByMultiple(a % n + b, n, a / n);
  }

  /** Division rounded up, in terms of division rounded down. */
  lemma DivideUp(m: nat, n: nat)
    requires n >= 1
    ensures m % n < n && m == (m / n) * n + m % n
    ensures (m + n - 1) / n == m / n + (if m % n == 0 then 0 else 1)
  {
    var q, r := m / n, m % n;
    assert n * (q + 1) == n * q + n;
    if r == 0 {
      RemainderIs(m + n - 1, n, q, n - 1);
    } else {
      RemainderIs(m + n - 1, n, q + 1, r - 1);
    }
  }
}
