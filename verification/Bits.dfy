/**
 Masks over power-of-two sizes. The rings and hash tables of the library index
 with `position & (size - 1)`; here that is proved to be the remainder by `size`.
 */
module Bits {

  function Pow2(k: nat): (p: nat)
    ensures p >= 1
  {
    if k == 0 then 1 else 2 * Pow2(k - 1)
  }

  ghost predicate IsPow2(n: nat) {
    exists k: nat :: n == Pow2(k)
  }

  /** Bitwise conjunction of two naturals, from the lowest bit up. */
  function And(x: nat, y: nat): (r: nat) {
    if x == 0 || y == 0 then 0
    else 2 * And(x / 2, y / 2) + (if x % 2 == 1 && y % 2 == 1 then 1 else 0)
  }

  lemma {:induction false} AndMask(x: nat, k: nat)
    ensures And(x, Pow2(k) - 1) == x % Pow2(k)
    decreases k
  {
    if k == 0 || x == 0 {
    } else {
      var h := Pow2(k - 1);
      AndMask(x / 2, k - 1);
      assert (Pow2(k) - 1) / 2 == h - 1 && (Pow2(k) - 1) % 2 == 1;
      assert x == 2 * (x / 2) + x % 2;
      ModOfDouble(x / 2, x % 2, h);
    }
  }

  lemma ModOfDouble(q: nat, b: nat, h: nat)
    requires h > 0 && b < 2
    ensures (2 * q + b) % (2 * h) == 2 * (q % h) + b
  {
    ModUnique(2 * q + b, 2 * h, q / h, 2 * (q % h) + b);
  }

  /** Division with remainder is unique. */
  lemma ModUnique(x: int, n: int, q: int, r: int)
    requires n > 0 && 0 <= r < n
    requires x == q * n + r
    ensures x % n == r && x / n == q
  {
    DivisionEquation(x, n);
    MultipleInRange(x / n - q, n, r - x % n);
  }

  lemma DivisionEquation(x: int, n: int)
    requires n > 0
    ensures x == (x / n) * n + x % n && 0 <= x % n < n
  {
  }

  /** The only multiple of n strictly between -n and n is zero. */
  lemma MultipleInRange(d: int, n: int, r: int)
    requires n > 0 && -n < r < n && d * n == r
    ensures d == 0 && r == 0
  {
  }

  /** Division of naturals. */
  function Div(n: nat, p: nat): (q: nat)
    requires p > 0
  {
    DivNatural(n, p);
    n / p
  }

  lemma DivNatural(n: nat, p: nat)
    requires p > 0
    ensures n / p >= 0
  {
    DivisionEquation(n, p);
    var q := n / p;
    if q < 0 { NonPositive(q + 1, p); }
  }

  lemma {:induction false} NonPositive(a: int, p: int)
    requires a <= 0 && p >= 0
    ensures a * p <= 0
    decreases -a
  {
    if a < 0 {
      NonPositive(a + 1, p);
      assert a * p == (a + 1) * p - p;
    }
  }

  /** Two positions less than n apart share a slot only if they are equal. */
  lemma SameSlot(a: int, b: int, n: int)
    requires n > 0 && a % n == b % n && -n < a - b < n
    ensures a == b
  {
    DivisionEquation(a, n);
    DivisionEquation(b, n);
    MultipleInRange(a / n - b / n, n, a - b);
  }

  lemma NextLap(a: int, n: int)
    requires n > 0
    ensures (a + n) % n == a % n
  {
    DivisionEquation(a, n);
    ModUnique(a + n, n, a / n + 1, a % n);
  }

  /** The slot of a position in a ring of power-of-two size. */
  function Slot(x: nat, size: nat): (i: nat)
    requires IsPow2(size)
    ensures i == x % size && i < size
  {
    assert And(x, size - 1) == x % size by {
      var k: nat :| size == Pow2(k);
      AndMask(x, k);
    }
    And(x, size - 1)
  }

  /** The slot of the k-th position from base on. */
  function Pos(base: nat, k: nat, n: nat): (i: nat)
    requires n > 0
    ensures i < n
  {
    (base + k) % n
  }

  lemma PosApart(base: nat, j: nat, k: nat, n: nat)
    requires n > 0 && j < n && k < n && j != k
    ensures Pos(base, j, n) != Pos(base, k, n)
  {
    if Pos(base, j, n) == Pos(base, k, n) { SameSlot(base + j, base + k, n); }
  }

  /** Positions from base on run to the end of the ring and go on at its start. */
  lemma PosWraps(base: nat, k: nat, n: nat)
    requires n > 0 && k < n
    ensures var s := Pos(base, 0, n); Pos(base, k, n) == if s + k < n then s + k else s + k - n
  {
    DivisionEquation(base, n);
    var s, q := base % n, base / n;
    if s + k < n {
      ModUnique(base + k, n, q, s + k);
    } else {
      assert (q + 1) * n == q * n + n;
      ModUnique(base + k, n, q + 1, s + k - n);
    }
  }
}
