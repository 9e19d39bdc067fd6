/**
 Unsigned 64-bit counters that wrap around. A counter stands for an unbounded
 count modulo 2^64; differences and ring slots come out as for the unbounded count.
 */
module Wrap {
  import opened Bits

  /** 2^64, the number of values of `size_t`. */
  const WORD: nat := 0x1_0000_0000_0000_0000

  function Add(a: nat, b: nat): (c: nat)
    ensures c < WORD
  {
    (a + b) % WORD
  }

  function Sub(a: nat, b: nat): (c: nat)
    ensures c < WORD
  {
    (a - b) % WORD
  }

  /** The counter that stands for count n. */
  function Count(n: nat): (c: nat)
    ensures c < WORD
  {
    n % WORD
  }

  lemma AddCount(n: nat, m: nat)
    ensures Add(Count(n), m) == Count(n + m)
  {
  }

  lemma SubCount(n: nat, m: nat)
    requires m < WORD
    ensures Sub(Count(n + m), Count(n)) == m
  {
  }

  lemma WordIsPow2()
    ensures Pow2(64) == WORD
  {
    assert Pow2(2) == 4;
    Pow2Add(2, 2);
    Pow2Add(4, 4);
    assert Pow2(8) == 0x100;
    Pow2Add(8, 8);
    assert Pow2(16) == 0x1_0000;
    Pow2Add(16, 16);
    assert Pow2(32) == 0x1_0000_0000;
    Pow2Add(32, 32);
  }

  lemma {:induction false} Pow2Add(a: nat, b: nat)
    ensures Pow2(a + b) == Pow2(a) * Pow2(b)
  {
    if a > 0 {
      Pow2Add(a - 1, b);
      assert 2 * Pow2(a - 1) * Pow2(b) == 2 * (Pow2(a - 1) * Pow2(b));
    }
  }

  /** A ring no larger than the counter range does not notice the wrap. */
  lemma SlotOfCount(n: nat, k: nat)
    requires k <= 64
    ensures Slot(Count(n), Pow2(k)) == n % Pow2(k)
  {
    WordIsPow2();
    Pow2Add(64 - k, k);
    ModMod(n, Pow2(64 - k), Pow2(k));
  }

  lemma ModMod(n: nat, a: nat, b: nat)
    requires a > 0 && b > 0 && a * b > 0
    ensures (n % (a * b)) % b == n % b
  {
    var q, r := n / (a * b), n % (a * b);
    DivisionEquation(n, a * b);
    DivisionEquation(r, b);
    assert n == (q * a + r / b) * b + r % b by {
      assert q * (a * b) == (q * a) * b;
      assert (q * a + r / b) * b == (q * a) * b + (r / b) * b;
    }
    ModUnique(n, b, q * a + r / b, r % b);
  }

  /** Rings of up to 2^63 cells have fewer cells than the counters have values. */
  lemma RingFits(k: nat)
    requires k <= 63
    ensures Pow2(k) < WORD
  {
    WordIsPow2();
    Pow2Mono(k, 63);
    assert Pow2(64) == 2 * Pow2(63);
  }

  lemma {:induction false} Pow2Mono(a: nat, b: nat)
    requires a <= b
    ensures Pow2(a) <= Pow2(b)
  {
    if a < b { Pow2Mono(a, b - 1); }
  }

  /** One less than a counter, as in `wcnt - 1`. */
  lemma SubOne(n: nat)
    ensures Sub(Count(n + 1), 1) == Count(n)
  {
  }
}
