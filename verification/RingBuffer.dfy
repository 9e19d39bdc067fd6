/**
 The byte ring with a staged suffix: bytes are written, then committed or dropped;
 committed bytes are read in order. Positions are `size_t` counters that wrap.
 */
module RingBuffer {
  import opened Basics
  import opened Bits
  import opened Wrap
  import opened Iov

  /** `floor(log2(n))`, which is 63 minus the number of leading zeros of a 64-bit n. */
  function FloorLog2(n: nat): (r: nat)
    requires n > 0
    ensures Pow2(r) <= n < Pow2(r + 1)
  {
    if n == 1 then 0 else 1 + FloorLog2(n / 2)
  }

  /** `roundup_power_of_two` */
  function RoundUp(n: nat): (p: nat) {
    if n < 2 then n else 2 * Pow2(FloorLog2(n - 1))
  }

  /** It is the least power of two that is not below n, and fits in 64 bits whenever n <= 2^63. */
  lemma RoundUpIsLeast(n: nat)
    requires n > 0
    ensures IsPow2(RoundUp(n)) && n <= RoundUp(n)
    ensures forall k: nat :: n <= Pow2(k) ==> RoundUp(n) <= Pow2(k)
    ensures n <= WORD / 2 ==> RoundUp(n) < WORD
  {
    WordIsPow2();
    assert Pow2(64) == 2 * Pow2(63);
    if n < 2 {
      assert RoundUp(n) == Pow2(0);
    } else {
      var r := FloorLog2(n - 1);
      assert RoundUp(n) == Pow2(r + 1);
      forall k: nat | n <= Pow2(k) ensures RoundUp(n) <= Pow2(k) {
        if k <= r { Pow2Mono(k, r); } else { Pow2Mono(r + 1, k); }
      }
    }
  }

  /** From position base on the ring holds `data`. */
  ghost predicate Holds<T>(ring: seq<T>, base: nat, data: seq<T>) {
    && |ring| > 0 && |data| <= |ring|
    && forall k {:trigger Pos(base, k, |ring|)} :: 0 <= k < |data| ==> ring[Pos(base, k, |ring|)] == data[k]
  }

  /** The longest copy from index s on that stays inside a ring of n: to its end, and once over it. */
  function Reach(n: nat, s: nat): (len: nat)
    requires s < n
    ensures n < len
  {
    n - s + n
  }

  /** The ring after a copy of `src` to index s, in one piece or around the end. */
  ghost function RingIn<T>(ring: seq<T>, s: nat, src: seq<T>): (r: seq<T>)
    requires s < |ring| && |src| <= Reach(|ring|, s)
    ensures |r| == |ring|
  {
    var e := |ring| - s;
    if |src| <= e then Overwrite(ring, s, src)
    else Overwrite(Overwrite(ring, s, Slice(src, 0, e)), 0, Slice(src, e, |src| - e))
  }

  /** What a copy of n bytes from index s reads. */
  ghost function RingOut<T>(ring: seq<T>, s: nat, n: nat): (r: seq<T>)
    requires s < |ring| && n <= Reach(|ring|, s)
    ensures |r| == n
  {
    var e := |ring| - s;
    if n <= e then Slice(ring, s, n) else Slice(ring, s, e) + Slice(ring, 0, n - e)
  }

  lemma PosShift(base: nat, j: nat, k: nat, n: nat)
    requires n > 0
    ensures Pos(base + j, k, n) == Pos(base, j + k, n)
  {
  }

  lemma InAt<T>(ring: seq<T>, s: nat, src: seq<T>, i: nat)
    requires s < |ring| && |src| <= |ring| && i < |ring|
    ensures var j := if i >= s then i - s else i - s + |ring|;
            RingIn(ring, s, src)[i] == if j < |src| then src[j] else ring[i]
  {
  }

  lemma HoldsWrite<T>(ring: seq<T>, base: nat, data: seq<T>, src: seq<T>)
    requires Holds(ring, base, data) && |data| + |src| <= |ring|
    ensures var s := Pos(base, |data|, |ring|); Holds(RingIn(ring, s, src), base, data + src)
  {
    var n, m := |ring|, |data|;
    var s := Pos(base, m, n);
    var ring' := RingIn(ring, s, src);
    if m < n { PosWraps(base, m, n); }
    forall k | 0 <= k < |data + src| ensures ring'[Pos(base, k, n)] == (data + src)[k] {
      PosWraps(base, k, n);
      InAt(ring, s, src, Pos(base, k, n));
    }
  }

  lemma ReadsBoth<T>(ring: seq<T>, base: nat, data: seq<T>, len: nat)
    requires Holds(ring, base, data) && len <= Reach(|ring|, Pos(base, 0, |ring|))
    ensures var n := Min(len, |data|); Slice(RingOut(ring, Pos(base, 0, |ring|), len), 0, n) == Slice(data, 0, n)
  {
    var n := Min(len, |data|);
    var out := RingOut(ring, Pos(base, 0, |ring|), len);
    forall k | 0 <= k < n ensures out[k] == data[k] { PosWraps(base, k, |ring|); }
  }

  /** The bytes of the ring from base on were copied to `out`, and `data` is what the ring holds there. */
  ghost predicate Shown<T>(out0: seq<T>, out: seq<T>, ring: seq<T>, base: nat, data: seq<T>, len: nat) {
    && 0 < |ring| && len <= Reach(|ring|, Pos(base, 0, |ring|)) && len <= |out0|
    && out == Overwrite(out0, 0, RingOut(ring, Pos(base, 0, |ring|), len))
    && var n := Min(len, |data|); Slice(out, 0, n) == Slice(data, 0, n)
  }

  lemma HoldsDrop<T>(ring: seq<T>, base: nat, data: seq<T>, n: nat)
    requires Holds(ring, base, data) && n <= |data|
    ensures Holds(ring, base + n, Slice(data, n, |data| - n))
  {
    var rest, b := Slice(data, n, |data| - n), base + n;
    forall k | 0 <= k < |rest| ensures ring[Pos(b, k, |ring|)] == rest[k] { PosShift(base, n, k, |ring|); }
  }

  lemma DropThen<T>(data: seq<T>, src: seq<T>, x: nat)
    requires x <= |data|
    ensures Slice(data, x, |data| - x) + src == Slice(data + src, x, |data + src| - x)
  {
  }

  /** By how many bytes `data` and `more` together exceed a ring of n. */
  function Excess(data: nat, more: nat, n: nat): (x: nat) {
    if data + more <= n then 0 else data + more - n
  }

  lemma HoldsSame<T>(ring: seq<T>, base: nat, a: seq<T>, b: seq<T>)
    requires Holds(ring, base, a) && a == b
    ensures Holds(ring, base, b)
  {
  }

  lemma WritesBehind<T>(ring: seq<T>, base: nat, data: seq<T>, src: seq<T>, s: nat)
    requires Holds(ring, base, data) && |data| + |src| <= |ring| && s == Pos(base, |data|, |ring|)
    ensures Holds(RingIn(ring, s, src), base, data + src)
  {
    HoldsWrite(ring, base, data, src);
  }

  /** Positions up to a lap and more behind base, while the ring is passed at most once. */
  lemma PosFar(base: nat, j: nat, n: nat)
    requires n > 0 && Pos(base, 0, n) + j < 2 * n
    ensures var s := Pos(base, 0, n); Pos(base, j, n) == if s + j < n then s + j else s + j - n
  {
    DivisionEquation(base, n);
    var s, q := base % n, base / n;
    if s + j < n {
      ModUnique(base + j, n, q, s + j);
    } else {
      assert (q + 1) * n == q * n + n;
      ModUnique(base + j, n, q + 1, s + j - n);
    }
  }

  /** Of a copy around the end, the first piece stays as far as the second does not reach it. */
  lemma InFirst<T>(ring: seq<T>, s: nat, src: seq<T>, i: nat)
    requires s <= i < |ring| && |src| <= Reach(|ring|, s) && |src| - (|ring| - s) <= i < s + |src|
    ensures RingIn(ring, s, src)[i] == src[i - s]
  {
  }

  lemma InSecond<T>(ring: seq<T>, s: nat, src: seq<T>, i: nat)
    requires s < |ring| && |src| <= Reach(|ring|, s) && i < |src| - (|ring| - s)
    ensures RingIn(ring, s, src)[i] == src[i + (|ring| - s)]
  {
  }

  lemma HoldsLong<T>(ring: seq<T>, base: nat, src: seq<T>, s: nat, x: nat)
    requires |ring| > 0 && s == Pos(base, 0, |ring|) && |ring| <= |src| <= Reach(|ring|, s) && x == |src| - |ring|
    ensures Holds(RingIn(ring, s, src), base + x, Slice(src, x, |ring|))
  {
    var n, b := |ring|, base + x;
    var ring', rest := RingIn(ring, s, src), Slice(src, x, n);
    forall k | 0 <= k < n ensures ring'[Pos(b, k, n)] == rest[k] {
      PosShift(base, x, k, n);
      PosFar(base, x + k, n);
      if s + (x + k) < n { InFirst(ring, s, src, s + (x + k)); } else { InSecond(ring, s, src, s + (x + k) - n); }
    }
  }

  lemma HoldsShort<T>(ring: seq<T>, base: nat, data: seq<T>, src: seq<T>, s: nat, x: nat)
    requires Holds(ring, base, data) && |src| <= |ring| && s == Pos(base, |data|, |ring|)
    requires x == Excess(|data|, |src|, |ring|)
    ensures Holds(RingIn(ring, s, src), base + x, Slice(data + src, x, |data + src| - x))
  {
    var kept, b := Slice(data, x, |data| - x), base + x;
    HoldsDrop(ring, base, data, x);
    PosShift(base, x, |kept|, |ring|);
    WritesBehind(ring, b, kept, src, s);
    DropThen(data, src, x);
    HoldsSame(RingIn(ring, s, src), b, kept + src, Slice(data + src, x, |data + src| - x));
  }

  lemma TailOf<T>(data: seq<T>, src: seq<T>, n: nat)
    requires n <= |src|
    ensures Slice(data + src, |data| + (|src| - n), n) == Slice(src, |src| - n, n)
  {
  }

  /** A write of any length behind `data` leaves the newest bytes in the ring: the oldest of `data` are gone. */
  lemma HoldsNewest<T>(ring: seq<T>, base: nat, data: seq<T>, src: seq<T>, s: nat, x: nat)
    requires Holds(ring, base, data) && s == Pos(base, |data|, |ring|) && |src| <= Reach(|ring|, s)
    requires x == Excess(|data|, |src|, |ring|)
    ensures Holds(RingIn(ring, s, src), base + x, Slice(data + src, x, |data + src| - x))
  {
    if |src| <= |ring| {
      HoldsShort(ring, base, data, src, s, x);
    } else {
      PosShift(base, |data|, 0, |ring|);
      HoldsLong(ring, base + |data|, src, s, |src| - |ring|);
      TailOf(data, src, |ring|);
      HoldsSame(RingIn(ring, s, src), base + x, Slice(src, |src| - |ring|, |ring|), Slice(data + src, x, |ring|));
    }
  }

  /** A read past the write counter makes the difference of the counters negative: a huge unsigned number. */
  lemma PastTheEnd(base: nat, have: nat, n: nat)
    requires have < n < have + WORD
    ensures Count(base + have) != Count(base + n)
    ensures Sub(Count(base + have), Count(base + n)) == WORD - (n - have)
  {
    SubCount(base + have, n - have);
  }

  class RingBuf<T> {
    const size: nat
    ghost const log2: nat
    const buf: array<T>
    var rcnt: nat
    var wcnt: nat
    var wpos: nat
    /** The count of bytes ever read, the bytes that can be read, and those staged behind them. */
    ghost var base: nat
    ghost var committed: seq<T>
    ghost var staged: seq<T>

    /** The three counters stand for the unbounded counts. */
    ghost predicate Positions()
      reads `rcnt, `wcnt, `wpos, `base, `committed, `staged
    {
      rcnt == Count(base) && wcnt == Count(base + |committed|) && wpos == Count(base + |committed| + |staged|)
    }

    ghost predicate Counters()
      reads `rcnt, `wcnt, `wpos, `base, `committed, `staged
    {
      log2 <= 63 && size == Pow2(log2) == buf.Length && |committed| + |staged| <= size && Positions()
    }

    ghost predicate Valid()
      reads `rcnt, `wcnt, `wpos, `base, `committed, `staged, buf
    {
      Counters() && Holds(buf[..], base, committed + staged)
    }

    /** `ofi_rbinit` on a size it accepts; it refuses 0 and sizes above SIZE_MAX / 2. */
    constructor (request: nat, zero: T)
      requires 0 < request < WORD / 2
      ensures Valid() && committed == [] && staged == [] && base == 0 && size == RoundUp(request) && fresh(buf)
    {
      RoundUpIsLeast(request);
      ghost var k: nat :| RoundUp(request) == Pow2(k);
      log2 := k;
      size := RoundUp(request);
      buf := new T[RoundUp(request)](_ => zero);
      rcnt, wcnt, wpos, base, committed, staged := 0, 0, 0, 0, [], [];
      new;
      SizeFits(request, k);
    }

    /** `ofi_rbused`, whatever the wrap of the counters */
    method Used() returns (n: nat)
      requires Counters()
      ensures n == |committed|
    {
      RingFits(log2);
      SubCount(base, |committed|);
      n := Sub(wcnt, rcnt);
    }

    /** A write of `len` bytes leaves every byte that can be read or is staged. */
    ghost predicate Fits(len: nat)
      reads `committed, `staged
    {
      |committed| + |staged| + len <= size
    }

    /** `ofi_rbavail`. It does not count staged bytes: what it allows fits exactly if there are none. */
    method Avail() returns (n: nat)
      requires Counters()
      ensures n == size - |committed| && ((forall len: nat :: len <= n ==> Fits(len)) <==> staged == [])
    {
      var used := Used();
      n := size - used;
      if staged != [] { assert !Fits(n); }
    }

    /** `wpos & size_mask` */
    method WriteIndex() returns (i: nat)
      requires Counters()
      ensures i == Pos(base, |committed| + |staged|, size)
    {
      SlotOfCount(base + |committed| + |staged|, log2);
      i := Slot(wpos, size);
    }

    /** `rcnt & size_mask` */
    method ReadIndex() returns (i: nat)
      requires Counters()
      ensures i == Pos(base, 0, size)
    {
      SlotOfCount(base, log2);
      i := Slot(rcnt, size);
    }

    /** The step of the write position. */
    method Stage(n: nat, ghost part: seq<T>)
      requires Positions() && n == |part|
      modifies `wpos, `staged
      ensures Positions() && staged == old(staged) + part
    {
      AddCount(base + |committed| + |staged|, n);
      wpos := Add(wpos, n);
      staged := staged + part;
    }

    /** From position base + x on, the ring holds what is readable and staged, but for the first x bytes. */
    ghost predicate HoldsFrom(x: nat)
      reads `base, `committed, `staged, buf
    {
      x <= |committed + staged| && Holds(buf[..], base + x, Slice(committed + staged, x, |committed + staged| - x))
    }

    lemma HoldsAll()
      ensures HoldsFrom(0) <==> Holds(buf[..], base, committed + staged)
    {
      SliceWhole(committed + staged);
    }

    /**
     `ofi_rbwrite`: the bytes join the staged ones. The free space is the caller's business: beyond it
     the ring holds the newest bytes, and the oldest that could still be read are gone. Lengths from
     which on the copy leaves the block are told apart; nothing is said about those.
     */
    method Write(src: array<T>, len: nat) returns (inside: bool)
      requires Valid() && src != buf && len <= src.Length && len < WORD
      modifies buf, `wpos, `staged
      ensures inside <==> len <= Reach(size, Pos(base, |committed| + old(|staged|), size))
      ensures !inside ==> unchanged(this) && unchanged(buf)
      ensures inside ==> Positions() && staged == old(staged) + Slice(src[..], 0, len)
      ensures inside ==> HoldsFrom(Excess(|committed| + old(|staged|), len, size))
      ensures inside ==> (Valid() <==> old(Fits(len)))
    {
      var i := WriteIndex();
      inside := len <= Reach(size, i);
      if inside {
        WriteAt(i, src, len);
        HoldsAll();
      }
    }

    method WriteAt(i: nat, src: array<T>, len: nat)
      requires Valid() && src != buf && len <= src.Length
      requires i == Pos(base, |committed| + |staged|, size) && len <= Reach(size, i)
      modifies buf, `wpos, `staged
      ensures Positions() && staged == old(staged) + Slice(src[..], 0, len)
      ensures HoldsFrom(Excess(|committed| + old(|staged|), len, size))
    {
      ghost var part, x := Slice(src[..], 0, len), Excess(|committed + staged|, len, size);
      HoldsNewest(buf[..], base, committed + staged, part, i, x);
      Assoc(committed, staged, part);
      CopyIn(i, src, len);
      Stage(len, part);
    }

    method CopyIn(i: nat, src: array<T>, len: nat)
      requires size == buf.Length && i < size && src != buf && len <= src.Length && len <= Reach(size, i)
      modifies buf
      ensures buf[..] == RingIn(old(buf[..]), i, Slice(src[..], 0, len))
    {
      var endlen := size - i;
      if len <= endlen {
        Memcpy(buf, i, src, 0, len);
      } else {
        ghost var ring, x, y := buf[..], Slice(src[..], 0, endlen), Slice(src[..], endlen, len - endlen);
        SliceSlice(src[..], 0, len, 0, endlen);
        SliceSlice(src[..], 0, len, endlen, len - endlen);
        assert RingIn(ring, i, Slice(src[..], 0, len)) == Overwrite(Overwrite(ring, i, x), 0, y);
        Memcpy(buf, i, src, 0, endlen);
        assert buf[..] == Overwrite(ring, i, x);
        Memcpy(buf, 0, src, endlen, len - endlen);
      }
    }

    /** `ofi_rbcommit`: what was staged can be read. */
    method Commit()
      requires Valid()
      modifies `wcnt, `committed, `staged
      ensures Valid() && committed == old(committed + staged) && staged == []
    {
      wcnt := wpos;
      assert committed + staged == (committed + staged) + [];
      committed, staged := committed + staged, [];
    }

    /** `ofi_rbabort`: what was staged is forgotten. */
    method Abort()
      requires Valid()
      modifies `wpos, `staged
      ensures Valid() && staged == []
    {
      wpos := wcnt;
      assert forall k :: 0 <= k < |committed| ==> (committed + staged)[k] == (committed + [])[k];
      staged := [];
    }

    /**
     `ofi_rbpeek`: the oldest bytes, left where they are. Beyond the committed ones come the staged
     ones, and then whatever the ring holds.
     */
    method Peek(dst: array<T>, len: nat) returns (inside: bool)
      requires Valid() && dst != buf && len <= dst.Length && len < WORD
      modifies dst
      ensures inside <==> len <= Reach(size, Pos(base, 0, size))
      ensures if inside then Shown(old(dst[..]), dst[..], buf[..], base, committed + staged, len) else unchanged(dst)
    {
      var i := ReadIndex();
      inside := len <= Reach(size, i);
      if inside {
        CopyOut(i, dst, len);
        ReadsBoth(buf[..], base, committed + staged, len);
      }
    }

    method CopyOut(i: nat, dst: array<T>, len: nat)
      requires size == buf.Length && i < size && dst != buf && len <= dst.Length && len <= Reach(size, i)
      modifies dst
      ensures dst[..] == Overwrite(old(dst[..]), 0, RingOut(buf[..], i, len))
    {
      var endlen := size - i;
      if len <= endlen {
        Memcpy(dst, 0, buf, i, len);
      } else {
        OverwriteThen(dst[..], 0, Slice(buf[..], i, endlen), Slice(buf[..], 0, len - endlen));
        Memcpy(dst, 0, buf, i, endlen);
        Memcpy(dst, endlen, buf, 0, len - endlen);
      }
    }

    /** The step of the read position. Beyond the committed bytes it passes the write counter. */
    method Step(n: nat)
      requires Positions() && n < WORD
      modifies `rcnt, `base, `committed
      ensures base == old(base) + n && rcnt == Count(base)
      ensures n <= old(|committed|) ==> Positions() && committed == Slice(old(committed), n, |old(committed)| - n)
      ensures n > old(|committed|) ==> !Positions() && Sub(wcnt, rcnt) == WORD - (n - old(|committed|))
    {
      AddCount(base, n);
      rcnt := Add(rcnt, n);
      if n > |committed| { PastTheEnd(base, |committed|, n); }
      committed := if n > |committed| then [] else Slice(committed, n, |committed| - n);
      base := base + n;
    }

    /** Move the read position over n bytes; it must not pass the committed ones. */
    method Pass(n: nat)
      requires Valid() && n < WORD
      modifies `rcnt, `base, `committed
      ensures base == old(base) + n && rcnt == Count(base) && (Valid() <==> n <= old(|committed|))
      ensures n <= old(|committed|) ==> committed == Slice(old(committed), n, |old(committed)| - n)
      ensures n > old(|committed|) ==> Sub(wcnt, rcnt) == WORD - (n - old(|committed|))
    {
      if n <= |committed| {
        HoldsDrop(buf[..], base, committed + staged, n);
        DropThen(committed, staged, n);
      }
      Step(n);
    }

    /**
     `ofi_rbread`: the oldest bytes leave. A read of more than is committed, which nothing checks, takes
     staged bytes with it and makes the count of bytes in use wrap.
     */
    method Read(dst: array<T>, len: nat) returns (inside: bool)
      requires Valid() && dst != buf && len <= dst.Length && len < WORD
      modifies dst, `rcnt, `base, `committed
      ensures inside <==> len <= Reach(size, Pos(old(base), 0, size))
      ensures !inside ==> unchanged(this) && unchanged(dst)
      ensures inside ==> Shown(old(dst[..]), dst[..], buf[..], old(base), old(committed) + staged, len)
      ensures inside ==> (Valid() <==> len <= old(|committed|))
      ensures inside && len <= old(|committed|) ==> committed == Slice(old(committed), len, |old(committed)| - len)
      ensures inside && len > old(|committed|) ==> Sub(wcnt, rcnt) == WORD - (len - old(|committed|))
    {
      inside := Peek(dst, len);
      if inside {
        Pass(len);
      }
    }

    /** `ofi_rbdiscard`: as many of the oldest bytes as there are leave unread. */
    method Discard(len: nat) returns (n: nat)
      requires Valid()
      modifies `rcnt, `base, `committed
      ensures Valid() && n == (if len < old(|committed|) then len else old(|committed|))
      ensures committed == Slice(old(committed), n, |old(committed)| - n)
    {
      RingFits(log2);
      var used := Used();
      n := if used < len then used else len;
      Pass(n);
    }
  }

  datatype Created<T> = InvalidSize | NoMemory | Ready(rb: RingBuf<T>)

  /** `ofi_rbinit`; `oom` says whether the allocation fails. */
  method Init<T>(request: nat, zero: T, oom: bool) returns (r: Created<T>)
    ensures r.InvalidSize? <==> request == 0 || request > (WORD - 1) / 2
    ensures !r.InvalidSize? ==> (r.NoMemory? <==> oom)
    ensures r.Ready? ==> fresh(r.rb) && r.rb.Valid() && r.rb.committed == [] == r.rb.staged
    ensures r.Ready? ==> r.rb.size == RoundUp(request)
  {
    if request == 0 || request > (WORD - 1) / 2 {
      return InvalidSize;
    }
    if oom {
      return NoMemory;
    }
    var rb := new RingBuf(request, zero);
    r := Ready(rb);
  }

  /** A read of one byte from an empty ring: the count of bytes in use becomes 2^64 - 1. */
  method ReadUnderflow<T>(zero: T) returns (n: nat)
    ensures n == WORD - 1
  {
    var rb := new RingBuf(2, zero);
    var dst := new T[1](_ => zero);
    var inside := rb.Read(dst, 1);
    n := Sub(rb.wcnt, rb.rcnt);
  }

  /** A ring of two holds two readable bytes, a and b; a third one, written behind them, takes the place of a. */
  method WrittenOver<T>(a: T, b: T, c: T) returns (rb: RingBuf<T>)
    ensures fresh(rb) && rb.committed == [a, b] && rb.staged == [c] && !rb.Valid() && rb.HoldsFrom(1)
  {
    rb := new RingBuf(2, a);
    var two, one := new T[2][a, b], new T[1][c];
    var inside := rb.Write(two, 2);
    rb.Commit();
    inside := rb.Write(one, 1);
  }

  lemma SizeFits(request: nat, k: nat)
    requires 0 < request < WORD / 2 && RoundUp(request) == Pow2(k)
    ensures k <= 63
  {
    RoundUpIsLeast(request);
    WordIsPow2();
    assert Pow2(64) == 2 * Pow2(63);
    if k > 63 { Pow2Mono(64, k); }
  }
}
