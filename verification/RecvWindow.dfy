/**
 The receive window: messages carry ids from a wrapping counter, and those that
 arrive early wait in a ring until their turn. Ids are 32 or 64 bits wide; here
 the id space has 2 * half values for any `half`. Every wrapped id is related to
 the position of its message in the sender's unbounded sequence.
 */
module RecvWindow {
  import opened Bits
  import opened Wrap

  datatype Entry<E> = Absent | Present(msg: E)

  /** x - y in an unsigned type of `ids` values. */
  function Dist(x: int, y: int, ids: nat): (d: nat)
    requires ids > 0
    ensures d < ids
  {
    (x - y) % ids
  }

  /** `ofi_val32_gt`, `ofi_val64_gt`: the difference, read as signed, is positive. */
  predicate Gt(x: int, y: int, half: nat)
    requires half > 0
  {
    0 < Dist(x, y, 2 * half) < half
  }

  /** `ofi_val32_ge`, `ofi_val64_ge` */
  predicate Ge(x: int, y: int, half: nat)
    requires half > 0
  {
    Dist(x, y, 2 * half) < half
  }

  /** `ofi_val32_inrange`, `ofi_val64_inrange` */
  predicate InRange(start: int, length: nat, value: int, half: nat)
    requires half > 0
  {
    Ge(value, start, half) && Gt((start + length) % (2 * half), value, half)
  }

  lemma ModShift(a: int, k: int, n: int)
    requires n > 0
    ensures (a + k * n) % n == a % n
  {
    DivisionEquation(a, n);
    assert a + k * n == (a / n + k) * n + a % n;
    ModUnique(a + k * n, n, a / n + k, a % n);
  }

  /** The wrapped difference of two wrapped numbers depends on their difference only. */
  lemma DistWrapped(a: int, b: int, ids: nat)
    requires ids > 0
    ensures Dist(a % ids, b % ids, ids) == Dist(a % ids, b, ids) == Dist(a, b, ids)
  {
    DistWrappedRight(a % ids, b, ids);
    DivisionEquation(a, ids);
    var q := a / ids;
    assert a % ids - b == (a - b) + (0 - q) * ids;
    ModShift(a - b, 0 - q, ids);
  }

  lemma DistWrappedRight(a: int, b: int, ids: nat)
    requires ids > 0
    ensures Dist(a, b % ids, ids) == Dist(a, b, ids)
  {
    DivisionEquation(b, ids);
    assert a - b % ids == (a - b) + (b / ids) * ids;
    ModShift(a - b, b / ids, ids);
  }

  /** Numbers less than `ids` apart: the wrapped difference is the difference, or that plus `ids`. */
  lemma DistNear(a: int, b: int, ids: nat)
    requires ids > 0 && -(ids as int) < a - b < ids
    ensures Dist(a, b, ids) == if a >= b then a - b else a - b + ids
  {
    ModUnique(a - b, ids, if a >= b then 0 else -1, if a >= b then a - b else a - b + ids);
  }

  /** What the range test computes, in terms of the distance from the start. */
  lemma InRangeDist(start: int, length: nat, value: int, half: nat)
    requires half > 0 && length < 2 * half
    ensures var d := Dist(value, start, 2 * half);
            InRange(start, length, value, half) <==> d < half && d < length && length - d < half
  {
    var ids := 2 * half;
    var d := Dist(value, start, ids);
    DistWrapped(start + length, value, ids);
    DivisionEquation(value - start, ids);
    var q := (value - start) / ids;
    assert start + length - value == (length - d) + (0 - q) * ids;
    ModShift(length - d, 0 - q, ids);
    DistNear(length, d, ids);
  }

  /**
   The range test means "fewer than `length` after `start`", for all ids, exactly when the range is below half the id
   space.
   */
  lemma InRangeIff(length: nat, half: nat)
    requires half > 0 && length < 2 * half
    ensures (forall start: int, value: int ::
               InRange(start, length, value, half) <==> Dist(value, start, 2 * half) < length)
            <==> length < half
  {
    if length < half {
      forall start: int, value: int
        ensures InRange(start, length, value, half) <==> Dist(value, start, 2 * half) < length
      {
        InRangeDist(start, length, value, half);
      }
    } else {
      InRangeDist(0, length, 0, half);
      assert !InRange(0, length, 0, half) && Dist(0, 0, 2 * half) < length;
    }
  }

  /** Within half the id space around the next message, the tests sort ids as the unbounded positions are sorted. */
  lemma Classify(next: nat, u: nat, win: nat, half: nat)
    requires 0 < half && win < half && next - half < u < next + half
    ensures var ids := 2 * half;
            && (InRange(next % ids, win, u % ids, half) <==> next <= u < next + win)
            && (Gt(next % ids, u % ids, half) <==> u < next)
            && (u % ids == next % ids <==> u == next)
  {
    var ids := 2 * half;
    InRangeDist(next % ids, win, u % ids, half);
    DistWrapped(u, next, ids);
    DistNear(u, next, ids);
    DistWrapped(next, u, ids);
    DistNear(next, u, ids);
    if u % ids == next % ids { SameSlot(u, next, ids); }
  }

  /** The one ring cell that the message at position u uses, however far the window has moved. */
  function Home(u: int, first: nat, size: nat): (i: nat)
    requires size > 0
    ensures i < size
  {
    Dist(u, first, size)
  }

  lemma HomesApart(u: int, v: int, first: nat, size: nat)
    requires size > 0 && u != v && -(size as int) < u - v < size
    ensures Home(u, first, size) != Home(v, first, size)
  {
    if Home(u, first, size) == Home(v, first, size) { SameSlot(u - first, v - first, size); }
  }

  /** The index the code computes from the head of the ring and the distance of the id. */
  lemma IndexIsHome(next: nat, first: nat, u: nat, k: nat, size: nat)
    requires k <= 63 && size == Pow2(k) && first <= next <= u
    ensures Slot(Count(next - first), size) == Home(next, first, size)
    ensures Slot(Count(Home(next, first, size) + (u - next)), size) == Home(u, first, size)
  {
    SlotOfCount(next - first, k);
    SlotOfCount(Home(next, first, size) + (u - next), k);
    assert (Home(next, first, size) + (u - next)) % size == Home(u, first, size) by {
      ModPlus(next - first, u - next, size);
    }
  }

  lemma ModPlus(a: int, b: int, n: int)
    requires n > 0
    ensures (a % n + b) % n == (a + b) % n
  {
    DivisionEquation(a, n);
    var q := a / n;
    assert a % n + b == (a + b) + (0 - q) * n;
    ModShift(a + b, 0 - q, n);
  }

  /** The ring holds exactly the pending messages, each in its home. */
  ghost predicate Holds<E>(buf: seq<Entry<E>>, first: nat, next: nat, pending: map<nat, E>) {
    && |buf| > 0
    && (forall u: nat {:trigger Home(u, first, |buf|)} :: next <= u < next + |buf| ==>
        buf[Home(u, first, |buf|)] == if u in pending then Present(pending[u]) else Absent)
  }

  lemma HoldsQueue<E>(buf: seq<Entry<E>>, first: nat, next: nat, pending: map<nat, E>, u: nat, e: E)
    requires Holds(buf, first, next, pending) && next <= u < next + |buf|
    ensures Holds(buf[Home(u, first, |buf|) := Present(e)], first, next, pending[u := e])
  {
    forall v: nat | next <= v < next + |buf| && v != u ensures Home(v, first, |buf|) != Home(u, first, |buf|) {
      HomesApart(u, v, first, |buf|);
    }
  }

  lemma HoldsNext<E>(buf: seq<Entry<E>>, first: nat, next: nat, pending: map<nat, E>)
    requires Holds(buf, first, next, pending) && forall u :: u in pending ==> next <= u < next + |buf|
    ensures Holds(buf[Home(next, first, |buf|) := Absent], first, next + 1, pending - {next})
  {
    var i := Home(next, first, |buf|);
    var buf', pending' := buf[i := Absent], pending - {next};
    forall u: nat | next + 1 <= u < next + 1 + |buf|
      ensures buf'[Home(u, first, |buf|)] == if u in pending' then Present(pending'[u]) else Absent
    {
      if u == next + |buf| {
        NextLap(next - first, |buf|);
      } else {
        HomesApart(u, next, first, |buf|);
      }
    }
  }

  /** What waits after a slide over position n: a message that waited there now stands for one ring length later. */
  ghost function Passed<E>(pending: map<nat, E>, n: nat, size: nat): (pending': map<nat, E>) {
    if n in pending then (pending - {n})[n + size := pending[n]] else pending
  }

  lemma HoldsSlide<E>(buf: seq<Entry<E>>, first: nat, next: nat, pending: map<nat, E>)
    requires Holds(buf, first, next, pending) && forall u :: u in pending ==> next <= u < next + |buf|
    ensures Holds(buf, first, next + 1, Passed(pending, next, |buf|))
  {
    var after := Passed(pending, next, |buf|);
    forall u: nat | next + 1 <= u < next + 1 + |buf|
      ensures buf[Home(u, first, |buf|)] == if u in after then Present(after[u]) else Absent
    {
      if u == next + |buf| {
        NextLap(next - first, |buf|);
        assert buf[Home(next, first, |buf|)] == if next in pending then Present(pending[next]) else Absent;
      }
    }
  }

  lemma PassedRange<E>(pending: map<nat, E>, n: nat, size: nat, win: nat)
    requires win <= size && 0 < size && forall u :: u in pending ==> n <= u < n + win
    ensures (forall u :: u in Passed(pending, n, size) ==> n + 1 <= u < n + 1 + win) <==> n !in pending || win == size
    ensures Passed(pending, n, size) == pending - {n} <==> n !in pending
  {
    var after := Passed(pending, n, size);
    if n in pending {
      assert n + size in after && n + size !in pending - {n};
    } else {
      assert pending - {n} == pending;
    }
  }

  lemma PassedSize<E>(pending: map<nat, E>, n: nat, size: nat)
    requires size > 0 && forall u :: u in pending ==> n <= u < n + size
    ensures |Passed(pending, n, size)| == |pending|
    ensures n !in Passed(pending, n, size)
    ensures forall u :: u in Passed(pending, n, size) ==> n < u <= n + size
  {
    if n in pending {
      OneLess(pending, n);
      OneMore(pending - {n}, n + size, pending[n]);
    }
  }

  lemma OneLess<E>(pending: map<nat, E>, u: nat)
    requires u in pending
    ensures |pending - {u}| == |pending| - 1
  {
    assert (pending - {u}).Keys == pending.Keys - {u};
  }

  lemma {:induction false} FitsIn(s: set<nat>, next: nat, win: nat)
    requires forall u :: u in s ==> next <= u < next + win
    ensures |s| <= win
  {
    if win == 0 {
      assert s == {};
    } else {
      FitsIn(s - {next + win - 1}, next, win - 1);
    }
  }

  /** The wrapped id of position n: n modulo the size of the id space. */
  function IdOf(n: nat, ids: nat): (id: nat)
    requires ids > 0
    decreases n
  {
    if n < ids then n else IdOf(n - ids, ids)
  }

  lemma {:induction false} IdOfMod(n: nat, ids: nat)
    requires ids > 0
    ensures IdOf(n, ids) == n % ids
    decreases n
  {
    if n < ids {
      ModUnique(n, ids, 0, n);
    } else {
      IdOfMod(n - ids, ids);
      NextLap(n - ids, ids);
    }
  }

  /** The wrapped difference of the ids of near positions is the difference of the positions. */
  lemma IdDist(u: nat, next: nat, ids: nat)
    requires next <= u < next + ids
    ensures Dist(IdOf(u, ids), IdOf(next, ids), ids) == u - next
  {
    IdOfMod(u, ids);
    IdOfMod(next, ids);
    DistWrapped(u, next, ids);
    DistNear(u, next, ids);
  }

  /** The three tests on ids sort near messages as their positions are sorted. */
  lemma ClassifyIds(next: nat, u: nat, win: nat, half: nat)
    requires 0 < half && win < half && next - half < u < next + half
    ensures var ids := 2 * half;
            && (InRange(IdOf(next, ids), win, IdOf(u, ids), half) <==> next <= u < next + win)
            && (Gt(IdOf(next, ids), IdOf(u, ids), half) <==> u < next)
            && (IdOf(u, ids) == IdOf(next, ids) <==> u == next)
  {
    IdOfMod(next, 2 * half);
    IdOfMod(u, 2 * half);
    Classify(next, u, win, half);
  }

  /** Incrementing an id wraps as the type does. */
  lemma IdNext(n: nat, ids: nat)
    requires ids > 1
    ensures IdOf(n + 1, ids) == (IdOf(n, ids) + 1) % ids
  {
    IdOfMod(n, ids);
    IdOfMod(n + 1, ids);
    DivisionEquation(n, ids);
    var q := n / ids;
    assert n % ids + 1 == (n + 1) + (0 - q) * ids;
    ModShift(n + 1, 0 - q, ids);
  }

  /** Counts that differ by one have different counters. */
  lemma CountMoves(n: nat)
    ensures Count(n + 1) != Count(n)
  {
  }

  /** Adding a message makes one more, unless one waited under that position. */
  lemma OneMore<E>(pending: map<nat, E>, u: nat, e: E)
    ensures |pending[u := e]| == |pending| + if u in pending then 0 else 1
  {
    assert pending[u := e].Keys == pending.Keys + {u};
  }

  /** How many messages wait once the one at position u is gone. */
  lemma Remaining<E>(pending: map<nat, E>, u: nat)
    ensures |pending - {u}| == |pending| - if u in pending then 1 else 0
    ensures u !in pending ==> pending - {u} == pending
  {
    if u in pending { OneLess(pending, u); } else { assert pending - {u} == pending; }
  }

  /** The counters of n positions passed and p messages waiting, after the step over one of them. */
  lemma CountsAfterTake(n: nat, p: nat, waits: bool)
    requires waits ==> p > 0
    ensures Count(n + p) == Count(n + 1 + p - (if waits then 1 else 0)) <==> waits
  {
    if !waits { CountMoves(n + p); }
  }

  class Window<E> {
    const half: nat
    const winSize: nat
    const size: nat
    ghost const log2: nat
    ghost const first: nat
    const buf: array<Entry<E>>
    var exp: nat
    var rcnt: nat
    var wcnt: nat
    /** The unbounded position of the message expected next, and the messages that wait. */
    ghost var next: nat
    ghost var pending: map<nat, E>

    /** Id and read counter stand at the expected position. */
    ghost predicate Aligned()
      reads `exp, `rcnt, `next
    {
      && 0 < half && 2 * half <= WORD && winSize < half
      && log2 <= 63 && winSize <= size == Pow2(log2) == buf.Length
      && first <= next && exp == IdOf(next, 2 * half) && rcnt == Count(next - first)
    }

    /** Every waiting message is in the cell of its position, and every other cell is empty. */
    ghost predicate Filed()
      reads `exp, `rcnt, `next, `pending, buf
    {
      && Aligned()
      && (forall u :: u in pending ==> next <= u < next + winSize)
      && Holds(buf[..], first, next, pending)
    }

    /** `wcnt` is ahead of `rcnt` by the number of waiting messages. */
    ghost predicate Counted()
      requires first <= next
      reads `wcnt, `next, `pending
    {
      wcnt == Count(next - first + |pending|)
    }

    ghost predicate Valid()
      reads `exp, `rcnt, `wcnt, `next, `pending, buf
    {
      Filed() && Counted()
    }

    constructor (half: nat, winSize: nat, size: nat, ghost log2: nat, first: nat)
      requires 0 < half && 2 * half <= WORD && winSize < half && first < 2 * half
      requires winSize <= size == Pow2(log2) && log2 <= 63
      ensures Valid() && next == this.first == first && pending == map[] && fresh(buf)
      ensures this.half == half && this.winSize == winSize && this.size == size
    {
      this.half, this.winSize, this.size, this.log2, this.first := half, winSize, size, log2, first;
      buf := new Entry<E>[size](_ => Absent);
      exp, rcnt, wcnt, next, pending := first, 0, 0, first, map[];
    }

    /** `ofi_recvwin_id_valid` */
    predicate IdValid(id: nat)
      requires half > 0
      reads `exp
    {
      InRange(exp, winSize, id, half)
    }

    /** `ofi_recvwin_id_processed` */
    predicate IdProcessed(id: nat)
      requires half > 0
      reads `exp
    {
      Gt(exp, id, half)
    }

    /** The cell of an id, as both `ofi_recvwin_queue_msg` and `ofi_recvwin_get_msg` compute it. */
    method Index(id: nat, ghost u: nat) returns (i: nat)
      requires Aligned() && next <= u < next + half && id == IdOf(u, 2 * half)
      ensures i == Home(u, first, size)
    {
      IndexIsHome(next, first, u, log2, size);
      IdDist(u, next, 2 * half);
      i := Slot(Add(Slot(rcnt, size), Dist(id, exp, 2 * half)), size);
    }

    /** Store a message in the cell of its id. */
    method Put(id: nat, e: E, ghost u: nat)
      requires Filed() && next <= u < next + winSize && id == IdOf(u, 2 * half)
      modifies buf, `pending
      ensures Filed() && pending == old(pending)[u := e]
    {
      HoldsQueue(buf[..], first, next, pending, u, e);
      var i := Index(id, u);
      buf[i] := Present(e);
      pending := pending[u := e];
    }

    /**
     `ofi_recvwin_queue_msg`: the message waits under its id. The counters still count the waiting
     messages exactly if none waited there before.
     */
    method QueueMsg(id: nat, e: E, ghost u: nat)
      requires Valid() && next <= u < next + winSize && id == IdOf(u, 2 * half)
      modifies buf, `wcnt, `pending
      ensures Filed() && pending == old(pending)[u := e] && (Valid() <==> u !in old(pending))
      ensures wcnt == Count(next - first + |old(pending)| + 1)
    {
      OneMore(pending, u, e);
      AddCount(next - first + |pending|, 1);
      CountMoves(next - first + |pending|);
      Put(id, e, u);
      wcnt := Add(wcnt, 1);
    }

    /** `ofi_recvwin_get_msg`: what was queued under the id, if anything. */
    method GetMsg(id: nat, ghost u: nat) returns (e: Entry<E>)
      requires Filed() && next <= u < next + winSize && id == IdOf(u, 2 * half)
      ensures e == if u in pending then Present(pending[u]) else Absent
    {
      var i := Index(id, u);
      assert buf[..][Home(u, first, size)] == if u in pending then Present(pending[u]) else Absent;
      e := buf[i];
    }

    /** Replace the message that waits under an id, as a store through `ofi_recvwin_get_msg` does. */
    method Amend(id: nat, e: E, ghost u: nat)
      requires Valid() && u in pending && id == IdOf(u, 2 * half)
      modifies buf, `pending
      ensures Valid() && pending == old(pending)[u := e]
    {
      OneMore(pending, u, e);
      Put(id, e, u);
    }

    method HeadIndex() returns (i: nat)
      requires Aligned()
      ensures i == Home(next, first, size)
    {
      SlotOfCount(next - first, log2);
      i := Slot(rcnt, size);
    }

    /** `ofi_recvwin_peek` */
    method Peek() returns (e: Entry<E>)
      requires Filed()
      ensures e == if next in pending then Present(pending[next]) else Absent
    {
      var i := HeadIndex();
      assert buf[..][Home(next, first, size)] == if next in pending then Present(pending[next]) else Absent;
      e := buf[i];
    }

    /** Expected id and read counter move on by one. */
    method Advance()
      requires Aligned()
      modifies `exp, `rcnt
      ensures exp == IdOf(next + 1, 2 * half) && rcnt == Count(next + 1 - first)
    {
      AddCount(next - first, 1);
      IdNext(next, 2 * half);
      exp, rcnt := (exp + 1) % (2 * half), Add(rcnt, 1);
    }

    /**
     `ofi_recvwin_get_next_msg`. It never reports a missing message: it always moves on and gives the
     head cell, i. That cell holds the expected message, and the counters count the messages left,
     exactly when the expected message waits.
     */
    method GetNextMsg() returns (e: Entry<E>, i: nat)
      requires Valid()
      modifies `exp, `rcnt
      ensures i == Home(next, first, size) && e == if next in pending then Present(pending[next]) else Absent
      ensures exp == IdOf(next + 1, 2 * half) && rcnt == Count(next + 1 - first)
      ensures next in pending <==> e.Present? && Sub(wcnt, rcnt) == |pending - {next}|
      ensures next !in pending ==> e == Absent && Sub(wcnt, rcnt) == if |pending| == 0 then WORD - 1 else |pending| - 1
    {
      e := Peek();
      i := HeadIndex();
      FitsIn(pending.Keys, next, winSize);
      LeftAfter(next - first, |pending|);
      Remaining(pending, next);
      Advance();
    }

    /** `ofi_recvwin_get_next_msg`, and the store with which its caller empties the cell. */
    method TakeNext() returns (e: Entry<E>)
      requires Valid()
      modifies buf, `exp, `rcnt, `next, `pending
      ensures e == if old(next) in old(pending) then Present(old(pending)[old(next)]) else Absent
      ensures Filed() && next == old(next) + 1 && pending == old(pending) - {old(next)}
      ensures Valid() <==> old(next) in old(pending)
    {
      HoldsNext(buf[..], first, next, pending);
      Remaining(pending, next);
      CountsAfterTake(next - first, |pending|, next in pending);
      var i;
      e, i := GetNextMsg();
      buf[i] := Absent;
      next, pending := next + 1, pending - {next};
    }

    /** The id and both counters move on. */
    method SkipOne()
      requires Aligned() && Counted()
      modifies `exp, `rcnt, `wcnt
      ensures exp == IdOf(next + 1, 2 * half) && rcnt == Count(next + 1 - first)
      ensures wcnt == Add(old(wcnt), 1) == Count(next + 1 - first + |pending|)
    {
      AddCount(next - first + |pending|, 1);
      Advance();
      wcnt := Add(wcnt, 1);
    }

    /**
     `ofi_recvwin_slide`: the message whose turn it is was handled without being queued. One that waits
     under the same id keeps its cell, which now is the cell of the position one ring length later; that
     is in the window exactly if the window is as long as the ring. The messages that wait are those
     that waited for other positions exactly if there was none.
     */
    method Slide()
      requires Valid()
      modifies `exp, `rcnt, `wcnt, `next, `pending
      ensures next == old(next) + 1 && pending == Passed(old(pending), old(next), size)
      ensures Valid() <==> old(next) !in old(pending) || winSize == size
      ensures pending == old(pending) - {old(next)} <==> old(next) !in old(pending)
    {
      HoldsSlide(buf[..], first, next, pending);
      PassedSize(pending, next, size);
      PassedRange(pending, next, size, winSize);
      ghost var after := Passed(pending, next, size);
      SkipOne();
      next, pending := next + 1, after;
      assert Aligned() && Counted();
    }

    /** `wcnt - rcnt` is the number of waiting messages. */
    method PendingCount() returns (n: nat)
      requires Valid()
      ensures n == |pending|
    {
      FitsIn(pending.Keys, next, winSize);
      SubCount(next - first, |pending|);
      n := Sub(wcnt, rcnt);
    }
  }

  /** One less than the number of waiting messages, as the counters see it after a step. */
  lemma LeftAfter(n: nat, waiting: nat)
    requires waiting < WORD
    ensures Sub(Count(n + waiting), Count(n + 1)) == if waiting == 0 then WORD - 1 else waiting - 1
  {
  }

  /** Two messages queued under one id: the second replaces the first, and the counters count both. */
  method QueuedTwice<E>(a: E, b: E) returns (w: Window<E>, n: nat)
    ensures fresh(w) && w.pending == map[1 := b] && n == Sub(w.wcnt, w.rcnt) == 2 && !w.Valid()
  {
    assert Pow2(4) == 16;
    w := new Window(0x8000_0000, 16, 16, 4, 0);
    w.QueueMsg(1, a, 1);
    w.QueueMsg(1, b, 1);
    n := Sub(w.wcnt, w.rcnt);
  }

  /**
   `ofi_recvwin_get_next_msg` on a fresh window: there is no message, yet the window moves on, and
   `wcnt - rcnt` says that 2^64 - 1 messages wait.
   */
  method MissedMessage<E>() returns (w: Window<E>, e: Entry<E>, n: nat)
    ensures fresh(w) && w.pending == map[] && e == Absent && n == Sub(w.wcnt, w.rcnt) == WORD - 1
    ensures w.exp == 1 && w.next == 0 && !w.Valid()
  {
    assert Pow2(4) == 16;
    w := new Window(0x8000_0000, 16, 16, 4, 0);
    var i;
    e, i := w.GetNextMsg();
    n := Sub(w.wcnt, w.rcnt);
  }
}
