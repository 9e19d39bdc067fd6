/**
 The indexed buffer pool: memory holds the nodes of all its lists, the region table
 leads to the regions, and every buffer carries its index and its region. Which
 buffers are in use, and which regions are listed, is read from the links.
 */
module IndexedPool {
  import opened Basics
  import opened Bits
  import opened Links
  import opened DLists
  import opened PoolIndex
  import opened PoolLinks

  /** The offsets 0 to n - 1. */
  ghost function Iota(n: nat): (s: seq<nat>)
    ensures |s| == n && forall i :: 0 <= i < n ==> s[i] == i
  {
    seq(n, i => i)
  }

  /** A region whose first n buffers are set up and listed, in order. */
  ghost predicate Filled(next: seq<Ptr>, prev: seq<Ptr>, index: seq<nat>, owner: seq<Ptr>, reg: Ptr, chunk: nat,
                         r: nat, n: nat) {
    && 0 < reg && n <= chunk && |next| == |index| == |owner| == reg + chunk + 2
    && Circular(next, prev, FreeHead(reg), Bufs(reg, Iota(n)))
    && forall o :: 0 <= o < n ==> index[Buf(reg, o)] == IndexOf(chunk, r, o) && owner[Buf(reg, o)] == reg
  }

  lemma FilledNext(next: seq<Ptr>, prev: seq<Ptr>, next': seq<Ptr>, prev': seq<Ptr>, index: seq<nat>, owner: seq<Ptr>,
                   reg: Ptr, chunk: nat, r: nat, n: nat)
    requires Filled(next, prev, index, owner, reg, chunk, r, n) && n < chunk
    requires Circular(next', prev', FreeHead(reg), Inserted(Bufs(reg, Iota(n)), n, Buf(reg, n)))
    requires Local(next, prev, next', prev', FreeHead(reg), Bufs(reg, Iota(n)), Buf(reg, n))
    ensures OnlyIn(next, prev, next', prev', reg, reg + chunk + 2)
    ensures Filled(next', prev', index[Buf(reg, n) := IndexOf(chunk, r, n)], owner[Buf(reg, n) := reg],
                   reg, chunk, r, n + 1)
  {
    LocalInRegion(next, prev, next', prev', reg, chunk, Iota(n), n);
    assert Bufs(reg, Iota(n + 1)) == Inserted(Bufs(reg, Iota(n)), n, Buf(reg, n));
  }

  /** The fields of the regions that exist are as they were. */
  lemma IndexedBeside(index: seq<nat>, owner: seq<Ptr>, index': seq<nat>, owner': seq<Ptr>, regs: seq<Ptr>, chunk: nat,
                      reg: Ptr)
    requires AllIndexed(index, owner, regs, chunk) && |index| == |owner| == reg
    requires |index'| == |owner'| == reg + chunk + 2 && index'[..reg] == index && owner'[..reg] == owner
    requires Indexed(index', owner', reg, chunk, |regs|)
    ensures AllIndexed(index', owner', regs + [reg], chunk)
  {
    forall r | 0 <= r < |regs + [reg]| ensures Indexed(index', owner', (regs + [reg])[r], chunk, r) {
      if r < |regs| {
        assert Indexed(index, owner, regs[r], chunk, r);
        forall p | 0 <= p < reg ensures index'[p] == index[p] && owner'[p] == owner[p] {
          assert index'[p] == index'[..reg][p] && owner'[p] == owner'[..reg][p];
        }
      }
    }
  }

  lemma PrefixKept<T>(a: seq<T>, b: seq<T>, n: nat)
    requires |a| == |b| && n < |a| && b[..n + 1] == a[..n + 1]
    ensures b[..n] == a[..n] && b[n] == a[n]
  {
    assert b[n] == b[..n + 1][n] && a[n] == a[..n + 1][n];
    assert b[..n] == b[..n + 1][..n] && a[..n] == a[..n + 1][..n];
  }

  class Pool {
    const chunk: nat
    const maxCnt: nat
    const mem: Lists
    var entryCnt: nat
    var regs: seq<Ptr>
    var index: seq<nat>
    var owner: seq<Ptr>
    /** The listed regions, the free buffers of each region, and the marks. */
    ghost var regions: seq<nat>
    ghost var frees: seq<seq<nat>>
    ghost var used: seq<seq<bool>>

    ghost predicate Linked()
      reads mem, `regs, `regions, `frees, `used
    {
      LinksOk(mem.next, mem.prev, regs, chunk, regions, frees, used)
    }

    ghost predicate Tagged()
      reads mem, `regs, `index, `owner
    {
      |index| == |owner| == |mem.next| && AllIndexed(index, owner, regs, chunk)
    }

    ghost predicate Booked()
      reads `entryCnt, `regions, `frees, `used
    {
      0 < chunk && entryCnt == IndexOf(chunk, |used|, 0) && PoolOk(chunk, regions, frees, used)
    }

    ghost predicate Valid()
      reads this, mem
    {
      Linked() && Tagged() && Booked()
    }

    constructor (chunk: nat, maxCnt: nat)
      requires 0 < chunk
      ensures Valid() && used == [] && this.chunk == chunk && this.maxCnt == maxCnt && fresh(mem)
    {
      this.chunk, this.maxCnt := chunk, maxCnt;
      mem := new Lists([POOL], [POOL]);
      entryCnt, regs, index, owner, regions, frees, used := 0, [], [0], [NULL], [], [], [];
      new;
      assert Joined(mem.next, mem.prev, POOL, [], -1);
      assert Entries([], []) == [];
    }

    /** The loop of `ofi_bufpool_grow`: every buffer gets its index and region and joins the free list at its end. */
    method Fill(reg: Ptr)
      requires 0 < reg && |mem.next| == |mem.prev| == |index| == |owner| == reg + chunk + 2
      requires entryCnt == IndexOf(chunk, |regs|, 0)
      modifies mem, `index, `owner
      ensures Filled(mem.next, mem.prev, index, owner, reg, chunk, |regs|, chunk)
      ensures OnlyIn(old(mem.next), old(mem.prev), mem.next, mem.prev, reg, reg + chunk + 2)
      ensures index[..reg + 1] == old(index)[..reg + 1] && owner[..reg + 1] == old(owner)[..reg + 1]
    {
      mem.Init(FreeHead(reg));
      assert Bufs(reg, Iota(0)) == [];
      for o := 0 to chunk
        invariant Filled(mem.next, mem.prev, index, owner, reg, chunk, |regs|, o)
        invariant OnlyIn(old(mem.next), old(mem.prev), mem.next, mem.prev, reg, reg + chunk + 2)
        invariant index[..reg + 1] == old(index)[..reg + 1] && owner[..reg + 1] == old(owner)[..reg + 1]
      {
        AddBuffer(reg, o);
      }
    }

    method AddBuffer(reg: Ptr, o: nat)
      requires Filled(mem.next, mem.prev, index, owner, reg, chunk, |regs|, o) && o < chunk
      requires entryCnt == IndexOf(chunk, |regs|, 0)
      modifies mem, `index, `owner
      ensures Filled(mem.next, mem.prev, index, owner, reg, chunk, |regs|, o + 1)
      ensures OnlyIn(old(mem.next), old(mem.prev), mem.next, mem.prev, reg, reg + chunk + 2)
      ensures index[..reg + 1] == old(index)[..reg + 1] && owner[..reg + 1] == old(owner)[..reg + 1]
    {
      ghost var s := Bufs(reg, Iota(o));
      SelfLinked(mem.next, mem.prev, FreeHead(reg), s);
      assert Joined(mem.next, mem.prev, FreeHead(reg), s, o - 1);
      mem.InsertAfter(Buf(reg, o), mem.prev[FreeHead(reg)], FreeHead(reg), s, o);
      FilledNext(old(mem.next), old(mem.prev), mem.next, mem.prev, index, owner, reg, chunk, |regs|, o);
      owner := owner[Buf(reg, o) := reg];
      index := index[Buf(reg, o) := entryCnt + o];
    }

    /** Memory for a region, behind all others. */
    method AllocRegion() returns (reg: Ptr)
      requires Linked() && Tagged()
      modifies mem, `index, `owner
      ensures 0 < reg && |mem.next| == |mem.prev| == |index| == |owner| == reg + chunk + 2
      ensures Linked() && Layout(regs, chunk, reg) && AllIndexed(index[..reg], owner[..reg], regs, chunk)
    {
      reg := |mem.next|;
      assert Joined(mem.next, mem.prev, POOL, Entries(regs, regions), -1);
      var blank := seq(chunk + 2, _ => NULL);
      LinksGrow(mem.next, mem.prev, blank, regs, chunk, regions, frees, used);
      mem.next, mem.prev := mem.next + blank, mem.prev + blank;
      index, owner := index + seq(chunk + 2, _ => 0), owner + blank;
      assert index[..reg] == old(index) && owner[..reg] == old(owner);
    }

    /** The region gets its number and its buffers. */
    method SetUp(reg: Ptr)
      requires 0 < reg && |mem.next| == |mem.prev| == |index| == |owner| == reg + chunk + 2
      requires entryCnt == IndexOf(chunk, |regs|, 0)
      requires Linked() && Layout(regs, chunk, reg) && AllIndexed(index[..reg], owner[..reg], regs, chunk)
      modifies mem, `index, `owner
      ensures |mem.next| == |index| == |owner| == old(|mem.next|)
      ensures Linked() && AllIndexed(index, owner, regs + [reg], chunk)
      ensures RegionOk(mem.next, mem.prev, reg, chunk, Iota(chunk), Blank(chunk))
    {
      ghost var ix, ow := index[..reg], owner[..reg];
      index := index[reg := |regs|];
      ghost var index1, owner1 := index, owner;
      Fill(reg);
      LinksBeside(old(mem.next), old(mem.prev), mem.next, mem.prev, regs, chunk, regions, frees, used, reg);
      PrefixKept(index1, index, reg);
      PrefixKept(owner1, owner, reg);
      assert index1[..reg] == ix;
      IndexedBeside(ix, ow, index, owner, regs, chunk, reg);
    }

    /** It joins the pool's list at the end. */
    method Join(reg: Ptr)
      requires Linked() && RegionOk(mem.next, mem.prev, reg, chunk, Iota(chunk), Blank(chunk))
      requires Layout(regs, chunk, reg)
      requires |index| == |owner| == |mem.next| && AllIndexed(index, owner, regs + [reg], chunk)
      modifies mem, `regs, `regions, `frees, `used
      ensures Linked() && Tagged() && regs == old(regs) + [reg] && regions == old(regions) + [old(|regs|)]
      ensures frees == old(frees) + [Iota(chunk)] && used == old(used) + [Blank(chunk)]
    {
      ghost var s := Entries(regs, regions);
      SelfLinked(mem.next, mem.prev, POOL, s);
      assert Joined(mem.next, mem.prev, POOL, s, |s| - 1);
      EntriesIn(regs, regions);
      mem.InsertAfter(reg, mem.prev[POOL], POOL, s, |s|);
      LinksAppend(old(mem.next), old(mem.prev), mem.next, mem.prev, regs, chunk, regions, frees, used,
                  reg, Iota(chunk), Blank(chunk));
      regs, regions := regs + [reg], regions + [|regs|];
      frees, used := frees + [Iota(chunk)], used + [Blank(chunk)];
    }

    /** `ofi_bufpool_grow`; `oom` says whether an allocation fails. */
    method Grow(oom: bool) returns (ok: bool)
      requires Valid()
      modifies this, mem
      ensures Valid() && ok == !(oom || (maxCnt != 0 && old(entryCnt) >= maxCnt))
      ensures used == if ok then old(used) + [Blank(chunk)] else old(used)
      ensures !ok ==> unchanged(this) && unchanged(mem)
    {
      if (maxCnt != 0 && entryCnt >= maxCnt) || oom {
        return false;
      }
      PoolGrow(chunk, regions, frees, used, Iota(chunk), Blank(chunk));
      assert (|used| + 1) * chunk == |used| * chunk + chunk;
      var reg := AllocRegion();
      SetUp(reg);
      Join(reg);
      entryCnt := entryCnt + chunk;
      ok := true;
    }

    /** `ofi_bufpool_ibuf_is_valid`: whether a buffer is in use, which its own link tells. */
    method IsValid(i: nat) returns (b: bool)
      requires Valid()
      ensures b <==> i / chunk < |used| && used[i / chunk][i % chunk]
    {
      DivisionEquation(i, chunk);
      var r := Div(i, chunk);
      if r >= |regs| {
        return false;
      }
      MarksAreLinks(mem.next, mem.prev, regs, chunk, regions, frees, used, r);
      var buf := Buf(regs[r], i % chunk);
      b := mem.next[buf] == buf;
    }

    /** A free buffer leaves its list and is marked. */
    method Unlink(buf: Ptr, ghost r: nat, ghost k: nat)
      requires Linked() && Tagged() && r < |regs| && k < |frees[r]|
      requires FreeListOk(frees[r], used[r]) && buf == Buf(regs[r], frees[r][k])
      modifies mem, `frees, `used
      ensures Linked() && Tagged() && frees == old(frees)[r := Without(old(frees)[r], k)]
      ensures old(frees)[r][k] < |old(used)[r]| && used == Mark(old(used), r, old(frees)[r][k], true)
    {
      ghost var reg, free := regs[r], frees[r];
      mem.Remove(buf, FreeHead(reg), Bufs(reg, free), k);
      TakenOk(old(mem.next), old(mem.prev), mem.next, mem.prev, reg, chunk, free, used[r], k);
      mem.next := mem.next[buf := buf];
      FreeListChange(old(mem.next), old(mem.prev), mem.next, mem.prev, regs, chunk, regions, frees, used,
                     r, Without(free, k), used[r][free[k] := true]);
      used := Mark(used, r, free[k], true);
      frees := frees[r := Without(free, k)];
    }

    /** A region leaves the pool's list. */
    method Delist(reg: Ptr, ghost q: nat)
      requires Linked() && Tagged() && Sorted(regions) && q < |regions|
      requires regions[q] < |regs| && reg == regs[regions[q]]
      modifies mem, `regions
      ensures Linked() && Tagged() && regions == Without(old(regions), q)
    {
      mem.Remove(reg, POOL, Entries(regs, regions), q);
      ghost var next1, prev1 := mem.next, mem.prev;
      mem.Init(reg);
      DelistedOk(old(mem.next), old(mem.prev), next1, prev1, mem.next, mem.prev, regs, chunk, regions, q);
      PoolListChange(old(mem.next), old(mem.prev), mem.next, mem.prev, regs, chunk, regions, frees, used,
                     Without(regions, q));
      regions := Without(regions, q);
    }

    /** `dlist_empty` of a free list. */
    method Drained(reg: Ptr, ghost r: nat) returns (b: bool)
      requires Linked() && r < |regs| && reg == regs[r]
      ensures b <==> frees[r] == []
    {
      SelfLinked(mem.next, mem.prev, FreeHead(reg), Bufs(reg, frees[r]));
      b := mem.next[FreeHead(reg)] == FreeHead(reg);
    }

    /** Take the k-th free buffer of a region, which is the q-th of the pool's list. */
    method Take(reg: Ptr, buf: Ptr, ghost r: nat, ghost k: nat, ghost q: nat)
      requires Valid() && r < |regs| && reg == regs[r] && k < |frees[r]| && buf == Buf(reg, frees[r][k])
      requires q < |regions| && regions[q] == r
      modifies mem, `regions, `frees, `used
      ensures Valid() && old(frees[r][k]) < |old(used[r])| && used == Mark(old(used), r, old(frees[r][k]), true)
    {
      assert FreeListOk(frees[r], used[r]);
      Unlink(buf, r, k);
      var last := Drained(reg, r);
      if last {
        Delist(reg, q);
      }
      PoolTake(chunk, old(regions), old(frees), old(used), r, k, q);
    }

    /** The first region of the pool's list, and the first buffer of its free list. */
    method Front(ghost r: nat) returns (reg: Ptr, buf: Ptr)
      requires Linked() && regions != [] && r == regions[0] < |frees| && frees[r] != []
      ensures reg == regs[r] && buf == Buf(reg, frees[r][0])
    {
      assert Joined(mem.next, mem.prev, POOL, Entries(regs, regions), -1);
      reg := mem.next[POOL];
      assert Joined(mem.next, mem.prev, FreeHead(reg), Bufs(reg, frees[r]), -1);
      buf := mem.next[FreeHead(reg)];
    }

    /** `ofi_ibufpool_empty`: the pool's list has no region exactly when every buffer is in use. */
    method Empty() returns (b: bool)
      requires Valid()
      ensures b <==> AllUsed(used)
    {
      NoRegionNoBuffer(chunk, regions, frees, used);
      SelfLinked(mem.next, mem.prev, POOL, Entries(regs, regions));
      b := mem.next[POOL] == POOL;
    }

    /** With a region on the pool's list: its first free buffer. */
    method TakeLowest() returns (b: Ptr, ghost r: nat, ghost o: nat)
      requires Valid() && !AllUsed(used)
      modifies mem, `regions, `frees, `used
      ensures Valid() && LowestFree(chunk, old(used), r, o) && used == Mark(old(used), r, o, true)
      ensures r < |regs| && b == Buf(regs[r], o) && 0 < b < |index| && index[b] == IndexOf(chunk, r, o)
    {
      NoRegionNoBuffer(chunk, regions, frees, used);
      HeadIsLowest(chunk, regions, frees, used);
      r, o := regions[0], frees[regions[0]][0];
      var reg;
      reg, b := Front(r);
      Take(reg, b, r, 0, 0);
      assert Indexed(index, owner, regs[r], chunk, r);
    }

    /** `ofi_ibuf_alloc`: the lowest free buffer, of a new region if there is none. */
    method Alloc(oom: bool) returns (b: Ptr, ghost r: nat, ghost o: nat)
      requires Valid()
      modifies this, mem
      ensures Valid()
      ensures b == NULL <==> old(AllUsed(used)) && (oom || (maxCnt != 0 && old(entryCnt) >= maxCnt))
      ensures b == NULL ==> used == old(used)
      ensures b != NULL ==>
                var before := if old(AllUsed(used)) then Extended(old(used), chunk, 1) else old(used);
                && LowestFree(chunk, before, r, o) && used == Mark(before, r, o, true)
                && r < |regs| && b == Buf(regs[r], o) && index[b] == IndexOf(chunk, r, o)
    {
      r, o := 0, 0;
      var empty := Empty();
      if empty {
        var ok := Grow(oom);
        if !ok {
          b := NULL;
          return;
        }
        assert used == Extended(old(used), chunk, 1);
        assert !used[|used| - 1][0];
      }
      b, r, o := TakeLowest();
    }

    /**
     `ofi_ibuf_alloc_at`: exactly the buffer asked for, after growing the pool until it exists;
     `grows` is how many regions can still be allocated. Regions added before a failure stay.
     */
    method AllocAt(i: nat, grows: nat) returns (b: Ptr, ghost n: nat)
      requires Valid()
      requires i / chunk < |used| ==> !used[i / chunk][i % chunk]
      modifies this, mem
      ensures Valid() && |used| == |regs|
      ensures var r, o := i / chunk, i % chunk;
              if b == NULL then used == Extended(old(used), chunk, n) && |used| <= r
              else
                && r < |regs| && b == Buf(regs[r], o) && index[b] == i
                && |regs| == (if r < |old(used)| then |old(used)| else r + 1)
                && r < |Extended(old(used), chunk, n)| && used == Mark(Extended(old(used), chunk, n), r, o, true)
      ensures b == NULL ==> n == grows || (maxCnt != 0 && entryCnt >= maxCnt)
    {
      DivisionEquation(i, chunk);
      var r, o := Div(i, chunk), i % chunk;
      b, n := GrowTo(r, grows);
      if b == NULL {
        return;
      }
      assert !used[r][o];
      AtPlace(chunk, regions, frees, used, r, o);
      ghost var k: nat :| k < |frees[r]| && frees[r][k] == o;
      ghost var q: nat :| q < |regions| && regions[q] == r;
      b := Buf(regs[r], o);
      Take(regs[r], b, r, k, q);
      assert Indexed(index, owner, regs[r], chunk, r);
    }

    /** Regions are added until there is one of number r. */
    method GrowTo(r: nat, grows: nat) returns (reg: Ptr, ghost n: nat)
      requires Valid()
      modifies this, mem
      ensures Valid() && used == Extended(old(used), chunk, n) && |used| == |regs| == |old(used)| + n
      ensures if reg == NULL then |regs| <= r && (n == grows || (maxCnt != 0 && entryCnt >= maxCnt))
              else |regs| == (if r < |old(used)| then |old(used)| else r + 1) && r < |regs| && reg == regs[r]
    {
      n := 0;
      var left := grows;
      assert used == Extended(old(used), chunk, 0);
      while r >= |regs|
        invariant Valid() && used == Extended(old(used), chunk, n) && n + left == grows
        invariant |used| <= r || |used| == |old(used)| || |used| == r + 1
        invariant |used| == |old(used)| + n
        decreases r + 1 - |regs|
      {
        var ok := Grow(left == 0);
        if !ok {
          reg := NULL;
          return;
        }
        ExtendedNext(old(used), chunk, n);
        left, n := left - 1, n + 1;
      }
      reg := regs[r];
    }

    /** A marked buffer goes back to its place on the free list. */
    method Relink(reg: Ptr, buf: Ptr, ghost r: nat, ghost o: nat)
      requires Linked() && Tagged() && r < |regs| && reg == regs[r] && FreeListOk(frees[r], used[r])
      requires o < chunk && buf == Buf(reg, o) && |used[r]| == chunk && used[r][o]
      modifies mem, `frees, `used
      ensures Linked() && Tagged() && used == Mark(old(used), r, o, false)
      ensures frees == old(frees)[r := Inserted(old(frees)[r], Rank(old(frees)[r], o), o)]
    {
      ghost var free, marks := frees[r], used[r];
      assert Indexed(index, owner, reg, chunk, r) && RegionOk(mem.next, mem.prev, reg, chunk, free, marks);
      BufferPlace(index, owner, reg, chunk, r, free, o);
      assert o !in free;
      mem.InsertOrder(FreeHead(reg), buf, Lower(index), Bufs(reg, free));
      GivenOk(old(mem.next), old(mem.prev), mem.next, mem.prev, reg, chunk, free, marks, o);
      FreeListChange(old(mem.next), old(mem.prev), mem.next, mem.prev, regs, chunk, regions, frees, used,
                     r, Inserted(free, Rank(free, o), o), marks[o := false]);
      used := Mark(used, r, o, false);
      frees := frees[r := Inserted(free, Rank(free, o), o)];
    }

    /** A region goes back to its place on the pool's list. */
    method Relist(reg: Ptr, ghost r: nat)
      requires Linked() && Tagged() && Sorted(regions) && r < |regs| && reg == regs[r] && r !in regions
      modifies mem, `regions
      ensures Linked() && Tagged() && regions == Inserted(old(regions), Rank(old(regions), r), r)
    {
      EntryOff(regs, chunk, |mem.next|, regions, r);
      RegionPlace(index, owner, regs, chunk, regions, r);
      mem.InsertOrder(POOL, reg, Lower(index), Entries(regs, regions));
      RelistedOk(old(mem.next), old(mem.prev), mem.next, mem.prev, regs, chunk, regions, r);
      PoolListChange(old(mem.next), old(mem.prev), mem.next, mem.prev, regs, chunk, regions, frees, used,
                     Inserted(regions, Rank(regions, r), r));
      regions := Inserted(regions, Rank(regions, r), r);
    }

    /** A region's entry tells whether it is on the pool's list. */
    method Listed(reg: Ptr, ghost r: nat) returns (b: bool)
      requires Linked() && r < |regs| && reg == regs[r]
      ensures b <==> r in regions
    {
      SelfListed(mem.next, mem.prev, regs, regions, r);
      b := mem.next[reg] != reg;
    }

    /** `ofi_ibuf_free`, of a buffer in use */
    method Free(buf: Ptr, ghost r: nat, ghost o: nat)
      requires Valid() && r < |used| && o < |used[r]| && buf == Buf(regs[r], o) && used[r][o]
      modifies mem, `regions, `frees, `used
      ensures Valid() && used == Mark(old(used), r, o, false)
    {
      assert Indexed(index, owner, regs[r], chunk, r) && FreeListOk(frees[r], used[r]);
      var reg := owner[buf];
      Relink(reg, buf, r, o);
      var listed := Listed(reg, r);
      if !listed {
        Relist(reg, r);
      }
      PoolGive(chunk, old(regions), old(frees), old(used), r, o);
    }
  }
}
