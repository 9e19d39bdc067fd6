/**
 The lists of an indexed buffer pool in memory. A region is a block of nodes: its
 entry on the pool's list, the head of its free list, then its buffers. The pool's
 list has its head at address 0. A buffer in use, and the entry of a region that is
 off the pool's list, are linked to themselves.
 */
module PoolLinks {
  import opened Basics
  import opened Links
  import opened DLists
  import opened PoolIndex

  const POOL: Ptr := 0

  /** The head of a region's free list, and its buffer number o. */
  function FreeHead(reg: Ptr): (p: Ptr) {
    reg + 1
  }

  function Buf(reg: Ptr, o: nat): (p: Ptr) {
    reg + 2 + o
  }

  /** The nodes of the free list of a region. */
  ghost function Bufs(reg: Ptr, free: seq<nat>): (s: seq<Ptr>)
    ensures |s| == |free| && forall i :: 0 <= i < |s| ==> s[i] == Buf(reg, free[i])
  {
    seq(|free|, i requires 0 <= i < |free| => Buf(reg, free[i]))
  }

  ghost predicate Known(regs: seq<Ptr>, regions: seq<nat>) {
    forall i :: 0 <= i < |regions| ==> regions[i] < |regs|
  }

  /** The nodes of the pool's list. */
  ghost function Entries(regs: seq<Ptr>, regions: seq<nat>): (s: seq<Ptr>)
    requires Known(regs, regions)
    ensures |s| == |regions| && forall i :: 0 <= i < |s| ==> s[i] == regs[regions[i]]
  {
    seq(|regions|, i requires 0 <= i < |regions| => regs[regions[i]])
  }

  /** The regions are blocks of memory behind address 0, one behind the other. */
  ghost predicate Layout(regs: seq<Ptr>, chunk: nat, n: nat) {
    && (forall r :: 0 <= r < |regs| ==> 0 < regs[r] && regs[r] + chunk + 2 <= n)
    && (forall r, r' :: 0 <= r < r' < |regs| ==> regs[r] + chunk + 2 <= regs[r'])
  }

  /** The free list is linked, and every marked buffer is linked to itself. */
  ghost predicate RegionOk(next: seq<Ptr>, prev: seq<Ptr>, reg: Ptr, chunk: nat, free: seq<nat>, marks: seq<bool>) {
    && 0 < reg && reg + chunk + 2 <= |next| && |marks| == chunk
    && (forall i :: 0 <= i < |free| ==> free[i] < chunk)
    && Circular(next, prev, FreeHead(reg), Bufs(reg, free))
    && (forall o :: 0 <= o < chunk && marks[o] ==> next[Buf(reg, o)] == Buf(reg, o))
  }

  /** The pool's list is linked, and the entry of every other region is linked to itself. */
  ghost predicate PoolListOk(next: seq<Ptr>, prev: seq<Ptr>, regs: seq<Ptr>, regions: seq<nat>) {
    && Known(regs, regions) && Circular(next, prev, POOL, Entries(regs, regions))
    && (forall r :: 0 <= r < |regs| && r !in regions ==> 0 <= regs[r] < |next| && next[regs[r]] == regs[r])
  }

  ghost predicate LinksOk(next: seq<Ptr>, prev: seq<Ptr>, regs: seq<Ptr>, chunk: nat,
                          regions: seq<nat>, frees: seq<seq<nat>>, used: seq<seq<bool>>) {
    && |regs| == |frees| == |used| && Layout(regs, chunk, |next|) && PoolListOk(next, prev, regs, regions)
    && (forall r :: 0 <= r < |regs| ==> RegionOk(next, prev, regs[r], chunk, frees[r], used[r]))
  }

  /** Only nodes from lo up to hi were written. */
  ghost predicate OnlyIn(next: seq<Ptr>, prev: seq<Ptr>, next': seq<Ptr>, prev': seq<Ptr>, lo: Ptr, hi: Ptr) {
    && |next'| == |prev'| == |next| == |prev|
    && (forall p :: 0 <= p < |next| && !(lo <= p < hi) ==> next'[p] == next[p] && prev'[p] == prev[p])
  }

  /** None of them was. */
  ghost predicate NotIn(next: seq<Ptr>, prev: seq<Ptr>, next': seq<Ptr>, prev': seq<Ptr>, lo: Ptr, hi: Ptr) {
    && |next'| == |prev'| == |next| == |prev|
    && (forall p :: 0 <= p < |next| && lo <= p < hi ==> next'[p] == next[p] && prev'[p] == prev[p])
  }

  lemma RegionFrame(next: seq<Ptr>, prev: seq<Ptr>, next': seq<Ptr>, prev': seq<Ptr>,
                    reg: Ptr, chunk: nat, free: seq<nat>, marks: seq<bool>)
    requires RegionOk(next, prev, reg, chunk, free, marks)
    requires NotIn(next, prev, next', prev', reg + 1, reg + chunk + 2)
    ensures RegionOk(next', prev', reg, chunk, free, marks)
  {
    OtherList(next, prev, next', prev', FreeHead(reg), Bufs(reg, free));
  }

  lemma PoolFrame(next: seq<Ptr>, prev: seq<Ptr>, next': seq<Ptr>, prev': seq<Ptr>, regs: seq<Ptr>, regions: seq<nat>)
    requires PoolListOk(next, prev, regs, regions) && |next'| == |prev'| == |next|
    requires next' != [] && next'[POOL] == next[POOL] && prev'[POOL] == prev[POOL]
    requires forall r :: 0 <= r < |regs| && 0 <= regs[r] < |next| ==>
               next'[regs[r]] == next[regs[r]] && prev'[regs[r]] == prev[regs[r]]
    ensures PoolListOk(next', prev', regs, regions)
  {
    var s := Entries(regs, regions);
    forall k | -1 <= k < |s| && 0 <= Node(POOL, s, k) < |next|
      ensures next'[Node(POOL, s, k)] == next[Node(POOL, s, k)] && prev'[Node(POOL, s, k)] == prev[Node(POOL, s, k)]
    {
      if k >= 0 { assert s[k] == regs[regions[k]]; }
    }
    OtherList(next, prev, next', prev', POOL, s);
  }

  /** A change inside one region's free list concerns that region only. */
  lemma FreeListChange(next: seq<Ptr>, prev: seq<Ptr>, next': seq<Ptr>, prev': seq<Ptr>, regs: seq<Ptr>, chunk: nat,
                       regions: seq<nat>, frees: seq<seq<nat>>, used: seq<seq<bool>>,
                       r: nat, free: seq<nat>, marks: seq<bool>)
    requires LinksOk(next, prev, regs, chunk, regions, frees, used) && r < |regs|
    requires OnlyIn(next, prev, next', prev', regs[r] + 1, regs[r] + chunk + 2)
    requires RegionOk(next', prev', regs[r], chunk, free, marks)
    ensures LinksOk(next', prev', regs, chunk, regions, frees[r := free], used[r := marks])
  {
    forall q | 0 <= q < |regs| ensures next'[regs[q]] == next[regs[q]] && prev'[regs[q]] == prev[regs[q]] {
      assert q < r ==> regs[q] + chunk + 2 <= regs[r];
      assert r < q ==> regs[r] + chunk + 2 <= regs[q];
    }
    PoolFrame(next, prev, next', prev', regs, regions);
    forall q | 0 <= q < |regs| && q != r ensures RegionOk(next', prev', regs[q], chunk, frees[q], used[q]) {
      assert q < r ==> regs[q] + chunk + 2 <= regs[r];
      assert r < q ==> regs[r] + chunk + 2 <= regs[q];
      RegionFrame(next, prev, next', prev', regs[q], chunk, frees[q], used[q]);
    }
  }

  /** Only the head of the pool's list and the entries of regions were written. */
  ghost predicate OnlyEntries(next: seq<Ptr>, prev: seq<Ptr>, next': seq<Ptr>, prev': seq<Ptr>, regs: seq<Ptr>) {
    && |next'| == |prev'| == |next| == |prev|
    && (forall p :: 0 <= p < |next| && p != POOL && p !in regs ==> next'[p] == next[p] && prev'[p] == prev[p])
  }

  /** A change of the pool's list concerns no free list. */
  lemma PoolListChange(next: seq<Ptr>, prev: seq<Ptr>, next': seq<Ptr>, prev': seq<Ptr>, regs: seq<Ptr>, chunk: nat,
                       regions: seq<nat>, frees: seq<seq<nat>>, used: seq<seq<bool>>, regions': seq<nat>)
    requires LinksOk(next, prev, regs, chunk, regions, frees, used)
    requires OnlyEntries(next, prev, next', prev', regs) && PoolListOk(next', prev', regs, regions')
    ensures LinksOk(next', prev', regs, chunk, regions', frees, used)
  {
    forall q | 0 <= q < |regs| ensures RegionOk(next', prev', regs[q], chunk, frees[q], used[q]) {
      forall p | regs[q] + 1 <= p < regs[q] + chunk + 2 ensures p !in regs { NoEntry(regs, chunk, |next|, q, p); }
      RegionFrame(next, prev, next', prev', regs[q], chunk, frees[q], used[q]);
    }
  }

  lemma NoEntry(regs: seq<Ptr>, chunk: nat, n: nat, q: nat, p: Ptr)
    requires Layout(regs, chunk, n) && q < |regs| && regs[q] + 1 <= p < regs[q] + chunk + 2
    ensures p !in regs
  {
    forall r | 0 <= r < |regs| ensures regs[r] != p {
      assert q < r ==> regs[q] + chunk + 2 <= regs[r];
      assert r < q ==> regs[r] + chunk + 2 <= regs[q];
    }
  }

  /** A node of a list is not linked to itself; the head is exactly when the list is empty. */
  lemma SelfLinked(next: seq<Ptr>, prev: seq<Ptr>, head: Ptr, s: seq<Ptr>)
    requires Circular(next, prev, head, s)
    ensures 0 <= head < |next| && (next[head] == head <==> s == [])
    ensures forall k :: 0 <= k < |s| ==> 0 <= s[k] < |next| && next[s[k]] != s[k]
  {
    assert Joined(next, prev, head, s, -1);
    if s != [] { assert s[0] in s; }
    forall k | 0 <= k < |s| ensures 0 <= s[k] < |next| && next[s[k]] != s[k] {
      assert Joined(next, prev, head, s, k);
      NodesApart(next, prev, head, s, k, if k + 1 == |s| then -1 else k + 1);
    }
  }

  /** A region is off the pool's list exactly if its entry is linked to itself. */
  lemma SelfListed(next: seq<Ptr>, prev: seq<Ptr>, regs: seq<Ptr>, regions: seq<nat>, r: nat)
    requires PoolListOk(next, prev, regs, regions) && r < |regs| && 0 <= regs[r] < |next|
    ensures next[regs[r]] == regs[r] <==> r !in regions
  {
    var s := Entries(regs, regions);
    SelfLinked(next, prev, POOL, s);
    if r in regions {
      var i :| 0 <= i < |regions| && regions[i] == r;
      assert s[i] == regs[r];
    }
  }

  /** In-use marks and the pool's list can be read off the links. */
  lemma MarksAreLinks(next: seq<Ptr>, prev: seq<Ptr>, regs: seq<Ptr>, chunk: nat,
                      regions: seq<nat>, frees: seq<seq<nat>>, used: seq<seq<bool>>, r: nat)
    requires LinksOk(next, prev, regs, chunk, regions, frees, used) && PoolOk(chunk, regions, frees, used) && r < |regs|
    ensures 0 <= regs[r] < |next| && (next[regs[r]] == regs[r] <==> r !in regions)
    ensures 0 <= FreeHead(regs[r]) < |next| && (next[FreeHead(regs[r])] == FreeHead(regs[r]) <==> frees[r] == [])
    ensures forall o :: 0 <= o < chunk ==> (used[r][o] <==> next[Buf(regs[r], o)] == Buf(regs[r], o))
  {
    var t := Bufs(regs[r], frees[r]);
    SelfListed(next, prev, regs, regions, r);
    SelfLinked(next, prev, FreeHead(regs[r]), t);
    assert FreeListOk(frees[r], used[r]);
    forall o | 0 <= o < chunk && !used[r][o] ensures next[Buf(regs[r], o)] != Buf(regs[r], o) {
      assert o in frees[r];
      var i :| 0 <= i < |frees[r]| && frees[r][i] == o;
      assert t[i] == Buf(regs[r], o);
    }
  }

  lemma BufsWithout(reg: Ptr, free: seq<nat>, k: nat)
    requires k < |free|
    ensures Bufs(reg, Without(free, k)) == Without(Bufs(reg, free), k)
  {
  }

  lemma BufsInserted(reg: Ptr, free: seq<nat>, k: nat, o: nat)
    requires k <= |free|
    ensures Bufs(reg, Inserted(free, k, o)) == Inserted(Bufs(reg, free), k, Buf(reg, o))
  {
  }

  lemma EntriesWithout(regs: seq<Ptr>, regions: seq<nat>, q: nat)
    requires Known(regs, regions) && q < |regions|
    ensures Known(regs, Without(regions, q)) && Entries(regs, Without(regions, q)) == Without(Entries(regs, regions), q)
  {
  }

  lemma EntriesInserted(regs: seq<Ptr>, regions: seq<nat>, k: nat, r: nat)
    requires Known(regs, regions) && k <= |regions| && r < |regs|
    ensures Known(regs, Inserted(regions, k, r))
    ensures Entries(regs, Inserted(regions, k, r)) == Inserted(Entries(regs, regions), k, regs[r])
  {
  }

  /** Linking a node that is on no list to itself leaves a list alone. */
  lemma MarkOther(next: seq<Ptr>, prev: seq<Ptr>, head: Ptr, s: seq<Ptr>, p: Ptr)
    requires Circular(next, prev, head, s) && 0 <= p < |next| && p != head && p !in s
    ensures Circular(next[p := p], prev, head, s)
  {
    forall k | -1 <= k < |s| ensures Node(head, s, k) != p { }
    OtherList(next, prev, next[p := p], prev, head, s);
  }

  /** The comparison of `ofi_ibuf_is_lower` and `ofi_ibufpool_region_is_lower`, on the index fields. */
  function Lower(index: seq<nat>): (before: (Ptr, Ptr) -> bool) {
    (p: Ptr, q: Ptr) => 0 <= p < |index| && 0 <= q < |index| && index[p] < index[q]
  }

  /** The index fields: a region's number in its entry, and the pool-wide number in each buffer. */
  ghost predicate Indexed(index: seq<nat>, owner: seq<Ptr>, reg: Ptr, chunk: nat, r: nat) {
    && 0 < reg && reg + chunk + 2 <= |index| == |owner| && index[reg] == r
    && (forall o :: 0 <= o < chunk ==> index[Buf(reg, o)] == IndexOf(chunk, r, o) && owner[Buf(reg, o)] == reg)
  }

  ghost predicate AllIndexed(index: seq<nat>, owner: seq<Ptr>, regs: seq<Ptr>, chunk: nat) {
    forall r :: 0 <= r < |regs| ==> Indexed(index, owner, regs[r], chunk, r)
  }

  /** By these fields a buffer goes where its offset goes. */
  lemma BufferPlace(index: seq<nat>, owner: seq<Ptr>, reg: Ptr, chunk: nat, r: nat, free: seq<nat>, o: nat)
    requires Indexed(index, owner, reg, chunk, r) && o < chunk && forall i :: 0 <= i < |free| ==> free[i] < chunk
    ensures Place(Bufs(reg, free), Buf(reg, o), Lower(index)) == Rank(free, o)
  {
    var k, s, before := Rank(free, o), Bufs(reg, free), Lower(index);
    forall i | 0 <= i < |free| ensures before(Buf(reg, o), s[i]) <==> o < free[i] { }
    PlaceIs(s, Buf(reg, o), before, k);
  }

  lemma RegionPlace(index: seq<nat>, owner: seq<Ptr>, regs: seq<Ptr>, chunk: nat, regions: seq<nat>, r: nat)
    requires AllIndexed(index, owner, regs, chunk) && Known(regs, regions) && r < |regs|
    ensures Place(Entries(regs, regions), regs[r], Lower(index)) == Rank(regions, r)
  {
    var k, s, before := Rank(regions, r), Entries(regs, regions), Lower(index);
    assert Indexed(index, owner, regs[r], chunk, r);
    forall i | 0 <= i < |regions| ensures before(regs[r], s[i]) <==> r < regions[i] {
      assert Indexed(index, owner, regs[regions[i]], chunk, regions[i]);
    }
    PlaceIs(s, regs[r], before, k);
  }

  lemma LocalInRegion(next: seq<Ptr>, prev: seq<Ptr>, next': seq<Ptr>, prev': seq<Ptr>,
                      reg: Ptr, chunk: nat, free: seq<nat>, o: nat)
    requires Local(next, prev, next', prev', FreeHead(reg), Bufs(reg, free), Buf(reg, o))
    requires o < chunk && forall i :: 0 <= i < |free| ==> free[i] < chunk
    ensures OnlyIn(next, prev, next', prev', reg + 1, reg + chunk + 2)
    ensures forall p :: 0 <= p < chunk && p != o && p !in free && 0 <= Buf(reg, p) < |next| ==>
              next'[Buf(reg, p)] == next[Buf(reg, p)]
  {
    var s := Bufs(reg, free);
    forall p | 0 <= p < chunk && p !in free ensures Buf(reg, p) !in s { }
  }

  /** The k-th free buffer leaves its list and is linked to itself. */
  lemma TakenOk(next: seq<Ptr>, prev: seq<Ptr>, next': seq<Ptr>, prev': seq<Ptr>,
                reg: Ptr, chunk: nat, free: seq<nat>, marks: seq<bool>, k: nat)
    requires RegionOk(next, prev, reg, chunk, free, marks) && FreeListOk(free, marks) && k < |free|
    requires Circular(next', prev', FreeHead(reg), Without(Bufs(reg, free), k))
    requires Local(next, prev, next', prev', FreeHead(reg), Bufs(reg, free), Buf(reg, free[k]))
    ensures var b := Buf(reg, free[k]);
            && 0 <= b < |next'| && OnlyIn(next, prev, next'[b := b], prev', reg + 1, reg + chunk + 2)
            && RegionOk(next'[b := b], prev', reg, chunk, Without(free, k), marks[free[k] := true])
  {
    var o, rest := free[k], Without(free, k);
    var b := Buf(reg, o);
    LocalInRegion(next, prev, next', prev', reg, chunk, free, o);
    BufsWithout(reg, free, k);
    RemoveSorted(free, k);
    forall i | 0 <= i < |rest| ensures Bufs(reg, rest)[i] != b && rest[i] < chunk { assert rest[i] in rest; }
    MarkOther(next', prev', FreeHead(reg), Bufs(reg, rest), b);
    forall p | 0 <= p < chunk && p != o && marks[p] ensures p !in free { }
  }

  /** A marked buffer goes back to its place on the list. */
  lemma GivenOk(next: seq<Ptr>, prev: seq<Ptr>, next': seq<Ptr>, prev': seq<Ptr>,
                reg: Ptr, chunk: nat, free: seq<nat>, marks: seq<bool>, o: nat)
    requires RegionOk(next, prev, reg, chunk, free, marks) && FreeListOk(free, marks) && o < chunk && marks[o]
    requires Circular(next', prev', FreeHead(reg), Inserted(Bufs(reg, free), Rank(free, o), Buf(reg, o)))
    requires Local(next, prev, next', prev', FreeHead(reg), Bufs(reg, free), Buf(reg, o))
    ensures OnlyIn(next, prev, next', prev', reg + 1, reg + chunk + 2)
    ensures RegionOk(next', prev', reg, chunk, Inserted(free, Rank(free, o), o), marks[o := false])
  {
    LocalInRegion(next, prev, next', prev', reg, chunk, free, o);
    BufsInserted(reg, free, Rank(free, o), o);
    forall p | 0 <= p < chunk && p != o && marks[p] ensures p !in free { }
  }

  lemma LocalInPool(next: seq<Ptr>, prev: seq<Ptr>, next': seq<Ptr>, prev': seq<Ptr>,
                    regs: seq<Ptr>, chunk: nat, n: nat, regions: seq<nat>, r: nat)
    requires Known(regs, regions) && r < |regs| && Layout(regs, chunk, n) && n <= |next|
    requires Local(next, prev, next', prev', POOL, Entries(regs, regions), regs[r])
    ensures OnlyEntries(next, prev, next', prev', regs)
    ensures forall p :: 0 <= p < |regs| && p != r && p !in regions ==> next'[regs[p]] == next[regs[p]]
  {
    forall p | 0 <= p < |regs| && p !in regions ensures regs[p] !in Entries(regs, regions) {
      EntryOff(regs, chunk, n, regions, p);
    }
    forall p | 0 <= p < |regs| && p != r ensures regs[p] != regs[r] {
      assert p < r ==> regs[p] + chunk + 2 <= regs[r];
      assert r < p ==> regs[r] + chunk + 2 <= regs[p];
    }
  }

  lemma EntryOff(regs: seq<Ptr>, chunk: nat, n: nat, regions: seq<nat>, r: nat)
    requires Known(regs, regions) && r < |regs| && Layout(regs, chunk, n) && r !in regions
    ensures regs[r] !in Entries(regs, regions) && regs[r] != POOL
  {
    var s := Entries(regs, regions);
    forall i | 0 <= i < |s| ensures s[i] != regs[r] {
      var q := regions[i];
      assert q in regions;
      assert q < r ==> regs[q] + chunk + 2 <= regs[r];
      assert r < q ==> regs[r] + chunk + 2 <= regs[q];
    }
  }

  /** An entry leaves the pool's list and is linked to itself. */
  lemma DelistedOk(next: seq<Ptr>, prev: seq<Ptr>, next1: seq<Ptr>, prev1: seq<Ptr>, next': seq<Ptr>, prev': seq<Ptr>,
                   regs: seq<Ptr>, chunk: nat, regions: seq<nat>, q: nat)
    requires PoolListOk(next, prev, regs, regions) && Layout(regs, chunk, |next|) && Sorted(regions) && q < |regions|
    requires Circular(next1, prev1, POOL, Without(Entries(regs, regions), q))
    requires Local(next, prev, next1, prev1, POOL, Entries(regs, regions), regs[regions[q]])
    requires Circular(next', prev', regs[regions[q]], [])
    requires Local(next1, prev1, next', prev', regs[regions[q]], [], regs[regions[q]])
    ensures PoolListOk(next', prev', regs, Without(regions, q)) && OnlyEntries(next, prev, next', prev', regs)
  {
    var r, rest := regions[q], Without(regions, q);
    RemoveSorted(regions, q);
    EntriesWithout(regs, regions, q);
    EntryOff(regs, chunk, |next|, rest, r);
    var s := Entries(regs, rest);
    forall k | -1 <= k < |s| ensures Node(POOL, s, k) != regs[r] { }
    OtherList(next1, prev1, next', prev', POOL, s);
    assert Joined(next', prev', regs[r], [], -1);
    LocalInPool(next, prev, next1, prev1, regs, chunk, |next|, regions, r);
    forall p | 0 <= p < |regs| && p != r ensures regs[p] != regs[r] {
      assert p < r ==> regs[p] + chunk + 2 <= regs[r];
      assert r < p ==> regs[r] + chunk + 2 <= regs[p];
    }
    assert regs[r] in regs;
    assert OnlyEntries(next, prev, next', prev', regs);
    forall p | 0 <= p < |regs| && p !in rest ensures next'[regs[p]] == regs[p] {
      if p != r { assert p !in regions; }
    }
  }

  /** An entry that is off the pool's list goes to its place on it. */
  lemma RelistedOk(next: seq<Ptr>, prev: seq<Ptr>, next': seq<Ptr>, prev': seq<Ptr>,
                   regs: seq<Ptr>, chunk: nat, regions: seq<nat>, r: nat)
    requires PoolListOk(next, prev, regs, regions) && Layout(regs, chunk, |next|) && Sorted(regions)
    requires r < |regs| && r !in regions
    requires Circular(next', prev', POOL, Inserted(Entries(regs, regions), Rank(regions, r), regs[r]))
    requires Local(next, prev, next', prev', POOL, Entries(regs, regions), regs[r])
    ensures PoolListOk(next', prev', regs, Inserted(regions, Rank(regions, r), r))
    ensures OnlyEntries(next, prev, next', prev', regs)
  {
    var k := Rank(regions, r);
    EntriesInserted(regs, regions, k, r);
    LocalInPool(next, prev, next', prev', regs, chunk, |next|, regions, r);
    InsertSorted(regions, r);
    forall p | 0 <= p < |regs| && p !in Inserted(regions, k, r) ensures p != r && p !in regions { }
  }

  /** More memory at the end leaves a list alone. */
  lemma CircularGrows(next: seq<Ptr>, prev: seq<Ptr>, more: seq<Ptr>, head: Ptr, s: seq<Ptr>)
    requires Circular(next, prev, head, s)
    ensures Circular(next + more, prev + more, head, s)
  {
    forall k | -1 <= k < |s| ensures Joined(next + more, prev + more, head, s, k) {
      assert Joined(next, prev, head, s, k);
    }
  }

  lemma LinksGrow(next: seq<Ptr>, prev: seq<Ptr>, more: seq<Ptr>, regs: seq<Ptr>, chunk: nat,
                  regions: seq<nat>, frees: seq<seq<nat>>, used: seq<seq<bool>>)
    requires LinksOk(next, prev, regs, chunk, regions, frees, used)
    ensures LinksOk(next + more, prev + more, regs, chunk, regions, frees, used)
  {
    CircularGrows(next, prev, more, POOL, Entries(regs, regions));
    forall r | 0 <= r < |regs| ensures RegionOk(next + more, prev + more, regs[r], chunk, frees[r], used[r]) {
      CircularGrows(next, prev, more, FreeHead(regs[r]), Bufs(regs[r], frees[r]));
    }
  }

  /** A new region is filled at the end of memory: the others are as they were. */
  lemma LinksBeside(next: seq<Ptr>, prev: seq<Ptr>, next': seq<Ptr>, prev': seq<Ptr>, regs: seq<Ptr>, chunk: nat,
                    regions: seq<nat>, frees: seq<seq<nat>>, used: seq<seq<bool>>, reg: Ptr)
    requires LinksOk(next, prev, regs, chunk, regions, frees, used) && 0 < reg
    requires OnlyIn(next, prev, next', prev', reg, reg + chunk + 2) && reg + chunk + 2 == |next|
    requires forall r :: 0 <= r < |regs| ==> regs[r] + chunk + 2 <= reg
    ensures LinksOk(next', prev', regs, chunk, regions, frees, used)
  {
    PoolFrame(next, prev, next', prev', regs, regions);
    forall r | 0 <= r < |regs| ensures RegionOk(next', prev', regs[r], chunk, frees[r], used[r]) {
      RegionFrame(next, prev, next', prev', regs[r], chunk, frees[r], used[r]);
    }
  }

  /** Then it joins the pool's list at the end. */
  lemma LinksAppend(next: seq<Ptr>, prev: seq<Ptr>, next': seq<Ptr>, prev': seq<Ptr>, regs: seq<Ptr>, chunk: nat,
                    regions: seq<nat>, frees: seq<seq<nat>>, used: seq<seq<bool>>,
                    reg: Ptr, free: seq<nat>, marks: seq<bool>)
    requires LinksOk(next, prev, regs, chunk, regions, frees, used)
    requires RegionOk(next, prev, reg, chunk, free, marks) && forall r :: 0 <= r < |regs| ==> regs[r] + chunk + 2 <= reg
    requires Circular(next', prev', POOL, Inserted(Entries(regs, regions), |regions|, reg))
    requires Local(next, prev, next', prev', POOL, Entries(regs, regions), reg)
    ensures LinksOk(next', prev', regs + [reg], chunk, regions + [|regs|], frees + [free], used + [marks])
  {
    var regs', regions' := regs + [reg], regions + [|regs|];
    assert Entries(regs', regions') == Inserted(Entries(regs, regions), |regions|, reg);
    assert Layout(regs', chunk, |next|);
    EntriesIn(regs, regions);
    assert OnlyEntries(next, prev, next', prev', regs');
    forall r | 0 <= r < |regs'|
      ensures RegionOk(next', prev', regs'[r], chunk, (frees + [free])[r], (used + [marks])[r])
    {
      forall p | regs'[r] + 1 <= p < regs'[r] + chunk + 2 ensures p !in regs' { NoEntry(regs', chunk, |next|, r, p); }
      RegionFrame(next, prev, next', prev', regs'[r], chunk, (frees + [free])[r], (used + [marks])[r]);
    }
    forall r | 0 <= r < |regs'| && r !in regions' ensures next'[regs'[r]] == regs'[r] {
      assert regions'[|regions|] == |regs|;
      assert r < |regs|;
      EntryOff(regs, chunk, |next|, regions, r);
    }
  }

  lemma EntriesIn(regs: seq<Ptr>, regions: seq<nat>)
    requires Known(regs, regions)
    ensures forall p :: p in Entries(regs, regions) ==> p in regs
  {
    forall p | p in Entries(regs, regions) ensures p in regs {
      var i :| 0 <= i < |regions| && Entries(regs, regions)[i] == p;
      assert regs[regions[i]] in regs;
    }
  }
}
