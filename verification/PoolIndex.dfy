/**
 The books of an indexed buffer pool: buffers live in regions of `chunk` buffers each.
 A region keeps its free buffers, and the pool the regions that have any, sorted by
 index. A buffer is known here by its region and its offset in it.
 */
module PoolIndex {
  import opened Basics
  import opened Links

  ghost predicate Sorted(s: seq<nat>) {
    forall i, j :: 0 <= i < j < |s| ==> s[i] < s[j]
  }

  /** The position of the first item above x, or the end. */
  ghost function Rank(s: seq<nat>, x: nat): (k: nat)
    ensures k <= |s| && (k < |s| ==> x < s[k]) && forall i :: 0 <= i < k ==> s[i] <= x
  {
    if s == [] || x < s[0] then 0 else 1 + Rank(s[1..], x)
  }

  lemma InsertSorted(s: seq<nat>, x: nat)
    requires Sorted(s) && x !in s
    ensures var t := Inserted(s, Rank(s, x), x); Sorted(t) && forall y :: y in t <==> y == x || y in s
  {
    var k := Rank(s, x);
    var t := Inserted(s, k, x);
    forall i, j | 0 <= i < j < |t| ensures t[i] < t[j] {
      if i < k { assert s[i] in s; }
    }
    forall y ensures y in t <==> y == x || y in s {
      if y in s {
        var i :| 0 <= i < |s| && s[i] == y;
        assert t[if i < k then i else i + 1] == y;
      }
      if y == x { assert t[k] == y; }
    }
  }

  /** `dlist_remove` of the item at position k. */
  lemma RemoveSorted(s: seq<nat>, k: nat)
    requires Sorted(s) && k < |s|
    ensures var t := Without(s, k); Sorted(t) && forall y :: y in t <==> y != s[k] && y in s
  {
    var t := Without(s, k);
    forall y ensures y in t <==> y != s[k] && y in s {
      if y in s && y != s[k] {
        var i :| 0 <= i < |s| && s[i] == y;
        assert t[if i < k then i else i - 1] == y;
      }
    }
  }

  /** The free list of a region is sorted and holds exactly its unmarked buffers. */
  ghost predicate FreeListOk(free: seq<nat>, used: seq<bool>) {
    Sorted(free) && forall o: nat :: o in free <==> o < |used| && !used[o]
  }

  /** The list of regions is sorted and holds exactly those with a free buffer. */
  ghost predicate RegionListOk(regions: seq<nat>, frees: seq<seq<nat>>) {
    Sorted(regions) && forall r: nat :: r in regions <==> r < |frees| && frees[r] != []
  }

  ghost predicate PoolOk(chunk: nat, regions: seq<nat>, frees: seq<seq<nat>>, used: seq<seq<bool>>) {
    && |frees| == |used| && RegionListOk(regions, frees)
    && (forall r :: 0 <= r < |used| ==> |used[r]| == chunk && FreeListOk(frees[r], used[r]))
  }

  /** The number of buffer o of region r in the pool. */
  function IndexOf(chunk: nat, r: nat, o: nat): (i: nat) {
    r * chunk + o
  }

  /** Numbers are ordered by region, then offset. */
  lemma IndexOrder(chunk: nat, r: nat, o: nat, r': nat, o': nat)
    requires o < chunk && o' < chunk && (r < r' || (r == r' && o <= o'))
    ensures IndexOf(chunk, r, o) <= IndexOf(chunk, r', o')
  {
    if r < r' {
      Step(chunk, r, r');
    }
  }

  lemma {:induction false} Step(chunk: nat, r: nat, r': nat)
    requires r < r'
    ensures r * chunk + chunk <= r' * chunk
    decreases r'
  {
    if r + 1 == r' {
      assert (r + 1) * chunk == r * chunk + chunk;
    } else {
      Step(chunk, r, r' - 1);
      assert r' * chunk == (r' - 1) * chunk + chunk;
    }
  }

  /** A buffer is taken: off its free list, and its region off the pool's list if that was the last. */
  lemma PoolTake(chunk: nat, regions: seq<nat>, frees: seq<seq<nat>>, used: seq<seq<bool>>, r: nat, k: nat, q: nat)
    requires PoolOk(chunk, regions, frees, used) && r < |frees| && k < |frees[r]| && q < |regions| && regions[q] == r
    ensures frees[r][k] < |used[r]|
    ensures var free := Without(frees[r], k);
            PoolOk(chunk, if free == [] then Without(regions, q) else regions,
                   frees[r := free], used[r := used[r][frees[r][k] := true]])
  {
    var o := frees[r][k];
    assert o in frees[r];
    assert FreeListOk(frees[r], used[r]);
    RemoveSorted(frees[r], k);
    RemoveSorted(regions, q);
    var free := Without(frees[r], k);
    var regions' := if free == [] then Without(regions, q) else regions;
    var frees', used' := frees[r := free], used[r := used[r][o := true]];
    assert FreeListOk(free, used'[r]);
    forall p: nat ensures p in regions' <==> p < |frees'| && frees'[p] != [] {
    }
    forall p | 0 <= p < |used'| ensures |used'[p]| == chunk && FreeListOk(frees'[p], used'[p]) {
      assert FreeListOk(frees[p], used[p]);
    }
  }

  /** A buffer comes back: onto its free list, and its region onto the pool's list if it was off it. */
  lemma PoolGive(chunk: nat, regions: seq<nat>, frees: seq<seq<nat>>, used: seq<seq<bool>>, r: nat, o: nat)
    requires PoolOk(chunk, regions, frees, used) && r < |used| && o < |used[r]| && used[r][o]
    ensures r !in regions <==> frees[r] == []
    ensures PoolOk(chunk, if r !in regions then Inserted(regions, Rank(regions, r), r) else regions,
                   frees[r := Inserted(frees[r], Rank(frees[r], o), o)], used[r := used[r][o := false]])
  {
    assert FreeListOk(frees[r], used[r]);
    InsertSorted(frees[r], o);
    var free := Inserted(frees[r], Rank(frees[r], o), o);
    if r !in regions { InsertSorted(regions, r); }
    var frees', used' := frees[r := free], used[r := used[r][o := false]];
    assert FreeListOk(free, used'[r]);
    forall p | 0 <= p < |used'| ensures |used'[p]| == chunk && FreeListOk(frees'[p], used'[p]) {
      assert FreeListOk(frees[p], used[p]);
    }
  }

  /** A new region, all of it free, joins both tables at the end. */
  lemma PoolGrow(chunk: nat, regions: seq<nat>, frees: seq<seq<nat>>, used: seq<seq<bool>>, free: seq<nat>,
                 marks: seq<bool>)
    requires PoolOk(chunk, regions, frees, used) && 0 < chunk
    requires |free| == |marks| == chunk && forall i :: 0 <= i < chunk ==> free[i] == i && !marks[i]
    ensures PoolOk(chunk, regions + [|frees|], frees + [free], used + [marks])
  {
    var n := |frees|;
    var regions', frees', used' := regions + [n], frees + [free], used + [marks];
    forall i, j | 0 <= i < j < |regions'| ensures regions'[i] < regions'[j] { assert regions'[i] in regions; }
    forall o: nat ensures o in free <==> o < |marks| && !marks[o] {
      if o < chunk { assert free[o] == o; }
    }
    forall p: nat ensures p in regions' <==> p < |frees'| && frees'[p] != [] {
      if p == n { assert regions'[|regions|] == n; }
    }
    forall p | 0 <= p < |used'| ensures |used'[p]| == chunk && FreeListOk(frees'[p], used'[p]) {
      if p < n { assert FreeListOk(frees[p], used[p]); }
    }
  }

  ghost function Mark(used: seq<seq<bool>>, r: nat, o: nat, b: bool): (used': seq<seq<bool>>)
    requires r < |used| && o < |used[r]|
  {
    used[r := used[r][o := b]]
  }

  function Blank(chunk: nat): (marks: seq<bool>)
    ensures |marks| == chunk && forall i :: 0 <= i < chunk ==> !marks[i]
  {
    seq(chunk, _ => false)
  }

  /** `used` with n fresh regions. */
  ghost function Extended(used: seq<seq<bool>>, chunk: nat, n: nat): (used': seq<seq<bool>>) {
    used + seq(n, _ => Blank(chunk))
  }

  /** Buffer o of region r is free, and no free buffer has a lower number. */
  ghost predicate LowestFree(chunk: nat, used: seq<seq<bool>>, r: nat, o: nat) {
    && r < |used| && o < |used[r]| && !used[r][o]
    && (forall r', o' :: 0 <= r' < |used| && 0 <= o' < |used[r']| && !used[r'][o'] ==>
        IndexOf(chunk, r, o) <= IndexOf(chunk, r', o'))
  }

  ghost predicate AllUsed(used: seq<seq<bool>>) {
    forall r, o :: 0 <= r < |used| && 0 <= o < |used[r]| ==> used[r][o]
  }

  /** The head of the first region's free list is the lowest free buffer. */
  lemma HeadIsLowest(chunk: nat, regions: seq<nat>, frees: seq<seq<nat>>, used: seq<seq<bool>>)
    requires PoolOk(chunk, regions, frees, used) && regions != []
    ensures regions[0] < |frees| && frees[regions[0]] != [] && LowestFree(chunk, used, regions[0], frees[regions[0]][0])
  {
    var r := regions[0];
    assert r in regions;
    assert FreeListOk(frees[r], used[r]);
    var o := frees[r][0];
    assert o in frees[r];
    forall r', o' | 0 <= r' < |used| && 0 <= o' < |used[r']| && !used[r'][o']
      ensures IndexOf(chunk, r, o) <= IndexOf(chunk, r', o')
    {
      assert FreeListOk(frees[r'], used[r']);
      assert o' in frees[r'] && r' in regions;
      IndexOrder(chunk, r, o, r', o');
    }
  }

  lemma NoRegionNoBuffer(chunk: nat, regions: seq<nat>, frees: seq<seq<nat>>, used: seq<seq<bool>>)
    requires PoolOk(chunk, regions, frees, used)
    ensures regions == [] <==> AllUsed(used)
  {
    if regions != [] {
      HeadIsLowest(chunk, regions, frees, used);
    } else {
      forall r, o | 0 <= r < |used| && 0 <= o < |used[r]| ensures used[r][o] {
        assert FreeListOk(frees[r], used[r]);
        assert r !in regions && o !in frees[r];
      }
    }
  }

  lemma ExtendedNext(used: seq<seq<bool>>, chunk: nat, n: nat)
    ensures Extended(used, chunk, n) + [Blank(chunk)] == Extended(used, chunk, n + 1)
  {
  }

  lemma AtPlace(chunk: nat, regions: seq<nat>, frees: seq<seq<nat>>, used: seq<seq<bool>>, r: nat, o: nat)
    requires PoolOk(chunk, regions, frees, used) && r < |used| && o < |used[r]| && !used[r][o]
    ensures o in frees[r] && r in regions
  {
    assert FreeListOk(frees[r], used[r]);
  }
}
