/**
 Circular doubly linked lists with a head node, many of them in one explicit memory.
 Every operation is a few stores; here each is shown to edit the sequence of one
 list and to leave the nodes of all others alone.
 */
module DLists {
  import opened Basics
  import opened Links

  /** The node at position k; before the first and behind the last stands the head. */
  function Node(head: Ptr, s: seq<Ptr>, k: int): (p: Ptr) {
    if 0 <= k < |s| then s[k] else head
  }

  /** Positions k and k + 1 are linked both ways. */
  ghost predicate Joined(next: seq<Ptr>, prev: seq<Ptr>, head: Ptr, s: seq<Ptr>, k: int) {
    var p, q := Node(head, s, k), Node(head, s, k + 1);
    0 <= p < |next| && 0 <= q < |prev| && next[p] == q && prev[q] == p
  }

  /** From head around `next` leads through s and back; `prev` leads the other way. */
  ghost predicate Circular(next: seq<Ptr>, prev: seq<Ptr>, head: Ptr, s: seq<Ptr>) {
    && |next| == |prev| && head !in s
    && (forall k {:trigger Joined(next, prev, head, s, k)} :: -1 <= k < |s| ==> Joined(next, prev, head, s, k))
  }

  lemma {:induction false} Once(next: seq<Ptr>, prev: seq<Ptr>, head: Ptr, s: seq<Ptr>, i: nat, j: nat)
    requires Circular(next, prev, head, s) && i < j < |s|
    ensures s[i] != s[j]
  {
    assert Joined(next, prev, head, s, i - 1) && Joined(next, prev, head, s, j - 1);
    if i > 0 { Once(next, prev, head, s, i - 1, j - 1); } else { assert s[j - 1] in s; }
  }

  /** Two positions of a list, the head's among them, are different nodes. */
  lemma NodesApart(next: seq<Ptr>, prev: seq<Ptr>, head: Ptr, s: seq<Ptr>, i: int, j: int)
    requires Circular(next, prev, head, s) && -1 <= i < |s| && -1 <= j < |s| && i != j
    ensures Node(head, s, i) != Node(head, s, j)
  {
    if i >= 0 && j >= 0 {
      if i < j { Once(next, prev, head, s, i, j); } else { Once(next, prev, head, s, j, i); }
    } else if i >= 0 {
      assert s[i] in s;
    } else {
      assert s[j] in s;
    }
  }

  /** `dlist_insert_after` the node before position k. */
  lemma InsertAt(next: seq<Ptr>, prev: seq<Ptr>, head: Ptr, s: seq<Ptr>, k: nat, item: Ptr)
    requires Circular(next, prev, head, s) && k <= |s| && 0 <= item < |next| && item != head && item !in s
    ensures var at := Node(head, s, k - 1);
            0 <= at < |next| && 0 <= next[at] < |next|
            && Circular(next[item := next[at]][at := item], prev[item := at][next[at] := item], head,
                        Inserted(s, k, item))
  {
    var at, t := Node(head, s, k - 1), Inserted(s, k, item);
    assert Joined(next, prev, head, s, k - 1);
    var next', prev' := next[item := next[at]][at := item], prev[item := at][next[at] := item];
    forall i | -1 <= i < |t| ensures Joined(next', prev', head, t, i) { InsertStep(next, prev, head, s, k, item, i); }
  }

  lemma InsertStep(next: seq<Ptr>, prev: seq<Ptr>, head: Ptr, s: seq<Ptr>, k: nat, item: Ptr, i: int)
    requires Circular(next, prev, head, s) && k <= |s| && 0 <= item < |next|
    requires item != head && item !in s && -1 <= i <= |s|
    ensures var at, t := Node(head, s, k - 1), Inserted(s, k, item);
            && 0 <= at < |next| && 0 <= next[at] < |next|
            && Joined(next[item := next[at]][at := item], prev[item := at][next[at] := item], head, t, i)
  {
    assert Joined(next, prev, head, s, k - 1);
    if i < k - 1 {
      assert Joined(next, prev, head, s, i);
      NodesApart(next, prev, head, s, i, k - 1);
      NodesApart(next, prev, head, s, i + 1, if k == |s| then -1 else k);
    } else if i > k {
      assert Joined(next, prev, head, s, i - 1);
      NodesApart(next, prev, head, s, i - 1, k - 1);
      NodesApart(next, prev, head, s, if i == |s| then -1 else i, k);
    }
  }

  /** `dlist_remove` of the node at position k. */
  lemma RemoveAt(next: seq<Ptr>, prev: seq<Ptr>, head: Ptr, s: seq<Ptr>, k: nat)
    requires Circular(next, prev, head, s) && k < |s|
    ensures 0 <= s[k] < |next|
    ensures var p, n := prev[s[k]], next[s[k]];
            0 <= p < |next| && 0 <= n < |next| && Circular(next[p := n], prev[n := p], head, Without(s, k))
  {
    var t := Without(s, k);
    assert Joined(next, prev, head, s, k) && Joined(next, prev, head, s, k - 1);
    var p, n := prev[s[k]], next[s[k]];
    var next', prev' := next[p := n], prev[n := p];
    forall i | -1 <= i < |t| ensures Joined(next', prev', head, t, i) { RemoveStep(next, prev, head, s, k, i); }
  }

  lemma RemoveStep(next: seq<Ptr>, prev: seq<Ptr>, head: Ptr, s: seq<Ptr>, k: nat, i: int)
    requires Circular(next, prev, head, s) && k < |s| && -1 <= i < |s| - 1
    ensures 0 <= s[k] < |next|
    ensures var p, n := prev[s[k]], next[s[k]];
            0 <= p < |next| && 0 <= n < |next| && Joined(next[p := n], prev[n := p], head, Without(s, k), i)
  {
    assert Joined(next, prev, head, s, k) && Joined(next, prev, head, s, k - 1);
    if i < k - 1 {
      assert Joined(next, prev, head, s, i);
      NodesApart(next, prev, head, s, i, k - 1);
      NodesApart(next, prev, head, s, i + 1, if k + 1 == |s| then -1 else k + 1);
    } else if i >= k {
      assert Joined(next, prev, head, s, i + 1);
      NodesApart(next, prev, head, s, i + 1, k - 1);
      NodesApart(next, prev, head, s, if i + 2 == |s| then -1 else i + 2, k + 1);
    }
  }

  lemma AtHead(head: Ptr, s: seq<Ptr>, k: nat)
    requires head !in s && Node(head, s, k) == head && k <= |s|
    ensures k == |s|
  {
  }

  /** The position of the first item that the new one precedes, or the end. */
  ghost function Place(s: seq<Ptr>, item: Ptr, before: (Ptr, Ptr) -> bool): (k: nat)
    ensures k <= |s| && (k < |s| ==> before(item, s[k])) && forall i :: 0 <= i < k ==> !before(item, s[i])
  {
    if s == [] || before(item, s[0]) then 0 else 1 + Place(s[1..], item, before)
  }

  lemma {:induction false} PlaceIs(s: seq<Ptr>, item: Ptr, before: (Ptr, Ptr) -> bool, k: nat)
    requires k <= |s| && (k < |s| ==> before(item, s[k])) && forall i :: 0 <= i < k ==> !before(item, s[i])
    ensures Place(s, item, before) == k
  {
  }

  /** No node of the one list, its head included, is a node of the other. */
  ghost predicate Separate(head: Ptr, s: seq<Ptr>, head2: Ptr, t: seq<Ptr>) {
    forall i, j {:trigger Node(head, s, i), Node(head2, t, j)} :: Node(head, s, i) != Node(head2, t, j)
  }

  /** Linking all of t in behind the node before position k. */
  lemma SpliceAt(next: seq<Ptr>, prev: seq<Ptr>, head: Ptr, s: seq<Ptr>, k: nat, head2: Ptr, t: seq<Ptr>)
    requires Circular(next, prev, head, s) && Circular(next, prev, head2, t)
    requires t != [] && k <= |s| && Separate(head, s, head2, t)
    ensures var at, behind, last := Node(head, s, k - 1), Node(head, s, k), t[|t| - 1];
            && 0 <= at < |next| && 0 <= behind < |next| && 0 <= last < |next| && 0 <= t[0] < |next|
            && Circular(next[last := behind][at := t[0]], prev[behind := last][t[0] := at], head, Spliced(s, k, t))
  {
    var at, behind, last, r := Node(head, s, k - 1), Node(head, s, k), t[|t| - 1], Spliced(s, k, t);
    assert Joined(next, prev, head, s, k - 1);
    assert Joined(next, prev, head2, t, -1) && Joined(next, prev, head2, t, |t| - 1);
    var next', prev' := next[last := behind][at := t[0]], prev[behind := last][t[0] := at];
    assert Node(head2, t, 0) == t[0] && Node(head2, t, |t| - 1) == last;
    forall x | x in r ensures x != head {
      if x in t {
        var j :| 0 <= j < |t| && t[j] == x;
        assert Node(head2, t, j) != Node(head, s, -1);
      }
    }
    forall i | -1 <= i < |r| ensures Joined(next', prev', head, r, i) {
      SpliceStep(next, prev, head, s, k, head2, t, i);
    }
  }

  lemma SpliceStep(next: seq<Ptr>, prev: seq<Ptr>, head: Ptr, s: seq<Ptr>, k: nat, head2: Ptr, t: seq<Ptr>, i: int)
    requires Circular(next, prev, head, s) && Circular(next, prev, head2, t)
    requires t != [] && k <= |s| && Separate(head, s, head2, t)
    requires -1 <= i < |s| + |t|
    ensures var at, behind, last := Node(head, s, k - 1), Node(head, s, k), t[|t| - 1];
            && 0 <= at < |next| && 0 <= behind < |next| && 0 <= last < |next| && 0 <= t[0] < |next|
            && Joined(next[last := behind][at := t[0]], prev[behind := last][t[0] := at], head, Spliced(s, k, t), i)
  {
    var d := |t|;
    assert Joined(next, prev, head, s, k - 1);
    assert Joined(next, prev, head2, t, -1) && Joined(next, prev, head2, t, d - 1);
    assert Node(head2, t, 0) == t[0] && Node(head2, t, d - 1) == t[d - 1];
    if i < k - 1 {
      assert Joined(next, prev, head, s, i);
      NodesApart(next, prev, head, s, i, k - 1);
      NodesApart(next, prev, head, s, i + 1, if k == |s| then -1 else k);
    } else if k <= i < k + d - 1 {
      assert Joined(next, prev, head2, t, i - k);
      NodesApart(next, prev, head2, t, i - k, d - 1);
      NodesApart(next, prev, head2, t, i - k + 1, 0);
    } else if i >= k + d {
      assert Joined(next, prev, head, s, i - d);
      NodesApart(next, prev, head, s, i - d, k - 1);
      NodesApart(next, prev, head, s, if i - d + 1 == |s| then -1 else i - d + 1, k);
    }
  }

  /** A list none of whose nodes is written stays as it is. */
  lemma OtherList(next: seq<Ptr>, prev: seq<Ptr>, next': seq<Ptr>, prev': seq<Ptr>, head: Ptr, s: seq<Ptr>)
    requires Circular(next, prev, head, s) && |next'| == |prev'| == |next|
    requires forall k {:trigger Node(head, s, k)} :: -1 <= k < |s| && 0 <= Node(head, s, k) < |next| ==>
               next'[Node(head, s, k)] == next[Node(head, s, k)] && prev'[Node(head, s, k)] == prev[Node(head, s, k)]
    ensures Circular(next', prev', head, s)
  {
    forall k | -1 <= k < |s| ensures Joined(next', prev', head, s, k) {
      assert Joined(next, prev, head, s, k);
      assert Node(head, s, k + 1) == Node(head, s, if k + 1 == |s| then -1 else k + 1);
    }
  }

  /** Only the nodes of one list, and `item`, were written. */
  ghost predicate Local(next: seq<Ptr>, prev: seq<Ptr>, next': seq<Ptr>, prev': seq<Ptr>, head: Ptr, s: seq<Ptr>,
                        item: Ptr) {
    && |next'| == |prev'| == |next| == |prev|
    && (forall p :: 0 <= p < |next| && p != head && p != item && p !in s ==> next'[p] == next[p] && prev'[p] == prev[p])
  }

  /** Only the nodes of two lists were written. */
  ghost predicate LocalBoth(next: seq<Ptr>, prev: seq<Ptr>, next': seq<Ptr>, prev': seq<Ptr>,
                            head: Ptr, s: seq<Ptr>, head2: Ptr, t: seq<Ptr>) {
    && |next'| == |prev'| == |next| == |prev|
    && (forall p :: 0 <= p < |next| && p != head && p != head2 && p !in s && p !in t ==>
        next'[p] == next[p] && prev'[p] == prev[p])
  }

  lemma SpliceLocal(next: seq<Ptr>, prev: seq<Ptr>, head: Ptr, s: seq<Ptr>, k: nat, head2: Ptr, t: seq<Ptr>)
    requires Circular(next, prev, head, s) && Circular(next, prev, head2, t) && t != [] && k <= |s|
    ensures var at, behind, last := Node(head, s, k - 1), Node(head, s, k), t[|t| - 1];
            && 0 <= at < |next| && 0 <= behind < |next| && 0 <= last < |next| && 0 <= t[0] < |next|
            && LocalBoth(next, prev, next[last := behind][at := t[0]], prev[behind := last][t[0] := at],
                         head, s, head2, t)
  {
    assert Joined(next, prev, head, s, k - 1);
    assert Joined(next, prev, head2, t, -1) && Joined(next, prev, head2, t, |t| - 1);
  }

  class Lists {
    var next: seq<Ptr>
    var prev: seq<Ptr>

    constructor (next: seq<Ptr>, prev: seq<Ptr>)
      ensures this.next == next && this.prev == prev
    {
      this.next, this.prev := next, prev;
    }

    /** `dlist_init` */
    method Init(head: Ptr)
      requires 0 <= head < |next| == |prev|
      modifies this
      ensures Circular(next, prev, head, []) && Local(old(next), old(prev), next, prev, head, [], head)
    {
      next, prev := next[head := head], prev[head := head];
      assert Joined(next, prev, head, [], -1);
    }

    /** `dlist_insert_after` a node of the list, `dlist_insert_before` the node behind it. */
    method InsertAfter(item: Ptr, at: Ptr, ghost head: Ptr, ghost s: seq<Ptr>, ghost k: nat)
      requires Circular(next, prev, head, s) && k <= |s| && at == Node(head, s, k - 1)
      requires 0 <= item < |next| && item != head && item !in s
      modifies this
      ensures Circular(next, prev, head, Inserted(s, k, item)) && Local(old(next), old(prev), next, prev, head, s, item)
    {
      InsertAt(next, prev, head, s, k, item);
      assert Joined(next, prev, head, s, k - 1);
      next, prev := next[item := next[at]], prev[item := at];
      prev := prev[next[at] := item];
      next := next[at := item];
    }

    /** `dlist_remove` */
    method Remove(item: Ptr, ghost head: Ptr, ghost s: seq<Ptr>, ghost k: nat)
      requires Circular(next, prev, head, s) && k < |s| && item == s[k]
      modifies this
      ensures Circular(next, prev, head, Without(s, k)) && Local(old(next), old(prev), next, prev, head, s, item)
    {
      RemoveAt(next, prev, head, s, k);
      assert Joined(next, prev, head, s, k) && Joined(next, prev, head, s, k - 1);
      var p, n := prev[item], next[item];
      next := next[p := n];
      prev := prev[n := p];
    }

    /** `dlist_find_first_match`, with the item that is to be placed as its argument. */
    method FindFirst(head: Ptr, item: Ptr, before: (Ptr, Ptr) -> bool, ghost s: seq<Ptr>) returns (found: Ptr)
      requires Circular(next, prev, head, s)
      ensures found == Nth(s, Place(s, item, before))
    {
      assert Joined(next, prev, head, s, -1);
      found := next[head];
      ghost var k := 0;
      while found != head
        invariant k <= |s| && found == Node(head, s, k) && forall i :: 0 <= i < k ==> !before(item, s[i])
        decreases |s| - k
      {
        assert Joined(next, prev, head, s, k);
        if before(item, found) {
          PlaceIs(s, item, before, k);
          return;
        }
        found, k := next[found], k + 1;
      }
      AtHead(head, s, k);
      PlaceIs(s, item, before, k);
      found := NULL;
    }

    /** `dlist_insert_order`: before the first item that the new one precedes, or at the end. */
    method InsertOrder(head: Ptr, item: Ptr, before: (Ptr, Ptr) -> bool, ghost s: seq<Ptr>)
      requires Circular(next, prev, head, s) && 0 <= item < |next| && item != head && item !in s
      modifies this
      ensures Circular(next, prev, head, Inserted(s, Place(s, item, before), item))
      ensures Local(old(next), old(prev), next, prev, head, s, item)
    {
      var found := FindFirst(head, item, before, s);
      ghost var k: int := Place(s, item, before);
      assert Joined(next, prev, head, s, k - 1);
      if found != NULL {
        InsertAfter(item, prev[found], head, s, k);
      } else {
        InsertAfter(item, prev[head], head, s, k);
      }
    }

    /**
     `dlist_splice_head` behind the head, `dlist_splice_tail` behind its `prev`: t moves over in order, its list is
     left empty.
     */
    method Splice(at: Ptr, head2: Ptr, ghost head: Ptr, ghost s: seq<Ptr>, ghost t: seq<Ptr>, ghost k: nat)
      requires Circular(next, prev, head, s) && Circular(next, prev, head2, t) && Separate(head, s, head2, t)
      requires k <= |s| && at == Node(head, s, k - 1)
      modifies this
      ensures Circular(next, prev, head, Spliced(s, k, t)) && Circular(next, prev, head2, [])
      ensures LocalBoth(old(next), old(prev), next, prev, head, s, head2, t)
    {
      assert Joined(next, prev, head2, t, -1) && Joined(next, prev, head2, t, |t| - 1);
      if next[head2] == head2 {
        AtHead(head2, t, 0);
        assert Spliced(s, k, t) == s;
        return;
      }
      SpliceAt(next, prev, head, s, k, head2, t);
      SpliceLocal(next, prev, head, s, k, head2, t);
      assert Joined(next, prev, head, s, k - 1);
      prev := prev[next[at] := prev[head2]];
      next := next[prev[head2] := next[at]];
      next := next[at := next[head2]];
      prev := prev[next[at] := at];
      ghost var next1, prev1 := next, prev;
      Init(head2);
      Unaffected(next1, prev1, next, prev, head, s, k, head2, t);
    }
  }

  lemma Unaffected(next: seq<Ptr>, prev: seq<Ptr>, next': seq<Ptr>, prev': seq<Ptr>, head: Ptr, s: seq<Ptr>, k: nat,
                   head2: Ptr, t: seq<Ptr>)
    requires k <= |s| && Circular(next, prev, head, Spliced(s, k, t)) && Separate(head, s, head2, t) && head2 !in t
    requires Local(next, prev, next', prev', head2, [], head2)
    ensures Circular(next', prev', head, Spliced(s, k, t))
  {
    var r := Spliced(s, k, t);
    forall i | -1 <= i < |r| ensures Node(head, r, i) != head2 {
      assert Node(head2, t, -1) == head2;
      if i < k {
        assert Node(head, r, i) == Node(head, s, i);
      } else if i >= k + |t| {
        assert Node(head, r, i) == Node(head, s, i - |t|);
      }
    }
    OtherList(next, prev, next', prev', head, r);
  }
}
