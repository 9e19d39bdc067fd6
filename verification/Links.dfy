/**
 Intrusive doubly linked lists in an explicit memory. An element is its address;
 each link field of all elements together is a sequence indexed by address, and
 a store through an address is an update of that sequence at one address.
 */
module Links {

  type Ptr = int
  const NULL: Ptr := -1

  /** The k-th address of a list, or NULL past either end. */
  function Nth(s: seq<Ptr>, k: int): (p: Ptr) {
    if 0 <= k < |s| then s[k] else NULL
  }

  ghost predicate Distinct(s: seq<Ptr>) {
    forall i, j :: 0 <= i < j < |s| ==> s[i] != s[j]
  }

  ghost predicate InRange(s: seq<Ptr>, n: nat) {
    forall k :: 0 <= k < |s| ==> 0 <= s[k] < n
  }

  /** `prev` leads from each element of s to the one before, and from the first to NULL. */
  ghost predicate Backward(prev: seq<Ptr>, s: seq<Ptr>) {
    InRange(s, |prev|) && forall k {:trigger prev[s[k]]} :: 0 <= k < |s| ==> prev[s[k]] == Nth(s, k - 1)
  }

  /** Following `next` from head visits exactly s and ends; `prev` leads back. */
  ghost predicate Linked(next: seq<Ptr>, prev: seq<Ptr>, head: Ptr, s: seq<Ptr>) {
    && |next| == |prev| && head == Nth(s, 0) && Backward(prev, s)
    && (forall k {:trigger next[s[k]]} :: 0 <= k < |s| ==> next[s[k]] == Nth(s, k + 1))
  }

  /** Links that lead back to NULL cannot pass the same address twice. */
  lemma BackwardDistinct(prev: seq<Ptr>, s: seq<Ptr>)
    requires Backward(prev, s)
    ensures Distinct(s)
  {
    forall i, j | 0 <= i < j < |s| ensures s[i] != s[j] { NotTwice(prev, s, i, j); }
  }

  lemma {:induction false} NotTwice(prev: seq<Ptr>, s: seq<Ptr>, i: nat, j: nat)
    requires Backward(prev, s) && i < j < |s|
    ensures s[i] != s[j]
  {
    assert prev[s[i]] == Nth(s, i - 1) && prev[s[j]] == Nth(s, j - 1);
    if i > 0 { NotTwice(prev, s, i - 1, j - 1); }
  }

  /** A list whose own links are not written stays a list. */
  lemma Untouched(next: seq<Ptr>, prev: seq<Ptr>, next': seq<Ptr>, prev': seq<Ptr>, head: Ptr, s: seq<Ptr>)
    requires Linked(next, prev, head, s) && |next'| == |prev'| == |next|
    requires forall p :: p in s ==> next'[p] == next[p] && prev'[p] == prev[p]
    ensures Linked(next', prev', head, s)
  {
  }

  /** Store at an address that may be NULL. */
  function Store(field: seq<Ptr>, p: Ptr, v: Ptr): (field': seq<Ptr>)
    ensures |field'| == |field|
  {
    if 0 <= p < |field| then field[p := v] else field
  }

  lemma PushFront(next: seq<Ptr>, prev: seq<Ptr>, head: Ptr, s: seq<Ptr>, p: Ptr)
    requires Linked(next, prev, head, s) && 0 <= p < |next| && p !in s
    ensures Linked(next[p := head], Store(prev[p := NULL], head, p), p, [p] + s)
  {
    BackwardDistinct(prev, s);
    var t := [p] + s;
    assert forall k :: 1 <= k < |t| ==> t[k] == s[k - 1];
  }

  lemma Singleton(next: seq<Ptr>, prev: seq<Ptr>, p: Ptr)
    requires |next| == |prev| && 0 <= p < |next|
    ensures Linked(next[p := NULL], prev[p := NULL], p, [p])
  {
  }

  lemma Append(next: seq<Ptr>, prev: seq<Ptr>, head: Ptr, s: seq<Ptr>, p: Ptr)
    requires Linked(next, prev, head, s) && 0 <= p < |next| && p !in s && s != []
    ensures Linked(next[p := NULL][s[|s| - 1] := p], prev[p := s[|s| - 1]], head, s + [p])
  {
    BackwardDistinct(prev, s);
    var t := s + [p];
    assert forall k :: 0 <= k < |s| ==> t[k] == s[k];
  }

  function Without<T>(s: seq<T>, j: nat): (t: seq<T>)
    requires j < |s|
    ensures |t| == |s| - 1 && forall k :: 0 <= k < |t| ==> t[k] == s[if k < j then k else k + 1]
  {
    seq(|s| - 1, k requires 0 <= k < |s| - 1 => s[if k < j then k else k + 1])
  }

  lemma WithoutAt(s: seq<Ptr>, j: nat)
    requires j < |s| && Distinct(s)
    ensures var t := Without(s, j);
            Distinct(t) && s[j] !in t && forall k :: 0 <= k < |t| ==> t[k] == s[if k < j then k else k + 1]
  {
  }

  lemma Differ(prev: seq<Ptr>, s: seq<Ptr>, i: nat, j: nat)
    requires Backward(prev, s) && i < |s| && j < |s| && i != j
    ensures s[i] != s[j]
  {
    if i < j { NotTwice(prev, s, i, j); } else { NotTwice(prev, s, j, i); }
  }

  lemma UnlinkNext(next: seq<Ptr>, prev: seq<Ptr>, head: Ptr, s: seq<Ptr>, j: nat, k: nat)
    requires Linked(next, prev, head, s) && j < |s| && k < |s| - 1
    ensures Store(next, prev[s[j]], next[s[j]])[Without(s, j)[k]] == Nth(Without(s, j), k + 1)
  {
    var i := if k < j then k else k + 1;
    assert prev[s[j]] == Nth(s, j - 1) && next[s[j]] == Nth(s, j + 1) && next[s[i]] == Nth(s, i + 1);
    if j > 0 && i != j - 1 { Differ(prev, s, i, j - 1); }
  }

  lemma UnlinkPrev(next: seq<Ptr>, prev: seq<Ptr>, head: Ptr, s: seq<Ptr>, j: nat, k: nat)
    requires Linked(next, prev, head, s) && j < |s| && k < |s| - 1
    ensures Store(prev, next[s[j]], prev[s[j]])[Without(s, j)[k]] == Nth(Without(s, j), k - 1)
  {
    var i := if k < j then k else k + 1;
    assert prev[s[j]] == Nth(s, j - 1) && next[s[j]] == Nth(s, j + 1) && prev[s[i]] == Nth(s, i - 1);
    if j + 1 < |s| && i != j + 1 { Differ(prev, s, i, j + 1); }
  }

  lemma Unlink(next: seq<Ptr>, prev: seq<Ptr>, head: Ptr, s: seq<Ptr>, j: nat)
    requires Linked(next, prev, head, s) && j < |s|
    ensures var p := s[j];
            Linked(Store(next, prev[p], next[p]), Store(prev, next[p], prev[p]),
                   if head == p then next[p] else head, Without(s, j))
  {
    var p, t := s[j], Without(s, j);
    var next', prev' := Store(next, prev[p], next[p]), Store(prev, next[p], prev[p]);
    forall k | 0 <= k < |t| ensures next'[t[k]] == Nth(t, k + 1) { UnlinkNext(next, prev, head, s, j, k); }
    forall k | 0 <= k < |t| ensures prev'[t[k]] == Nth(t, k - 1) { UnlinkPrev(next, prev, head, s, j, k); }
    assert next[p] == Nth(s, j + 1);
    if j > 0 { Differ(prev, s, 0, j); }
  }

  /** The last element after an unlink: the one before it if it was itself the last. */
  lemma UnlinkLast(prev: seq<Ptr>, s: seq<Ptr>, j: nat)
    requires Backward(prev, s) && j < |s| && |s| > 1
    ensures prev[s[j]] == Nth(s, j - 1)
    ensures var last := s[|s| - 1];
            Without(s, j)[|s| - 2] == if s[j] == last then prev[s[j]] else last
  {
    assert prev[s[j]] == Nth(s, j - 1);
    if j < |s| - 1 { NotTwice(prev, s, j, |s| - 1); }
  }
}
