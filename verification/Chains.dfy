/** Singly linked lists in an explicit memory, with the links of all nodes in one sequence. */
module Chains {
  import opened Basics
  import opened Links

  /** Following `next` from head visits exactly s and ends. */
  ghost predicate Chain(next: seq<Ptr>, head: Ptr, s: seq<Ptr>) {
    && InRange(s, |next|) && head == Nth(s, 0)
    && (forall k {:trigger next[s[k]]} :: 0 <= k < |s| ==> next[s[k]] == Nth(s, k + 1))
  }

  /** A list that ends cannot pass the same node twice. */
  lemma ChainDistinct(next: seq<Ptr>, head: Ptr, s: seq<Ptr>)
    requires Chain(next, head, s)
    ensures Distinct(s)
  {
    forall i, j | 0 <= i < j < |s| ensures s[i] != s[j] { Ahead(next, head, s, i, j); }
  }

  lemma {:induction false} Ahead(next: seq<Ptr>, head: Ptr, s: seq<Ptr>, i: nat, j: nat)
    requires Chain(next, head, s) && i < j < |s|
    ensures s[i] != s[j]
    decreases |s| - j
  {
    assert next[s[i]] == Nth(s, i + 1) && next[s[j]] == Nth(s, j + 1);
    if j + 1 < |s| { Ahead(next, head, s, i + 1, j + 1); }
  }

  /** Linking node p in at position k. */
  lemma ChainInsert(next: seq<Ptr>, head: Ptr, s: seq<Ptr>, k: nat, p: Ptr)
    requires Chain(next, head, s) && k <= |s| && 0 <= p < |next| && p !in s
    ensures Chain(Store(next[p := Nth(s, k)], Nth(s, k - 1), p), if k == 0 then p else head, Inserted(s, k, p))
  {
    ChainDistinct(next, head, s);
    var next', t := Store(next[p := Nth(s, k)], Nth(s, k - 1), p), Inserted(s, k, p);
    forall i | 0 <= i < |t| ensures next'[t[i]] == Nth(t, i + 1) {
      if i < k {
        assert t[i] == s[i] && next[s[i]] == Nth(s, i + 1);
      } else if i > k {
        assert t[i] == s[i - 1] && next[s[i - 1]] == Nth(s, i);
      }
    }
  }
}
