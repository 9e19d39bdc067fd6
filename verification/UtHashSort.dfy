/**
 HASH_SRT: the in-place bottom-up mergesort of the insertion-order list, link by
 link, shown to compute the passes of StableSort.
 */
module UtHashSort {
  import opened Basics
  import opened Links
  import opened StableSort

  /** The `next` and `prev` fields, and the list being built from head to tail. */
  datatype Build = Build(next: seq<Ptr>, prev: seq<Ptr>, list: Ptr, tail: Ptr)

  /** Neighbours in s are linked forward; the last link is left open. */
  ghost predicate Forward(next: seq<Ptr>, s: seq<Ptr>) {
    InRange(s, |next|) && forall k {:trigger next[s[k]]} :: 0 <= k < |s| - 1 ==> next[s[k]] == s[k + 1]
  }

  ghost predicate Ends(next: seq<Ptr>, s: seq<Ptr>) {
    Forward(next, s) && (s != [] ==> next[s[|s| - 1]] == NULL)
  }

  /** The list built so far is out. */
  ghost predicate Built(b: Build, out: seq<Ptr>) {
    && |b.next| == |b.prev| && Forward(b.next, out) && Backward(b.prev, out)
    && b.list == Nth(out, 0) && b.tail == Nth(out, |out| - 1)
  }

  ghost predicate Apart(out: seq<Ptr>, p: seq<Ptr>, q: seq<Ptr>) {
    && Distinct(p) && Distinct(q)
    && (forall x :: x in out ==> x !in p && x !in q)
    && (forall x :: x in p ==> x !in q)
  }

  /** Two runs p and q wait to be merged behind out. */
  ghost predicate Merging(b: Build, hp: Ptr, hq: Ptr, out: seq<Ptr>, p: seq<Ptr>, q: seq<Ptr>) {
    && Built(b, out) && Apart(out, p, q)
    && Forward(b.next, p) && (p != [] ==> hp == p[0])
    && Ends(b.next, q) && hq == Nth(q, 0)
  }

  /** The end of the merge loop: e goes to the tail of the list. */
  function AppendTo(b: Build, e: Ptr): (b': Build)
    requires |b.next| == |b.prev| && 0 <= e < |b.prev|
  {
    Build(Store(b.next, b.tail, e), b.prev[e := b.tail], if b.tail != NULL then b.list else e, e)
  }

  lemma BuiltAppend(b: Build, out: seq<Ptr>, e: Ptr)
    requires Built(b, out) && e !in out && 0 <= e < |b.next|
    ensures Built(AppendTo(b, e), out + [e])
  {
    var b', t := AppendTo(b, e), out + [e];
    BackwardDistinct(b.prev, out);
    if out != [] { assert b.tail == out[|out| - 1]; }
    forall k | 0 <= k < |t| - 1 ensures b'.next[t[k]] == t[k + 1] {
      if k < |out| - 1 { assert b.next[out[k]] == out[k + 1]; }
    }
    forall k | 0 <= k < |t| ensures b'.prev[t[k]] == Nth(t, k - 1) {
      if k < |out| { assert b.prev[out[k]] == Nth(out, k - 1); }
    }
  }

  lemma ApartLeft(out: seq<Ptr>, p: seq<Ptr>, q: seq<Ptr>)
    requires Apart(out, p, q) && p != []
    ensures Apart(out + [p[0]], p[1..], q)
  {
  }

  lemma ApartRight(out: seq<Ptr>, p: seq<Ptr>, q: seq<Ptr>)
    requires Apart(out, p, q) && q != []
    ensures Apart(out + [q[0]], p, q[1..])
  {
  }

  /** A run that does not hold the tail does not notice what is linked there. */
  lemma ForwardKept(next: seq<Ptr>, s: seq<Ptr>, tail: Ptr, e: Ptr)
    requires Forward(next, s) && tail !in s
    ensures Forward(Store(next, tail, e), s)
    ensures Ends(next, s) ==> Ends(Store(next, tail, e), s)
  {
    forall k | 0 <= k < |s| - 1 ensures Store(next, tail, e)[s[k]] == s[k + 1] { assert next[s[k]] == s[k + 1]; }
  }

  /** The rest of a run starts where the link of its first element leads. */
  lemma ForwardRest(next: seq<Ptr>, s: seq<Ptr>)
    requires Forward(next, s) && s != []
    ensures Forward(next, s[1..]) && (|s| > 1 ==> next[s[0]] == s[1])
    ensures Ends(next, s) ==> Ends(next, s[1..]) && next[s[0]] == Nth(s[1..], 0)
  {
    var r := s[1..];
    forall k | 0 <= k < |r| - 1 ensures next[r[k]] == r[k + 1] { assert next[s[k + 1]] == s[k + 2]; }
    assert |s| > 1 ==> next[s[0]] == s[1];
  }

  lemma TailIn(b: Build, out: seq<Ptr>)
    requires Built(b, out)
    ensures b.tail == NULL || b.tail in out
  {
  }

  /** Taking the first element of the left run. */
  lemma TakeLeft(b: Build, hp: Ptr, hq: Ptr, out: seq<Ptr>, p: seq<Ptr>, q: seq<Ptr>)
    requires Merging(b, hp, hq, out, p, q) && p != []
    ensures 0 <= hp < |b.next|
    ensures Merging(AppendTo(b, hp), b.next[hp], hq, out + [hp], p[1..], q)
  {
    BuiltAppend(b, out, hp);
    TailIn(b, out);
    ApartLeft(out, p, q);
    ForwardRest(b.next, p);
    ForwardKept(b.next, p[1..], b.tail, hp);
    ForwardKept(b.next, q, b.tail, hp);
  }

  /** Taking the first element of the right run. */
  lemma TakeRight(b: Build, hp: Ptr, hq: Ptr, out: seq<Ptr>, p: seq<Ptr>, q: seq<Ptr>)
    requires Merging(b, hp, hq, out, p, q) && q != []
    ensures 0 <= hq < |b.next|
    ensures Merging(AppendTo(b, hq), hp, b.next[hq], out + [hq], p, q[1..])
  {
    BuiltAppend(b, out, hq);
    TailIn(b, out);
    ApartRight(out, p, q);
    ForwardRest(b.next, q);
    ForwardKept(b.next, p, b.tail, hq);
    ForwardKept(b.next, q[1..], b.tail, hq);
  }

  /** What is left of the right run: at most n elements. */
  function Quota(q: seq<Ptr>, n: nat): (r: seq<Ptr>) {
    q[..Min(n, |q|)]
  }

  function Beyond(q: seq<Ptr>, n: nat): (r: seq<Ptr>) {
    q[Min(n, |q|)..]
  }

  lemma MergeHead(p: seq<Ptr>, t: seq<Ptr>, le: (Ptr, Ptr) -> bool)
    requires p != [] && (t == [] || le(p[0], t[0]))
    ensures Merge(p, t, le) == [p[0]] + Merge(p[1..], t, le)
  {
    if t == [] {
      assert p == [p[0]] + p[1..];
    }
  }

  lemma MergeLeft(out: seq<Ptr>, p: seq<Ptr>, q: seq<Ptr>, n: nat, le: (Ptr, Ptr) -> bool)
    requires p != [] && (n == 0 || q == [] || le(p[0], q[0]))
    ensures out + Merge(p, Quota(q, n), le) == out + [p[0]] + Merge(p[1..], Quota(q, n), le)
  {
    MergeHead(p, Quota(q, n), le);
    Assoc(out, [p[0]], Merge(p[1..], Quota(q, n), le));
  }

  lemma MergeRight(out: seq<Ptr>, p: seq<Ptr>, q: seq<Ptr>, n: nat, le: (Ptr, Ptr) -> bool)
    requires n > 0 && q != [] && (p == [] || !le(p[0], q[0]))
    ensures out + Merge(p, Quota(q, n), le) == out + [q[0]] + Merge(p, Quota(q[1..], n - 1), le)
    ensures Beyond(q, n) == Beyond(q[1..], n - 1)
  {
    assert Quota(q, n)[1..] == Quota(q[1..], n - 1);
  }

  /** The merge so far: what is out and what the rest will add make up goal, and rest stays behind. */
  ghost predicate OnTrack(out: seq<Ptr>, p: seq<Ptr>, q: seq<Ptr>, n: nat, le: (Ptr, Ptr) -> bool,
                          goal: seq<Ptr>, rest: seq<Ptr>) {
    out + Merge(p, Quota(q, n), le) == goal && Beyond(q, n) == rest
  }

  lemma Finished(out: seq<Ptr>, p: seq<Ptr>, q: seq<Ptr>, n: nat, le: (Ptr, Ptr) -> bool,
                 goal: seq<Ptr>, rest: seq<Ptr>)
    requires OnTrack(out, p, q, n, le, goal, rest) && p == [] && (n == 0 || q == [])
    ensures out == goal && q == rest
  {
  }

  /** The inner loop of HASH_SRT: one left run and at most qsize elements behind it are merged. */
  method MergeRuns(b0: Build, hp0: Ptr, psize0: nat, hq0: Ptr, qsize0: nat, le: (Ptr, Ptr) -> bool,
                   ghost out0: seq<Ptr>, ghost p0: seq<Ptr>, ghost q0: seq<Ptr>)
    returns (b: Build, hq: Ptr)
    requires Merging(b0, hp0, hq0, out0, p0, q0) && psize0 == |p0|
    ensures Merging(b, NULL, hq, out0 + Merge(p0, Quota(q0, qsize0), le), [], Beyond(q0, qsize0))
    ensures |b.next| == |b0.next|
  {
    b, hq := b0, hq0;
    var hp, psize, qsize := hp0, psize0, qsize0;
    ghost var out, p, q := out0, p0, q0;
    ghost var goal, rest := out0 + Merge(p0, Quota(q0, qsize0), le), Beyond(q0, qsize0);
    while psize != 0 || (qsize != 0 && hq != NULL)
      invariant Merging(b, hp, hq, out, p, q) && psize == |p| && |b.next| == |b0.next|
      invariant OnTrack(out, p, q, qsize, le, goal, rest)
      decreases |p| + |q|
    {
      var e;
      if psize == 0 || (qsize != 0 && hq != NULL && !le(hp, hq)) {
        MergeRight(out, p, q, qsize, le);
        TakeRight(b, hp, hq, out, p, q);
        e, hq, qsize := hq, b.next[hq], qsize - 1;
        out, q := out + [e], q[1..];
      } else {
        MergeLeft(out, p, q, qsize, le);
        TakeLeft(b, hp, hq, out, p, q);
        e, hp, psize := hp, b.next[hp], psize - 1;
        out, p := out + [e], p[1..];
      }
      b := AppendTo(b, e);
    }
    Finished(out, p, q, qsize, le, goal, rest);
  }

  /** Stepping over the left run. */
  method Split(next: seq<Ptr>, hp: Ptr, insize: nat, ghost l: seq<Ptr>) returns (psize: nat, hq: Ptr)
    requires Ends(next, l) && l != [] && hp == l[0] && insize > 0
    ensures psize == Min(insize, |l|) && hq == Nth(l, psize)
  {
    hq, psize := hp, 0;
    var i := 0;
    while i < insize
      invariant 0 <= i <= insize && psize == i < |l| && hq == l[psize]
    {
      psize := psize + 1;
      hq := next[hq];
      if hq == NULL {
        break;
      }
      i := i + 1;
    }
  }

  lemma SplitOff(b: Build, hp: Ptr, out: seq<Ptr>, l: seq<Ptr>, n: nat)
    requires Merging(b, NULL, hp, out, [], l) && l != [] && n <= |l|
    ensures Merging(b, hp, Nth(l, n), out, l[..n], l[n..])
  {
    var p, q := l[..n], l[n..];
    forall k | 0 <= k < |p| - 1 ensures b.next[p[k]] == p[k + 1] { assert b.next[l[k]] == l[k + 1]; }
    forall k | 0 <= k < |q| - 1 ensures b.next[q[k]] == q[k + 1] { assert b.next[l[n + k]] == l[n + k + 1]; }
    forall x | x in p ensures x !in q {
      var i :| 0 <= i < n && l[i] == x;
      assert forall k :: 0 <= k < |q| ==> q[k] == l[n + k];
    }
  }

  /** out is what the pass has produced of s, and l is what it has yet to read. */
  ghost predicate PassTo(out: seq<Ptr>, l: seq<Ptr>, s: seq<Ptr>, w: nat, le: (Ptr, Ptr) -> bool)
    requires w > 0
  {
    out + Pass(l, w, le) == Pass(s, w, le)
  }

  /** nmerges tells how far behind the start l is. */
  ghost predicate Counted(nmerges: nat, l: seq<Ptr>, s: seq<Ptr>, w: nat) {
    && (nmerges == 0 ==> l == s)
    && (nmerges == 1 ==> l == Beyond(s, 2 * w))
    && (nmerges > 1 ==> |s| > 2 * w)
  }

  lemma CountedNext(nmerges: nat, l: seq<Ptr>, s: seq<Ptr>, w: nat)
    requires Counted(nmerges, l, s, w) && l != [] && w > 0
    ensures Counted(nmerges + 1, Beyond(l, 2 * w), s, w)
  {
  }

  /** The whole of s was read: one round did it exactly if two runs hold it. */
  lemma PassOver(nmerges: nat, out: seq<Ptr>, s: seq<Ptr>, w: nat, le: (Ptr, Ptr) -> bool)
    requires w > 0 && s != [] && Counted(nmerges, [], s, w) && PassTo(out, [], s, w, le)
    ensures out == Pass(s, w, le) && (nmerges <= 1 <==> |s| <= 2 * w)
  {
    assert out + [] == out;
  }

  lemma PassBegins(s: seq<Ptr>, w: nat, le: (Ptr, Ptr) -> bool)
    requires w > 0
    ensures PassTo([], s, s, w, le)
  {
  }

  lemma PassUnfold(out: seq<Ptr>, l: seq<Ptr>, s: seq<Ptr>, w: nat, le: (Ptr, Ptr) -> bool)
    requires w > 0 && l != [] && PassTo(out, l, s, w, le)
    ensures var n := Min(w, |l|);
            PassTo(out + Merge(l[..n], Quota(l[n..], w), le), Beyond(l, 2 * w), s, w, le)
    ensures Beyond(l[Min(w, |l|)..], w) == Beyond(l, 2 * w) && |Beyond(l, 2 * w)| < |l|
  {
    var n := Min(w, |l|);
    assert Quota(l[n..], w) == l[n..Min(2 * w, |l|)];
    assert Beyond(l[n..], w) == l[Min(2 * w, |l|)..];
    assert out + (Merge(l[..n], Quota(l[n..], w), le) + Pass(Beyond(l, 2 * w), w, le))
        == out + Merge(l[..n], Quota(l[n..], w), le) + Pass(Beyond(l, 2 * w), w, le);
  }

  /** One round of the pass: a pair of runs is split off and merged. */
  method MergeNext(b0: Build, hp0: Ptr, w: nat, le: (Ptr, Ptr) -> bool,
                   ghost out0: seq<Ptr>, ghost l: seq<Ptr>, ghost s: seq<Ptr>)
    returns (b: Build, hp: Ptr, ghost out: seq<Ptr>)
    requires w > 0 && l != [] && Merging(b0, NULL, hp0, out0, [], l) && PassTo(out0, l, s, w, le)
    ensures Merging(b, NULL, hp, out, [], Beyond(l, 2 * w)) && |b.next| == |b0.next|
    ensures PassTo(out, Beyond(l, 2 * w), s, w, le) && |Beyond(l, 2 * w)| < |l|
  {
    var psize, hq := Split(b0.next, hp0, w, l);
    SplitOff(b0, hp0, out0, l, psize);
    PassUnfold(out0, l, s, w, le);
    b, hp := MergeRuns(b0, hp0, psize, hq, w, le, out0, l[..psize], l[psize..]);
    out := out0 + Merge(l[..psize], Quota(l[psize..], w), le);
  }

  /** One pass over the whole list. */
  method PassList(next: seq<Ptr>, prev: seq<Ptr>, head: Ptr, w: nat, le: (Ptr, Ptr) -> bool, ghost s: seq<Ptr>)
    returns (b: Build, nmerges: nat)
    requires Linked(next, prev, head, s) && s != [] && w > 0
    ensures Linked(b.next, b.prev, b.list, Pass(s, w, le)) && |b.next| == |next|
    ensures b.tail == Nth(Pass(s, w, le), |Pass(s, w, le)| - 1)
    ensures nmerges <= 1 <==> |s| <= 2 * w
  {
    b, nmerges := Build(next, prev, NULL, NULL), 0;
    var hp := head;
    ghost var out, l := [], s;
    StartOf(next, prev, head, s);
    PassBegins(s, w, le);
    while hp != NULL
      invariant Merging(b, NULL, hp, out, [], l) && |b.next| == |next|
      invariant PassTo(out, l, s, w, le) && Counted(nmerges, l, s, w)
      decreases |l|
    {
      CountedNext(nmerges, l, s, w);
      nmerges := nmerges + 1;
      b, hp, out := MergeNext(b, hp, w, le, out, l, s);
      l := Beyond(l, 2 * w);
    }
    assert l == [];
    PassOver(nmerges, out, s, w, le);
    Close(b, out);
    b := b.(next := Store(b.next, b.tail, NULL));
  }

  lemma StartOf(next: seq<Ptr>, prev: seq<Ptr>, head: Ptr, s: seq<Ptr>)
    requires Linked(next, prev, head, s)
    ensures Merging(Build(next, prev, NULL, NULL), NULL, head, [], [], s)
  {
    BackwardDistinct(prev, s);
    forall k | 0 <= k < |s| ensures next[s[k]] == Nth(s, k + 1) {
      assert next[s[k]] == Nth(s, k + 1);
    }
  }

  lemma Close(b: Build, out: seq<Ptr>)
    requires Built(b, out)
    ensures Linked(Store(b.next, b.tail, NULL), b.prev, b.list, out)
  {
    BackwardDistinct(b.prev, out);
    var next := Store(b.next, b.tail, NULL);
    forall k | 0 <= k < |out| ensures next[out[k]] == Nth(out, k + 1) {
      if k < |out| - 1 { assert b.next[out[k]] == out[k + 1]; }
    }
  }

  /** HASH_SRT on the list: a stable sorted permutation, fully linked, for any total preorder. */
  method SortList(next0: seq<Ptr>, prev0: seq<Ptr>, head: Ptr, le: (Ptr, Ptr) -> bool, ghost s0: seq<Ptr>)
    returns (b: Build, ghost s: seq<Ptr>)
    requires Linked(next0, prev0, head, s0) && s0 != [] && TotalPreorder(le)
    ensures Linked(b.next, b.prev, b.list, s) && |b.next| == |next0| && s != [] && b.tail == s[|s| - 1]
    ensures Sorted(s, le) && Stable(s0, s, le)
  {
    var insize, looping, nmerges := 1, true, 0;
    b, s := Build(next0, prev0, head, NULL), s0;
    RunsOfOne(s0, le);
    while looping
      invariant Linked(b.next, b.prev, b.list, s) && |b.next| == |next0| && |s| == |s0| && insize > 0
      invariant Stable(s0, s, le) && Runs(s, insize, le)
      invariant !looping ==> Sorted(s, le) && b.tail == s[|s| - 1]
      decreases looping, |s0| - insize
    {
      PassStep(s, insize, le);
      PassElems(s, insize, le);
      b, nmerges := PassList(b.next, b.prev, b.list, insize, le, s);
      s := Pass(s, insize, le);
      if nmerges <= 1 {
        looping := false;
        SingleRun(s, 2 * insize, le);
      }
      insize := insize * 2;
    }
  }
}
