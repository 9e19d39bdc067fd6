/**
 Bottom-up mergesort on sequences: what one merging pass does to sorted runs,
 and why the final result is sorted and stable for any total preorder.
 */
module StableSort {
  import opened Basics

  ghost predicate TotalPreorder<T(!new)>(le: (T, T) -> bool) {
    && (forall x, y :: le(x, y) || le(y, x))
    && (forall x, y, z :: le(x, y) && le(y, z) ==> le(x, z))
  }

  ghost predicate Sorted<T>(s: seq<T>, le: (T, T) -> bool) {
    forall i, j :: 0 <= i < j < |s| ==> le(s[i], s[j])
  }

  /** The elements of s that rank the same as x, in order. */
  ghost function Class<T>(s: seq<T>, le: (T, T) -> bool, x: T): (c: seq<T>) {
    if s == [] then []
    else (if le(s[0], x) && le(x, s[0]) then [s[0]] else []) + Class(s[1..], le, x)
  }

  /** t is a permutation of s in which elements of equal rank keep their order. */
  ghost predicate Stable<T(!new)>(s: seq<T>, t: seq<T>, le: (T, T) -> bool) {
    multiset(s) == multiset(t) && SameClasses(s, t, le)
  }

  ghost predicate SameClasses<T(!new)>(s: seq<T>, t: seq<T>, le: (T, T) -> bool) {
    forall x :: Class(s, le, x) == Class(t, le, x)
  }

  /** Equal ranks are taken from the left run first. */
  function Merge<T>(p: seq<T>, q: seq<T>, le: (T, T) -> bool): (m: seq<T>)
    decreases |p| + |q|
  {
    if p == [] then q
    else if q == [] then p
    else if le(p[0], q[0]) then [p[0]] + Merge(p[1..], q, le)
    else [q[0]] + Merge(p, q[1..], le)
  }

  /** One pass: neighbouring runs of length w are merged. */
  function Pass<T>(s: seq<T>, w: nat, le: (T, T) -> bool): (t: seq<T>)
    requires w > 0
  {
    if s == [] then []
    else Merge(s[..Min(w, |s|)], s[Min(w, |s|)..Min(2 * w, |s|)], le) + Pass(s[Min(2 * w, |s|)..], w, le)
  }

  /** s consists of sorted runs of length w, the last one possibly shorter. */
  ghost predicate Runs<T>(s: seq<T>, w: nat, le: (T, T) -> bool)
    requires w > 0
  {
    s == [] || (Sorted(s[..Min(w, |s|)], le) && Runs(s[Min(w, |s|)..], w, le))
  }

  lemma {:induction false} ClassConcat<T>(s: seq<T>, t: seq<T>, le: (T, T) -> bool, x: T)
    ensures Class(s + t, le, x) == Class(s, le, x) + Class(t, le, x)
  {
    if s == [] {
      assert s + t == t;
    } else {
      assert (s + t)[1..] == s[1..] + t;
      ClassConcat(s[1..], t, le, x);
    }
  }

  /** Nothing ranked strictly above x is in the class of x. */
  lemma {:induction false} ClassAbove<T>(s: seq<T>, le: (T, T) -> bool, x: T)
    requires forall i :: 0 <= i < |s| ==> !le(s[i], x)
    ensures Class(s, le, x) == []
  {
    if s != [] { ClassAbove(s[1..], le, x); }
  }

  lemma {:induction false} MergeElems<T>(p: seq<T>, q: seq<T>, le: (T, T) -> bool)
    ensures multiset(Merge(p, q, le)) == multiset(p) + multiset(q)
    ensures |Merge(p, q, le)| == |p| + |q|
    decreases |p| + |q|
  {
    if p != [] && q != [] {
      if le(p[0], q[0]) {
        MergeElems(p[1..], q, le);
        assert p == [p[0]] + p[1..];
      } else {
        MergeElems(p, q[1..], le);
        assert q == [q[0]] + q[1..];
      }
    }
  }

  /** e ranks no higher than anything in s. */
  ghost predicate Below<T>(e: T, s: seq<T>, le: (T, T) -> bool) {
    forall i :: 0 <= i < |s| ==> le(e, s[i])
  }

  lemma {:induction false} MergeBelow<T>(e: T, p: seq<T>, q: seq<T>, le: (T, T) -> bool)
    requires Below(e, p, le) && Below(e, q, le)
    ensures Below(e, Merge(p, q, le), le)
    decreases |p| + |q|
  {
    if p != [] && q != [] {
      if le(p[0], q[0]) { MergeBelow(e, p[1..], q, le); } else { MergeBelow(e, p, q[1..], le); }
    }
  }

  lemma BelowSorted<T(!new)>(e: T, s: seq<T>, le: (T, T) -> bool)
    requires TotalPreorder(le) && Sorted(s, le) && (s != [] ==> le(e, s[0]))
    ensures Below(e, s, le)
  {
    forall i | 0 <= i < |s| ensures le(e, s[i]) { assert i > 0 ==> le(s[0], s[i]); }
  }

  lemma SortedCons<T>(e: T, s: seq<T>, le: (T, T) -> bool)
    requires Sorted(s, le) && Below(e, s, le)
    ensures Sorted([e] + s, le)
  {
  }

  lemma {:induction false} MergeSorted<T(!new)>(p: seq<T>, q: seq<T>, le: (T, T) -> bool)
    requires TotalPreorder(le) && Sorted(p, le) && Sorted(q, le)
    ensures Sorted(Merge(p, q, le), le)
    decreases |p| + |q|
  {
    if p != [] && q != [] {
      var first := le(p[0], q[0]);
      assert first || le(q[0], p[0]);
      var e, p', q' := if first then p[0] else q[0], if first then p[1..] else p, if first then q else q[1..];
      MergeSorted(p', q', le);
      BelowSorted(e, p', le);
      BelowSorted(e, q', le);
      MergeBelow(e, p', q', le);
      SortedCons(e, Merge(p', q', le), le);
    }
  }

  /** With q[0] strictly before p[0], nothing in p is in the class of q[0]. */
  lemma NotInClass<T(!new)>(p: seq<T>, y: T, le: (T, T) -> bool, x: T)
    requires TotalPreorder(le) && Sorted(p, le) && p != [] && !le(p[0], y) && le(y, x) && le(x, y)
    ensures Class(p, le, x) == []
  {
    forall i | 0 <= i < |p| ensures !le(p[i], x) { assert i > 0 ==> le(p[0], p[i]); }
    ClassAbove(p, le, x);
  }

  lemma {:induction false} MergeClass<T(!new)>(p: seq<T>, q: seq<T>, le: (T, T) -> bool, x: T)
    requires TotalPreorder(le) && Sorted(p, le)
    ensures Class(Merge(p, q, le), le, x) == Class(p, le, x) + Class(q, le, x)
    decreases |p| + |q|
  {
    if p != [] && q != [] {
      if le(p[0], q[0]) {
        MergeClass(p[1..], q, le, x);
        assert Merge(p, q, le)[1..] == Merge(p[1..], q, le);
      } else {
        MergeClass(p, q[1..], le, x);
        assert Merge(p, q, le)[1..] == Merge(p, q[1..], le);
        if le(q[0], x) && le(x, q[0]) { NotInClass(p, q[0], le, x); }
      }
    }
  }

  lemma {:induction false} PassElems<T>(s: seq<T>, w: nat, le: (T, T) -> bool)
    requires w > 0
    ensures multiset(Pass(s, w, le)) == multiset(s) && |Pass(s, w, le)| == |s|
    decreases |s|
  {
    if s != [] {
      var a, b := Min(w, |s|), Min(2 * w, |s|);
      PassElems(s[b..], w, le);
      MergeElems(s[..a], s[a..b], le);
      ThreeParts(s, a, b);
    }
  }

  lemma ThreeParts<T>(s: seq<T>, a: nat, b: nat)
    requires a <= b <= |s|
    ensures multiset(s) == multiset(s[..a]) + multiset(s[a..b]) + multiset(s[b..])
  {
    assert s == s[..a] + s[a..b] + s[b..];
  }

  lemma SameConcat<T(!new)>(s: seq<T>, t: seq<T>, s': seq<T>, t': seq<T>, le: (T, T) -> bool)
    requires SameClasses(s, t, le) && SameClasses(s', t', le)
    ensures SameClasses(s + s', t + t', le)
  {
    forall x ensures Class(s + s', le, x) == Class(t + t', le, x) {
      ClassConcat(s, s', le, x);
      ClassConcat(t, t', le, x);
    }
  }

  lemma MergeSame<T(!new)>(p: seq<T>, q: seq<T>, le: (T, T) -> bool)
    requires TotalPreorder(le) && Sorted(p, le)
    ensures SameClasses(p + q, Merge(p, q, le), le)
  {
    forall x ensures Class(p + q, le, x) == Class(Merge(p, q, le), le, x) {
      MergeClass(p, q, le, x);
      ClassConcat(p, q, le, x);
    }
  }

  lemma {:induction false} PassSame<T(!new)>(s: seq<T>, w: nat, le: (T, T) -> bool)
    requires w > 0 && TotalPreorder(le) && Runs(s, w, le)
    ensures SameClasses(s, Pass(s, w, le), le)
    decreases |s|
  {
    if s != [] {
      var a, b := Min(w, |s|), Min(2 * w, |s|);
      SecondRun(s, w, le);
      PassSame(s[b..], w, le);
      MergeSame(s[..a], s[a..b], le);
      SameConcat(s[..a] + s[a..b], Merge(s[..a], s[a..b], le), s[b..], Pass(s[b..], w, le), le);
      assert s == s[..a] + s[a..b] + s[b..];
    }
  }

  lemma {:induction false} PassRuns<T(!new)>(s: seq<T>, w: nat, le: (T, T) -> bool)
    requires w > 0 && TotalPreorder(le) && Runs(s, w, le)
    ensures Runs(Pass(s, w, le), 2 * w, le)
    decreases |s|
  {
    if s != [] {
      var a, b := Min(w, |s|), Min(2 * w, |s|);
      SecondRun(s, w, le);
      PassRuns(s[b..], w, le);
      PassElems(s[b..], w, le);
      MergeElems(s[..a], s[a..b], le);
      MergeSorted(s[..a], s[a..b], le);
      Prepend(Merge(s[..a], s[a..b], le), Pass(s[b..], w, le), 2 * w, le);
    }
  }

  /** A full sorted run in front of runs, or a short one alone. */
  lemma Prepend<T>(m: seq<T>, t: seq<T>, w: nat, le: (T, T) -> bool)
    requires w > 0 && Sorted(m, le) && Runs(t, w, le) && 0 < |m| <= w && (|m| == w || t == [])
    ensures Runs(m + t, w, le)
  {
    assert (m + t)[..|m|] == m && (m + t)[|m|..] == t;
  }

  /** A pass turns runs of length w into runs of length 2w, stably. */
  lemma PassStep<T(!new)>(s: seq<T>, w: nat, le: (T, T) -> bool)
    requires w > 0 && TotalPreorder(le) && Runs(s, w, le)
    ensures Runs(Pass(s, w, le), 2 * w, le) && Stable(s, Pass(s, w, le), le)
  {
    PassRuns(s, w, le);
    PassElems(s, w, le);
    PassSame(s, w, le);
  }

  lemma {:induction false} SecondRun<T>(s: seq<T>, w: nat, le: (T, T) -> bool)
    requires w > 0 && s != [] && Runs(s, w, le)
    ensures Sorted(s[..Min(w, |s|)], le) && Sorted(s[Min(w, |s|)..Min(2 * w, |s|)], le)
    ensures Runs(s[Min(2 * w, |s|)..], w, le)
  {
    var a := Min(w, |s|);
    var r := s[a..];
    if r != [] {
      assert r[..Min(w, |r|)] == s[a..Min(2 * w, |s|)];
      assert r[Min(w, |r|)..] == s[Min(2 * w, |s|)..];
    }
  }

  /** Every sequence is made of runs of length one. */
  lemma {:induction false} RunsOfOne<T>(s: seq<T>, le: (T, T) -> bool)
    ensures Runs(s, 1, le)
  {
    if s != [] { RunsOfOne(s[1..], le); }
  }

  lemma SingleRun<T>(s: seq<T>, w: nat, le: (T, T) -> bool)
    requires w > 0 && |s| <= w && Runs(s, w, le)
    ensures Sorted(s, le)
  {
    assert s[..|s|] == s;
  }
}
