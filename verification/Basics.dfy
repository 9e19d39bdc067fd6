/** Stock definitions, and edits of sequences that say which element lies where. */
module Basics {

  datatype Option<T> = None | Some(value: T)

  function Min(a: nat, b: nat): (m: nat) {
    if a < b then a else b
  }

  /** The n bytes of s from `at` on; no bytes at all may lie anywhere. */
  ghost function Slice<T>(s: seq<T>, at: nat, n: nat): (r: seq<T>)
    requires n > 0 ==> at + n <= |s|
    ensures |r| == n && forall i :: 0 <= i < n ==> r[i] == s[at + i]
  {
    seq(n, i requires 0 <= i < n => s[at + i])
  }

  lemma SliceWhole<T>(s: seq<T>)
    ensures Slice(s, 0, |s|) == s
  {
  }

  lemma SliceSlice<T>(s: seq<T>, a: nat, n: nat, b: nat, m: nat)
    requires (n > 0 ==> a + n <= |s|) && b + m <= n
    ensures Slice(Slice(s, a, n), b, m) == Slice(s, a + b, m)
  {
  }

  lemma SliceThen<T>(s: seq<T>, at: nat, n: nat, m: nat)
    requires n + m > 0 ==> at + n + m <= |s|
    ensures Slice(s, at, n + m) == Slice(s, at, n) + Slice(s, at + n, m)
  {
  }

  /** s with the bytes from `at` on replaced by `part`. */
  ghost function Overwrite<T>(s: seq<T>, at: nat, part: seq<T>): (r: seq<T>)
    requires part != [] ==> at + |part| <= |s|
    ensures |r| == |s| && forall i :: 0 <= i < |s| ==> r[i] == if at <= i < at + |part| then part[i - at] else s[i]
  {
    seq(|s|, i requires 0 <= i < |s| => if at <= i < at + |part| then part[i - at] else s[i])
  }

  lemma OverwriteThen<T>(s: seq<T>, at: nat, a: seq<T>, b: seq<T>)
    requires |a| + |b| > 0 ==> at + |a| + |b| <= |s|
    ensures Overwrite(Overwrite(s, at, a), at + |a|, b) == Overwrite(s, at, a + b)
  {
  }

  /** s with x put in at position k. */
  function Inserted<T>(s: seq<T>, k: nat, x: T): (t: seq<T>)
    requires k <= |s|
    ensures |t| == |s| + 1
    ensures forall i {:trigger t[i]} :: 0 <= i < |t| ==> t[i] == if i < k then s[i] else if i == k then x else s[i - 1]
  {
    seq(|s| + 1, i requires 0 <= i <= |s| => if i < k then s[i] else if i == k then x else s[i - 1])
  }

  /** s with t put in at position k. */
  ghost function Spliced<T>(s: seq<T>, k: nat, t: seq<T>): (r: seq<T>)
    requires k <= |s|
    ensures |r| == |s| + |t|
    ensures forall i {:trigger r[i]} :: 0 <= i < |r| ==>
              r[i] == if i < k then s[i] else if i < k + |t| then t[i - k] else s[i - |t|]
  {
    seq(|s| + |t|, i requires 0 <= i < |s| + |t| =>
      if i < k then s[i] else if i < k + |t| then t[i - k] else s[i - |t|])
  }

  lemma Assoc<T>(a: seq<T>, b: seq<T>, c: seq<T>)
    ensures (a + b) + c == a + (b + c)
  {
  }
}
