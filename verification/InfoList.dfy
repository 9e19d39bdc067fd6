/**
 Reordering of the provider info list: the reliable-datagram entries of one provider
 are unlinked, kept in order, and linked in again before those of another.
 */
module InfoList {
  import opened Basics
  import opened Links
  import opened Chains

  datatype EpType = Msg | Dgram | Rdm | Unspec

  /** What matching looks at: the provider's name up to case, one number for all spellings, and the endpoint type. */
  datatype Info = Info(prov: int, ep: EpType)

  /** `ofi_info_match_prov` */
  predicate Matches(infos: seq<Info>, m: Info, p: Ptr) {
    0 <= p < |infos| && infos[p] == m
  }

  /** Those of the first n nodes of s that match, or those that do not, in order. */
  ghost function Pick(infos: seq<Info>, m: Info, s: seq<Ptr>, n: nat, want: bool): (r: seq<Ptr>)
    requires n <= |s|
  {
    if n == 0 then []
    else Pick(infos, m, s, n - 1, want) + if Matches(infos, m, s[n - 1]) == want then [s[n - 1]] else []
  }

  /** The first matching node of s. */
  ghost function First(infos: seq<Info>, m: Info, s: seq<Ptr>): (k: nat)
    ensures k <= |s| && (k < |s| ==> Matches(infos, m, s[k])) && forall i :: 0 <= i < k ==> !Matches(infos, m, s[i])
  {
    if s == [] || Matches(infos, m, s[0]) then 0 else 1 + First(infos, m, s[1..])
  }

  lemma ChainFrame(next: seq<Ptr>, next': seq<Ptr>, head: Ptr, s: seq<Ptr>)
    requires Chain(next, head, s) && |next'| == |next| && forall p :: p in s ==> next'[p] == next[p]
    ensures Chain(next', head, s)
  {
    forall k | 0 <= k < |s| ensures next'[s[k]] == Nth(s, k + 1) { assert next[s[k]] == Nth(s, k + 1); }
  }

  lemma ChainRemove(next: seq<Ptr>, head: Ptr, s: seq<Ptr>, k: nat)
    requires Chain(next, head, s) && k < |s|
    ensures Chain(Store(next, Nth(s, k - 1), next[s[k]]), if k == 0 then next[s[k]] else head, Without(s, k))
  {
    var next', t := Store(next, Nth(s, k - 1), next[s[k]]), Without(s, k);
    assert next[s[k]] == Nth(s, k + 1);
    forall i | 0 <= i < |t| ensures next'[t[i]] == Nth(t, i + 1) {
      var j := if i < k then i else i + 1;
      assert next[s[j]] == Nth(s, j + 1);
      if k > 0 && j != k - 1 {
        if j < k - 1 { Ahead(next, head, s, j, k - 1); } else { Ahead(next, head, s, k - 1, j); }
      }
    }
  }

  lemma ChainAppend(next: seq<Ptr>, head: Ptr, s: seq<Ptr>, p: Ptr)
    requires Chain(next, head, s) && 0 <= p < |next| && p !in s
    ensures Chain(Store(next, Nth(s, |s| - 1), p)[p := NULL], if s == [] then p else head, s + [p])
  {
    var next', t := Store(next, Nth(s, |s| - 1), p)[p := NULL], s + [p];
    forall i | 0 <= i < |t| ensures next'[t[i]] == Nth(t, i + 1) {
      if i < |s| {
        assert next[s[i]] == Nth(s, i + 1);
        if i < |s| - 1 { Ahead(next, head, s, i, |s| - 1); }
      }
    }
  }

  /** A whole list linked in at position k of another. */
  lemma ChainSplice(next: seq<Ptr>, head: Ptr, s: seq<Ptr>, k: nat, head2: Ptr, t: seq<Ptr>)
    requires Chain(next, head, s) && Chain(next, head2, t) && k <= |s| && t != [] && forall p :: p in s ==> p !in t
    ensures Chain(Store(Store(next, Nth(s, k - 1), head2), t[|t| - 1], Nth(s, k)), if k == 0 then head2 else head,
                  Spliced(s, k, t))
  {
    var next', r := Store(Store(next, Nth(s, k - 1), head2), t[|t| - 1], Nth(s, k)), Spliced(s, k, t);
    forall i | 0 <= i < |r| ensures next'[r[i]] == Nth(r, i + 1) {
      if i < k {
        assert r[i] == s[i] && s[i] in s && next[s[i]] == Nth(s, i + 1);
        if i < k - 1 { Ahead(next, head, s, i, k - 1); }
      } else if i < k + |t| {
        assert r[i] == t[i - k] && t[i - k] in t && next[t[i - k]] == Nth(t, i - k + 1);
        if i - k < |t| - 1 { Ahead(next, head2, t, i - k, |t| - 1); }
        if k > 0 { assert s[k - 1] in s; }
      } else {
        assert r[i] == s[i - |t|] && s[i - |t|] in s && next[s[i - |t|]] == Nth(s, i - |t| + 1);
        if k > 0 { Ahead(next, head, s, k - 1, i - |t|); }
      }
    }
  }

  lemma {:induction false} PickHas(infos: seq<Info>, m: Info, s: seq<Ptr>, n: nat, want: bool, x: Ptr)
    requires n <= |s|
    ensures x in Pick(infos, m, s, n, want) <==> exists j :: 0 <= j < n && s[j] == x && Matches(infos, m, x) == want
  {
    if n > 0 { PickHas(infos, m, s, n - 1, want, x); }
  }

  /** What is still linked after the first n nodes were looked at. */
  ghost function Left(infos: seq<Info>, m: Info, s: seq<Ptr>, n: nat): (r: seq<Ptr>)
    requires n <= |s|
  {
    Pick(infos, m, s, n, false) + s[n..]
  }

  lemma PickedApart(next: seq<Ptr>, head: Ptr, infos: seq<Info>, m: Info, s: seq<Ptr>, n: nat)
    requires n <= |s| && Chain(next, head, s)
    ensures Separate(Pick(infos, m, s, n, true), Left(infos, m, s, n))
  {
    ChainDistinct(next, head, s);
    forall x | x in Pick(infos, m, s, n, true) ensures x !in Left(infos, m, s, n) {
      PickHas(infos, m, s, n, true, x);
      PickHas(infos, m, s, n, false, x);
      var j :| 0 <= j < n && s[j] == x;
      assert x !in s[n..];
    }
  }

  /** Half-way through the split, with the first n nodes looked at. */
  ghost predicate Splitting(next: seq<Ptr>, head: Ptr, list: Ptr, tail: Ptr, prev: Ptr, cur: Ptr,
                            infos: seq<Info>, m: Info, s: seq<Ptr>, n: nat) {
    && n <= |s| && cur == Nth(s, n)
    && Chain(next, head, Left(infos, m, s, n)) && prev == Nth(Left(infos, m, s, n), |Pick(infos, m, s, n, false)| - 1)
    && Chain(next, list, Pick(infos, m, s, n, true))
    && tail == Nth(Pick(infos, m, s, n, true), |Pick(infos, m, s, n, true)| - 1)
  }

  lemma LeftSkip(infos: seq<Info>, m: Info, s: seq<Ptr>, n: nat)
    requires n < |s| && !Matches(infos, m, s[n])
    ensures Left(infos, m, s, n + 1) == Left(infos, m, s, n)
    ensures Pick(infos, m, s, n + 1, true) == Pick(infos, m, s, n, true)
  {
    assert s[n..] == [s[n]] + s[n + 1..];
  }

  lemma LeftTake(infos: seq<Info>, m: Info, s: seq<Ptr>, n: nat)
    requires n < |s| && Matches(infos, m, s[n])
    ensures var k := |Pick(infos, m, s, n, false)|;
            && k < |Left(infos, m, s, n)| && Left(infos, m, s, n)[k] == s[n]
            && Left(infos, m, s, n + 1) == Without(Left(infos, m, s, n), k)
            && Pick(infos, m, s, n + 1, true) == Pick(infos, m, s, n, true) + [s[n]]
  {
  }

  ghost predicate Separate(a: seq<Ptr>, b: seq<Ptr>) {
    forall x :: x in a ==> x !in b
  }

  /** `next` after the node at position k of l was moved to the end of `picked`. */
  ghost function Relinked(next: seq<Ptr>, l: seq<Ptr>, k: nat, picked: seq<Ptr>): (next': seq<Ptr>)
    requires k < |l| && InRange(l, |next|)
    ensures |next'| == |next|
  {
    Store(Store(next, Nth(l, k - 1), next[l[k]]), Nth(picked, |picked| - 1), l[k])[l[k] := NULL]
  }

  lemma MoveNode(next: seq<Ptr>, head: Ptr, l: seq<Ptr>, k: nat, list: Ptr, picked: seq<Ptr>)
    requires Chain(next, head, l) && Chain(next, list, picked) && k < |l| && Separate(picked, l)
    ensures Chain(Relinked(next, l, k, picked), if k == 0 then next[l[k]] else head, Without(l, k))
    ensures Chain(Relinked(next, l, k, picked), if picked == [] then l[k] else list, picked + [l[k]])
  {
    var c, prev, tail := l[k], Nth(l, k - 1), Nth(picked, |picked| - 1);
    var next1 := Store(next, prev, next[c]);
    var next2 := Store(next1, tail, c)[c := NULL];
    assert c in l && (prev != NULL ==> prev in l) && (tail != NULL ==> tail in picked);
    ChainRemove(next, head, l, k);
    ChainFrame(next, next1, list, picked);
    ChainAppend(next1, list, picked, c);
    RestApart(next, head, l, k);
    ChainFrame(next1, next2, if k == 0 then next[c] else head, Without(l, k));
  }

  lemma RestApart(next: seq<Ptr>, head: Ptr, l: seq<Ptr>, k: nat)
    requires Chain(next, head, l) && k < |l|
    ensures forall x :: x in Without(l, k) ==> x in l && x != l[k]
  {
    ChainDistinct(next, head, l);
    WithoutAt(l, k);
  }

  lemma SplitStart(next: seq<Ptr>, head: Ptr, infos: seq<Info>, m: Info, s: seq<Ptr>)
    requires Chain(next, head, s)
    ensures Splitting(next, head, NULL, NULL, NULL, head, infos, m, s, 0)
  {
    assert Left(infos, m, s, 0) == s;
  }

  /** The node looked at, where it is linked and what follows it. */
  lemma LeftAt(next: seq<Ptr>, head: Ptr, infos: seq<Info>, m: Info, s: seq<Ptr>, n: nat)
    requires n < |s| && Chain(next, head, Left(infos, m, s, n))
    ensures var l, k := Left(infos, m, s, n), |Pick(infos, m, s, n, false)|;
            k < |l| && l[k] == s[n] && 0 <= s[n] < |next| && next[s[n]] == Nth(s, n + 1)
  {
    var l, k := Left(infos, m, s, n), |Pick(infos, m, s, n, false)|;
    assert next[l[k]] == Nth(l, k + 1);
  }

  lemma SplitSkip(next: seq<Ptr>, head: Ptr, list: Ptr, tail: Ptr, prev: Ptr, cur: Ptr, infos: seq<Info>, m: Info,
                  s: seq<Ptr>, n: nat)
    requires Splitting(next, head, list, tail, prev, cur, infos, m, s, n) && n < |s| && !Matches(infos, m, cur)
    ensures 0 <= cur < |next| && Splitting(next, head, list, tail, cur, next[cur], infos, m, s, n + 1)
  {
    LeftAt(next, head, infos, m, s, n);
    LeftSkip(infos, m, s, n);
  }

  /** Unlinking a matching node and putting it at the end of the new list. */
  lemma SplitTake(next0: seq<Ptr>, head0: Ptr, next: seq<Ptr>, head: Ptr, list: Ptr, tail: Ptr, prev: Ptr, cur: Ptr,
                  infos: seq<Info>, m: Info, s: seq<Ptr>, n: nat)
    requires Chain(next0, head0, s) && Splitting(next, head, list, tail, prev, cur, infos, m, s, n)
    requires n < |s| && Matches(infos, m, cur)
    ensures 0 <= cur < |next|
    ensures Splitting(Store(Store(next, prev, next[cur]), tail, cur)[cur := NULL],
                      if prev == NULL then next[cur] else head,
                      if list == NULL then cur else list, cur, prev, next[cur], infos, m, s, n + 1)
  {
    var l, picked := Left(infos, m, s, n), Pick(infos, m, s, n, true);
    LeftAt(next, head, infos, m, s, n);
    LeftTake(infos, m, s, n);
    PickedApart(next0, head0, infos, m, s, n);
    MoveNode(next, head, l, |Pick(infos, m, s, n, false)|, list, picked);
  }

  lemma SplitEnd(next0: seq<Ptr>, head0: Ptr, next: seq<Ptr>, head: Ptr, list: Ptr, tail: Ptr, prev: Ptr,
                 infos: seq<Info>, m: Info, s: seq<Ptr>, n: nat)
    requires Chain(next0, head0, s) && Splitting(next, head, list, tail, prev, NULL, infos, m, s, n)
    ensures var picked, rest := Pick(infos, m, s, |s|, true), Pick(infos, m, s, |s|, false);
            && Chain(next, head, rest) && Chain(next, list, picked)
            && tail == Nth(picked, |picked| - 1) && Separate(picked, rest)
  {
    assert n == |s|;
    PickedApart(next0, head0, infos, m, s, n);
    assert Left(infos, m, s, n) == Pick(infos, m, s, n, false);
  }

  /** The order in which `ofi_reorder_info` leaves the list: unchanged without an entry to move. */
  ghost function Reordered(infos: seq<Info>, tcp: Info, rxm: Info, s: seq<Ptr>): (r: seq<Ptr>) {
    var picked, rest := Pick(infos, tcp, s, |s|, true), Pick(infos, tcp, s, |s|, false);
    if picked == [] then s else Spliced(rest, First(infos, rxm, rest), picked)
  }

  lemma PickNext(infos: seq<Info>, m: Info, s: seq<Ptr>, n: nat, want: bool)
    requires n < |s|
    ensures Matches(infos, m, s[n]) == want ==> Pick(infos, m, s, n + 1, want) == Pick(infos, m, s, n, want) + [s[n]]
    ensures Matches(infos, m, s[n]) != want ==> Pick(infos, m, s, n + 1, want) == Pick(infos, m, s, n, want)
  {
  }

  lemma {:induction false} PickLengths(infos: seq<Info>, m: Info, s: seq<Ptr>, n: nat)
    requires n <= |s|
    ensures |Pick(infos, m, s, n, true)| + |Pick(infos, m, s, n, false)| == n
  {
    if n > 0 { PickLengths(infos, m, s, n - 1); }
  }

  /** All nodes of t match, or none does. */
  ghost predicate Uniform(infos: seq<Info>, m: Info, t: seq<Ptr>, want: bool) {
    forall i :: 0 <= i < |t| ==> Matches(infos, m, t[i]) == want
  }

  lemma PickedMatch(infos: seq<Info>, m: Info, s: seq<Ptr>, want: bool)
    ensures Uniform(infos, m, Pick(infos, m, s, |s|, want), want)
  {
    var p := Pick(infos, m, s, |s|, want);
    forall i | 0 <= i < |p| ensures Matches(infos, m, p[i]) == want { PickHas(infos, m, s, |s|, want, p[i]); }
  }

  /** From position a on, r holds t. */
  ghost predicate Sits(r: seq<Ptr>, a: nat, t: seq<Ptr>) {
    a + |t| <= |r| && forall i {:trigger t[i]} :: 0 <= i < |t| ==> r[a + i] == t[i]
  }

  /**
   A stretch of uniform nodes, from position a of r on, adds itself to one side of the pick and nothing to the other.
   */
  lemma {:induction false} PickStretch(infos: seq<Info>, m: Info, r: seq<Ptr>, a: nat, t: seq<Ptr>, j: nat, want: bool)
    requires j <= |t| && Sits(r, a, t) && Uniform(infos, m, t, want)
    ensures Pick(infos, m, r, a + j, want) == Pick(infos, m, r, a, want) + t[..j]
    ensures Pick(infos, m, r, a + j, !want) == Pick(infos, m, r, a, !want)
  {
    if j == 0 {
      assert t[..0] == [] && Pick(infos, m, r, a, want) + [] == Pick(infos, m, r, a, want);
    } else {
      PickStretch(infos, m, r, a, t, j - 1, want);
      PickNext(infos, m, r, a + j - 1, want);
      PickNext(infos, m, r, a + j - 1, !want);
      assert r[a + (j - 1)] == t[j - 1];
      Grow(Pick(infos, m, r, a, want), t, j);
    }
  }

  lemma Grow(p: seq<Ptr>, t: seq<Ptr>, j: nat)
    requires 0 < j <= |t|
    ensures (p + t[..j - 1]) + [t[j - 1]] == p + t[..j]
  {
  }

  lemma PickAll(infos: seq<Info>, m: Info, r: seq<Ptr>, a: nat, t: seq<Ptr>, want: bool)
    requires Sits(r, a, t) && Uniform(infos, m, t, want)
    ensures Pick(infos, m, r, a + |t|, want) == Pick(infos, m, r, a, want) + t
    ensures Pick(infos, m, r, a + |t|, !want) == Pick(infos, m, r, a, !want)
  {
    PickStretch(infos, m, r, a, t, |t|, want);
    assert t[..|t|] == t;
  }

  /** Three stretches: rest, picked, rest. */
  lemma {:induction false} PickThree(infos: seq<Info>, m: Info, r: seq<Ptr>, a: seq<Ptr>, t: seq<Ptr>, b: seq<Ptr>)
    requires Sits(r, 0, a) && Sits(r, |a|, t) && Sits(r, |a| + |t|, b) && |r| == |a| + |t| + |b|
    requires Uniform(infos, m, a, false) && Uniform(infos, m, t, true) && Uniform(infos, m, b, false)
    ensures Pick(infos, m, r, |r|, true) == t && Pick(infos, m, r, |r|, false) == a + b
  {
    PickAll(infos, m, r, 0, a, false);
    PickAll(infos, m, r, |a|, t, true);
    PickAll(infos, m, r, |a| + |t|, b, false);
    assert [] + a == a && [] + t == t;
  }

  /** Matching nodes put anywhere among the rest: both keep their order. */
  lemma SplicedPicks(infos: seq<Info>, m: Info, rest: seq<Ptr>, k: nat, picked: seq<Ptr>)
    requires k <= |rest| && Uniform(infos, m, rest, false) && Uniform(infos, m, picked, true)
    ensures var r := Spliced(rest, k, picked);
            Pick(infos, m, r, |r|, true) == picked && Pick(infos, m, r, |r|, false) == rest
  {
    var a, b := Slice(rest, 0, k), Slice(rest, k, |rest| - k);
    PickThree(infos, m, Spliced(rest, k, picked), a, picked, b);
    SliceThen(rest, 0, k, |rest| - k);
    SliceWhole(rest);
  }

  lemma SplicedHas(s: seq<Ptr>, k: nat, t: seq<Ptr>, x: Ptr)
    requires k <= |s|
    ensures x in Spliced(s, k, t) <==> x in s || x in t
  {
    var r := Spliced(s, k, t);
    if x in s {
      var i :| 0 <= i < |s| && s[i] == x;
      assert r[if i < k then i else i + |t|] == x;
    }
    if x in t {
      var i :| 0 <= i < |t| && t[i] == x;
      assert r[k + i] == x;
    }
  }

  /** Every node of the one kind comes before every node of the other. */
  ghost predicate Before(infos: seq<Info>, tcp: Info, rxm: Info, r: seq<Ptr>) {
    forall i, j :: 0 <= i < |r| && 0 <= j < |r| && Matches(infos, tcp, r[i]) && Matches(infos, rxm, r[j]) ==> i < j
  }

  lemma SplicedBefore(infos: seq<Info>, tcp: Info, rxm: Info, rest: seq<Ptr>, picked: seq<Ptr>)
    requires tcp != rxm && Uniform(infos, tcp, rest, false) && Uniform(infos, tcp, picked, true)
    ensures Before(infos, tcp, rxm, Spliced(rest, First(infos, rxm, rest), picked))
  {
  }

  /**
   Reordering loses nothing and adds nothing, keeps the entries to move in order and all others in
   order, and leaves each entry that was to move before every entry it was to overtake.
   */
  lemma ReorderedIs(infos: seq<Info>, tcp: Info, rxm: Info, s: seq<Ptr>)
    requires tcp != rxm
    ensures var r := Reordered(infos, tcp, rxm, s);
            && |r| == |s| && (forall x :: x in r <==> x in s)
            && Pick(infos, tcp, r, |r|, true) == Pick(infos, tcp, s, |s|, true)
            && Pick(infos, tcp, r, |r|, false) == Pick(infos, tcp, s, |s|, false)
            && Before(infos, tcp, rxm, r)
  {
    if Pick(infos, tcp, s, |s|, true) == [] {
      forall i | 0 <= i < |s| ensures !Matches(infos, tcp, s[i]) { PickHas(infos, tcp, s, |s|, true, s[i]); }
    } else {
      ReorderedPicks(infos, tcp, rxm, s);
      ReorderedBefore(infos, tcp, rxm, s);
      forall x ensures x in Reordered(infos, tcp, rxm, s) <==> x in s { ReorderedHas(infos, tcp, rxm, s, x); }
    }
  }

  lemma ReorderedHas(infos: seq<Info>, tcp: Info, rxm: Info, s: seq<Ptr>, x: Ptr)
    requires Pick(infos, tcp, s, |s|, true) != []
    ensures x in Reordered(infos, tcp, rxm, s) <==> x in s
  {
    var picked, rest := Pick(infos, tcp, s, |s|, true), Pick(infos, tcp, s, |s|, false);
    SplicedHas(rest, First(infos, rxm, rest), picked, x);
    PickHas(infos, tcp, s, |s|, true, x);
    PickHas(infos, tcp, s, |s|, false, x);
  }

  lemma {:induction false} ReorderedPicks(infos: seq<Info>, tcp: Info, rxm: Info, s: seq<Ptr>)
    requires Pick(infos, tcp, s, |s|, true) != []
    ensures var r := Reordered(infos, tcp, rxm, s);
            && |r| == |s|
            && Pick(infos, tcp, r, |r|, true) == Pick(infos, tcp, s, |s|, true)
            && Pick(infos, tcp, r, |r|, false) == Pick(infos, tcp, s, |s|, false)
  {
    var picked, rest := Pick(infos, tcp, s, |s|, true), Pick(infos, tcp, s, |s|, false);
    PickedMatch(infos, tcp, s, true);
    PickedMatch(infos, tcp, s, false);
    SplicedPicks(infos, tcp, rest, First(infos, rxm, rest), picked);
    PickLengths(infos, tcp, s, |s|);
  }

  lemma {:induction false} ReorderedBefore(infos: seq<Info>, tcp: Info, rxm: Info, s: seq<Ptr>)
    requires tcp != rxm && Pick(infos, tcp, s, |s|, true) != []
    ensures Before(infos, tcp, rxm, Reordered(infos, tcp, rxm, s))
  {
    PickedMatch(infos, tcp, s, true);
    PickedMatch(infos, tcp, s, false);
    SplicedBefore(infos, tcp, rxm, Pick(infos, tcp, s, |s|, false), Pick(infos, tcp, s, |s|, true));
  }

  /** Without an entry to overtake, the entries that move go behind all others. */
  lemma ReorderedAtEnd(infos: seq<Info>, tcp: Info, rxm: Info, s: seq<Ptr>)
    requires forall i :: 0 <= i < |s| ==> !Matches(infos, rxm, s[i])
    ensures Reordered(infos, tcp, rxm, s) == Pick(infos, tcp, s, |s|, false) + Pick(infos, tcp, s, |s|, true)
  {
    var picked, rest := Pick(infos, tcp, s, |s|, true), Pick(infos, tcp, s, |s|, false);
    if picked == [] {
      AllLeft(infos, tcp, s);
    } else {
      var k := First(infos, rxm, rest);
      if k < |rest| {
        PickHas(infos, tcp, s, |s|, false, rest[k]);
      }
      assert k == |rest|;
    }
  }

  /** So a list of a tcp entry and an unrelated one comes out the other way round. */
  lemma MovedBack()
    ensures Reordered([Info(1, Rdm), Info(2, Rdm)], Info(1, Rdm), Info(3, Rdm), [0, 1]) == [1, 0]
  {
    var infos, tcp, s: seq<Ptr> := [Info(1, Rdm), Info(2, Rdm)], Info(1, Rdm), [0, 1];
    PickNext(infos, tcp, s, 0, true);
    PickNext(infos, tcp, s, 1, true);
    PickNext(infos, tcp, s, 0, false);
    PickNext(infos, tcp, s, 1, false);
    ReorderedAtEnd(infos, tcp, Info(3, Rdm), s);
  }

  /** From a up to b stand all tcp entries; the first entry to overtake is at b, or there is none and b is the end. */
  ghost predicate PlacedAt(infos: seq<Info>, tcp: Info, rxm: Info, s: seq<Ptr>, a: nat, b: nat) {
    && a <= b <= |s| && (forall i :: 0 <= i < |s| ==> (Matches(infos, tcp, s[i]) <==> a <= i < b))
    && (forall i :: 0 <= i < a ==> !Matches(infos, rxm, s[i])) && (b < |s| ==> Matches(infos, rxm, s[b]))
  }

  /** There is nothing to move, or it stands where it would be moved to. */
  ghost predicate InPlace(infos: seq<Info>, tcp: Info, rxm: Info, s: seq<Ptr>) {
    || (forall i :: 0 <= i < |s| ==> !Matches(infos, tcp, s[i]))
    || exists a: nat, b: nat :: PlacedAt(infos, tcp, rxm, s, a, b)
  }

  /** Reordering leaves the list alone exactly then. */
  lemma ReorderedIff(infos: seq<Info>, tcp: Info, rxm: Info, s: seq<Ptr>)
    requires tcp != rxm
    ensures Reordered(infos, tcp, rxm, s) == s <==> InPlace(infos, tcp, rxm, s)
  {
    var picked := Pick(infos, tcp, s, |s|, true);
    forall a: nat, b: nat | PlacedAt(infos, tcp, rxm, s, a, b) ensures Reordered(infos, tcp, rxm, s) == s {
      PlacedStays(infos, tcp, rxm, s, a, b);
    }
    if picked == [] {
      forall i | 0 <= i < |s| ensures !Matches(infos, tcp, s[i]) { PickHas(infos, tcp, s, |s|, true, s[i]); }
    } else {
      PickHas(infos, tcp, s, |s|, true, picked[0]);
      var j :| 0 <= j < |s| && s[j] == picked[0] && Matches(infos, tcp, s[j]);
      if Reordered(infos, tcp, rxm, s) == s { StaysIsPlaced(infos, tcp, rxm, s); }
    }
  }

  lemma {:induction false} PlacedStays(infos: seq<Info>, tcp: Info, rxm: Info, s: seq<Ptr>, a: nat, b: nat)
    requires tcp != rxm && PlacedAt(infos, tcp, rxm, s, a, b)
    ensures Reordered(infos, tcp, rxm, s) == s
  {
    var x, t, y := Slice(s, 0, a), Slice(s, a, b - a), Slice(s, b, |s| - b);
    PlacedParts(infos, tcp, rxm, s, a, b);
    FirstBehind(infos, rxm, x, y);
    ThreeSlices(s, a, b);
  }

  lemma {:induction false} PlacedParts(infos: seq<Info>, tcp: Info, rxm: Info, s: seq<Ptr>, a: nat, b: nat)
    requires PlacedAt(infos, tcp, rxm, s, a, b)
    ensures var x, t, y := Slice(s, 0, a), Slice(s, a, b - a), Slice(s, b, |s| - b);
            && Pick(infos, tcp, s, |s|, true) == t && Pick(infos, tcp, s, |s|, false) == x + y
            && Uniform(infos, rxm, x, false) && (y != [] ==> Matches(infos, rxm, y[0]))
  {
    PickThree(infos, tcp, s, Slice(s, 0, a), Slice(s, a, b - a), Slice(s, b, |s| - b));
  }

  lemma ThreeSlices(s: seq<Ptr>, a: nat, b: nat)
    requires a <= b <= |s|
    ensures Spliced(Slice(s, 0, a) + Slice(s, b, |s| - b), a, Slice(s, a, b - a)) == s
  {
  }

  lemma FirstBehind(infos: seq<Info>, m: Info, x: seq<Ptr>, y: seq<Ptr>)
    requires Uniform(infos, m, x, false) && (y != [] ==> Matches(infos, m, y[0]))
    ensures First(infos, m, x + y) == |x|
  {
    if y != [] { assert (x + y)[|x|] == y[0]; }
  }

  lemma {:induction false} StaysIsPlaced(infos: seq<Info>, tcp: Info, rxm: Info, s: seq<Ptr>)
    requires Pick(infos, tcp, s, |s|, true) != [] && Reordered(infos, tcp, rxm, s) == s
    ensures exists a: nat, b: nat :: PlacedAt(infos, tcp, rxm, s, a, b)
  {
    var picked, rest := Pick(infos, tcp, s, |s|, true), Pick(infos, tcp, s, |s|, false);
    var k := First(infos, rxm, rest);
    PickedMatch(infos, tcp, s, true);
    PickedMatch(infos, tcp, s, false);
    assert s == Spliced(rest, k, picked);
    assert PlacedAt(infos, tcp, rxm, s, k, k + |picked|);
  }

  class InfoLists {
    const infos: seq<Info>
    var next: seq<Ptr>

    constructor (infos: seq<Info>, next: seq<Ptr>)
      ensures this.infos == infos && this.next == next
    {
      this.infos, this.next := infos, next;
    }

    /** `ofi_info_split`: the matching nodes become a list of their own; both keep their order. */
    method Split(info: Ptr, m: Info, ghost s: seq<Ptr>) returns (info': Ptr, list: Ptr, tail: Ptr)
      requires Chain(next, info, s)
      modifies `next
      ensures var picked, rest := Pick(infos, m, s, |s|, true), Pick(infos, m, s, |s|, false);
              && |next| == |old(next)| && Chain(next, info', rest) && Chain(next, list, picked)
              && tail == Nth(picked, |picked| - 1) && Separate(picked, rest)
    {
      info', list, tail := info, NULL, NULL;
      var prev, cur := NULL, info;
      ghost var n := 0;
      SplitStart(next, info, infos, m, s);
      while cur != NULL
        invariant Splitting(next, info', list, tail, prev, cur, infos, m, s, n) && |next| == |old(next)|
        decreases |s| - n
      {
        if !Matches(infos, m, cur) {
          SplitSkip(next, info', list, tail, prev, cur, infos, m, s, n);
          prev, cur := cur, next[cur];
        } else {
          SplitTake(old(next), info, next, info', list, tail, prev, cur, infos, m, s, n);
          var after := next[cur];
          if prev != NULL {
            next := next[prev := after];
          } else {
            info' := after;
          }
          if list != NULL {
            next := next[tail := cur];
          } else {
            list := cur;
          }
          tail := cur;
          next := next[tail := NULL];
          cur := after;
        }
        n := n + 1;
      }
      SplitEnd(old(next), info, next, info', list, tail, prev, infos, m, s, n);
    }

    /** `ofi_info_insert`: the list from `head` to `tail` goes before the first match, or to the end. */
    method Insert(info: Ptr, head: Ptr, tail: Ptr, m: Info, ghost s: seq<Ptr>, ghost t: seq<Ptr>) returns (info': Ptr)
      requires Chain(next, info, s) && Chain(next, head, t) && t != [] && tail == t[|t| - 1] && Separate(s, t)
      modifies `next
      ensures |next| == |old(next)| && Chain(next, info', Spliced(s, First(infos, m, s), t))
    {
      var prev, cur := NULL, info;
      ghost var k := 0;
      while cur != NULL && !Matches(infos, m, cur)
        invariant k <= |s| && prev == Nth(s, k - 1) && cur == Nth(s, k)
        invariant forall i :: 0 <= i < k ==> !Matches(infos, m, s[i])
        decreases |s| - k
      {
        assert next[s[k]] == Nth(s, k + 1);
        prev, cur, k := cur, next[cur], k + 1;
      }
      assert k == First(infos, m, s);
      ChainSplice(next, info, s, k, head, t);
      info' := info;
      if prev != NULL {
        next := next[prev := head];
        next := next[tail := cur];
      } else {
        next := next[tail := info];
        info' := head;
      }
    }

    /** `ofi_reorder_info` */
    method Reorder(info: Ptr, tcp: int, rxm: int, ghost s: seq<Ptr>) returns (info': Ptr)
      requires Chain(next, info, s) && tcp != rxm
      modifies `next
      ensures Chain(next, info', Reordered(infos, Info(tcp, Rdm), Info(rxm, Rdm), s))
    {
      var head, tail;
      info', head, tail := Split(info, Info(tcp, Rdm), s);
      if head == NULL {
        AllLeft(infos, Info(tcp, Rdm), s);
        return;
      }
      info' := Insert(info', head, tail, Info(rxm, Rdm),
                      Pick(infos, Info(tcp, Rdm), s, |s|, false), Pick(infos, Info(tcp, Rdm), s, |s|, true));
    }
  }

  lemma {:induction false} NoneLeft(infos: seq<Info>, m: Info, s: seq<Ptr>, n: nat)
    requires n <= |s| && Pick(infos, m, s, n, true) == []
    ensures Pick(infos, m, s, n, false) == s[..n]
  {
    if n > 0 { NoneLeft(infos, m, s, n - 1); }
  }

  lemma AllLeft(infos: seq<Info>, m: Info, s: seq<Ptr>)
    requires Pick(infos, m, s, |s|, true) == []
    ensures Pick(infos, m, s, |s|, false) == s
  {
    NoneLeft(infos, m, s, |s|);
    assert s[..|s|] == s;
  }
}
