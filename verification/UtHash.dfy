/**
 The intrusive hash table: every element sits on a doubly linked list in the
 order it was added and, through a second pair of links, on the chain of its
 bucket. Buckets double in number when a chain grows too long.
 */
module UtHash {
  import opened Bits
  import opened Links
  import opened UtHashGrowth
  import StableSort
  import UtHashSort

  datatype Bucket = Bucket(hhHead: Ptr, count: nat, expandMult: nat)

  /** The `hh_next`, `hh_prev` and `hashv` fields of all handles. */
  datatype Hh = Hh(hashv: seq<nat>, next: seq<Ptr>, prev: seq<Ptr>)

  ghost predicate HhShaped(m: Hh) {
    |m.hashv| == |m.next| == |m.prev|
  }

  /** HASH_TO_BKT of a handle among n buckets. */
  function Bkt(m: Hh, h: Ptr, n: nat): (b: nat)
    requires IsPow2(n) && 0 <= h < |m.hashv|
    ensures b < n
  {
    Slot(m.hashv[h], n)
  }

  ghost predicate ChainOk(m: Hh, b: Bucket, s: seq<Ptr>) {
    Linked(m.next, m.prev, b.hhHead, s) && b.count == |s|
  }

  /** Handle h is on the chain of its own bucket. */
  ghost predicate Filed(m: Hh, cs: seq<seq<Ptr>>, h: Ptr)
    requires HhShaped(m) && IsPow2(|cs|)
  {
    0 <= h < |m.hashv| && h in cs[Bkt(m, h, |cs|)]
  }

  /** The chain of bucket b holds only handles of hs that hash to b. */
  ghost predicate Homed(m: Hh, cs: seq<seq<Ptr>>, hs: set<Ptr>, b: nat)
    requires HhShaped(m) && IsPow2(|cs|) && b < |cs|
  {
    forall h :: h in cs[b] ==> h in hs && 0 <= h < |m.hashv| && Bkt(m, h, |cs|) == b
  }

  /** The buckets bs, whose chains are cs, hold exactly the handles hs, each in the bucket of its hash. */
  ghost predicate Filled(m: Hh, bs: seq<Bucket>, cs: seq<seq<Ptr>>, hs: set<Ptr>) {
    && HhShaped(m) && |bs| == |cs| && IsPow2(|bs|)
    && (forall b :: 0 <= b < |cs| ==> Homed(m, cs, hs, b))
    && (forall b :: 0 <= b < |cs| ==> ChainOk(m, bs[b], cs[b]))
    && (forall h :: h in hs ==> Filed(m, cs, h))
  }

  /** The delay factors of the buckets. */
  function Mults(bs: seq<Bucket>): (ms: seq<nat>) {
    seq(|bs|, b requires 0 <= b < |bs| => bs[b].expandMult)
  }

  /** HASH_ADD_TO_BKT, up to the expansion: h becomes the first of its chain. */
  function AddToBkt(m: Hh, bs: seq<Bucket>, b: nat, h: Ptr): (r: (Hh, seq<Bucket>))
    requires b < |bs| && HhShaped(m) && 0 <= h < |m.next|
    ensures HhShaped(r.0) && |r.1| == |bs| && r.0.hashv == m.hashv && Mults(r.1) == Mults(bs)
  {
    var old_ := bs[b].hhHead;
    (m.(next := m.next[h := old_], prev := Store(m.prev[h := NULL], old_, h)),
     bs[b := bs[b].(hhHead := h, count := bs[b].count + 1)])
  }

  lemma FilledAdd(m: Hh, bs: seq<Bucket>, cs: seq<seq<Ptr>>, hs: set<Ptr>, h: Ptr)
    requires Filled(m, bs, cs, hs) && h !in hs && 0 <= h < |m.hashv|
    ensures var b := Bkt(m, h, |bs|);
            var r := AddToBkt(m, bs, b, h);
            Filled(r.0, r.1, cs[b := [h] + cs[b]], hs + {h})
  {
    var b := Bkt(m, h, |bs|);
    var (m', bs') := AddToBkt(m, bs, b, h);
    var cs', hs' := cs[b := [h] + cs[b]], hs + {h};
    assert Homed(m, cs, hs, b) && ChainOk(m, bs[b], cs[b]);
    forall c | 0 <= c < |cs'| ensures Homed(m', cs', hs', c) && ChainOk(m', bs'[c], cs'[c]) {
      assert Homed(m, cs, hs, c) && ChainOk(m, bs[c], cs[c]);
      if c == b {
        PushFront(m.next, m.prev, bs[b].hhHead, cs[b], h);
      } else {
        assert bs[b].hhHead != NULL ==> bs[b].hhHead in cs[b];
        Untouched(m.next, m.prev, m'.next, m'.prev, bs[c].hhHead, cs[c]);
      }
    }
    forall x | x in hs' ensures Filed(m', cs', x) {
      if x in hs { assert Filed(m, cs, x); }
    }
  }

  /** HASH_DEL_IN_BKT */
  function DelInBkt(m: Hh, bs: seq<Bucket>, b: nat, h: Ptr): (r: (Hh, seq<Bucket>))
    requires b < |bs| && bs[b].count > 0 && HhShaped(m) && 0 <= h < |m.next|
    ensures HhShaped(r.0) && |r.1| == |bs| && r.0.hashv == m.hashv && Mults(r.1) == Mults(bs)
  {
    var n, p := m.next[h], m.prev[h];
    (m.(next := Store(m.next, p, n), prev := Store(m.prev, n, p)),
     bs[b := bs[b].(hhHead := if bs[b].hhHead == h then n else bs[b].hhHead, count := bs[b].count - 1)])
  }

  lemma FilledDel(m: Hh, bs: seq<Bucket>, cs: seq<seq<Ptr>>, hs: set<Ptr>, h: Ptr, j: nat)
    requires Filled(m, bs, cs, hs) && h in hs && Filed(m, cs, h)
    requires var b := Bkt(m, h, |bs|); j < |cs[b]| && cs[b][j] == h
    ensures var b := Bkt(m, h, |bs|);
            bs[b].count > 0 &&
            var r := DelInBkt(m, bs, b, h);
            Filled(r.0, r.1, cs[b := Without(cs[b], j)], hs - {h})
  {
    var b := Bkt(m, h, |bs|);
    assert Homed(m, cs, hs, b) && ChainOk(m, bs[b], cs[b]);
    var (m', bs') := DelInBkt(m, bs, b, h);
    var cs', hs' := cs[b := Without(cs[b], j)], hs - {h};
    assert m.next[cs[b][j]] == Nth(cs[b], j + 1) && m.prev[cs[b][j]] == Nth(cs[b], j - 1);
    BackwardDistinct(m.prev, cs[b]);
    WithoutAt(cs[b], j);
    forall c | 0 <= c < |cs'| ensures Homed(m', cs', hs', c) && ChainOk(m', bs'[c], cs'[c]) {
      assert Homed(m, cs, hs, c) && ChainOk(m, bs[c], cs[c]);
      if c == b {
        Unlink(m.next, m.prev, bs[b].hhHead, cs[b], j);
      } else {
        Untouched(m.next, m.prev, m'.next, m'.prev, bs[c].hhHead, cs[c]);
      }
    }
    forall x | x in hs' ensures Filed(m', cs', x) {
      assert Filed(m, cs, x);
      if Bkt(m, x, |cs|) == b { StillIn(cs[b], j, x); }
    }
  }

  lemma StillIn(s: seq<Ptr>, j: nat, x: Ptr)
    requires j < |s| && x in s && x != s[j]
    ensures x in Without(s, j)
  {
    var i :| 0 <= i < |s| && s[i] == x;
    assert x == Without(s, j)[if i < j then i else i - 1];
  }

  /** Number of handles over all chains. */
  ghost function Total(cs: seq<seq<Ptr>>): (n: nat) {
    if cs == [] then 0 else Total(cs[..|cs| - 1]) + |cs[|cs| - 1]|
  }

  /** Number of handles beyond the ideal length of their chain. */
  ghost function Excess(cs: seq<seq<Ptr>>, ideal: nat): (n: nat) {
    if cs == [] then 0 else Excess(cs[..|cs| - 1], ideal) + Over(|cs[|cs| - 1]|, ideal)
  }

  lemma {:induction false} SumsAt(cs: seq<seq<Ptr>>, b: nat, c: seq<Ptr>, ideal: nat)
    requires b < |cs|
    ensures Total(cs[b := c]) == Total(cs) - |cs[b]| + |c|
    ensures Excess(cs[b := c], ideal) == Excess(cs, ideal) - Over(|cs[b]|, ideal) + Over(|c|, ideal)
  {
    var n := |cs| - 1;
    if b == n {
      assert cs[b := c][..n] == cs[..n];
    } else {
      SumsAt(cs[..n], b, c, ideal);
      assert cs[b := c][..n] == cs[..n][b := c];
    }
  }

  ghost function Empties(n: nat): (cs: seq<seq<Ptr>>)
    ensures |cs| == n && forall b :: 0 <= b < n ==> cs[b] == []
  {
    seq(n, _ => [])
  }

  lemma {:induction false} SumsOfEmpties(n: nat, ideal: nat)
    ensures Total(Empties(n)) == 0 && Excess(Empties(n), ideal) == 0
  {
    if n > 0 {
      SumsOfEmpties(n - 1, ideal);
      assert Empties(n)[..n - 1] == Empties(n - 1);
    }
  }

  ghost function Elems(s: seq<Ptr>): (hs: set<Ptr>) {
    set p | p in s
  }

  /** `(n >> k) + ((n & (2^k - 1)) != 0)` */
  method ShiftCeil(n: nat, k: nat) returns (c: nat)
    ensures IsCeil(c, n, Pow2(k)) && (n > 0 ==> c > 0)
  {
    AndMask(n, k);
    DivisionEquation(n, Pow2(k));
    c := Div(n, Pow2(k)) + if And(n, Pow2(k) - 1) != 0 then 1 else 0;
    forall d: nat ensures Suffices(d, Pow2(k), n) <==> d >= c { CeilCut(c, d, n, Pow2(k)); }
  }

  lemma CeilCut(c: nat, d: nat, n: nat, b: nat)
    requires b > 0 && c == n / b + (if n % b != 0 then 1 else 0)
    ensures d * b >= n <==> d >= c
  {
    DivisionEquation(n, b);
    if d >= c {
      NonPositive(c - d, b);
    } else {
      NonPositive(d + 1 - c, b);
    }
  }

  /** m is the plain map from key to handle of the elements of s. */
  ghost predicate Maps<K>(key: seq<K>, s: seq<Ptr>, m: map<K, Ptr>)
    requires InRange(s, |key|)
  {
    && (forall p :: p in s ==> key[p] in m && m[key[p]] == p)
    && (forall k :: k in m ==> m[k] in s && key[m[k]] == k)
  }

  /** The counters of freshly filled buckets: how many handles sit beyond the ideal, and each delay factor. */
  ghost predicate Tally(bs: seq<Bucket>, cs: seq<seq<Ptr>>, ideal: nat, nonideal: nat) {
    && ideal > 0 && |bs| == |cs| && nonideal == Excess(cs, ideal)
    && (forall b :: 0 <= b < |bs| ==> bs[b].expandMult == Multiplier(|cs[b]|, ideal))
  }

  /** Zeroed buckets. */
  function NewBuckets(n: nat): (bs: seq<Bucket>)
    ensures |bs| == n && forall b :: 0 <= b < n ==> bs[b] == Bucket(NULL, 0, 0)
  {
    seq(n, _ => Bucket(NULL, 0, 0))
  }

  lemma FilledEmpty(m: Hh, k: nat, ideal: nat)
    requires HhShaped(m) && ideal > 0
    ensures var n := Pow2(k);
            && Filled(m, NewBuckets(n), Empties(n), {}) && Total(Empties(n)) == 0
            && Tally(NewBuckets(n), Empties(n), ideal, 0)
  {
    var n := Pow2(k);
    SumsOfEmpties(n, ideal);
    forall b | 0 <= b < n ensures Homed(m, Empties(n), {}, b) && ChainOk(m, NewBuckets(n)[b], Empties(n)[b]) {
    }
  }

  /** Delay factors play no part in where handles are. */
  lemma FilledMult(m: Hh, bs: seq<Bucket>, cs: seq<seq<Ptr>>, hs: set<Ptr>, b: nat, x: nat)
    requires Filled(m, bs, cs, hs) && b < |bs|
    ensures Filled(m, bs[b := bs[b].(expandMult := x)], cs, hs)
  {
    var bs' := bs[b := bs[b].(expandMult := x)];
    forall c | 0 <= c < |cs| ensures ChainOk(m, bs'[c], cs[c]) { assert ChainOk(m, bs[c], cs[c]); }
  }

  /** The handles of hs whose old bucket is below i. */
  ghost function Below(m: Hh, hs: set<Ptr>, n: nat, i: nat): (r: set<Ptr>)
    requires IsPow2(n) && forall h :: h in hs ==> 0 <= h < |m.hashv|
  {
    set h | h in hs && Bkt(m, h, n) < i
  }

  lemma BelowNext(m: Hh, bs: seq<Bucket>, cs: seq<seq<Ptr>>, hs: set<Ptr>, i: nat)
    requires Filled(m, bs, cs, hs) && i < |cs| && forall h :: h in hs ==> 0 <= h < |m.hashv|
    ensures Below(m, hs, |cs|, i + 1) == Below(m, hs, |cs|, i) + Elems(cs[i])
    ensures forall h :: h in cs[i] ==> h !in Below(m, hs, |cs|, i)
  {
    assert Homed(m, cs, hs, i);
    forall h | h in hs && Bkt(m, h, |cs|) == i ensures h in cs[i] { assert Filed(m, cs, h); }
  }

  lemma InMemory(m: Hh, bs: seq<Bucket>, cs: seq<seq<Ptr>>, hs: set<Ptr>)
    requires Filled(m, bs, cs, hs)
    ensures forall h :: h in hs ==> 0 <= h < |m.hashv|
  {
    forall h | h in hs ensures 0 <= h < |m.hashv| { assert Filed(m, cs, h); }
  }

  lemma FilledHash(m: Hh, bs: seq<Bucket>, cs: seq<seq<Ptr>>, hs: set<Ptr>, p: Ptr, v: nat)
    requires Filled(m, bs, cs, hs) && p !in hs && 0 <= p < |m.hashv|
    ensures Filled(m.(hashv := m.hashv[p := v]), bs, cs, hs)
  {
    var m' := m.(hashv := m.hashv[p := v]);
    forall b | 0 <= b < |cs| ensures Homed(m', cs, hs, b) && ChainOk(m', bs[b], cs[b]) {
      assert Homed(m, cs, hs, b) && ChainOk(m, bs[b], cs[b]);
    }
    forall h | h in hs ensures Filed(m', cs, h) { assert Filed(m, cs, h); }
  }

  /** Deleting an element takes its key out of the map and changes nothing else. */
  lemma MapsWithout<K>(key: seq<K>, prev: seq<Ptr>, s: seq<Ptr>, m: map<K, Ptr>, j: nat)
    requires InRange(s, |key|) && Maps(key, s, m) && Backward(prev, s) && j < |s|
    ensures InRange(Without(s, j), |key|) && Maps(key, Without(s, j), m - {key[s[j]]})
  {
    BackwardDistinct(prev, s);
    WithoutAt(s, j);
    forall k | k in m && k != key[s[j]] ensures m[k] in Without(s, j) { StillIn(s, j, m[k]); }
  }

  lemma ElemsWithout(s: seq<Ptr>, j: nat)
    requires Distinct(s) && j < |s|
    ensures Elems(Without(s, j)) == Elems(s) - {s[j]}
  {
    WithoutAt(s, j);
    forall x | x in s && x != s[j] ensures x in Without(s, j) { StillIn(s, j, x); }
  }

  lemma SameElems(s: seq<Ptr>, t: seq<Ptr>)
    requires multiset(s) == multiset(t)
    ensures |s| == |t| && Elems(s) == Elems(t) && forall x :: x in s <==> x in t
  {
    assert |s| == |multiset(s)| && |t| == |multiset(t)|;
    forall x ensures x in s <==> x in t {
      assert x in s <==> x in multiset(s);
      assert x in t <==> x in multiset(t);
    }
  }

  lemma PutBack<K>(m: map<K, Ptr>, k: K, p: Ptr)
    ensures (m - {k})[k := p] == m[k := p]
  {
  }

  /** The keys of handles that a map tells apart are as many as the handles. */
  lemma {:induction false} KeysCount<K>(key: seq<K>, m: map<K, Ptr>, c: seq<Ptr>)
    requires Distinct(c) && InRange(c, |key|) && (forall p :: p in c ==> key[p] in m && m[key[p]] == p)
    ensures |set p | p in c :: key[p]| == |c|
  {
    if c != [] {
      var i := |c| - 1;
      KeysCount(key, m, c[..i]);
      var ks := set p | p in c[..i] :: key[p];
      assert c == c[..i] + [c[i]];
      assert (set p | p in c :: key[p]) == ks + {key[c[i]]};
      assert key[c[i]] !in ks;
    }
  }

  /** Excess over the chains is Beyond over the keys, when each chain is as long as its bucket's share of the keys. */
  lemma {:induction false} ExcessIs<K>(hash: K -> nat, m: map<K, Ptr>, cs: seq<seq<Ptr>>, ideal: nat, j: nat)
    requires j <= |cs| && forall b :: 0 <= b < |cs| ==> |cs[b]| == Load(hash, m, |cs|, b)
    ensures |cs| > 0 ==> Excess(cs[..j], ideal) == Beyond(hash, m, |cs|, ideal, j)
  {
    if j > 0 {
      ExcessIs(hash, m, cs, ideal, j - 1);
      assert cs[..j][..j - 1] == cs[..j - 1];
    }
  }

  /** One more element, filed at the head of the chain of its bucket. */
  lemma FilledNext(m: Hh, bs: seq<Bucket>, cs: seq<seq<Ptr>>, before: seq<Ptr>, p: Ptr)
    requires Filled(m, bs, cs, Elems(before)) && p !in before && 0 <= p < |m.hashv|
    ensures var b := Bkt(m, p, |bs|);
            var r := AddToBkt(m, bs, b, p);
            var cs' := cs[b := [p] + cs[b]];
            Filled(r.0, r.1, cs', Elems(before + [p])) && Total(cs') == Total(cs) + 1
  {
    var b := Bkt(m, p, |bs|);
    FilledAdd(m, bs, cs, Elems(before), p);
    SumsAt(cs, b, [p] + cs[b], 0);
    assert Elems(before) + {p} == Elems(before + [p]);
  }

  /** The j-th element, taken off the chain of its bucket, where it is the i-th. */
  lemma FilledGone(m: Hh, bs: seq<Bucket>, cs: seq<seq<Ptr>>, s: seq<Ptr>, j: nat, i: nat)
    requires Filled(m, bs, cs, Elems(s)) && Distinct(s) && j < |s| && Filed(m, cs, s[j])
    requires var b := Bkt(m, s[j], |bs|); i < |cs[b]| && cs[b][i] == s[j]
    ensures var b := Bkt(m, s[j], |bs|);
            var cs' := cs[b := Without(cs[b], i)];
            bs[b].count > 0 &&
            var r := DelInBkt(m, bs, b, s[j]);
            Filled(r.0, r.1, cs', Elems(Without(s, j))) && Total(cs') == Total(cs) - 1
  {
    var b := Bkt(m, s[j], |bs|);
    FilledDel(m, bs, cs, Elems(s), s[j], i);
    SumsAt(cs, b, Without(cs[b], i), 0);
    ElemsWithout(s, j);
  }

  class Table<K(==)> {
    const hash: K -> nat
    var key: seq<K>
    var next: seq<Ptr>
    var prev: seq<Ptr>
    var hh: Hh
    var head: Ptr
    var tail: Ptr
    var buckets: seq<Bucket>
    var numBuckets: nat
    var log2NumBuckets: nat
    var numItems: nat
    var idealChainMaxlen: nat
    var nonidealItems: nat
    var ineffExpands: nat
    var noexpand: bool
    ghost var order: seq<Ptr>
    ghost var chains: seq<seq<Ptr>>
    ghost var model: map<K, Ptr>

    /** Buckets and counters are those of a table that holds the elements of s. */
    ghost predicate Tabled(s: seq<Ptr>)
      reads `numBuckets, `buckets, `log2NumBuckets, `numItems, `chains, `hh
    {
      && numBuckets == |buckets| == Pow2(log2NumBuckets)
      && numItems == |s| == Total(chains)
      && Filled(hh, buckets, chains, Elems(s))
    }

    /** The list in insertion order. */
    ghost predicate Ordered()
      reads `key, `next, `prev, `head, `tail, `order, `model
    {
      && |key| == |next| == |prev|
      && Linked(next, prev, head, order) && (order != [] ==> tail == order[|order| - 1])
      && Maps(key, order, model)
    }

    ghost predicate Hashed()
      reads `key, `hh, `order
    {
      && |hh.hashv| == |key| && HhShaped(hh)
      && (forall p :: p in order ==> 0 <= p < |key| && hh.hashv[p] == hash(key[p]))
    }

    ghost predicate Valid()
      reads this
    {
      Ordered() && Hashed() && (order != [] ==> Tabled(order))
    }

    /** What the table keeps about its buckets besides the elements in them. */
    ghost function Kept(): (s: Shape)
      reads `log2NumBuckets, `buckets, `idealChainMaxlen, `nonidealItems, `ineffExpands, `noexpand
    {
      Shape(log2NumBuckets, Mults(buckets), idealChainMaxlen, nonidealItems, ineffExpands, noexpand)
    }

    ghost function ShapeNow(): (s: Shape)
      reads `log2NumBuckets, `buckets, `idealChainMaxlen, `nonidealItems, `ineffExpands, `noexpand, `order
    {
      if order == [] then Fresh() else Kept()
    }

    /** An empty table over a memory of handles. */
    constructor (hash: K -> nat, handles: seq<K>)
      ensures Valid() && model == map[] && order == [] && this.hash == hash && |key| == |handles|
    {
      this.hash, key := hash, handles;
      next, prev := seq(|handles|, _ => NULL), seq(|handles|, _ => NULL);
      hh := Hh(seq(|handles|, _ => 0), seq(|handles|, _ => NULL), seq(|handles|, _ => NULL));
      head, tail, buckets, noexpand := NULL, NULL, [], false;
      numBuckets, log2NumBuckets, numItems, idealChainMaxlen, nonidealItems, ineffExpands := 0, 0, 0, 0, 0, 0;
      order, chains, model := [], [], map[];
    }

    /** HASH_FIND: agrees with the plain map, in both directions. */
    method Find(k: K) returns (out: Ptr)
      requires Valid()
      ensures out == NULL <==> k !in model
      ensures out != NULL ==> model[k] == out
    {
      out := NULL;
      if head != NULL {
        var hashval := hash(k);
        var b := Slot(hashval, numBuckets);
        ghost var c := chains[b];
        assert ChainOk(hh, buckets[b], c) && Homed(hh, chains, Elems(order), b);
        ghost var j := 0;
        out := buckets[b].hhHead;
        while out != NULL
          invariant 0 <= j <= |c| && out == Nth(c, j)
          invariant forall i :: 0 <= i < j ==> key[c[i]] != k
          decreases |c| - j
        {
          assert out in c && out in Elems(order);
          if hh.hashv[out] == hashval && key[out] == k {
            break;
          }
          out := hh.next[out];
          j := j + 1;
        }
        assert out == NULL ==> j == |c|;
      }
      MissOrHit(k, out);
    }

    /** Every element is on the chain its key leads to. */
    lemma FiledByKey()
      requires Valid()
      ensures forall p :: p in order ==> p in chains[Slot(hash(key[p]), numBuckets)]
    {
      forall p | p in order ensures p in chains[Slot(hash(key[p]), numBuckets)] {
        assert p in Elems(order) && Filed(hh, chains, p);
      }
    }

    lemma MissOrHit(k: K, out: Ptr)
      requires Valid()
      requires out != NULL ==> out in order && key[out] == k
      requires out == NULL && order != [] ==> forall p :: p in chains[Slot(hash(k), numBuckets)] ==> key[p] != k
      ensures out == NULL <==> k !in model
      ensures out != NULL ==> model[k] == out
    {
      FiledByKey();
    }

    /** A chain is as long as there are keys in the map that fall into its bucket. */
    lemma LoadIs(b: nat)
      requires Valid() && order != [] && b < numBuckets
      ensures buckets[b].count == |chains[b]| == Load(hash, model, numBuckets, b)
    {
      var c := chains[b];
      assert ChainOk(hh, buckets[b], c) && Homed(hh, chains, Elems(order), b);
      BackwardDistinct(hh.prev, c);
      KeysCount(key, model, c);
      var ks := set k | k in model && hash(k) % numBuckets == b;
      forall k | k in ks ensures k in set p | p in c :: key[p] {
        assert model[k] in Elems(order) && Filed(hh, chains, model[k]);
      }
      assert ks == set p | p in c :: key[p];
    }

    lemma SizeIs()
      requires Valid()
      ensures |order| == |model|
    {
      BackwardDistinct(prev, order);
      KeysCount(key, model, order);
      assert model.Keys == set p | p in order :: key[p];
    }

    lemma EmptyIs()
      requires Ordered()
      ensures order == [] <==> model.Keys == {}
    {
      if order != [] { assert key[order[0]] in model.Keys; }
    }

    lemma NewIs(p: Ptr)
      requires Ordered() && p !in model.Values
      ensures p !in order
    {
    }

    /** The statistics of freshly filled buckets, in terms of the keys alone. */
    lemma TallyIs()
      requires Valid() && order != [] && Tally(buckets, chains, idealChainMaxlen, nonidealItems)
      ensures nonidealItems == Beyond(hash, model, numBuckets, idealChainMaxlen, numBuckets)
      ensures forall b :: 0 <= b < numBuckets ==>
                Mults(buckets)[b] == Multiplier(Load(hash, model, numBuckets, b), idealChainMaxlen)
    {
      forall b | 0 <= b < numBuckets ensures |chains[b]| == Load(hash, model, numBuckets, b) { LoadIs(b); }
      ExcessIs(hash, model, chains, idealChainMaxlen, numBuckets);
      assert chains[..numBuckets] == chains;
    }

    /** The body of the redistribution loop of HASH_EXPAND_BUCKETS: one handle moves to its new bucket. */
    method Rehome(newBuckets: seq<Bucket>, thh: Ptr, ghost cs: seq<seq<Ptr>>, ghost moved: set<Ptr>)
      returns (bs: seq<Bucket>, ghost cs': seq<seq<Ptr>>)
      requires Filled(hh, newBuckets, cs, moved) && 0 <= thh < |hh.hashv| && thh !in moved
      requires Tally(newBuckets, cs, idealChainMaxlen, nonidealItems)
      modifies `hh, `nonidealItems
      ensures |bs| == |newBuckets| && Filled(hh, bs, cs', moved + {thh})
      ensures Tally(bs, cs', idealChainMaxlen, nonidealItems) && Total(cs') == Total(cs) + 1
      ensures hh.hashv == old(hh.hashv)
      ensures forall p :: 0 <= p < |hh.next| && p != thh ==> hh.next[p] == old(hh.next[p])
    {
      bs := newBuckets;
      var b := Slot(hh.hashv[thh], |bs|);
      FilledAdd(hh, bs, cs, moved, thh);
      cs' := cs[b := [thh] + cs[b]];
      SumsAt(cs, b, cs'[b], idealChainMaxlen);
      assert ChainOk(hh, bs[b], cs[b]);
      var count := bs[b].count + 1;
      var mult := bs[b].expandMult;
      if count > idealChainMaxlen {
        nonidealItems := nonidealItems + 1;
        mult := Div(count, idealChainMaxlen);
      }
      var oldHead := bs[b].hhHead;
      hh := hh.(next := hh.next[thh := oldHead], prev := Store(hh.prev[thh := NULL], oldHead, thh));
      bs := bs[b := Bucket(thh, count, mult)];
      FilledMult(hh, AddToBkt(old(hh), newBuckets, b, thh).1, cs', moved + {thh}, b, mult);
    }

    /** All handles of one old chain move; m is the memory before the expansion. */
    method RehomeChain(newBuckets: seq<Bucket>, i: nat, ghost m: Hh, ghost cs: seq<seq<Ptr>>, ghost moved: set<Ptr>)
      returns (bs: seq<Bucket>, ghost cs': seq<seq<Ptr>>)
      requires i < |buckets| && |chains| == |buckets| && ChainOk(m, buckets[i], chains[i])
      requires Filled(hh, newBuckets, cs, moved) && HhShaped(m) && hh.hashv == m.hashv
      requires Tally(newBuckets, cs, idealChainMaxlen, nonidealItems)
      requires forall p :: p in chains[i] ==> p !in moved
      requires forall p :: 0 <= p < |m.next| && p !in moved ==> hh.next[p] == m.next[p]
      modifies `hh, `nonidealItems
      ensures |bs| == |newBuckets| && Filled(hh, bs, cs', moved + Elems(chains[i])) && hh.hashv == m.hashv
      ensures Tally(bs, cs', idealChainMaxlen, nonidealItems) && Total(cs') == Total(cs) + |chains[i]|
      ensures forall p :: 0 <= p < |m.next| && p !in moved + Elems(chains[i]) ==> hh.next[p] == m.next[p]
    {
      bs, cs' := newBuckets, cs;
      ghost var c, j := chains[i], 0;
      BackwardDistinct(m.prev, c);
      var thh := buckets[i].hhHead;
      assert c[..0] == [] && moved + Elems(c[..0]) == moved;
      while thh != NULL
        invariant 0 <= j <= |c| && thh == Nth(c, j) && |bs| == |newBuckets|
        invariant Filled(hh, bs, cs', moved + Elems(c[..j])) && hh.hashv == m.hashv
        invariant Tally(bs, cs', idealChainMaxlen, nonidealItems) && Total(cs') == Total(cs) + j
        invariant forall p :: 0 <= p < |m.next| && p !in moved + Elems(c[..j]) ==> hh.next[p] == m.next[p]
        decreases |c| - j
      {
        assert thh == c[j] && thh !in c[..j];
        var nxt := hh.next[thh];
        assert nxt == m.next[c[j]];
        bs, cs' := Rehome(bs, thh, cs', moved + Elems(c[..j]));
        thh := nxt;
        assert c[..j + 1] == c[..j] + [c[j]];
        assert moved + Elems(c[..j]) + {c[j]} == moved + Elems(c[..j + 1]);
        j := j + 1;
      }
      assert c[..j] == c;
    }

    /** The double loop of HASH_EXPAND_BUCKETS over all old buckets, into n fresh ones. */
    method Redistribute(n: nat, ghost k: nat) returns (bs: seq<Bucket>, ghost cs: seq<seq<Ptr>>)
      requires Filled(hh, buckets, chains, Elems(order)) && numBuckets == |buckets|
      requires n == Pow2(k) && idealChainMaxlen > 0
      modifies `hh, `nonidealItems
      ensures |bs| == n && Filled(hh, bs, cs, Elems(order)) && hh.hashv == old(hh.hashv)
      ensures Tally(bs, cs, idealChainMaxlen, nonidealItems) && Total(cs) == Total(chains)
    {
      bs, cs := NewBuckets(n), Empties(n);
      nonidealItems := 0;
      FilledEmpty(hh, k, idealChainMaxlen);
      ghost var m, hs := hh, Elems(order);
      InMemory(hh, buckets, chains, hs);
      assert Below(m, hs, |buckets|, 0) == {};
      for i := 0 to numBuckets
        invariant |bs| == n && Filled(hh, bs, cs, Below(m, hs, |buckets|, i)) && hh.hashv == m.hashv
        invariant Tally(bs, cs, idealChainMaxlen, nonidealItems) && Total(cs) == Total(chains[..i])
        invariant forall p :: 0 <= p < |m.next| && p !in Below(m, hs, |buckets|, i) ==> hh.next[p] == m.next[p]
      {
        BelowNext(m, buckets, chains, hs, i);
        assert ChainOk(m, buckets[i], chains[i]);
        bs, cs := RehomeChain(bs, i, m, cs, Below(m, hs, |buckets|, i));
        assert chains[..i + 1][..i] == chains[..i];
      }
      assert Below(m, hs, |buckets|, |buckets|) == hs;
      assert chains[..|buckets|] == chains;
    }

    /** HASH_EXPAND_BUCKETS from the fresh buckets to the switch over to them. */
    method DoubleBuckets()
      requires Tabled(order) && idealChainMaxlen > 0
      modifies `hh, `buckets, `numBuckets, `log2NumBuckets, `nonidealItems, `chains
      ensures Tabled(order) && hh.hashv == old(hh.hashv) && log2NumBuckets == old(log2NumBuckets) + 1
      ensures Tally(buckets, chains, idealChainMaxlen, nonidealItems)
    {
      var bs; ghost var cs;
      bs, cs := Redistribute(2 * numBuckets, log2NumBuckets + 1);
      numBuckets := numBuckets * 2;
      log2NumBuckets := log2NumBuckets + 1;
      buckets, chains := bs, cs;
    }

    /** HASH_EXPAND_BUCKETS: twice the buckets, every element found as before, exact statistics. */
    method ExpandBuckets()
      requires Tabled(order) && numItems > 0
      modifies `hh, `buckets, `numBuckets, `log2NumBuckets, `idealChainMaxlen, `nonidealItems, `ineffExpands
      modifies `noexpand, `chains
      ensures Tabled(order) && hh.hashv == old(hh.hashv) && log2NumBuckets == old(log2NumBuckets) + 1
      ensures IsCeil(idealChainMaxlen, numItems, numBuckets) && Tally(buckets, chains, idealChainMaxlen, nonidealItems)
      ensures ineffExpands == if nonidealItems > numItems / 2 then old(ineffExpands) + 1 else 0
      ensures noexpand == (old(noexpand) || ineffExpands > 1)
    {
      idealChainMaxlen := ShiftCeil(numItems, log2NumBuckets + 1);
      DoubleBuckets();
      ineffExpands := if nonidealItems > numItems / 2 then ineffExpands + 1 else 0;
      if ineffExpands > 1 {
        noexpand := true;
      }
    }

    /** HASH_ADD_TO_TABLE and HASH_ADD_TO_BKT, up to the expansion, of an element already appended to the list. */
    method FileHandle(p: Ptr, ghost before: seq<Ptr>) returns (b: nat)
      requires order == before + [p] && p !in before && 0 <= p < |hh.hashv| && Tabled(before)
      modifies `hh, `buckets, `numItems, `chains
      ensures Tabled(order) && hh.hashv == old(hh.hashv) && b == Bkt(hh, p, numBuckets)
      ensures buckets[b] == old(buckets[b]).(hhHead := p, count := old(buckets[b]).count + 1)
      ensures Kept() == old(Kept())
    {
      numItems := numItems + 1;
      b := Slot(hh.hashv[p], numBuckets);
      FilledNext(hh, buckets, chains, before, p);
      var (m, bs) := AddToBkt(hh, buckets, b, p);
      hh, buckets := m, bs;
      chains := chains[b := [p] + chains[b]];
    }

    /** HASH_EXPAND_BUCKETS as seen from the keys. */
    method Expand()
      requires Valid() && order != [] && !noexpand
      modifies `hh, `buckets, `numBuckets, `log2NumBuckets, `idealChainMaxlen, `nonidealItems, `ineffExpands
      modifies `noexpand, `chains
      ensures Valid() && hh.hashv == old(hh.hashv)
      ensures Doubled(hash, model, old(Kept()), Kept())
    {
      ExpandBuckets();
      TallyIs();
      SizeIs();
    }

    /** The bucket of the new element now counts every key that falls into it. */
    method FileByKey(p: Ptr, ghost before: seq<Ptr>) returns (b: nat)
      requires order == before + [p] && p !in before && 0 <= p < |hh.hashv| && Tabled(before) && Hashed() && Ordered()
      modifies `hh, `buckets, `numItems, `chains
      ensures Valid() && hh.hashv == old(hh.hashv) && Kept() == old(Kept())
      ensures b == hash(key[p]) % numBuckets && b < |buckets|
      ensures buckets[b].count == Load(hash, model, numBuckets, b)
    {
      b := FileHandle(p, before);
      LoadIs(b);
    }

    /**
     HASH_ADD_TO_TABLE, with the expansion when the chain has grown too long: the shape changes only by a
     doubling, and the table doubles exactly when the keys in the new one's bucket call for it.
     */
    method AddToTable(p: Ptr, ghost before: seq<Ptr>) returns (b: nat)
      requires order == before + [p] && p !in before && 0 <= p < |hh.hashv| && Tabled(before) && Hashed() && Ordered()
      modifies `hh, `buckets, `numBuckets, `log2NumBuckets, `numItems, `idealChainMaxlen, `nonidealItems
      modifies `ineffExpands, `noexpand, `chains
      ensures Valid() && hh.hashv == old(hh.hashv)
      ensures b == hash(key[p]) % old(numBuckets)
      ensures Added(hash, model, key[p], old(Kept()), Kept())
    {
      b := FileByKey(p, before);
      if buckets[b].count >= (buckets[b].expandMult + 1) * BKT_CAPACITY_THRESH && !noexpand {
        Expand();
      }
    }

    /** HASH_MAKE_TABLE for the first element. */
    method MakeTable(p: Ptr)
      requires HhShaped(hh)
      modifies `tail, `buckets, `numBuckets, `log2NumBuckets, `numItems, `idealChainMaxlen, `nonidealItems
      modifies `ineffExpands, `noexpand, `chains
      ensures tail == p && numBuckets == |buckets| == Pow2(log2NumBuckets) == INITIAL_NUM_BUCKETS
      ensures buckets == NewBuckets(INITIAL_NUM_BUCKETS)
      ensures numItems == 0 == Total(chains) && Filled(hh, buckets, chains, {}) && Kept() == Fresh()
    {
      tail := p;
      numBuckets, log2NumBuckets := INITIAL_NUM_BUCKETS, INITIAL_NUM_BUCKETS_LOG2;
      buckets, chains := NewBuckets(INITIAL_NUM_BUCKETS), Empties(INITIAL_NUM_BUCKETS);
      numItems, idealChainMaxlen, nonidealItems, ineffExpands, noexpand := 0, 0, 0, 0, false;
      assert Pow2(5) == 32 by { assert Pow2(2) == 4; assert Pow2(4) == 16; }
      FilledEmpty(hh, 5, 1);
    }

    /** HASH_APPEND_LIST, or the links of the very first element. */
    method Enlist(p: Ptr, k: K)
      requires Linked(next, prev, head, order) && |next| == |key| && 0 <= p < |next| && p !in order
      requires (order != [] ==> tail == order[|order| - 1]) && Maps(key, order + [p], model[k := p])
      modifies `next, `prev, `head, `tail, `order, `model
      ensures Ordered() && order == old(order) + [p] && model == old(model)[k := p]
    {
      if head == NULL {
        Singleton(next, prev, p);
        assert order + [p] == [p];
        next, prev := next[p := NULL], prev[p := NULL];
        head := p;
      } else {
        Append(next, prev, head, order, p);
        next, prev := next[p := NULL], prev[p := tail];
        next := next[tail := p];
      }
      tail := p;
      order, model := order + [p], model[k := p];
    }

    /** The start of HASH_ADD: key and hash of the new element are set. */
    method SetKey(p: Ptr, k: K)
      requires Valid() && 0 <= p < |key| && p !in order && k !in model
      modifies `key, `hh
      ensures key == old(key)[p := k] && hh == old(hh).(hashv := old(hh).hashv[p := hash(k)])
      ensures Maps(key, order + [p], model[k := p]) && (order != [] ==> Tabled(order))
    {
      if order != [] { FilledHash(hh, buckets, chains, Elems(order), p, hash(k)); }
      key := key[p := k];
      hh := hh.(hashv := hh.hashv[p := hash(k)]);
    }

    /** There is a table to add to. */
    method NeedTable(p: Ptr)
      requires HhShaped(hh) && (head == NULL <==> order == [])
      requires order != [] ==> Tabled(order)
      modifies `tail, `buckets, `numBuckets, `log2NumBuckets, `numItems, `idealChainMaxlen, `nonidealItems
      modifies `ineffExpands, `noexpand, `chains
      ensures Tabled(order) && (order != [] ==> tail == old(tail)) && Kept() == old(ShapeNow())
    {
      if head == NULL {
        MakeTable(p);
        assert Elems(order) == {};
      }
    }

    /** HASH_ADD up to the links of the list. */
    method Prepare(p: Ptr, k: K)
      requires Valid() && 0 <= p < |key| && p !in order && k !in model
      modifies `key, `hh, `tail, `buckets, `numBuckets, `log2NumBuckets, `numItems, `idealChainMaxlen, `nonidealItems
      modifies `ineffExpands, `noexpand, `chains
      ensures key == old(key)[p := k] && hh == old(hh).(hashv := old(hh).hashv[p := hash(k)])
      ensures Maps(key, order + [p], model[k := p]) && Tabled(order)
      ensures (order != [] ==> tail == old(tail)) && Kept() == old(ShapeNow())
    {
      SetKey(p, k);
      NeedTable(p);
    }

    /** HASH_ADD up to HASH_ADD_TO_TABLE. */
    method AddToList(p: Ptr, k: K)
      requires Valid() && 0 <= p < |key| && p !in order && k !in model
      modifies this
      ensures Ordered() && Hashed() && Tabled(old(order))
      ensures order == old(order) + [p] && key == old(key)[p := k] && model == old(model)[k := p]
      ensures Kept() == old(ShapeNow())
    {
      Prepare(p, k);
      Enlist(p, k);
    }

    /** HASH_ADD of an element whose key is not in the table: the map gains exactly that key. */
    method Add(p: Ptr, k: K)
      requires Valid() && 0 <= p < |key| && p !in order && k !in model
      modifies this
      ensures Valid() && order == old(order) + [p] && key == old(key)[p := k]
      ensures model == old(model)[k := p]
      ensures Added(hash, model, k, old(ShapeNow()), ShapeNow())
    {
      ghost var before := order;
      AddToList(p, k);
      var _ := AddToTable(p, before);
    }

    /** The list part of HASH_DELETE. */
    method Delist(p: Ptr, ghost j: nat)
      requires Ordered() && |order| > 1 && j < |order| && order[j] == p
      modifies `next, `prev, `head, `tail, `order, `model
      ensures Ordered() && order == Without(old(order), j) && model == old(model) - {key[p]}
    {
      MapsWithout(key, prev, order, model, j);
      Unlink(next, prev, head, order, j);
      UnlinkLast(prev, order, j);
      assert next[order[j]] == Nth(order, j + 1);
      var pv, nx := prev[p], next[p];
      if p == tail {
        tail := pv;
      }
      if pv != NULL {
        next := next[pv := nx];
      } else {
        head := nx;
      }
      if nx != NULL {
        prev := prev[nx := pv];
      }
      order, model := Without(order, j), model - {key[p]};
    }

    /** The bucket part of HASH_DELETE, HASH_DEL_IN_BKT; s are the elements before the deletion. */
    method Unfile(p: Ptr, ghost s: seq<Ptr>, ghost j: nat, ghost pv: seq<Ptr>)
      requires Tabled(s) && j < |s| && s[j] == p && Backward(pv, s) && order == Without(s, j) && Hashed()
      modifies `hh, `buckets, `numItems, `chains
      ensures Tabled(order) && Hashed() && hh.hashv == old(hh.hashv) && Kept() == old(Kept())
    {
      assert p in Elems(s) && Filed(hh, chains, p);
      var b := Slot(hh.hashv[p], numBuckets);
      ghost var i :| 0 <= i < |chains[b]| && chains[b][i] == p;
      BackwardDistinct(pv, s);
      FilledGone(hh, buckets, chains, s, j, i);
      var (m, bs) := DelInBkt(hh, buckets, b, p);
      hh, buckets := m, bs;
      chains := chains[b := Without(chains[b], i)];
      numItems := numItems - 1;
    }

    /** HASH_DELETE of the only element, which takes the table with it. */
    method DeleteLast(p: Ptr)
      requires Valid() && order == [p]
      modifies `head, `order, `model
      ensures Valid() && order == Without(old(order), 0) == []
      ensures model == old(model) - {key[p]} && model.Keys == {}
    {
      MapsWithout(key, prev, order, model, 0);
      head := NULL;
      order, model := Without(order, 0), model - {key[p]};
    }

    /** HASH_DELETE of one element among several. */
    method DeleteOne(p: Ptr, ghost j: nat)
      requires Valid() && j < |order| && order[j] == p && |order| > 1
      modifies `next, `prev, `head, `tail, `order, `model, `hh, `buckets, `numItems, `chains
      ensures Valid() && order == Without(old(order), j) && Kept() == old(Kept())
      ensures model == old(model) - {key[p]}
    {
      ghost var s, pv := order, prev;
      Delist(p, j);
      Unfile(p, s, j, pv);
    }

    /** HASH_DELETE: the element leaves the list, its chain and the map; the last one takes the table with it. */
    method Delete(p: Ptr, ghost j: nat)
      requires Valid() && j < |order| && order[j] == p
      modifies `next, `prev, `head, `tail, `order, `model, `hh, `buckets, `numItems, `chains
      ensures Valid() && order == Without(old(order), j)
      ensures model == old(model) - {key[p]} && ShapeNow() == Deleted(model, old(ShapeNow()))
    {
      assert prev[order[j]] == Nth(order, j - 1) && next[order[j]] == Nth(order, j + 1);
      if prev[p] == NULL && next[p] == NULL {
        DeleteLast(p);
      } else {
        DeleteOne(p, j);
        EmptyIs();
      }
    }

    /** The first half of HASH_REPLACE: the element of a key, if there is one, leaves the table. */
    method TakeOut(k: K) returns (out: Ptr)
      requires Valid()
      modifies `next, `prev, `head, `tail, `order, `model, `hh, `buckets, `numItems, `chains
      ensures Valid() && model == old(model) - {k} && (forall q :: q in order ==> q in old(order))
      ensures out == if k in old(model) then old(model)[k] else NULL
      ensures ShapeNow() == if k in old(model) then Deleted(model, old(ShapeNow())) else old(ShapeNow())
    {
      out := Find(k);
      if out != NULL {
        ghost var j :| 0 <= j < |order| && order[j] == out;
        Delete(out, j);
      } else {
        assert model == model - {k};
      }
    }

    /** HASH_REPLACE: plain map update, whether or not the key was present. */
    method Replace(p: Ptr, k: K) returns (replaced: Ptr)
      requires Valid() && 0 <= p < |key| && p !in order
      modifies this
      ensures Valid() && model == old(model)[k := p] && key == old(key)[p := k]
      ensures replaced == if k in old(model) then old(model)[k] else NULL
      ensures var s := if k in old(model) then Deleted(old(model) - {k}, old(ShapeNow())) else old(ShapeNow());
              Added(hash, model, k, s, ShapeNow())
    {
      PutBack(model, k, p);
      replaced := TakeOut(k);
      Add(p, k);
    }

    /** The inner walk of HASH_FSCK: back links and count of one bucket. */
    method CheckBucket(b: nat) returns (ok: bool, count: nat)
      requires b < |buckets| && |chains| == |buckets| && ChainOk(hh, buckets[b], chains[b]) && HhShaped(hh)
      ensures ok && count == |chains[b]|
    {
      ghost var c := chains[b];
      var thh, back := buckets[b].hhHead, NULL;
      ok, count := true, 0;
      while thh != NULL
        invariant count <= |c| && thh == Nth(c, count) && back == Nth(c, count - 1) && ok
        decreases |c| - count
      {
        assert hh.prev[c[count]] == Nth(c, count - 1) && hh.next[c[count]] == Nth(c, count + 1);
        ok := ok && back == hh.prev[thh];
        count, back, thh := count + 1, thh, hh.next[thh];
      }
      ok := ok && buckets[b].count == count;
    }

    /** The walk of HASH_FSCK over the list in insertion order. */
    method CheckOrder() returns (ok: bool, count: nat)
      requires Ordered()
      ensures ok && count == |order|
    {
      var p, back := head, NULL;
      ok, count := true, 0;
      while p != NULL
        invariant count <= |order| && p == Nth(order, count) && back == Nth(order, count - 1) && ok
        decreases |order| - count
      {
        assert prev[order[count]] == Nth(order, count - 1) && next[order[count]] == Nth(order, count + 1);
        ok := ok && back == prev[p];
        count, back, p := count + 1, p, next[p];
      }
    }

    /** HASH_FSCK finds nothing wrong in any table whose operations kept the invariant. */
    method Fsck() returns (ok: bool)
      requires Valid()
      ensures ok
    {
      ok := true;
      if head != NULL {
        var count := 0;
        for b := 0 to numBuckets
          invariant ok && count == Total(chains[..b])
        {
          assert ChainOk(hh, buckets[b], chains[b]) && chains[..b + 1][..b] == chains[..b];
          var good, n := CheckBucket(b);
          ok, count := ok && good, count + n;
        }
        assert chains[..numBuckets] == chains;
        ok := ok && count == numItems;
        var good, n := CheckOrder();
        ok := ok && good && n == numItems;
      }
    }

    /** HASH_SRT: the list becomes a stable sorted permutation of itself; chains, and so lookups, are untouched. */
    method Sort(le: (Ptr, Ptr) -> bool)
      requires Valid() && StableSort.TotalPreorder(le)
      modifies `next, `prev, `head, `tail, `order
      ensures Valid() && StableSort.Sorted(order, le) && StableSort.Stable(old(order), order, le)
      ensures ShapeNow() == old(ShapeNow())
    {
      if head != NULL {
        ghost var s0 := order;
        var b; ghost var s;
        b, s := UtHashSort.SortList(next, prev, head, le, order);
        SameElems(s0, s);
        next, prev, head, tail := b.next, b.prev, b.list, b.tail;
        order := s;
      }
    }
  }
}
