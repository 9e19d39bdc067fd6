/**
 When the hash table doubles its buckets and when it gives up doing so, told
 from the keys alone: which keys the table holds, their hashes, and what the
 earlier doublings found.
 */
module UtHashGrowth {
  import opened Bits
  import opened Links

  const INITIAL_NUM_BUCKETS := 32
  const INITIAL_NUM_BUCKETS_LOG2 := 5
  const BKT_CAPACITY_THRESH := 10

  /** b buckets of c items each have room for n items. */
  ghost predicate Suffices(c: nat, b: nat, n: nat) {
    c * b >= n
  }

  /** c is n / b rounded up: the least bucket size that suffices. */
  ghost predicate IsCeil(c: nat, n: nat, b: nat) {
    forall d: nat :: Suffices(d, b, n) <==> d >= c
  }

  function Over(len: nat, ideal: nat): (n: nat) {
    if len > ideal then len - ideal else 0
  }

  function Multiplier(count: nat, ideal: nat): (m: nat)
    requires ideal > 0
  {
    if count > ideal then Div(count, ideal) else 0
  }

  /** How many keys of m fall into bucket b of n. */
  ghost function Load<K>(hash: K -> nat, m: map<K, Ptr>, n: nat, b: nat): (len: nat)
    requires n > 0
  {
    |set k | k in m && hash(k) % n == b|
  }

  /** How many keys in the buckets below j sit beyond the ideal length. */
  ghost function Beyond<K>(hash: K -> nat, m: map<K, Ptr>, n: nat, ideal: nat, j: nat): (sum: nat)
    requires n > 0
  {
    if j == 0 then 0 else Beyond(hash, m, n, ideal, j - 1) + Over(Load(hash, m, n, j - 1), ideal)
  }

  /** What a table keeps about its buckets besides the elements in them. */
  datatype Shape = Shape(log2: nat, mults: seq<nat>, ideal: nat, nonideal: nat, ineff: nat, noexpand: bool)

  /** The shape of a table made for its first element; an empty table counts as one. */
  ghost function Fresh(): (s: Shape) {
    Shape(INITIAL_NUM_BUCKETS_LOG2, seq(INITIAL_NUM_BUCKETS, _ => 0), 0, 0, 0, false)
  }

  /** With the keys of m, the chain of k's bucket has reached its limit. */
  ghost predicate Crowded<K>(hash: K -> nat, m: map<K, Ptr>, k: K, s: Shape) {
    var n := Pow2(s.log2);
    var b := hash(k) % n;
    b < |s.mults| && Load(hash, m, n, b) >= (s.mults[b] + 1) * BKT_CAPACITY_THRESH
  }

  /** More than half of the items of a table just doubled sit beyond the ideal length of their chain. */
  ghost predicate Wasted<K>(m: map<K, Ptr>, s: Shape) {
    s.nonideal > |m| / 2
  }

  /** A table of shape s that holds the keys of m doubled its buckets and now has shape s'. */
  ghost predicate Doubled<K>(hash: K -> nat, m: map<K, Ptr>, s: Shape, s': Shape) {
    var n := Pow2(s.log2 + 1);
    && s'.log2 == s.log2 + 1 && |s'.mults| == n && s'.ideal > 0 && IsCeil(s'.ideal, |m|, n)
    && s'.nonideal == Beyond(hash, m, n, s'.ideal, n)
    && (forall b :: 0 <= b < n ==> s'.mults[b] == Multiplier(Load(hash, m, n, b), s'.ideal))
    && s'.ineff == (if Wasted(m, s') then s.ineff + 1 else 0)
    && s'.noexpand == (s'.ineff > 1)
  }

  /** Adding key k, which makes the map m, takes a table of shape s to shape s'. */
  ghost predicate Added<K>(hash: K -> nat, m: map<K, Ptr>, k: K, s: Shape, s': Shape) {
    if Crowded(hash, m, k, s) && !s.noexpand then Doubled(hash, m, s, s') else s' == s
  }

  /** A deletion that leaves the map m: the table goes with its last element, else nothing changes. */
  ghost function Deleted<K>(m: map<K, Ptr>, s: Shape): (s': Shape) {
    if m.Keys == {} then Fresh() else s
  }
}
