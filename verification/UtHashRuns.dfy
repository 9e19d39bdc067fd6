/**
 Runs of hash table operations, against the same run on a plain map, and what
 becomes of the buckets over a run.
 */
module UtHashRuns {
  import opened Links
  import opened UtHash
  import opened UtHashGrowth
  import StableSort

  datatype Call<K> =
    | DoAdd(p: Ptr, k: K)
    | DoReplace(p: Ptr, k: K)
    | DoDelete(k: K)
    | DoFind(k: K)
    | DoSort(le: (Ptr, Ptr) -> bool)

  /** What a call does to a plain map; deleting a key that is absent does nothing. */
  ghost function After<K>(m: map<K, Ptr>, c: Call<K>): (m': map<K, Ptr>) {
    match c
    case DoAdd(p, k) => m[k := p]
    case DoReplace(p, k) => m[k := p]
    case DoDelete(k) => m - {k}
    case _ => m
  }

  /** The map after the first n calls. */
  ghost function Replay<K>(m: map<K, Ptr>, calls: seq<Call<K>>, n: nat): (m': map<K, Ptr>)
    requires n <= |calls|
  {
    if n == 0 then m else After(Replay(m, calls, n - 1), calls[n - 1])
  }

  /** An added handle is a new one, and its key too unless it replaces; sorting needs a total preorder. */
  ghost predicate Proper<K>(m: map<K, Ptr>, c: Call<K>, handles: nat) {
    match c
    case DoAdd(p, k) => 0 <= p < handles && p !in m.Values && k !in m
    case DoReplace(p, _) => 0 <= p < handles && p !in m.Values
    case DoSort(le) => StableSort.TotalPreorder(le)
    case _ => true
  }

  /** What a lookup in the plain map gives; a replacement returns what it replaced. */
  ghost function Answer<K>(m: map<K, Ptr>, c: Call<K>): (out: Ptr) {
    if (c.DoFind? || c.DoReplace?) && c.k in m then m[c.k] else NULL
  }

  predicate Adds<K>(c: Call<K>) {
    c.DoAdd? || c.DoReplace?
  }

  /** The table is not freed in the course of the call, for want of elements. */
  ghost predicate Survives<K>(m: map<K, Ptr>, c: Call<K>) {
    match c
    case DoReplace(_, k) => (m - {k}).Keys != {}
    case DoDelete(k) => (m - {k}).Keys != {}
    case _ => m.Keys != {}
  }

  /** The shape of the table that a call adds to. */
  ghost function Base<K>(m: map<K, Ptr>, c: Call<K>, s: Shape): (b: Shape) {
    if Survives(m, c) then s else Fresh()
  }

  /** What a call on a table with the keys of m does to its shape: only an addition may change it. */
  ghost predicate ShapeStep<K>(hash: K -> nat, m: map<K, Ptr>, c: Call<K>, s: Shape, s': Shape) {
    if Adds(c) then Added(hash, After(m, c), c.k, Base(m, c, s), s') else s' == Base(m, c, s)
  }

  /** A shape law of the table, restated for the call. */
  lemma BaseIs<K>(m: map<K, Ptr>, c: Call<K>, s: Shape, e: bool)
    requires (e <==> m.Keys == {}) && (e ==> s == Fresh())
    ensures !c.DoReplace? && !c.DoDelete? ==> Base(m, c, s) == s
    ensures c.DoReplace? || c.DoDelete? ==> Base(m, c, s) == if c.k in m then Deleted(m - {c.k}, s) else s
  {
    if (c.DoReplace? || c.DoDelete?) && c.k !in m { assert (m - {c.k}).Keys == m.Keys; }
  }

  method PerformAdd<K(==)>(t: Table<K>, c: Call<K>) returns (out: Ptr)
    requires t.Valid() && Proper(t.model, c, |t.key|) && Adds(c)
    modifies t
    ensures t.Valid() && |t.key| == |old(t.key)| && t.model == After(old(t.model), c) && out == Answer(old(t.model), c)
    ensures ShapeStep(t.hash, old(t.model), c, old(t.ShapeNow()), t.ShapeNow())
  {
    t.EmptyIs();
    t.NewIs(c.p);
    BaseIs(t.model, c, t.ShapeNow(), t.order == []);
    if c.DoAdd? {
      out := NULL;
      t.Add(c.p, c.k);
    } else {
      out := t.Replace(c.p, c.k);
    }
  }

  method Perform<K(==)>(t: Table<K>, c: Call<K>) returns (out: Ptr)
    requires t.Valid() && Proper(t.model, c, |t.key|)
    modifies t
    ensures t.Valid() && |t.key| == |old(t.key)| && t.model == After(old(t.model), c) && out == Answer(old(t.model), c)
    ensures ShapeStep(t.hash, old(t.model), c, old(t.ShapeNow()), t.ShapeNow())
  {
    out := NULL;
    if Adds(c) {
      out := PerformAdd(t, c);
    } else {
      t.EmptyIs();
      BaseIs(t.model, c, t.ShapeNow(), t.order == []);
      match c
      case DoDelete(k) =>
        var _ := t.TakeOut(k);
      case DoFind(k) =>
        out := t.Find(k);
      case DoSort(le) =>
        t.Sort(le);
    }
  }

  /** The shapes over the first n calls of a run, from the one before it. */
  ghost predicate History<K>(hash: K -> nat, m: map<K, Ptr>, calls: seq<Call<K>>, shapes: seq<Shape>, n: nat) {
    && n <= |calls| && |shapes| == n + 1
    && (forall i :: 0 <= i < n ==> ShapeStep(hash, Replay(m, calls, i), calls[i], shapes[i], shapes[i + 1]))
  }

  ghost predicate Answers<K>(m: map<K, Ptr>, calls: seq<Call<K>>, outs: seq<Ptr>, n: nat) {
    && n <= |calls| && |outs| == n
    && (forall i :: 0 <= i < n ==> outs[i] == Answer(Replay(m, calls, i), calls[i]))
  }

  lemma HistoryNext<K>(hash: K -> nat, m: map<K, Ptr>, calls: seq<Call<K>>, shapes: seq<Shape>, n: nat, s: Shape)
    requires n < |calls| && History(hash, m, calls, shapes, n)
    requires ShapeStep(hash, Replay(m, calls, n), calls[n], shapes[n], s)
    ensures History(hash, m, calls, shapes + [s], n + 1)
  {
  }

  lemma AnswersNext<K>(m: map<K, Ptr>, calls: seq<Call<K>>, outs: seq<Ptr>, n: nat, out: Ptr)
    requires n < |calls| && Answers(m, calls, outs, n) && out == Answer(Replay(m, calls, n), calls[n])
    ensures Answers(m, calls, outs + [out], n + 1)
  {
  }

  /**
   Over any run, through any number of bucket doublings, every lookup answers as the plain map does, and the
   buckets change from call to call as the keys say.
   */
  method Run<K(==)>(t: Table<K>, calls: seq<Call<K>>) returns (outs: seq<Ptr>, ghost shapes: seq<Shape>)
    requires t.Valid() && forall n :: 0 <= n < |calls| ==> Proper(Replay(t.model, calls, n), calls[n], |t.key|)
    modifies t
    ensures t.Valid() && t.model == Replay(old(t.model), calls, |calls|)
    ensures Answers(old(t.model), calls, outs, |calls|)
    ensures History(t.hash, old(t.model), calls, shapes, |calls|)
    ensures shapes[0] == old(t.ShapeNow()) && shapes[|calls|] == t.ShapeNow()
  {
    outs, shapes := [], [t.ShapeNow()];
    for n := 0 to |calls|
      invariant t.Valid() && |t.key| == |old(t.key)| && t.model == Replay(old(t.model), calls, n)
      invariant Answers(old(t.model), calls, outs, n) && History(t.hash, old(t.model), calls, shapes, n)
      invariant shapes[0] == old(t.ShapeNow()) && shapes[n] == t.ShapeNow()
    {
      var out := Perform(t, calls[n]);
      AnswersNext(old(t.model), calls, outs, n, out);
      HistoryNext(t.hash, old(t.model), calls, shapes, n, t.ShapeNow());
      outs, shapes := outs + [out], shapes + [t.ShapeNow()];
    }
  }
}
