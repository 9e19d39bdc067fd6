/**
 What the buckets of a hash table owe to its history, over every run that
 starts with an empty table.
 */
module UtHashHistory {
  import opened Bits
  import opened Links
  import opened UtHash
  import opened UtHashGrowth
  import opened UtHashRuns

  /** What a call did: the table outlived it, it doubled the buckets, and it did so in vain. */
  datatype Event = Event(survived: bool, doubled: bool, vain: bool)

  /** What an event makes of the shape of a table. */
  ghost predicate Makes(s: Shape, e: Event, s': Shape) {
    var base := if e.survived then s else Fresh();
    if e.doubled then
      && s'.log2 == base.log2 + 1
      && s'.ineff == (if e.vain then base.ineff + 1 else 0)
      && s'.noexpand == (s'.ineff > 1)
    else s' == base
  }

  ghost predicate Chronicle(es: seq<Event>, shapes: seq<Shape>) {
    && |shapes| == |es| + 1 && shapes[0] == Fresh()
    && (forall i :: 0 <= i < |es| ==> Makes(shapes[i], es[i], shapes[i + 1]))
  }

  /** The table that is there after event a is there for all events before i. */
  ghost predicate Lasts(es: seq<Event>, a: nat, i: nat)
    requires i <= |es|
  {
    forall j :: a < j < i ==> es[j].survived
  }

  /** Of the events before i, a is the last in which the table that there is now doubled. */
  ghost predicate LastDoubling(es: seq<Event>, a: nat, i: nat)
    requires i <= |es|
  {
    a < i && es[a].doubled && Lasts(es, a, i) && (forall j :: a < j < i ==> !es[j].doubled)
  }

  ghost predicate NoDoubling(es: seq<Event>, i: nat)
    requires i <= |es|
  {
    forall a :: 0 <= a < i && es[a].doubled ==> !Lasts(es, a, i)
  }

  /** The last two doublings of the table that there is after i events were both in vain. */
  ghost predicate TwiceInVain(es: seq<Event>, a: nat, b: nat, i: nat)
    requires i <= |es|
  {
    LastDoubling(es, b, i) && es[b].vain && es[b].survived && LastDoubling(es, a, b) && es[a].vain
  }

  /** The doublings, among the first i events, of the table that there is after them. */
  ghost function Doublings(es: seq<Event>, i: nat): (js: set<nat>)
    requires i <= |es|
  {
    set j: nat | j < i && es[j].doubled && Lasts(es, j, i)
  }

  lemma OneLast(es: seq<Event>, a: nat, b: nat, i: nat)
    requires i <= |es| && LastDoubling(es, a, i) && LastDoubling(es, b, i)
    ensures a == b
  {
  }

  lemma {:induction false} OfLastDoubling(es: seq<Event>, shapes: seq<Shape>, i: nat)
    requires Chronicle(es, shapes) && i <= |es|
    ensures (exists a: nat :: LastDoubling(es, a, i) && shapes[i] == shapes[a + 1])
            || (NoDoubling(es, i) && shapes[i] == Fresh())
  {
    if i > 0 {
      var j := i - 1;
      assert Makes(shapes[j], es[j], shapes[j + 1]);
      if es[j].doubled {
        assert LastDoubling(es, j, i);
      } else if es[j].survived {
        OfLastDoubling(es, shapes, j);
        if a: nat :| LastDoubling(es, a, j) && shapes[j] == shapes[a + 1] {
          assert LastDoubling(es, a, i);
        } else {
          forall a | 0 <= a < i && es[a].doubled ensures !Lasts(es, a, i) { assert !Lasts(es, a, j); }
        }
      }
    }
  }

  lemma IneffIs(es: seq<Event>, shapes: seq<Shape>, i: nat)
    requires Chronicle(es, shapes) && i <= |es|
    ensures shapes[i].ineff > 0 <==> exists a: nat :: LastDoubling(es, a, i) && es[a].vain
  {
    OfLastDoubling(es, shapes, i);
    if a: nat :| LastDoubling(es, a, i) && shapes[i] == shapes[a + 1] {
      assert Makes(shapes[a], es[a], shapes[a + 1]);
      forall b: nat | LastDoubling(es, b, i) ensures b == a { OneLast(es, a, b, i); }
    }
  }

  lemma OffIs(es: seq<Event>, shapes: seq<Shape>, i: nat)
    requires Chronicle(es, shapes) && i <= |es|
    ensures shapes[i].noexpand <==> exists a: nat, b: nat :: TwiceInVain(es, a, b, i)
  {
    OfLastDoubling(es, shapes, i);
    if b: nat :| LastDoubling(es, b, i) && shapes[i] == shapes[b + 1] {
      assert Makes(shapes[b], es[b], shapes[b + 1]);
      IneffIs(es, shapes, b);
      if a: nat :| es[b].vain && es[b].survived && LastDoubling(es, a, b) && es[a].vain {
        assert TwiceInVain(es, a, b, i);
      }
      forall a: nat, c: nat | TwiceInVain(es, a, c, i) ensures c == b { OneLast(es, b, c, i); }
    }
  }

  lemma {:induction false} Log2Is(es: seq<Event>, shapes: seq<Shape>, i: nat)
    requires Chronicle(es, shapes) && i <= |es|
    ensures shapes[i].log2 == INITIAL_NUM_BUCKETS_LOG2 + |Doublings(es, i)|
  {
    if i > 0 {
      var j := i - 1;
      assert Makes(shapes[j], es[j], shapes[j + 1]);
      var last: set<nat> := if es[j].doubled then {j} else {};
      if es[j].survived {
        Log2Is(es, shapes, j);
        DoublingsNext(es, j);
      } else {
        assert Doublings(es, i) == last;
      }
    }
  }

  lemma DoublingsNext(es: seq<Event>, j: nat)
    requires j < |es| && es[j].survived
    ensures Doublings(es, j + 1) == Doublings(es, j) + if es[j].doubled then {j} else {}
  {
    forall a: nat | a < j ensures Lasts(es, a, j + 1) <==> Lasts(es, a, j) {
    }
  }

  /** The keys after the first i calls on an empty table. */
  ghost function Keys<K>(calls: seq<Call<K>>, i: nat): (m: map<K, Ptr>)
    requires i <= |calls|
  {
    Replay(map[], calls, i)
  }

  ghost predicate FromEmpty<K>(hash: K -> nat, calls: seq<Call<K>>, shapes: seq<Shape>) {
    History(hash, map[], calls, shapes, |calls|) && shapes[0] == Fresh()
  }

  /** Seen from the keys: what call i, which found shape s and left s', did. */
  ghost function EventOf<K>(calls: seq<Call<K>>, i: nat, s: Shape, s': Shape): (e: Event)
    requires i < |calls|
  {
    Event(Survives(Keys(calls, i), calls[i]), s'.log2 == Base(Keys(calls, i), calls[i], s).log2 + 1,
          Wasted(Keys(calls, i + 1), s'))
  }

  ghost function Events<K>(calls: seq<Call<K>>, shapes: seq<Shape>): (es: seq<Event>)
    requires |shapes| == |calls| + 1
  {
    seq(|calls|, i requires 0 <= i < |calls| => EventOf(calls, i, shapes[i], shapes[i + 1]))
  }

  /**
   A call doubles the buckets exactly when it adds a key to a bucket that is then full and doubling is not off.
   The statistics are then those of the keys in the new buckets; without a doubling nothing changes.
   */
  lemma WhenDoubles<K>(hash: K -> nat, calls: seq<Call<K>>, shapes: seq<Shape>, i: nat)
    requires FromEmpty(hash, calls, shapes) && i < |calls|
    ensures var base := Base(Keys(calls, i), calls[i], shapes[i]);
            var m := Keys(calls, i + 1);
            && (Events(calls, shapes)[i].doubled <==>
                  Adds(calls[i]) && !base.noexpand && Crowded(hash, m, calls[i].k, base))
            && (if Events(calls, shapes)[i].doubled then Doubled(hash, m, base, shapes[i + 1])
                else shapes[i + 1] == base)
  {
    assert ShapeStep(hash, Keys(calls, i), calls[i], shapes[i], shapes[i + 1]);
  }

  lemma RunMakes<K>(hash: K -> nat, calls: seq<Call<K>>, shapes: seq<Shape>)
    requires FromEmpty(hash, calls, shapes)
    ensures Chronicle(Events(calls, shapes), shapes)
  {
    var es := Events(calls, shapes);
    forall i | 0 <= i < |calls| ensures Makes(shapes[i], es[i], shapes[i + 1]) {
      WhenDoubles(hash, calls, shapes, i);
    }
  }

  /**
   Delay factors, statistics and the number of buckets are those that the last doubling left,
   or those of a new table if there was none since the table was made.
   */
  lemma ShapeIsOfLastDoubling<K>(hash: K -> nat, calls: seq<Call<K>>, shapes: seq<Shape>, i: nat)
    requires FromEmpty(hash, calls, shapes) && i <= |calls|
    ensures var es := Events(calls, shapes);
            || (exists a: nat :: LastDoubling(es, a, i) && shapes[i] == shapes[a + 1])
            || (NoDoubling(es, i) && shapes[i] == Fresh())
  {
    RunMakes(hash, calls, shapes);
    OfLastDoubling(Events(calls, shapes), shapes, i);
  }

  /** Doubling is off exactly when the last two doublings of this table were both in vain. */
  lemma GivesUpIff<K>(hash: K -> nat, calls: seq<Call<K>>, shapes: seq<Shape>, i: nat)
    requires FromEmpty(hash, calls, shapes) && i <= |calls|
    ensures shapes[i].noexpand <==> exists a: nat, b: nat :: TwiceInVain(Events(calls, shapes), a, b, i)
  {
    RunMakes(hash, calls, shapes);
    OffIs(Events(calls, shapes), shapes, i);
  }

  /** There are 2^5 buckets, doubled once for each doubling since the table was made. */
  lemma BucketsAre<K>(hash: K -> nat, calls: seq<Call<K>>, shapes: seq<Shape>, i: nat)
    requires FromEmpty(hash, calls, shapes) && i <= |calls|
    ensures shapes[i].log2 == INITIAL_NUM_BUCKETS_LOG2 + |Doublings(Events(calls, shapes), i)|
  {
    RunMakes(hash, calls, shapes);
    Log2Is(Events(calls, shapes), shapes, i);
  }

  /** Every call adds a fresh key, and all keys have the same hash. */
  ghost predicate AllCollide<K>(hash: K -> nat, calls: seq<Call<K>>, h: nat) {
    forall i :: 0 <= i < |calls| ==> calls[i].DoAdd? && hash(calls[i].k) == h && calls[i].k !in Keys(calls, i)
  }

  lemma {:induction false} AllKeys<K>(hash: K -> nat, calls: seq<Call<K>>, h: nat, i: nat)
    requires AllCollide(hash, calls, h) && i <= |calls|
    ensures |Keys(calls, i)| == i && forall k :: k in Keys(calls, i) ==> hash(k) == h
  {
    if i > 0 { AllKeys(hash, calls, h, i - 1); }
  }

  /** Keys of one hash all fall into one bucket. */
  lemma LoadOfOne<K>(hash: K -> nat, m: map<K, Ptr>, h: nat, n: nat, b: nat)
    requires n > 0 && forall k :: k in m ==> hash(k) == h
    ensures Load(hash, m, n, b) == if h % n == b then |m| else 0
  {
    var ks := set k | k in m && hash(k) % n == b;
    assert if h % n == b then ks == m.Keys else ks == {};
  }

  lemma {:induction false} BeyondOfOne<K>(hash: K -> nat, m: map<K, Ptr>, h: nat, n: nat, ideal: nat, j: nat)
    requires n > 0 && forall k :: k in m ==> hash(k) == h
    ensures Beyond(hash, m, n, ideal, j) == if h % n < j then Over(|m|, ideal) else 0
  {
    if j > 0 {
      BeyondOfOne(hash, m, h, n, ideal, j - 1);
      LoadOfOne(hash, m, h, n, j - 1);
    }
  }

  /** A doubling while all items are in one bucket, with fewer items than buckets, helps nothing. */
  lemma DoubledOfOne<K>(hash: K -> nat, m: map<K, Ptr>, h: nat, s: Shape, s': Shape)
    requires Doubled(hash, m, s, s') && (forall k :: k in m ==> hash(k) == h) && 2 < |m| <= Pow2(s.log2 + 1)
    ensures var b := h % Pow2(s.log2 + 1); b < |s'.mults| && s'.mults[b] == |m|
    ensures s'.log2 == s.log2 + 1 && s'.ineff == s.ineff + 1 && s'.noexpand == (s'.ineff > 1)
  {
    var n := Pow2(s.log2 + 1);
    assert Suffices(1, n, |m|) && !Suffices(0, n, |m|);
    BeyondOfOne(hash, m, h, n, 1, n);
    LoadOfOne(hash, m, h, n, h % n);
  }

  /** How a table of one bucket chain looks after i additions: it doubles at the 10th and the 110th, then gives up. */
  ghost predicate Stuck(s: Shape, h: nat, i: nat) {
    && s.log2 == (if i < 10 then 5 else if i < 110 then 6 else 7)
    && s.ineff == s.log2 - 5 && s.noexpand == (i >= 110)
    && var b := h % Pow2(s.log2);
       b < |s.mults| && (i < 10 ==> s.mults[b] == 0) && (10 <= i < 110 ==> s.mults[b] == 10)
  }

  /** Keys that all collide cost two doublings, at the 10th and the 110th addition, and no more however many follow. */
  lemma {:induction false} CollidingRun<K>(hash: K -> nat, calls: seq<Call<K>>, shapes: seq<Shape>, h: nat, i: nat)
    requires FromEmpty(hash, calls, shapes) && AllCollide(hash, calls, h) && i <= |calls|
    ensures Stuck(shapes[i], h, i)
  {
    SmallPowers();
    if i > 0 {
      var j := i - 1;
      CollidingRun(hash, calls, shapes, h, j);
      AllKeys(hash, calls, h, i);
      WhenDoubles(hash, calls, shapes, j);
      assert Base(Keys(calls, j), calls[j], shapes[j]) == shapes[j];
      LoadOfOne(hash, Keys(calls, i), h, Pow2(shapes[j].log2), h % Pow2(shapes[j].log2));
      if i == 10 || i == 110 { DoubledOfOne(hash, Keys(calls, i), h, shapes[j], shapes[i]); }
    }
  }

  lemma SmallPowers()
    ensures Pow2(5) == 32 && Pow2(6) == 64 && Pow2(7) == 128
  {
    assert Pow2(2) == 4 && Pow2(4) == 16;
  }

  function Adding(n: nat): (calls: seq<Call<int>>) {
    seq(n, i => DoAdd(i, i))
  }

  /** The keys below n, each with the handle of the same number. */
  ghost predicate UpTo(m: map<int, Ptr>, n: nat) {
    forall j :: (j in m <==> 0 <= j < n) && (j in m ==> m[j] == j)
  }

  lemma {:induction false} AddingIs(n: nat, i: nat)
    requires i <= n
    ensures UpTo(Keys(Adding(n), i), i)
  {
    if i > 0 { AddingIs(n, i - 1); }
  }

  lemma ValueOf<K, V>(m: map<K, V>, v: V) returns (k: K)
    requires v in m.Values
    ensures k in m && m[k] == v
  {
    k :| k in m && m[k] == v;
  }

  lemma AddingProper(n: nat, i: nat)
    requires i < n
    ensures Proper(Keys(Adding(n), i), Adding(n)[i], n) && Adding(n)[i].k !in Keys(Adding(n), i)
  {
    AddingIs(n, i);
    var m := Keys(Adding(n), i);
    if i in m.Values { var k := ValueOf(m, i); }
  }

  /** Adding n keys of one hash to an empty table: 32 buckets up to the 9th, 64 up to the 109th, 128 ever after. */
  method Collide(n: nat) returns (t: Table<int>)
    requires n > 0
    ensures fresh(t) && t.Valid() && UpTo(t.model, n)
    ensures t.log2NumBuckets == (if n < 10 then 5 else if n < 110 then 6 else 7) && t.noexpand == (n >= 110)
  {
    t := new Table<int>((_: int) => 0, seq(n, i => i));
    var calls := Adding(n);
    forall i | 0 <= i < n ensures Proper(Keys(calls, i), calls[i], n) && calls[i].k !in Keys(calls, i) {
      AddingProper(n, i);
    }
    var outs; ghost var shapes;
    outs, shapes := Run(t, calls);
    AddingIs(n, n);
    CollidingRun(t.hash, calls, shapes, 0, n);
    t.EmptyIs();
    assert 0 in t.model.Keys;
  }
}
