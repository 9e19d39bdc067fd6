/**
 The completion queue: a ring of slots in which a slot flagged AUX stands for a
 run of entries in a side list. Writes that find the ring (almost) full and all
 errors go to the side list; readers must still see one unbounded FIFO.
 */
module CompletionQueue {
  import opened Basics
  import opened Bits
  import opened Wrap

  const NOTAVAIL: int := -1

  /** A completion: what was reported, its error code (0 for success) and the peer's address. */
  datatype Item<C> = Item(comp: C, err: int, src: int)

  /** A ring slot. When `aux` is set, only that flag means anything. */
  datatype Cell<C> = Cell(comp: C, aux: bool)

  /** A side-list entry, bound to the slot it sits behind. */
  datatype Aux<C> = Aux(slot: nat, item: Item<C>)

  datatype ReadResult<C> = Again | ErrAvail | NoMem | Got(items: seq<Item<C>>) {
    function Items(): (r: seq<Item<C>>) {
      if Got? then items else []
    }
  }

  /** Every slot of the ring in order, each with the completions it stands for. */
  ghost function Flatten<C>(groups: seq<seq<Item<C>>>): (items: seq<Item<C>>) {
    if groups == [] then [] else groups[0] + Flatten(groups[1..])
  }

  lemma {:induction false} FlattenSize<C>(groups: seq<seq<Item<C>>>)
    requires forall k :: 0 <= k < |groups| ==> groups[k] != []
    ensures |groups| <= |Flatten(groups)| && (groups == [] ==> Flatten(groups) == [])
  {
    if groups != [] { FlattenSize(groups[1..]); }
  }

  lemma {:induction false} FlattenAppend<C>(groups: seq<seq<Item<C>>>, g: seq<Item<C>>)
    ensures Flatten(groups + [g]) == Flatten(groups) + g
  {
    if groups != [] {
      assert (groups + [g])[1..] == groups[1..] + [g];
      FlattenAppend(groups[1..], g);
    }
  }

  lemma {:induction false} FlattenLast<C>(groups: seq<seq<Item<C>>>, x: Item<C>)
    requires groups != []
    ensures var n := |groups| - 1; Flatten(groups[n := groups[n] + [x]]) == Flatten(groups) + [x]
  {
    var n := |groups| - 1;
    FlattenAppend(groups[..n], groups[n]);
    FlattenAppend(groups[..n], groups[n] + [x]);
    assert groups == groups[..n] + [groups[n]];
    assert groups[n := groups[n] + [x]] == groups[..n] + [groups[n] + [x]];
  }

  ghost function Tagged<C>(slot: nat, g: seq<Item<C>>): (r: seq<Aux<C>>)
    ensures |r| == |g| && forall i :: 0 <= i < |g| ==> r[i] == Aux(slot, g[i])
  {
    seq(|g|, i requires 0 <= i < |g| => Aux(slot, g[i]))
  }

  /** The side list that the AUX cells among the first groups from position base on call for. */
  ghost function SideList<C>(cells: seq<Cell<C>>, base: nat, groups: seq<seq<Item<C>>>): (r: seq<Aux<C>>)
    requires |cells| > 0
    decreases |groups|
  {
    if groups == [] then []
    else
      var n := |groups| - 1;
      SideList(cells, base, groups[..n]) + SideRun(cells, Pos(base, n, |cells|), groups[n])
  }

  ghost function SideRun<C>(cells: seq<Cell<C>>, i: nat, g: seq<Item<C>>): (r: seq<Aux<C>>)
    requires i < |cells|
  {
    if cells[i].aux then Tagged(i, g) else []
  }

  lemma SideAppend<C>(cells: seq<Cell<C>>, base: nat, groups: seq<seq<Item<C>>>, g: seq<Item<C>>)
    requires |cells| > 0
    ensures SideList(cells, base, groups + [g]) ==
            SideList(cells, base, groups) + SideRun(cells, Pos(base, |groups|, |cells|), g)
  {
    assert (groups + [g])[..|groups|] == groups;
  }

  lemma {:induction false} SideFirst<C>(cells: seq<Cell<C>>, base: nat, groups: seq<seq<Item<C>>>)
    requires |cells| > 0 && groups != []
    ensures SideList(cells, base, groups) ==
            SideRun(cells, Pos(base, 0, |cells|), groups[0]) + SideList(cells, base + 1, groups[1..])
  {
    var n := |groups| - 1;
    if n > 0 {
      SideFirst(cells, base, groups[..n]);
      assert groups[..n][1..] == groups[1..][..n - 1];
      assert Pos(base, n, |cells|) == Pos(base + 1, n - 1, |cells|);
    }
  }

  /** Writing a cell that no group uses, or changing no flag, leaves the side list alone. */
  lemma {:induction false} SideFrame<C>(a: seq<Cell<C>>, b: seq<Cell<C>>, base: nat, groups: seq<seq<Item<C>>>)
    requires |a| == |b| > 0
    requires forall k :: 0 <= k < |groups| ==> a[Pos(base, k, |a|)].aux == b[Pos(base, k, |a|)].aux
    ensures SideList(a, base, groups) == SideList(b, base, groups)
  {
    if groups != [] { SideFrame(a, b, base, groups[..|groups| - 1]); }
  }

  /** A later position's run never names the first cell. */
  lemma {:induction false} SideElsewhere<C>(cells: seq<Cell<C>>, base: nat, groups: seq<seq<Item<C>>>, i: nat)
    requires |cells| > 0 && i < |cells|
    requires forall k :: 0 <= k < |groups| ==> Pos(base, k, |cells|) != i
    ensures forall x :: x in SideList(cells, base, groups) ==> x.slot != i
  {
    if groups != [] { SideElsewhere(cells, base, groups[..|groups| - 1], i); }
  }

  /** What cell i stands for: one plain completion, or a non-empty run of side entries. */
  ghost predicate GroupOk<C>(cells: seq<Cell<C>>, srcs: seq<int>, base: nat, groups: seq<seq<Item<C>>>, k: nat)
    requires |cells| > 0 && k < |groups|
  {
    var i := Pos(base, k, |cells|);
    if cells[i].aux then groups[k] != []
    else groups[k] == [Item(cells[i].comp, 0, SrcAt(srcs, i))]
  }

  /** `cq->src ? cq->src[i] : FI_ADDR_NOTAVAIL`; a queue without addresses has none stored. */
  function SrcAt(srcs: seq<int>, i: nat): (s: int) {
    if i < |srcs| then srcs[i] else NOTAVAIL
  }

  /** The ring from position base on, and the side list, together stand for groups. */
  ghost predicate Ring<C>(cells: seq<Cell<C>>, srcs: seq<int>, base: nat, groups: seq<seq<Item<C>>>, aux: seq<Aux<C>>) {
    && 0 < |cells| && |groups| <= |cells|
    && (forall k :: 0 <= k < |groups| ==> GroupOk(cells, srcs, base, groups, k))
    && aux == SideList(cells, base, groups)
    && (|groups| == |cells| ==> cells[Pos(base, |cells| - 1, |cells|)].aux)
  }

  /** The next cell is written as a plain completion; the ring must not become full by it. */
  lemma RingWrite<C>(cells: seq<Cell<C>>, srcs: seq<int>, base: nat, groups: seq<seq<Item<C>>>, aux: seq<Aux<C>>,
                     comp: C, srcs': seq<int>)
    requires Ring(cells, srcs, base, groups, aux) && |groups| + 1 < |cells|
    requires |srcs'| == |srcs|
    requires forall i :: 0 <= i < |srcs| && i != Pos(base, |groups|, |cells|) ==> srcs'[i] == srcs[i]
    ensures var i := Pos(base, |groups|, |cells|);
            Ring(cells[i := Cell(comp, false)], srcs', base, groups + [[Item(comp, 0, SrcAt(srcs', i))]], aux)
  {
    var n := |groups|;
    var i := Pos(base, n, |cells|);
    var cells', g := cells[i := Cell(comp, false)], [Item(comp, 0, SrcAt(srcs', i))];
    forall k | 0 <= k < n ensures Pos(base, k, |cells|) != i { PosApart(base, k, n, |cells|); }
    SideFrame(cells, cells', base, groups);
    SideAppend(cells', base, groups, g);
    forall k | 0 <= k <= n ensures GroupOk(cells', srcs', base, groups + [g], k) {
      if k < n { assert GroupOk(cells, srcs, base, groups, k); }
    }
  }

  /** A fresh AUX cell with one side entry. */
  lemma RingAux<C>(cells: seq<Cell<C>>, srcs: seq<int>, base: nat, groups: seq<seq<Item<C>>>, aux: seq<Aux<C>>,
                   x: Item<C>)
    requires Ring(cells, srcs, base, groups, aux) && |groups| < |cells|
    ensures var i := Pos(base, |groups|, |cells|);
            Ring(cells[i := cells[i].(aux := true)], srcs, base, groups + [[x]], aux + [Aux(i, x)])
  {
    var n := |groups|;
    var i := Pos(base, n, |cells|);
    var cells' := cells[i := cells[i].(aux := true)];
    forall k | 0 <= k < n ensures Pos(base, k, |cells|) != i { PosApart(base, k, n, |cells|); }
    SideFrame(cells, cells', base, groups);
    SideAppend(cells', base, groups, [x]);
    assert Tagged(i, [x]) == [Aux(i, x)];
    forall k | 0 <= k <= n ensures GroupOk(cells', srcs, base, groups + [[x]], k) {
      if k < n { assert GroupOk(cells, srcs, base, groups, k); }
    }
  }

  /** With the ring full, a side entry joins the run of the tail cell. */
  lemma RingJoin<C>(cells: seq<Cell<C>>, srcs: seq<int>, base: nat, groups: seq<seq<Item<C>>>, aux: seq<Aux<C>>,
                    x: Item<C>)
    requires Ring(cells, srcs, base, groups, aux) && |groups| == |cells|
    ensures var n := |groups| - 1;
            var i := Pos(base, n, |cells|);
            cells[i].aux && Ring(cells, srcs, base, groups[n := groups[n] + [x]], aux + [Aux(i, x)])
  {
    var n := |groups| - 1;
    var i := Pos(base, n, |cells|);
    var groups' := groups[n := groups[n] + [x]];
    assert groups'[..n] == groups[..n];
    assert Tagged(i, groups[n] + [x]) == Tagged(i, groups[n]) + [Aux(i, x)];
    forall k | 0 <= k <= n ensures GroupOk(cells, srcs, base, groups', k) {
      assert GroupOk(cells, srcs, base, groups, k);
    }
  }

  /** The head cell, once its last completion is gone, is given back. */
  lemma RingDiscard<C>(cells: seq<Cell<C>>, srcs: seq<int>, base: nat, groups: seq<seq<Item<C>>>, aux: seq<Aux<C>>)
    requires Ring(cells, srcs, base, groups, aux) && groups != []
    ensures var i := Pos(base, 0, |cells|);
            var m := if cells[i].aux then |groups[0]| else 0;
            && |aux| >= m && aux[..m] == SideRun(cells, i, groups[0])
            && Ring(cells, srcs, base + 1, groups[1..], aux[m..])
            && (forall x :: x in aux[m..] ==> x.slot != i)
  {
    var i, b1, rest := Pos(base, 0, |cells|), base + 1, groups[1..];
    SideFirst(cells, base, groups);
    forall k | 0 <= k < |rest| ensures Pos(b1, k, |cells|) != i {
      PosApart(base, 0, k + 1, |cells|);
    }
    forall k | 0 <= k < |rest| ensures GroupOk(cells, srcs, b1, rest, k) {
      assert GroupOk(cells, srcs, base, groups, k + 1);
      assert Pos(base, k + 1, |cells|) == Pos(b1, k, |cells|);
    }
    SideElsewhere(cells, b1, rest, i);
  }

  /** The first side entry of an AUX head cell is taken; the cell keeps the rest of its run. */
  lemma RingShrink<C>(cells: seq<Cell<C>>, srcs: seq<int>, base: nat, groups: seq<seq<Item<C>>>, aux: seq<Aux<C>>)
    requires Ring(cells, srcs, base, groups, aux) && groups != [] && cells[Pos(base, 0, |cells|)].aux && |groups[0]| > 1
    ensures |aux| > 1 && aux[1].slot == Pos(base, 0, |cells|)
    ensures Ring(cells, srcs, base, groups[0 := groups[0][1..]], aux[1..])
  {
    var i, g := Pos(base, 0, |cells|), groups[0];
    var groups', rest := groups[0 := g[1..]], SideList(cells, base + 1, groups[1..]);
    assert aux == Tagged(i, g) + rest by { SideFirst(cells, base, groups); }
    assert SideList(cells, base, groups') == Tagged(i, g[1..]) + rest by {
      SideFirst(cells, base, groups');
      assert groups'[1..] == groups[1..];
    }
    TaggedTail(i, g, rest);
    ShrinkGroups(cells, srcs, base, groups, groups');
  }

  lemma TaggedTail<C>(i: nat, g: seq<Item<C>>, rest: seq<Aux<C>>)
    requires |g| > 1
    ensures (Tagged(i, g) + rest)[1..] == Tagged(i, g[1..]) + rest && (Tagged(i, g) + rest)[1].slot == i
  {
  }

  lemma ShrinkGroups<C>(cells: seq<Cell<C>>, srcs: seq<int>, base: nat, groups: seq<seq<Item<C>>>,
                        groups': seq<seq<Item<C>>>)
    requires 0 < |cells| && groups != [] && cells[Pos(base, 0, |cells|)].aux && |groups[0]| > 1
    requires forall k :: 0 <= k < |groups| ==> GroupOk(cells, srcs, base, groups, k)
    requires groups' == groups[0 := groups[0][1..]]
    ensures forall k :: 0 <= k < |groups'| ==> GroupOk(cells, srcs, base, groups', k)
  {
    forall k | 0 <= k < |groups'| ensures GroupOk(cells, srcs, base, groups', k) {
      assert GroupOk(cells, srcs, base, groups, k);
    }
  }

  /** The groups after a side entry x: a group of its own while there is room, else at the end of the last. */
  ghost function WithAux<C>(groups: seq<seq<Item<C>>>, size: nat, x: Item<C>): (r: seq<seq<Item<C>>>)
    requires 0 < size
    ensures r != []
  {
    if |groups| < size then groups + [[x]] else groups[|groups| - 1 := groups[|groups| - 1] + [x]]
  }

  lemma RingInsert<C>(cells: seq<Cell<C>>, srcs: seq<int>, base: nat, groups: seq<seq<Item<C>>>, aux: seq<Aux<C>>,
                      x: Item<C>)
    requires Ring(cells, srcs, base, groups, aux)
    ensures var groups' := WithAux(groups, |cells|, x);
            var i := Pos(base, |groups'| - 1, |cells|);
            && Ring(cells[i := cells[i].(aux := true)], srcs, base, groups', aux + [Aux(i, x)])
            && Flatten(groups') == Flatten(groups) + [x]
  {
    if |groups| < |cells| {
      RingAux(cells, srcs, base, groups, aux, x);
      FlattenAppend(groups, [x]);
    } else {
      RingJoin(cells, srcs, base, groups, aux, x);
      FlattenLast(groups, x);
      var i := Pos(base, |groups| - 1, |cells|);
      assert cells[i := cells[i].(aux := true)] == cells;
    }
  }

  /** The head cell is given back when no further side entry names it. */
  predicate LastOfRun<C>(aux: seq<Aux<C>>, slot: nat) {
    aux == [] || aux[0].slot != slot
  }

  lemma HeadEntry<C>(cells: seq<Cell<C>>, srcs: seq<int>, base: nat, groups: seq<seq<Item<C>>>, aux: seq<Aux<C>>)
    requires Ring(cells, srcs, base, groups, aux) && groups != [] && cells[Pos(base, 0, |cells|)].aux
    ensures groups[0] != [] && aux != [] && aux[0] == Aux(Pos(base, 0, |cells|), groups[0][0])
  {
    RingDiscard(cells, srcs, base, groups, aux);
    assert GroupOk(cells, srcs, base, groups, 0);
    assert aux[0] == aux[..|groups[0]|][0];
  }

  /** Taking the first side entry, and the head cell with it exactly when that was the last of its run. */
  lemma RingPop<C>(cells: seq<Cell<C>>, srcs: seq<int>, base: nat, groups: seq<seq<Item<C>>>, aux: seq<Aux<C>>)
    requires Ring(cells, srcs, base, groups, aux) && groups != []
    requires groups[0] != [] && cells[Pos(base, 0, |cells|)].aux && aux != []
    ensures LastOfRun(aux[1..], Pos(base, 0, |cells|)) <==> |groups[0]| == 1
    ensures |groups[0]| == 1 ==> Ring(cells, srcs, base + 1, groups[1..], aux[1..])
    ensures |groups[0]| > 1 ==> Ring(cells, srcs, base, groups[0 := groups[0][1..]], aux[1..])
  {
    if |groups[0]| == 1 {
      RingDiscard(cells, srcs, base, groups, aux);
      if aux[1..] != [] { assert aux[1..][0] in aux[1..]; }
    } else {
      RingShrink(cells, srcs, base, groups, aux);
    }
  }

  lemma FlattenFirst<C>(groups: seq<seq<Item<C>>>)
    requires groups != [] && groups[0] != []
    ensures Flatten(groups) != [] && Flatten(groups)[0] == groups[0][0]
    ensures |groups[0]| == 1 ==> Flatten(groups[1..]) == Flatten(groups)[1..]
    ensures Flatten(groups[0 := groups[0][1..]]) == Flatten(groups)[1..]
  {
    assert groups[0 := groups[0][1..]][1..] == groups[1..];
  }

  /** How many completions stand before the first error. */
  ghost function Clean<C>(items: seq<Item<C>>): (n: nat)
    ensures n <= |items| && (n < |items| ==> items[n].err != 0)
    ensures forall i :: 0 <= i < n ==> items[i].err == 0
  {
    if items == [] || items[0].err != 0 then 0 else 1 + Clean(items[1..])
  }

  /** What a reader of up to `count` entries gets from a queue that holds `items` in `used` ring slots. */
  ghost function Readable<C>(items: seq<Item<C>>, used: nat, count: nat): (r: ReadResult<C>) {
    if items == [] then Again
    else if count > 0 && items[0].err != 0 then ErrAvail
    else Got(items[..Min(Min(count, used), Clean(items))])
  }

  /** The read loop took `items` from the front of `all`: n of them, or fewer up to an error. */
  ghost predicate Batch<C>(all: seq<Item<C>>, items: seq<Item<C>>, rest: seq<Item<C>>, n: nat, stopped: bool) {
    && all == items + rest
    && (forall k :: 0 <= k < |items| ==> items[k].err == 0)
    && if stopped then |items| < n && rest != [] && rest[0].err != 0 else |items| == n
  }

  lemma BatchMore<C>(all: seq<Item<C>>, items: seq<Item<C>>, rest: seq<Item<C>>, x: Item<C>, rest': seq<Item<C>>)
    requires Batch(all, items, rest, |items|, false) && rest != [] && rest[0] == x && x.err == 0 && rest' == rest[1..]
    ensures Batch(all, items + [x], rest', |items| + 1, false)
  {
    assert items + rest == (items + [x]) + rest';
  }

  lemma BatchIsReadable<C>(all: seq<Item<C>>, items: seq<Item<C>>, rest: seq<Item<C>>, used: nat, count: nat,
                           stopped: bool)
    requires all != [] && used > 0 && Batch(all, items, rest, Min(count, used), stopped)
    ensures Readable(all, used, count) == if stopped && items == [] then ErrAvail else Got(items)
    ensures rest == all[|items|..]
  {
    assert forall k :: 0 <= k < |items| ==> all[k] == items[k];
    if stopped { assert all[|items|] == rest[0]; }
    assert all[..|items|] == items;
  }

  /** A call on the queue; `oom` says whether an allocation it needs fails. */
  datatype Call<C> =
    | DoWrite(comp: C, oom: bool)
    | DoWriteSrc(comp: C, src: int, oom: bool)
    | DoWriteError(comp: C, err: int, oom: bool)
    | DoRead(count: nat)
    | DoReadErr(oom: bool)

  /** What completions report: the completion itself and its error code, in order. */
  ghost function Reports<C>(items: seq<Item<C>>): (r: seq<(C, int)>)
    ensures |r| == |items| && forall i :: 0 <= i < |items| ==> r[i] == (items[i].comp, items[i].err)
  {
    seq(|items|, i requires 0 <= i < |items| => (items[i].comp, items[i].err))
  }

  /** What a call puts into the queue if it succeeds. */
  function Posted<C>(call: Call<C>): (r: seq<(C, int)>) {
    match call
    case DoWrite(comp, _) => [(comp, 0)]
    case DoWriteSrc(comp, _, _) => [(comp, 0)]
    case DoWriteError(comp, err, _) => [(comp, err)]
    case _ => []
  }

  /** What a caller gets back: whether a write succeeded, or what a read returns. */
  datatype Answer<C> = Wrote(ok: bool) | Read(r: ReadResult<C>) {
    function Got(): (items: seq<Item<C>>) {
      if Read? then r.Items() else []
    }

    predicate Accepted() {
      Wrote? && ok
    }
  }

  /** The FIFO, and how many ring slots hold it. */
  datatype State<C> = State(queue: seq<Item<C>>, used: nat)

  /**
   What a read of up to `count` entries returns: nothing to read, an error at the head, or entries without one.
   It returns fewer than asked for only if it met an error, or had returned as many as there were slots in use.
   */
  ghost predicate ReadOut<C>(s: State<C>, count: nat, r: ReadResult<C>, s': State<C>) {
    var got := r.Items();
    && s.queue == got + s'.queue && |got| <= count && (forall i :: 0 <= i < |got| ==> got[i].err == 0)
    && (r == Again <==> s.queue == [])
    && (r == ErrAvail <==> count > 0 && s.queue != [] && s.queue[0].err != 0)
    && (r.Got? ==> |got| == count || |got| == s.used || (s'.queue != [] && s'.queue[0].err != 0))
    && !r.NoMem?
  }

  /** One call on the unbounded FIFO in state s, which leaves s'; the ring has `size` slots. */
  ghost predicate Serves<C>(size: nat, s: State<C>, call: Call<C>, a: Answer<C>, s': State<C>) {
    var q, q' := s.queue, s'.queue;
    && (q' == [] <==> s'.used == 0) && s'.used <= |q'|
    && (call.DoRead? || call.DoReadErr? ==> s'.used >= s.used - |a.Got()|)
    && match call
       case DoRead(count) => a.Read? && ReadOut(s, count, a.r, s')
       case DoReadErr(oom) =>
         if q == [] || q[0].err == 0 then a == Read(Again) && q' == q
         else if oom then a == Read(NoMem) && q' == q
         else a == Read(Got([q[0]])) && q' == q[1..]
       case _ =>
         // a write needs memory only for the side list: for an error, or with no more than one slot free
         && a == Wrote(!call.oom || (!call.DoWriteError? && s.used + 1 < size))
         && if a.ok then
              && |q'| == |q| + 1 && q' == q + [q'[|q|]] && Posted(call) == [(q'[|q|].comp, q'[|q|].err)]
              && (call.DoWriteSrc? ==> q'[|q|].src == call.src) && s'.used == if s.used < size then s.used + 1 else size
            else s' == s
  }

  /** The reports of those of the first n calls that succeeded, in call order. */
  ghost function AllPosted<C>(calls: seq<Call<C>>, answers: seq<Answer<C>>, n: nat): (r: seq<(C, int)>)
    requires n <= |calls| && n <= |answers|
  {
    if n == 0 then []
    else AllPosted(calls, answers, n - 1) + if answers[n - 1].Accepted() then Posted(calls[n - 1]) else []
  }

  /** What the first n calls handed out, in order. */
  ghost function AllGot<C>(answers: seq<Answer<C>>, n: nat): (r: seq<Item<C>>)
    requires n <= |answers|
  {
    if n == 0 then [] else AllGot(answers, n - 1) + answers[n - 1].Got()
  }

  /** The queue went through `states` as the calls were served. */
  ghost predicate Trace<C>(size: nat, states: seq<State<C>>, calls: seq<Call<C>>, answers: seq<Answer<C>>) {
    && |states| == |answers| + 1 && |answers| <= |calls|
    && forall n :: 0 <= n < |answers| ==> Serves(size, states[n], calls[n], answers[n], states[n + 1])
  }

  /** Nothing is lost, repeated or reordered from `before` and `posted` to `got` and `after`. */
  ghost predicate Conserved<C>(before: seq<Item<C>>, posted: seq<(C, int)>, got: seq<Item<C>>, after: seq<Item<C>>) {
    Reports(before) + posted == Reports(got) + Reports(after)
  }

  lemma ServedConserves<C>(size: nat, s: State<C>, call: Call<C>, a: Answer<C>, s': State<C>)
    requires Serves(size, s, call, a, s')
    ensures Conserved(s.queue, if a.Accepted() then Posted(call) else [], a.Got(), s'.queue)
  {
    var q, q' := s.queue, s'.queue;
    if call.DoRead? || call.DoReadErr? {
      assert q == a.Got() + q';
      ReportsSplit(a.Got(), q');
    } else if a.ok {
      ReportsSplit(q, [q'[|q|]]);
    }
  }

  lemma ReportsSplit<C>(a: seq<Item<C>>, b: seq<Item<C>>)
    ensures Reports(a + b) == Reports(a) + Reports(b)
  {
  }

  lemma ConservedThen<C>(a: seq<Item<C>>, p: seq<(C, int)>, g: seq<Item<C>>, b: seq<Item<C>>,
                         p': seq<(C, int)>, g': seq<Item<C>>, c: seq<Item<C>>)
    requires Conserved(a, p, g, b) && Conserved(b, p', g', c)
    ensures Conserved(a, p + p', g + g', c)
  {
    assert Reports(g + g') == Reports(g) + Reports(g');
    calc {
      Reports(a) + (p + p');
      (Reports(a) + p) + p';
      Reports(g) + (Reports(b) + p');
      Reports(g + g') + Reports(c);
    }
  }

  /** Over any run, what readers got, followed by what is still queued, is what was posted, in order. */
  lemma {:induction false} TraceConserves<C>(size: nat, states: seq<State<C>>, calls: seq<Call<C>>,
                                             answers: seq<Answer<C>>, n: nat)
    requires Trace(size, states, calls, answers) && n <= |answers|
    ensures Conserved(states[0].queue, AllPosted(calls, answers, n), AllGot(answers, n), states[n].queue)
  {
    if n > 0 {
      var k := n - 1;
      TraceConserves(size, states, calls, answers, k);
      ServedConserves(size, states[k], calls[k], answers[k], states[n]);
      ConservedThen(states[0].queue, AllPosted(calls, answers, k), AllGot(answers, k), states[k].queue,
                    if answers[k].Accepted() then Posted(calls[k]) else [], answers[k].Got(), states[n].queue);
    }
  }

  lemma TraceNext<C>(size: nat, states: seq<State<C>>, calls: seq<Call<C>>, answers: seq<Answer<C>>, a: Answer<C>,
                     s: State<C>)
    requires |answers| < |calls| && |answers| < |states|
    ensures Trace(size, states, calls, answers) && Serves(size, states[|answers|], calls[|answers|], a, s)
            ==> Trace(size, states + [s], calls, answers + [a])
  {
  }

  /** A batch read reads out the FIFO: as long as a slot is in use for every queue that is not empty. */
  lemma ReadsOut<C>(s: State<C>, count: nat, r: ReadResult<C>, s': State<C>)
    requires r == Readable(s.queue, s.used, count) && s.queue == r.Items() + s'.queue
    requires (s.queue != [] ==> s.used > 0) && s.used <= |s.queue|
    ensures ReadOut(s, count, r, s')
  {
    if r.Got? && |r.items| < |s.queue| { assert s'.queue[0] == s.queue[|r.items|]; }
  }

  class Cq<C> {
    const size: nat
    ghost const log2: nat
    const cells: array<Cell<C>>
    const srcs: array<int>
    const hasSrc: bool
    var rcnt: nat
    var wcnt: nat
    var auxQueue: seq<Aux<C>>
    ghost var base: nat
    ghost var groups: seq<seq<Item<C>>>

    ghost predicate Shaped()
      reads `rcnt, `wcnt, `base, `groups
    {
      && log2 <= 63 && size == Pow2(log2) == cells.Length && (if hasSrc then srcs.Length == size else srcs.Length == 0)
      && |groups| <= size && rcnt == Count(base) && wcnt == Count(base + |groups|)
    }

    ghost predicate Valid()
      reads this, cells, srcs
    {
      && Shaped()
      && Ring(cells[..], srcs[..], base, groups, auxQueue)
      && (!hasSrc ==> forall x :: x in auxQueue && x.item.err == 0 ==> x.item.src == NOTAVAIL)
    }

    /** The FIFO the queue stands for. */
    ghost function Contents(): (items: seq<Item<C>>)
      reads `groups
    {
      Flatten(groups)
    }

    ghost function Now(): (s: State<C>)
      reads `groups
    {
      State(Contents(), |groups|)
    }

    /** How many slots were ever taken: where the next one is. */
    ghost function WritePos(): (n: nat)
      reads `base, `groups
    {
      base + |groups|
    }

    constructor (ghost log2: nat, size: nat, hasSrc: bool, blank: C)
      requires log2 <= 63 && size == Pow2(log2)
      ensures Valid() && Contents() == [] && groups == [] && WritePos() == 0 && fresh(cells) && fresh(srcs)
      ensures this.size == size && this.hasSrc == hasSrc && forall i :: 0 <= i < srcs.Length ==> srcs[i] == 0
    {
      this.log2, this.size, this.hasSrc := log2, size, hasSrc;
      cells := new Cell<C>[size](_ => Cell(blank, false));
      srcs := new int[if hasSrc then size else 0](_ => 0);
      rcnt, wcnt, auxQueue, base, groups := 0, 0, [], 0, [];
    }

    /** `ofi_cirque_usedcnt` */
    method UsedCnt() returns (n: nat)
      requires Shaped()
      ensures n == |groups|
    {
      n := Sub(wcnt, rcnt);
      RingFits(log2);
      SubCount(base, |groups|);
    }

    lemma Index(k: nat)
      requires Shaped()
      ensures Slot(Count(base + k), size) == Pos(base, k, size)
    {
      SlotOfCount(base + k, log2);
    }

    /** `ofi_cirque_rindex` */
    method HeadIndex() returns (i: nat)
      requires Shaped()
      ensures i == Pos(base, 0, size)
    {
      Index(0);
      i := Slot(rcnt, size);
    }

    /** `ofi_cirque_windex` */
    method NextIndex() returns (i: nat)
      requires Shaped()
      ensures i == Pos(base, |groups|, size)
    {
      Index(|groups|);
      i := Slot(wcnt, size);
    }

    /** `ofi_cirque_tindex` */
    method TailIndex() returns (i: nat)
      requires Shaped() && groups != []
      ensures i == Pos(base, |groups| - 1, size)
    {
      SubOne(base + |groups| - 1);
      Index(|groups| - 1);
      i := Slot(Sub(wcnt, 1), size);
    }

    /** `ofi_cirque_commit` */
    method Commit(ghost g: seq<Item<C>>)
      requires Shaped() && |groups| < size
      modifies `wcnt, `groups
      ensures Shaped() && groups == old(groups) + [g]
    {
      AddCount(base + |groups|, 1);
      wcnt, groups := Add(wcnt, 1), groups + [g];
    }

    /** `ofi_cq_write_entry`: the completion takes the next ring cell. */
    method WriteEntry(comp: C)
      requires Valid() && |groups| + 1 < size
      modifies cells, `wcnt, `groups
      ensures Valid()
      ensures groups == old(groups) + [[Item(comp, 0, SrcAt(srcs[..], Pos(base, old(|groups|), size)))]]
    {
      RingWrite(cells[..], srcs[..], base, groups, auxQueue, comp, srcs[..]);
      var i := NextIndex();
      cells[i] := Cell(comp, false);
      Commit([Item(comp, 0, SrcAt(srcs[..], i))]);
    }

    /** `ofi_cq_write_src_entry` */
    method WriteSrcEntry(comp: C, src: int)
      requires Valid() && |groups| + 1 < size && hasSrc
      modifies cells, srcs, `wcnt, `groups
      ensures Valid() && groups == old(groups) + [[Item(comp, 0, src)]]
      ensures srcs[..] == old(srcs[..])[old(WritePos()) % size := src]
    {
      var i := NextIndex();
      RingWrite(cells[..], srcs[..], base, groups, auxQueue, comp, srcs[..][i := src]);
      srcs[i] := src;
      cells[i] := Cell(comp, false);
      Commit([Item(comp, 0, src)]);
    }

    /** The cell for a side entry x: the next one while there is room, else the tail. */
    method Reserve(ghost x: Item<C>) returns (i: nat)
      requires Shaped()
      modifies `wcnt, `groups
      ensures Shaped() && groups == WithAux(old(groups), size, x) && i == Pos(base, |groups| - 1, size)
    {
      var used := UsedCnt();
      if used < size {
        Commit([x]);
      } else {
        groups := WithAux(groups, size, x);
      }
      i := TailIndex();
    }

    /** `util_cq_insert_aux`: the entry joins the FIFO at its end, whether the ring has room or not. */
    method InsertAux(x: Item<C>)
      requires Valid() && (!hasSrc && x.err == 0 ==> x.src == NOTAVAIL)
      modifies cells, `wcnt, `auxQueue, `groups
      ensures Valid() && groups == WithAux(old(groups), size, x) && Contents() == old(Contents()) + [x]
    {
      ghost var before := cells[..];
      RingInsert(before, srcs[..], base, groups, auxQueue, x);
      var i := Reserve(x);
      cells[i] := cells[i].(aux := true);
      assert cells[..] == before[i := before[i].(aux := true)];
      auxQueue := auxQueue + [Aux(i, x)];
    }

    method Discard()
      requires Shaped() && groups != []
      modifies `rcnt, `base, `groups
      ensures Shaped() && base == old(base) + 1 && groups == old(groups)[1..]
    {
      AddCount(base, 1);
      rcnt, base, groups := Add(rcnt, 1), base + 1, groups[1..];
    }

    /** The head cell is AUX: drop its first side entry, and the cell when its run is over. */
    method PopAux()
      requires Valid() && groups != [] && cells[Pos(base, 0, size)].aux
      modifies `rcnt, `auxQueue, `base, `groups
      ensures Valid() && |groups| >= old(|groups|) - 1 && WritePos() == old(WritePos())
      ensures old(Contents()) != [] && Contents() == old(Contents())[1..]
    {
      HeadEntry(cells[..], srcs[..], base, groups, auxQueue);
      RingPop(cells[..], srcs[..], base, groups, auxQueue);
      FlattenFirst(groups);
      var i := HeadIndex();
      auxQueue := auxQueue[1..];
      if LastOfRun(auxQueue, i) {
        Discard();
      } else {
        groups := groups[0 := groups[0][1..]];
      }
    }

    /** One turn of the read loop: take the head completion, unless it is an error. */
    method ReadHead() returns (x: Item<C>)
      requires Valid() && groups != []
      modifies `rcnt, `auxQueue, `base, `groups
      ensures Valid() && |groups| >= old(|groups|) - 1 && WritePos() == old(WritePos())
      ensures old(Contents()) != [] && x == old(Contents())[0]
      ensures if x.err != 0 then unchanged(this) else Contents() == old(Contents())[1..]
    {
      assert GroupOk(cells[..], srcs[..], base, groups, 0);
      FlattenFirst(groups);
      var i := HeadIndex();
      if !cells[i].aux {
        x := Item(cells[i].comp, 0, if hasSrc then srcs[i] else NOTAVAIL);
        RingDiscard(cells[..], srcs[..], base, groups, auxQueue);
        Discard();
      } else {
        HeadEntry(cells[..], srcs[..], base, groups, auxQueue);
        x := auxQueue[0].item;
        if x.err == 0 {
          x := x.(src := if hasSrc then x.src else NOTAVAIL);
          PopAux();
        }
      }
    }

    /** The read loop, up to n entries or an error at the head. */
    method ReadUpTo(n: nat) returns (items: seq<Item<C>>, stopped: bool)
      requires Valid() && n <= |groups|
      modifies `rcnt, `auxQueue, `base, `groups
      ensures Valid() && Batch(old(Contents()), items, Contents(), n, stopped) && WritePos() == old(WritePos())
      ensures |groups| >= old(|groups|) - |items|
    {
      items, stopped := [], false;
      ghost var used := |groups|;
      while |items| < n && !stopped
        invariant Valid() && |groups| >= used - |items| && WritePos() == old(WritePos())
        invariant Batch(old(Contents()), items, Contents(), |items| + (if stopped then 1 else 0), stopped)
        invariant |items| + (if stopped then 1 else 0) <= n
        decreases n - |items|, !stopped
      {
        ghost var before := Contents();
        var x := ReadHead();
        if x.err != 0 {
          stopped := true;
        } else {
          BatchMore(old(Contents()), items, before, x, Contents());
          items := items + [x];
        }
      }
    }

    /** `ofi_cq_read_entries`: the completions before the first error, in order, and no others leave. */
    method Read(count: nat) returns (r: ReadResult<C>)
      requires Valid()
      modifies `rcnt, `auxQueue, `base, `groups
      ensures Valid() && r == Readable(old(Contents()), old(|groups|), count) && WritePos() == old(WritePos())
      ensures ReadOut(old(Now()), count, r, Now()) && |groups| >= old(|groups|) - |r.Items()|
    {
      var used := UsedCnt();
      NoSlots();
      if used == 0 {
        return Again;
      }
      var items, stopped := ReadUpTo(Min(count, used));
      BatchIsReadable(old(Contents()), items, Contents(), used, count, stopped);
      r := if stopped && items == [] then ErrAvail else Got(items);
      ReadsOut(old(Now()), count, r, Now());
    }

    /** `ofi_cq_readerr`: the head completion if it is an error; successful ones stay. */
    method ReadErr(oom: bool) returns (r: ReadResult<C>)
      requires Valid()
      modifies `rcnt, `auxQueue, `base, `groups
      ensures Valid() && WritePos() == old(WritePos()) && |groups| >= old(|groups|) - |r.Items()|
      ensures var c := old(Contents());
              r == if c == [] || c[0].err == 0 then Again else if oom then NoMem else Got([c[0]])
      ensures old(Contents()) == r.Items() + Contents()
    {
      var used := UsedCnt();
      if used == 0 {
        return Again;
      }
      assert GroupOk(cells[..], srcs[..], base, groups, 0);
      FlattenFirst(groups);
      var i := HeadIndex();
      if !cells[i].aux {
        return Again;
      }
      HeadEntry(cells[..], srcs[..], base, groups, auxQueue);
      var x := auxQueue[0].item;
      if x.err == 0 {
        return Again;
      }
      if oom {
        return NoMem;
      }
      PopAux();
      r := Got([x]);
    }

    /** The slots in use after a write that succeeded or not: a full ring stays full. */
    ghost function SlotsUsed(used: nat, ok: bool): (n: nat) {
      if ok && used < size then used + 1 else used
    }

    /** `ofi_cq_write_overflow` */
    method WriteOverflow(comp: C, src: int, oom: bool) returns (ok: bool)
      requires Valid() && |groups| + 1 >= size && (!hasSrc ==> src == NOTAVAIL)
      modifies cells, `wcnt, `auxQueue, `groups
      ensures Valid() && ok == !oom && |groups| == SlotsUsed(old(|groups|), ok)
      ensures Contents() == if ok then old(Contents()) + [Item(comp, 0, src)] else old(Contents())
    {
      if oom {
        return false;
      }
      InsertAux(Item(comp, 0, src));
      ok := true;
    }

    /** Whether a write finds more than the one cell that is kept for the side list. */
    method Room() returns (yes: bool)
      requires Shaped()
      ensures yes == (|groups| + 1 < size)
    {
      var used := UsedCnt();
      yes := size - used > 1;
    }

    /** `ofi_cq_write`. On a queue with addresses the cell keeps the address of an earlier entry. */
    method Write(comp: C, oom: bool) returns (ok: bool)
      requires Valid()
      modifies cells, `wcnt, `auxQueue, `groups
      ensures Valid() && ok == (!oom || old(|groups|) + 1 < size) && |groups| == SlotsUsed(old(|groups|), ok)
      ensures var stale := if old(|groups|) + 1 < size then SrcAt(srcs[..], old(WritePos()) % size) else NOTAVAIL;
              && Contents() == (if ok then old(Contents()) + [Item(comp, 0, stale)] else old(Contents()))
              && (stale == NOTAVAIL <==>
                  !hasSrc || old(|groups|) + 1 >= size || srcs[old(WritePos()) % size] == NOTAVAIL)
    {
      var room := Room();
      if room {
        FlattenAppend(groups, [Item(comp, 0, SrcAt(srcs[..], Pos(base, |groups|, size)))]);
        WriteEntry(comp);
        ok := true;
      } else {
        ok := WriteOverflow(comp, NOTAVAIL, oom);
      }
    }

    /** `ofi_cq_write_src` */
    method WriteSrc(comp: C, src: int, oom: bool) returns (ok: bool)
      requires Valid() && hasSrc
      modifies cells, srcs, `wcnt, `auxQueue, `groups
      ensures Valid() && ok == (!oom || old(|groups|) + 1 < size) && |groups| == SlotsUsed(old(|groups|), ok)
      ensures Contents() == if ok then old(Contents()) + [Item(comp, 0, src)] else old(Contents())
      ensures srcs[..] ==
              if old(|groups|) + 1 < size then old(srcs[..])[old(WritePos()) % size := src] else old(srcs[..])
    {
      var room := Room();
      if room {
        FlattenAppend(groups, [Item(comp, 0, src)]);
        WriteSrcEntry(comp, src);
        ok := true;
      } else {
        ok := WriteOverflow(comp, src, oom);
      }
    }

    /** `ofi_cq_write_error`: errors always go through the side list. */
    method WriteError(comp: C, err: int, oom: bool) returns (ok: bool)
      requires Valid() && err != 0
      modifies cells, `wcnt, `auxQueue, `groups
      ensures Valid() && ok == !oom && |groups| == SlotsUsed(old(|groups|), ok)
      ensures Contents() == if ok then old(Contents()) + [Item(comp, err, 0)] else old(Contents())
    {
      if oom {
        return false;
      }
      InsertAux(Item(comp, err, 0));
      ok := true;
    }

    /** What the callers of this queue must respect. */
    ghost predicate Allowed(call: Call<C>) {
      (call.DoWriteSrc? ==> hasSrc) && (call.DoWriteError? ==> call.err != 0)
    }

    /** A plain write; x is the completion it appends. */
    method PostPlain(comp: C, oom: bool) returns (ok: bool, ghost x: Item<C>)
      requires Valid()
      modifies cells, srcs, `wcnt, `auxQueue, `groups
      ensures Valid() && ok == (!oom || old(|groups|) + 1 < size) && |groups| == SlotsUsed(old(|groups|), ok)
      ensures x.comp == comp && x.err == 0 && Contents() == if ok then old(Contents()) + [x] else old(Contents())
    {
      x := Item(comp, 0, if |groups| + 1 < size then SrcAt(srcs[..], WritePos() % size) else NOTAVAIL);
      ok := Write(comp, oom);
    }

    /** Carry out one call that writes; x is the completion it appends. */
    method Post(call: Call<C>) returns (ok: bool, ghost x: Item<C>)
      requires Valid() && Allowed(call) && !call.DoRead? && !call.DoReadErr?
      modifies cells, srcs, `wcnt, `auxQueue, `groups
      ensures Valid() && ok == (!call.oom || (!call.DoWriteError? && old(|groups|) + 1 < size))
      ensures |groups| == SlotsUsed(old(|groups|), ok) <= size
      ensures Posted(call) == [(x.comp, x.err)] && (call.DoWriteSrc? ==> x.src == call.src)
      ensures Contents() == if ok then old(Contents()) + [x] else old(Contents())
    {
      match call
      case DoWrite(comp, oom) =>
        ok, x := PostPlain(comp, oom);
      case DoWriteSrc(comp, src, oom) =>
        x := Item(comp, 0, src);
        ok := WriteSrc(comp, src, oom);
      case DoWriteError(comp, err, oom) =>
        x := Item(comp, err, 0);
        ok := WriteError(comp, err, oom);
    }

    /** Carry out one call; it serves the FIFO. */
    method Perform(call: Call<C>) returns (a: Answer<C>)
      requires Valid() && Allowed(call)
      modifies this, cells, srcs
      ensures Valid() && Serves(size, old(Now()), call, a, Now())
    {
      NoSlots();
      match call {
        case DoRead(count) =>
          var r := Read(count);
          a := Answer.Read(r);
        case DoReadErr(oom) =>
          var r := ReadErr(oom);
          a := Answer.Read(r);
        case _ =>
          var ok; ghost var x;
          ok, x := Post(call);
          a := Wrote(ok);
      }
      NoSlots();
    }

    /**
     Over any run every call is served as an unbounded FIFO serves it: writes with memory succeed, reads get
     what is first, and what readers got, followed by what is still queued, is what was posted, in order.
     */
    method Run(calls: seq<Call<C>>) returns (answers: seq<Answer<C>>, ghost states: seq<State<C>>)
      requires Valid() && forall i :: 0 <= i < |calls| ==> Allowed(calls[i])
      modifies this, cells, srcs
      ensures Valid() && |answers| == |calls| && Trace(size, states, calls, answers)
      ensures states[0] == old(Now()) && states[|calls|] == Now()
      ensures Conserved(old(Contents()), AllPosted(calls, answers, |calls|), AllGot(answers, |calls|), Contents())
    {
      answers, states := [], [Now()];
      for n := 0 to |calls|
        invariant Valid() && |answers| == n && Trace(size, states, calls, answers)
        invariant states[0] == old(Now()) && states[n] == Now()
      {
        var a := Perform(calls[n]);
        TraceNext(size, states, calls, answers, a, Now());
        answers, states := answers + [a], states + [Now()];
      }
      TraceConserves(size, states, calls, answers, |calls|);
    }

    /** Every slot in use stands for at least one completion. */
    lemma NoSlots()
      requires Valid()
      ensures (Contents() == [] <==> groups == []) && |groups| <= |Contents()|
    {
      forall k | 0 <= k < |groups| ensures groups[k] != [] { assert GroupOk(cells[..], srcs[..], base, groups, k); }
      FlattenSize(groups);
    }
  }

  /** A completion with an address passes through an empty queue; the address stays behind in its slot. */
  method PassThrough<C>(q: Cq<C>, comp: C, src: int)
    requires q.Valid() && q.hasSrc && q.Contents() == [] && q.size > 1
    modifies q, q.srcs, q.cells
    ensures q.Valid() && q.Contents() == [] && q.WritePos() == old(q.WritePos()) + 1
    ensures q.srcs[..] == old(q.srcs[..])[old(q.WritePos()) % q.size := src]
  {
    q.NoSlots();
    var ok := q.WriteSrc(comp, src, false);
    var r := q.Read(1);
  }

  /** A completion without an address, through an empty queue, comes out with what its slot was left with. */
  method ReadBack<C>(q: Cq<C>, comp: C) returns (r: ReadResult<C>)
    requires q.Valid() && q.hasSrc && q.Contents() == [] && q.size > 1
    modifies q, q.srcs, q.cells
    ensures r == Got([Item(comp, 0, old(q.srcs[q.WritePos() % q.size]))])
  {
    q.NoSlots();
    var ok := q.Write(comp, false);
    r := q.Read(1);
  }

  /**
   On a queue of two slots that keeps addresses, a completion without an address reads back with the one
   that was stored in its slot two completions earlier.
   */
  method StaleAddress<C>(c: C) returns (r: ReadResult<C>)
    ensures r == Got([Item(c, 0, 7)])
  {
    assert Pow2(1) == 2;
    var q := new Cq(1, 2, true, c);
    PassThrough(q, c, 7);
    PassThrough(q, c, 8);
    r := ReadBack(q, c);
  }
}
