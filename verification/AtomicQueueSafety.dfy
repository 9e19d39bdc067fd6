/**
 Safety of the atomic queue over every run: what `_head` returns is exactly the
 committed entries in ticket order, nobody but its owner touches a cell, and
 refusals are accurate. All of it holds for sizes of at least two; at size one
 it is false, which a concrete run shows.
 */
module AtomicQueueSafety {
  import opened Basics
  import opened Bits
  import opened AtomicQueue

  function Exec<T>(w: World<T>, acts: seq<Action<T>>): (r: Option<World<T>>)
    requires Shaped(w)
    ensures r.Some? ==> Shaped(r.value) && r.value.size == w.size
  {
    if acts == [] then Some(w)
    else
      var r := Exec(w, acts[..|acts| - 1]);
      if r.None? then None else Step(r.value, acts[|acts| - 1])
  }

  /** The committed entries among the tickets, in ticket order. */
  function Entries<T>(ts: seq<Ticket<T>>): (es: seq<(nat, T)>) {
    if ts == [] then []
    else
      var t := ts[|ts| - 1];
      Entries(ts[..|ts| - 1]) + if !t.Open? && t.outcome.Entry? then [(|ts| - 1, t.outcome.payload)] else []
  }

  /** How many tickets the consumer is done inspecting. */
  function Taken<T>(w: World<T>): (n: nat) {
    if w.consumer.TestNoop? && w.readPos > 0 then w.readPos - 1 else w.readPos
  }

  /** No entry lost, duplicated, reordered or altered, neither when returned nor while held. */
  ghost predicate Safe<T>(w: World<T>)
    requires Shaped(w)
  {
    && Taken(w) <= |w.tickets|
    && (forall t :: 0 <= t < Taken(w) ==> !w.tickets[t].Open?)
    && w.delivered == Entries(w.tickets[..Taken(w)])
    && (forall pos :: pos in w.held ==> (pos, Get(w, pos).buf) in w.delivered)
  }

  ghost predicate SafeAtSize<T(!new)>(bufs: seq<T>)
    requires IsPow2(|bufs|)
  {
    forall acts: seq<Action<T>> :: Exec(Init(bufs), acts).Some? ==> Safe(Exec(Init(bufs), acts).value)
  }

  ghost predicate CellOk<T>(w: World<T>, t: int)
    requires Shaped(w) && w.size >= 2 && t < |w.tickets|
  {
    var c := w.cells[Ix(t, w.size)];
    if t < 0 then c.seqno == t + w.size && !c.noop
    else
      match w.tickets[t]
      case Open(p) =>
        c.seqno == t && (c.noop <==> At(w, p).NoopSet?) && (At(w, p).Claimed? ==> c.buf == At(w, p).val)
      case Ready(o) =>
        c.seqno == t + 1 && (c.noop <==> o.Noop?) && (o.Entry? ==> c.buf == o.payload)
      case Held(o) =>
        c.seqno == t + 1
        && (c.noop <==> o.Noop? && (w.consumer == TestNoop(t) || w.consumer == ClearNoop(t)))
        && (o.Entry? && w.consumer != StoreSeq(t, false) ==> c.buf == o.payload)
      case Done(_) =>
        c.seqno == t + w.size && !c.noop
  }

  ghost predicate ProducerOk<T>(w: World<T>, p: nat)
    requires Shaped(w) && w.size >= 2
  {
    match At(w, p)
    case HavePos(pos) => pos <= w.writePos
    case TryCas(pos) => pos <= w.writePos && (pos == w.writePos ==> w.cells[Ix(pos, w.size)].seqno == pos)
    case Claimed(pos, _) => pos < |w.tickets| && w.tickets[pos] == Open(p)
    case NoopSet(pos) => pos < |w.tickets| && w.tickets[pos] == Open(p)
    case _ => true
  }

  /** The ticket the consumer is working on, if any. */
  function Busy<T>(w: World<T>): (r: Option<nat>) {
    match w.consumer
    case Away => None
    case Heading => None
    case _ => Some(w.consumer.pos)
  }

  ghost predicate ConsumerOk<T>(w: World<T>) {
    && (Busy(w).Some? ==>
          var pos := Busy(w).value;
          pos < w.readPos && pos < |w.tickets| && w.tickets[pos].Held? && pos !in w.held)
    && (match w.consumer
        case TestNoop(pos) => pos + 1 == w.readPos
        case ClearNoop(pos) => pos < |w.tickets| && w.tickets[pos] == Held(Noop)
        case ResetBuf(pos, again) =>
          pos < |w.tickets| && w.tickets[pos].Held? && (again <==> w.tickets[pos].outcome.Noop?)
        case StoreSeq(pos, again) =>
          pos < |w.tickets| && w.tickets[pos].Held? && (again <==> w.tickets[pos].outcome.Noop?)
        case _ => true)
  }

  /** Which side of readPos a ticket is on, and who owns it. */
  ghost predicate TicketOk<T>(w: World<T>, t: nat)
    requires t < |w.tickets|
  {
    && (t < w.readPos <==> w.tickets[t].Held? || w.tickets[t].Done?)
    && (t < w.writePos - w.size ==> w.tickets[t].Done?)
    && (w.tickets[t].Open? ==>
          var s := At(w, w.tickets[t].owner);
          (s.Claimed? || s.NoopSet?) && s.pos == t)
    && (w.tickets[t].Held? ==> t in w.held || Busy(w) == Some(t))
  }

  ghost predicate HeldOk<T>(w: World<T>, t: nat) {
    t < |w.tickets| && w.tickets[t].Held? && w.tickets[t].outcome.Entry?
  }

  ghost predicate Inv<T>(w: World<T>) {
    && Shaped(w) && w.size >= 2
    && |w.tickets| == w.writePos && w.readPos <= w.writePos
    && (forall t :: w.writePos - w.size <= t < w.writePos ==> CellOk(w, t))
    && (forall t :: 0 <= t < w.writePos ==> TicketOk(w, t))
    && (forall p: nat :: ProducerOk(w, p))
    && ConsumerOk(w)
    && (forall t :: t in w.held ==> HeldOk(w, t))
    && w.delivered == Entries(w.tickets[..Taken(w)])
  }

  /** Tickets of one lap occupy different cells. */
  lemma Apart(n: nat)
    requires n > 0
    ensures forall a: int, b: int :: a - b < n && b - a < n && a != b ==> Ix(a, n) != Ix(b, n)
  {
    forall a: int, b: int | a - b < n && b - a < n && a != b ensures Ix(a, n) != Ix(b, n) {
      if a % n == b % n { SameSlot(a, b, n); }
    }
  }

  /** Marking a ticket without changing what it committed leaves the entries alone. */
  lemma {:induction false} EntriesSame<T>(a: seq<Ticket<T>>, b: seq<Ticket<T>>)
    requires |a| == |b|
    requires forall i :: 0 <= i < |a| ==> !a[i].Open? && !b[i].Open? && a[i].outcome == b[i].outcome
    ensures Entries(a) == Entries(b)
  {
    if a != [] { EntriesSame(a[..|a| - 1], b[..|b| - 1]); }
  }

  lemma InvInit<T>(bufs: seq<T>)
    requires IsPow2(|bufs|) && |bufs| >= 2
    ensures Inv(Init(bufs))
  {
    var w := Init(bufs);
    forall t: int | 0 - w.size <= t < 0 ensures CellOk(w, t) {
      ModUnique(t, w.size, -1, t + w.size);
    }
  }

  /** Moving a producer between positions it does not own. */
  lemma InvMove<T>(w: World<T>, p: nat, s: Producer<T>)
    requires Inv(w) && !At(w, p).Claimed? && !At(w, p).NoopSet?
    requires s.Idle? || s.Start? || s.HavePos? || s.TryCas?
    requires ProducerOk(Goto(w, p, s), p)
    ensures Inv(Goto(w, p, s))
  {
    var w' := Goto(w, p, s);
    forall t | w.writePos - w.size <= t < w.writePos ensures CellOk(w', t) {
      assert CellOk(w, t);
      if t >= 0 { assert TicketOk(w, t); }
    }
    forall t | 0 <= t < w.writePos ensures TicketOk(w', t) { assert TicketOk(w, t); }
    forall q: nat ensures ProducerOk(w', q) { assert ProducerOk(w, q); }
  }

  lemma InvScan<T>(w: World<T>, a: Action<T>)
    requires Inv(w) && (a.BeginNext? || a.LoadPos? || a.LoadSeq? || a.CasFail?) && Step(w, a).Some?
    ensures Inv(Step(w, a).value)
  {
    assert ProducerOk(w, a.p);
    InvMove(w, a.p, At(Step(w, a).value, a.p));
  }

  /** A claim: write_pos has not moved since, so the cell is still free for this ticket. */
  lemma InvCasOk<T>(w: World<T>, p: nat)
    requires Inv(w) && Step(w, CasOk(p)).Some?
    ensures Inv(Step(w, CasOk(p)).value)
    ensures Get(w, w.writePos).seqno == w.writePos == At(w, p).pos
  {
    var w' := Step(w, CasOk(p)).value;
    var n := w.size;
    assert ProducerOk(w, p);
    NextLap(w.writePos - n, n);
    assert CellOk(w, w.writePos - n);
    forall t | w'.writePos - n <= t < w'.writePos ensures CellOk(w', t) {
      if t < w.writePos {
        assert CellOk(w, t);
        if t >= 0 { assert TicketOk(w, t); }
      }
    }
    forall t | 0 <= t < w'.writePos ensures TicketOk(w', t) {
      if t < w.writePos {
        assert TicketOk(w, t);
        if t == w.writePos - n { assert CellOk(w, t); }
      }
    }
    forall q: nat ensures ProducerOk(w', q) { assert ProducerOk(w, q); }
    assert w'.tickets[..Taken(w')] == w.tickets[..Taken(w)];
  }

  /** w' differs from w only in the cell and the history of ticket pos and in producer p. */
  ghost predicate Touches<T>(w: World<T>, w': World<T>, p: nat, pos: nat)
    requires Shaped(w)
  {
    && Shaped(w') && w'.size == w.size && w'.writePos == w.writePos && |w'.tickets| == |w.tickets|
    && pos < |w.tickets|
    && (forall i :: 0 <= i < w.size && i != Ix(pos, w.size) ==> w'.cells[i] == w.cells[i])
    && (forall t :: 0 <= t < |w.tickets| && t != pos ==> w'.tickets[t] == w.tickets[t])
    && (forall q: nat :: q != p ==> At(w', q) == At(w, q))
  }

  lemma OtherCells<T>(w: World<T>, w': World<T>, p: nat, pos: nat, t: int)
    requires Inv(w) && Touches(w, w', p, pos) && w'.consumer == w.consumer
    requires w.writePos - w.size <= pos && w.writePos - w.size <= t < w.writePos && t != pos
    requires w.tickets[pos] == Open(p)
    ensures CellOk(w', t)
  {
    assert CellOk(w, t) && TicketOk(w, pos);
    if t >= 0 { assert TicketOk(w, t); }
    Apart(w.size);
  }

  /** No producer that is about to claim can be looking at a cell that is not free. */
  lemma OtherProducers<T>(w: World<T>, w': World<T>, p: nat, pos: nat, q: nat)
    requires Inv(w) && Touches(w, w', p, pos) && q != p
    requires w.writePos - w.size <= pos && CellOk(w, pos) && !w.tickets[pos].Done?
    requires !w.tickets[pos].Open? || w.tickets[pos] == Open(p)
    ensures ProducerOk(w', q)
  {
    assert ProducerOk(w, q);
    if At(w, q).TryCas? && At(w, q).pos == w.writePos {
      if pos == w.writePos - w.size {
        NextLap(pos, w.size);
        assert false;
      } else {
        Apart(w.size);
      }
    }
  }

  lemma InvOwned<T>(w: World<T>, w': World<T>, p: nat, pos: nat)
    requires Inv(w) && Touches(w, w', p, pos) && w.tickets[pos] == Open(p)
    requires w'.consumer == w.consumer && w'.held == w.held && w'.readPos == w.readPos && w'.delivered == w.delivered
    requires w.writePos - w.size <= pos && w'.size >= 2
    requires CellOk(w', pos) && TicketOk(w', pos) && ProducerOk(w', p)
    ensures Inv(w')
  {
    assert TicketOk(w, pos) && CellOk(w, pos);
    forall t | w.writePos - w.size <= t < w.writePos ensures CellOk(w', t) {
      if t != pos { OtherCells(w, w', p, pos, t); }
    }
    forall t | 0 <= t < w.writePos ensures TicketOk(w', t) { assert TicketOk(w, t); }
    forall q: nat ensures ProducerOk(w', q) {
      if q != p { OtherProducers(w, w', p, pos, q); }
    }
    assert w'.tickets[..Taken(w')] == w.tickets[..Taken(w)];
  }

  /** The owner of an open ticket writes its cell, commits it or discards it. */
  lemma InvOwner<T>(w: World<T>, a: Action<T>)
    requires Inv(w) && (a.WriteBuf? || a.Commit? || a.DiscardNoop? || a.DiscardSeq?) && Step(w, a).Some?
    ensures Inv(Step(w, a).value)
  {
    var pos := At(w, a.p).pos;
    assert ProducerOk(w, a.p);
    assert TicketOk(w, pos) && CellOk(w, pos);
    InvOwned(w, Step(w, a).value, a.p, pos);
  }

  lemma InvAway<T>(w: World<T>, c: Consumer)
    requires Inv(w) && Busy(w).None? && (c == Away || c == Heading)
    ensures Inv(w.(consumer := c))
  {
    var w' := w.(consumer := c);
    forall t | w.writePos - w.size <= t < w.writePos ensures CellOk(w', t) { assert CellOk(w, t); }
    forall t | 0 <= t < w.writePos ensures TicketOk(w', t) { assert TicketOk(w, t); }
    forall q: nat ensures ProducerOk(w', q) { assert ProducerOk(w, q); }
  }

  /** The consumer works on one ticket, and no other cell or ticket is affected. */
  lemma InvConsumed<T>(w: World<T>, w': World<T>, pos: nat)
    requires Inv(w) && (forall p: nat :: At(w', p) == At(w, p)) && Touches(w, w', 0, pos)
    requires w.tickets[pos].Ready? || w.tickets[pos].Held?
    requires Busy(w).None? || Busy(w) == Some(pos)
    requires Busy(w').None? || Busy(w') == Some(pos)
    requires w.held - {pos} == w'.held - {pos}
    requires w.writePos - w.size <= pos && w'.size >= 2 && w.readPos <= w'.readPos <= w.writePos
    requires w.readPos == w'.readPos || (pos == w.readPos && w'.readPos == pos + 1)
    requires CellOk(w', pos) && TicketOk(w', pos) && ConsumerOk(w')
    requires forall t :: t in w'.held ==> HeldOk(w', t)
    requires w'.delivered == Entries(w'.tickets[..Taken(w')])
    ensures Inv(w')
  {
    assert TicketOk(w, pos) && CellOk(w, pos);
    Apart(w.size);
    forall t | w.writePos - w.size <= t < w.writePos ensures CellOk(w', t) {
      assert CellOk(w, t);
    }
    forall t | 0 <= t < w.writePos ensures TicketOk(w', t) {
      assert TicketOk(w, t);
      assert t != pos && t in w.held ==> t in w.held - {pos};
    }
    forall q: nat ensures ProducerOk(w', q) {
      OtherProducers(w, w', q + 1, pos, q);
    }
  }

  /** What a matching head cell says: the ticket at read_pos is posted; and what a mismatch says. */
  lemma HeadCell<T>(w: World<T>)
    requires Inv(w)
    ensures Get(w, w.readPos).seqno == w.readPos + 1 <==> w.readPos < w.writePos && w.tickets[w.readPos].Ready?
    ensures w.readPos < w.writePos ==> w.writePos - w.size <= w.readPos && CellOk(w, w.readPos)
  {
    var n := w.size;
    if w.readPos < w.writePos {
      assert TicketOk(w, w.readPos);
      assert CellOk(w, w.readPos);
    } else {
      NextLap(w.readPos - n, n);
      assert CellOk(w, w.readPos - n);
    }
  }

  lemma InvHeadLoad<T>(w: World<T>)
    requires Inv(w) && Step(w, HeadLoad).Some?
    ensures Inv(Step(w, HeadLoad).value)
  {
    var w', pos := Step(w, HeadLoad).value, w.readPos;
    HeadCell(w);
    if Get(w, pos).seqno != pos + 1 {
      InvAway(w, Away);
    } else {
      assert TicketOk(w, pos);
      assert pos in w.held ==> HeldOk(w, pos);
      assert w'.tickets[..Taken(w')] == w.tickets[..Taken(w)];
      InvConsumed(w, w', pos);
    }
  }

  /** The entry or no-op under test: an entry joins the delivered ones, a no-op does not. */
  lemma InvHeadTest<T>(w: World<T>)
    requires Inv(w) && Step(w, HeadTest).Some?
    ensures Inv(Step(w, HeadTest).value)
  {
    var w', pos := Step(w, HeadTest).value, w.consumer.pos;
    assert TicketOk(w, pos) && CellOk(w, pos);
    assert w.tickets[..pos + 1][..pos] == w.tickets[..pos];
    InvConsumed(w, w', pos);
  }

  lemma InvClear<T>(w: World<T>, a: Action<T>)
    requires Inv(w) && (a.HeadClear? || a.Reset?) && Step(w, a).Some?
    ensures Inv(Step(w, a).value)
  {
    var w', pos := Step(w, a).value, w.consumer.pos;
    assert TicketOk(w, pos) && CellOk(w, pos);
    forall t | t in w'.held ensures HeldOk(w', t) { assert HeldOk(w, t); }
    InvConsumed(w, w', pos);
  }

  lemma InvBeginRelease<T>(w: World<T>, pos: nat)
    requires Inv(w) && Step(w, BeginRelease(pos)).Some?
    ensures Inv(Step(w, BeginRelease(pos)).value)
  {
    var w' := Step(w, BeginRelease(pos)).value;
    assert HeldOk(w, pos) && TicketOk(w, pos) && CellOk(w, pos);
    forall t | t in w'.held ensures HeldOk(w', t) { assert HeldOk(w, t); }
    InvConsumed(w, w', pos);
  }

  lemma InvReleaseStore<T>(w: World<T>)
    requires Inv(w) && Step(w, ReleaseStore).Some?
    ensures Inv(Step(w, ReleaseStore).value)
  {
    var w', pos := Step(w, ReleaseStore).value, w.consumer.pos;
    assert TicketOk(w, pos) && CellOk(w, pos);
    forall t | t in w'.held ensures HeldOk(w', t) { assert HeldOk(w, t); }
    forall t | 0 <= t < w.readPos ensures !w.tickets[t].Open? { assert TicketOk(w, t); }
    EntriesSame(w.tickets[..Taken(w)], w'.tickets[..Taken(w')]);
    InvConsumed(w, w', pos);
  }

  lemma InvStep<T>(w: World<T>, a: Action<T>)
    requires Inv(w) && Step(w, a).Some?
    ensures Inv(Step(w, a).value)
  {
    match a
    case BeginNext(_) => InvScan(w, a);
    case LoadPos(_) => InvScan(w, a);
    case LoadSeq(_) => InvScan(w, a);
    case CasFail(_, _) => InvScan(w, a);
    case CasOk(p) => InvCasOk(w, p);
    case WriteBuf(_, _) => InvOwner(w, a);
    case Commit(_) => InvOwner(w, a);
    case DiscardNoop(_) => InvOwner(w, a);
    case DiscardSeq(_) => InvOwner(w, a);
    case BeginHead => InvAway(w, Heading);
    case HeadLoad => InvHeadLoad(w);
    case HeadTest => InvHeadTest(w);
    case HeadClear => InvClear(w, a);
    case Reset(_) => InvClear(w, a);
    case BeginRelease(pos) => InvBeginRelease(w, pos);
    case ReleaseStore => InvReleaseStore(w);
  }

  /** The invariant holds in every state of every run. */
  lemma {:induction false} InvAlways<T>(bufs: seq<T>, acts: seq<Action<T>>)
    requires IsPow2(|bufs|) && |bufs| >= 2 && Exec(Init(bufs), acts).Some?
    ensures Inv(Exec(Init(bufs), acts).value)
  {
    if acts == [] {
      InvInit(bufs);
    } else {
      InvAlways(bufs, acts[..|acts| - 1]);
      InvStep(Exec(Init(bufs), acts[..|acts| - 1]).value, acts[|acts| - 1]);
    }
  }

  lemma {:induction false} EntriesHas<T>(ts: seq<Ticket<T>>, t: nat)
    requires t < |ts| && !ts[t].Open? && ts[t].outcome.Entry?
    ensures (t, ts[t].outcome.payload) in Entries(ts)
  {
    if t < |ts| - 1 { EntriesHas(ts[..|ts| - 1], t); }
  }

  lemma InvSafe<T>(w: World<T>)
    requires Inv(w)
    ensures Safe(w)
  {
    forall t | 0 <= t < Taken(w) ensures !w.tickets[t].Open? { assert TicketOk(w, t); }
    forall pos | pos in w.held ensures (pos, Get(w, pos).buf) in w.delivered {
      assert HeldOk(w, pos) && TicketOk(w, pos) && CellOk(w, pos);
      EntriesHas(w.tickets[..Taken(w)], pos);
    }
  }

  lemma {:induction false} ExecAppend<T>(w: World<T>, xs: seq<Action<T>>, ys: seq<Action<T>>)
    requires Shaped(w) && Exec(w, xs).Some?
    ensures Exec(w, xs + ys) == Exec(Exec(w, xs).value, ys)
  {
    if ys == [] {
      assert xs + ys == xs;
    } else {
      ExecAppend(w, xs, ys[..|ys| - 1]);
      assert (xs + ys)[..|xs + ys| - 1] == xs + ys[..|ys| - 1];
    }
  }

  lemma ExecThen<T>(w: World<T>, acts: seq<Action<T>>, a: Action<T>, w': World<T>, w'': World<T>)
    requires Shaped(w) && Exec(w, acts) == Some(w') && Step(w', a) == Some(w'')
    ensures Exec(w, acts + [a]) == Some(w'')
  {
    assert (acts + [a])[..|acts + [a]| - 1] == acts;
  }

  lemma GotoTwice<T>(w: World<T>, p: nat, s: Producer<T>, s': Producer<T>)
    ensures Goto(Goto(w, p, s), p, s') == Goto(w, p, s')
  {
    assert w.producers[p := s][p := s'] == w.producers[p := s'];
  }

  function Scanning<T>(p: nat): (acts: seq<Action<T>>) {
    [BeginNext(p)] + [LoadPos(p)] + [LoadSeq(p)]
  }

  function Posting<T>(p: nat, v: T): (acts: seq<Action<T>>) {
    Scanning(p) + [CasOk(p)] + [WriteBuf(p, v)]
  }

  /** The world after an undisturbed claim of the next ticket, and after the entry was written. */
  function ClaimedBy<T>(w: World<T>, p: nat): (w': World<T>)
    requires Shaped(w)
  {
    Goto(w, p, Claimed(w.writePos, Get(w, w.writePos).buf)).(
         writePos := w.writePos + 1, tickets := w.tickets + [Open(p)])
  }

  function WrittenBy<T>(w: World<T>, p: nat, v: T): (w': World<T>)
    requires Shaped(w)
  {
    Goto(SetCell(w, w.writePos, Get(w, w.writePos).(buf := v)), p, Claimed(w.writePos, v)).(
         writePos := w.writePos + 1, tickets := w.tickets + [Open(p)])
  }

  lemma Scan<T>(w: World<T>, p: nat)
    requires Shaped(w) && At(w, p).Idle? && Get(w, w.writePos).seqno == w.writePos
    ensures Exec(w, Scanning(p)) == Some(Goto(w, p, TryCas(w.writePos)))
  {
    var pos := w.writePos;
    var w1, w2, w3 := Goto(w, p, Start), Goto(w, p, HavePos(pos)), Goto(w, p, TryCas(pos));
    GotoTwice(w, p, Start, HavePos(pos));
    GotoTwice(w, p, HavePos(pos), TryCas(pos));
    var r: seq<Action<T>> := [];
    ExecThen(w, r, BeginNext(p), w, w1);
    assert r + [BeginNext(p)] == [BeginNext(p)];
    ExecThen(w, [BeginNext(p)], LoadPos(p), w1, w2);
    ExecThen(w, [BeginNext(p)] + [LoadPos(p)], LoadSeq(p), w2, w3);
  }

  lemma ClaimStep<T>(w: World<T>, p: nat)
    requires Shaped(w)
    ensures Step(Goto(w, p, TryCas(w.writePos)), CasOk(p)) == Some(ClaimedBy(w, p))
  {
    GotoTwice(w, p, TryCas(w.writePos), Claimed(w.writePos, Get(w, w.writePos).buf));
  }

  lemma WriteStep<T>(w: World<T>, p: nat, v: T)
    requires Shaped(w)
    ensures Shaped(ClaimedBy(w, p)) && Step(ClaimedBy(w, p), WriteBuf(p, v)) == Some(WrittenBy(w, p, v))
  {
    GotoTwice(w, p, Claimed(w.writePos, Get(w, w.writePos).buf), Claimed(w.writePos, v));
  }

  /** Undisturbed, `_next` claims the next ticket whenever its cell carries that number. */
  lemma Post<T>(w: World<T>, p: nat, v: T)
    requires Shaped(w) && At(w, p).Idle? && Get(w, w.writePos).seqno == w.writePos
    ensures Exec(w, Posting(p, v)) == Some(WrittenBy(w, p, v))
  {
    Scan(w, p);
    ClaimStep(w, p);
    ExecThen(w, Scanning(p), CasOk(p), Goto(w, p, TryCas(w.writePos)), ClaimedBy(w, p));
    WriteStep(w, p, v);
    ExecThen(w, Scanning(p) + [CasOk(p)], WriteBuf(p, v), ClaimedBy(w, p), WrittenBy(w, p, v));
  }

  /**
   With a single cell a committed entry and a cell free for the next ticket look
   the same: the second producer overwrites the first one's entry before it is read.
   */
  lemma UnsafeAtOne<T(!new)>(bufs: seq<T>, a: T, b: T)
    requires |bufs| == 1 && a != b
    ensures IsPow2(|bufs|) && !SafeAtSize(bufs)
  {
    assert 1 == Pow2(0);
    var w := Init(bufs);
    var w1 := Overwritten(w, a, b);
    var w4, acts := ReadFirst(w1, b);
    ExecAppend(w, Overwriting(a, b), acts);
    assert Entries(w4.tickets[..1]) == [(0, a)];
    assert !Safe(Exec(w, Overwriting(a, b) + acts).value);
  }

  lemma ReadFirst<T>(w: World<T>, b: T) returns (w': World<T>, acts: seq<Action<T>>)
    requires Shaped(w) && w.size == 1 && w.cells == [Cell(1, false, b)]
    requires |w.tickets| > 0 && w.tickets[0].Ready? && w.consumer.Away? && w.readPos == 0 && w.delivered == []
    ensures Exec(w, acts) == Some(w') && w'.delivered == [(0, b)]
    ensures w'.readPos == 1 && w'.consumer.Away? && w'.tickets == w.tickets[0 := Held(w.tickets[0].outcome)]
  {
    var w1, w2 := w.(consumer := Heading), Take(w, 0).(consumer := TestNoop(0), readPos := 1);
    w', acts := Step(w2, HeadTest).value, [];
    ExecThen(w, acts, BeginHead, w, w1);
    ExecThen(w, acts + [BeginHead], HeadLoad, w1, w2);
    ExecThen(w, acts + [BeginHead] + [HeadLoad], HeadTest, w2, w');
    acts := acts + [BeginHead] + [HeadLoad] + [HeadTest];
  }

  function Overwriting<T>(a: T, b: T): (acts: seq<Action<T>>) {
    Posting(0, a) + [Commit(0)] + Posting(1, b)
  }

  lemma Overwritten<T>(w: World<T>, a: T, b: T) returns (w': World<T>)
    requires Shaped(w) && w.size == 1
    requires w.writePos == 0 && w.producers == map[] && w.tickets == [] && w.cells[0].seqno == 0
    ensures Exec(w, Overwriting(a, b)) == Some(w')
    ensures w'.cells == [Cell(1, w.cells[0].noop, b)] && w'.tickets == [Ready(Entry(a)), Open(1)]
    ensures w'.consumer == w.consumer && w'.delivered == w.delivered && w'.readPos == w.readPos
  {
    Post(w, 0, a);
    var w1 := Exec(w, Posting(0, a)).value;
    var w2 := Step(w1, Commit(0)).value;
    ExecThen(w, Posting(0, a), Commit(0), w1, w2);
    Post(w2, 1, b);
    ExecAppend(w, Posting(0, a) + [Commit(0)], Posting(1, b));
    w' := Exec(w2, Posting(1, b)).value;
  }

  /**
   Over every interleaving, `_head` returns exactly the committed entries in
   ticket order -- if and only if the queue has more than one cell.
   */
  lemma SafetyIff<T(!new)>(bufs: seq<T>, a: T, b: T)
    requires IsPow2(|bufs|) && a != b
    ensures SafeAtSize(bufs) <==> |bufs| >= 2
  {
    if |bufs| >= 2 {
      forall acts: seq<Action<T>> | Exec(Init(bufs), acts).Some?
        ensures Safe(Exec(Init(bufs), acts).value)
      {
        InvAlways(bufs, acts);
        InvSafe(Exec(Init(bufs), acts).value);
      }
    } else {
      UnsafeAtOne(bufs, a, b);
    }
  }

  /** States of runs of a queue of at least two cells. */
  ghost predicate Reachable<T(!new)>(w: World<T>) {
    exists bufs: seq<T>, acts: seq<Action<T>> ::
      IsPow2(|bufs|) && |bufs| >= 2 && Exec(Init(bufs), acts) == Some(w)
  }

  lemma ReachableInv<T(!new)>(w: World<T>)
    requires Reachable(w)
    ensures Inv(w)
  {
    var bufs: seq<T>, acts: seq<Action<T>> :|
      IsPow2(|bufs|) && |bufs| >= 2 && Exec(Init(bufs), acts) == Some(w);
    InvAlways(bufs, acts);
  }

  /** Who may write cell i: a producer, or the consumer (None) under a ticket it took. */
  ghost predicate Owns<T>(w: World<T>, who: Option<nat>, pos: nat) {
    match who
    case Some(p) => (At(w, p).Claimed? || At(w, p).NoopSet?) && At(w, p).pos == pos
    case None => pos in w.held || Busy(w) == Some(pos)
  }

  /** Mutual exclusion: two tickets in one cell are never owned at the same time. */
  lemma OneOwner<T(!new)>(w: World<T>, x: Option<nat>, pos: nat, y: Option<nat>, pos': nat)
    requires Reachable(w) && Owns(w, x, pos) && Owns(w, y, pos')
    requires Ix(pos, w.size) == Ix(pos', w.size)
    ensures x == y && pos == pos'
  {
    ReachableInv(w);
    OwnedTicket(w, x, pos);
    OwnedTicket(w, y, pos');
    Apart(w.size);
  }

  lemma OwnedTicket<T>(w: World<T>, who: Option<nat>, pos: nat)
    requires Inv(w) && Owns(w, who, pos)
    ensures w.writePos - w.size <= pos < w.writePos
    ensures if who.Some? then w.tickets[pos] == Open(who.value) else w.tickets[pos].Held?
  {
    match who {
      case Some(p) => assert ProducerOk(w, p);
      case None => if pos in w.held { assert HeldOk(w, pos); }
    }
    assert TicketOk(w, pos);
  }

  /** Ticket t was claimed and its cell not yet released. */
  ghost predicate Unreleased<T>(w: World<T>, t: int) {
    0 <= t < |w.tickets| && !w.tickets[t].Done?
  }

  ghost predicate Posted<T>(w: World<T>, t: nat) {
    t < |w.tickets| && w.tickets[t].Ready?
  }

  ghost predicate NoneOpen<T>(w: World<T>) {
    forall t :: 0 <= t < |w.tickets| ==> !w.tickets[t].Open?
  }

  /** A successful claim finds the cell still carrying the ticket, however stale the loads were. */
  lemma CasClaimsFreeCell<T(!new)>(w: World<T>, p: nat)
    requires Reachable(w) && Step(w, CasOk(p)).Some?
    ensures Get(w, w.writePos).seqno == w.writePos
    ensures !Unreleased(w, w.writePos - w.size)
  {
    ReachableInv(w);
    InvCasOk(w, p);
    if w.writePos >= w.size {
      NextLap(w.writePos - w.size, w.size);
      assert CellOk(w, w.writePos - w.size);
    }
  }

  /** `_next` refuses exactly when, at its load of seq, the queue was full. */
  lemma NextRefusal<T(!new)>(w: World<T>, p: nat)
    requires Reachable(w) && At(w, p).HavePos?
    ensures var pos := At(w, p).pos;
            At(Step(w, LoadSeq(p)).value, p).Idle? <==> pos == w.writePos && Unreleased(w, pos - w.size)
  {
    ReachableInv(w);
    RefusesLow(w, p);
    LowPosition(w, p);
  }

  lemma LowPosition<T>(w: World<T>, p: nat)
    requires Inv(w) && At(w, p).HavePos?
    ensures var pos := At(w, p).pos; Get(w, pos).seqno < pos <==> pos == w.writePos && Unreleased(w, pos - w.size)
  {
    assert ProducerOk(w, p);
    LowNumber(w, At(w, p).pos);
  }

  lemma RefusesLow<T>(w: World<T>, p: nat)
    requires Shaped(w) && At(w, p).HavePos?
    ensures At(Step(w, LoadSeq(p)).value, p).Idle? <==> Get(w, At(w, p).pos).seqno < At(w, p).pos
  {
  }

  lemma LowNumber<T>(w: World<T>, pos: nat)
    requires Inv(w) && pos <= w.writePos
    ensures Get(w, pos).seqno < pos <==> pos == w.writePos && Unreleased(w, pos - w.size)
  {
    if pos == w.writePos {
      NextLap(pos - w.size, w.size);
      assert CellOk(w, pos - w.size);
    } else {
      var t := LatestOnCell(w, pos);
      assert CellOk(w, t);
    }
  }

  /** The most recent claimed ticket that shares the cell of pos. */
  lemma LatestOnCell<T>(w: World<T>, pos: nat) returns (t: nat)
    requires Inv(w) && pos < w.writePos
    ensures w.writePos - w.size <= t < w.writePos && pos <= t && Ix(t, w.size) == Ix(pos, w.size)
  {
    t := pos;
    while t < w.writePos - w.size
      invariant pos <= t < w.writePos && Ix(t, w.size) == Ix(pos, w.size)
    {
      NextLap(t, w.size);
      t := t + w.size;
    }
  }

  /** `_head` refuses exactly when the ticket at read_pos is not posted; with no claim open, nothing is left behind. */
  lemma HeadRefusal<T(!new)>(w: World<T>)
    requires Reachable(w) && w.consumer.Heading?
    ensures Step(w, HeadLoad).value.consumer.Away? <==> !Posted(w, w.readPos)
    ensures !Posted(w, w.readPos) && NoneOpen(w) ==> w.delivered == Entries(w.tickets)
  {
    ReachableInv(w);
    HeadCell(w);
    if w.readPos < w.writePos { assert TicketOk(w, w.readPos); }
    assert w.tickets[..w.writePos] == w.tickets;
  }
}
