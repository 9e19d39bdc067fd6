/**
 The bounded multi-producer, single-consumer queue, as a state machine with one
 step per access to shared memory. Any number of producers run `_next`, write
 their entry and then `_commit` or `_discard` it; one consumer runs `_head` and
 `_release`. Steps of different threads interleave freely.

 A producer's position is read long before it is used, so every stale read the
 C code allows is a run of this machine.
 */
module AtomicQueue {
  import opened Basics
  import opened Bits

  /** One `entry` of the queue. */
  datatype Cell<T> = Cell(seqno: int, noop: bool, buf: T)

  /** Where a producer is. `val` is the entry it has built so far. */
  datatype Producer<T> =
    | Idle
    | Start                        // inside _next, about to load write_pos
    | HavePos(pos: nat)            // about to load the cell's seq
    | TryCas(pos: nat)             // seq matched, about to compare-and-swap
    | Claimed(pos: nat, val: T)    // _next returned, entry being written
    | NoopSet(pos: nat)            // inside _discard, noop stored, seq not yet

  /** Where the consumer is. `again`: releasing a no-op from inside _head. */
  datatype Consumer =
    | Away
    | Heading                        // about to load the head cell's seq
    | TestNoop(pos: nat)             // read_pos already advanced
    | ClearNoop(pos: nat)
    | ResetBuf(pos: nat, again: bool)
    | StoreSeq(pos: nat, again: bool)

  /** What a producer posted under a ticket. */
  datatype Outcome<T> = Entry(payload: T) | Noop

  /** History of one ticket, a value of write_pos that was claimed. */
  datatype Ticket<T> =
    | Open(owner: nat)
    | Ready(outcome: Outcome<T>)
    | Held(outcome: Outcome<T>)
    | Done(outcome: Outcome<T>)

  /**
   The shared queue, the threads, and the history: `tickets[t]` is what became
   of ticket t, `delivered` is what `_head` returned so far, as (pos, entry).
   */
  datatype World<T> = World(
    size: nat,
    cells: seq<Cell<T>>,
    writePos: nat,
    readPos: nat,
    producers: map<nat, Producer<T>>,
    consumer: Consumer,
    held: set<nat>,
    tickets: seq<Ticket<T>>,
    delivered: seq<(nat, T)>)

  datatype Action<T> =
    | BeginNext(p: nat)
    | LoadPos(p: nat)
    | LoadSeq(p: nat)
    | CasOk(p: nat)
    | CasFail(p: nat, refresh: bool)
    | WriteBuf(p: nat, v: T)
    | Commit(p: nat)
    | DiscardNoop(p: nat)
    | DiscardSeq(p: nat)
    | BeginHead
    | HeadLoad
    | HeadTest
    | HeadClear
    | BeginRelease(pos: nat)
    | Reset(newBuf: Option<T>)
    | ReleaseStore

  /** `_init`: every cell is free for the ticket of its own index. */
  function Init<T>(bufs: seq<T>): (w: World<T>) {
    World(|bufs|,
          seq(|bufs|, i requires 0 <= i < |bufs| => Cell(i, false, bufs[i])),
          0, 0, map[], Away, {}, [], [])
  }

  function At<T>(w: World<T>, p: nat): (s: Producer<T>) {
    if p in w.producers then w.producers[p] else Idle
  }

  ghost predicate Shaped<T>(w: World<T>) {
    IsPow2(w.size) && |w.cells| == w.size
  }

  /** The slot of a ticket, also for the negative tickets of the lap before the first. */
  function Ix(t: int, n: nat): (i: nat)
    requires n > 0
    ensures i < n
  {
    t % n
  }

  /** `&aq->entry[pos & aq->size_mask]` */
  function CellIndex<T>(w: World<T>, pos: nat): (i: nat)
    requires Shaped(w)
    ensures i < w.size && i == Ix(pos, w.size)
  {
    Slot(pos, w.size)
  }

  function SetCell<T>(w: World<T>, pos: nat, c: Cell<T>): (w': World<T>)
    requires Shaped(w)
    ensures Shaped(w')
  {
    w.(cells := w.cells[CellIndex(w, pos) := c])
  }

  function Get<T>(w: World<T>, pos: nat): (c: Cell<T>)
    requires Shaped(w)
  {
    w.cells[CellIndex(w, pos)]
  }

  function Goto<T>(w: World<T>, p: nat, s: Producer<T>): (w': World<T>) {
    w.(producers := w.producers[p := s])
  }

  function Mark<T>(w: World<T>, pos: nat, t: Ticket<T>): (w': World<T>) {
    if pos < |w.tickets| then w.(tickets := w.tickets[pos := t]) else w
  }

  function Take<T>(w: World<T>, pos: nat): (w': World<T>) {
    if pos < |w.tickets| && w.tickets[pos].Ready? then Mark(w, pos, Held(w.tickets[pos].outcome)) else w
  }

  function Finish<T>(w: World<T>, pos: nat): (w': World<T>) {
    if pos < |w.tickets| && w.tickets[pos].Held? then Mark(w, pos, Done(w.tickets[pos].outcome)) else w
  }

  /** One step of the machine, or None when the action is not possible. */
  function Step<T>(w: World<T>, a: Action<T>): (r: Option<World<T>>)
    requires Shaped(w)
    ensures r.Some? ==> Shaped(r.value) && r.value.size == w.size
  {
    match a
    case BeginNext(p) =>
      if At(w, p).Idle? then Some(Goto(w, p, Start)) else None
    case LoadPos(p) =>
      if At(w, p).Start? then Some(Goto(w, p, HavePos(w.writePos))) else None
    case LoadSeq(p) =>
      if !At(w, p).HavePos? then None else
      var pos := At(w, p).pos;
      var diff := Get(w, pos).seqno - pos;
      Some(Goto(w, p, if diff == 0 then TryCas(pos) else if diff < 0 then Idle else Start))
    case CasOk(p) =>
      if !At(w, p).TryCas? || w.writePos != At(w, p).pos then None else
      var pos := At(w, p).pos;
      Some(Goto(w, p, Claimed(pos, Get(w, pos).buf)).(
           writePos := w.writePos + 1, tickets := w.tickets + [Open(p)]))
    case CasFail(p, refresh) =>
      if !At(w, p).TryCas? then None
      else Some(Goto(w, p, HavePos(if refresh then w.writePos else At(w, p).pos)))
    case WriteBuf(p, v) =>
      if !At(w, p).Claimed? then None else
      var pos := At(w, p).pos;
      Some(Goto(SetCell(w, pos, Get(w, pos).(buf := v)), p, Claimed(pos, v)))
    case Commit(p) =>
      if !At(w, p).Claimed? then None else
      var Claimed(pos, v) := At(w, p);
      Some(Mark(Goto(SetCell(w, pos, Get(w, pos).(seqno := pos + 1)), p, Idle), pos, Ready(Entry(v))))
    case DiscardNoop(p) =>
      if !At(w, p).Claimed? then None else
      var pos := At(w, p).pos;
      Some(Goto(SetCell(w, pos, Get(w, pos).(noop := true)), p, NoopSet(pos)))
    case DiscardSeq(p) =>
      if !At(w, p).NoopSet? then None else
      var pos := At(w, p).pos;
      Some(Mark(Goto(SetCell(w, pos, Get(w, pos).(seqno := pos + 1)), p, Idle), pos, Ready(Noop)))
    case BeginHead =>
      if w.consumer.Away? then Some(w.(consumer := Heading)) else None
    case HeadLoad =>
      if !w.consumer.Heading? then None
      else if Get(w, w.readPos).seqno != w.readPos + 1 then Some(w.(consumer := Away))
      else Some(Take(w, w.readPos).(consumer := TestNoop(w.readPos), readPos := w.readPos + 1))
    case HeadTest =>
      if !w.consumer.TestNoop? then None else
      var pos := w.consumer.pos;
      if Get(w, pos).noop then Some(w.(consumer := ClearNoop(pos)))
      else Some(w.(consumer := Away, held := w.held + {pos},
                   delivered := w.delivered + [(pos, Get(w, pos).buf)]))
    case HeadClear =>
      if !w.consumer.ClearNoop? then None else
      var pos := w.consumer.pos;
      Some(SetCell(w, pos, Get(w, pos).(noop := false)).(consumer := ResetBuf(pos, true)))
    case BeginRelease(pos) =>
      if !w.consumer.Away? || pos !in w.held then None
      else Some(w.(consumer := ResetBuf(pos, false), held := w.held - {pos}))
    case Reset(newBuf) =>
      if !w.consumer.ResetBuf? then None else
      var pos := w.consumer.pos;
      var w' := if newBuf.Some? then SetCell(w, pos, Get(w, pos).(buf := newBuf.value)) else w;
      Some(w'.(consumer := StoreSeq(pos, w.consumer.again)))
    case ReleaseStore =>
      if !w.consumer.StoreSeq? then None else
      var StoreSeq(pos, again) := w.consumer;
      var w' := SetCell(w, pos, Get(w, pos).(seqno := pos + w.size));
      Some(Finish(w', pos).(consumer := if again then Heading else Away))
  }
}
