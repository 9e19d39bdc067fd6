/**
 Whole calls on the atomic queue, with the steps of all other threads in between:
 what `_head` and `_next` return, and what a posted entry is.
 */
module AtomicQueueCalls {
  import opened Basics
  import opened Bits
  import opened AtomicQueue
  import opened AtomicQueueSafety

  /** The consumer is inside a `_head` call; releasing an entry that was returned is not part of one. */
  predicate InHead(c: Consumer) {
    match c
    case Away => false
    case ResetBuf(_, again) => again
    case StoreSeq(_, again) => again
    case _ => true
  }

  /** An entry was returned: the one under the ticket before read_pos, and nothing else changed. */
  ghost predicate Returned<T>(w: World<T>, w': World<T>) {
    var t := w.readPos - 1;
    && 0 <= t < |w.tickets| && w.tickets[t].Held? && w.tickets[t].outcome.Entry? && w'.tickets == w.tickets
    && Busy(w) == Some(t)
    && w'.delivered == w.delivered + [(t, w.tickets[t].outcome.payload)]
  }

  /**
   Whatever step ends a `_head` call: either an entry is returned, or the ticket at read_pos is not posted
   and nothing is.
   */
  lemma HeadReturns<T>(w: World<T>, a: Action<T>)
    requires Inv(w) && InHead(w.consumer) && Step(w, a).Some? && !InHead(Step(w, a).value.consumer)
    ensures var w' := Step(w, a).value;
            && w'.consumer.Away? && w'.readPos == w.readPos
            && (Returned(w, w') || (w' == w.(consumer := Away) && !Posted(w, w.readPos)))
  {
    HeadCell(w);
    if a.HeadTest? {
      var t := w.readPos - 1;
      assert TicketOk(w, t) && CellOk(w, t);
    }
  }

  /** Whose step it is; None is the consumer. */
  function Actor<T>(a: Action<T>): (who: Option<nat>) {
    match a
    case BeginNext(p) => Some(p)
    case LoadPos(p) => Some(p)
    case LoadSeq(p) => Some(p)
    case CasOk(p) => Some(p)
    case CasFail(p, _) => Some(p)
    case WriteBuf(p, _) => Some(p)
    case Commit(p) => Some(p)
    case DiscardNoop(p) => Some(p)
    case DiscardSeq(p) => Some(p)
    case _ => None
  }

  /** How many tickets a `_head` call has put behind it. */
  function Behind<T>(w: World<T>): (n: nat) {
    if Busy(w).Some? && w.readPos > 0 then w.readPos - 1 else w.readPos
  }

  /** A `_head` call that began at ticket `from` has returned nothing yet and released only no-ops. */
  ghost predicate Searching<T>(w: World<T>, from: nat, before: seq<(nat, T)>) {
    && InHead(w.consumer) && from <= Behind(w) <= w.readPos <= |w.tickets| && w.delivered == before
    && (Busy(w).Some? ==> Busy(w).value == Behind(w) == w.readPos - 1)
    && (forall t :: from <= t < Behind(w) ==> w.tickets[t] == Done(Noop))
  }

  /** A step keeps what settled tickets have come to. */
  lemma Settled<T>(w: World<T>, a: Action<T>, t: nat)
    requires Inv(w) && Step(w, a).Some? && t < |w.tickets| && !w.tickets[t].Open?
    ensures var w' := Step(w, a).value;
            && t < |w'.tickets| && !w'.tickets[t].Open? && w'.tickets[t].outcome == w.tickets[t].outcome
            && (w.tickets[t].Done? ==> w'.tickets[t].Done?)
            && (w.tickets[t].Ready? && t >= w'.readPos ==> w'.tickets[t].Ready?)
            && w'.readPos >= w.readPos
  {
    if a.Commit? || a.DiscardSeq? { assert ProducerOk(w, a.p); }
    if a.HeadLoad? { HeadCell(w); }
  }

  lemma SearchWaits<T>(w: World<T>, a: Action<T>, from: nat, before: seq<(nat, T)>)
    requires Inv(w) && Searching(w, from, before) && Step(w, a).Some? && Actor(a).Some?
    ensures Searching(Step(w, a).value, from, before)
  {
    var w' := Step(w, a).value;
    forall t | from <= t < Behind(w) ensures w'.tickets[t] == Done(Noop) { Settled(w, a, t); }
  }

  lemma SearchGoesOn<T>(w: World<T>, a: Action<T>, from: nat, before: seq<(nat, T)>)
    requires Inv(w) && Searching(w, from, before) && Step(w, a).Some? && InHead(Step(w, a).value.consumer)
    ensures Searching(Step(w, a).value, from, before)
  {
    if Actor(a).Some? {
      SearchWaits(w, a, from, before);
    } else {
      HeadCell(w);
    }
  }

  /** A `_head` call begins at `w` with the first of `acts` and is still running after the last. */
  ghost predicate HeadRuns<T>(w: World<T>, acts: seq<Action<T>>)
    requires Shaped(w)
  {
    && acts != [] && Exec(w, acts).Some? && InHead(Exec(w, acts).value.consumer)
    && (if |acts| == 1 then acts[0] == BeginHead else HeadRuns(w, acts[..|acts| - 1]))
  }

  lemma {:induction false} HeadSearches<T>(w: World<T>, acts: seq<Action<T>>)
    requires Inv(w) && HeadRuns(w, acts)
    ensures Inv(Exec(w, acts).value) && Searching(Exec(w, acts).value, w.readPos, w.delivered)
    decreases |acts|
  {
    var r := Exec(w, acts[..|acts| - 1]).value;
    if |acts| == 1 {
      assert acts[..0] == [];
    } else {
      HeadSearches(w, acts[..|acts| - 1]);
      SearchGoesOn(r, acts[|acts| - 1], w.readPos, w.delivered);
    }
    InvStep(r, acts[|acts| - 1]);
  }

  /** From `w` to `w'` a `_head` call returned ticket `t`, having released the no-ops before it. */
  ghost predicate Found<T>(w: World<T>, w': World<T>, t: nat) {
    && w.readPos <= t < |w'.tickets| && w'.readPos == t + 1
    && w'.tickets[t].Held? && w'.tickets[t].outcome.Entry?
    && w'.delivered == w.delivered + [(t, w'.tickets[t].outcome.payload)]
    && (forall u :: w.readPos <= u < t ==> w'.tickets[u] == Done(Noop))
  }

  /** From `w` to `w'` a `_head` call released no-ops up to a ticket that is not posted and returned nothing. */
  ghost predicate FoundNone<T>(w: World<T>, w': World<T>) {
    && w.readPos <= w'.readPos <= |w'.tickets| && !Posted(w', w'.readPos) && w'.delivered == w.delivered
    && (forall u :: w.readPos <= u < w'.readPos ==> w'.tickets[u] == Done(Noop))
  }

  /** `acts` is one whole `_head` call from `w` to `w'`, with steps of the producers in between. */
  ghost predicate HeadCalled<T>(w: World<T>, acts: seq<Action<T>>, w': World<T>)
    requires Shaped(w)
  {
    |acts| >= 2 && HeadRuns(w, acts[..|acts| - 1]) && Exec(w, acts) == Some(w') && !InHead(w'.consumer)
  }

  lemma SearchEnds<T>(w: World<T>, r: World<T>, a: Action<T>)
    requires Inv(r) && Searching(r, w.readPos, w.delivered)
    requires Step(r, a).Some? && !InHead(Step(r, a).value.consumer)
    ensures var w' := Step(r, a).value;
            w'.consumer.Away? && ((exists t: nat :: Found(w, w', t)) || FoundNone(w, w'))
  {
    HeadReturns(r, a);
    var w' := Step(r, a).value;
    if Returned(r, w') { assert Found(w, w', r.readPos - 1); }
  }

  /**
   A whole `_head` call returns the first committed entry at or after read_pos, all tickets before it being
   no-ops that it releases, or it returns nothing because it came to a ticket that is not posted.
   */
  lemma HeadCall<T(!new)>(w: World<T>, acts: seq<Action<T>>, w': World<T>)
    requires Reachable(w) && HeadCalled(w, acts, w')
    ensures w'.consumer.Away? && ((exists t: nat :: Found(w, w', t)) || FoundNone(w, w'))
  {
    ReachableInv(w);
    HeadSearches(w, acts[..|acts| - 1]);
    SearchEnds(w, Exec(w, acts[..|acts| - 1]).value, acts[|acts| - 1]);
  }

  /** Ticket t came to the same in `w'` as in `w`, and still waits there unless read_pos passed it. */
  ghost predicate Stays<T>(w: World<T>, w': World<T>, t: nat)
    requires t < |w.tickets| && !w.tickets[t].Open?
  {
    && t < |w'.tickets| && !w'.tickets[t].Open? && w'.tickets[t].outcome == w.tickets[t].outcome
    && (t >= w'.readPos ==> w'.tickets[t].Ready?)
  }

  lemma {:induction false} SettledRun<T>(w: World<T>, acts: seq<Action<T>>, t: nat)
    requires Inv(w) && Exec(w, acts).Some? && t < |w.tickets| && !w.tickets[t].Open?
    ensures Inv(Exec(w, acts).value) && Stays(w, Exec(w, acts).value, t)
  {
    if acts != [] {
      SettledRun(w, acts[..|acts| - 1], t);
      var r := Exec(w, acts[..|acts| - 1]).value;
      Settled(r, acts[|acts| - 1], t);
      InvStep(r, acts[|acts| - 1]);
    }
    assert TicketOk(Exec(w, acts).value, t);
  }

  /** Every ticket from read_pos up to t is posted, and t is the first of them that is an entry. */
  ghost predicate FirstInLine<T>(w: World<T>, t: nat) {
    && w.readPos <= t < |w.tickets| && w.tickets[t].Ready? && w.tickets[t].outcome.Entry?
    && (forall u :: w.readPos <= u < t ==> w.tickets[u] == Ready(Noop))
  }

  lemma OnlyFirst<T>(w: World<T>, w': World<T>, t: nat, f: nat)
    requires FirstInLine(w, t) && (forall u :: w.readPos <= u <= t ==> Stays(w, w', u))
    requires Found(w, w', f) || FoundNone(w, w')
    ensures w'.delivered == w.delivered + [(t, w.tickets[t].outcome.payload)]
  {
    var u := if Found(w, w', f) then f else w'.readPos;
    assert Stays(w, w', if u < t then u else t);
  }

  /** Whatever happens meanwhile, `_head` returns the entry that is first in line when it is called. */
  lemma HeadFinds<T(!new)>(w: World<T>, acts: seq<Action<T>>, w': World<T>, t: nat)
    requires Reachable(w) && HeadCalled(w, acts, w') && FirstInLine(w, t)
    ensures w'.delivered == w.delivered + [(t, w.tickets[t].outcome.payload)]
  {
    HeadCall(w, acts, w');
    forall u | w.readPos <= u <= t ensures Stays(w, w', u) {
      ReachableInv(w);
      SettledRun(w, acts, u);
    }
    var f: nat :| Found(w, w', f) || FoundNone(w, w');
    OnlyFirst(w, w', t, f);
  }

  predicate InRelease(c: Consumer) {
    (c.ResetBuf? || c.StoreSeq?) && !c.again
  }

  /** Whatever step ends a `_release` call leaves the consumer outside any call and the ticket's cell free. */
  lemma ReleaseReturns<T>(w: World<T>, a: Action<T>)
    requires Inv(w) && InRelease(w.consumer) && Step(w, a).Some? && !InRelease(Step(w, a).value.consumer)
    ensures var w' := Step(w, a).value;
            var t := w.consumer.pos;
            && w'.consumer.Away? && t < |w'.tickets| && w'.tickets[t].Done?
            && Get(w', t).seqno == t + w.size && w'.delivered == w.delivered && w'.readPos == w.readPos
  {
  }

  predicate InNext<T>(s: Producer<T>) {
    s.Start? || s.HavePos? || s.TryCas?
  }

  /**
   Whatever step ends a `_next` call: either the next ticket is claimed on a released cell,
   or the queue is full and nothing but the caller's state changes.
   */
  lemma NextReturns<T>(w: World<T>, p: nat, a: Action<T>)
    requires Inv(w) && InNext(At(w, p)) && Step(w, a).Some? && !InNext(At(Step(w, a).value, p))
    ensures var w' := Step(w, a).value;
            if Unreleased(w, w.writePos - w.size) then w' == Goto(w, p, Idle)
            else w' == ClaimedBy(w, p)
  {
    assert ProducerOk(w, p);
    if a == LoadSeq(p) {
      LowPosition(w, p);
    } else {
      assert a == CasOk(p);
      if w.writePos >= w.size {
        NextLap(w.writePos - w.size, w.size);
        assert CellOk(w, w.writePos - w.size);
      }
    }
  }

  lemma OthersStep<T>(w: World<T>, a: Action<T>, p: nat)
    requires Shaped(w) && Step(w, a).Some? && Actor(a) != Some(p)
    ensures At(Step(w, a).value, p) == At(w, p)
  {
  }

  /** The steps of others leave a producer where it is. */
  lemma {:induction false} Undisturbed<T>(w: World<T>, acts: seq<Action<T>>, p: nat)
    requires Shaped(w) && Exec(w, acts).Some? && (forall a :: a in acts ==> Actor(a) != Some(p))
    ensures At(Exec(w, acts).value, p) == At(w, p)
  {
    if acts != [] {
      Undisturbed(w, acts[..|acts| - 1], p);
      assert acts[|acts| - 1] in acts;
      OthersStep(Exec(w, acts[..|acts| - 1]).value, acts[|acts| - 1], p);
    }
  }

  /**
   What a producer last wrote before it commits is what its ticket and cell carry,
   whatever the other threads do in between.
   */
  lemma CommitsLastWrite<T>(w: World<T>, p: nat, v: T, acts: seq<Action<T>>)
    requires Inv(w) && At(w, p).Claimed? && Step(w, WriteBuf(p, v)).Some?
    requires (forall a :: a in acts ==> Actor(a) != Some(p)) && Exec(Step(w, WriteBuf(p, v)).value, acts).Some?
    ensures var w' := Step(Exec(Step(w, WriteBuf(p, v)).value, acts).value, Commit(p));
            var t := At(w, p).pos;
            && w'.Some? && t < |w'.value.tickets| && w'.value.tickets[t] == Ready(Entry(v))
            && Get(w'.value, t) == Cell(t + 1, false, v) && At(w'.value, p).Idle?
  {
    var w1 := Step(w, WriteBuf(p, v)).value;
    InvStep(w, WriteBuf(p, v));
    Undisturbed(w1, acts, p);
    InvRun(w1, acts);
    var w2 := Exec(w1, acts).value;
    assert ProducerOk(w2, p);
    assert TicketOk(w2, At(w, p).pos) && CellOk(w2, At(w, p).pos);
  }

  lemma {:induction false} InvRun<T>(w: World<T>, acts: seq<Action<T>>)
    requires Inv(w) && Exec(w, acts).Some?
    ensures Inv(Exec(w, acts).value)
  {
    if acts != [] {
      InvRun(w, acts[..|acts| - 1]);
      InvStep(Exec(w, acts[..|acts| - 1]).value, acts[|acts| - 1]);
    }
  }

  /** A `_next` call of producer p begins at `w` with the first of `acts` and is still running after the last. */
  ghost predicate NextRuns<T>(w: World<T>, p: nat, acts: seq<Action<T>>)
    requires Shaped(w)
  {
    && acts != [] && Exec(w, acts).Some? && InNext(At(Exec(w, acts).value, p))
    && (if |acts| == 1 then acts[0] == BeginNext(p) else NextRuns(w, p, acts[..|acts| - 1]))
  }

  lemma WritePosGrows<T>(w: World<T>, a: Action<T>)
    requires Shaped(w) && Step(w, a).Some?
    ensures Step(w, a).value.writePos >= w.writePos
  {
  }

  lemma {:induction false} NextLater<T>(w: World<T>, p: nat, acts: seq<Action<T>>)
    requires Inv(w) && NextRuns(w, p, acts)
    ensures Inv(Exec(w, acts).value) && Exec(w, acts).value.writePos >= w.writePos
    decreases |acts|
  {
    if |acts| == 1 {
      assert acts[..0] == [];
    } else {
      NextLater(w, p, acts[..|acts| - 1]);
    }
    var r := Exec(w, acts[..|acts| - 1]).value;
    WritePosGrows(r, acts[|acts| - 1]);
    InvStep(r, acts[|acts| - 1]);
  }

  /**
   A whole `_next` call, with any steps of others in between: it returns a ticket not yet claimed when the call
   began, so calls that follow each other get increasing tickets, or it refuses a queue that is full.
   */
  lemma NextCall<T(!new)>(w: World<T>, p: nat, acts: seq<Action<T>>, r: World<T>, w': World<T>)
    requires Reachable(w) && |acts| >= 2 && NextRuns(w, p, acts[..|acts| - 1])
    requires Exec(w, acts[..|acts| - 1]) == Some(r) && Exec(w, acts) == Some(w') && !InNext(At(w', p))
    ensures At(w', p).Idle? <==> Unreleased(r, r.writePos - r.size)
    ensures At(w', p).Claimed? ==>
              w.writePos <= At(w', p).pos == |r.tickets| && w'.tickets == r.tickets + [Open(p)]
    ensures At(w', p).Idle? || At(w', p).Claimed?
  {
    ReachableInv(w);
    NextLater(w, p, acts[..|acts| - 1]);
    NextReturns(r, p, acts[|acts| - 1]);
  }

  /** How far a `_head` call has come: five steps take it past a no-op. */
  function Progress<T>(w: World<T>): (n: int) {
    5 * w.readPos - match w.consumer
                    case TestNoop(_) => 4
                    case ClearNoop(_) => 3
                    case ResetBuf(_, _) => 2
                    case StoreSeq(_, _) => 1
                    case _ => 0
  }

  function ConsumerSteps<T>(acts: seq<Action<T>>): (n: nat) {
    if acts == [] then 0
    else ConsumerSteps(acts[..|acts| - 1]) + if Actor(acts[|acts| - 1]).None? then 1 else 0
  }

  lemma StepsForward<T>(w: World<T>, a: Action<T>)
    requires Inv(w) && InHead(w.consumer) && Step(w, a).Some? && InHead(Step(w, a).value.consumer)
    ensures Progress(Step(w, a).value) == Progress(w) + if Actor(a).None? then 1 else 0
  {
  }

  /** `_head` ends: inside a call the consumer takes at most five steps for each ticket claimed since read_pos. */
  lemma {:induction false} HeadBounded<T>(w: World<T>, acts: seq<Action<T>>)
    requires Inv(w) && HeadRuns(w, acts)
    ensures ConsumerSteps(acts) == 1 + Progress(Exec(w, acts).value) - 5 * w.readPos
    ensures ConsumerSteps(acts) <= 1 + 5 * (Exec(w, acts).value.writePos - w.readPos)
    decreases |acts|
  {
    HeadSearches(w, acts);
    if |acts| == 1 {
      assert acts[..0] == [];
    } else {
      HeadBounded(w, acts[..|acts| - 1]);
      HeadSearches(w, acts[..|acts| - 1]);
      StepsForward(Exec(w, acts[..|acts| - 1]).value, acts[|acts| - 1]);
    }
  }

  /** The consumer is never stuck inside a call. */
  function NextConsumerStep<T>(w: World<T>): (a: Action<T>)
    requires Shaped(w) && !w.consumer.Away?
    ensures Step(w, a).Some? && Actor(a).None?
  {
    match w.consumer
    case Heading => HeadLoad
    case TestNoop(_) => HeadTest
    case ClearNoop(_) => HeadClear
    case ResetBuf(_, _) => Reset(None)
    case StoreSeq(_, _) => ReleaseStore
  }

  /** Producer p, running alone from `w`, takes the steps `acts` and is then out of `_next`. */
  ghost predicate Returns<T>(w: World<T>, p: nat, acts: seq<Action<T>>)
    requires Shaped(w)
  {
    && Exec(w, acts).Some? && !InNext(At(Exec(w, acts).value, p))
    && (forall a :: a in acts ==> Actor(a) == Some(p))
  }

  lemma StepThenReturns<T>(w: World<T>, p: nat, a: Action<T>, acts: seq<Action<T>>)
    requires Shaped(w) && Step(w, a).Some? && Actor(a) == Some(p) && Returns(Step(w, a).value, p, acts)
    ensures Returns(w, p, [a] + acts)
  {
    var none: seq<Action<T>> := [];
    assert none + [a] == [a];
    ExecThen(w, none, a, w, Step(w, a).value);
    ExecAppend(w, [a], acts);
  }

  /** With write_pos just loaded, a producer that runs alone finds the queue full or gets the ticket. */
  lemma FreshReturns<T>(w: World<T>, p: nat) returns (acts: seq<Action<T>>)
    requires Inv(w) && At(w, p) == HavePos(w.writePos)
    ensures |acts| <= 2 && Returns(w, p, acts)
  {
    var w1 := Step(w, LoadSeq(p)).value;
    NextLap(w.writePos - w.size, w.size);
    assert CellOk(w, w.writePos - w.size);
    acts := [];
    if InNext(At(w1, p)) {
      StepThenReturns(w1, p, CasOk(p), acts);
      acts := [CasOk(p)] + acts;
    }
    StepThenReturns(w, p, LoadSeq(p), acts);
    acts := [LoadSeq(p)] + acts;
  }

  lemma ReloadReturns<T>(w: World<T>, p: nat) returns (acts: seq<Action<T>>)
    requires Inv(w) && (At(w, p).Start? || At(w, p).TryCas?)
    ensures |acts| <= 3 && Returns(w, p, acts)
  {
    var a := if At(w, p).Start? then LoadPos(p)
             else if At(w, p).pos == w.writePos then CasOk(p) else CasFail(p, true);
    acts := [];
    if !a.CasOk? {
      InvStep(w, a);
      acts := FreshReturns(Step(w, a).value, p);
    }
    StepThenReturns(w, p, a, acts);
    acts := [a] + acts;
  }

  /** A `_next` call that runs alone returns within four steps, however stale what it has read. */
  lemma NextAlone<T>(w: World<T>, p: nat) returns (acts: seq<Action<T>>)
    requires Inv(w) && InNext(At(w, p))
    ensures |acts| <= 4 && Returns(w, p, acts)
  {
    if At(w, p).HavePos? {
      acts := [];
      var w1 := Step(w, LoadSeq(p)).value;
      if InNext(At(w1, p)) {
        InvStep(w, LoadSeq(p));
        acts := ReloadReturns(w1, p);
      }
      StepThenReturns(w, p, LoadSeq(p), acts);
      acts := [LoadSeq(p)] + acts;
    } else {
      acts := ReloadReturns(w, p);
    }
  }
}
