/**
 The receiving side of one peer: a window of early messages, and an overflow list for
 those that are early beyond it.
 */
module ReorderPeer {
  import opened RecvWindow
  import opened ReorderBooks

  /** One packet p for position u took a peer from s to t, and `items` were handed on. */
  ghost predicate Took<P>(s: Books<P>, t: Books<P>, win: nat, half: nat, u: nat, p: P, bad: seq<P> -> bool,
                          oom: bool, v: Verdict, items: seq<seq<P>>)
    requires half > 0
  {
    && v == (if s.next - half < u < s.next + half then VerdictOn(s.next, win, u, oom) else Alien)
    && Ledger(PutIn(s, win, v, IdOf(u, 2 * half), u, p), t, items, win)
    && Chains(items) && OnlyLast(items, bad)
    && if v.InTurn? then items != [] && items[0] == [p] && (t.next in t.pending ==> Stopped(items, bad))
       else items == [] && (t.next in t.pending <==> s.next in s.pending)
  }

  class Peer<P> {
    const w: Window<seq<P>>
    var overflow: seq<(nat, P)>
    /** The unbounded positions of the entries of the overflow list. */
    ghost var places: seq<nat>

    ghost predicate WindowOk()
      reads w, w.buf
    {
      w.Valid() && 0 < w.winSize == w.size && forall u :: u in w.pending ==> w.pending[u] != []
    }

    ghost predicate Sound()
      reads this, w, w.buf
    {
      WindowOk() && Ahead(overflow, places, w.next, w.half)
    }

    /** Nothing on the list is due before the list is gone through again. */
    ghost predicate Valid()
      reads this, w, w.buf
    {
      Sound() && AllDue(places, w.next, w.half, w.winSize)
    }

    /** The window is as long as its ring, as `efa_recvwin_buf_alloc` makes it. */
    constructor (w: Window<seq<P>>)
      requires w.Valid() && 0 < w.winSize == w.size && w.pending == map[]
      ensures Valid() && this.w == w && State() == Books(w.next, map[], [], [])
    {
      this.w := w;
      overflow, places := [], [];
    }

    /** `efa_rdm_peer_recvwin_queue_or_append_pke` */
    method QueueOrAppend(id: nat, p: P, ghost u: nat)
      requires WindowOk() && w.next <= u < w.next + w.winSize && id == IdOf(u, 2 * w.half)
      modifies w`wcnt, w`pending, w.buf
      ensures WindowOk() && w.pending == Joined(old(w.pending), u, p)
    {
      var cur := w.GetMsg(id, u);
      if cur.Present? {
        w.Amend(id, cur.msg + [p], u);
      } else {
        w.QueueMsg(id, [p], u);
        assert [] + [p] == [p];
      }
    }

    /** One entry of the overflow list goes to the window if it fits there. */
    method Consider(id: nat, p: P, ghost u: nat) returns (fits: bool)
      requires WindowOk() && w.next <= u < w.next + w.half && id == IdOf(u, 2 * w.half)
      modifies w`wcnt, w`pending, w.buf
      ensures WindowOk() && fits == (u < w.next + w.winSize)
      ensures w.pending == if fits then Joined(old(w.pending), u, p) else old(w.pending)
    {
      ClassifyIds(w.next, u, w.winSize, w.half);
      fits := w.IdValid(id);
      if fits {
        QueueOrAppend(id, p, u);
      }
    }

    /**
     `efa_rdm_peer_move_overflow_pke_to_recvwin`: what fits goes to the ends of the chains in the window, in
     list order, the rest stays; nothing that stays is due before the next time.
     */
    method MoveOverflow()
      requires Sound()
      modifies `overflow, `places, w`wcnt, w`pending, w.buf
      ensures Valid() && SameHoldings(old(State()), State(), w.winSize)
      ensures GoneThrough(w.pending, overflow, places, old(w.pending), old(overflow), old(places), |old(overflow)|,
                          w.next + w.winSize)
      ensures |w.pending| + |overflow| <= old(|w.pending| + |overflow|)
    {
      var list, kept := overflow, [];
      ghost var places0, pending0 := places, w.pending;
      ghost var keptPlaces: seq<nat> := [];
      ghost var limit := w.next + w.winSize;
      for i := 0 to |list|
        invariant WindowOk() && overflow == list && places == places0
        invariant GoneThrough(w.pending, kept, keptPlaces, pending0, list, places0, i, limit)
        invariant Ahead(kept, keptPlaces, w.next, w.half) && |w.pending| + |kept| <= |pending0| + i
        invariant AllFar(keptPlaces, limit)
      {
        JoinedSize(w.pending, places0[i], list[i].1);
        GoneNext(w.pending, kept, keptPlaces, pending0, list, places0, i, limit);
        var fits := Consider(list[i].0, list[i].1, places0[i]);
        if !fits {
          kept, keptPlaces := kept + [list[i]], keptPlaces + [places0[i]];
        }
      }
      overflow, places := kept, keptPlaces;
      FarAreDue(places, w.next, w.half, w.winSize);
      GoneEnd(w.pending, kept, keptPlaces, pending0, list, places0, w.next, w.winSize);
    }

    /** The list is gone through when the expected id calls for it. */
    method Refill()
      requires Sound() && w.next > 0 && AllDue(places, w.next - 1, w.half, w.winSize)
      modifies `overflow, `places, w`wcnt, w`pending, w.buf
      ensures Valid() && SameHoldings(old(State()), State(), w.winSize)
      ensures |w.pending| + |overflow| <= old(|w.pending| + |overflow|)
    {
      if w.exp % w.winSize == 0 {
        MoveOverflow();
      } else {
        StillDue(places, w.next, w.half, w.winSize);
      }
    }

    /** One turn of the loop of `efa_rdm_peer_proc_pending_items_in_robuf`. */
    method HandOn() returns (msg: seq<P>)
      requires Valid() && w.next in w.pending
      modifies `overflow, `places, w, w.buf
      ensures Valid() && msg == old(w.pending[w.next]) && msg != []
      ensures Ledger(old(State()), State(), [msg], w.winSize)
      ensures |w.pending| + |overflow| < old(|w.pending| + |overflow|)
    {
      ghost var s0 := State();
      LedgerTake(s0, w.half, w.winSize);
      Remaining(w.pending, w.next);
      StillAhead(overflow, places, w.next, w.half, w.winSize);
      var e := w.TakeNext();
      msg := e.msg;
      ghost var s1 := State();
      Refill();
      LedgerSame(s0, s1, State(), [msg], w.winSize);
    }

    /**
     `efa_rdm_peer_proc_pending_items_in_robuf`: hands on the waiting messages from the expected one on,
     also those that come in from the overflow list meanwhile, up to a gap or a message whose
     processing fails. Every other packet is held as before.
     */
    method Drain(bad: seq<P> -> bool) returns (items: seq<seq<P>>)
      requires Valid()
      modifies `overflow, `places, w, w.buf
      ensures Valid() && Ledger(old(State()), State(), items, w.winSize) && Chains(items)
      ensures w.next !in w.pending || Stopped(items, bad)
      ensures forall i :: 0 <= i < |items| - 1 ==> !bad(items[i])
    {
      items := [];
      LedgerNone(State(), w.winSize);
      var e := w.Peek();
      while e.Present?
        invariant Valid() && Ledger(old(State()), State(), items, w.winSize) && Chains(items)
        invariant forall i :: 0 <= i < |items| ==> !bad(items[i])
        invariant e.Present? <==> w.next in w.pending
        decreases |w.pending| + |overflow|
      {
        ghost var before := State();
        var msg := HandOn();
        LedgerThen(old(State()), before, State(), items, [msg], w.winSize);
        items := items + [msg];
        if bad(msg) {
          return;
        }
        e := w.Peek();
      }
    }

    /** The verdict on a packet for position u. */
    ghost function Expected(u: nat, oom: bool): (v: Verdict)
      reads w
    {
      VerdictOn(w.next, w.winSize, u, oom)
    }

    /** A packet beyond the window goes to the head of the list. */
    method Park(id: nat, p: P, ghost u: nat)
      requires Valid() && w.next + w.winSize <= u < w.next + w.half && id == IdOf(u, 2 * w.half)
      modifies `overflow, `places
      ensures Valid() && overflow == [(id, p)] + old(overflow) && places == [u] + old(places)
    {
      FarIsDue(w.next, u, w.half, w.winSize);
      overflow, places := [(id, p)] + overflow, [u] + places;
    }

    /** The tests and the queueing of `efa_rdm_peer_reorder_msg`; `oom` says whether a copy can be made. */
    method Reorder(id: nat, p: P, ghost u: nat, oom: bool) returns (v: Verdict)
      requires Valid() && w.next - w.half < u < w.next + w.half && id == IdOf(u, 2 * w.half)
      modifies `overflow, `places, w`wcnt, w`pending, w.buf
      ensures Valid() && v == old(Expected(u, oom)) && w.next == old(w.next)
      ensures v.InTurn? ==> State() == old(State())
      ensures !v.InTurn? ==> State() == PutIn(old(State()), w.winSize, v, id, u, p)
      ensures u != w.next ==> (w.next in w.pending <==> old(w.next in w.pending))
    {
      ClassifyIds(w.next, u, w.winSize, w.half);
      if id == w.exp {
        return InTurn;
      }
      if !w.IdValid(id) {
        if w.IdProcessed(id) {
          return Late;
        }
        if oom {
          return NoMem;
        }
        Park(id, p, u);
        return Beyond;
      }
      if oom {
        return NoMem;
      }
      QueueOrAppend(id, p, u);
      v := Early;
    }

    /** The window slides over the expected message, whose packet p was handed on without having waited. */
    method PassOver(id: nat, p: P)
      requires Valid()
      modifies `overflow, `places, w, w.buf
      ensures Valid()
      ensures Ledger(PutIn(old(State()), w.winSize, InTurn, id, old(w.next), p), State(), [[p]], w.winSize)
    {
      ghost var s := PutIn(State(), w.winSize, InTurn, id, w.next, p);
      LedgerTurn(State(), w.half, w.winSize, id, p);
      StillAhead(overflow, places, w.next, w.half, w.winSize);
      w.Slide();
      ghost var s1 := State();
      Refill();
      LedgerSame(s, s1, State(), [[p]], w.winSize);
    }

    /** The expected message is handed on, and after it all that follows. */
    method Turn(id: nat, p: P, bad: seq<P> -> bool) returns (items: seq<seq<P>>)
      requires Valid()
      modifies `overflow, `places, w, w.buf
      ensures Valid() && Chains(items) && OnlyLast(items, bad)
      ensures Ledger(PutIn(old(State()), w.winSize, InTurn, id, old(w.next), p), State(), items, w.winSize)
      ensures items != [] && items[0] == [p]
      ensures w.next !in w.pending || Stopped(items, bad)
    {
      ghost var s0 := PutIn(State(), w.winSize, InTurn, id, w.next, p);
      PassOver(id, p);
      ghost var s := State();
      var more := Drain(bad);
      LedgerThen(s0, s, State(), [[p]], more, w.winSize);
      Prepended(p, more, bad);
      items := [[p]] + more;
    }

    /**
     A packet arrives: `efa_rdm_peer_reorder_msg` and what its caller does. In turn, it is handed on
     first, with all that follows; early, it waits at the end of its chain in the window, or at the head of
     the list; else nothing changes. What waits for the expected position while another packet of it is
     handed on is then held for a position one window later.
     */
    method Arrive(id: nat, p: P, ghost u: nat, bad: seq<P> -> bool, oom: bool) returns (v: Verdict, items: seq<seq<P>>)
      requires Valid() && w.next - w.half < u < w.next + w.half && id == IdOf(u, 2 * w.half)
      modifies `overflow, `places, w, w.buf
      ensures Valid() && Took(old(State()), State(), w.winSize, w.half, u, p, bad, oom, v, items)
    {
      items := [];
      v := Reorder(id, p, u, oom);
      LedgerNone(State(), w.winSize);
      if v.InTurn? {
        items := Turn(id, p, bad);
      }
    }

    lemma ProperNow()
      requires Valid()
      ensures Proper(State())
    {
      NoneDue(State(), w.half, w.winSize);
    }

    ghost function State(): (s: Books<P>)
      reads this, w
    {
      Books(w.next, w.pending, overflow, places)
    }
  }
}
