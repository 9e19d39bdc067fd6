/**
 What a peer holds of a stream of messages that arrive out of order. A message is
 the chain of packets that came under its id. Packets wait in the window, chained,
 or on the overflow list behind it.
 */
module ReorderBooks {
  import opened Bits
  import opened RecvWindow

  /** Late: handed on before. InTurn, Early, Beyond: accepted. NoMem: dropped. Alien: not told apart. */
  datatype Verdict = Late | InTurn | Early | Beyond | NoMem | Alien

  /** When the overflow list is gone through: the id is a multiple of the window. */
  predicate Trigger(n: nat, half: nat, win: nat)
    requires 0 < win && 0 < half
  {
    IdOf(n, 2 * half) % win == 0
  }

  lemma {:induction false} IdShift(n: nat, d: nat, ids: nat)
    requires ids > 0 && IdOf(n, ids) + d <= ids
    ensures IdOf(n + d, ids) == if IdOf(n, ids) + d < ids then IdOf(n, ids) + d else 0
    decreases n
  {
    if n >= ids { IdShift(n - ids, d, ids); }
  }

  /** That happens within every window's length, also where ids wrap. */
  lemma TriggerWithin(n: nat, half: nat, win: nat) returns (m: nat)
    requires 0 < win < half
    ensures n < m <= n + win && Trigger(m, half, win)
  {
    var ids := 2 * half;
    var r := IdOf(n, ids);
    var q := NextMultiple(r, win);
    IdBelow(n, ids);
    m := n + (if q < ids then q else ids) - r;
    IdShift(n, m - n, ids);
  }

  lemma NextMultiple(r: nat, win: nat) returns (q: nat)
    requires win > 0
    ensures r < q <= r + win && q % win == 0 && 0 % win == 0
  {
    DivisionEquation(r, win);
    q := r - r % win + win;
    assert q == (r / win + 1) * win + 0;
    ModUnique(q, win, r / win + 1, 0);
    ModUnique(0, win, 0, 0);
  }

  lemma {:induction false} IdBelow(n: nat, ids: nat)
    requires ids > 0
    ensures IdOf(n, ids) < ids
    decreases n
  {
    if n >= ids { IdBelow(n - ids, ids); }
  }

  /** Before position u is due, the list will be gone through. */
  ghost predicate Due(next: nat, u: nat, half: nat, win: nat)
    requires 0 < win && 0 < half
  {
    exists m: nat :: next < m <= u && Trigger(m, half, win)
  }

  lemma FarIsDue(next: nat, u: nat, half: nat, win: nat)
    requires 0 < win < half && u >= next + win
    ensures Due(next, u, half, win)
  {
    var m := TriggerWithin(next, half, win);
  }

  ghost predicate AllFar(places: seq<nat>, limit: nat) {
    forall i :: 0 <= i < |places| ==> places[i] >= limit
  }

  lemma FarAreDue(places: seq<nat>, next: nat, half: nat, win: nat)
    requires 0 < win < half && AllFar(places, next + win)
    ensures AllDue(places, next, half, win)
  {
    forall i | 0 <= i < |places| ensures Due(next, places[i], half, win) { FarIsDue(next, places[i], half, win); }
  }

  /** Each entry carries the id of its place, which is at or after `from` and not half the id space away. */
  ghost predicate Ahead<P>(list: seq<(nat, P)>, places: seq<nat>, from: nat, half: nat) {
    && half > 0 && |list| == |places|
    && (forall i :: 0 <= i < |list| ==> list[i].0 == IdOf(places[i], 2 * half) && from <= places[i] < from + half)
  }

  ghost predicate AllDue(places: seq<nat>, next: nat, half: nat, win: nat)
    requires 0 < win && 0 < half
  {
    forall i :: 0 <= i < |places| ==> Due(next, places[i], half, win)
  }

  /** Every message is made of at least one packet. */
  ghost predicate Chains<P>(items: seq<seq<P>>) {
    forall i :: 0 <= i < |items| ==> items[i] != []
  }

  /** No message but the first, which is not drained, and the last can be one whose processing fails. */
  ghost predicate OnlyLast<P>(items: seq<seq<P>>, bad: seq<P> -> bool) {
    forall i :: 0 < i < |items| - 1 ==> !bad(items[i])
  }

  lemma Prepended<P>(p: P, more: seq<seq<P>>, bad: seq<P> -> bool)
    requires Chains(more) && forall i :: 0 <= i < |more| - 1 ==> !bad(more[i])
    ensures OnlyLast([[p]] + more, bad) && Chains([[p]] + more)
    ensures Stopped(more, bad) ==> Stopped([[p]] + more, bad)
  {
    var items := [[p]] + more;
    assert forall i :: 0 < i < |items| ==> items[i] == more[i - 1];
  }

  /** Processing failed on the last message. */
  ghost predicate Stopped<P>(items: seq<seq<P>>, bad: seq<P> -> bool) {
    items != [] && bad(items[|items| - 1])
  }

  /** Where a peer is: the position expected next, and all that waits. */
  datatype Books<P> = Books(next: nat, pending: map<nat, seq<P>>, list: seq<(nat, P)>, places: seq<nat>)

  /** The chain that waits in the window for position u. */
  ghost function Chain<P>(pending: map<nat, seq<P>>, u: nat): (c: seq<P>) {
    if u in pending then pending[u] else []
  }

  /** The packets for position u on the first n places of the overflow list, in list order. */
  ghost function Listed<P>(list: seq<(nat, P)>, places: seq<nat>, n: nat, u: nat): (c: seq<P>)
    requires n <= |list| == |places|
  {
    if n == 0 then []
    else Listed(list, places, n - 1, u) + if places[n - 1] == u then [list[n - 1].1] else []
  }

  ghost function Front<P>(s: Books<P>, u: nat): (c: seq<P>) {
    Chain(s.pending, u)
  }

  ghost function Back<P>(s: Books<P>, u: nat): (c: seq<P>) {
    if |s.list| == |s.places| then Listed(s.list, s.places, |s.list|, u) else []
  }

  lemma {:induction false} ListedPrefix<P>(list: seq<(nat, P)>, places: seq<nat>, x: (nat, P), v: nat, n: nat, u: nat)
    requires n <= |list| == |places|
    ensures Listed(list + [x], places + [v], n, u) == Listed(list, places, n, u)
    ensures Listed([x] + list, [v] + places, n + 1, u) == (if v == u then [x.1] else []) + Listed(list, places, n, u)
  {
    if n > 0 {
      ListedPrefix(list, places, x, v, n - 1, u);
    } else {
      assert Listed([x] + list, [v] + places, 0, u) == [];
    }
  }

  lemma {:induction false} NotListed<P>(list: seq<(nat, P)>, places: seq<nat>, n: nat, u: nat)
    requires n <= |list| == |places| && forall i :: 0 <= i < n ==> places[i] != u
    ensures Listed(list, places, n, u) == []
  {
    if n > 0 { NotListed(list, places, n - 1, u); }
  }

  /** A packet joins the chain of its position, at its end. */
  ghost function Joined<P>(pending: map<nat, seq<P>>, u: nat, p: P): (pending': map<nat, seq<P>>) {
    pending[u := Chain(pending, u) + [p]]
  }

  lemma JoinedSize<P>(pending: map<nat, seq<P>>, u: nat, p: P)
    ensures |Joined(pending, u, p)| <= |pending| + 1
  {
    assert Joined(pending, u, p).Keys == pending.Keys + {u};
  }

  /** A step of the window: what was due is still ahead. */
  lemma StillAhead<P>(list: seq<(nat, P)>, places: seq<nat>, next: nat, half: nat, win: nat)
    requires 0 < win && Ahead(list, places, next, half) && AllDue(places, next, half, win)
    ensures Ahead(list, places, next + 1, half)
  {
    forall i | 0 <= i < |list| ensures next < places[i] { assert Due(next, places[i], half, win); }
  }

  lemma StillDue(places: seq<nat>, next: nat, half: nat, win: nat)
    requires 0 < win && 0 < half && 0 < next && AllDue(places, next - 1, half, win) && !Trigger(next, half, win)
    ensures AllDue(places, next, half, win)
  {
    forall i | 0 <= i < |places| ensures Due(next, places[i], half, win) {
      assert Due(next - 1, places[i], half, win);
      var m: nat :| next - 1 < m <= places[i] && Trigger(m, half, win);
      assert next < m <= places[i] && Trigger(m, half, win);
    }
  }

  /** Nothing on the list is for the expected position. */
  lemma NoneDue<P>(s: Books<P>, half: nat, win: nat)
    requires 0 < win && 0 < half && |s.list| == |s.places| && AllDue(s.places, s.next, half, win)
    ensures Back(s, s.next) == []
  {
    forall i | 0 <= i < |s.places| ensures s.places[i] != s.next { assert Due(s.next, s.places[i], half, win); }
    NotListed(s.list, s.places, |s.list|, s.next);
  }

  /** Every message that waits is made of at least one packet. */
  ghost predicate NoEmpty<P>(pending: map<nat, seq<P>>) {
    forall u :: u in pending ==> pending[u] != []
  }

  /** Every state has its list in order, no empty chain, and nothing on the list for the expected position. */
  ghost predicate Proper<P>(s: Books<P>) {
    |s.list| == |s.places| && NoEmpty(s.pending) && Back(s, s.next) == []
  }

  /**
   What is held for position u is held as before, or its packets on the list, in list order, went behind those
   in the window, where the position now is.
   */
  ghost predicate Kept<P>(s: Books<P>, t: Books<P>, win: nat, u: nat) {
    || (Front(t, u) == Front(s, u) && Back(t, u) == Back(s, u))
    || (u < t.next + win && Front(t, u) == Front(s, u) + Back(s, u) && Back(t, u) == [])
  }

  /** All is held for its position as before. */
  ghost predicate SameHoldings<P>(s: Books<P>, t: Books<P>, win: nat) {
    t.next == s.next && forall u: nat :: Kept(s, t, win, u)
  }

  /** From s to t exactly the messages `items` were handed on, one for each position in between. */
  ghost predicate Ledger<P>(s: Books<P>, t: Books<P>, items: seq<seq<P>>, win: nat) {
    && t.next == s.next + |items|
    && (forall u: nat :: u < s.next || u >= t.next ==> Kept(s, t, win, u))
    && (forall u: nat :: s.next <= u < t.next ==> items[u - s.next] == Front(s, u) + Back(s, u))
  }

  lemma LedgerNone<P>(s: Books<P>, win: nat)
    ensures Ledger(s, s, [], win)
  {
  }

  lemma KeptThen<P>(a: Books<P>, b: Books<P>, c: Books<P>, win: nat, u: nat)
    requires Kept(a, b, win, u) && Kept(b, c, win, u) && b.next <= c.next
    ensures Kept(a, c, win, u) && Front(a, u) + Back(a, u) == Front(b, u) + Back(b, u)
  {
  }

  lemma LedgerThen<P>(a: Books<P>, b: Books<P>, c: Books<P>, xs: seq<seq<P>>, ys: seq<seq<P>>, win: nat)
    requires Ledger(a, b, xs, win) && Ledger(b, c, ys, win)
    ensures Ledger(a, c, xs + ys, win)
  {
    forall u: nat | u < a.next || u >= c.next ensures Kept(a, c, win, u) { KeptThen(a, b, c, win, u); }
    forall u: nat | a.next <= u < c.next ensures (xs + ys)[u - a.next] == Front(a, u) + Back(a, u) {
      if u >= b.next {
        assert Kept(a, b, win, u) && ys[u - b.next] == Front(b, u) + Back(b, u);
      } else {
        assert xs[u - a.next] == Front(a, u) + Back(a, u);
      }
    }
  }

  lemma LedgerSame<P>(a: Books<P>, b: Books<P>, c: Books<P>, items: seq<seq<P>>, win: nat)
    requires Ledger(a, b, items, win) && SameHoldings(b, c, win)
    ensures Ledger(a, c, items, win)
  {
    forall u: nat | u < a.next || u >= c.next ensures Kept(a, c, win, u) { KeptThen(a, b, c, win, u); }
  }

  /** The expected message leaves the window; nothing on the list is for its position. */
  lemma LedgerTake<P>(s: Books<P>, half: nat, win: nat)
    requires 0 < win && 0 < half && |s.list| == |s.places| && AllDue(s.places, s.next, half, win) && s.next in s.pending
    ensures Ledger(s, s.(next := s.next + 1, pending := s.pending - {s.next}), [s.pending[s.next]], win)
  {
    NoneDue(s, half, win);
  }

  /** The verdict on a packet for position u that is near the expected one. */
  ghost function VerdictOn(next: nat, win: nat, u: nat, oom: bool): (v: Verdict) {
    if u < next then Late
    else if u == next then InTurn
    else if oom then NoMem
    else if u >= next + win then Beyond else Early
  }

  /** The books once the window slid over a message that waits for the expected position. */
  ghost function Shifted<P>(s: Books<P>, win: nat): (t: Books<P>) {
    s.(pending := Passed(s.pending, s.next, win))
  }

  /**
   The books with a packet put in: in turn, it is the message of its position, and what waited there is shifted;
   early, it ends the chain of its position; beyond the window, it heads the list.
   */
  ghost function PutIn<P>(s: Books<P>, win: nat, v: Verdict, id: nat, u: nat, p: P): (t: Books<P>) {
    match v
    case InTurn => Shifted(s, win).(pending := Passed(s.pending, s.next, win)[s.next := [p]])
    case Early => s.(pending := Joined(s.pending, u, p))
    case Beyond => s.(list := [(id, p)] + s.list, places := [u] + s.places)
    case _ => s
  }

  /** The packet in turn is all there is for its position. */
  lemma LedgerTurn<P>(s: Books<P>, half: nat, win: nat, id: nat, p: P)
    requires 0 < win && 0 < half && |s.list| == |s.places| && AllDue(s.places, s.next, half, win)
    ensures Ledger(PutIn(s, win, InTurn, id, s.next, p), Shifted(s, win).(next := s.next + 1), [[p]], win)
  {
    NoneDue(s, half, win);
    var a, b := PutIn(s, win, InTurn, id, s.next, p), Shifted(s, win).(next := s.next + 1);
    forall u: nat | u < s.next || u >= s.next + 1 ensures Kept(a, b, win, u) {
    }
  }

  /**
   What the first n entries of a list come to at position u once they were gone through: below `limit` they
   went to the end of the position's chain, in list order, and at or above it they are kept, in list order.
   */
  ghost predicate GoneAt<P>(pending: map<nat, seq<P>>, kept: seq<(nat, P)>, places: seq<nat>,
                            pending0: map<nat, seq<P>>, list0: seq<(nat, P)>, places0: seq<nat>, n: nat,
                            limit: nat, u: nat)
    requires |kept| == |places| && n <= |list0| == |places0|
  {
    var l := Listed(list0, places0, n, u);
    && Chain(pending, u) == Chain(pending0, u) + (if u < limit then l else [])
    && Listed(kept, places, |kept|, u) == if u < limit then [] else l
  }

  ghost predicate GoneThrough<P>(pending: map<nat, seq<P>>, kept: seq<(nat, P)>, places: seq<nat>,
                                 pending0: map<nat, seq<P>>, list0: seq<(nat, P)>, places0: seq<nat>, n: nat,
                                 limit: nat)
  {
    && |kept| == |places| && n <= |list0| == |places0|
    && (forall u: nat :: GoneAt(pending, kept, places, pending0, list0, places0, n, limit, u))
  }

  lemma GoneKeep<P>(pending: map<nat, seq<P>>, kept: seq<(nat, P)>, places: seq<nat>, pending0: map<nat, seq<P>>,
                    list0: seq<(nat, P)>, places0: seq<nat>, n: nat, limit: nat)
    requires GoneThrough(pending, kept, places, pending0, list0, places0, n, limit)
    requires n < |list0| && places0[n] >= limit
    ensures GoneThrough(pending, kept + [list0[n]], places + [places0[n]], pending0, list0, places0, n + 1, limit)
  {
    var kept', places', m := kept + [list0[n]], places + [places0[n]], n + 1;
    forall u: nat ensures GoneAt(pending, kept', places', pending0, list0, places0, m, limit, u) {
      assert GoneAt(pending, kept, places, pending0, list0, places0, n, limit, u);
      ListedPrefix(kept, places, list0[n], places0[n], |kept|, u);
    }
  }

  lemma GoneMoveAt<P>(pending: map<nat, seq<P>>, kept: seq<(nat, P)>, places: seq<nat>, pending0: map<nat, seq<P>>,
                      list0: seq<(nat, P)>, places0: seq<nat>, n: nat, limit: nat, u: nat)
    requires |kept| == |places| && n < |list0| == |places0| && places0[n] < limit
    requires GoneAt(pending, kept, places, pending0, list0, places0, n, limit, u)
    ensures GoneAt(Joined(pending, places0[n], list0[n].1), kept, places, pending0, list0, places0, n + 1, limit, u)
  {
    if u == places0[n] {
      var l, x := Listed(list0, places0, n, u), [list0[n].1];
      assert Chain(pending0, u) + (l + x) == (Chain(pending0, u) + l) + x;
    }
  }

  lemma GoneMove<P>(pending: map<nat, seq<P>>, kept: seq<(nat, P)>, places: seq<nat>, pending0: map<nat, seq<P>>,
                    list0: seq<(nat, P)>, places0: seq<nat>, n: nat, limit: nat)
    requires GoneThrough(pending, kept, places, pending0, list0, places0, n, limit)
    requires n < |list0| && places0[n] < limit
    ensures GoneThrough(Joined(pending, places0[n], list0[n].1), kept, places, pending0, list0, places0, n + 1, limit)
  {
    var pending', m := Joined(pending, places0[n], list0[n].1), n + 1;
    forall u: nat ensures GoneAt(pending', kept, places, pending0, list0, places0, m, limit, u) {
      GoneMoveAt(pending, kept, places, pending0, list0, places0, n, limit, u);
    }
  }

  /** One more entry is gone through: it moves or is kept. */
  lemma GoneNext<P>(pending: map<nat, seq<P>>, kept: seq<(nat, P)>, places: seq<nat>, pending0: map<nat, seq<P>>,
                    list0: seq<(nat, P)>, places0: seq<nat>, n: nat, limit: nat)
    requires GoneThrough(pending, kept, places, pending0, list0, places0, n, limit) && n < |list0|
    ensures if places0[n] < limit then
              GoneThrough(Joined(pending, places0[n], list0[n].1), kept, places, pending0, list0, places0, n + 1, limit)
            else
              GoneThrough(pending, kept + [list0[n]], places + [places0[n]], pending0, list0, places0, n + 1, limit)
  {
    if places0[n] < limit {
      GoneMove(pending, kept, places, pending0, list0, places0, n, limit);
    } else {
      GoneKeep(pending, kept, places, pending0, list0, places0, n, limit);
    }
  }

  lemma GoneEnd<P>(pending: map<nat, seq<P>>, kept: seq<(nat, P)>, places: seq<nat>, pending0: map<nat, seq<P>>,
                   list0: seq<(nat, P)>, places0: seq<nat>, next: nat, win: nat)
    requires GoneThrough(pending, kept, places, pending0, list0, places0, |list0|, next + win)
    ensures SameHoldings(Books(next, pending0, list0, places0), Books(next, pending, kept, places), win)
  {
    var s, t := Books(next, pending0, list0, places0), Books(next, pending, kept, places);
    forall u: nat ensures Kept(s, t, win, u) {
      assert GoneAt(pending, kept, places, pending0, list0, places0, |list0|, next + win, u);
    }
  }
}
