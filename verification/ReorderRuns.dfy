/** Whole runs of a peer: what each message handed on is made of, and when that goes wrong. */
module ReorderRuns {
  import opened Bits
  import opened RecvWindow
  import opened ReorderBooks
  import opened ReorderPeer

  /** A packet is in turn while a message already waits for its position. */
  ghost predicate Clash<P>(s: Books<P>, u: nat) {
    u == s.next && s.next in s.pending
  }

  /**
   A run of a peer: the packets that arrived, what was decided on each and what it made the peer hand on,
   and the states in between. `bad` says on which messages processing fails, `oom` where memory is short.
   */
  datatype Run<!P> = Run(states: seq<Books<P>>, arrivals: seq<(nat, P)>, verdicts: seq<Verdict>,
                        handed: seq<seq<seq<P>>>, win: nat, half: nat, bad: seq<P> -> bool, oom: nat -> bool)

  /** Packet k took the peer from its k-th state to the next. */
  ghost predicate Stepped<P>(r: Run<P>, k: nat)
    requires k < |r.arrivals| && k < |r.verdicts| && k < |r.handed| && k + 1 < |r.states| && r.half > 0
  {
    var (u, p) := r.arrivals[k];
    Took(r.states[k], r.states[k + 1], r.win, r.half, u, p, r.bad, r.oom(k), r.verdicts[k], r.handed[k])
  }

  ghost predicate Trace<P>(r: Run<P>) {
    && |r.states| == |r.verdicts| + 1 && |r.handed| == |r.verdicts| <= |r.arrivals| && r.half > 0
    && (forall k: nat :: k < |r.verdicts| ==> Stepped(r, k))
    && (forall k :: 0 <= k < |r.states| ==> Proper(r.states[k]))
  }

  lemma TraceNext<P>(r: Run<P>, t: Books<P>, v: Verdict, items: seq<seq<P>>)
    requires Trace(r) && |r.verdicts| < |r.arrivals| && Proper(t)
    requires var k := |r.verdicts|;
             Took(r.states[k], t, r.win, r.half, r.arrivals[k].0, r.arrivals[k].1, r.bad, r.oom(k), v, items)
    ensures Trace(r.(states := r.states + [t], verdicts := r.verdicts + [v], handed := r.handed + [items]))
  {
    var r' := r.(states := r.states + [t], verdicts := r.verdicts + [v], handed := r.handed + [items]);
    forall k: nat | k < |r'.verdicts| ensures Stepped(r', k) {
      if k < |r.verdicts| { assert Stepped(r, k); }
    }
  }

  /** All messages that the first n packets made the peer hand on. */
  ghost function Log<P>(handed: seq<seq<seq<P>>>, n: nat): (log: seq<seq<P>>)
    requires n <= |handed|
  {
    if n == 0 then [] else Log(handed, n - 1) + handed[n - 1]
  }

  /** No packet among the first n was in turn while a message waited for its position. */
  ghost predicate NoClash<P>(r: Run<P>, n: nat)
    requires n < |r.states| && n <= |r.arrivals|
  {
    forall k :: 0 <= k < n ==> !Clash(r.states[k], r.arrivals[k].0)
  }

  /**
   The packets for position u that found it in the window or in turn, in order of arrival, among the first n,
   behind those that waited there before.
   */
  ghost function Chained<P>(r: Run<P>, n: nat, u: nat): (e: seq<P>)
    requires n <= |r.verdicts| <= |r.arrivals| && r.states != []
  {
    if n == 0 then Front(r.states[0], u)
    else
      var v, (a, p) := r.verdicts[n - 1], r.arrivals[n - 1];
      Chained(r, n - 1, u) + if (v.Early? || v.InTurn?) && a == u then [p] else []
  }

  /** Those that found it beyond the window, the latest first, before those that were on the list already. */
  ghost function Parked<P>(r: Run<P>, n: nat, u: nat): (k: seq<P>)
    requires n <= |r.verdicts| <= |r.arrivals| && r.states != []
  {
    if n == 0 then Back(r.states[0], u)
    else
      var v, (a, p) := r.verdicts[n - 1], r.arrivals[n - 1];
      (if v.Beyond? && a == u then [p] else []) + Parked(r, n - 1, u)
  }

  /** m is e with all of k put in at place i. */
  ghost predicate WovenAt<P>(m: seq<P>, e: seq<P>, k: seq<P>, i: nat) {
    i <= |e| && m == e[..i] + k + e[i..]
  }

  ghost predicate Woven<P>(m: seq<P>, e: seq<P>, k: seq<P>) {
    exists i: nat :: WovenAt(m, e, k, i)
  }

  lemma WovenSize<P>(m: seq<P>, e: seq<P>, k: seq<P>)
    requires Woven(m, e, k)
    ensures |m| == |e| + |k| && (k == [] ==> m == e)
  {
    var i: nat :| WovenAt(m, e, k, i);
  }

  lemma WovenBehind<P>(e: seq<P>, k: seq<P>)
    ensures Woven(e + k, e, k)
  {
    assert WovenAt(e + k, e, k, |e|);
  }

  lemma WovenLonger<P>(m: seq<P>, e: seq<P>, k: seq<P>, x: P)
    requires Woven(m, e, k)
    ensures Woven(m + [x], e + [x], k)
  {
    var i: nat :| WovenAt(m, e, k, i);
    assert (e + [x])[..i] == e[..i] && (e + [x])[i..] == e[i..] + [x];
    assert WovenAt(m + [x], e + [x], k, i);
  }

  /**
   What waits for a position: its packets chained in order of arrival and those on the list, or, once the position
   is in the window, one chain with those from the list put in together.
   */
  ghost predicate Waits<P>(f: seq<P>, b: seq<P>, e: seq<P>, k: seq<P>, inWindow: bool) {
    (f == e && b == k) || (b == [] && inWindow && Woven(f, e, k))
  }

  lemma WaitsWhole<P>(f: seq<P>, b: seq<P>, e: seq<P>, k: seq<P>, inWindow: bool)
    requires Waits(f, b, e, k, inWindow)
    ensures Woven(f + b, e, k)
  {
    WovenBehind(e, k);
    assert f + [] == f;
  }

  lemma WaitsKept<P>(s: Books<P>, t: Books<P>, win: nat, u: nat, e: seq<P>, k: seq<P>)
    requires Waits(Front(s, u), Back(s, u), e, k, u < s.next + win) && Kept(s, t, win, u) && s.next <= t.next
    ensures Waits(Front(t, u), Back(t, u), e, k, u < t.next + win)
  {
    WaitsWhole(Front(s, u), Back(s, u), e, k, u < s.next + win);
  }

  /**
   The packets that came for position u, in order of arrival, those beyond the window together, are the message
   handed on for it, or wait for it.
   */
  ghost predicate AccountedAt<P>(r: Run<P>, n: nat, u: nat)
    requires n < |r.states| && n <= |r.verdicts| <= |r.arrivals| && n <= |r.handed|
    requires r.states[n].next == r.states[0].next + |Log(r.handed, n)|
  {
    var s, t := r.states[0], r.states[n];
    var e, k := Chained(r, n, u), Parked(r, n, u);
    if s.next <= u < t.next then Woven(Log(r.handed, n)[u - s.next], e, k)
    else Waits(Front(t, u), Back(t, u), e, k, u < t.next + r.win)
  }

  /** After the first n packets, this holds for every position. */
  ghost predicate AllAccounted<P>(r: Run<P>, n: nat)
    requires n < |r.states| && n <= |r.verdicts| <= |r.arrivals| && n <= |r.handed|
  {
    && r.states[n].next == r.states[0].next + |Log(r.handed, n)|
    && (forall u: nat :: AccountedAt(r, n, u))
  }

  /** What putting a packet in does to a position. */
  lemma PutInAt<P>(s: Books<P>, win: nat, v: Verdict, id: nat, a: nat, p: P, u: nat)
    requires |s.list| == |s.places| && (v.InTurn? ==> a == s.next && s.next !in s.pending)
    ensures var t := PutIn(s, win, v, id, a, p);
            && Front(t, u) == Front(s, u) + (if (v.Early? || v.InTurn?) && a == u then [p] else [])
            && Back(t, u) == (if v.Beyond? && a == u then [p] else []) + Back(s, u)
  {
    if v.Beyond? { ListedPrefix(s.list, s.places, (id, p), a, |s.list|, u); }
  }

  /** One more packet that waits. */
  lemma WaitsNext<P>(f: seq<P>, b: seq<P>, e: seq<P>, k: seq<P>, inWindow: bool, x: seq<P>, y: seq<P>)
    requires Waits(f, b, e, k, inWindow) && |x| <= 1 && |y| <= 1 && (y != [] ==> !inWindow && x == [])
    ensures Waits(f + x, y + b, e + x, y + k, inWindow)
  {
    if x != [] && b == [] && inWindow && Woven(f, e, k) { WovenLonger(f, e, k, x[0]); }
    assert x == [] || x == [x[0]];
    assert f + [] == f && e + [] == e && [] + b == b && [] + k == k;
  }

  lemma {:induction false} LogSize<P>(r: Run<P>, n: nat)
    requires Trace(r) && n <= |r.verdicts|
    ensures r.states[n].next == r.states[0].next + |Log(r.handed, n)|
  {
    if n > 0 {
      LogSize(r, n - 1);
      assert Stepped(r, n - 1);
    }
  }

  lemma {:induction false} LogPrefix<P>(handed: seq<seq<seq<P>>>, k: nat, n: nat)
    requires k < n <= |handed| && handed[k] != []
    ensures |Log(handed, k)| < |Log(handed, n)| && Log(handed, n)[|Log(handed, k)|] == handed[k][0]
  {
    if k < n - 1 { LogPrefix(handed, k, n - 1); }
  }

  lemma ChainedNext<P>(r: Run<P>, k: nat, u: nat)
    requires k < |r.verdicts| <= |r.arrivals| && r.states != []
    ensures var v, (a, p) := r.verdicts[k], r.arrivals[k];
            && Chained(r, k + 1, u) == Chained(r, k, u) + (if (v.Early? || v.InTurn?) && a == u then [p] else [])
            && Parked(r, k + 1, u) == (if v.Beyond? && a == u then [p] else []) + Parked(r, k, u)
  {
  }

  /** Packet k leaves a position that was handed on before as it was. */
  lemma AccountedOld<P>(r: Run<P>, k: nat, u: nat)
    requires Trace(r) && k < |r.verdicts| && AllAccounted(r, k) && r.states[0].next <= u < r.states[k].next
    requires r.states[k + 1].next == r.states[0].next + |Log(r.handed, k + 1)|
    ensures AccountedAt(r, k + 1, u)
  {
    assert Stepped(r, k) && AccountedAt(r, k, u);
    ChainedNext(r, k, u);
    assert Chained(r, k, u) + [] == Chained(r, k, u) && [] + Parked(r, k, u) == Parked(r, k, u);
  }

  /** What waits once packet k is put in. */
  lemma WaitsPut<P>(r: Run<P>, k: nat, u: nat)
    requires Trace(r) && k < |r.verdicts| && AllAccounted(r, k) && !(r.states[0].next <= u < r.states[k].next)
    requires !Clash(r.states[k], r.arrivals[k].0)
    ensures var (a, p) := r.arrivals[k];
            var s := PutIn(r.states[k], r.win, r.verdicts[k], IdOf(a, 2 * r.half), a, p);
            Waits(Front(s, u), Back(s, u), Chained(r, k + 1, u), Parked(r, k + 1, u), u < s.next + r.win)
  {
    var v, s := r.verdicts[k], r.states[k];
    var (a, p) := r.arrivals[k];
    assert Stepped(r, k) && AccountedAt(r, k, u);
    ChainedNext(r, k, u);
    PutInAt(s, r.win, v, IdOf(a, 2 * r.half), a, p, u);
    WaitsNext(Front(s, u), Back(s, u), Chained(r, k, u), Parked(r, k, u), u < s.next + r.win,
              if (v.Early? || v.InTurn?) && a == u then [p] else [], if v.Beyond? && a == u then [p] else []);
  }

  lemma AccountedNext<P>(r: Run<P>, k: nat, u: nat)
    requires Trace(r) && k < |r.verdicts| && AllAccounted(r, k) && !(r.states[0].next <= u < r.states[k].next)
    requires !Clash(r.states[k], r.arrivals[k].0)
    requires r.states[k + 1].next == r.states[0].next + |Log(r.handed, k + 1)|
    ensures AccountedAt(r, k + 1, u)
  {
    var (a, p) := r.arrivals[k];
    var s, t := PutIn(r.states[k], r.win, r.verdicts[k], IdOf(a, 2 * r.half), a, p), r.states[k + 1];
    var e, o := Chained(r, k + 1, u), Parked(r, k + 1, u);
    assert Stepped(r, k);
    WaitsPut(r, k, u);
    if s.next <= u < t.next {
      assert r.handed[k][u - s.next] == Front(s, u) + Back(s, u);
      WaitsWhole(Front(s, u), Back(s, u), e, o, u < s.next + r.win);
    } else {
      assert Kept(s, t, r.win, u);
      WaitsKept(s, t, r.win, u, e, o);
    }
  }

  lemma {:induction false} TraceAccounted<P>(r: Run<P>, n: nat)
    requires Trace(r) && n <= |r.verdicts| && NoClash(r, n)
    ensures AllAccounted(r, n)
  {
    LogSize(r, n);
    if n > 0 {
      var k := n - 1;
      TraceAccounted(r, k);
      forall u: nat ensures AccountedAt(r, n, u) {
        if r.states[0].next <= u < r.states[k].next {
          AccountedOld(r, k, u);
        } else {
          AccountedNext(r, k, u);
        }
      }
    }
  }

  lemma {:induction false} ChainedGrows<P>(r: Run<P>, m: nat, n: nat, u: nat)
    requires m <= n <= |r.verdicts| <= |r.arrivals| && r.states != []
    ensures |Chained(r, m, u)| <= |Chained(r, n, u)| && |Parked(r, m, u)| <= |Parked(r, n, u)|
  {
    if m < n { ChainedGrows(r, m, n - 1, u); }
  }

  /** At the first clash the books go wrong for good: the message that waits is not handed on for its position. */
  lemma ClashBreaks<P>(r: Run<P>, k: nat, n: nat)
    requires Trace(r) && k < n <= |r.verdicts| && AllAccounted(r, k) && Clash(r.states[k], r.arrivals[k].0)
    ensures !AllAccounted(r, n)
  {
    var (u, p) := r.arrivals[k];
    assert Stepped(r, k) && AccountedAt(r, k, u) && Proper(r.states[k]);
    LogSize(r, k);
    LogSize(r, n);
    LogPrefix(r.handed, k, n);
    ChainedNext(r, k, u);
    ChainedGrows(r, k + 1, n, u);
    var f, b := Front(r.states[k], u), Back(r.states[k], u);
    WaitsWhole(f, b, Chained(r, k, u), Parked(r, k, u), u < r.states[k].next + r.win);
    WovenSize(f + b, Chained(r, k, u), Parked(r, k, u));
    if AccountedAt(r, n, u) { WovenSize([p], Chained(r, n, u), Parked(r, n, u)); }
  }

  lemma FirstClash<P>(r: Run<P>, n: nat) returns (k: nat)
    requires n < |r.states| && n <= |r.arrivals|
    ensures k <= n && NoClash(r, k) && (k < n ==> Clash(r.states[k], r.arrivals[k].0))
  {
    k := 0;
    while k < n && !Clash(r.states[k], r.arrivals[k].0)
      invariant k <= n && NoClash(r, k)
    {
      k := k + 1;
    }
  }

  /**
   Every message handed on is made of the packets that came for its position, in order of arrival, those from the
   overflow list together, and all others wait likewise, exactly if no packet was in turn while a message already
   waited for its position.
   */
  lemma AccountedIff<P>(r: Run<P>, n: nat)
    requires Trace(r) && n <= |r.verdicts|
    ensures AllAccounted(r, n) <==> NoClash(r, n)
  {
    var k := FirstClash(r, n);
    TraceAccounted(r, k);
    if k < n { ClashBreaks(r, k, n); }
  }

  /** Without overflow, a message is the sequence of the packets accepted for its position, in order of arrival. */
  lemma InArrivalOrder<P>(r: Run<P>, n: nat, u: nat)
    requires Trace(r) && n <= |r.verdicts| && NoClash(r, n) && Parked(r, n, u) == []
    requires r.states[0].next <= u < r.states[n].next
    ensures |Log(r.handed, n)| == r.states[n].next - r.states[0].next
    ensures Log(r.handed, n)[u - r.states[0].next] == Chained(r, n, u)
  {
    TraceAccounted(r, n);
    assert AccountedAt(r, n, u);
    WovenSize(Log(r.handed, n)[u - r.states[0].next], Chained(r, n, u), Parked(r, n, u));
  }

  /** A message waits for the expected position only after a failure to process one stopped the draining. */
  lemma {:induction false} FailureBefore<P>(r: Run<P>, n: nat) returns (k: nat)
    requires Trace(r) && n <= |r.verdicts|
    requires r.states[n].next in r.states[n].pending && r.states[0].next !in r.states[0].pending
    ensures k < n && Stopped(r.handed[k], r.bad)
  {
    assert Stepped(r, n - 1);
    if r.verdicts[n - 1].InTurn? {
      k := n - 1;
    } else {
      k := FailureBefore(r, n - 1);
    }
  }

  lemma NoFailureNoClash<P>(r: Run<P>, n: nat)
    requires Trace(r) && n <= |r.verdicts| && r.states[0].next !in r.states[0].pending
    requires forall k :: 0 <= k < n ==> !Stopped(r.handed[k], r.bad)
    ensures NoClash(r, n)
  {
    var k := FirstClash(r, n);
    if k < n { var j := FailureBefore(r, k); }
  }

  lemma StallsOnce<P>(r: Run<P>, k: nat)
    requires Trace(r) && k < |r.verdicts| && r.arrivals[k].0 != r.states[k].next
    ensures r.states[k + 1].next == r.states[k].next && r.handed[k] == []
    ensures r.states[k + 1].next in r.states[k + 1].pending <==> r.states[k].next in r.states[k].pending
  {
    assert Stepped(r, k);
  }

  /** While a message waits for the expected position, nothing is handed on until a packet comes for that position. */
  lemma {:induction false} Stalls<P>(r: Run<P>, k: nat, n: nat)
    requires Trace(r) && k <= n <= |r.verdicts| && r.states[k].next in r.states[k].pending
    requires forall j :: k <= j < n ==> r.arrivals[j].0 != r.states[k].next
    ensures r.states[n].next == r.states[k].next && r.states[n].next in r.states[n].pending
    ensures forall j :: k <= j < n ==> r.handed[j] == []
  {
    if k < n {
      Stalls(r, k, n - 1);
      StallsOnce(r, n - 1);
    }
  }

  /**
   A refusal has its reason: a late packet's position was handed on, memory was short, or the position is
   half the id space or more away from one the window was at.
   */
  ghost predicate Refused(v: Verdict, u: nat, start: nat, next: nat, half: nat, oom: bool) {
    && (v.Late? ==> u < next) && (v.NoMem? ==> oom)
    && (v.Alien? ==> u + half <= next || start + half <= u)
  }

  ghost predicate Reasons<P>(r: Run<P>)
    requires |r.verdicts| <= |r.arrivals| && |r.states| == |r.verdicts| + 1
  {
    forall k :: 0 <= k < |r.verdicts| ==>
      Refused(r.verdicts[k], r.arrivals[k].0, r.states[0].next, r.states[|r.verdicts|].next, r.half, r.oom(k))
  }

  lemma ReasonFor<P>(r: Run<P>, k: nat, n: nat)
    requires Trace(r) && k < n == |r.verdicts|
    ensures Refused(r.verdicts[k], r.arrivals[k].0, r.states[0].next, r.states[n].next, r.half, r.oom(k))
  {
    assert Stepped(r, k);
    LogSize(r, k);
    LogSize(r, n);
    LogGrows(r.handed, k, n);
  }

  lemma ReasonsHold<P>(r: Run<P>)
    requires Trace(r)
    ensures Reasons(r)
  {
    var n := |r.verdicts|;
    forall k | 0 <= k < n
      ensures Refused(r.verdicts[k], r.arrivals[k].0, r.states[0].next, r.states[n].next, r.half, r.oom(k))
    {
      ReasonFor(r, k, n);
    }
  }

  lemma {:induction false} LogGrows<P>(handed: seq<seq<seq<P>>>, k: nat, n: nat)
    requires k <= n <= |handed|
    ensures |Log(handed, k)| <= |Log(handed, n)|
  {
    if k < n { LogGrows(handed, k, n - 1); }
  }

  /**
   Whatever order packets arrive in, with duplicates, ids that wrap, windows that overflow and messages whose
   processing fails: every packet takes the peer one exact step. The messages handed on are those of
   consecutive positions, and a refusal has its reason. Each message is made of the packets that were accepted
   for its position, in order of arrival, those from the overflow list together, and all others wait likewise,
   if and only if no packet was in turn while a message waited for its position; without a failure that does
   not happen.
   */
  method Receive<P>(peer: Peer<P>, start: nat, arrivals: seq<(nat, P)>, bad: seq<P> -> bool, oom: nat -> bool)
    returns (handed: seq<seq<seq<P>>>, verdicts: seq<Verdict>, ghost r: Run<P>)
    requires peer.Valid() && peer.w.next == start
    modifies peer, peer.w, peer.w.buf
    ensures peer.Valid() && |verdicts| == |arrivals| && Trace(r)
    ensures r == Run(r.states, arrivals, verdicts, handed, peer.w.winSize, peer.w.half, bad, oom)
    ensures r.states[0] == old(peer.State()) && r.states[|arrivals|] == peer.State()
    ensures Reasons(r) && (AllAccounted(r, |arrivals|) <==> NoClash(r, |arrivals|))
    ensures start !in old(peer.w.pending) && (forall k :: 0 <= k < |arrivals| ==> !Stopped(handed[k], bad)) ==>
              NoClash(r, |arrivals|)
  {
    handed, verdicts := [], [];
    r := Run([peer.State()], arrivals, [], [], peer.w.winSize, peer.w.half, bad, oom);
    peer.ProperNow();
    var next := start;
    for k := 0 to |arrivals|
      invariant peer.Valid() && |verdicts| == k && next == peer.w.next && Trace(r)
      invariant r == Run(r.states, arrivals, verdicts, handed, peer.w.winSize, peer.w.half, bad, oom)
      invariant r.states[0] == old(peer.State()) && r.states[k] == peer.State()
    {
      var (u, p) := arrivals[k];
      var v, items := Alien, [];
      if next - peer.w.half < u < next + peer.w.half {
        v, items := peer.Arrive(IdOf(u, 2 * peer.w.half), p, u, bad, oom(k));
      } else {
        LedgerNone(peer.State(), peer.w.winSize);
      }
      peer.ProperNow();
      TraceNext(r, peer.State(), v, items);
      handed, verdicts, next := handed + [items], verdicts + [v], next + |items|;
      r := r.(states := r.states + [peer.State()], verdicts := verdicts, handed := handed);
    }
    ReasonsHold(r);
    AccountedIff(r, |arrivals|);
    if start !in old(peer.w.pending) && forall k :: 0 <= k < |arrivals| ==> !Stopped(handed[k], bad) {
      NoFailureNoClash(r, |arrivals|);
    }
  }

  /** Processing fails on the message of packet 11. */
  predicate Fails(m: seq<int>) {
    m == [11]
  }

  /** Position 0 is expected, packet 11 waits for position 1, 12 for position 2, and none elsewhere. */
  ghost predicate TwoWait(s: Books<int>) {
    && s.next == 0 && Proper(s) && (forall u: nat :: Back(s, u) == [])
    && (forall u: nat :: Front(s, u) == if u == 1 then [11] else if u == 2 then [12] else [])
  }

  /** With nothing on the list, a packet that waits changes its own chain only. */
  lemma ChainsOnly(s: Books<int>, t: Books<int>, id: nat, u: nat, p: int)
    requires Proper(s) && Ledger(PutIn(s, 16, Early, id, u, p), t, [], 16) && forall k: nat :: Back(s, k) == []
    ensures forall k: nat :: Back(t, k) == [] && Front(t, k) == Front(s, k) + if k == u then [p] else []
  {
    var put := PutIn(s, 16, Early, id, u, p);
    forall k: nat ensures Back(t, k) == [] && Front(t, k) == Front(s, k) + if k == u then [p] else [] {
      PutInAt(s, 16, Early, id, u, p, k);
      assert Kept(put, t, 16, k);
    }
  }

  lemma TurnKeeps(s: Books<int>, t: Books<int>, items: seq<seq<int>>, id: nat, p: int, u: nat)
    requires Ledger(PutIn(s, 16, InTurn, id, s.next, p), t, items, 16) && u > s.next && Back(s, u) == []
    requires forall k :: k in s.pending ==> k < s.next + 16
    ensures var f := if u == s.next + 16 then Front(s, s.next) else Front(s, u);
            && (u < t.next ==> items[u - s.next] == f)
            && (u >= t.next ==> Front(t, u) == f && Back(t, u) == [])
  {
    var put := PutIn(s, 16, InTurn, id, s.next, p);
    assert Front(put, u) == if u == s.next + 16 then Front(s, s.next) else Front(s, u);
    assert Back(put, u) == [];
    assert u >= t.next ==> Kept(put, t, 16, u);
  }

  lemma StopsBeforeTwo(s: Books<int>, t: Books<int>, items: seq<seq<int>>)
    requires TwoWait(s) && Took(s, t, 16, 0x8000_0000, 0, 10, Fails, false, InTurn, items)
    requires forall k :: k in s.pending ==> k < s.next + 16
    ensures t.next == 2 && Front(t, 2) == [12] && Front(t, 3) == [] && Back(t, 3) == [] && Back(t, 18) == []
  {
    TurnKeeps(s, t, items, 0, 10, 1);
    TurnKeeps(s, t, items, 0, 10, 2);
    TurnKeeps(s, t, items, 0, 10, 3);
    TurnKeeps(s, t, items, 0, 10, 18);
  }

  lemma LandsLater(s: Books<int>, t: Books<int>, items: seq<seq<int>>)
    requires s.next == 2 && Front(s, 2) == [12] && Front(s, 3) == [] && Back(s, 3) == [] && Back(s, 18) == []
    requires Took(s, t, 16, 0x8000_0000, 2, 13, Fails, false, InTurn, items)
    requires forall k :: k in s.pending ==> k < s.next + 16
    ensures items == [[13]] && t.next == 3 && Front(t, 18) == [12]
  {
    TurnKeeps(s, t, items, 2, 13, 3);
    TurnKeeps(s, t, items, 2, 13, 18);
  }

  method EarlyTwo() returns (peer: Peer<int>)
    ensures fresh(peer) && fresh(peer.w) && fresh(peer.w.buf) && peer.Valid() && TwoWait(peer.State())
    ensures peer.w.winSize == 16 && peer.w.half == 0x8000_0000
  {
    assert Pow2(4) == 16;
    var w := new Window<seq<int>>(0x8000_0000, 16, 16, 4, 0);
    peer := new Peer(w);
    ghost var s0 := peer.State();
    var v, items := peer.Arrive(1, 11, 1, Fails, false);
    ghost var s1 := peer.State();
    ChainsOnly(s0, s1, 1, 1, 11);
    peer.ProperNow();
    v, items := peer.Arrive(2, 12, 2, Fails, false);
    ChainsOnly(s1, peer.State(), 2, 2, 12);
    peer.ProperNow();
  }

  /**
   A run that `ofi_recvwin_slide` ends badly. Packets for positions 1 and 2 wait; with position 0 the
   window is drained, until processing fails on position 1. Now a second packet for position 2 is in
   turn: it is handed on alone, and the first one, 12, is held for position 18, one window later.
   */
  method SteppedOver() returns (peer: Peer<int>, v: Verdict, items: seq<seq<int>>)
    ensures fresh(peer) && peer.Valid() && v == InTurn && items == [[13]] && peer.w.next == 3
    ensures Front(peer.State(), 18) == [12]
  {
    peer := EarlyTwo();
    ghost var s2 := peer.State();
    v, items := peer.Arrive(0, 10, 0, Fails, false);
    StopsBeforeTwo(s2, peer.State(), items);
    ghost var s3 := peer.State();
    v, items := peer.Arrive(2, 13, 2, Fails, false);
    LandsLater(s3, peer.State(), items);
  }
}
