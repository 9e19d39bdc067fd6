/**
 The poll set: an array for poll(2), whose slot 0 is the signal descriptor, and a
 table indexed by descriptor that says which slot it has. Both together stand for a
 map from descriptors to events and context.
 */
module PollFds {
  import opened PollWork

  const INVALID: int := -1

  datatype PollFd = PollFd(fd: int, events: int, revents: int)

  datatype Ctx<C> = Ctx(context: C, index: int)

  /** The user entries and the table lead to each other, and slot 0 belongs to the signal. */
  ghost predicate TableOk<C>(fds: seq<PollFd>, ctx: seq<Ctx<C>>, nfds: nat, signal: int) {
    && |fds| == |ctx| && 1 <= nfds <= |fds| && fds[0].fd == signal
    && (forall i :: 1 <= i < nfds ==> 0 <= fds[i].fd < |ctx| && ctx[fds[i].fd].index == i)
    && (forall f {:trigger ctx[f]} :: 0 <= f < |ctx| ==>
        ctx[f].index == -1 || (1 <= ctx[f].index < nfds && fds[ctx[f].index].fd == f))
  }

  /** The map the set stands for. */
  ghost function Users<C>(fds: seq<PollFd>, ctx: seq<Ctx<C>>): (m: map<int, Interest<C>>) {
    map f | 0 <= f < |ctx| && 0 <= ctx[f].index < |fds| ::
      Interest(fds[ctx[f].index].events, fds[ctx[f].index].revents, ctx[f].context)
  }

  /** `ofi_pollfds_get_ctx`: whether a descriptor is registered. */
  predicate Has<C>(fds: seq<PollFd>, ctx: seq<Ctx<C>>, nfds: nat, fd: int)
    requires nfds <= |fds|
  {
    0 <= fd < |ctx| && 0 <= ctx[fd].index < nfds && fds[ctx[fd].index].fd == fd
  }

  lemma HasIffUser<C>(fds: seq<PollFd>, ctx: seq<Ctx<C>>, nfds: nat, signal: int, fd: int)
    requires TableOk(fds, ctx, nfds, signal)
    ensures Has(fds, ctx, nfds, fd) <==> fd in Users(fds, ctx)
  {
  }

  /** Filling the slot of a registered descriptor. */
  lemma Update<C>(fds: seq<PollFd>, ctx: seq<Ctx<C>>, nfds: nat, signal: int, p: PollFd, context: C)
    requires TableOk(fds, ctx, nfds, signal) && 0 <= p.fd < |ctx| && ctx[p.fd].index >= 0
    ensures var i := ctx[p.fd].index;
            var fds', ctx' := fds[i := p], ctx[p.fd := ctx[p.fd].(context := context)];
            && TableOk(fds', ctx', nfds, signal)
            && Users(fds', ctx') == Users(fds, ctx)[p.fd := Interest(p.events, p.revents, context)]
  {
    var fd, i := p.fd, ctx[p.fd].index;
    var fds', ctx' := fds[i := p], ctx[fd := ctx[fd].(context := context)];
    forall f | 0 <= f < |ctx| && f != fd && ctx[f].index >= 0 ensures ctx[f].index != i { }
    assert Users(fds', ctx').Keys == Users(fds, ctx).Keys;
  }

  /** A new descriptor takes the slot behind the last. */
  lemma Insert<C>(fds: seq<PollFd>, ctx: seq<Ctx<C>>, nfds: nat, signal: int, fd: int, events: int, context: C)
    requires TableOk(fds, ctx, nfds, signal) && 0 <= fd < |ctx| && ctx[fd].index == -1 && nfds < |fds|
    ensures var fds', ctx' := fds[nfds := PollFd(fd, events, 0)], ctx[fd := Ctx(context, nfds)];
            && TableOk(fds', ctx', nfds + 1, signal)
            && Users(fds', ctx') == Users(fds, ctx)[fd := Interest(events, 0, context)]
  {
  }

  lemma RemoveLast<C>(fds: seq<PollFd>, ctx: seq<Ctx<C>>, nfds: nat, signal: int, fd: int)
    requires TableOk(fds, ctx, nfds, signal) && 0 <= fd < |ctx| && ctx[fd].index == nfds - 1
    ensures var ctx' := ctx[fd := ctx[fd].(index := -1)];
            TableOk(fds, ctx', nfds - 1, signal) && Users(fds, ctx') == Users(fds, ctx) - {fd}
  {
  }

  /** A descriptor is forgotten and the last entry moves into its slot. */
  lemma RemoveSwap<C>(fds: seq<PollFd>, ctx: seq<Ctx<C>>, nfds: nat, signal: int, fd: int)
    requires TableOk(fds, ctx, nfds, signal) && 0 <= fd < |ctx| && 0 <= ctx[fd].index < nfds - 1
    ensures var last := fds[nfds - 1].fd;
            0 <= last < |ctx| && last != fd
            && var fds' := Moved(fds, nfds - 1, ctx[fd].index);
               var ctx' := ctx[last := ctx[last].(index := ctx[fd].index)][fd := ctx[fd].(index := -1)];
               TableOk(fds', ctx', nfds - 1, signal) && Users(fds', ctx') == Users(fds, ctx) - {fd}
  {
    var i, last := ctx[fd].index, fds[nfds - 1].fd;
    var fds', ctx' := Moved(fds, nfds - 1, i), ctx[last := ctx[last].(index := i)][fd := ctx[fd].(index := -1)];
    assert TableOk(fds', ctx', nfds - 1, signal);
    var m, m' := Users(fds, ctx), Users(fds', ctx');
    forall f ensures f in m' <==> f in m && f != fd {
      if 0 <= f < |ctx| { assert ctx[f].index == -1 || fds[ctx[f].index].fd == f; }
    }
    forall f | f in m' ensures m'[f] == m[f] {
      assert fds[ctx[f].index].fd == f;
    }
  }

  /** The entry of slot `from` moves to slot i and leaves an empty one. */
  function Moved(fds: seq<PollFd>, from: nat, i: nat): (r: seq<PollFd>)
    requires i < from < |fds|
  {
    fds[i := fds[from]][from := PollFd(INVALID, 0, 0)]
  }

  /** More room changes nothing that is registered. */
  lemma Enlarge<C>(fds: seq<PollFd>, ctx: seq<Ctx<C>>, nfds: nat, signal: int, moreFds: seq<PollFd>,
                   moreCtx: seq<Ctx<C>>)
    requires TableOk(fds, ctx, nfds, signal) && |moreFds| == |moreCtx|
    requires forall k :: 0 <= k < |moreCtx| ==> moreCtx[k].index == -1
    ensures TableOk(fds + moreFds, ctx + moreCtx, nfds, signal)
    ensures Users(fds + moreFds, ctx + moreCtx) == Users(fds, ctx)
  {
    var fds', ctx' := fds + moreFds, ctx + moreCtx;
    assert TableOk(fds', ctx', nfds, signal);
    forall f | 0 <= f < |ctx'| && ctx'[f].index >= 0 ensures f < |ctx| { }
    assert Users(fds', ctx').Keys == Users(fds, ctx).Keys;
  }

  lemma {:induction false} Bounded(s: set<int>, n: nat)
    requires forall f :: f in s ==> 0 <= f < n
    ensures |s| <= n && (|s| == n ==> forall f :: 0 <= f < n ==> f in s)
  {
    if n == 0 {
      assert forall f :: f !in s;
      assert s == {};
    } else {
      Bounded(s - {n - 1}, n - 1);
      if |s| == n {
        forall f | 0 <= f < n ensures f in s { assert f < n - 1 ==> f in s - {n - 1}; }
      }
    }
  }

  /** The registered descriptors, counted slot by slot. */
  ghost function Slots(fds: seq<PollFd>, n: nat): (s: set<int>)
    requires n <= |fds|
  {
    set i | 1 <= i < n :: fds[i].fd
  }

  lemma {:induction false} SlotCount<C>(fds: seq<PollFd>, ctx: seq<Ctx<C>>, n: nat)
    requires 1 <= n <= |fds| && forall i :: 1 <= i < n ==> 0 <= fds[i].fd < |ctx| && ctx[fds[i].fd].index == i
    ensures |Slots(fds, n)| == n - 1
  {
    if n == 1 {
      assert Slots(fds, n) == {};
    } else {
      SlotCount(fds, ctx, n - 1);
      assert Slots(fds, n) == Slots(fds, n - 1) + {fds[n - 1].fd};
      assert fds[n - 1].fd !in Slots(fds, n - 1);
    }
  }

  /**
   There is a slot for a new descriptor exactly when some other descriptor below the size is free.
   A signal descriptor below the size that nobody registers is always one.
   */
  lemma RoomIff<C>(fds: seq<PollFd>, ctx: seq<Ctx<C>>, nfds: nat, signal: int, fd: int)
    requires TableOk(fds, ctx, nfds, signal) && 0 <= fd < |ctx| && fd !in Users(fds, ctx)
    ensures nfds < |fds| <==> exists g :: 0 <= g < |ctx| && g != fd && g !in Users(fds, ctx)
  {
    var s := Slots(fds, nfds);
    SlotCount(fds, ctx, nfds);
    forall f ensures f in s <==> f in Users(fds, ctx) {
      if f in Users(fds, ctx) { assert fds[ctx[f].index].fd == f; }
    }
    Bounded(s + {fd}, |ctx|);
    if nfds == |fds| {
      forall g | 0 <= g < |ctx| ensures g == fd || g in s { }
    } else if forall g :: 0 <= g < |ctx| ==> g == fd || g in s {
      Full(s + {fd}, |ctx|);
    }
  }

  lemma {:induction false} Full(s: set<int>, n: nat)
    requires forall f :: 0 <= f < n ==> f in s
    ensures |s| >= n
  {
    if n > 0 {
      Full(s - {n - 1}, n - 1);
    }
  }

  /** The answer to an add. `Overrun` stores behind the last slot, `Negative` before the first entry of the table. */
  datatype Added = Done | NoMem | Overrun | Negative

  /**
   The table after an add that found no slot. Both tables are one block, so the slot behind the last is
   where the context of descriptor 0 is kept, and `overlay` says what a context becomes by the store.
   */
  ghost function Spilled<C>(ctx: seq<Ctx<C>>, p: PollFd, context: C, overlay: (PollFd, C) -> C): (ctx': seq<Ctx<C>>)
    requires 0 <= p.fd < |ctx|
  {
    var ctx1 := ctx[p.fd := Ctx(context, |ctx|)];
    ctx1[0 := ctx1[0].(context := overlay(p, ctx1[0].context))]
  }

  /** A call on a set whose requests are queued: with `oom` there is no memory to queue one. */
  datatype Call<C> = Request(w: Work<C>, oom: bool) | Poll

  /** The requests that were queued, in order. */
  ghost function Queued<C>(calls: seq<Call<C>>): (ws: seq<Work<C>>) {
    if calls == [] then []
    else
      var last := calls[|calls| - 1];
      Queued(calls[..|calls| - 1]) + if last.Request? && !last.oom then [last.w] else []
  }

  /** A request is answered by whether it was queued, and a poll always succeeds. */
  ghost predicate Answered<C>(calls: seq<Call<C>>, oks: seq<bool>) {
    |oks| <= |calls| && forall i :: 0 <= i < |oks| ==> oks[i] == (calls[i].Request? ==> !calls[i].oom)
  }

  lemma AnsweredNext<C>(calls: seq<Call<C>>, oks: seq<bool>, ok: bool)
    requires Answered(calls, oks) && |oks| < |calls|
    requires ok == (calls[|oks|].Request? ==> !calls[|oks|].oom)
    ensures Answered(calls, oks + [ok])
  {
  }

  lemma QueuedNext<C>(calls: seq<Call<C>>, k: nat)
    requires k < |calls|
    ensures var c := calls[k];
            Queued(calls[..k + 1]) == Queued(calls[..k]) + if c.Request? && !c.oom then [c.w] else []
  {
    assert calls[..k + 1][..k] == calls[..k];
  }

  lemma {:induction false} QueuedPrefix<C>(calls: seq<Call<C>>, k: nat)
    requires k <= |calls|
    ensures Queued(calls[..k]) <= Queued(calls)
  {
    assert calls[..|calls|] == calls;
    if k < |calls| {
      QueuedPrefix(calls[..|calls| - 1], k);
      assert calls[..|calls| - 1][..k] == calls[..k];
    }
  }

  /** If what is queued so far does not fit, neither does what is queued in the end. */
  lemma NotAll<C>(start: State<C>, calls: seq<Call<C>>, k: nat)
    requires k <= |calls| && !Fits(start, Queued(calls[..k]))
    ensures !Fits(start, Queued(calls))
  {
    QueuedPrefix(calls, k);
    assert Queued(calls[..k]) == Queued(calls)[..|Queued(calls[..k])|];
    if Fits(start, Queued(calls)) {
      FitsPrefix(start, Queued(calls), |Queued(calls[..k])|);
    }
  }

  class PollSet<C> {
    const signal: int
    const blank: C
    /** What the bytes of a poll entry make of a context they are stored over; both have eight. */
    const overlay: (PollFd, C) -> C
    var nfds: nat
    var fds: seq<PollFd>
    var ctx: seq<Ctx<C>>
    var work: seq<Work<C>>

    ghost predicate Valid()
      reads `fds, `ctx, `nfds
    {
      TableOk(fds, ctx, nfds, signal)
    }

    ghost function Now(): (st: State<C>)
      reads `fds, `ctx
    {
      State(Users(fds, ctx), |fds|)
    }

    /** `ofi_pollfds_create`: 64 slots, the first for the signal. */
    constructor (signal: int, events: int, blank: C, overlay: (PollFd, C) -> C)
      ensures Valid() && Now() == State(map[], 64) && work == [] && this.signal == signal && this.overlay == overlay
      ensures fds[0] == PollFd(signal, events, 0)
    {
      this.signal, this.blank, this.overlay := signal, blank, overlay;
      fds := seq(64, i => PollFd(if i == 0 then signal else INVALID, if i == 0 then events else 0, 0));
      ctx := seq(64, _ => Ctx(blank, -1));
      nfds, work := 1, [];
      new;
      assert Users(fds, ctx) == map[];
    }

    /** `ofi_pollfds_grow` */
    method Grow(maxSize: nat, oom: bool) returns (ok: bool)
      requires Valid()
      modifies `fds, `ctx
      ensures Valid() && ok == (!oom || maxSize < old(|fds|))
      ensures Now() == if ok then State(old(Now()).users, Grown(old(|fds|), maxSize)) else old(Now())
      ensures maxSize < old(|fds|) ==> fds == old(fds) && ctx == old(ctx)
      ensures old(ctx) <= ctx && old(fds) <= fds && forall f :: |old(ctx)| <= f < |ctx| ==> ctx[f].index == -1
      ensures ok && maxSize >= old(|fds|) ==>
                |fds| >= old(|fds|) + 64 && |fds| > maxSize && (|fds| == old(|fds|) + 64 || |fds| == maxSize + 1)
    {
      if maxSize < |fds| {
        return true;
      }
      var size := if maxSize + 1 < |fds| + 64 then |fds| + 64 else maxSize + 1;
      if oom {
        return false;
      }
      var moreFds := seq(size - |fds|, _ => PollFd(INVALID, 0, 0));
      var moreCtx := seq(size - |fds|, _ => Ctx(blank, -1));
      Enlarge(fds, ctx, nfds, signal, moreFds, moreCtx);
      fds, ctx := fds + moreFds, ctx + moreCtx;
      ok := true;
    }

    /** The last entry moves into the slot of the one that goes. */
    method Swap(fd: int)
      requires Valid() && 0 <= fd < |ctx| && 0 <= ctx[fd].index < nfds - 1
      modifies `fds, `ctx, `nfds
      ensures Valid() && Now() == State(old(Users(fds, ctx)) - {fd}, old(|fds|)) && fds[0] == old(fds[0])
    {
      RemoveSwap(fds, ctx, nfds, signal, fd);
      var i, last := ctx[fd].index, fds[nfds - 1].fd;
      ghost var ctx' := ctx[last := ctx[last].(index := i)][fd := ctx[fd].(index := -1)];
      ctx := ctx[last := ctx[last].(index := i)];
      fds := Moved(fds, nfds - 1, i);
      nfds := nfds - 1;
      ctx := ctx[fd := ctx[fd].(index := -1)];
      assert ctx == ctx';
    }

    /** `ofi_pollfds_do_del` */
    method DoDel(fd: int)
      requires Valid()
      modifies `fds, `ctx, `nfds
      ensures Valid() && Now() == ApplyWork(old(Now()), Del(fd)) && fds[0] == old(fds[0])
    {
      HasIffUser(fds, ctx, nfds, signal, fd);
      if !Has(fds, ctx, nfds, fd) {
        assert Users(fds, ctx) - {fd} == Users(fds, ctx);
      } else if ctx[fd].index < nfds - 1 {
        Swap(fd);
      } else {
        RemoveLast(fds, ctx, nfds, signal, fd);
        nfds := nfds - 1;
        ctx := ctx[fd := ctx[fd].(index := -1)];
      }
    }

    /** Fill in the entry of a descriptor, which gets the slot behind the last if it has none. */
    method Fill(fd: int, events: int, context: C)
      requires Valid() && 0 <= fd < |ctx| && (ctx[fd].index == -1 ==> nfds < |fds|)
      modifies `fds, `ctx, `nfds
      ensures Valid() && Now() == State(old(Users(fds, ctx))[fd := Interest(events, 0, context)], old(|fds|))
      ensures fds[0] == old(fds[0])
    {
      if ctx[fd].index < 0 {
        Insert(fds, ctx, nfds, signal, fd, events, context);
        ctx := ctx[fd := Ctx(context, nfds)];
        nfds := nfds + 1;
      } else {
        Update(fds, ctx, nfds, signal, PollFd(fd, events, 0), context);
        ctx := ctx[fd := ctx[fd].(context := context)];
      }
      fds := fds[ctx[fd].index := PollFd(fd, events, 0)];
    }

    /**
     The stores of an add that found no slot: the count of slots passes the size, and the entry lands on
     the context of descriptor 0.
     */
    method Spill(fd: int, events: int, context: C)
      requires Valid() && 0 <= fd < |ctx| && nfds == |fds|
      modifies `ctx, `nfds
      ensures nfds == |fds| + 1 && ctx == Spilled(old(ctx), PollFd(fd, events, 0), context, overlay) && !Valid()
    {
      ctx := ctx[fd := Ctx(context, nfds)];
      nfds := nfds + 1;
      ctx := ctx[0 := ctx[0].(context := overlay(PollFd(fd, events, 0), ctx[0].context))];
    }

    /** `ofi_pollfds_do_add`. It finds no slot exactly when there is no room. */
    method DoAdd(fd: int, events: nat, context: C, oom: bool) returns (r: Added)
      requires Valid()
      modifies `fds, `ctx, `nfds
      ensures r == Negative <==> fd < 0
      ensures r == Overrun <==> fd >= 0 && !RoomFor(old(Now()), Add(fd, events, context, oom))
      ensures r == NoMem <==> oom && fd >= old(|fds|)
      ensures r.Done? || r.NoMem? ==> Valid() && Now() == ApplyWork(old(Now()), Add(fd, events, context, oom))
      ensures r == Overrun ==> nfds == |fds| + 1 && fds == old(fds) && !Valid() && fd < |old(ctx)|
      ensures r == Overrun ==> ctx == Spilled(old(ctx), PollFd(fd, Short(events), 0), context, overlay)
      ensures r == Negative ==> unchanged(this)
      ensures fds[0] == old(fds[0])
    {
      HasIffUser(fds, ctx, nfds, signal, fd);
      if !Has(fds, ctx, nfds, fd) {
        if fd < 0 {
          return Negative;
        }
        if fd < |fds| { RoomIff(fds, ctx, nfds, signal, fd); }
        var ok := Grow(fd, oom);
        if !ok {
          return NoMem;
        }
        if nfds == |fds| {
          Spill(fd, Short(events), context);
          return Overrun;
        }
      }
      Fill(fd, Short(events), context);
      r := Done;
    }

    /** `ofi_pollfds_sync_add` and `ofi_pollfds_sync_del`. */
    method Sync(w: Work<C>) returns (clean: bool)
      requires Valid()
      modifies `fds, `ctx, `nfds
      ensures clean <==> RoomFor(old(Now()), w)
      ensures clean ==> Valid() && Now() == ApplyWork(old(Now()), w)
    {
      match w
      case Add(fd, events, context, noMem) =>
        var r := DoAdd(fd, events, context, noMem);
        clean := r.Done? || r.NoMem?;
      case Del(fd) =>
        DoDel(fd);
        clean := true;
    }

    /** The same calls, made at once one after another. */
    method SyncAll(ws: seq<Work<C>>) returns (clean: bool)
      requires Valid()
      modifies `fds, `ctx, `nfds
      ensures clean <==> Fits(old(Now()), ws)
      ensures clean ==> Valid() && Now() == Replay(old(Now()), ws)
    {
      for k := 0 to |ws|
        invariant Valid() && Fits(old(Now()), ws[..k]) && Now() == Replay(old(Now()), ws[..k])
      {
        clean := Sync(ws[k]);
        ReplayNext(old(Now()), ws, k);
        if !clean {
          if Fits(old(Now()), ws) { FitsPrefix(old(Now()), ws, k + 1); }
          return;
        }
      }
      assert ws[..|ws|] == ws;
      clean := true;
    }

    /** `ofi_pollfds_ctl`: the request waits for the polling thread, if there is memory for it. */
    method Ctl(w: Work<C>, oom: bool) returns (ok: bool)
      modifies `work
      ensures ok == !oom && work == old(work) + if ok then [w] else []
    {
      if oom {
        return false;
      }
      work := work + [w];
      ok := true;
    }

    /** `ofi_pollfds_process_work`: the waiting requests have the effect of the same calls made at once, in order. */
    method ProcessWork() returns (clean: bool)
      requires Valid()
      modifies `fds, `ctx, `nfds, `work
      ensures clean <==> Fits(old(Now()), old(work))
      ensures clean ==> Valid() && work == [] && Now() == Replay(old(Now()), old(work))
    {
      ghost var all := work;
      var k := 0;
      while work != []
        invariant 0 <= k <= |all| && all[k..] == work && Valid()
        invariant Now() == Replay(old(Now()), all[..k]) && Fits(old(Now()), all[..k])
        decreases |work|
      {
        var w := work[0];
        work := work[1..];
        ReplayNext(old(Now()), all, k);
        clean := Sync(w);
        if !clean {
          if Fits(old(Now()), all) { FitsPrefix(old(Now()), all, k + 1); }
          return;
        }
        k := k + 1;
      }
      assert all[..k] == all;
      clean := true;
    }

    /** One call of a run in which `all` was queued so far; `ok` is the answer. */
    method Perform(call: Call<C>, done: nat, ghost start: State<C>, ghost all: seq<Work<C>>)
      returns (ok: bool, clean: bool, done': nat, ghost all': seq<Work<C>>)
      requires Valid() && Caught(start, all, done, Now(), work)
      modifies `fds, `ctx, `nfds, `work
      ensures ok == (call.Request? ==> !call.oom)
      ensures all' == all + if call.Request? && !call.oom then [call.w] else []
      ensures clean <==> call.Request? || Fits(start, all)
      ensures clean ==> Valid() && Caught(start, all', done', Now(), work) && (call.Poll? ==> work == [])
    {
      all', clean, done' := all, true, done;
      match call
      case Request(w, noMem) =>
        ok := Ctl(w, noMem);
        CaughtMore(start, all, done, Now(), old(work), if ok then [w] else []);
        all' := all + if ok then [w] else [];
      case Poll =>
        CaughtUp(start, all, done, Now(), work);
        done' := done + |work|;
        ok := true;
        clean := ProcessWork();
        assert all + [] == all;
    }

    /**
     Over any run of requests and polls: the set is where the same requests, made at once, take it, as
     far as they are worked off; the others wait in order; and none waits after a poll.
     */
    method Run(calls: seq<Call<C>>) returns (oks: seq<bool>, clean: bool, done: nat)
      requires Valid() && work == []
      modifies `fds, `ctx, `nfds, `work
      ensures !clean ==> !Fits(old(Now()), Queued(calls))
      ensures clean ==> Valid() && Caught(old(Now()), Queued(calls), done, Now(), work)
      ensures clean ==> |oks| == |calls| && Answered(calls, oks)
      ensures clean && calls != [] && calls[|calls| - 1].Poll? ==> work == []
    {
      oks, clean, done := [], true, 0;
      ghost var so := [];
      for i := 0 to |calls|
        invariant Valid() && clean && so == Queued(calls[..i]) && Caught(old(Now()), so, done, Now(), work)
        invariant |oks| == i && Answered(calls, oks)
        invariant 0 < i && calls[i - 1].Poll? ==> work == []
      {
        QueuedNext(calls, i);
        var ok;
        ok, clean, done, so := Perform(calls[i], done, old(Now()), so);
        if !clean {
          NotAll(old(Now()), calls, i);
          return;
        }
        AnsweredNext(calls, oks, ok);
        oks := oks + [ok];
      }
      assert calls[..|calls|] == calls;
    }

    /** `ofi_pollfds_mod` */
    method Mod(fd: int, events: nat, context: C) returns (ghost i: nat)
      requires Valid()
      modifies `fds, `ctx, `work
      ensures Valid() && IsFirst(old(work), fd, i)
      ensures Now() == Modded(old(Now()), fd, Wish(Short(events), context)) && fds[0] == old(fds[0])
      ensures work == Requeued(old(Now()), old(work), fd, i, events, context)
    {
      HasIffUser(fds, ctx, nfds, signal, fd);
      var k := FirstItem(work, fd);
      i := k;
      if Has(fds, ctx, nfds, fd) {
        var slot := ctx[fd].index;
        Update(fds, ctx, nfds, signal, fds[slot].(events := Short(events)), context);
        fds := fds[slot := fds[slot].(events := Short(events))];
        ctx := ctx[fd := ctx[fd].(context := context)];
      } else if k < |work| && work[k].Add? {
        work := work[k := Add(fd, events, context, work[k].noMem)];
      }
    }
  }

  /** `ofi_pollfds_find_item` */
  method FirstItem<C>(ws: seq<Work<C>>, fd: int) returns (i: nat)
    ensures IsFirst(ws, fd, i)
  {
    i := 0;
    while i < |ws| && ws[i].fd != fd
      invariant i <= |ws| && forall k :: 0 <= k < i ==> ws[k].fd != fd
    {
      i := i + 1;
    }
  }

  /**
   Whatever the signal descriptor is, 0 to 62 fill all slots but its own. The add of 63 then stores behind
   the last slot, over the context of descriptor 0.
   */
  method Overfull<C>(signal: int, context: C, overlay: (PollFd, C) -> C) returns (p: PollSet<C>, r: Added)
    ensures fresh(p) && p.signal == signal && r == Overrun && !p.Valid() && |p.ctx| == 64
    ensures p.ctx[0].context == overlay(PollFd(63, 1, 0), context)
  {
    p := new PollSet(signal, 1, context, overlay);
    for f := 0 to 63
      invariant p.Valid() && |p.fds| == 64 && p.signal == signal && p.overlay == overlay && fresh(p)
      invariant forall g :: g in Users(p.fds, p.ctx) <==> 0 <= g < f
      invariant forall g :: 0 <= g < f ==> Users(p.fds, p.ctx)[g] == Interest(1, 0, context)
    {
      assert 63 !in Users(p.fds, p.ctx);
      r := p.DoAdd(f, 1, context, false);
    }
    assert Users(p.fds, p.ctx)[0] == Interest(1, 0, context);
    r := p.DoAdd(63, 1, context, false);
  }

  /** So it is when the signal descriptor is not below the size. */
  method HighSignal<C>(context: C, overlay: (PollFd, C) -> C) returns (p: PollSet<C>, r: Added)
    ensures p.signal == 64 && r == Overrun && |p.ctx| == 64
    ensures p.ctx[0].context == overlay(PollFd(63, 1, 0), context)
  {
    p, r := Overfull(64, context, overlay);
  }

  /** And when it is registered like any other, here 3 among 0 to 62. */
  method SignalRegistered<C>(context: C, overlay: (PollFd, C) -> C) returns (p: PollSet<C>, r: Added)
    ensures p.signal == 3 && r == Overrun && |p.ctx| == 64
    ensures p.ctx[0].context == overlay(PollFd(63, 1, 0), context)
  {
    p, r := Overfull(3, context, overlay);
  }

  /** Descriptor 5 is registered with events 1, and a delete and an add of it, with events 1, are queued. */
  method DelAddQueued<C>(context: C) returns (p: PollSet<C>)
    ensures fresh(p) && p.Valid() && p.Now() == State(map[5 := Interest(1, 0, context)], 64)
    ensures p.work == [Del(5), Add(5, 1, context, false)]
  {
    p := new PollSet(3, 1, context, (_, c) => c);
    assert 7 !in p.Now().users;
    var clean := p.Sync(Add(5, 1, context, false));
    var ok := p.Ctl(Del(5), false);
    ok := p.Ctl(Add(5, 1, context, false), false);
  }

  /** A change of its events to 4 is lost. */
  method ChangeIsLost<C>(context: C) returns (p: PollSet<C>)
    ensures fresh(p) && p.Valid() && p.work == [] && p.Now().users == map[5 := Interest(1, 0, context)]
  {
    p := DelAddQueued(context);
    LostChange(context);
    ghost var i := p.Mod(5, 4, context);
    var clean := p.ProcessWork();
  }
}
