/**
 The map a poll set stands for, and what a list of queued adds and deletes does to
 it. A change of events on a queued descriptor is compared with the same change
 made after the queue was worked off.
 */
module PollWork {
  import opened Basics

  /** What is registered for a descriptor, and the events that poll(2) reported for it. */
  datatype Interest<C> = Interest(events: int, revents: int, context: C)

  /** A change of events and context. */
  datatype Wish<C> = Wish(events: int, context: C)

  /** A request to add or delete; `noMem` says that an allocation fails when it is carried out. */
  datatype Work<C> = Add(fd: int, events: nat, context: C, noMem: bool) | Del(fd: int)

  /** What the caller can observe, and the size that decides whether an add must allocate. */
  datatype State<C> = State(users: map<int, Interest<C>>, size: nat)

  /** The cast to `short`. */
  function Short(events: nat): (s: int)
    ensures -0x8000 <= s < 0x8000 && (events - s) % 0x1_0000 == 0
  {
    var m := events % 0x1_0000;
    if m < 0x8000 then m else m - 0x1_0000
  }

  /** The size after room was made for a descriptor. */
  function Grown(size: nat, fd: int): (n: nat)
    ensures size <= n && fd < n
  {
    if fd < size then size else if fd + 1 < size + 64 then size + 64 else fd + 1
  }

  /** The meaning of one add or delete. */
  ghost function ApplyWork<C>(st: State<C>, w: Work<C>): (st': State<C>) {
    match w
    case Add(fd, events, context, noMem) =>
      if fd >= st.size && noMem then st
      else State(st.users[fd := Interest(Short(events), 0, context)], Grown(st.size, fd))
    case Del(fd) => State(st.users - {fd}, st.size)
  }

  /** A list of them, in order. */
  ghost function Replay<C>(st: State<C>, ws: seq<Work<C>>): (st': State<C>) {
    if ws == [] then st else ApplyWork(Replay(st, ws[..|ws| - 1]), ws[|ws| - 1])
  }

  /** There is a slot for what is to be added: it is known, or needs a larger set, or another descriptor is free. */
  ghost predicate RoomFor<C>(st: State<C>, w: Work<C>) {
    w.Add? ==>
      && 0 <= w.fd
      && (w.fd in st.users || w.fd >= st.size || exists g :: 0 <= g < st.size && g != w.fd && g !in st.users)
  }

  /** There is one for every item of a list. */
  ghost predicate Fits<C>(st: State<C>, ws: seq<Work<C>>) {
    if ws == [] then true
    else
      var n := |ws| - 1;
      Fits(st, ws[..n]) && RoomFor(Replay(st, ws[..n]), ws[n])
  }

  /** A list worked off in two parts. */
  lemma {:induction false} ReplaySplit<C>(st: State<C>, a: seq<Work<C>>, b: seq<Work<C>>)
    ensures Replay(st, a + b) == Replay(Replay(st, a), b)
  {
    if b == [] {
      assert a + b == a;
    } else {
      var n := |b| - 1;
      ReplaySplit(st, a, b[..n]);
      assert (a + b)[..|a| + n] == a + b[..n];
    }
  }

  lemma {:induction false} FitsSplit<C>(st: State<C>, a: seq<Work<C>>, b: seq<Work<C>>)
    ensures Fits(st, a + b) <==> Fits(st, a) && Fits(Replay(st, a), b)
  {
    if b == [] {
      assert a + b == a;
    } else {
      var n := |b| - 1;
      FitsSplit(st, a, b[..n]);
      ReplaySplit(st, a, b[..n]);
      assert (a + b)[..|a| + n] == a + b[..n];
    }
  }

  /** One more item. */
  lemma ReplayNext<C>(st: State<C>, ws: seq<Work<C>>, k: nat)
    requires k < |ws|
    ensures Replay(st, ws[..k + 1]) == ApplyWork(Replay(st, ws[..k]), ws[k])
    ensures Fits(st, ws[..k + 1]) <==> Fits(st, ws[..k]) && RoomFor(Replay(st, ws[..k]), ws[k])
  {
    assert ws[..k + 1][..k] == ws[..k];
  }

  lemma FitsPrefix<C>(st: State<C>, ws: seq<Work<C>>, k: nat)
    requires k <= |ws| && Fits(st, ws)
    ensures Fits(st, ws[..k])
  {
    assert ws == ws[..k] + ws[k..];
    FitsSplit(st, ws[..k], ws[k..]);
  }

  /** Of the requests `all`, the first `done` took the set from `start` to `st`, and the others wait. */
  ghost predicate Caught<C>(start: State<C>, all: seq<Work<C>>, done: nat, st: State<C>, waiting: seq<Work<C>>) {
    && done <= |all| && waiting == all[done..]
    && Fits(start, all[..done]) && st == Replay(start, all[..done])
  }

  lemma CaughtMore<C>(start: State<C>, all: seq<Work<C>>, done: nat, st: State<C>, waiting: seq<Work<C>>,
                      more: seq<Work<C>>)
    requires Caught(start, all, done, st, waiting)
    ensures Caught(start, all + more, done, st, waiting + more)
  {
    assert (all + more)[..done] == all[..done];
  }

  /** Working off what waits. */
  lemma CaughtUp<C>(start: State<C>, all: seq<Work<C>>, done: nat, st: State<C>, waiting: seq<Work<C>>)
    requires Caught(start, all, done, st, waiting)
    ensures Fits(start, all) <==> Fits(st, waiting)
    ensures Fits(start, all) ==> Caught(start, all, |all|, Replay(st, waiting), [])
  {
    assert all == all[..done] + waiting && all[..|all|] == all;
    FitsSplit(start, all[..done], waiting);
    ReplaySplit(start, all[..done], waiting);
  }

  /** The signal descriptor lies below the size and nobody registers it. */
  ghost predicate Apart<C>(st: State<C>, signal: int) {
    0 <= signal < st.size && signal !in st.users
  }

  /** An add or delete by a caller that leaves the signal descriptor alone. */
  ghost predicate Proper<C>(w: Work<C>, signal: int) {
    w.Add? ==> w.fd >= 0 && w.fd != signal
  }

  lemma ApartStep<C>(st: State<C>, w: Work<C>, signal: int)
    requires Apart(st, signal) && Proper(w, signal)
    ensures RoomFor(st, w) && Apart(ApplyWork(st, w), signal)
  {
  }

  /** While the signal descriptor is kept apart, there is always room. */
  lemma {:induction false} ApartFits<C>(st: State<C>, ws: seq<Work<C>>, signal: int)
    requires Apart(st, signal) && forall k :: 0 <= k < |ws| ==> Proper(ws[k], signal)
    ensures Fits(st, ws) && Apart(Replay(st, ws), signal)
  {
    if ws != [] {
      var n := |ws| - 1;
      ApartFits(st, ws[..n], signal);
      ApartStep(Replay(st, ws[..n]), ws[n], signal);
    }
  }

  /** Every registered descriptor lies below the size. */
  ghost predicate Sound<C>(st: State<C>) {
    forall f :: f in st.users ==> f < st.size
  }

  lemma {:induction false} SoundReplay<C>(st: State<C>, ws: seq<Work<C>>)
    requires Sound(st)
    ensures Sound(Replay(st, ws))
  {
    if ws != [] { SoundReplay(st, ws[..|ws| - 1]); }
  }

  /** What is registered for fd, if anything. */
  ghost function At<C>(st: State<C>, fd: int): (i: Option<Interest<C>>) {
    if fd in st.users then Some(st.users[fd]) else None
  }

  /** The first item for fd, or none. */
  ghost predicate IsFirst<C>(ws: seq<Work<C>>, fd: int, i: nat) {
    i <= |ws| && (i < |ws| ==> ws[i].fd == fd) && forall k :: 0 <= k < i ==> ws[k].fd != fd
  }

  ghost predicate IsLast<C>(ws: seq<Work<C>>, fd: int, l: nat) {
    l < |ws| && ws[l].fd == fd && forall k :: l < k < |ws| ==> ws[k].fd != fd
  }

  function Granted<C>(i: Interest<C>, wish: Wish<C>): (i': Interest<C>) {
    i.(events := wish.events, context := wish.context)
  }

  /** `ofi_pollfds_mod`: a registered descriptor gets the new events and context. */
  ghost function Modded<C>(st: State<C>, fd: int, wish: Wish<C>): (st': State<C>) {
    if fd in st.users then st.(users := st.users[fd := Granted(st.users[fd], wish)]) else st
  }

  /** For one that is not, the first item queued for it, which is at i, gets them; a delete has no use for them. */
  ghost function Requeued<C>(st: State<C>, ws: seq<Work<C>>, fd: int, i: nat, events: nat,
                             context: C): (ws': seq<Work<C>>) {
    if fd in st.users || i >= |ws| || ws[i].Del? then ws else ws[i := Add(ws[i].fd, events, context, ws[i].noMem)]
  }

  /** Two lists with the same adds and deletes, of the same things but for fd. */
  ghost predicate AlikeBut<C>(a: seq<Work<C>>, b: seq<Work<C>>, fd: int) {
    && |a| == |b|
    && forall k :: 0 <= k < |a| ==>
         a[k] == b[k] || (a[k].Add? && b[k].Add? && a[k].fd == b[k].fd == fd && a[k].noMem == b[k].noMem)
  }

  ghost predicate EqualBut<C>(a: State<C>, b: State<C>, fd: int) {
    a.size == b.size && a.users - {fd} == b.users - {fd}
  }

  lemma AlikeStep<C>(a: State<C>, b: State<C>, v: Work<C>, w: Work<C>, fd: int)
    requires EqualBut(a, b, fd) && (v == w || (v.Add? && w.Add? && v.fd == w.fd == fd && v.noMem == w.noMem))
    ensures EqualBut(ApplyWork(a, v), ApplyWork(b, w), fd)
  {
    var m, n := ApplyWork(a, v).users - {fd}, ApplyWork(b, w).users - {fd};
    forall f ensures f in m <==> f in n {
      assert f in a.users - {fd} <==> f in b.users - {fd};
    }
    forall f | f in m ensures m[f] == n[f] {
      assert f in a.users - {fd} ==> (a.users - {fd})[f] == (b.users - {fd})[f];
    }
  }

  lemma {:induction false} AlikeReplay<C>(a: State<C>, b: State<C>, v: seq<Work<C>>, w: seq<Work<C>>, fd: int)
    requires EqualBut(a, b, fd) && AlikeBut(v, w, fd)
    ensures EqualBut(Replay(a, v), Replay(b, w), fd)
  {
    if v != [] {
      var n := |v| - 1;
      AlikeReplay(a, b, v[..n], w[..n], fd);
      AlikeStep(Replay(a, v[..n]), Replay(b, w[..n]), v[n], w[n], fd);
    }
  }

  lemma EqualIff<C>(a: State<C>, b: State<C>, fd: int)
    requires EqualBut(a, b, fd)
    ensures a == b <==> At(a, fd) == At(b, fd)
  {
    if At(a, fd) == At(b, fd) {
      forall f ensures f in a.users <==> f in b.users {
        assert f in a.users - {fd} <==> f in b.users - {fd};
      }
      forall f | f in a.users ensures a.users[f] == b.users[f] {
        assert f != fd ==> a.users[f] == (a.users - {fd})[f] == (b.users - {fd})[f];
      }
      assert a.users == b.users;
    }
  }

  /** Only the last item for fd decides what is registered for it in the end. */
  lemma {:induction false} LastDecides<C>(st: State<C>, ws: seq<Work<C>>, fd: int, l: nat)
    requires IsLast(ws, fd, l)
    ensures At(Replay(st, ws), fd) == At(ApplyWork(Replay(st, ws[..l]), ws[l]), fd)
  {
    var n := |ws| - 1;
    if l < n {
      LastDecides(st, ws[..n], fd, l);
      assert ws[..n][..l] == ws[..l];
    }
  }

  lemma {:induction false} NoneDecides<C>(st: State<C>, ws: seq<Work<C>>, fd: int)
    requires IsFirst(ws, fd, |ws|)
    ensures At(Replay(st, ws), fd) == At(st, fd)
  {
    if ws != [] { NoneDecides(st, ws[..|ws| - 1], fd); }
  }

  /** The item at l, the last for fd, adds it, although nothing of the change at once reaches that item. */
  ghost predicate Overtaken<C>(st: State<C>, ws: seq<Work<C>>, fd: int, i: nat, l: nat, wish: Wish<C>) {
    && IsLast(ws, fd, l) && ws[l].Add? && (fd in st.users || i < l)
    && !(fd >= Replay(st, ws[..l]).size && ws[l].noMem)
    && Wish(Short(ws[l].events), ws[l].context) != wish
  }

  /** With nothing queued for fd, a change at once is a change later. */
  lemma ModUnqueued<C>(st: State<C>, ws: seq<Work<C>>, fd: int, wish: Wish<C>)
    requires Sound(st) && IsFirst(ws, fd, |ws|)
    ensures Replay(Modded(st, fd, wish), ws) == Modded(Replay(st, ws), fd, wish)
  {
    var now, end := Modded(st, fd, wish), Replay(st, ws);
    NoneDecides(st, ws, fd);
    NoneDecides(now, ws, fd);
    AlikeReplay(now, st, ws, ws, fd);
    ModdedBut(end, fd, wish);
    EqualIff(Replay(now, ws), Modded(end, fd, wish), fd);
  }

  lemma ModdedBut<C>(st: State<C>, fd: int, wish: Wish<C>)
    ensures EqualBut(st, Modded(st, fd, wish), fd)
    ensures At(Modded(st, fd, wish), fd) ==
            if fd in st.users then Some(Granted(st.users[fd], wish)) else None
  {
  }

  /** With items queued for fd, the last at l: it is unless that item is an add which the change does not reach. */
  lemma ModQueued<C>(st: State<C>, ws: seq<Work<C>>, fd: int, i: nat, l: nat, events: nat, context: C)
    requires Sound(st) && IsFirst(ws, fd, i) && IsLast(ws, fd, l)
    ensures var wish := Wish(Short(events), context);
            Replay(Modded(st, fd, wish), Requeued(st, ws, fd, i, events, context)) == Modded(Replay(st, ws), fd, wish)
            <==> !Overtaken(st, ws, fd, i, l, wish)
  {
    var wish := Wish(Short(events), context);
    var now, ws', end := Modded(st, fd, wish), Requeued(st, ws, fd, i, events, context), Replay(st, ws);
    ModdedBut(st, fd, wish);
    ModdedBut(end, fd, wish);
    AlikeReplay(now, st, ws', ws, fd);
    EqualIff(Replay(now, ws'), Modded(end, fd, wish), fd);
    LastDecides(st, ws, fd, l);
    LastDecides(now, ws', fd, l);
    AlikeReplay(now, st, ws'[..l], ws[..l], fd);
    SoundReplay(st, ws[..l]);
    SoundReplay(now, ws'[..l]);
  }

  /**
   A change of events made while requests are queued comes to the same as one made when they are worked
   off, if and only if no add that it does not reach is the last request for the descriptor.
   */
  lemma ModInTime<C>(st: State<C>, ws: seq<Work<C>>, fd: int, i: nat, events: nat, context: C)
    requires Sound(st) && IsFirst(ws, fd, i)
    ensures var wish := Wish(Short(events), context);
            Replay(Modded(st, fd, wish), Requeued(st, ws, fd, i, events, context)) == Modded(Replay(st, ws), fd, wish)
            <==> forall l :: !Overtaken(st, ws, fd, i, l, wish)
  {
    var wish := Wish(Short(events), context);
    if i == |ws| {
      ModUnqueued(st, ws, fd, wish);
    } else {
      var l := FindLast(ws, fd, i);
      ModQueued(st, ws, fd, i, l, events, context);
      forall k | IsLast(ws, fd, k) ensures k == l { }
    }
  }

  lemma {:induction false} FindLast<C>(ws: seq<Work<C>>, fd: int, i: nat) returns (l: nat)
    requires i < |ws| && ws[i].fd == fd
    ensures IsLast(ws, fd, l)
  {
    l := |ws| - 1;
    while ws[l].fd != fd
      invariant i <= l < |ws| && forall k :: l < k < |ws| ==> ws[k].fd != fd
      decreases l
    {
      l := l - 1;
    }
  }

  /** A delete and an add are queued for a registered descriptor; a change made now is lost. */
  lemma LostChange<C>(context: C)
    ensures var st := State(map[5 := Interest(1, 0, context)], 64);
            var ws := [Del(5), Add(5, 1, context, false)];
            && IsFirst(ws, 5, 0) && Requeued(st, ws, 5, 0, 4, context) == ws
            && Fits(Modded(st, 5, Wish(4, context)), ws)
            && Replay(Modded(st, 5, Wish(4, context)), ws).users == map[5 := Interest(1, 0, context)]
            && Modded(Replay(st, ws), 5, Wish(4, context)).users == map[5 := Interest(4, 0, context)]
  {
    var st := State(map[5 := Interest(1, 0, context)], 64);
    var now := Modded(st, 5, Wish(4, context));
    var ws := [Del(5), Add(5, 1, context, false)];
    assert ws[..1] == [Del(5)] && ws[..1][..0] == [];
    ReplayNext(st, ws, 0);
    ReplayNext(st, ws, 1);
    ReplayNext(now, ws, 0);
    ReplayNext(now, ws, 1);
    assert ws[..2] == ws && ws[..0] == [];
    assert st.users - {5} == map[] && now.users - {5} == map[];
    assert 0 !in ApplyWork(now, ws[0]).users;
  }
}
