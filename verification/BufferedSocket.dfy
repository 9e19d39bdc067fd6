/**
 A socket with staging buffers. Sends are staged behind bytes the socket has not
 taken yet, or go straight to it; receives prefetch into a buffer, or go straight
 to the caller. Either way there is one byte stream in each direction.

 The operating system's answers are parameters, so that every contract holds for
 any socket: a send answer is an error (negative) or how many bytes it takes, cut
 to the bytes offered; a receive answer is an error or end of stream, or bytes,
 cut to the room there is.
 */
module BufferedSocket {
  import opened Basics
  import opened Iov
  import opened ByteQueues

  const EAGAIN: int := 11
  const EINPROGRESS_ASYNC: int := 512
  const EINPROGRESS_URING: int := 513

  datatype Reply<T> = Nothing(code: int) | Bytes(bytes: seq<T>)

  datatype Outcome = Outcome(ret: int, len: nat)

  /** What a send of n bytes comes to when the socket's own answer is `a`. */
  function Answer(a: int, n: nat): (r: int)
    ensures r <= n && (r < 0 <==> a < 0)
  {
    if a < n then a else n
  }

  /** How many of n bytes offered the socket takes. */
  function Moved(n: nat, a: int): (m: nat)
    ensures m <= n
  {
    if a < 0 then 0 else Min(a, n)
  }

  /** The return code of a flush of `staged` bytes. */
  function FlushCode(staged: nat, a: int): (r: int) {
    if staged == 0 then 0
    else if a < 0 then a
    else if a < staged then -EAGAIN else 0
  }

  /** A send of n bytes with nothing staged: what the socket takes, or all if it would block and they can be staged. */
  function DirectOutcome(size: nat, zerocopy: nat, n: nat, a: int): (r: Outcome)
    ensures r.len <= n
  {
    var ret := Answer(a, n);
    if ret >= 0 then Outcome(if n > zerocopy then -EINPROGRESS_ASYNC else 0, ret)
    else if ret == -EINPROGRESS_URING then Outcome(ret, n)
    else if ret == -EAGAIN && n < size then Outcome(0, n)
    else Outcome(ret, 0)
  }

  /**
   The return code of a send of n bytes, and how many of them the caller may forget:
   all when they fit behind staged bytes; none when those cannot be sent completely.
   */
  function SendOutcome(staged: nat, room: nat, size: nat, zerocopy: nat, n: nat, a1: int, a2: int): (r: Outcome)
    ensures r.len <= n
  {
    if staged > 0 && n < room then
      var err := FlushCode(staged + n, a1);
      Outcome(if err == -EAGAIN then 0 else err, n)
    else if FlushCode(staged, a1) != 0 then Outcome(FlushCode(staged, a1), 0)
    else DirectOutcome(size, zerocopy, n, a2)
  }

  /** How full the send buffer is: the bytes staged, and the room behind them. */
  datatype Stage = Stage(staged: nat, room: nat)

  /** After a flush. Once it is empty the whole block is free again. */
  function Flushed(st: Stage, size: nat, a: int): (st': Stage) {
    var m := Moved(st.staged, a);
    if m == st.staged then Stage(0, size) else Stage(st.staged - m, st.room)
  }

  /** After a send of n bytes with nothing staged. */
  function DirectStage(size: nat, n: nat, a: int): (st: Stage) {
    if Answer(a, n) == -EAGAIN && n < size then Stage(n, size - n) else Stage(0, size)
  }

  /** After a send of n bytes. */
  function SendStage(st: Stage, size: nat, n: nat, a1: int, a2: int): (st': Stage) {
    if st.staged > 0 && n < st.room then Flushed(Stage(st.staged + n, st.room - n), size, a1)
    else if FlushCode(st.staged, a1) != 0 then Flushed(st, size, a1)
    else DirectStage(size, n, a2)
  }

  /** What the socket answers in the course of a send of n bytes, one answer for each time it is asked. */
  function Asked(st: Stage, n: nat, a1: int, a2: int): (got: seq<int>) {
    if st.staged == 0 then [Answer(a2, n)]
    else if n < st.room then [Answer(a1, st.staged + n)]
    else if FlushCode(st.staged, a1) != 0 then [Answer(a1, st.staged)]
    else [Answer(a1, st.staged)] + [Answer(a2, n)]
  }

  /** How many bytes the socket took, going by its answers. */
  function Took(got: seq<int>): (n: nat) {
    if got == [] then 0
    else
      var r := got[|got| - 1];
      Took(got[..|got| - 1]) + if r < 0 then 0 else r
  }

  /** The outcome of a call and the socket's answers: no error is lost, changed or made up. */
  ghost predicate Truthful(o: Outcome, got: seq<int>) {
    && (forall r :: r in got && r < 0 && r != -EAGAIN ==> o.ret == r)
    && (o.ret !in {0, -EAGAIN, -EINPROGRESS_ASYNC} ==> o.ret in got)
  }

  /** A send of n bytes when a buffer of `size` is in state st, and the answers it got. */
  ghost predicate Dealt(st: Stage, size: nat, zerocopy: nat, n: nat, o: Outcome, got: seq<int>) {
    && Truthful(o, got) && 1 <= |got| <= 2
    // the socket is asked a second time exactly when it took all that was staged, which left no room for more
    && (|got| == 2 <==> st.staged > 0 && n >= st.room && got[0] >= st.staged)
    // what fits behind staged bytes is accepted; what does not is refused until those are gone
    && (st.staged > 0 && |got| == 1 ==> o.len == if n < st.room then n else 0)
    && (o.ret == -EAGAIN ==> o.len == 0 && n >= st.room)
    // with nothing staged the socket decides, except that what it would block on is staged if that fits
    && (st.staged == 0 || |got| == 2 ==>
          var r := got[|got| - 1];
          if r >= 0 then o == Outcome(if n > zerocopy then -EINPROGRESS_ASYNC else 0, r)
          else if r == -EAGAIN && n < size then o == Outcome(0, n)
          else o.ret == r)
  }

  /** A flush of `staged` bytes: the socket's own error, or "again" as long as bytes are left. */
  ghost predicate Drained(staged: nat, err: int, got: seq<int>) {
    if staged == 0 then err == 0 && got == []
    else |got| == 1 && err == if got[0] < 0 then got[0] else if got[0] < staged then -EAGAIN else 0
  }

  lemma TookOne(r: int)
    ensures Took([r]) == if r < 0 then 0 else r
  {
    assert [r][..0] == [];
  }

  lemma TookTwo(r: int, q: int)
    ensures Took([r] + [q]) == Took([r]) + Took([q])
  {
    assert ([r] + [q])[..1] == [r];
    TookOne(r);
    TookOne(q);
  }

  lemma SendDealt(st: Stage, size: nat, zerocopy: nat, n: nat, a1: int, a2: int)
    requires st.staged == 0 ==> st.room == size
    requires st.room <= size
    ensures Dealt(st, size, zerocopy, n, SendOutcome(st.staged, st.room, size, zerocopy, n, a1, a2),
                  Asked(st, n, a1, a2))
  {
  }

  /** The bytes a receive into `room` bytes yields. */
  ghost function Cut<T>(ans: Reply<T>, room: nat): (r: seq<T>)
    ensures |r| <= room
  {
    if ans.Bytes? then ans.bytes[..Min(|ans.bytes|, room)] else []
  }

  /** Its return value: an error, 0 at the end of the stream, or how many bytes. */
  function ReplyCode<T>(ans: Reply<T>, room: nat): (r: int) {
    if ans.Bytes? then Min(|ans.bytes|, room) else if ans.code < 0 then ans.code else 0
  }

  /** The bytes a request for n takes from the socket with nothing prefetched: small requests fill the whole buffer. */
  ghost function Fetched<T>(size: nat, n: nat, ans: Reply<T>): (r: seq<T>) {
    Cut(ans, if n < size / 2 then size else n)
  }

  /** The return code of a request when `have` bytes came from the buffer. */
  function RecvCode<T>(size: nat, have: nat, n: nat, ans: Reply<T>): (r: int) {
    var ret := ReplyCode(ans, if n < size / 2 then size else n);
    if ret > 0 then 0 else if ret == -EINPROGRESS_URING then ret else if have > 0 then 0 else ret
  }

  lemma GotAll<T>(have: seq<T>, more: seq<T>, got: seq<T>, rest: seq<T>)
    requires more == got + rest
    ensures have + more == (have + got) + rest && have + [] == have
  {
  }

  /**
   The return code of a vectored request for n bytes with `have` buffered, and the bytes it takes from
   the socket: none if the buffered ones suffice, or if they leave a large remainder, which is left for
   the next call.
   */
  ghost predicate Vectored<T>(size: nat, have: nat, n: nat, ans: Reply<T>, ret: int, more: seq<T>) {
    if 0 < have && (n <= have || n - have >= size / 2) then ret == 0 && more == []
    else have <= n && ret == RecvCode(size, have, n - have, ans) && more == Fetched(size, n - have, ans)
  }

  /** What the socket replies to a request for n bytes with `have` buffered, if it is asked at all. */
  function Heard<T>(size: nat, have: nat, n: nat, vectored: bool, ans: Reply<T>): (rs: seq<int>) {
    if 0 < have && (n <= have || (vectored && n - have >= size / 2)) then []
    else [ReplyCode(ans, if n - have < size / 2 then size else if n > have then n - have else 0)]
  }

  /**
   A request for n bytes with `have` buffered takes `more` from the socket and delivers `len`; `rs` is the
   socket's reply, if it was asked. A delivery is a success, and without one the caller gets the socket's reply.
   */
  ghost predicate Given<T>(size: nat, have: nat, n: nat, vectored: bool, ans: Reply<T>, ret: int, len: nat,
                           more: seq<T>, rs: seq<int>) {
    && |rs| <= 1 && len == Min(n, have + |more|)
    && (rs == [] <==> 0 < have && (n <= have || (vectored && n - have >= size / 2)))
    && (if rs == [-EINPROGRESS_URING] then ret == -EINPROGRESS_URING
        else if len > 0 then ret == 0
        else n > 0 ==> |rs| == 1 && ret == rs[0] <= 0)
    && |more| == Took(rs) && (more != [] ==> ans.Bytes? && more <= ans.bytes)
    // a small request takes as much as the whole buffer holds, a large one only what it asks for
    && (rs != [] && ans.Bytes? ==> |more| == Min(|ans.bytes|, if n - have < size / 2 then size else n - have))
  }

  lemma RecvGiven<T>(size: nat, have: nat, n: nat, ans: Reply<T>, ret: int, more: seq<T>)
    requires if 0 < have && n <= have then ret == 0 && more == []
             else have <= n && ret == RecvCode(size, have, n - have, ans) && more == Fetched(size, n - have, ans)
    ensures Given(size, have, n, false, ans, ret, Min(n, have + |more|), more, Heard(size, have, n, false, ans))
  {
    var rs := Heard(size, have, n, false, ans);
    if rs != [] { TookOne(rs[0]); }
  }

  lemma VectoredGiven<T>(size: nat, have: nat, n: nat, ans: Reply<T>, ret: int, more: seq<T>)
    requires Vectored(size, have, n, ans, ret, more)
    ensures Given(size, have, n, true, ans, ret, Min(n, have + |more|), more, Heard(size, have, n, true, ans))
  {
    var rs := Heard(size, have, n, true, ans);
    if rs != [] { TookOne(rs[0]); }
  }

  /** The bytes `got` were stored on a list from an offset on. */
  ghost predicate Stored<T>(mem0: seq<T>, mem: seq<T>, addrs: seq<nat>, offset: nat, got: seq<T>) {
    && Within(addrs, |mem0|) && (got != [] ==> offset + |got| <= |addrs|)
    && mem == Scatter(mem0, Window(addrs, offset, |got|), got)
  }

  /** Filling a list from its start, and on from there. */
  lemma StoredThen<T>(have: seq<T>, got: seq<T>, mem0: seq<T>, mem1: seq<T>, mem: seq<T>, addrs: seq<nat>)
    requires Stored(mem0, mem1, addrs, 0, have) && Stored(mem1, mem, addrs, |have|, got)
    ensures Stored(mem0, mem, addrs, 0, have + got)
  {
    var a, b := Window(addrs, 0, |have|), Window(addrs, |have|, |got|);
    assert Window(addrs, 0, |have + got|) == a + b by { SliceThen(addrs, 0, |have|, |got|); }
    ScatterConcat(mem0, a, have, b, got);
  }

  /** A call on the sending side, with the socket's answers to it. */
  datatype SendCall =
    | DoSend(at: nat, n: nat, a1: int, a2: int)
    | DoSendV(iov: seq<Segment>, a1: int, a2: int)
    | DoFlush(a1: int)

  /** Its arguments lie in memory, and the socket is synchronous: it never answers that io_uring is at work. */
  ghost predicate Fine(call: SendCall, size: nat) {
    match call
    case DoSend(at, n, a1, a2) => (n > 0 ==> at + n <= size) && a1 != -EINPROGRESS_URING && a2 != -EINPROGRESS_URING
    case DoSendV(iov, a1, a2) => Within(Addrs(iov), size) && a1 != -EINPROGRESS_URING && a2 != -EINPROGRESS_URING
    case DoFlush(a1) => true
  }

  /** The bytes a call offers. */
  ghost function Offered<T>(mem: seq<T>, call: SendCall): (data: seq<T>)
    requires Fine(call, |mem|)
  {
    match call
    case DoSend(at, n, _, _) => Slice(mem, at, n)
    case DoSendV(iov, _, _) => Gather(mem, Addrs(iov))
    case DoFlush(_) => []
  }

  ghost function Offers<T>(mem: seq<T>, calls: seq<SendCall>): (r: seq<seq<T>>)
    requires forall i :: 0 <= i < |calls| ==> Fine(calls[i], |mem|)
    ensures |r| == |calls| && forall i :: 0 <= i < |calls| ==> r[i] == Offered(mem, calls[i])
  {
    seq(|calls|, i requires 0 <= i < |calls| => Offered(mem, calls[i]))
  }

  /** What a call that offers n bytes does to the send buffer, its outcome, and the answers it got. */
  ghost predicate Served(size: nat, zerocopy: nat, st: Stage, call: SendCall, n: nat, o: Outcome, got: seq<int>,
                         st': Stage) {
    match call
    case DoFlush(a1) =>
      && o == Outcome(FlushCode(st.staged, a1), 0) && Drained(st.staged, o.ret, got) && st' == Flushed(st, size, a1)
    case _ =>
      && o == SendOutcome(st.staged, st.room, size, zerocopy, n, call.a1, call.a2)
      && Dealt(st, size, zerocopy, n, o, got)
      && st' == SendStage(st, size, n, call.a1, call.a2)
  }

  /** The send buffer went through `stages` as the calls came to `outs`. */
  ghost predicate AllServed<T>(size: nat, zerocopy: nat, stages: seq<Stage>, calls: seq<SendCall>, datas: seq<seq<T>>,
                               outs: seq<Outcome>, gots: seq<seq<int>>)
  {
    && |gots| == |outs| <= |calls| == |datas| && |stages| == |outs| + 1
    && forall k :: 0 <= k < |outs| ==>
         Served(size, zerocopy, stages[k], calls[k], |datas[k]|, outs[k], gots[k], stages[k + 1])
  }

  lemma ServedNext<T>(size: nat, zerocopy: nat, stages: seq<Stage>, calls: seq<SendCall>, datas: seq<seq<T>>,
                      outs: seq<Outcome>, gots: seq<seq<int>>, o: Outcome, got: seq<int>, st: Stage)
    requires |outs| < |calls| == |datas| && |outs| < |stages|
    ensures && AllServed(size, zerocopy, stages, calls, datas, outs, gots)
            && Served(size, zerocopy, stages[|outs|], calls[|outs|], |datas[|outs|]|, o, got, st)
            ==> AllServed(size, zerocopy, stages + [st], calls, datas, outs + [o], gots + [got])
  {
  }

  /** How many bytes each call accepted. */
  ghost function Lens(outs: seq<Outcome>): (lens: seq<nat>)
    ensures |lens| == |outs| && forall k :: 0 <= k < |outs| ==> lens[k] == outs[k].len
  {
    seq(|outs|, k requires 0 <= k < |outs| => outs[k].len)
  }

  ghost predicate Fit<T>(datas: seq<seq<T>>, lens: seq<nat>) {
    |lens| <= |datas| && forall i :: 0 <= i < |lens| ==> lens[i] <= |datas[i]|
  }

  /** The first lens[i] bytes of every datas[i], in order. */
  ghost function Prefixes<T>(datas: seq<seq<T>>, lens: seq<nat>): (r: seq<T>)
    requires Fit(datas, lens)
  {
    if lens == [] then []
    else
      var k := |lens| - 1;
      Prefixes(datas, lens[..k]) + Slice(datas[k], 0, lens[k])
  }

  lemma PrefixesNext<T>(datas: seq<seq<T>>, lens: seq<nat>, len: nat)
    requires Fit(datas, lens) && |lens| < |datas| && len <= |datas[|lens|]|
    ensures Fit(datas, lens + [len])
    ensures Prefixes(datas, lens + [len]) == Prefixes(datas, lens) + Slice(datas[|lens|], 0, len)
  {
    assert (lens + [len])[..|lens|] == lens;
  }

  /** A call on the receiving side, with the socket's answer to it. */
  datatype RecvCall<T> = DoRecv(at: nat, n: nat, ans: Reply<T>) | DoRecvV(iov: seq<Segment>, ans: Reply<T>) {
    /** Where the caller wants the bytes. */
    function Room(): (r: seq<Segment>) {
      match this
      case DoRecv(at, n, _) => [Segment(at, n)]
      case DoRecvV(iov, _) => iov
    }
  }

  /** The request is not empty and its room lies in memory. */
  ghost predicate Asks<T>(call: RecvCall<T>, size: nat) {
    0 < |Addrs(call.Room())| && Within(Addrs(call.Room()), size)
  }

  /**
   A call with `buf` buffered takes `more` from the socket and is given `got`, as much as it asked for and as
   there is, which leaves `buf'`; its return code, and the socket's reply if it was asked.
   */
  ghost predicate Takes<T>(size: nat, buf: seq<T>, call: RecvCall<T>, ret: int, more: seq<T>, got: seq<T>,
                           rs: seq<int>, buf': seq<T>) {
    var have, n := |buf|, |Addrs(call.Room())|;
    && buf + more == got + buf' && Given(size, have, n, |call.Room()| != 1, call.ans, ret, |got|, more, rs)
    && if |call.Room()| != 1 then Vectored(size, have, n, call.ans, ret, more)
       else if 0 < have && n <= have then ret == 0 && more == []
       else ret == RecvCode(size, have, n - have, call.ans) && more == Fetched(size, n - have, call.ans)
  }

  /** The receive buffer went through `bufs` as the calls were answered. */
  ghost predicate AllTaken<T>(size: nat, bufs: seq<seq<T>>, calls: seq<RecvCall<T>>, rets: seq<int>,
                              mores: seq<seq<T>>, gots: seq<seq<T>>, heard: seq<seq<int>>)
  {
    && |rets| == |mores| == |gots| == |heard| <= |calls| && |bufs| == |rets| + 1
    && forall k :: 0 <= k < |rets| ==>
         Takes(size, bufs[k], calls[k], rets[k], mores[k], gots[k], heard[k], bufs[k + 1])
  }

  lemma TakenNext<T>(size: nat, bufs: seq<seq<T>>, calls: seq<RecvCall<T>>, rets: seq<int>, mores: seq<seq<T>>,
                     gots: seq<seq<T>>, heard: seq<seq<int>>, ret: int, more: seq<T>, got: seq<T>, rs: seq<int>,
                     buf: seq<T>)
    requires |rets| < |calls| && |rets| < |bufs|
    ensures && AllTaken(size, bufs, calls, rets, mores, gots, heard)
            && Takes(size, bufs[|rets|], calls[|rets|], ret, more, got, rs, buf)
            ==> AllTaken(size, bufs + [buf], calls, rets + [ret], mores + [more], gots + [got], heard + [rs])
  {
  }

  /** What was buffered and what n calls took is what they were given and what is buffered then, in order. */
  lemma {:induction false} TakenConserves<T>(size: nat, bufs: seq<seq<T>>, calls: seq<RecvCall<T>>, rets: seq<int>,
                                             mores: seq<seq<T>>, gots: seq<seq<T>>, heard: seq<seq<int>>, n: nat)
    requires AllTaken(size, bufs, calls, rets, mores, gots, heard) && n <= |rets|
    ensures bufs[0] + Joined(mores[..n]) == Joined(gots[..n]) + bufs[n]
  {
    if n == 0 {
      assert mores[..0] == [] && gots[..0] == [];
    } else {
      var k := n - 1;
      TakenConserves(size, bufs, calls, rets, mores, gots, heard, k);
      assert Takes(size, bufs[k], calls[k], rets[k], mores[k], gots[k], heard[k], bufs[n]);
      JoinedTo(mores, k);
      JoinedTo(gots, k);
      GotThen(bufs[0], Joined(mores[..k]), Joined(gots[..k]), bufs[k], mores[k], gots[k], bufs[n]);
    }
  }

  /**
   A call stored `got` in its room, from the start of it, and `out` is what the caller finds there:
   the same bytes, if no two places of the room are one.
   */
  ghost predicate Delivers<T>(mem0: seq<T>, call: RecvCall<T>, got: seq<T>, out: seq<T>, mem: seq<T>) {
    var addrs := Addrs(call.Room());
    && Stored(mem0, mem, addrs, 0, got) && out == Gather(mem, Window(addrs, 0, |got|))
    && (Distinct(addrs) ==> out == got)
  }

  lemma FindsWhatIsStored<T>(mem0: seq<T>, call: RecvCall<T>, got: seq<T>, mem: seq<T>)
    requires Stored(mem0, mem, Addrs(call.Room()), 0, got)
    ensures Delivers(mem0, call, got, Gather(mem, Window(Addrs(call.Room()), 0, |got|)), mem)
  {
    if Distinct(Addrs(call.Room())) { RoundTrip(mem0, Window(Addrs(call.Room()), 0, |got|), got); }
  }

  /** Memory went through `mems` as the calls delivered `gots`, which the caller found as `outs`. */
  ghost predicate AllDelivered<T>(mems: seq<seq<T>>, calls: seq<RecvCall<T>>, gots: seq<seq<T>>, outs: seq<seq<T>>) {
    && |outs| == |gots| <= |calls| && |mems| == |gots| + 1
    && forall k :: 0 <= k < |gots| ==> Delivers(mems[k], calls[k], gots[k], outs[k], mems[k + 1])
  }

  lemma DeliveredNext<T>(mems: seq<seq<T>>, calls: seq<RecvCall<T>>, gots: seq<seq<T>>, outs: seq<seq<T>>,
                         got: seq<T>, out: seq<T>, mem: seq<T>)
    requires AllDelivered(mems, calls, gots, outs) && |gots| < |calls|
    requires Delivers(mems[|gots|], calls[|gots|], got, out, mem)
    ensures AllDelivered(mems + [mem], calls, gots + [got], outs + [out])
  {
  }

  /** No request names a place twice. */
  ghost predicate AllDistinct<T>(calls: seq<RecvCall<T>>) {
    forall k :: 0 <= k < |calls| ==> Distinct(Addrs(calls[k].Room()))
  }

  lemma FoundAll<T>(mems: seq<seq<T>>, calls: seq<RecvCall<T>>, gots: seq<seq<T>>, outs: seq<seq<T>>)
    requires AllDelivered(mems, calls, gots, outs) && AllDistinct(calls)
    ensures outs == gots
  {
    forall k | 0 <= k < |gots| ensures outs[k] == gots[k] {
      assert Delivers(mems[k], calls[k], gots[k], outs[k], mems[k + 1]);
    }
  }

  /** All of `parts`, in order. */
  function Joined<T>(parts: seq<seq<T>>): (r: seq<T>) {
    if parts == [] then [] else Joined(parts[..|parts| - 1]) + parts[|parts| - 1]
  }

  lemma JoinedNext<T>(parts: seq<seq<T>>, part: seq<T>)
    ensures Joined(parts + [part]) == Joined(parts) + part
  {
    assert (parts + [part])[..|parts|] == parts;
  }

  lemma JoinedTo<T>(parts: seq<seq<T>>, k: nat)
    requires k < |parts|
    ensures Joined(parts[..k + 1]) == Joined(parts[..k]) + parts[k]
  {
    assert parts[..k + 1][..k] == parts[..k];
  }

  lemma GotThen<T>(a: seq<T>, m: seq<T>, g: seq<T>, b: seq<T>, m': seq<T>, g': seq<T>, c: seq<T>)
    requires a + m == g + b && b + m' == g' + c
    ensures a + (m + m') == (g + g') + c
  {
    calc {
      a + (m + m');
      (a + m) + m';
      g + (b + m');
      (g + g') + c;
    }
  }

  class Bsock<T(0)> {
    const sq: ByteQueue<T>
    const rq: ByteQueue<T>
    const zerocopySize: nat
    /** Every byte the socket ever took from us, and every byte we ever took from it. */
    ghost var wire: seq<T>
    ghost var taken: seq<T>
    /** Everything the socket ever answered to a send, and to a receive. */
    ghost var answers: seq<int>
    ghost var replies: seq<int>

    /** The outgoing stream so far: on the wire, then still staged. */
    ghost function Outgoing(): (s: seq<T>)
      requires sq.Valid()
      reads `wire, sq`head, sq`tail, sq.data
    {
      wire + sq.Contents()
    }

    ghost function SendBuffer(): (st: Stage)
      requires sq.Valid()
      reads sq`head, sq`tail
    {
      Stage(sq.Readable(), sq.Writeable())
    }

    /** `ofi_bsock_init` */
    constructor (sendSize: int, recvSize: int, zerocopySize: nat)
      ensures sq.Valid() && rq.Valid() && Outgoing() == [] && taken == [] && rq.Contents() == []
      ensures fresh(sq) && fresh(rq) && fresh(sq.data) && fresh(rq.data)
      ensures this.zerocopySize == zerocopySize && answers == [] && replies == []
    {
      sq := new ByteQueue(sendSize);
      rq := new ByteQueue(recvSize);
      this.zerocopySize := zerocopySize;
      wire, taken, answers, replies := [], [], [], [];
    }

    /** The socket's `send`. */
    method SockSend(src: array<T>, at: nat, n: nat, a: int) returns (r: int)
      requires n > 0 ==> at + n <= src.Length
      modifies `wire, `answers
      ensures r == Answer(a, n) && answers == old(answers) + [r]
      ensures wire == old(wire) + if r < 0 then [] else Slice(src[..], at, r)
    {
      r := Answer(a, n);
      answers := answers + [r];
      wire := wire + if r < 0 then [] else Slice(src[..], at, r);
    }

    /** The socket's `sendv`. */
    method SockSendV(mem: array<T>, iov: seq<Segment>, a: int) returns (r: int)
      requires Within(Addrs(iov), mem.Length)
      modifies `wire, `answers
      ensures r == Answer(a, |Addrs(iov)|) && answers == old(answers) + [r]
      ensures wire == old(wire) + if r < 0 then [] else Slice(Gather(mem[..], Addrs(iov)), 0, r)
    {
      var n := TotalLen(iov);
      r := Answer(a, n);
      answers := answers + [r];
      wire := wire + if r < 0 then [] else Slice(Gather(mem[..], Addrs(iov)), 0, r);
    }

    /** `ofi_bsock_flush`: some staged bytes move to the wire; the stream is the same. */
    method Flush(a: int) returns (err: int, ghost got: seq<int>)
      requires sq.Valid()
      modifies sq`head, sq`tail, `wire, `answers
      ensures sq.Valid() && Outgoing() == old(Outgoing())
      ensures err == FlushCode(old(sq.Readable()), a) && (err == 0 <==> sq.Contents() == [])
      ensures answers == old(answers) + got && Drained(old(sq.Readable()), err, got)
      ensures got == if old(sq.Readable()) == 0 then [] else [Answer(a, old(sq.Readable()))]
      ensures |wire| == |old(wire)| + Took(got)
      ensures SendBuffer() == Flushed(old(SendBuffer()), sq.size, a)
    {
      got := [];
      var avail := sq.Readable();
      if avail == 0 {
        err := 0;
        return;
      }
      var ret := SockSend(sq.data, sq.head, avail, a);
      got := [ret];
      TookOne(ret);
      if ret < 0 {
        err := ret;
        return;
      }
      sq.Consume(ret);
      err := if sq.Readable() > 0 then -EAGAIN else 0;
    }

    /** The bytes a call accepted, as the caller sees it; an io_uring send in flight has none yet. */
    ghost function Accepted(data: seq<T>, o: Outcome): (s: seq<T>)
      requires sq.Valid() && o.len <= |data|
      reads sq`head, sq`tail, sq.data
    {
      if o.ret == -EINPROGRESS_URING && sq.Contents() == [] then [] else Slice(data, 0, o.len)
    }

    /** The second half of `ofi_bsock_send`, with nothing staged: straight to the socket. */
    method SendNow(mem: array<T>, at: nat, n: nat, a: int) returns (o: Outcome)
      requires sq.Valid() && sq.Contents() == [] && mem != sq.data && (n > 0 ==> at + n <= mem.Length)
      modifies sq`tail, sq.data, `wire, `answers
      ensures sq.Valid() && o == DirectOutcome(sq.size, zerocopySize, n, a)
      ensures answers == old(answers) + [Answer(a, n)] && |wire| == |old(wire)| + Took([Answer(a, n)])
      ensures Outgoing() == old(Outgoing()) + Accepted(Slice(mem[..], at, n), o)
      ensures SendBuffer() == DirectStage(sq.size, n, a)
    {
      var ret := SockSend(mem, at, n, a);
      TookOne(ret);
      if ret >= 0 {
        return Outcome(if n > zerocopySize then -EINPROGRESS_ASYNC else 0, ret);
      }
      if ret == -EINPROGRESS_URING {
        return Outcome(ret, n);
      }
      if ret == -EAGAIN && n < sq.Writeable() {
        sq.Write(mem, at, n);
        return Outcome(0, n);
      }
      o := Outcome(ret, 0);
    }

    /** The first half of `ofi_bsock_send`, with room behind the staged bytes: stage these too, and flush. */
    method StagePlain(mem: array<T>, at: nat, n: nat, a1: int) returns (o: Outcome, ghost got: seq<int>)
      requires sq.Valid() && sq.Contents() != [] && mem != sq.data && (n > 0 ==> at + n <= mem.Length)
      requires n < sq.Writeable()
      modifies sq`head, sq`tail, sq.data, `wire, `answers
      ensures sq.Valid() && o == SendOutcome(old(sq.Readable()), old(sq.Writeable()), sq.size, zerocopySize, n, a1, 0)
      ensures Outgoing() == old(Outgoing()) + Accepted(Slice(mem[..], at, n), o)
      ensures answers == old(answers) + got && |wire| == |old(wire)| + Took(got)
      ensures got == [Answer(a1, old(sq.Readable()) + n)]
      ensures SendBuffer() == SendStage(old(SendBuffer()), sq.size, n, a1, 0)
    {
      sq.Write(mem, at, n);
      SliceWhole(Slice(mem[..], at, n));
      assert Outgoing() == old(Outgoing()) + Slice(mem[..], at, n);
      var err;
      err, got := Flush(a1);
      o := Outcome(if err == -EAGAIN then 0 else err, n);
    }

    /** `ofi_bsock_send`, with the answers it gets. */
    method SendPlain(mem: array<T>, at: nat, n: nat, a1: int, a2: int) returns (o: Outcome, ghost got: seq<int>)
      requires sq.Valid() && mem != sq.data && (n > 0 ==> at + n <= mem.Length)
      modifies sq`head, sq`tail, sq.data, `wire, `answers
      ensures sq.Valid() && o == SendOutcome(old(sq.Readable()), old(sq.Writeable()), sq.size, zerocopySize, n, a1, a2)
      ensures Outgoing() == old(Outgoing()) + Accepted(Slice(mem[..], at, n), o)
      ensures answers == old(answers) + got && |wire| == |old(wire)| + Took(got)
      ensures got == Asked(old(SendBuffer()), n, a1, a2)
      ensures SendBuffer() == SendStage(old(SendBuffer()), sq.size, n, a1, a2)
    {
      got := [];
      if sq.Readable() > 0 {
        if n < sq.Writeable() {
          o, got := StagePlain(mem, at, n, a1);
          return;
        }
        var err;
        err, got := Flush(a1);
        if err != 0 {
          o := Outcome(err, 0);
          return;
        }
        TookTwo(got[0], Answer(a2, n));
      }
      o := SendNow(mem, at, n, a2);
      got := if got == [] then [Answer(a2, n)] else got + [Answer(a2, n)];
    }

    /** `ofi_bsock_send` */
    method Send(mem: array<T>, at: nat, n: nat, a1: int, a2: int) returns (o: Outcome, ghost got: seq<int>)
      requires sq.Valid() && mem != sq.data && (n > 0 ==> at + n <= mem.Length)
      modifies sq`head, sq`tail, sq.data, `wire, `answers
      ensures sq.Valid() && o == SendOutcome(old(sq.Readable()), old(sq.Writeable()), sq.size, zerocopySize, n, a1, a2)
      ensures Outgoing() == old(Outgoing()) + Accepted(Slice(mem[..], at, n), o)
      ensures answers == old(answers) + got && |wire| == |old(wire)| + Took(got)
      ensures Dealt(old(SendBuffer()), sq.size, zerocopySize, n, o, got)
      ensures SendBuffer() == SendStage(old(SendBuffer()), sq.size, n, a1, a2)
    {
      SendDealt(SendBuffer(), sq.size, zerocopySize, n, a1, a2);
      o, got := SendPlain(mem, at, n, a1, a2);
    }

    /** The second half of `ofi_bsock_sendv`. */
    method SendVNow(mem: array<T>, iov: seq<Segment>, n: nat, a: int) returns (o: Outcome)
      requires sq.Valid() && sq.Contents() == [] && mem != sq.data
      requires Within(Addrs(iov), mem.Length) && n == |Addrs(iov)|
      modifies sq`tail, sq.data, `wire, `answers
      ensures sq.Valid() && o == DirectOutcome(sq.size, zerocopySize, n, a)
      ensures answers == old(answers) + [Answer(a, n)] && |wire| == |old(wire)| + Took([Answer(a, n)])
      ensures Outgoing() == old(Outgoing()) + Accepted(Gather(mem[..], Addrs(iov)), o)
      ensures SendBuffer() == DirectStage(sq.size, n, a)
    {
      var ret := SockSendV(mem, iov, a);
      TookOne(ret);
      if ret >= 0 {
        return Outcome(if n > zerocopySize then -EINPROGRESS_ASYNC else 0, ret);
      }
      if ret == -EINPROGRESS_URING {
        return Outcome(ret, n);
      }
      if ret == -EAGAIN && n < sq.Writeable() {
        sq.WriteV(mem, iov);
        return Outcome(0, n);
      }
      o := Outcome(ret, 0);
    }

    /** The first half, with room behind the staged bytes: stage these too, and flush. */
    method StageV(mem: array<T>, iov: seq<Segment>, n: nat, a1: int) returns (o: Outcome, ghost got: seq<int>)
      requires sq.Valid() && sq.Contents() != [] && mem != sq.data && Within(Addrs(iov), mem.Length)
      requires n == |Addrs(iov)| < sq.Writeable()
      modifies sq`head, sq`tail, sq.data, `wire, `answers
      ensures sq.Valid() && o == SendOutcome(old(sq.Readable()), old(sq.Writeable()), sq.size, zerocopySize, n, a1, 0)
      ensures Outgoing() == old(Outgoing()) + Accepted(Gather(mem[..], Addrs(iov)), o)
      ensures answers == old(answers) + got && |wire| == |old(wire)| + Took(got)
      ensures got == [Answer(a1, old(sq.Readable()) + n)]
      ensures SendBuffer() == SendStage(old(SendBuffer()), sq.size, n, a1, 0)
    {
      sq.WriteV(mem, iov);
      SliceWhole(Gather(mem[..], Addrs(iov)));
      assert Outgoing() == old(Outgoing()) + Gather(mem[..], Addrs(iov));
      var err;
      err, got := Flush(a1);
      o := Outcome(if err == -EAGAIN then 0 else err, n);
    }

    /** `ofi_bsock_sendv` on any but a single segment. */
    method SendList(mem: array<T>, iov: seq<Segment>, a1: int, a2: int) returns (o: Outcome, ghost got: seq<int>)
      requires sq.Valid() && mem != sq.data && Within(Addrs(iov), mem.Length)
      modifies sq`head, sq`tail, sq.data, `wire, `answers
      ensures sq.Valid()
      ensures o == SendOutcome(old(sq.Readable()), old(sq.Writeable()), sq.size, zerocopySize, |Addrs(iov)|, a1, a2)
      ensures Outgoing() == old(Outgoing()) + Accepted(Gather(mem[..], Addrs(iov)), o)
      ensures answers == old(answers) + got && |wire| == |old(wire)| + Took(got)
      ensures got == Asked(old(SendBuffer()), |Addrs(iov)|, a1, a2)
      ensures SendBuffer() == SendStage(old(SendBuffer()), sq.size, |Addrs(iov)|, a1, a2)
    {
      got := [];
      var n := TotalLen(iov);
      if sq.Readable() > 0 {
        if n < sq.Writeable() {
          o, got := StageV(mem, iov, n, a1);
          return;
        }
        var err;
        err, got := Flush(a1);
        if err != 0 {
          o := Outcome(err, 0);
          return;
        }
        TookTwo(got[0], Answer(a2, n));
      }
      o := SendVNow(mem, iov, n, a2);
      got := if got == [] then [Answer(a2, n)] else got + [Answer(a2, n)];
    }

    /** `ofi_bsock_sendv`: the same outcome and the same stream as a send of the gathered bytes. */
    method SendV(mem: array<T>, iov: seq<Segment>, a1: int, a2: int) returns (o: Outcome, ghost got: seq<int>)
      requires sq.Valid() && mem != sq.data && Within(Addrs(iov), mem.Length)
      modifies sq`head, sq`tail, sq.data, `wire, `answers
      ensures sq.Valid()
      ensures o == SendOutcome(old(sq.Readable()), old(sq.Writeable()), sq.size, zerocopySize, |Addrs(iov)|, a1, a2)
      ensures Outgoing() == old(Outgoing()) + Accepted(Gather(mem[..], Addrs(iov)), o)
      ensures answers == old(answers) + got && |wire| == |old(wire)| + Took(got)
      ensures Dealt(old(SendBuffer()), sq.size, zerocopySize, |Addrs(iov)|, o, got)
      ensures SendBuffer() == SendStage(old(SendBuffer()), sq.size, |Addrs(iov)|, a1, a2)
    {
      if |iov| == 1 {
        SingleGather(iov, mem[..]);
        o, got := Send(mem, iov[0].base, iov[0].len, a1, a2);
      } else {
        SendDealt(SendBuffer(), sq.size, zerocopySize, |Addrs(iov)|, a1, a2);
        o, got := SendList(mem, iov, a1, a2);
      }
    }

    /** The socket's `recv`. */
    method SockRecv(dst: array<T>, at: nat, room: nat, ans: Reply<T>) returns (r: int)
      requires room > 0 ==> at + room <= dst.Length
      modifies dst, `taken, `replies
      ensures r == ReplyCode(ans, room) && taken == old(taken) + Cut(ans, room) && replies == old(replies) + [r]
      ensures dst[..] == Overwrite(old(dst[..]), at, Cut(ans, room))
    {
      r := ReplyCode(ans, room);
      taken, replies := taken + Cut(ans, room), replies + [r];
      for i := 0 to if r > 0 then r else 0
        invariant forall k :: 0 <= k < dst.Length ==>
                    dst[k] == if at <= k < at + i then ans.bytes[k - at] else old(dst[k])
        modifies dst
      {
        dst[at + i] := ans.bytes[i];
      }
    }

    /** Both receive calls prefetch the same way: the whole buffer is offered to the socket. */
    method Prefetch(ghost n: nat, ans: Reply<T>) returns (ret: int, ghost more: seq<T>)
      requires rq.Valid() && rq.Contents() == [] && n < rq.size / 2
      modifies rq`tail, rq.data, `taken, `replies
      ensures rq.Valid() && old(rq.Writeable()) == rq.size > 0 && ret == ReplyCode(ans, rq.size)
      ensures more == Fetched(rq.size, n, ans) == rq.Contents()
      ensures taken == old(taken) + more && (ret <= 0 <==> more == []) && replies == old(replies) + [ret]
    {
      more := Fetched(rq.size, n, ans);
      var avail := rq.Writeable();
      ret := SockRecv(rq.data, rq.tail, avail, ans);
      if ret > 0 {
        rq.Add(ret);
        assert rq.Contents() == more;
      }
    }

    /** The second half of `ofi_bsock_recv`, with nothing prefetched and `bytes` delivered already. */
    method RecvMore(mem: array<T>, at: nat, n: nat, ans: Reply<T>, bytes: nat)
      returns (ret: int, len: nat, ghost more: seq<T>, ghost got: seq<T>)
      requires rq.Valid() && rq.Contents() == [] && mem != rq.data && (n > 0 ==> at + n <= mem.Length)
      modifies rq`head, rq`tail, rq.data, mem, `taken, `replies
      ensures rq.Valid() && ret == RecvCode(rq.size, bytes, n, ans)
      ensures more == Fetched(rq.size, n, ans) && taken == old(taken) + more
      ensures replies == old(replies) + Heard(rq.size, 0, n, false, ans)
      ensures len == |got| == Min(n, |more|) && more == got + rq.Contents()
      ensures mem[..] == Overwrite(old(mem[..]), at, got)
    {
      len, more, got := 0, Fetched(rq.size, n, ans), [];
      if n < rq.size / 2 {
        ret, more := Prefetch(n, ans);
        if ret > 0 {
          len, got := rq.Read(mem, at, n);
          ret := 0;
          return;
        }
      } else {
        ret := SockRecv(mem, at, n, ans);
        if ret > 0 {
          len, ret, got := ret, 0, more;
          return;
        }
      }
      if ret != -EINPROGRESS_URING && bytes > 0 {
        ret := 0;
      }
    }

    /** `ofi_bsock_recv`, with the reply it gets. */
    method RecvPlain(mem: array<T>, at: nat, n: nat, ans: Reply<T>)
      returns (ret: int, len: nat, ghost more: seq<T>, ghost got: seq<T>, ghost rs: seq<int>)
      requires rq.Valid() && mem != rq.data && (n > 0 ==> at + n <= mem.Length) && (n == 0 ==> rq.Contents() == [])
      modifies rq`head, rq`tail, rq.data, mem, `taken, `replies
      ensures rq.Valid() && taken == old(taken) + more && old(rq.Contents()) + more == got + rq.Contents()
      ensures len == |got| == Min(n, old(rq.Readable()) + |more|) && mem[..] == Overwrite(old(mem[..]), at, got)
      ensures replies == old(replies) + rs && rs == Heard(rq.size, old(rq.Readable()), n, false, ans)
      ensures var have := old(rq.Readable());
              if 0 < have && n <= have then ret == 0 && more == []
              else ret == RecvCode(rq.size, have, n - have, ans) && more == Fetched(rq.size, n - have, ans)
    {
      rs := Heard(rq.size, rq.Readable(), n, false, ans);
      var bytes;
      bytes, got := rq.Read(mem, at, n);
      if bytes > 0 && bytes == n {
        ret, len, more := 0, bytes, [];
      } else {
        ghost var have, part := got, [];
        ret, len, more, part := RecvMore(mem, at + bytes, n - bytes, ans, bytes);
        OverwriteThen(old(mem[..]), at, have, part);
        GotAll(have, more, part, rq.Contents());
        len, got := bytes + len, have + part;
      }
    }

    /**
     `ofi_bsock_recv`. The buffered bytes followed by those taken from the socket are the bytes
     delivered followed by those buffered now. The request must not be empty while bytes are buffered.
     */
    method Recv(mem: array<T>, at: nat, n: nat, ans: Reply<T>)
      returns (ret: int, len: nat, ghost more: seq<T>, ghost got: seq<T>, ghost rs: seq<int>)
      requires rq.Valid() && mem != rq.data && (n > 0 ==> at + n <= mem.Length) && (n == 0 ==> rq.Contents() == [])
      modifies rq`head, rq`tail, rq.data, mem, `taken, `replies
      ensures rq.Valid() && taken == old(taken) + more && old(rq.Contents()) + more == got + rq.Contents()
      ensures len == |got| == Min(n, old(rq.Readable()) + |more|) && mem[..] == Overwrite(old(mem[..]), at, got)
      ensures replies == old(replies) + rs && Given(rq.size, old(rq.Readable()), n, false, ans, ret, len, more, rs)
      ensures var have := old(rq.Readable());
              if 0 < have && n <= have then ret == 0 && more == []
              else ret == RecvCode(rq.size, have, n - have, ans) && more == Fetched(rq.size, n - have, ans)
    {
      ret, len, more, got, rs := RecvPlain(mem, at, n, ans);
      RecvGiven(rq.size, old(rq.Readable()), n, ans, ret, more);
    }

    /** The socket's `recvv`. */
    method SockRecvV(mem: array<T>, iov: seq<Segment>, n: nat, ans: Reply<T>) returns (r: int)
      requires Within(Addrs(iov), mem.Length) && n == |Addrs(iov)|
      modifies mem, `taken, `replies
      ensures r == ReplyCode(ans, n) && taken == old(taken) + Cut(ans, n) && replies == old(replies) + [r]
      ensures mem[..] == Scatter(old(mem[..]), Window(Addrs(iov), 0, |Cut(ans, n)|), Cut(ans, n))
    {
      r := ReplyCode(ans, n);
      taken, replies := taken + Cut(ans, n), replies + [r];
      if r > 0 {
        var packet := new T[r](i requires 0 <= i < r => ans.bytes[i]);
        assert Slice(packet[..], 0, r) == Cut(ans, n);
        var k := CopyIovBuf(mem, iov, 0, packet, 0, r, BufToIov);
      }
    }

    /** The second half of `ofi_bsock_recvv`, with nothing prefetched and `bytes` delivered already. */
    method RecvVMore(mem: array<T>, iov: seq<Segment>, bytes: nat, n: nat, ans: Reply<T>)
      returns (ret: int, len: nat, ghost more: seq<T>, ghost got: seq<T>)
      requires rq.Valid() && rq.Contents() == [] && mem != rq.data && Within(Addrs(iov), mem.Length)
      requires n == |Addrs(iov)| && (bytes < n || bytes == 0)
      modifies rq`head, rq`tail, rq.data, mem, `taken, `replies
      ensures rq.Valid() && taken == old(taken) + more
      ensures len == |got| == Min(n - bytes, |more|) && more == got + rq.Contents()
      ensures Stored(old(mem[..]), mem[..], Addrs(iov), bytes, got)
      ensures Vectored(rq.size, bytes, n, ans, ret, more)
      ensures replies == old(replies) + Heard(rq.size, bytes, n, true, ans)
    {
      len, more, got := 0, Fetched(rq.size, n - bytes, ans), [];
      if n - bytes < rq.size / 2 {
        ret, more := Prefetch(n - bytes, ans);
        if ret > 0 {
          len, got := rq.ReadV(mem, iov, bytes);
          ret := 0;
          return;
        }
      } else {
        if bytes > 0 {
          ret, more := 0, [];
          return;
        }
        ret := SockRecvV(mem, iov, n, ans);
        if ret > 0 {
          len, ret, got := ret, 0, more;
          return;
        }
      }
      if ret != -EINPROGRESS_URING && bytes > 0 {
        ret := 0;
      }
    }

    /** `ofi_bsock_recvv` on any but a single segment. */
    method RecvList(mem: array<T>, iov: seq<Segment>, ans: Reply<T>)
      returns (ret: int, len: nat, ghost more: seq<T>, ghost got: seq<T>, ghost rs: seq<int>)
      requires rq.Valid() && mem != rq.data && Within(Addrs(iov), mem.Length)
      modifies rq`head, rq`tail, rq.data, mem, `taken, `replies
      ensures rq.Valid() && taken == old(taken) + more && old(rq.Contents()) + more == got + rq.Contents()
      ensures len == |got| == Min(|Addrs(iov)|, old(rq.Readable()) + |more|)
      ensures Stored(old(mem[..]), mem[..], Addrs(iov), 0, got)
      ensures Vectored(rq.size, old(rq.Readable()), |Addrs(iov)|, ans, ret, more)
      ensures replies == old(replies) + rs && rs == Heard(rq.size, old(rq.Readable()), |Addrs(iov)|, true, ans)
    {
      ghost var mem0, addrs := mem[..], Addrs(iov);
      rs := Heard(rq.size, rq.Readable(), |addrs|, true, ans);
      var n := TotalLen(iov);
      var avail := rq.Readable();
      var bytes;
      bytes, got := rq.ReadV(mem, iov, 0);
      ghost var mem1 := mem[..];
      assert Stored(mem0, mem1, addrs, 0, got);
      if avail > 0 && bytes == n {
        ret, len, more := 0, bytes, [];
      } else {
        ghost var have, part := got, [];
        ret, len, more, part := RecvVMore(mem, iov, bytes, n, ans);
        StoredThen(have, part, mem0, mem1, mem[..], addrs);
        GotAll(have, more, part, rq.Contents());
        len, got := bytes + len, have + part;
      }
    }

    /**
     `ofi_bsock_recvv`: the same law as for `Recv`, onto the list. With bytes delivered from the
     buffer, a large remainder is left for the next call.
     */
    method RecvV(mem: array<T>, iov: seq<Segment>, ans: Reply<T>)
      returns (ret: int, len: nat, ghost more: seq<T>, ghost got: seq<T>, ghost rs: seq<int>)
      requires rq.Valid() && mem != rq.data && Within(Addrs(iov), mem.Length)
      requires |iov| == 1 && iov[0].len == 0 ==> rq.Contents() == []
      modifies rq`head, rq`tail, rq.data, mem, `taken, `replies
      ensures rq.Valid() && taken == old(taken) + more && old(rq.Contents()) + more == got + rq.Contents()
      ensures len == |got| == Min(|Addrs(iov)|, old(rq.Readable()) + |more|)
      ensures Stored(old(mem[..]), mem[..], Addrs(iov), 0, got)
      ensures replies == old(replies) + rs
      ensures Given(rq.size, old(rq.Readable()), |Addrs(iov)|, |iov| != 1, ans, ret, len, more, rs)
      ensures var have, n := old(rq.Readable()), |Addrs(iov)|;
              if |iov| == 1 then
                if 0 < have && n <= have then ret == 0 && more == []
                else ret == RecvCode(rq.size, have, n - have, ans) && more == Fetched(rq.size, n - have, ans)
              else Vectored(rq.size, have, n, ans, ret, more)
    {
      if |iov| == 1 {
        SingleGather(iov, mem[..]);
        ret, len, more, got, rs := Recv(mem, iov[0].base, iov[0].len, ans);
        SingleRead(iov, old(mem[..]), got);
      } else {
        ret, len, more, got, rs := RecvList(mem, iov, ans);
        VectoredGiven(rq.size, old(rq.Readable()), |Addrs(iov)|, ans, ret, more);
      }
    }

    method PerformSend(mem: array<T>, call: SendCall) returns (o: Outcome, ghost got: seq<int>)
      requires sq.Valid() && mem != sq.data && Fine(call, mem.Length)
      modifies sq`head, sq`tail, sq.data, `wire, `answers
      ensures sq.Valid() && o.len <= |Offered(mem[..], call)|
      ensures Outgoing() == old(Outgoing()) + Slice(Offered(mem[..], call), 0, o.len)
      ensures answers == old(answers) + got && |wire| == |old(wire)| + Took(got)
      ensures Served(sq.size, zerocopySize, old(SendBuffer()), call, |Offered(mem[..], call)|, o, got, SendBuffer())
    {
      match call
      case DoSend(at, n, a1, a2) =>
        o, got := Send(mem, at, n, a1, a2);
      case DoSendV(iov, a1, a2) =>
        o, got := SendV(mem, iov, a1, a2);
      case DoFlush(a1) =>
        var err;
        err, got := Flush(a1);
        o := Outcome(err, 0);
    }

    /**
     Over any run of sends and flushes: every call comes to what the buffer and the socket's answers make
     of it, and the wire, then what is staged, are the accepted bytes in order. `gots` are the socket's
     answers, call by call.
     */
    method SendRun(mem: array<T>, calls: seq<SendCall>)
      returns (outs: seq<Outcome>, ghost stages: seq<Stage>, ghost gots: seq<seq<int>>)
      requires sq.Valid() && mem != sq.data && forall i :: 0 <= i < |calls| ==> Fine(calls[i], mem.Length)
      modifies sq`head, sq`tail, sq.data, `wire, `answers
      ensures sq.Valid() && |outs| == |calls| && answers == old(answers) + Joined(gots)
      ensures AllServed(sq.size, zerocopySize, stages, calls, Offers(mem[..], calls), outs, gots)
      ensures stages[0] == old(SendBuffer()) && stages[|calls|] == SendBuffer()
      ensures Fit(Offers(mem[..], calls), Lens(outs))
      ensures Outgoing() == old(Outgoing()) + Prefixes(Offers(mem[..], calls), Lens(outs))
    {
      ghost var datas := Offers(mem[..], calls);
      ghost var lens := [];
      outs, stages, gots := [], [SendBuffer()], [];
      for k := 0 to |calls|
        invariant sq.Valid() && |outs| == k && lens == Lens(outs) && Fit(datas, lens) && mem[..] == old(mem[..])
        invariant AllServed(sq.size, zerocopySize, stages, calls, datas, outs, gots)
        invariant stages[0] == old(SendBuffer()) && stages[k] == SendBuffer()
        invariant Outgoing() == old(Outgoing()) + Prefixes(datas, lens) && answers == old(answers) + Joined(gots)
      {
        var o;
        ghost var got;
        o, got := PerformSend(mem, calls[k]);
        PrefixesNext(datas, lens, o.len);
        GotAll(old(Outgoing()), Prefixes(datas, lens + [o.len]), Prefixes(datas, lens), Slice(datas[k], 0, o.len));
        JoinedNext(gots, got);
        GotAll(old(answers), Joined(gots + [got]), Joined(gots), got);
        ServedNext(sq.size, zerocopySize, stages, calls, datas, outs, gots, o, got, SendBuffer());
        outs, stages, gots, lens := outs + [o], stages + [SendBuffer()], gots + [got], lens + [o.len];
      }
    }

    /** What the caller finds in the first `len` places of its list. */
    method ReadOut(mem: array<T>, iov: seq<Segment>, len: nat) returns (out: seq<T>)
      requires Within(Addrs(iov), mem.Length) && len <= |Addrs(iov)|
      modifies mem
      ensures mem[..] == old(mem[..]) && out == Gather(mem[..], Window(Addrs(iov), 0, len))
    {
      var buf := new T[len];
      var n := CopyIovBuf(mem, iov, 0, buf, 0, len, IovToBuf);
      out := buf[..];
    }

    /** A plain request, as a call. */
    method AnswerPlain(mem: array<T>, at: nat, n: nat, ans: Reply<T>)
      returns (ret: int, len: nat, ghost more: seq<T>, ghost got: seq<T>, ghost rs: seq<int>)
      requires rq.Valid() && mem != rq.data && Asks(DoRecv(at, n, ans), mem.Length)
      modifies rq`head, rq`tail, rq.data, mem, `taken, `replies
      ensures rq.Valid() && taken == old(taken) + more && replies == old(replies) + rs
      ensures Takes(rq.size, old(rq.Contents()), DoRecv(at, n, ans), ret, more, got, rs, rq.Contents())
      ensures len == |got| && Stored(old(mem[..]), mem[..], Addrs([Segment(at, n)]), 0, got)
    {
      ghost var iov := [Segment(at, n)];
      SingleGather(iov, mem[..]);
      ret, len, more, got, rs := Recv(mem, at, n, ans);
      SingleRead(iov, old(mem[..]), got);
    }

    /** The call itself; the bytes it was given lie in its room, from the start. */
    method Answered(mem: array<T>, call: RecvCall<T>) returns (ret: int, len: nat, ghost more: seq<T>,
                    ghost got: seq<T>, ghost rs: seq<int>)
      requires rq.Valid() && mem != rq.data && Asks(call, mem.Length)
      modifies rq`head, rq`tail, rq.data, mem, `taken, `replies
      ensures rq.Valid() && taken == old(taken) + more && replies == old(replies) + rs
      ensures Takes(rq.size, old(rq.Contents()), call, ret, more, got, rs, rq.Contents())
      ensures len == |got| && Stored(old(mem[..]), mem[..], Addrs(call.Room()), 0, got)
    {
      match call
      case DoRecv(at, n, ans) =>
        ret, len, more, got, rs := AnswerPlain(mem, at, n, ans);
      case DoRecvV(iov, ans) =>
        if |iov| == 1 { SingleGather(iov, mem[..]); }
        ret, len, more, got, rs := RecvV(mem, iov, ans);
    }

    method PerformRecv(mem: array<T>, call: RecvCall<T>)
      returns (ret: int, out: seq<T>, ghost more: seq<T>, ghost got: seq<T>, ghost rs: seq<int>)
      requires rq.Valid() && mem != rq.data && Asks(call, mem.Length)
      modifies rq`head, rq`tail, rq.data, mem, `taken, `replies
      ensures rq.Valid() && taken == old(taken) + more && replies == old(replies) + rs
      ensures Takes(rq.size, old(rq.Contents()), call, ret, more, got, rs, rq.Contents())
      ensures Delivers(old(mem[..]), call, got, out, mem[..])
    {
      var len;
      ret, len, more, got, rs := Answered(mem, call);
      FindsWhatIsStored(old(mem[..]), call, got, mem[..]);
      out := ReadOut(mem, call.Room(), len);
    }

    /**
     Over any run of receives: every call takes from the socket and delivers what the buffer and the
     socket's answer make of it. What the calls delivered, then what is buffered, are the bytes that were
     buffered and taken from the socket, in order. `outs` is read from the caller's memory after each call.
     */
    method RecvRun(mem: array<T>, calls: seq<RecvCall<T>>)
      returns (rets: seq<int>, outs: seq<seq<T>>, ghost mores: seq<seq<T>>, ghost gots: seq<seq<T>>,
               ghost heard: seq<seq<int>>, ghost bufs: seq<seq<T>>, ghost mems: seq<seq<T>>)
      requires rq.Valid() && mem != rq.data && forall i :: 0 <= i < |calls| ==> Asks(calls[i], mem.Length)
      modifies rq`head, rq`tail, rq.data, mem, `taken, `replies
      ensures rq.Valid() && |rets| == |outs| == |calls|
      ensures AllTaken(rq.size, bufs, calls, rets, mores, gots, heard) && AllDelivered(mems, calls, gots, outs)
      ensures bufs[0] == old(rq.Contents()) && bufs[|calls|] == rq.Contents()
      ensures mems[0] == old(mem[..]) && mems[|calls|] == mem[..] && taken == old(taken) + Joined(mores)
      ensures old(rq.Contents()) + Joined(mores) == Joined(gots) + rq.Contents()
      ensures (AllDistinct(calls) ==> outs == gots) && replies == old(replies) + Joined(heard)
    {
      rets, outs, mores, gots, heard, bufs, mems := [], [], [], [], [], [rq.Contents()], [mem[..]];
      for k := 0 to |calls|
        invariant rq.Valid() && |rets| == |outs| == k
        invariant AllTaken(rq.size, bufs, calls, rets, mores, gots, heard) && AllDelivered(mems, calls, gots, outs)
        invariant bufs[0] == old(rq.Contents()) && bufs[k] == rq.Contents()
        invariant mems[0] == old(mem[..]) && mems[k] == mem[..] && taken == old(taken) + Joined(mores)
        invariant replies == old(replies) + Joined(heard)
      {
        var ret, out;
        ghost var m, g, rs;
        ret, out, m, g, rs := PerformRecv(mem, calls[k]);
        TakenNext(rq.size, bufs, calls, rets, mores, gots, heard, ret, m, g, rs, rq.Contents());
        DeliveredNext(mems, calls, gots, outs, g, out, mem[..]);
        JoinedNext(mores, m);
        GotAll(old(taken), Joined(mores + [m]), Joined(mores), m);
        JoinedNext(heard, rs);
        GotAll(old(replies), Joined(heard + [rs]), Joined(heard), rs);
        rets, outs, heard := rets + [ret], outs + [out], heard + [rs];
        mores, gots, bufs, mems := mores + [m], gots + [g], bufs + [rq.Contents()], mems + [mem[..]];
      }
      TakenConserves(rq.size, bufs, calls, rets, mores, gots, heard, |calls|);
      assert mores[..|calls|] == mores && gots[..|calls|] == gots;
      if AllDistinct(calls) { FoundAll(mems, calls, gots, outs); }
    }
  }
}
