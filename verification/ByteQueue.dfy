/**
 The staging buffer of a streaming socket: a byte run in a fixed block, filled at the tail and drained at the head.
 */
module ByteQueues {
  import opened Basics
  import opened Iov

  const BYTEQ_SIZE: nat := 9000

  class ByteQueue<T(0)> {
    const size: nat
    const data: array<T>
    var head: nat
    var tail: nat

    ghost predicate Valid()
      reads `head, `tail
    {
      size <= data.Length && head <= tail <= size && (head == tail ==> head == 0)
    }

    ghost function Contents(): (s: seq<T>)
      requires Valid()
      reads `head, `tail, data
    {
      Slice(data[..], head, tail - head)
    }

    /** `ofi_byteq_init`: the requested size is cut to the block, and a negative one to zero. */
    constructor (size: int)
      ensures Valid() && Contents() == [] && fresh(data)
      ensures this.size == if size < 0 then 0 else if size > BYTEQ_SIZE then BYTEQ_SIZE else size
    {
      this.size := if size > BYTEQ_SIZE then BYTEQ_SIZE else if size >= 0 then size else 0;
      data := new T[BYTEQ_SIZE];
      head, tail := 0, 0;
    }

    function Readable(): (n: nat)
      requires Valid()
      reads `head, `tail
    {
      tail - head
    }

    function Writeable(): (n: nat)
      requires Valid()
      reads `head, `tail
    {
      size - tail
    }

    /** `ofi_byteq_consume` */
    method Consume(n: nat)
      requires Valid() && n <= Readable()
      modifies `head, `tail
      ensures Valid() && Contents() == Slice(old(Contents()), n, old(Readable()) - n)
      ensures Writeable() == if n == old(Readable()) then size else old(Writeable())
    {
      if n == Readable() {
        head, tail := 0, 0;
      } else {
        head := head + n;
      }
    }

    /** `ofi_byteq_add`: the n bytes behind the tail now belong to the queue. */
    method Add(n: nat)
      requires Valid() && n <= Writeable()
      modifies `tail
      ensures Valid() && Contents() == old(Contents()) + old(Slice(data[..], tail, n))
    {
      tail := tail + n;
    }

    /** `ofi_byteq_read`: as many bytes as are there and as fit. */
    method Read(buf: array<T>, at: nat, len: nat) returns (n: nat, ghost got: seq<T>)
      requires Valid() && buf != data && (len > 0 ==> at + len <= buf.Length)
      modifies `head, `tail, buf
      ensures Valid() && n == |got| == Extent(len, 0, old(Readable()))
      ensures old(Contents()) == got + Contents() && buf[..] == Overwrite(old(buf[..]), at, got)
    {
      var avail := Readable();
      if avail == 0 {
        return 0, [];
      }
      n := if len < avail then len else avail;
      got := Slice(data[..], head, n);
      Memcpy(buf, at, data, head, n);
      if len < avail {
        head := head + len;
      } else {
        head, tail := 0, 0;
      }
    }

    /** `ofi_byteq_write` */
    method Write(src: array<T>, at: nat, len: nat)
      requires Valid() && src != data && (len > 0 ==> at + len <= src.Length) && len <= Writeable()
      modifies `tail, data
      ensures Valid() && head == old(head) && tail == old(tail) + len
      ensures Contents() == old(Contents()) + Slice(src[..], at, len)
    {
      Memcpy(data, tail, src, at, len);
      tail := tail + len;
    }

    /** `ofi_byteq_writev` */
    method WriteV(mem: array<T>, iov: seq<Segment>)
      requires Valid() && mem != data && Within(Addrs(iov), mem.Length) && |Addrs(iov)| <= Writeable()
      modifies `tail, data
      ensures Valid() && head == old(head) && tail == old(tail) + |Addrs(iov)|
      ensures Contents() == old(Contents()) + Gather(mem[..], Addrs(iov))
    {
      if |iov| == 1 {
        SegmentWithin(iov, 0, mem.Length);
        SingleGather(iov, mem[..]);
        Write(mem, iov[0].base, iov[0].len);
        return;
      }
      for i := 0 to |iov|
        invariant Valid() && head == old(head) && tail == old(tail) + |Addrs(iov[..i])|
        invariant Within(Addrs(iov[..i]), mem.Length)
        invariant Contents() == old(Contents()) + Gather(mem[..], Addrs(iov[..i]))
      {
        AddrsLen(iov, i);
        AddrsNext(iov, i);
        SegmentWithin(iov, i, mem.Length);
        Write(mem, iov[i].base, iov[i].len);
        GatherSpan(mem[..], Addrs(iov[..i]), iov[i].base, iov[i].len);
      }
      assert iov[..|iov|] == iov;
    }

    /** `ofi_byteq_readv`: like `Read`, onto the list from an offset on. */
    method ReadV(mem: array<T>, iov: seq<Segment>, offset: nat) returns (n: nat, ghost got: seq<T>)
      requires Valid() && mem != data && Within(Addrs(iov), mem.Length)
      modifies `head, `tail, mem, data
      ensures Valid() && n == |got| == Extent(|Addrs(iov)|, offset, old(Readable())) && data[..] == old(data[..])
      ensures old(Contents()) == got + Contents()
      ensures mem[..] == Scatter(old(mem[..]), Window(Addrs(iov), offset, n), got)
    {
      if |iov| == 1 && offset == 0 {
        SegmentWithin(iov, 0, mem.Length);
        n, got := Read(mem, iov[0].base, iov[0].len);
        SingleRead(iov, old(mem[..]), got);
      } else {
        var avail := Readable();
        if avail == 0 {
          return 0, [];
        }
        n := CopyIovBuf(mem, iov, offset, data, head, avail, BufToIov);
        got := Slice(data[..], head, n);
        if n < avail {
          head := head + n;
        } else {
          head, tail := 0, 0;
        }
      }
    }
  }

  lemma SingleGather<T>(iov: seq<Segment>, mem: seq<T>)
    requires |iov| == 1 && Within(Addrs(iov), |mem|)
    ensures |Addrs(iov)| == iov[0].len && (iov[0].len > 0 ==> iov[0].base + iov[0].len <= |mem|)
    ensures Gather(mem, Addrs(iov)) == Slice(mem, iov[0].base, iov[0].len)
  {
    AddrsNext(iov, 0);
    assert iov[..1] == iov;
    SegmentWithin(iov, 0, |mem|);
    GatherSpan(mem, [], iov[0].base, iov[0].len);
    assert [] + Span(iov[0].base, iov[0].len) == Addrs(iov);
  }

  /** On one segment, from its start, the block copy is the scatter. */
  lemma SingleRead<T>(iov: seq<Segment>, mem: seq<T>, got: seq<T>)
    requires |iov| == 1 && Within(Addrs(iov), |mem|) && |got| <= iov[0].len
    ensures |Addrs(iov)| == iov[0].len && (got != [] ==> iov[0].base + |got| <= |mem|)
    ensures Scatter(mem, Window(Addrs(iov), 0, |got|), got) == Overwrite(mem, iov[0].base, got)
  {
    assert iov == [iov[0]];
    SegmentWithin(iov, 0, |mem|);
    SingleWindow(iov[0], 0, |got|);
    ScatterSpan(mem, iov[0].base, got);
  }
}
