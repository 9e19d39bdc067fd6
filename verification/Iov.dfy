/**
 Scatter/gather lists over one flat memory. A list stands for the sequence of
 addresses its segments cover; every copy is stated on that sequence.
 */
module Iov {
  import opened Basics

  datatype Segment = Segment(base: nat, len: nat)

  datatype Direction = BufToIov | IovToBuf

  datatype Place = Place(index: nat, offset: nat) | OutOfRange

  /** The addresses base, base + 1, ..., base + len - 1. */
  ghost function Span(base: nat, len: nat): (r: seq<nat>)
    ensures |r| == len && forall i :: 0 <= i < len ==> r[i] == base + i
  {
    seq(len, i => base + i)
  }

  /** Every address of the list, segment by segment. */
  ghost function Addrs(iov: seq<Segment>): (r: seq<nat>) {
    if iov == [] then [] else Addrs(iov[..|iov| - 1]) + Span(iov[|iov| - 1].base, iov[|iov| - 1].len)
  }

  ghost predicate Within(addrs: seq<nat>, n: nat) {
    forall i :: 0 <= i < |addrs| ==> addrs[i] < n
  }

  ghost predicate Distinct(addrs: seq<nat>) {
    forall i, j :: 0 <= i < j < |addrs| ==> addrs[i] != addrs[j]
  }

  ghost predicate Disjoint(iov: seq<Segment>) {
    forall i, j :: 0 <= i < j < |iov| ==>
      iov[i].base + iov[i].len <= iov[j].base || iov[j].base + iov[j].len <= iov[i].base
  }

  /** Store data[k] at addrs[k], in order. */
  ghost function Scatter<T>(mem: seq<T>, addrs: seq<nat>, data: seq<T>): (r: seq<T>)
    requires |addrs| == |data| && Within(addrs, |mem|)
    ensures |r| == |mem|
  {
    if addrs == [] then mem
    else
      var n := |addrs| - 1;
      Scatter(mem, addrs[..n], data[..n])[addrs[n] := data[n]]
  }

  /** Load from every address, in order. */
  ghost function Gather<T>(mem: seq<T>, addrs: seq<nat>): (r: seq<T>)
    requires Within(addrs, |mem|)
    ensures |r| == |addrs| && forall i :: 0 <= i < |r| ==> r[i] == mem[addrs[i]]
  {
    seq(|addrs|, i requires 0 <= i < |addrs| => mem[addrs[i]])
  }

  /** How many bytes a copy of up to `size` bytes at `offset` moves on a list of `total` bytes. */
  function Extent(total: nat, offset: nat, size: nat): (n: nat)
    ensures n <= size && (n > 0 ==> offset + n <= total)
    ensures n == size || offset + n >= total
  {
    if offset >= total then 0 else if size < total - offset then size else total - offset
  }

  lemma {:induction false} ScatterMiss<T>(mem: seq<T>, addrs: seq<nat>, data: seq<T>, a: nat)
    requires |addrs| == |data| && Within(addrs, |mem|) && a < |mem| && a !in addrs
    ensures Scatter(mem, addrs, data)[a] == mem[a]
  {
    if addrs != [] { ScatterMiss(mem, addrs[..|addrs| - 1], data[..|addrs| - 1], a); }
  }

  lemma {:induction false} ScatterHit<T>(mem: seq<T>, addrs: seq<nat>, data: seq<T>, k: nat)
    requires |addrs| == |data| && Within(addrs, |mem|) && Distinct(addrs) && k < |addrs|
    ensures Scatter(mem, addrs, data)[addrs[k]] == data[k]
  {
    var n := |addrs| - 1;
    if k < n { ScatterHit(mem, addrs[..n], data[..n], k); }
  }

  lemma {:induction false} ScatterConcat<T>(mem: seq<T>, a: seq<nat>, d: seq<T>, b: seq<nat>, e: seq<T>)
    requires |a| == |d| && |b| == |e| && Within(a, |mem|) && Within(b, |mem|)
    ensures Within(a + b, |mem|) && Scatter(mem, a + b, d + e) == Scatter(Scatter(mem, a, d), b, e)
  {
    if b == [] {
      assert a + b == a && d + e == d;
    } else {
      var n := |b| - 1;
      ScatterConcat(mem, a, d, b[..n], e[..n]);
      assert (a + b)[..|a + b| - 1] == a + b[..n] && (d + e)[..|d + e| - 1] == d + e[..n];
    }
  }

  /** A block copy is a scatter to consecutive addresses. */
  lemma {:induction false} ScatterSpan<T>(mem: seq<T>, base: nat, data: seq<T>)
    requires data != [] ==> base + |data| <= |mem|
    ensures Within(Span(base, |data|), |mem|) && Scatter(mem, Span(base, |data|), data) == Overwrite(mem, base, data)
  {
    if data != [] {
      var n := |data| - 1;
      ScatterSpan(mem, base, data[..n]);
      assert Span(base, |data|)[..n] == Span(base, n);
    }
  }

  /** Copy in, then copy out, at the same place: the bytes come back and nothing else changed. */
  lemma RoundTrip<T>(mem: seq<T>, addrs: seq<nat>, data: seq<T>)
    requires |addrs| == |data| && Within(addrs, |mem|) && Distinct(addrs)
    ensures Gather(Scatter(mem, addrs, data), addrs) == data
    ensures forall a :: 0 <= a < |mem| && a !in addrs ==> Scatter(mem, addrs, data)[a] == mem[a]
    ensures Scatter(mem, addrs, Gather(mem, addrs)) == mem
  {
    forall k | 0 <= k < |addrs| ensures Scatter(mem, addrs, data)[addrs[k]] == data[k] {
      ScatterHit(mem, addrs, data, k);
    }
    forall a: nat | a < |mem| && a !in addrs ensures Scatter(mem, addrs, data)[a] == mem[a] {
      ScatterMiss(mem, addrs, data, a);
    }
    var back := Scatter(mem, addrs, Gather(mem, addrs));
    forall a: nat | a < |mem| ensures back[a] == mem[a] {
      if a in addrs {
        var k: nat :| k < |addrs| && addrs[k] == a;
        ScatterHit(mem, addrs, Gather(mem, addrs), k);
      } else {
        ScatterMiss(mem, addrs, Gather(mem, addrs), a);
      }
    }
  }

  lemma {:induction false} InSegment(iov: seq<Segment>, k: nat) returns (i: nat)
    requires k < |Addrs(iov)|
    ensures i < |iov| && iov[i].base <= Addrs(iov)[k] < iov[i].base + iov[i].len
  {
    i := |iov| - 1;
    var front := iov[..i];
    if k < |Addrs(front)| { i := InSegment(front, k); }
  }

  /** Segments that do not overlap cover no address twice. */
  lemma {:induction false} DisjointDistinct(iov: seq<Segment>)
    requires Disjoint(iov)
    ensures Distinct(Addrs(iov))
  {
    if iov != [] {
      var n := |iov| - 1;
      var front, last := Addrs(iov[..n]), Span(iov[n].base, iov[n].len);
      DisjointDistinct(iov[..n]);
      forall i, j | 0 <= i < j < |front + last| ensures (front + last)[i] != (front + last)[j] {
        if i < |front| <= j {
          var s := InSegment(iov[..n], i);
        }
      }
    }
  }

  lemma AddrsNext(iov: seq<Segment>, i: nat)
    requires i < |iov|
    ensures Addrs(iov[..i + 1]) == Addrs(iov[..i]) + Span(iov[i].base, iov[i].len)
  {
    assert iov[..i + 1][..i] == iov[..i];
  }

  lemma {:induction false} AddrsPrefix(iov: seq<Segment>, i: nat)
    requires i <= |iov|
    ensures Addrs(iov[..i]) <= Addrs(iov)
    decreases |iov| - i
  {
    if i < |iov| {
      AddrsNext(iov, i);
      AddrsPrefix(iov, i + 1);
    } else {
      assert iov[..i] == iov;
    }
  }

  /** `ofi_total_iov_len` */
  method TotalLen(iov: seq<Segment>) returns (n: nat)
    ensures n == |Addrs(iov)|
  {
    n := 0;
    for i := 0 to |iov|
      invariant n == |Addrs(iov[..i])|
    {
      AddrsNext(iov, i);
      n := n + iov[i].len;
    }
    assert iov[..|iov|] == iov;
  }

  /** `ofi_iov_locate`: the segment and the offset in it that a flat offset falls on. */
  method Locate(iov: seq<Segment>, offset: nat) returns (p: Place)
    ensures p.OutOfRange? <==> offset >= |Addrs(iov)|
    ensures p.Place? ==> p.index < |iov| && p.offset < iov[p.index].len
                         && |Addrs(iov[..p.index])| + p.offset == offset
                         && Addrs(iov)[offset] == iov[p.index].base + p.offset
  {
    if |iov| == 1 {
      AddrsNext(iov, 0);
      assert iov[..1] == iov;
      return if offset >= iov[0].len then OutOfRange else Place(0, offset);
    }
    var at := 0;
    for i := 0 to |iov|
      invariant at == |Addrs(iov[..i])| <= offset
    {
      AddrsNext(iov, i);
      AddrsPrefix(iov, i + 1);
      if at <= offset < at + iov[i].len {
        return Place(i, offset - at);
      }
      at := at + iov[i].len;
    }
    assert iov[..|iov|] == iov;
    p := OutOfRange;
  }

  /** The addresses that a copy of n bytes at a flat offset touches. */
  ghost function Window(addrs: seq<nat>, offset: nat, n: nat): (r: seq<nat>)
    requires n > 0 ==> offset + n <= |addrs|
    ensures |r| == n && forall a :: a in r ==> a in addrs
  {
    Slice(addrs, offset, n)
  }

  method Memcpy<T>(dst: array<T>, d: nat, src: array<T>, s: nat, n: nat)
    requires dst != src && (n > 0 ==> d + n <= dst.Length && s + n <= src.Length)
    modifies dst
    ensures dst[..] == Overwrite(old(dst[..]), d, Slice(src[..], s, n))
  {
    for i := 0 to n
      invariant forall k :: 0 <= k < dst.Length ==> dst[k] == if d <= k < d + i then src[s + k - d] else old(dst[k])
    {
      dst[d + i] := src[s + i];
    }
  }

  /** `ofi_iov_bytes_to_copy`: how much of one segment a copy uses, and what is left of size and offset. */
  method BytesToCopy(seg: Segment, size: nat, offset: nat) returns (len: nat, at: nat, size': nat, offset': nat)
    ensures len + size' == size && (len > 0 ==> at == seg.base + offset && offset' == 0)
    ensures len == Extent(seg.len, offset, size)
    ensures offset' == if offset > seg.len then offset - seg.len else 0
  {
    len, at := seg.len, 0;
    if offset > len {
      return 0, 0, size, offset - len;
    }
    at := seg.base + offset;
    len := len - offset;
    len := if len < size then len else size;
    size', offset' := size - len, 0;
  }

  /** After segments of p bytes in all: `done` bytes copied, `size` to go, `skip` bytes still to pass over. */
  ghost predicate Progress(p: nat, offset0: nat, size0: nat, done: nat, size: nat, skip: nat) {
    && done + size == size0
    && (size > 0 ==> offset0 + done == p + skip)
    && (done > 0 ==> skip == 0 && offset0 + done <= p)
  }

  lemma ProgressNext(p: nat, offset0: nat, size0: nat, done: nat, size: nat, skip: nat, seglen: nat)
    requires Progress(p, offset0, size0, done, size, skip) && size > 0
    ensures var len := Extent(seglen, skip, size);
            Progress(p + seglen, offset0, size0, done + len, size - len, if skip > seglen then skip - seglen else 0)
  {
  }

  lemma ProgressEnd(total: nat, p: nat, offset0: nat, size0: nat, done: nat, size: nat, skip: nat)
    requires Progress(p, offset0, size0, done, size, skip) && p <= total && (size == 0 || p == total)
    ensures done == Extent(total, offset0, size0) || size0 == 0 == done
  {
  }

  lemma AddrAt(iov: seq<Segment>, i: nat, j: nat)
    requires i < |iov| && j < iov[i].len
    ensures |Addrs(iov[..i])| + j < |Addrs(iov)| && Addrs(iov)[|Addrs(iov[..i])| + j] == iov[i].base + j
  {
    AddrsNext(iov, i);
    AddrsPrefix(iov, i + 1);
  }

  lemma SegmentWithin(iov: seq<Segment>, i: nat, n: nat)
    requires i < |iov| && Within(Addrs(iov), n)
    ensures iov[i].len > 0 ==> iov[i].base + iov[i].len <= n
  {
    if iov[i].len > 0 { AddrAt(iov, i, iov[i].len - 1); }
  }

  /** The bytes of one more segment extend the window by consecutive addresses. */
  lemma WindowNext(iov: seq<Segment>, i: nat, offset0: nat, done: nat, skip: nat, len: nat, n: nat)
    requires i < |iov| && 0 < len && skip + len <= iov[i].len && Within(Addrs(iov), n)
    requires offset0 + done == |Addrs(iov[..i])| + skip
    ensures offset0 + done + len <= |Addrs(iov)| && iov[i].base + skip + len <= n
    ensures Window(Addrs(iov), offset0, done + len) == Window(Addrs(iov), offset0, done) + Span(iov[i].base + skip, len)
  {
    AddrAt(iov, i, skip + len - 1);
    var part, span := Slice(Addrs(iov), offset0 + done, len), Span(iov[i].base + skip, len);
    forall j | 0 <= j < len ensures part[j] == span[j] { AddrAt(iov, i, skip + j); }
    assert part == span;
    SliceThen(Addrs(iov), offset0, done, len);
  }

  /** Memory and buffer after `done` bytes, in terms of what they were. */
  ghost predicate Copied<T>(dir: Direction, mem0: seq<T>, buf0: seq<T>, mem: seq<T>, buf: seq<T>, start: nat,
                            window: seq<nat>)
    requires Within(window, |mem0|) && start + |window| <= |buf0|
  {
    match dir
    case BufToIov => buf == buf0 && mem == Scatter(mem0, window, Slice(buf0, start, |window|))
    case IovToBuf => mem == mem0 && buf == Overwrite(buf0, start, Gather(mem0, window))
  }

  lemma GatherSpan<T>(mem: seq<T>, window: seq<nat>, at: nat, len: nat)
    requires Within(window, |mem|) && (len > 0 ==> at + len <= |mem|)
    ensures Within(window + Span(at, len), |mem|)
    ensures Gather(mem, window + Span(at, len)) == Gather(mem, window) + Slice(mem, at, len)
  {
  }

  lemma ScatterOn<T>(mem: seq<T>, window: seq<nat>, d: seq<T>, at: nat, e: seq<T>)
    requires Within(window, |mem|) && |window| == |d| && (e != [] ==> at + |e| <= |mem|)
    ensures Within(window + Span(at, |e|), |mem|)
    ensures Scatter(mem, window + Span(at, |e|), d + e) == Overwrite(Scatter(mem, window, d), at, e)
  {
    ScatterSpan(Scatter(mem, window, d), at, e);
    ScatterConcat(mem, window, d, Span(at, |e|), e);
  }

  lemma CopiedIn<T>(mem0: seq<T>, buf: seq<T>, mem: seq<T>, start: nat, window: seq<nat>, at: nat, len: nat)
    requires Within(window, |mem0|) && start + |window| + len <= |buf| && (len > 0 ==> at + len <= |mem0|)
    requires Copied(BufToIov, mem0, buf, mem, buf, start, window)
    ensures |mem| == |mem0| && Within(window + Span(at, len), |mem0|)
    ensures Copied(BufToIov, mem0, buf, Overwrite(mem, at, Slice(buf, start + |window|, len)), buf, start,
                   window + Span(at, len))
  {
    var d, e := Slice(buf, start, |window|), Slice(buf, start + |window|, len);
    var window' := window + Span(at, len);
    assert Slice(buf, start, |window'|) == d + e by { SliceThen(buf, start, |window|, len); }
    assert Within(window', |mem0|) && Scatter(mem0, window', d + e) == Overwrite(mem, at, e) by {
      ScatterOn(mem0, window, d, at, e);
    }
  }

  lemma CopiedOut<T>(mem: seq<T>, buf0: seq<T>, buf: seq<T>, start: nat, window: seq<nat>, at: nat, len: nat)
    requires Within(window, |mem|) && start + |window| + len <= |buf0| && (len > 0 ==> at + len <= |mem|)
    requires Copied(IovToBuf, mem, buf0, mem, buf, start, window)
    ensures |buf| == |buf0| && Within(window + Span(at, len), |mem|)
    ensures Copied(IovToBuf, mem, buf0, mem, Overwrite(buf, start + |window|, Slice(mem, at, len)), start,
                   window + Span(at, len))
  {
    GatherSpan(mem, window, at, len);
    OverwriteThen(buf0, start, Gather(mem, window), Slice(mem, at, len));
  }

  /** One memcpy, in the given direction: the window grows by `len` addresses. */
  method CopyPart<T>(mem: array<T>, at: nat, buf: array<T>, start: nat, done: nat, len: nat, dir: Direction,
                     ghost mem0: seq<T>, ghost buf0: seq<T>, ghost window: seq<nat>, ghost window': seq<nat>)
    requires mem != buf && mem.Length == |mem0| && buf.Length == |buf0| && done == |window|
    requires start + done + len <= buf.Length && (len > 0 ==> at + len <= mem.Length)
    requires Within(window, |mem0|) && Copied(dir, mem0, buf0, mem[..], buf[..], start, window)
    requires window' == window + Span(at, len)
    modifies mem, buf
    ensures Within(window', |mem0|) && Copied(dir, mem0, buf0, mem[..], buf[..], start, window')
  {
    ghost var mem1, buf1 := mem[..], buf[..];
    if dir == BufToIov {
      Memcpy(mem, at, buf, start + done, len);
      CopiedIn(mem0, buf1, mem1, start, window, at, len);
    } else {
      Memcpy(buf, start + done, mem, at, len);
      CopiedOut(mem1, buf0, buf1, start, window, at, len);
    }
  }

  /** Before segment i: the counters fit, and the copied bytes lie inside the list. */
  ghost predicate Stage(iov: seq<Segment>, i: nat, offset: nat, size: nat, done: nat, z: nat, skip: nat)
    requires i <= |iov|
  {
    Progress(|Addrs(iov[..i])|, offset, size, done, z, skip) && (done > 0 ==> offset + done <= |Addrs(iov)|)
  }

  lemma AddrsLen(iov: seq<Segment>, i: nat)
    requires i < |iov|
    ensures |Addrs(iov[..i + 1])| == |Addrs(iov[..i])| + iov[i].len <= |Addrs(iov)|
  {
    AddrsNext(iov, i);
    AddrsPrefix(iov, i + 1);
  }

  lemma StageNext(iov: seq<Segment>, i: nat, offset: nat, size: nat, done: nat, z: nat, skip: nat, len: nat)
    requires i < |iov| && Stage(iov, i, offset, size, done, z, skip) && z > 0 && len == Extent(iov[i].len, skip, z)
    ensures Stage(iov, i + 1, offset, size, done + len, z - len, if skip > iov[i].len then skip - iov[i].len else 0)
    ensures len > 0 ==> skip + len <= iov[i].len && offset + done == |Addrs(iov[..i])| + skip
  {
    AddrsLen(iov, i);
    ProgressNext(|Addrs(iov[..i])|, offset, size, done, z, skip, iov[i].len);
  }

  /** The loop body: one segment. */
  method CopySegment<T>(mem: array<T>, iov: seq<Segment>, i: nat, ghost offset: nat, buf: array<T>, start: nat,
                        ghost size: nat, dir: Direction,
                        done: nat, z: nat, skip: nat, ghost mem0: seq<T>, ghost buf0: seq<T>)
    returns (done': nat, z': nat, skip': nat)
    requires mem != buf && i < |iov| && Within(Addrs(iov), mem.Length)
    requires start + size <= buf.Length && |mem0| == mem.Length && |buf0| == buf.Length
    requires Stage(iov, i, offset, size, done, z, skip) && z > 0
    requires Copied(dir, mem0, buf0, mem[..], buf[..], start, Window(Addrs(iov), offset, done))
    modifies mem, buf
    ensures Stage(iov, i + 1, offset, size, done', z', skip')
    ensures Copied(dir, mem0, buf0, mem[..], buf[..], start, Window(Addrs(iov), offset, done'))
  {
    var len, at;
    len, at, z', skip' := BytesToCopy(iov[i], z, skip);
    StageNext(iov, i, offset, size, done, z, skip, len);
    done' := done + len;
    if len > 0 {
      WindowNext(iov, i, offset, done, skip, len, mem.Length);
      CopyPart(mem, at, buf, start, done, len, dir, mem0, buf0,
               Window(Addrs(iov), offset, done), Window(Addrs(iov), offset, done'));
    }
  }

  /** `ofi_copy_iov_buf`. The buffer is the part of `buf` from `start` on. */
  method CopyIovBuf<T>(mem: array<T>, iov: seq<Segment>, offset: nat, buf: array<T>, start: nat, size: nat,
                       dir: Direction)
    returns (done: nat)
    requires mem != buf && Within(Addrs(iov), mem.Length) && start + size <= buf.Length
    modifies mem, buf
    ensures done == Extent(|Addrs(iov)|, offset, size)
    ensures Copied(dir, old(mem[..]), old(buf[..]), mem[..], buf[..], start, Window(Addrs(iov), offset, done))
  {
    var z, skip, i := size, offset, 0;
    done := 0;
    while i < |iov| && z > 0
      invariant i <= |iov| && Stage(iov, i, offset, size, done, z, skip)
      invariant Copied(dir, old(mem[..]), old(buf[..]), mem[..], buf[..], start, Window(Addrs(iov), offset, done))
    {
      done, z, skip := CopySegment(mem, iov, i, offset, buf, start, size, dir, done, z, skip,
                                   old(mem[..]), old(buf[..]));
      i := i + 1;
    }
    AddrsPrefix(iov, i);
    assert iov[..|iov|] == iov;
    ProgressEnd(|Addrs(iov)|, |Addrs(iov[..i])|, offset, size, done, z, skip);
  }

  /** On a single segment the window is one block, so one memcpy does what the loop does. */
  lemma SingleWindow(seg: Segment, offset: nat, size: nat)
    ensures |Addrs([seg])| == seg.len
    ensures var n := Extent(seg.len, offset, size); Window(Addrs([seg]), offset, n) == Span(seg.base + offset, n)
  {
    AddrsNext([seg], 0);
    assert [seg][..1] == [seg] && [seg][..0] == [];
    var n := Extent(seg.len, offset, size);
    if n > 0 { WindowNext([seg], 0, offset, 0, offset, n, seg.base + seg.len); }
  }

  /** The fast path: one memcpy. */
  method CopySingle<T>(mem: array<T>, seg: Segment, offset: nat, buf: array<T>, size: nat, dir: Direction)
    returns (done: nat)
    requires mem != buf && (seg.len > 0 ==> seg.base + seg.len <= mem.Length) && size <= buf.Length
    modifies mem, buf
    ensures done == Extent(seg.len, offset, size) && Within(Span(seg.base + offset, done), mem.Length)
    ensures Copied(dir, old(mem[..]), old(buf[..]), mem[..], buf[..], 0, Span(seg.base + offset, done))
  {
    var room := seg.len - offset;
    done := if offset > seg.len then 0 else if size < room then size else room;
    ghost var span := Span(seg.base + offset, done);
    assert [] + span == span;
    CopyPart(mem, seg.base + offset, buf, 0, 0, done, dir, mem[..], buf[..], [], span);
  }

  /** `ofi_copy_to_iov` and `ofi_copy_from_iov`: both promise what `CopyIovBuf` does, with or without the fast path. */
  method CopyIov<T>(mem: array<T>, iov: seq<Segment>, offset: nat, buf: array<T>, size: nat, dir: Direction)
    returns (done: nat)
    requires mem != buf && Within(Addrs(iov), mem.Length) && size <= buf.Length
    modifies mem, buf
    ensures done == Extent(|Addrs(iov)|, offset, size)
    ensures Copied(dir, old(mem[..]), old(buf[..]), mem[..], buf[..], 0, Window(Addrs(iov), offset, done))
  {
    if |iov| == 1 {
      SegmentWithin(iov, 0, mem.Length);
      SingleWindow(iov[0], offset, size);
      assert iov == [iov[0]];
      done := CopySingle(mem, iov[0], offset, buf, size, dir);
    } else {
      done := CopyIovBuf(mem, iov, offset, buf, 0, size, dir);
    }
  }

  lemma WindowDistinct(iov: seq<Segment>, offset: nat, n: nat)
    requires Disjoint(iov) && (n > 0 ==> offset + n <= |Addrs(iov)|)
    ensures Distinct(Window(Addrs(iov), offset, n))
  {
    DisjointDistinct(iov);
  }

  /**
   On segments that do not overlap: copying `data` in at an offset and copying as much out again at
   the same offset returns the bytes that fitted, and every other byte of memory is as before.
   */
  lemma InThenOut<T>(mem0: seq<T>, iov: seq<Segment>, offset: nat, data: seq<T>, mem: seq<T>, out0: seq<T>, out: seq<T>)
    requires Disjoint(iov) && Within(Addrs(iov), |mem0|) && |out0| == |data|
    requires var w := Window(Addrs(iov), offset, Extent(|Addrs(iov)|, offset, |data|));
             Copied(BufToIov, mem0, data, mem, data, 0, w) && Copied(IovToBuf, mem, out0, mem, out, 0, w)
    ensures var n := Extent(|Addrs(iov)|, offset, |data|);
            && |mem| == |mem0| && out == Overwrite(out0, 0, Slice(data, 0, n))
            && forall a :: 0 <= a < |mem0| && a !in Window(Addrs(iov), offset, n) ==> mem[a] == mem0[a]
  {
    var n := Extent(|Addrs(iov)|, offset, |data|);
    WindowDistinct(iov, offset, n);
    RoundTrip(mem0, Window(Addrs(iov), offset, n), Slice(data, 0, n));
  }
}
