/** The ring buffer of xv6-o/pipe.c: 512 bytes and two 32-bit counters that are never reset, only wrap. */
module Pipe {
  import opened Bytes
  import opened PipeModel

  const WRAP: nat := 0x1_0000_0000

  /** The counters are the stream's positions in 32 bits. As the buffer is never more than PIPESIZE ahead,
      and PIPESIZE divides 2^32, comparing them and indexing with them still comes out right. */
  lemma Wrapped(consumed: nat, written: nat)
    requires consumed <= written <= consumed + PIPESIZE
    ensures written % WRAP == consumed % WRAP <==> written == consumed
    ensures written % WRAP == (consumed % WRAP + PIPESIZE) % WRAP <==> written == consumed + PIPESIZE
    ensures written % WRAP % PIPESIZE == written % PIPESIZE
    ensures consumed % WRAP % PIPESIZE == consumed % PIPESIZE
  {
    WrapEqual(consumed, written);
    WrapFull(consumed, written);
    WrapIndex(consumed);
    WrapIndex(written);
  }

  lemma WrapEqual(consumed: nat, written: nat)
    requires consumed <= written <= consumed + PIPESIZE
    ensures written % WRAP == consumed % WRAP <==> written == consumed
  {
  }

  lemma WrapFull(consumed: nat, written: nat)
    requires consumed <= written <= consumed + PIPESIZE
    ensures written % WRAP == (consumed % WRAP + PIPESIZE) % WRAP <==> written == consumed + PIPESIZE
  {
    var q, r := consumed / WRAP, consumed % WRAP;
    assert consumed + PIPESIZE == q * WRAP + (r + PIPESIZE);
    WrapMany(q, r + PIPESIZE);
    WrapEqual(written, consumed + PIPESIZE);
  }

  lemma WrapMany(q: nat, x: nat)
    ensures (q * WRAP + x) % WRAP == x % WRAP
  {
    var j, m := x / WRAP, x % WRAP;
    assert q * WRAP + x == (q + j) * WRAP + m;
  }

  lemma WrapIndex(x: nat)
    ensures x % WRAP % PIPESIZE == x % PIPESIZE
  {
    var q, r := x / WRAP, x % WRAP;
    var j, m := r / PIPESIZE, r % PIPESIZE;
    assert x == (q * 0x80_0000 + j) * PIPESIZE + m;
  }

  lemma WrapNext(x: nat)
    ensures (x % WRAP + 1) % WRAP == (x + 1) % WRAP
  {
    var q := x / WRAP;
    WrapMany(q, x % WRAP + 1);
    assert x + 1 == q * WRAP + (x % WRAP + 1);
  }

  /** Distinct positions of the bytes held have distinct places in the ring. */
  lemma Places(consumed: nat, i: nat, j: nat)
    requires consumed <= i < j < consumed + PIPESIZE
    ensures i % PIPESIZE != j % PIPESIZE
  {
  }

  class Pipe {
    const data: array<byte>
    var nread: uint
    var nwrite: uint
    var readopen: bool
    var writeopen: bool
    ghost var stream: Stream

    ghost predicate Valid()
      reads this, data
    {
      && data.Length == PIPESIZE && Bounded(stream) && stream.readopen == readopen && stream.writeopen == writeopen
      && nread == stream.consumed % WRAP && nwrite == |stream.accepted| % WRAP
      && forall k :: stream.consumed <= k < |stream.accepted| ==> data[k % PIPESIZE] == stream.accepted[k].b
    }

    /** pipealloc */
    constructor ()
      ensures Valid() && fresh(data) && stream == Stream([], 0, true, true)
    {
      data := new byte[PIPESIZE];
      nread, nwrite, readopen, writeopen := 0, 0, true, true;
      stream := Stream([], 0, true, true);
    }

    /** Store one byte at the write counter and advance it. */
    method Put(b: byte, ghost call: nat, ghost at: nat)
      requires Valid() && Held(stream) < PIPESIZE
      modifies this`nwrite, this`stream, data
      ensures Valid() && stream == old(stream).(accepted := old(stream).accepted + [Item(b, call, at)])
    {
      ghost var c, w := stream.consumed, |stream.accepted|;
      Wrapped(c, w);
      WrapNext(w);
      forall k | c <= k < w ensures k % PIPESIZE != w % PIPESIZE {
        Places(c, k, w);
      }
      data[nwrite % PIPESIZE] := b;
      nwrite := (nwrite + 1) % WRAP;
      stream := stream.(accepted := stream.accepted + [Item(b, call, at)]);
    }

    /** One turn of pipewrite, from byte `from` of its buffer to its return or its sleep. */
    method Pipewrite(addr: seq<byte>, ghost call: nat, from: nat, killed: bool) returns (i: nat, r: WriteEnd)
      requires Valid() && from <= |addr|
      modifies this`nwrite, this`stream, data
      ensures Valid() && i == WriteStops(old(stream), |addr|, from)
      ensures (stream, r) == WriteTurn(old(stream), addr, call, from, killed)
      ensures i == from + Min(|addr| - from, PIPESIZE - old(Held(stream))) && nread == old(nread)
      ensures r == if i == |addr| then Wrote else if !readopen || killed then WriteFailed else WriteSleeps
    {
      ghost var s := stream;
      i := from;
      while i < |addr|
        invariant Valid() && from <= i <= |addr| && Held(s) + i - from <= PIPESIZE
        invariant stream == s.(accepted := s.accepted + Items(addr, call, from, i))
      {
        Wrapped(stream.consumed, |stream.accepted|);
        if nwrite == (nread + PIPESIZE) % WRAP {
          r := if !readopen || killed then WriteFailed else WriteSleeps;
          return;
        }
        Put(addr[i], call, i);
        i := i + 1;
        assert s.accepted + Items(addr, call, from, i - 1) + [Item(addr[i - 1], call, i - 1)] == s.accepted + Items(addr, call, from, i);
      }
      r := Wrote;
    }

    /** Take the byte at the read counter and advance it. */
    method Get() returns (b: byte)
      requires Valid() && Held(stream) > 0
      modifies this`nread, this`stream
      ensures Valid() && stream == old(stream).(consumed := old(stream).consumed + 1)
      ensures b == old(stream).accepted[old(stream).consumed].b
    {
      Wrapped(stream.consumed, |stream.accepted|);
      WrapNext(stream.consumed);
      b := data[nread % PIPESIZE];
      nread := (nread + 1) % WRAP;
      stream := stream.(consumed := stream.consumed + 1);
    }

    predicate Empty()
      requires Valid()
      reads this, data
      ensures Empty() <==> Held(stream) == 0
    {
      Wrapped(stream.consumed, |stream.accepted|);
      nread == nwrite
    }

    /** piperead's copying loop. */
    method CopyOut(n: nat) returns (addr: seq<byte>)
      requires Valid()
      modifies this`nread, this`stream
      ensures Valid() && |addr| == Min(n, Held(old(stream)))
      ensures stream == old(stream).(consumed := old(stream).consumed + |addr|)
      ensures addr == Payload(stream.accepted, old(stream).consumed, stream.consumed)
    {
      ghost var s := stream;
      addr := [];
      while |addr| < n
        invariant Valid() && |addr| <= n && s.consumed + |addr| <= |s.accepted| && stream == s.(consumed := s.consumed + |addr|)
        invariant addr == Payload(s.accepted, s.consumed, stream.consumed)
      {
        if Empty() { break; }
        var b := Get();
        addr := addr + [b];
      }
    }

    /** One turn of piperead, to its return or its sleep. */
    method Piperead(n: nat, killed: bool) returns (r: ReadEnd)
      requires Valid()
      modifies this`nread, this`stream
      ensures Valid() && (stream, r) == ReadTurn(old(stream), n, killed)
      ensures r.Read? <==> old(Held(stream)) > 0 || !writeopen
      ensures r.Read? ==> |r.got| == Min(n, old(Held(stream))) && forall k :: 0 <= k < |r.got| ==> r.got[k] == old(stream.accepted[stream.consumed + k].b)
      ensures r == ReadFailed ==> killed
      ensures r == ReadSleeps ==> !killed
    {
      if Empty() && writeopen {
        return if killed then ReadFailed else ReadSleeps;
      }
      var addr := CopyOut(n);
      r := Read(addr);
    }

    /** pipeclose: this end is closed, and the other end and the bytes held stay as they are. The page can go
        when both ends are closed. */
    method Pipeclose(writable: bool) returns (unused: bool)
      requires Valid()
      modifies this`readopen, this`writeopen, this`stream
      ensures Valid() && stream == CloseEnd(old(stream), writable)
      ensures writeopen == (old(writeopen) && !writable) && readopen == (old(readopen) && writable)
      ensures stream.accepted == old(stream).accepted && stream.consumed == old(stream).consumed
      ensures unused <==> !readopen && !writeopen
    {
      if writable {
        writeopen := false;
      } else {
        readopen := false;
      }
      stream := CloseEnd(stream, writable);
      unused := !readopen && !writeopen;
    }
  }
}
