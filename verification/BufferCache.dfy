/** bio.c over the memory disk of memide.c: the buffers, their doubly linked ring and the walks along it. */
module BufferCache {
  import opened Common
  import opened Bytes
  import opened Disk
  import opened CacheModel

  /** The buffer at ring position k; off either end lies the list head, numbered NBUF. */
  function At(ring: seq<nat>, k: int): nat {
    if 0 <= k < |ring| then ring[k] else NBUF
  }

  /** prev and next thread the buffers of ring, in order, into one cycle through the head. */
  ghost predicate Linked(ring: seq<nat>, prev: seq<nat>, next: seq<nat>) {
    && |prev| == |next| == NBUF + 1
    && (forall k :: 0 <= k < |ring| ==> ring[k] < NBUF)
    && (forall j, k :: 0 <= j < k < |ring| ==> ring[j] != ring[k])
    && next[NBUF] == At(ring, 0) && prev[NBUF] == At(ring, |ring| - 1)
    && (forall k {:trigger next[ring[k]]} :: 0 <= k < |ring| ==> next[ring[k]] == At(ring, k + 1))
    && (forall k {:trigger prev[ring[k]]} :: 0 <= k < |ring| ==> prev[ring[k]] == At(ring, k - 1))
  }

  /** Linking a buffer in behind the head makes it the first of the ring. */
  lemma LinkFront(ring: seq<nat>, prev: seq<nat>, next: seq<nat>, b: nat)
    requires Linked(ring, prev, next) && b < NBUF && b !in ring
    ensures var f := next[NBUF];
            Linked([b] + ring, prev[b := NBUF][f := b], next[b := f][NBUF := b])
  {
    var f := next[NBUF];
    var r := [b] + ring;
    var prev', next' := prev[b := NBUF][f := b], next[b := f][NBUF := b];
    forall k | 0 <= k < |r| ensures next'[r[k]] == At(r, k + 1) && prev'[r[k]] == At(r, k - 1) {
      if k > 0 {
        assert r[k] == ring[k - 1];
        assert next[ring[k - 1]] == At(ring, k) && prev[ring[k - 1]] == At(ring, k - 2);
      }
    }
  }

  /** Unlinking a buffer takes it out of the ring. */
  lemma Unlink(ring: seq<nat>, prev: seq<nat>, next: seq<nat>, p: nat)
    requires Linked(ring, prev, next) && p < |ring|
    ensures var b := ring[p];
            Linked(Cut(ring, p), prev[next[b] := prev[b]], next[prev[b] := next[b]])
  {
    var b, r := ring[p], Cut(ring, p);
    var prev', next' := prev[next[b] := prev[b]], next[prev[b] := next[b]];
    UnlinkHead(ring, prev, next, p);
    assert forall k {:trigger next'[r[k]]} :: 0 <= k < |r| ==> next'[r[k]] == At(r, k + 1) by {
      forall k | 0 <= k < |r| ensures next'[r[k]] == At(r, k + 1) { UnlinkNext(ring, prev, next, p, k); }
    }
    assert forall k {:trigger prev'[r[k]]} :: 0 <= k < |r| ==> prev'[r[k]] == At(r, k - 1) by {
      forall k | 0 <= k < |r| ensures prev'[r[k]] == At(r, k - 1) { UnlinkPrev(ring, prev, next, p, k); }
    }
  }

  lemma UnlinkHead(ring: seq<nat>, prev: seq<nat>, next: seq<nat>, p: nat)
    requires Linked(ring, prev, next) && p < |ring|
    ensures var b, r := ring[p], Cut(ring, p);
            && prev[b] <= NBUF && next[b] <= NBUF
            && next[prev[b] := next[b]][NBUF] == At(r, 0) && prev[next[b] := prev[b]][NBUF] == At(r, |r| - 1)
            && (forall k :: 0 <= k < |r| ==> r[k] < NBUF)
            && (forall j, k :: 0 <= j < k < |r| ==> r[j] != r[k])
  {
    assert prev[ring[p]] == At(ring, p - 1) && next[ring[p]] == At(ring, p + 1);
  }

  lemma UnlinkNext(ring: seq<nat>, prev: seq<nat>, next: seq<nat>, p: nat, k: nat)
    requires Linked(ring, prev, next) && p < |ring| && k < |ring| - 1
    ensures prev[ring[p]] <= NBUF
    ensures next[prev[ring[p]] := next[ring[p]]][Cut(ring, p)[k]] == At(Cut(ring, p), k + 1)
  {
    var q := if k < p then k else k + 1;
    assert Cut(ring, p)[k] == ring[q] != ring[p];
    assert next[ring[q]] == At(ring, q + 1);
    assert prev[ring[p]] == At(ring, p - 1) && next[ring[p]] == At(ring, p + 1);
    assert ring[q] == At(ring, p - 1) <==> q == p - 1;
  }

  lemma UnlinkPrev(ring: seq<nat>, prev: seq<nat>, next: seq<nat>, p: nat, k: nat)
    requires Linked(ring, prev, next) && p < |ring| && k < |ring| - 1
    ensures next[ring[p]] <= NBUF
    ensures prev[next[ring[p]] := prev[ring[p]]][Cut(ring, p)[k]] == At(Cut(ring, p), k - 1)
  {
    var q := if k < p then k else k + 1;
    assert Cut(ring, p)[k] == ring[q] != ring[p];
    assert prev[ring[q]] == At(ring, q - 1);
    assert prev[ring[p]] == At(ring, p - 1) && next[ring[p]] == At(ring, p + 1);
    assert ring[q] == At(ring, p + 1) <==> q == p + 1;
  }

  /** The ring binit builds: the last buffer linked comes first. */
  function Descending(n: nat): (r: seq<nat>)
    ensures |r| == n && forall k :: 0 <= k < n ==> r[k] == n - 1 - k
  {
    if n == 0 then [] else [n - 1] + Descending(n - 1)
  }

  lemma FreshCache(c: Cache)
    requires |c.bufs| == NBUF && c.ring == Descending(NBUF)
    requires forall i :: 0 <= i < NBUF ==> c.bufs[i] == Buf(false, false, 0, 0, false, 0, ZeroBlock)
    ensures Fresh(c) && Good(c, c.disk, {})
  {
    forall i: nat | i < NBUF ensures i in c.ring {
      assert c.ring[NBUF - 1 - i] == i;
    }
  }

  class BufferCache {
    const buf: array<Buf>
    const prev: array<nat>
    const next: array<nat>
    var disk: Disk
    ghost var ring: seq<nat>
    ghost var trace: seq<Write>    // the block writes made so far
    ghost var view: Disk           // the block array the cache stands for
    ghost var pins: set<nat>       // the blocks log_write may have pinned

    ghost predicate Frame() {
      buf.Length == NBUF && prev.Length == next.Length == NBUF + 1 && prev != next
    }

    ghost function State(): Cache
      reads this, buf
    {
      Cache(buf[..], ring, disk)
    }

    ghost predicate Valid()
      reads this, buf, prev, next
    {
      Frame() && Linked(ring, prev[..], next[..]) && Good(State(), view, pins)
    }

    /** binit: link the buffers one by one behind the head. */
    constructor (d: Disk)
      ensures Valid() && Fresh(State()) && disk == d && view == d && pins == {} && trace == []
      ensures fresh(buf) && fresh(prev) && fresh(next)
    {
      buf := new Buf[NBUF](i => Buf(false, false, 0, 0, false, 0, ZeroBlock));
      prev := new nat[NBUF + 1](i => NBUF);
      next := new nat[NBUF + 1](i => NBUF);
      disk, ring, trace, view, pins := d, [], [], d, {};
      new;
      for b := 0 to NBUF
        invariant Frame() && fresh(buf) && fresh(prev) && fresh(next)
        invariant Linked(ring, prev[..], next[..]) && ring == Descending(b)
        invariant disk == d && view == d && pins == {} && trace == []
        invariant forall i :: 0 <= i < NBUF ==> buf[i] == Buf(false, false, 0, 0, false, 0, ZeroBlock)
      {
        InsertFront(b);
      }
      FreshCache(State());
    }

    /** Put a buffer that is not in the ring at its front, right after the head. */
    method InsertFront(b: nat)
      requires Frame() && Linked(ring, prev[..], next[..]) && b < NBUF && b !in ring
      modifies this`ring, prev, next
      ensures Linked(ring, prev[..], next[..]) && ring == [b] + old(ring)
    {
      LinkFront(ring, prev[..], next[..], b);
      var f := next[NBUF];
      next[b] := f;
      prev[b] := NBUF;
      prev[f] := b;
      next[NBUF] := b;
      ring := [b] + ring;
      assert prev[..] == old(prev[..])[b := NBUF][f := b];
      assert next[..] == old(next[..])[b := f][NBUF := b];
    }

    /** Take the buffer at place p out of the ring; its own pointers stay as they are. */
    method Remove(b: nat, ghost p: nat)
      requires Frame() && Linked(ring, prev[..], next[..]) && p < |ring| && ring[p] == b
      modifies this`ring, prev, next
      ensures Linked(ring, prev[..], next[..]) && ring == Cut(old(ring), p)
    {
      Unlink(ring, prev[..], next[..], p);
      assert next[..][ring[p]] == At(ring, p + 1) && prev[..][ring[p]] == At(ring, p - 1);
      prev[next[b]] := prev[b];
      next[prev[b]] := next[b];
      ring := Cut(ring, p);
      assert prev[..] == old(prev[..])[old(next[b]) := old(prev[b])];
      assert next[..] == old(next[..])[old(prev[b]) := old(next[b])];
    }

    /** bget's walk from the head along next, looking for the block. NBUF means not cached. */
    method FindCached(dev: uint, blockno: uint) returns (b: nat)
      requires Valid()
      ensures b == At(ring, FirstHit(State().bufs, ring, 0, dev, blockno))
    {
      ghost var p := 0;
      b := next[NBUF];
      while b != NBUF
        invariant 0 <= p <= NBUF && b == At(ring, p)
        invariant FirstHit(buf[..], ring, 0, dev, blockno) == FirstHit(buf[..], ring, p, dev, blockno)
        decreases NBUF - p
      {
        if buf[b].dev == dev && buf[b].blockno == blockno {
          return;
        }
        assert next[..][ring[p]] == At(ring, p + 1);
        b := next[b];
        p := p + 1;
      }
    }

    /** bget's walk from the head along prev, looking for a buffer to recycle. NBUF means none. */
    method FindUnused() returns (b: nat)
      requires Valid()
      ensures b == At(ring, LastUnused(State().bufs, ring, NBUF))
    {
      ghost var p := NBUF;
      b := prev[NBUF];
      while b != NBUF
        invariant 0 <= p <= NBUF && b == At(ring, p - 1)
        invariant LastUnused(buf[..], ring, NBUF) == LastUnused(buf[..], ring, p)
        decreases p
      {
        if buf[b].refcnt == 0 && !buf[b].dirty {
          return;
        }
        assert prev[..][ring[p - 1]] == At(ring, p - 2);
        b := prev[b];
        p := p - 1;
      }
    }

    /** bget under bcache.lock. None is the "no buffers" panic. */
    method Bget(dev: uint, blockno: uint) returns (r: Option<nat>)
      requires Valid()
      modifies buf
      ensures r == Pick(old(State()), dev, blockno)
      ensures r.None? ==> State() == old(State())
      ensures r.Some? ==> Some(State()) == Next(old(State()), Get(dev, blockno))
      ensures r.Some? ==> Gotten(old(buf[..]), buf[..], dev, blockno, r.value)
      ensures Valid()
    {
      ghost var c := State();
      var b := FindCached(dev, blockno);
      if b != NBUF {
        r := Some(b);
        GoodNext(c, Get(dev, blockno), view, pins);
        buf[b] := buf[b].(refcnt := buf[b].refcnt + 1);
      } else {
        b := FindUnused();
        if b == NBUF { return None; }
        r := Some(b);
        GoodNext(c, Get(dev, blockno), view, pins);
        buf[b] := buf[b].(dev := dev, blockno := blockno, valid := false, dirty := false, refcnt := 1);
      }
      assert buf[..] == c.bufs[b := GetBuf(c.bufs[b], dev, blockno)];
      GetIs(c, dev, blockno, b);
    }

    /** iderw: write a dirty buffer to the disk, else read it; false is one of its panics. */
    method Iderw(i: nat) returns (ok: bool)
      requires Frame() && i < NBUF
      modifies buf, this`disk, this`trace
      ensures ok <==> old(buf[i].locked && (!buf[i].valid || buf[i].dirty) && OnDisk(State(), buf[i]))
      ensures !ok ==> State() == old(State()) && trace == old(trace)
      ensures ok && old(buf[i].dirty) ==>
                && State() == old(State().(bufs := State().bufs[i := buf[i].(valid := true, dirty := false)],
                                           disk := disk[buf[i].blockno := buf[i].data]))
                && trace == old(trace + [Write(buf[i].blockno, buf[i].data)])
      ensures ok && !old(buf[i].dirty) ==>
                && State() == old(State().(bufs := State().bufs[i := buf[i].(valid := true, data := disk[buf[i].blockno])]))
                && trace == old(trace)
    {
      var b := buf[i];
      if !b.locked || (b.valid && !b.dirty) || b.dev != 1 || b.blockno >= |disk| {
        return false;
      }
      if b.dirty {
        disk := disk[b.blockno := b.data];
        trace := trace + [Write(b.blockno, b.data)];
        buf[i] := b.(dirty := false, valid := true);
      } else {
        buf[i] := b.(data := disk[b.blockno], valid := true);
      }
      return true;
    }

    /** A step on buffer i by the process that holds it: a change to its data, or log_write's pin. */
    method Put(i: nat, b: Buf, ghost e: Step)
      requires Valid() && i < NBUF && Allowed(State(), e)
      requires Next(State(), e) == Some(State().(bufs := State().bufs[i := b]))
      modifies buf, this`view, this`pins
      ensures Valid() && Some(State()) == Next(old(State()), e)
      ensures view == ViewAfter(old(State()), e, old(view)) && pins == PinsAfter(old(State()), e, old(pins))
    {
      GoodNext(State(), e, view, pins);
      view, pins := ViewAfter(State(), e, view), PinsAfter(State(), e, pins);
      buf[i] := b;
      assert buf[..] == old(buf[..])[i := b];
    }

    /** acquiresleep, then iderw when the buffer is not valid; false is iderw's panic. */
    method FillLocked(i: nat) returns (ok: bool)
      requires Valid() && i < NBUF && buf[i].refcnt >= 1 && !buf[i].locked
      modifies buf, this`disk, this`trace
      ensures Valid() && trace == old(trace)
      ensures State() == old(State().(bufs := State().bufs[i := FillBuf(State(), buf[i])]))
      ensures ok <==> OnDisk(old(State()), old(buf[i]))
    {
      ghost var c := State();
      FillKeeps(c, view, pins, i);
      assert BufOk(c, c.bufs[i]);
      buf[i] := buf[i].(locked := true);
      ok := true;
      if !buf[i].valid {
        ok := Iderw(i);
      }
      assert buf[..] == c.bufs[i := FillBuf(c, c.bufs[i])];
    }

    /** bread: find or recycle, lock, and read when the buffer is not valid. None is a panic: bget found no
        buffer, or the block is not on the disk. Nobody else may hold the block, or acquiresleep would wait. */
    method Bread(dev: uint, blockno: uint) returns (r: Option<nat>)
      requires Valid()
      requires forall i :: 0 <= i < NBUF && Matches(buf[i], dev, blockno) ==> !buf[i].locked
      modifies buf, this`disk, this`trace
      ensures Valid() && disk == old(disk) && trace == old(trace)
      ensures r == if dev == 1 && blockno < |disk| then Pick(old(State()), dev, blockno) else None
      ensures r.Some? ==> Held(State(), view, r.value, dev, blockno) && !old(buf[r.value].locked)
      ensures r.Some? ==> buf[r.value].refcnt == old(buf[r.value].refcnt) + 1
      ensures r.Some? ==> forall j :: 0 <= j < NBUF && j != r.value ==> buf[j] == old(buf[j])
    {
      ghost var c := State();
      r := Bget(dev, blockno);
      if r.Some? {
        ghost var d := State();
        BreadKeeps(c, view, pins, dev, blockno, r.value, d, d.(bufs := d.bufs[r.value := FillBuf(d, d.bufs[r.value])]));
        var ok := FillLocked(r.value);
        if !ok { r := None; }
      }
    }

    /** bwrite: mark the buffer dirty and hand it to the disk. False is the panic on a buffer that is not
        locked. */
    method Bwrite(i: nat) returns (ok: bool)
      requires Valid() && i < NBUF && (buf[i].locked ==> buf[i].valid)
      modifies buf, this`disk, this`trace, this`pins
      ensures Valid() && (ok <==> old(buf[i].locked))
      ensures !ok ==> State() == old(State()) && pins == old(pins) && trace == old(trace)
      ensures ok ==>
                && Some(State()) == Next(old(State()), Flush(i))
                && pins == old(pins) - {old(buf[i].blockno) as nat}
                && trace == old(trace) + [Write(old(buf[i].blockno), old(buf[i].data))]
    {
      ghost var c := State();
      assert BufOk(c, c.bufs[i]);
      if !buf[i].locked { return false; }
      GoodNext(c, Flush(i), view, pins);
      buf[i] := buf[i].(dirty := true);
      ok := Iderw(i);
      pins := pins - {c.bufs[i].blockno as nat};
      assert buf[..] == c.bufs[i := c.bufs[i].(valid := true, dirty := false)];
    }

    method MoveFront(i: nat)
      requires Frame() && Linked(ring, prev[..], next[..]) && i in ring
      modifies this`ring, prev, next
      ensures Linked(ring, prev[..], next[..]) && ring == MoveToFront(old(ring), i)
      ensures MovedFront(old(ring), ring, i) && next[NBUF] == i
    {
      MoveToFrontMoves(ring, i);
      ghost var p :| 0 <= p < |ring| && ring[p] == i;
      WithoutIsCut(ring, p);
      Remove(i, p);
      assert i !in ring;
      InsertFront(i);
    }

    /** The rest of brelse, under bcache.lock: drop the reference, and move a buffer nobody waits for to the
        front. */
    method DropReference(i: nat)
      requires Frame() && Linked(ring, prev[..], next[..]) && i in ring && buf[i].refcnt >= 1
      modifies buf, prev, next, this`ring
      ensures Linked(ring, prev[..], next[..]) && buf[..] == old(buf[..])[i := old(buf[i]).(refcnt := old(buf[i]).refcnt - 1)]
      ensures if old(buf[i].refcnt) == 1 then ring == MoveToFront(old(ring), i) && MovedFront(old(ring), ring, i) && next[NBUF] == i else ring == old(ring)
    {
      buf[i] := buf[i].(refcnt := buf[i].refcnt - 1);
      assert buf[..] == old(buf[..])[i := old(buf[i]).(refcnt := old(buf[i]).refcnt - 1)];
      if buf[i].refcnt == 0 {
        MoveFront(i);
      }
    }

    /** brelse. False is the panic on a buffer that is not locked. */
    method Brelse(i: nat) returns (ok: bool)
      requires Valid() && i < NBUF && (buf[i].locked ==> Allowed(State(), Unlock(i)))
      modifies buf, prev, next, this`ring
      ensures Valid() && (ok <==> old(buf[i].locked))
      ensures if ok then Some(State()) == Released(old(State()), i) else State() == old(State())
      ensures ok ==> GivenUp(old(buf[..]), buf[..], i)
      ensures if ok && old(buf[i].refcnt) == 1 then MovedFront(old(ring), ring, i) && next[NBUF] == i else ring == old(ring)
    {
      var b := buf[i];
      if !b.locked { return false; }
      ReleaseKeeps(State(), view, pins, i);
      assert i in ring;
      buf[i] := b.(locked := false);
      DropReference(i);
      assert buf[..] == old(buf[..])[i := b.(locked := false, refcnt := b.refcnt - 1)];
      GivenUpIs(old(buf[..]), buf[..], i, b);
      return true;
    }
  }
}
