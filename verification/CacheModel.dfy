/** What the buffer cache of bio.c does, as functions on its state, and the plain block array it refines.
    A step is one section that runs under bcache.lock or under a buffer's sleep lock, or releasesleep, so a
    sequence of steps is any interleaving of the processes that use the cache. */
module CacheModel {
  import opened Common
  import opened Bytes
  import opened Disk

  const NBUF: nat := 30

  /** struct buf without its list links. */
  datatype Buf = Buf(valid: bool, dirty: bool, dev: uint, blockno: uint, locked: bool, refcnt: nat, data: Block)

  /** ring lists the buffers from the most to the least recently used. */
  datatype Cache = Cache(bufs: seq<Buf>, ring: seq<nat>, disk: Disk)

  datatype Step =
    | Get(dev: uint, blockno: uint)     // bget under bcache.lock
    | Lock(i: nat)                      // acquiresleep
    | Read(i: nat)                      // iderw on a buffer that is not valid
    | Modify(i: nat, data: Block)       // the holder changes b->data
    | Pin(i: nat)                       // log_write sets B_DIRTY
    | Flush(i: nat)                     // bwrite
    | Unlock(i: nat)                    // brelse: releasesleep
    | Drop(i: nat)                      // brelse: the rest, under bcache.lock

  predicate Matches(b: Buf, dev: nat, blockno: nat) {
    b.dev == dev && b.blockno == blockno
  }

  predicate Unused(b: Buf) {
    b.refcnt == 0 && !b.dirty
  }

  /** The first ring position from p on whose buffer holds the block; |ring| when there is none. */
  function FirstHit(bufs: seq<Buf>, ring: seq<nat>, p: nat, dev: uint, blockno: uint): (r: nat)
    requires p <= |ring| && forall k :: 0 <= k < |ring| ==> ring[k] < |bufs|
    ensures p <= r <= |ring|
    ensures r < |ring| ==> Matches(bufs[ring[r]], dev, blockno)
    ensures forall k :: p <= k < r ==> !Matches(bufs[ring[k]], dev, blockno)
    decreases |ring| - p
  {
    if p == |ring| || Matches(bufs[ring[p]], dev, blockno) then p else FirstHit(bufs, ring, p + 1, dev, blockno)
  }

  /** The last ring position before p whose buffer can be recycled; -1 when there is none. */
  function LastUnused(bufs: seq<Buf>, ring: seq<nat>, p: nat): (r: int)
    requires p <= |ring| && forall k :: 0 <= k < |ring| ==> ring[k] < |bufs|
    ensures -1 <= r < p
    ensures r >= 0 ==> Unused(bufs[ring[r]])
    ensures forall k :: r < k < p ==> !Unused(bufs[ring[k]])
  {
    if p == 0 then -1 else if Unused(bufs[ring[p - 1]]) then p - 1 else LastUnused(bufs, ring, p - 1)
  }

  /** bget picks: the cached buffer, else the least recently used one that is free; None is the panic. */
  function Pick(c: Cache, dev: uint, blockno: uint): (r: Option<nat>)
    requires Shape(c)
    ensures r.Some? ==> r.value < |c.bufs|
  {
    var p := FirstHit(c.bufs, c.ring, 0, dev, blockno);
    if p < |c.ring| then Some(c.ring[p])
    else
      var q := LastUnused(c.bufs, c.ring, |c.ring|);
      if q < 0 then None else Some(c.ring[q])
  }

  function GetBuf(b: Buf, dev: uint, blockno: uint): Buf {
    if Matches(b, dev, blockno) then b.(refcnt := b.refcnt + 1)
    else b.(dev := dev, blockno := blockno, valid := false, dirty := false, refcnt := 1)
  }

  function MoveToFront(ring: seq<nat>, i: nat): (r: seq<nat>) {
    [i] + Without(ring, i)
  }

  function Without(ring: seq<nat>, i: nat): (r: seq<nat>)
    ensures forall x :: x in r <==> x in ring && x != i
  {
    if ring == [] then [] else if ring[0] == i then Without(ring[1..], i) else [ring[0]] + Without(ring[1..], i)
  }

  predicate OnDisk(c: Cache, b: Buf) {
    b.dev == 1 && b.blockno < |c.disk|
  }

  /** One step; None is a panic. A holder's step on a buffer it has not locked panics as in the code. */
  function Next(c: Cache, e: Step): (r: Option<Cache>)
    requires Shape(c) && (e.Get? || e.i < |c.bufs|)
  {
    match e
    case Get(dev, blockno) =>
      var p := Pick(c, dev, blockno);
      if p.None? then None
      else Some(c.(bufs := c.bufs[p.value := GetBuf(c.bufs[p.value], dev, blockno)]))
    case Lock(i) => Some(c.(bufs := c.bufs[i := c.bufs[i].(locked := true)]))
    case Read(i) =>
      var b := c.bufs[i];
      if !b.locked || b.valid || b.dirty || !OnDisk(c, b) then None
      else Some(c.(bufs := c.bufs[i := b.(valid := true, data := c.disk[b.blockno])]))
    case Modify(i, data) => Some(c.(bufs := c.bufs[i := c.bufs[i].(data := data)]))
    case Pin(i) => Some(c.(bufs := c.bufs[i := c.bufs[i].(dirty := true)]))
    case Flush(i) =>
      var b := c.bufs[i];
      if !b.locked || !OnDisk(c, b) then None
      else Some(c.(bufs := c.bufs[i := b.(valid := true, dirty := false)], disk := c.disk[b.blockno := b.data]))
    case Unlock(i) =>
      if !c.bufs[i].locked then None else Some(c.(bufs := c.bufs[i := c.bufs[i].(locked := false)]))
    case Drop(i) =>
      var b := c.bufs[i];
      if b.refcnt == 0 then None
      else Some(c.(bufs := c.bufs[i := b.(refcnt := b.refcnt - 1)], ring := if b.refcnt == 1 then MoveToFront(c.ring, i) else c.ring))
  }

  /** brelse when nobody comes in between. */
  function Released(c: Cache, i: nat): Option<Cache>
    requires Shape(c) && i < |c.bufs|
  {
    var d := Next(c, Unlock(i));
    if d.None? then None else Next(d.value, Drop(i))
  }

  // ---------------------------------------------------------------- invariant

  /** The ring is a permutation of the buffers. */
  ghost predicate Shape(c: Cache) {
    && |c.bufs| == NBUF == |c.ring|
    && (forall k :: 0 <= k < |c.ring| ==> c.ring[k] < NBUF)
    && Distinct(c.ring)
    && (forall i: nat :: i < NBUF ==> i in c.ring)
  }

  /** No two buffers hold the same block of a real device. */
  ghost predicate Unique(c: Cache) {
    forall i, j :: 0 <= i < j < |c.bufs| && c.bufs[i].dev >= 1 ==> !Matches(c.bufs[j], c.bufs[i].dev, c.bufs[i].blockno)
  }

  ghost predicate BufOk(c: Cache, b: Buf) {
    && (b.locked ==> b.refcnt >= 1)
    && (b.dirty ==> b.valid)
    && (b.valid ==> OnDisk(c, b))
    && (b.valid && !b.dirty && !b.locked ==> b.data == c.disk[b.blockno])
  }

  ghost predicate Inv(c: Cache) {
    Shape(c) && Unique(c) && forall i :: 0 <= i < |c.bufs| ==> BufOk(c, c.bufs[i])
  }

  /** What the users of the cache owe it: they act on buffers they hold, a changed block is logged or
      written before it is released, and a process that has unlocked a buffer drops its own reference, which
      is not the one of a process that has locked the buffer since. */
  ghost predicate Allowed(c: Cache, e: Step)
    requires Shape(c)
  {
    e.Get? || (e.i < |c.bufs| &&
      var b := c.bufs[e.i];
      match e
      case Lock(_) => b.refcnt >= 1 && !b.locked
      case Read(_) => b.locked
      case Modify(_, _) => b.locked && b.valid
      case Pin(_) => b.locked && b.valid
      case Flush(_) => b.locked && b.valid
      case Unlock(_) => b.locked && (b.valid && !b.dirty ==> OnDisk(c, b) && b.data == c.disk[b.blockno])
      case Drop(_) => b.refcnt >= if b.locked then 2 else 1
      case Get(_, _) => true)
  }

  // ---------------------------------------------------------------- the block array

  /** Buffer i has the contents of block b. */
  ghost predicate Holds(c: Cache, i: nat, b: nat) {
    i < |c.bufs| && c.bufs[i].valid && Matches(c.bufs[i], 1, b)
  }

  /** The contents of block b as the users of the cache see it. */
  ghost function View(c: Cache, b: nat): Block
    requires b < |c.disk|
  {
    if exists i: nat :: Holds(c, i, b) then
      var i: nat :| Holds(c, i, b);
      c.bufs[i].data
    else c.disk[b]
  }

  lemma SameBuffer(c: Cache, i: nat, j: nat, b: nat)
    requires Unique(c) && Holds(c, i, b) && Holds(c, j, b)
    ensures i == j
  {
    if i != j { DifferentBlocks(c, i, j); }
  }

  /** bread returns a locked valid buffer, and its data is the current contents of the block. */
  lemma ViewHeld(c: Cache, i: nat, b: nat)
    requires Unique(c) && Holds(c, i, b) && b < |c.disk|
    ensures View(c, b) == c.bufs[i].data
  {
    var j: nat :| Holds(c, j, b) && View(c, b) == c.bufs[j].data;
    SameBuffer(c, i, j, b);
  }

  /** The plain block array: only a holder's change to a block's data does anything. */
  ghost function AbstractView(c: Cache, e: Step, b: nat): Block
    requires b < |c.disk|
  {
    if e.Modify? && e.i < |c.bufs| && Matches(c.bufs[e.i], 1, b) then e.data else View(c, b)
  }

  // ---------------------------------------------------------------- each step

  /** No buffer but the one picked can hold the block. */
  lemma PickUnique(c: Cache, dev: uint, blockno: uint, j: nat)
    requires Inv(c) && dev >= 1 && Pick(c, dev, blockno).Some? && j < NBUF && Matches(c.bufs[j], dev, blockno)
    ensures Pick(c, dev, blockno) == Some(j)
  {
    var p := FirstHit(c.bufs, c.ring, 0, dev, blockno);
    assert j in c.ring;
    var k :| 0 <= k < |c.ring| && c.ring[k] == j;
    assert p < |c.ring|;
    var i := c.ring[p];
    if i != j { DifferentBlocks(c, i, j); }
  }

  lemma PickFree(c: Cache, dev: uint, blockno: uint)
    requires Shape(c) && Pick(c, dev, blockno).Some?
    ensures var b := c.bufs[Pick(c, dev, blockno).value]; Matches(b, dev, blockno) || Unused(b)
  {
  }

  /** What bget does to the buffers when it picks buffer i: a reference more to the cached block, or the block
      in place of the old one when it is cached nowhere. */
  predicate Gotten(bufs: seq<Buf>, bufs': seq<Buf>, dev: uint, blockno: uint, i: nat) {
    && |bufs'| == |bufs| && i < |bufs| && (forall j :: 0 <= j < |bufs| && j != i ==> bufs'[j] == bufs[j])
    && bufs'[i].dev == dev && bufs'[i].blockno == blockno && bufs'[i].locked == bufs[i].locked && bufs'[i].data == bufs[i].data
    && if Matches(bufs[i], dev, blockno) then
         bufs'[i].refcnt == bufs[i].refcnt + 1 && bufs'[i].valid == bufs[i].valid && bufs'[i].dirty == bufs[i].dirty
       else
         && bufs'[i].refcnt == 1 && !bufs'[i].valid && !bufs'[i].dirty
         && bufs[i].refcnt == 0 && !bufs[i].dirty && forall j :: 0 <= j < |bufs| ==> !Matches(bufs[j], dev, blockno)
  }

  lemma GetIs(c: Cache, dev: uint, blockno: uint, i: nat)
    requires Shape(c) && Pick(c, dev, blockno) == Some(i)
    ensures Gotten(c.bufs, Next(c, Get(dev, blockno)).value.bufs, dev, blockno, i)
  {
    forall j: nat | j < NBUF && !Matches(c.bufs[i], dev, blockno) ensures !Matches(c.bufs[j], dev, blockno) {
      assert j in c.ring;
    }
  }

  /** What brelse does to the buffers. */
  predicate GivenUp(bufs: seq<Buf>, bufs': seq<Buf>, i: nat) {
    && |bufs'| == |bufs| && i < |bufs| && (forall j :: 0 <= j < |bufs| && j != i ==> bufs'[j] == bufs[j])
    && bufs'[i] == bufs[i].(locked := false, refcnt := bufs'[i].refcnt) && bufs'[i].refcnt + 1 == bufs[i].refcnt
  }

  lemma GivenUpIs(bufs: seq<Buf>, bufs': seq<Buf>, i: nat, b: Buf)
    requires i < |bufs| && b == bufs[i] && b.refcnt >= 1 && bufs' == bufs[i := b.(locked := false, refcnt := b.refcnt - 1)]
    ensures GivenUp(bufs, bufs', i)
  {
  }

  lemma GetInv(c: Cache, dev: uint, blockno: uint)
    requires Inv(c) && Pick(c, dev, blockno).Some?
    ensures Inv(Next(c, Get(dev, blockno)).value)
  {
    var i := Pick(c, dev, blockno).value;
    PickFree(c, dev, blockno);
    var d := Next(c, Get(dev, blockno)).value;
    forall j, k | 0 <= j < k < NBUF && d.bufs[j].dev >= 1
      ensures !Matches(d.bufs[k], d.bufs[j].dev, d.bufs[j].blockno)
    {
      if j != i && k != i {
        assert !Matches(c.bufs[k], c.bufs[j].dev, c.bufs[j].blockno);
      } else {
        var o := if j == i then k else j;
        if Matches(c.bufs[o], dev, blockno) && dev >= 1 { PickUnique(c, dev, blockno, o); }
      }
    }
    assert forall j :: 0 <= j < NBUF && j != i ==> BufOk(c, c.bufs[j]);
    assert BufOk(c, c.bufs[i]);
  }

  ghost predicate Distinct(r: seq<nat>) {
    forall j, k :: 0 <= j < k < |r| ==> r[j] != r[k]
  }

  lemma ConsDistinct(x: nat, r: seq<nat>)
    requires Distinct(r) && x !in r
    ensures Distinct([x] + r)
  {
  }

  lemma {:induction false} WithoutDistinct(ring: seq<nat>, i: nat)
    requires Distinct(ring)
    ensures Distinct(Without(ring, i))
    ensures |Without(ring, i)| == if i in ring then |ring| - 1 else |ring|
  {
    if ring != [] {
      var t := ring[1..];
      assert Distinct(t) && ring[0] !in t;
      WithoutDistinct(t, i);
      if ring[0] != i {
        ConsDistinct(ring[0], Without(t, i));
        assert i in ring <==> i in t;
      }
    }
  }

  function Cut(ring: seq<nat>, p: nat): (r: seq<nat>)
    requires p < |ring|
    ensures |r| == |ring| - 1
    ensures forall k :: 0 <= k < |r| ==> r[k] == if k < p then ring[k] else ring[k + 1]
  {
    ring[..p] + ring[p + 1..]
  }

  lemma {:induction false} WithoutIsCut(ring: seq<nat>, p: nat)
    requires p < |ring| && forall j, k :: 0 <= j < k < |ring| ==> ring[j] != ring[k]
    ensures Without(ring, ring[p]) == Cut(ring, p)
    decreases p
  {
    if p == 0 {
      WithoutAbsent(ring[1..], ring[0]);
    } else {
      WithoutIsCut(ring[1..], p - 1);
      assert Cut(ring, p) == [ring[0]] + Cut(ring[1..], p - 1);
    }
  }

  lemma {:induction false} WithoutAbsent(ring: seq<nat>, i: nat)
    requires i !in ring
    ensures Without(ring, i) == ring
  {
    if ring != [] {
      assert ring[0] != i;
      WithoutAbsent(ring[1..], i);
    }
  }

  /** i has gone to the front: the buffers that were before it are one place further back, the others are
      where they were. */
  ghost predicate MovedFront(ring: seq<nat>, ring': seq<nat>, i: nat) {
    |ring'| == |ring| && exists p :: PlacedFront(ring, ring', i, p)
  }

  ghost predicate PlacedFront(ring: seq<nat>, ring': seq<nat>, i: nat, p: nat) {
    && p < |ring| == |ring'| && ring[p] == i == ring'[0]
    && (forall a :: 0 < a <= p ==> ring'[a] == ring[a - 1])
    && (forall a :: p < a < |ring| ==> ring'[a] == ring[a])
  }

  lemma MoveToFrontMoves(ring: seq<nat>, i: nat)
    requires Distinct(ring) && i in ring
    ensures MovedFront(ring, MoveToFront(ring, i), i)
  {
    var p: nat :| p < |ring| && ring[p] == i;
    WithoutIsCut(ring, p);
    assert PlacedFront(ring, MoveToFront(ring, i), i, p);
  }

  lemma MoveToFrontShape(c: Cache, i: nat)
    requires Shape(c) && i < NBUF
    ensures Shape(c.(ring := MoveToFront(c.ring, i)))
  {
    WithoutDistinct(c.ring, i);
    ConsDistinct(i, Without(c.ring, i));
    var r := MoveToFront(c.ring, i);
    assert forall k :: 0 < k < |r| ==> r[k] in Without(c.ring, i);
    assert r[0] == i;
    assert forall x: nat :: x in Without(c.ring, i) ==> x in r;
  }

  lemma DropInv(c: Cache, i: nat)
    requires Inv(c) && i < NBUF && Allowed(c, Drop(i))
    ensures Inv(Next(c, Drop(i)).value)
  {
    MoveToFrontShape(c, i);
    var d := Next(c, Drop(i)).value;
    assert forall j :: 0 <= j < NBUF && j != i ==> BufOk(c, c.bufs[j]);
    assert BufOk(c, c.bufs[i]);
    BufsSameBlocks(c, d, i);
  }

  /** A step that leaves device and block numbers alone keeps uniqueness. */
  lemma BufsSameBlocks(c: Cache, d: Cache, i: nat)
    requires Unique(c) && |c.bufs| == |d.bufs| && i < |c.bufs|
    requires forall j :: 0 <= j < |c.bufs| ==> d.bufs[j].dev == c.bufs[j].dev && d.bufs[j].blockno == c.bufs[j].blockno
    ensures Unique(d)
  {
    forall j, k | 0 <= j < k < |d.bufs| && d.bufs[j].dev >= 1
      ensures !Matches(d.bufs[k], d.bufs[j].dev, d.bufs[j].blockno)
    {
      assert !Matches(c.bufs[k], c.bufs[j].dev, c.bufs[j].blockno);
    }
  }

  lemma DifferentBlocks(c: Cache, i: nat, j: nat)
    requires Unique(c) && i < |c.bufs| && j < |c.bufs| && i != j && c.bufs[i].dev == c.bufs[j].dev >= 1
    ensures c.bufs[i].blockno != c.bufs[j].blockno
  {
    if i < j {
      assert !Matches(c.bufs[j], c.bufs[i].dev, c.bufs[i].blockno);
    } else {
      assert !Matches(c.bufs[i], c.bufs[j].dev, c.bufs[j].blockno);
    }
  }

  lemma FlushInv(c: Cache, i: nat)
    requires Inv(c) && i < NBUF && Allowed(c, Flush(i)) && Next(c, Flush(i)).Some?
    ensures Inv(Next(c, Flush(i)).value)
  {
    var d := Next(c, Flush(i)).value;
    BufsSameBlocks(c, d, i);
    assert BufOk(c, c.bufs[i]);
    forall j | 0 <= j < NBUF && j != i ensures BufOk(d, d.bufs[j]) {
      assert BufOk(c, c.bufs[j]);
      if c.bufs[j].valid { DifferentBlocks(c, i, j); }
    }
  }

  lemma HolderInv(c: Cache, e: Step)
    requires Inv(c) && (e.Lock? || e.Read? || e.Modify? || e.Pin? || e.Unlock?) && Allowed(c, e) && Next(c, e).Some?
    ensures Inv(Next(c, e).value)
  {
    var d := Next(c, e).value;
    BufsSameBlocks(c, d, e.i);
    assert BufOk(c, c.bufs[e.i]);
    assert forall j :: 0 <= j < NBUF && j != e.i ==> BufOk(c, c.bufs[j]);
  }

  /** Every step keeps the invariant: the ring stays a permutation, no block of a real device is
      cached twice, and a valid clean unlocked buffer equals its disk block. */
  lemma NextInv(c: Cache, e: Step)
    requires Inv(c) && Allowed(c, e) && Next(c, e).Some?
    ensures Inv(Next(c, e).value)
  {
    match e
    case Get(dev, blockno) => GetInv(c, dev, blockno);
    case Drop(i) => DropInv(c, i);
    case Flush(i) => FlushInv(c, i);
    case _ => HolderInv(c, e);
  }

  // ---------------------------------------------------------------- refinement

  lemma GetView(c: Cache, dev: uint, blockno: uint, b: nat)
    requires Inv(c) && Pick(c, dev, blockno).Some? && b < |c.disk|
    ensures View(Next(c, Get(dev, blockno)).value, b) == View(c, b)
  {
    var i := Pick(c, dev, blockno).value;
    var d := Next(c, Get(dev, blockno)).value;
    PickFree(c, dev, blockno);
    GetInv(c, dev, blockno);
    if j: nat :| Holds(d, j, b) {
      assert Holds(c, j, b);
      ViewHeld(c, j, b);
      ViewHeld(d, j, b);
    } else if j: nat :| Holds(c, j, b) {
      assert j == i by { if j != i { assert Holds(d, j, b); } }
      assert BufOk(c, c.bufs[i]);
      assert !Matches(c.bufs[i], dev, blockno) by { if Matches(c.bufs[i], dev, blockno) { assert Holds(d, i, b); } }
      ViewHeld(c, i, b);
      assert View(d, b) == c.disk[b];
    }
  }

  lemma FlushView(c: Cache, i: nat, b: nat)
    requires Inv(c) && i < NBUF && Allowed(c, Flush(i)) && Next(c, Flush(i)).Some? && b < |c.disk|
    ensures var d := Next(c, Flush(i)).value; |d.disk| == |c.disk| && View(d, b) == View(c, b)
  {
    var d := Next(c, Flush(i)).value;
    FlushInv(c, i);
    if j: nat :| Holds(d, j, b) {
      assert Holds(c, j, b);
      ViewHeld(c, j, b);
      ViewHeld(d, j, b);
    } else {
      assert forall j: nat :: Holds(c, j, b) ==> Holds(d, j, b);
      assert Holds(d, i, c.bufs[i].blockno);
    }
  }

  lemma HolderView(c: Cache, e: Step, b: nat)
    requires Inv(c) && (e.Lock? || e.Read? || e.Modify? || e.Pin? || e.Unlock? || e.Drop?)
    requires Allowed(c, e) && Next(c, e).Some? && b < |c.disk|
    ensures var d := Next(c, e).value; |d.disk| == |c.disk| && View(d, b) == AbstractView(c, e, b)
  {
    var d := Next(c, e).value;
    NextInv(c, e);
    if j: nat :| Holds(d, j, b) {
      ViewHeld(d, j, b);
      if Holds(c, j, b) {
        ViewHeld(c, j, b);
        if e.Modify? && Matches(c.bufs[e.i], 1, b) { SameBuffer(c, j, e.i, b); }
      } else {
        assert e.Read? && j == e.i;
        assert forall k: nat :: !Holds(c, k, b);
      }
    } else {
      assert forall k: nat :: Holds(c, k, b) ==> Holds(d, k, b);
      if e.Modify? { assert Holds(c, e.i, b) <==> Matches(c.bufs[e.i], 1, b); }
    }
  }

  /** The cache refines a block array: a holder's change sets its block, and no other step - cache
      hits, recycling, reads, pins, disk writes, releases - changes what any block reads as. */
  lemma NextView(c: Cache, e: Step, b: nat)
    requires Inv(c) && Allowed(c, e) && Next(c, e).Some? && b < |c.disk|
    ensures var d := Next(c, e).value; |d.disk| == |c.disk| && View(d, b) == AbstractView(c, e, b)
  {
    match e
    case Get(dev, blockno) => GetView(c, dev, blockno, b);
    case Flush(i) => FlushView(c, i, b);
    case _ => HolderView(c, e, b);
  }

  /** A buffer that someone holds or waits for, or that log_write pinned, keeps its block. */
  lemma NeverRecycled(c: Cache, e: Step, j: nat)
    requires Inv(c) && Allowed(c, e) && Next(c, e).Some? && j < NBUF
    requires c.bufs[j].refcnt > 0 || c.bufs[j].dirty
    ensures var d := Next(c, e).value;
            d.bufs[j].dev == c.bufs[j].dev && d.bufs[j].blockno == c.bufs[j].blockno && (c.bufs[j].valid ==> d.bufs[j].valid)
  {
    if e.Get? { PickFree(c, e.dev, e.blockno); }
  }

  /** binit leaves every buffer empty. */
  ghost predicate Fresh(c: Cache) {
    Shape(c) && forall i :: 0 <= i < |c.bufs| ==>
      !c.bufs[i].valid && !c.bufs[i].dirty && !c.bufs[i].locked && c.bufs[i].refcnt == 0 && c.bufs[i].dev == 0
  }

  ghost predicate Run(states: seq<Cache>, steps: seq<Step>) {
    && |states| == |steps| + 1 && Fresh(states[0])
    && forall k {:trigger steps[k]} :: 0 <= k < |steps| ==>
      Shape(states[k]) && Allowed(states[k], steps[k]) && Next(states[k], steps[k]) == Some(states[k + 1])
  }

  /** What block b holds after k steps: its last change, or what the disk held at the start. */
  ghost function LastChange(states: seq<Cache>, steps: seq<Step>, k: nat, b: nat): Block
    requires |states| == |steps| + 1 && k <= |steps| && b < |states[0].disk|
  {
    if k == 0 then states[0].disk[b]
    else if var e := steps[k - 1]; e.Modify? && e.i < |states[k - 1].bufs| && Matches(states[k - 1].bufs[e.i], 1, b)
    then steps[k - 1].data
    else LastChange(states, steps, k - 1, b)
  }

  /** In every reachable state the invariant holds and every block reads as its last change. */
  lemma {:induction false} CacheRefines(states: seq<Cache>, steps: seq<Step>, k: nat, b: nat)
    requires Run(states, steps) && k <= |steps| && b < |states[0].disk|
    ensures Inv(states[k]) && |states[k].disk| == |states[0].disk|
    ensures View(states[k], b) == LastChange(states, steps, k, b)
  {
    if k == 0 {
      assert forall i: nat :: !Holds(states[0], i, b);
    } else {
      CacheRefines(states, steps, k - 1, b);
      assert Next(states[k - 1], steps[k - 1]) == Some(states[k - 1 + 1]);
      NextInv(states[k - 1], steps[k - 1]);
      NextView(states[k - 1], steps[k - 1], b);
    }
  }

  /** So a buffer that a process has locked and read carries the last change to its block. */
  lemma ReadsLastChange(states: seq<Cache>, steps: seq<Step>, k: nat, i: nat)
    requires Run(states, steps) && k <= |steps| && i < |states[k].bufs| && states[k].bufs[i].valid
    ensures states[k].bufs[i].blockno < |states[0].disk|
    ensures states[k].bufs[i].data == LastChange(states, steps, k, states[k].bufs[i].blockno)
  {
    RunInv(states, steps, k);
    var b := states[k].bufs[i].blockno;
    assert BufOk(states[k], states[k].bufs[i]);
    CacheRefines(states, steps, k, b);
    ViewHeld(states[k], i, b);
  }

  lemma {:induction false} RunInv(states: seq<Cache>, steps: seq<Step>, k: nat)
    requires Run(states, steps) && k <= |steps|
    ensures Inv(states[k]) && |states[k].disk| == |states[0].disk|
  {
    if k > 0 {
      RunInv(states, steps, k - 1);
      assert Next(states[k - 1], steps[k - 1]) == Some(states[k - 1 + 1]);
      NextInv(states[k - 1], steps[k - 1]);
    }
  }

  // ---------------------------------------------------------------- the ring and the past

  /** Step k gave up the last reference to buffer i. */
  ghost predicate Frees(states: seq<Cache>, steps: seq<Step>, k: nat, i: nat)
    requires k < |steps| && k < |states|
  {
    steps[k] == Drop(i) && i < |states[k].bufs| && states[k].bufs[i].refcnt == 1
  }

  /** One more than the last of the first k steps that gave up the last reference to buffer i; 0 for none. */
  ghost function FreedAt(states: seq<Cache>, steps: seq<Step>, k: nat, i: nat): (r: nat)
    requires k <= |steps| < |states|
    ensures r <= k
  {
    if k == 0 then 0 else if Frees(states, steps, k - 1, i) then k else FreedAt(states, steps, k - 1, i)
  }

  ghost predicate Behind(ring: seq<nat>, i: nat, j: nat) {
    exists a, b :: 0 <= a < b < |ring| && ring[a] == j && ring[b] == i
  }

  /** After k steps, buffer i is free for longer than j; of two that were never in use, the one that binit put
      further back counts as the one free for longer. */
  ghost predicate FreedBefore(states: seq<Cache>, steps: seq<Step>, k: nat, i: nat, j: nat)
    requires k <= |steps| < |states|
  {
    var s, t := FreedAt(states, steps, k, i), FreedAt(states, steps, k, j);
    s < t || (s == t == 0 && Behind(states[0].ring, i, j))
  }

  /** Kept folded. */
  ghost predicate ByRecency(states: seq<Cache>, steps: seq<Step>, k: nat)
    requires k <= |steps| < |states|
  {
    forall u {:trigger Look(u)} :: Look(u) ==>
      forall a, b {:trigger states[k].ring[a], states[k].ring[b]} :: 0 <= a < b < |states[k].ring| ==>
        FreedBefore(states, steps, k, states[k].ring[b], states[k].ring[a])
  }

  /** What a step does to the ring: the buffer whose last reference goes moves to the front, and no other step
      touches it. */
  lemma RingNext(c: Cache, e: Step)
    requires Shape(c) && Allowed(c, e) && Next(c, e).Some?
    ensures var ring' := Next(c, e).value.ring;
            if e.Drop? && c.bufs[e.i].refcnt == 1 then MovedFront(c.ring, ring', e.i) else ring' == c.ring
  {
    if e.Drop? && c.bufs[e.i].refcnt == 1 { MoveToFrontMoves(c.ring, e.i); }
  }

  lemma SameRecency(states: seq<Cache>, steps: seq<Step>, k: nat, next: nat, i: nat, j: nat)
    requires next == k + 1 <= |steps| < |states| && !Frees(states, steps, k, i) && !Frees(states, steps, k, j)
    requires FreedBefore(states, steps, k, i, j)
    ensures FreedBefore(states, steps, next, i, j)
  {
  }

  lemma MostRecent(states: seq<Cache>, steps: seq<Step>, k: nat, next: nat, i: nat, j: nat)
    requires next == k + 1 <= |steps| < |states| && Frees(states, steps, k, j) && i != j
    ensures FreedBefore(states, steps, next, i, j)
  {
  }

  lemma {:induction false} RecencyMoved(states: seq<Cache>, steps: seq<Step>, k: nat, next: nat, i: nat, p: nat)
    requires next == k + 1 <= |steps| < |states| && ByRecency(states, steps, k) && Frees(states, steps, k, i)
    requires Distinct(states[k].ring) && PlacedFront(states[k].ring, states[next].ring, i, p)
    ensures ByRecency(states, steps, next)
  {
    assert Look(0);
    var r, r' := states[k].ring, states[next].ring;
    forall a, b | 0 <= a < b < |r'| ensures FreedBefore(states, steps, next, r'[b], r'[a]) {
      var d := if b <= p then b - 1 else b;
      assert r'[b] == r[d] && d != p;
      if a == 0 {
        MostRecent(states, steps, k, next, r[d], i);
      } else {
        var c := if a <= p then a - 1 else a;
        assert r'[a] == r[c] && c != p;
        SameRecency(states, steps, k, next, r[d], r[c]);
      }
    }
  }

  lemma RecencyStays(states: seq<Cache>, steps: seq<Step>, k: nat, next: nat)
    requires next == k + 1 <= |steps| < |states| && ByRecency(states, steps, k) && states[next].ring == states[k].ring
    requires forall i :: i in states[k].ring ==> !Frees(states, steps, k, i)
    ensures ByRecency(states, steps, next)
  {
    assert Look(0);
    var r := states[k].ring;
    forall a, b | 0 <= a < b < |r| ensures FreedBefore(states, steps, next, r[b], r[a]) {
      SameRecency(states, steps, k, next, r[b], r[a]);
    }
  }

  lemma {:induction false} RecencyNext(states: seq<Cache>, steps: seq<Step>, k: nat, next: nat, c: Cache, e: Step)
    requires next == k + 1 <= |steps| < |states| && ByRecency(states, steps, k) && c == states[k] && e == steps[k]
    requires Shape(c) && Allowed(c, e) && Next(c, e) == Some(states[next])
    ensures ByRecency(states, steps, next)
  {
    RingNext(c, e);
    if e.Drop? && c.bufs[e.i].refcnt == 1 {
      assert Frees(states, steps, k, e.i);
      var p: nat :| PlacedFront(c.ring, states[next].ring, e.i, p);
      RecencyMoved(states, steps, k, next, e.i, p);
    } else {
      RecencyStays(states, steps, k, next);
    }
  }

  lemma RecencyAtFirst(states: seq<Cache>, steps: seq<Step>)
    requires |steps| < |states|
    ensures ByRecency(states, steps, 0)
  {
    var r := states[0].ring;
    forall a, b | 0 <= a < b < |r| ensures FreedBefore(states, steps, 0, r[b], r[a]) {
      assert Behind(r, r[b], r[a]);
    }
  }

  lemma RunStep(states: seq<Cache>, steps: seq<Step>, k: nat, next: nat)
    requires Run(states, steps) && next == k + 1 <= |steps|
    ensures Shape(states[k]) && Allowed(states[k], steps[k]) && Next(states[k], steps[k]) == Some(states[next])
  {
    assert Next(states[k], steps[k]) == Some(states[k + 1]);
  }

  lemma RecencyTurn(states: seq<Cache>, steps: seq<Step>, k: nat, next: nat)
    requires Run(states, steps) && next == k + 1 <= |steps| && ByRecency(states, steps, k)
    ensures ByRecency(states, steps, next)
  {
    RunStep(states, steps, k, next);
    RecencyNext(states, steps, k, next, states[k], steps[k]);
  }

  /** In every run the ring goes from the buffer released last to the one released longest ago. */
  lemma {:induction false} RingByRecency(states: seq<Cache>, steps: seq<Step>, k: nat)
    requires Run(states, steps) && k <= |steps|
    ensures ByRecency(states, steps, k)
  {
    if k == 0 {
      RecencyAtFirst(states, steps);
    } else {
      RingByRecency(states, steps, k - 1);
      RecencyTurn(states, steps, k - 1, k);
    }
  }

  /** So bget takes the buffer that has the block, else the one that is free for longest of those with no
      reference and no change to keep, and it panics only when there is neither. */
  lemma {:induction false} RecyclesOldest(states: seq<Cache>, steps: seq<Step>, k: nat, dev: uint, blockno: uint, j: nat)
    requires Run(states, steps) && k <= |steps| && j < NBUF
    ensures Shape(states[k])
    ensures var c := states[k]; var r := Pick(c, dev, blockno);
            && (Matches(c.bufs[j], dev, blockno) ==> r.Some? && Matches(c.bufs[r.value], dev, blockno))
            && (Unused(c.bufs[j]) ==> r.Some?)
            && (r.Some? && !Matches(c.bufs[r.value], dev, blockno) ==>
                  && Unused(c.bufs[r.value])
                  && (Unused(c.bufs[j]) && j != r.value ==> FreedBefore(states, steps, k, r.value, j)))
  {
    var c := states[k];
    RingByRecency(states, steps, k);
    RunInv(states, steps, k);
    assert Look(0);
    PickPlace(c, dev, blockno, j);
    var r := Pick(c, dev, blockno);
    if r.Some? && Unused(c.bufs[j]) && j != r.value && !Matches(c.bufs[r.value], dev, blockno) {
      var a, b :| 0 <= a < b < |c.ring| && c.ring[a] == j && c.ring[b] == r.value;
    }
  }

  lemma PickPlace(c: Cache, dev: uint, blockno: uint, j: nat)
    requires Shape(c) && j < NBUF
    ensures var r := Pick(c, dev, blockno);
            && (Matches(c.bufs[j], dev, blockno) ==> r.Some? && Matches(c.bufs[r.value], dev, blockno))
            && (Unused(c.bufs[j]) ==> r.Some?)
            && (r.Some? && !Matches(c.bufs[r.value], dev, blockno) ==>
                  Unused(c.bufs[r.value]) && (Unused(c.bufs[j]) && j != r.value ==> Behind(c.ring, r.value, j)))
  {
    assert j in c.ring;
    var a :| 0 <= a < |c.ring| && c.ring[a] == j;
  }

  // ---------------------------------------------------------------- whole-cache views

  /** v is the whole block array as the users of the cache see it. */
  ghost predicate IsSeen(c: Cache, v: Disk) {
    |v| == |c.disk| && forall b: nat {:trigger View(c, b)} :: b < |v| ==> v[b] == View(c, b)
  }

  /** Buffer i has block b and log_write has pinned it. */
  ghost predicate PinnedBy(c: Cache, i: nat, b: nat) {
    Holds(c, i, b) && c.bufs[i].dirty
  }

  /** Exactly these blocks are pinned by log_write. */
  ghost predicate PinnedIn(c: Cache, pins: set<nat>) {
    && (forall i :: 0 <= i < |c.bufs| && c.bufs[i].dirty ==> c.bufs[i].blockno as nat in pins)
    && (forall b: nat :: b in pins ==> exists i: nat :: PinnedBy(c, i, b))
  }

  /** The buffers in `busy` are in use by processes that only read, and those in `ours` by us; the others
      are in nobody's use. */
  ghost predicate Readers(c: Cache, busy: set<nat>, ours: set<nat>) {
    && busy !! ours && (forall i :: i in busy ==> i < |c.bufs|)
    && forall i {:trigger Idles(c, i)} {:trigger Reads(c, i)} :: 0 <= i < |c.bufs| && i !in ours ==> if i in busy then Reads(c, i) else Idles(c, i)
  }

  ghost predicate Reads(c: Cache, i: nat)
    requires i < |c.bufs|
  {
    var b := c.bufs[i];
    b.refcnt >= 1 && !b.dirty && (b.valid ==> b.blockno < |c.disk| && b.data == c.disk[b.blockno])
  }

  ghost predicate Idles(c: Cache, i: nat)
    requires i < |c.bufs|
  {
    !c.bufs[i].locked && c.bufs[i].refcnt == 0
  }

  /** None of them holds block b. */
  ghost predicate Spared(c: Cache, busy: set<nat>, b: nat) {
    forall i :: i in busy && i < |c.bufs| ==> !Matches(c.bufs[i], 1, b)
  }

  /** Invariant, block array and pins together. */
  ghost predicate Good(c: Cache, v: Disk, pins: set<nat>) {
    Inv(c) && IsSeen(c, v) && PinnedIn(c, pins)
  }

  function ViewAfter(c: Cache, e: Step, v: Disk): Disk {
    if e.Modify? && e.i < |c.bufs| && c.bufs[e.i].blockno < |v| then v[c.bufs[e.i].blockno := e.data] else v
  }

  function PinsAfter(c: Cache, e: Step, pins: set<nat>): set<nat> {
    if e.Flush? && e.i < |c.bufs| then pins - {c.bufs[e.i].blockno as nat}
    else if e.Pin? && e.i < |c.bufs| then pins + {c.bufs[e.i].blockno as nat} else pins
  }

  lemma PinsKept(c: Cache, e: Step, i: nat, b: nat)
    requires Inv(c) && Allowed(c, e) && Next(c, e).Some? && PinnedBy(c, i, b) && !(e.Flush? && e.i == i)
    ensures PinnedBy(Next(c, e).value, i, b)
  {
    NeverRecycled(c, e, i);
  }

  lemma PinsNext(c: Cache, e: Step, pins: set<nat>)
    requires Inv(c) && PinnedIn(c, pins) && Allowed(c, e) && Next(c, e).Some?
    ensures PinnedIn(Next(c, e).value, PinsAfter(c, e, pins))
  {
    var d := Next(c, e).value;
    forall i | 0 <= i < |d.bufs| && d.bufs[i].dirty ensures d.bufs[i].blockno as nat in PinsAfter(c, e, pins) {
      assert d.bufs[i].blockno == c.bufs[i].blockno;
      if e.Flush? {
        assert i != e.i && BufOk(c, c.bufs[i]) && BufOk(c, c.bufs[e.i]);
        DifferentBlocks(c, i, e.i);
      }
    }
    forall b: nat | b in PinsAfter(c, e, pins) ensures exists i: nat :: PinnedBy(d, i, b) {
      if b in pins {
        var i: nat :| PinnedBy(c, i, b);
        PinsKept(c, e, i, b);
      } else {
        assert BufOk(c, c.bufs[e.i]);
        assert PinnedBy(d, e.i, b);
      }
    }
  }

  /** How one step moves the block array and the pins. */
  lemma GoodNext(c: Cache, e: Step, v: Disk, pins: set<nat>)
    requires Good(c, v, pins) && Allowed(c, e) && Next(c, e).Some?
    ensures Good(Next(c, e).value, ViewAfter(c, e, v), PinsAfter(c, e, pins))
  {
    var d := Next(c, e).value;
    NextInv(c, e);
    PinsNext(c, e, pins);
    if e.Modify? { assert BufOk(c, c.bufs[e.i]); }
    var v' := ViewAfter(c, e, v);
    forall b: nat | b < |v'| ensures |d.disk| == |c.disk| && v'[b] == View(d, b) {
      NextView(c, e, b);
    }
    if |v'| == 0 { assert |d.disk| == |c.disk|; }
  }

  /** With all buffers in use only read, a block that is not pinned reads as it is on disk. */
  lemma UnpinnedIsOnDisk(c: Cache, v: Disk, pins: set<nat>, busy: set<nat>, b: nat)
    requires Good(c, v, pins) && Readers(c, busy, {}) && b !in pins && b < |v|
    ensures v[b] == c.disk[b]
  {
    if i: nat :| Holds(c, i, b) {
      ViewHeld(c, i, b);
      assert BufOk(c, c.bufs[i]);
      assert if i in busy then Reads(c, i) else Idles(c, i);
    }
    assert v[b] == View(c, b);
  }

  // ---------------------------------------------------------------- when bget finds a buffer

  function DirtyBelow(bufs: seq<Buf>, n: nat): (r: nat)
    requires n <= |bufs|
    ensures r <= n
  {
    if n == 0 then 0 else DirtyBelow(bufs, n - 1) + if bufs[n - 1].dirty then 1 else 0
  }

  /** Exactly these blocks are pinned in the first n buffers. Kept folded. */
  ghost predicate PinnedBelow(c: Cache, n: nat, pins: set<nat>)
    requires n <= |c.bufs|
  {
    forall u {:trigger Look(u)} :: Look(u) ==>
      && (forall i :: 0 <= i < n && c.bufs[i].dirty ==> c.bufs[i].blockno as nat in pins)
      && (forall b: nat :: b in pins ==> exists i: nat :: PinnedBy(c, i, b) && i < n)
  }

  lemma NonePinned(c: Cache, pins: set<nat>)
    requires PinnedBelow(c, 0, pins)
    ensures pins == {}
  {
    assert Look(0);
    forall b: nat ensures b !in pins {
    }
  }

  lemma PinnedOneLess(c: Cache, n: nat, next: nat, pins: set<nat>, x: Buf, rest: set<nat>)
    requires Inv(c) && n == next - 1 && next <= NBUF && PinnedBelow(c, next, pins) && x == c.bufs[n]
    requires rest == if x.dirty then pins - {x.blockno as nat} else pins
    ensures PinnedBelow(c, n, rest) && |pins| == |rest| + if x.dirty then 1 else 0
  {
    assert Look(0) && BufOk(c, x);
    if x.dirty { assert pins == rest + {x.blockno as nat}; }
    forall i | 0 <= i < n && c.bufs[i].dirty ensures c.bufs[i].blockno as nat in rest {
      assert BufOk(c, c.bufs[i]);
      if x.dirty { DifferentBlocks(c, i, n); }
    }
    forall b: nat | b in rest ensures exists i: nat :: PinnedBy(c, i, b) && i < n {
      var i: nat :| PinnedBy(c, i, b) && i < next;
      assert i != n;
    }
  }

  /** There are as many dirty buffers as pinned blocks. */
  lemma {:induction false} DirtyIsPinned(c: Cache, pins: set<nat>, n: nat)
    requires Inv(c) && n <= NBUF && PinnedBelow(c, n, pins)
    ensures DirtyBelow(c.bufs, n) == |pins|
  {
    if n == 0 {
      NonePinned(c, pins);
    } else {
      var x := c.bufs[n - 1];
      var rest := if x.dirty then pins - {x.blockno as nat} else pins;
      PinnedOneLess(c, n - 1, n, pins, x, rest);
      DirtyIsPinned(c, rest, n - 1);
    }
  }

  /** Dirty buffers and busy ones, none of them dirty, are no more than all there are, and fewer if some buffer
      is neither. */
  lemma {:induction false} DirtyOrBusy(bufs: seq<Buf>, busy: set<nat>, n: nat, i: nat)
    requires n <= |bufs| && (forall k :: k in busy ==> k < n && !bufs[k].dirty)
    ensures DirtyBelow(bufs, n) + |busy| <= n
    ensures i < n && !bufs[i].dirty && i !in busy ==> DirtyBelow(bufs, n) + |busy| < n
  {
    if n > 0 {
      DirtyOrBusy(bufs, busy - {n - 1}, n - 1, i);
    } else {
      assert busy == {};
    }
  }

  /** Every buffer but those in `busy` is dirty. */
  lemma {:induction false} MostDirty(bufs: seq<Buf>, busy: set<nat>, n: nat)
    requires n <= |bufs| && forall i :: 0 <= i < n && i !in busy ==> bufs[i].dirty
    ensures DirtyBelow(bufs, n) + |busy| >= n
  {
    if n > 0 {
      if n - 1 in busy {
        MostDirty(bufs, busy - {n - 1}, n - 1);
      } else {
        MostDirty(bufs, busy, n - 1);
      }
    }
  }

  /** bget finds a buffer for block b of the disk. */
  ghost predicate Finds(c: Cache, b: uint) {
    Shape(c) && Pick(c, 1, b).Some?
  }

  /** bget finds a buffer for a block that is pinned, and for any block as long as the pinned blocks and the
      buffers in use leave one over. */
  lemma PickFinds(c: Cache, pins: set<nat>, busy: set<nat>, b: uint)
    requires Inv(c) && PinnedIn(c, pins) && forall i :: 0 <= i < NBUF && i !in busy ==> c.bufs[i].refcnt == 0
    requires b as nat in pins || |pins| + |busy| < NBUF
    ensures Pick(c, 1, b).Some?
  {
    if b as nat in pins {
      var i: nat :| PinnedBy(c, i, b);
      assert i in c.ring;
    } else if Pick(c, 1, b).None? {
      forall i: nat | i < NBUF && i !in busy ensures c.bufs[i].dirty {
        assert i in c.ring;
        assert !Unused(c.bufs[i]);
      }
      MostDirty(c.bufs, busy, NBUF);
      DirtyIsPinned(c, pins, NBUF);
    }
  }

  /** With every buffer pinned or in use, it finds none for a block that is in none of them. */
  lemma PickFails(c: Cache, pins: set<nat>, busy: set<nat>, b: uint)
    requires Inv(c) && PinnedIn(c, pins) && (forall i :: i in busy ==> i < NBUF && c.bufs[i].refcnt > 0 && !c.bufs[i].dirty)
    requires |pins| + |busy| >= NBUF && b as nat !in pins && Spared(c, busy, b)
    ensures Pick(c, 1, b).None?
  {
    DirtyIsPinned(c, pins, NBUF);
    forall i: nat | i < NBUF ensures !Unused(c.bufs[i]) && !Matches(c.bufs[i], 1, b) {
      DirtyOrBusy(c.bufs, busy, NBUF, i);
    }
  }

  // ---------------------------------------------------------------- bread

  /** bread after its bget: lock the buffer, and read it when it is not valid. */
  function FillBuf(c: Cache, b: Buf): Buf {
    if b.valid || !OnDisk(c, b) then b.(locked := true) else b.(locked := true, valid := true, data := c.disk[b.blockno])
  }

  /** What holding block (dev, blockno) in buffer i means after bread. */
  ghost predicate Held(c: Cache, v: Disk, i: nat, dev: uint, blockno: uint) {
    && i < |c.bufs| && Matches(c.bufs[i], dev, blockno) && OnDisk(c, c.bufs[i]) && blockno < |v|
    && c.bufs[i].locked && c.bufs[i].valid && c.bufs[i].data == v[blockno]
    && (!c.bufs[i].dirty ==> c.bufs[i].data == c.disk[blockno])
  }

  lemma LockKeeps(c: Cache, v: Disk, pins: set<nat>, i: nat)
    requires Good(c, v, pins) && i < NBUF && c.bufs[i].refcnt >= 1 && !c.bufs[i].locked
    ensures Good(c.(bufs := c.bufs[i := c.bufs[i].(locked := true)]), v, pins)
  {
    GoodNext(c, Lock(i), v, pins);
  }

  lemma ReadKeeps(c: Cache, v: Disk, pins: set<nat>, i: nat)
    requires Good(c, v, pins) && i < NBUF && c.bufs[i].locked && !c.bufs[i].valid && OnDisk(c, c.bufs[i])
    ensures Good(c.(bufs := c.bufs[i := c.bufs[i].(valid := true, data := c.disk[c.bufs[i].blockno])]), v, pins)
  {
    assert BufOk(c, c.bufs[i]);
    GoodNext(c, Read(i), v, pins);
  }

  lemma FillKeeps(c: Cache, v: Disk, pins: set<nat>, i: nat)
    requires Good(c, v, pins) && i < NBUF && c.bufs[i].refcnt >= 1 && !c.bufs[i].locked
    ensures var d := c.(bufs := c.bufs[i := FillBuf(c, c.bufs[i])]);
            && Good(d, v, pins)
            && (OnDisk(c, c.bufs[i]) ==> Held(d, v, i, c.bufs[i].dev, c.bufs[i].blockno))
  {
    var d1 := c.(bufs := c.bufs[i := c.bufs[i].(locked := true)]);
    var d := c.(bufs := c.bufs[i := FillBuf(c, c.bufs[i])]);
    LockKeeps(c, v, pins, i);
    assert BufOk(c, c.bufs[i]);
    if !c.bufs[i].valid && OnDisk(c, c.bufs[i]) {
      ReadKeeps(d1, v, pins, i);
      assert d == d1.(bufs := d1.bufs[i := d1.bufs[i].(valid := true, data := d1.disk[d1.bufs[i].blockno])]);
    } else {
      assert d == d1;
    }
    if OnDisk(c, c.bufs[i]) { ViewHeld(d, i, c.bufs[i].blockno); }
  }

  lemma GetKeeps(c: Cache, v: Disk, pins: set<nat>, dev: uint, blockno: uint)
    requires Good(c, v, pins) && Pick(c, dev, blockno).Some?
    requires forall i :: 0 <= i < NBUF && Matches(c.bufs[i], dev, blockno) ==> !c.bufs[i].locked
    ensures var d := Next(c, Get(dev, blockno)).value; var i := Pick(c, dev, blockno).value;
            && Good(d, v, pins)
            && Matches(d.bufs[i], dev, blockno) && d.bufs[i].refcnt >= 1 && !d.bufs[i].locked && !c.bufs[i].locked
  {
    GoodNext(c, Get(dev, blockno), v, pins);
    PickFree(c, dev, blockno);
    assert BufOk(c, c.bufs[Pick(c, dev, blockno).value]);
  }

  /** bget and then the fill of the buffer it picked. */
  lemma BreadKeeps(c: Cache, v: Disk, pins: set<nat>, dev: uint, blockno: uint, i: nat, d: Cache, e: Cache)
    requires Good(c, v, pins) && Pick(c, dev, blockno) == Some(i) && Next(c, Get(dev, blockno)) == Some(d)
    requires forall j :: 0 <= j < NBUF && Matches(c.bufs[j], dev, blockno) ==> !c.bufs[j].locked
    requires e == d.(bufs := d.bufs[i := FillBuf(d, d.bufs[i])])
    ensures d.bufs[i].refcnt >= 1 && !d.bufs[i].locked && (OnDisk(d, d.bufs[i]) <==> dev == 1 && blockno < |c.disk|)
    ensures !c.bufs[i].locked && e.bufs[i].refcnt == c.bufs[i].refcnt + 1
    ensures forall j :: 0 <= j < NBUF && j != i ==> e.bufs[j] == c.bufs[j]
    ensures dev == 1 && blockno < |c.disk| ==> Held(e, v, i, dev, blockno)
  {
    GetKeeps(c, v, pins, dev, blockno);
    FillKeeps(d, v, pins, i);
    PickFree(c, dev, blockno);
  }

  lemma ReleaseKeeps(c: Cache, v: Disk, pins: set<nat>, i: nat)
    requires Good(c, v, pins) && i < NBUF && Allowed(c, Unlock(i))
    ensures var b := c.bufs[i];
            var d := Cache(c.bufs[i := b.(locked := false, refcnt := b.refcnt - 1)], if b.refcnt == 1 then MoveToFront(c.ring, i) else c.ring, c.disk);
            b.refcnt >= 1 && Released(c, i) == Some(d) && Good(d, v, pins)
  {
    assert BufOk(c, c.bufs[i]);
    GoodNext(c, Unlock(i), v, pins);
    var d := Next(c, Unlock(i)).value;
    GoodNext(d, Drop(i), v, pins);
    var b := c.bufs[i];
    assert d.bufs[i := d.bufs[i].(refcnt := d.bufs[i].refcnt - 1)] == c.bufs[i := b.(locked := false, refcnt := b.refcnt - 1)];
  }
}
