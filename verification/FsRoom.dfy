/** How many blocks bmap has to allocate for a range of a file, against how many are free: the exact
    condition under which a read or a write runs into the "out of blocks" panic of balloc. */
module FsRoom {
  import opened Common
  import opened Bytes
  import opened Disk
  import opened FsModel
  import opened FsData

  /** The invariant, kept folded: a proof that needs what it says mentions Unfold. */
  ghost predicate Sound(sb: Super, bs: Blocks, ino: seq<Inode>, owner: Owner) {
    forall x {:trigger Unfold(x)} :: Unfold(x) ==> FsInv(sb, bs, ino, owner)
  }

  /** Growth on behalf of inode i, folded in the same way. */
  ghost predicate Extends(sb: Super, bs: Blocks, ino: seq<Inode>, owner: Owner, bs': Blocks, ino': seq<Inode>, owner': Owner, i: nat) {
    && |bs'| == |bs| && |ino'| == |ino| && i < |ino| && ino'[i] == ino[i].(addrs := ino'[i].addrs)
    && forall x {:trigger Unfold(x)} :: Unfold(x) ==> Grown(sb, bs, ino, owner, bs', ino', owner', i)
  }

  predicate Mapped(bs: Blocks, ip: Inode, bn: nat)
    requires bn < MAXFILE
  {
    Addr(bs, ip, FileSlot(bn)) != 0
  }

  /** The blocks that block bn costs in a pass over the file that begins at block b: none if it is there,
      else itself, and the indirect block too if there is none and bn is the first to need it. */
  function Cost(bs: Blocks, ip: Inode, b: nat, bn: nat): (r: nat)
    requires bn < MAXFILE
    ensures r <= 2
  {
    if Mapped(bs, ip, bn) then 0
    else if bn >= NDIRECT && ip.addrs[NDIRECT] == 0 && (bn == NDIRECT || bn == b) then 2
    else 1
  }

  /** The blocks that have to be allocated for file blocks b to e. */
  function Need(bs: Blocks, ip: Inode, b: nat, e: nat): nat
    requires e <= MAXFILE
  {
    if e <= b then 0 else Need(bs, ip, b, e - 1) + Cost(bs, ip, b, e - 1)
  }

  /** One past the last file block that n bytes at off touch. */
  function EndBlock(off: nat, n: nat): (r: nat)
    ensures n == 0 ==> r == off / BSIZE
    ensures n > 0 ==> off / BSIZE < r
    ensures off + n <= MAXFILE * BSIZE && n > 0 ==> r <= MAXFILE
  {
    if n == 0 then off / BSIZE else (off + n - 1) / BSIZE + 1
  }

  /** The free blocks, by conservation. */
  function Room(sb: Super, owner: Owner): int {
    sb.size - sb.data - |owner|
  }

  lemma RoomIsFree(sb: Super, bs: Blocks, ino: seq<Inode>, owner: Owner)
    requires sb.Ok() && |bs| == sb.size && Sound(sb, bs, ino, owner)
    ensures Room(sb, owner) == |FreeBlocks(sb, bs)|
  {
    assert Unfold(0);
    FreePlusOwned(sb, bs, ino, owner);
  }

  /** balloc fails only when no block is free. */
  lemma NoRoom(sb: Super, bs: Blocks, ino: seq<Inode>, owner: Owner)
    requires sb.Ok() && |bs| == sb.size && Sound(sb, bs, ino, owner)
    requires forall c: nat :: c < sb.size ==> BBlock(sb, c) < |bs| && InUse(sb, bs, c)
    ensures Room(sb, owner) == 0
  {
    RoomIsFree(sb, bs, ino, owner);
    assert FreeBlocks(sb, bs) == {};
  }

  lemma SomeRoom(sb: Super, bs: Blocks, ino: seq<Inode>, owner: Owner, b: nat)
    requires sb.Ok() && |bs| == sb.size && Sound(sb, bs, ino, owner) && b < sb.size && BBlock(sb, b) < |bs| && !InUse(sb, bs, b)
    ensures Room(sb, owner) > 0 && b !in owner
  {
    RoomIsFree(sb, bs, ino, owner);
    assert Unfold(0);
    assert b in FreeBlocks(sb, bs);
  }

  // ---------------------------------------------------------------- what a pass fills

  /** The pass over blocks b to e has filled exactly those: they are all there, no other block has come or
      gone, and the indirect block is there if one of them needs it. */
  ghost predicate Filled(bs: Blocks, ip: Inode, bs': Blocks, ip': Inode, b: nat, e: nat) {
    && (forall bn {:trigger FilledAt(bs, ip, bs', ip', b, e, bn)} :: 0 <= bn < MAXFILE ==> FilledAt(bs, ip, bs', ip', b, e, bn))
    && (ip'.addrs[NDIRECT] == 0 <==> ip.addrs[NDIRECT] == 0 && !(b < e && e > NDIRECT))
  }

  ghost predicate FilledAt(bs: Blocks, ip: Inode, bs': Blocks, ip': Inode, b: nat, e: nat, bn: nat) {
    bn < MAXFILE ==> (Mapped(bs', ip', bn) <==> Mapped(bs, ip, bn) || b <= bn < e)
  }

  lemma FilledNone(bs: Blocks, ip: Inode, b: nat)
    ensures Filled(bs, ip, bs, ip, b, b)
  {
  }

  /** A second pass that goes on where the first one stopped, or at its last block. */
  lemma FilledMore(bs0: Blocks, ip0: Inode, bs1: Blocks, ip1: Inode, bs2: Blocks, ip2: Inode, b: nat, m: nat, c: nat, e: nat)
    requires Filled(bs0, ip0, bs1, ip1, b, m) && Filled(bs1, ip1, bs2, ip2, c, e) && b <= c <= m <= e && (c == e ==> m == e)
    ensures Filled(bs0, ip0, bs2, ip2, b, e)
  {
    forall bn | 0 <= bn < MAXFILE ensures FilledAt(bs0, ip0, bs2, ip2, b, e, bn) {
      assert FilledAt(bs0, ip0, bs1, ip1, b, m, bn) && FilledAt(bs1, ip1, bs2, ip2, c, e, bn);
    }
  }

  /** Only the addresses matter. */
  lemma FilledSame(bs0: Blocks, ip0: Inode, bs: Blocks, ip: Inode, bs': Blocks, ip': Inode, b: nat, e: nat)
    requires Filled(bs0, ip0, bs, ip, b, e) && forall k :: 0 <= k < NSLOTS ==> Addr(bs', ip', k) == Addr(bs, ip, k)
    ensures Filled(bs0, ip0, bs', ip', b, e)
  {
    assert Addr(bs', ip', NDIRECT) == ip'.addrs[NDIRECT];
    assert Addr(bs, ip, NDIRECT) == ip.addrs[NDIRECT];
    forall bn | 0 <= bn < MAXFILE ensures FilledAt(bs0, ip0, bs', ip', b, e, bn) {
      SlotFacts(bn);
      assert FilledAt(bs0, ip0, bs, ip, b, e, bn);
    }
  }

  /** What the next block costs is the same in the middle of the pass as it was at its beginning. */
  lemma CostAhead(bs0: Blocks, ip0: Inode, bs: Blocks, ip: Inode, b: nat, cur: nat)
    requires Filled(bs0, ip0, bs, ip, b, cur) && b <= cur < MAXFILE
    ensures Cost(bs, ip, cur, cur) == Cost(bs0, ip0, b, cur)
    ensures Need(bs0, ip0, b, cur + 1) == Need(bs0, ip0, b, cur) + Cost(bs, ip, cur, cur)
  {
    assert FilledAt(bs0, ip0, bs, ip, b, cur, cur);
    IndirectFirst(bs0, ip0, cur);
  }

  /** Without an indirect block nothing beyond the direct blocks is mapped. */
  lemma IndirectFirst(bs: Blocks, ip: Inode, bn: nat)
    requires bn < MAXFILE
    ensures bn >= NDIRECT && ip.addrs[NDIRECT] == 0 ==> !Mapped(bs, ip, bn)
  {
  }

  lemma {:induction false} NeedMono(bs: Blocks, ip: Inode, b: nat, e: nat, e': nat)
    requires e <= e' <= MAXFILE
    ensures Need(bs, ip, b, e) <= Need(bs, ip, b, e')
    decreases e'
  {
    if e < e' { NeedMono(bs, ip, b, e, e' - 1); }
  }

  /** Two passes, one after the other, need together what one pass over both ranges needs. */
  lemma {:induction false} NeedSplit(bs0: Blocks, ip0: Inode, bs: Blocks, ip: Inode, b: nat, m: nat, c: nat, e: nat)
    requires Filled(bs0, ip0, bs, ip, b, m) && b < m <= e <= MAXFILE && (c == m || c == m - 1)
    ensures Need(bs0, ip0, b, e) == Need(bs0, ip0, b, m) + Need(bs, ip, c, e)
    decreases e
  {
    if e == m {
      assert FilledAt(bs0, ip0, bs, ip, b, m, m - 1);
      assert c < m ==> Need(bs, ip, c, c) == 0;
    } else {
      NeedSplit(bs0, ip0, bs, ip, b, m, c, e - 1);
      assert FilledAt(bs0, ip0, bs, ip, b, m, e - 1);
      IndirectFirst(bs0, ip0, e - 1);
    }
  }

  /** Blocks that are there cost nothing. */
  lemma {:induction false} NeedInside(bs: Blocks, ip: Inode, b: nat, e: nat)
    requires e <= MAXFILE && forall bn :: b <= bn < e ==> Mapped(bs, ip, bn)
    ensures Need(bs, ip, b, e) == 0
  {
    if b < e { NeedInside(bs, ip, b, e - 1); }
  }

  /** So a pass that stays below the size of a file without holes needs nothing. */
  lemma NeedBelowSize(bs: Blocks, ip: Inode, off: nat, n: nat)
    requires NoHoles(bs, ip) && off + n <= ip.size
    ensures EndBlock(off, n) <= MAXFILE && Need(bs, ip, off / BSIZE, EndBlock(off, n)) == 0
  {
    var b, e := off / BSIZE, EndBlock(off, n);
    assert b <= MAXFILE;
    forall bn | b <= bn < e ensures bn < MAXFILE && Mapped(bs, ip, bn) {
      assert bn * BSIZE < ip.size;
    }
    NeedInside(bs, ip, b, e);
  }

  // ---------------------------------------------------------------- bmap's steps

  /** Every slot of the inode but k holds what it held. */
  ghost predicate SlotsBut(bs: Blocks, ip: Inode, bs': Blocks, ip': Inode, k: nat) {
    forall l :: 0 <= l < NSLOTS && l != k ==> Addr(bs', ip', l) == Addr(bs, ip, l)
  }

  lemma InodeSlot(sb: Super, bs: Blocks, ino: seq<Inode>, owner: Owner, i: nat, k: nat, b: uint)
    requires FsInv(sb, bs, ino, owner) && b < sb.size && BBlock(sb, b) < |bs| && !InUse(sb, bs, b)
    requires i < |ino| && k <= NDIRECT && ino[i].addrs[k] == 0
    ensures SlotsBut(bs, ino[i], Allocated(sb, bs, b), WithAddr(ino[i], k, b), k)
  {
    AllocatedInv(sb, bs, ino, owner, b);
    var bs1, ip1 := Allocated(sb, bs, b), WithAddr(ino[i], k, b);
    AttachInode(sb, bs1, ino, owner, i, k, b);
    forall l | 0 <= l < NSLOTS && l != k ensures Addr(bs1, ip1, l) == Addr(bs, ino[i], l) {
      assert Slot(i, l) != Slot(i, k);
      assert Addr(bs1, ino[i := ip1][i], l) == Addr(bs1, ino[i], l) == Addr(bs, ino[i], l);
    }
  }

  /** balloc's block in an empty slot of the inode. */
  lemma SlotFilled(sb: Super, bs: Blocks, ino: seq<Inode>, owner: Owner, bs': Blocks, ino': seq<Inode>, owner': Owner, i: nat, k: nat, b: uint)
    requires sb.Ok() && |bs| == sb.size && Sound(sb, bs, ino, owner) && b < sb.size && BBlock(sb, b) < |bs| && !InUse(sb, bs, b)
    requires i < |ino| && k <= NDIRECT && ino[i].addrs[k] == 0
    requires bs' == Allocated(sb, bs, b) && ino' == ino[i := WithAddr(ino[i], k, b)] && owner' == owner[b as nat := Slot(i, k)]
    ensures b > 0 && Sound(sb, bs', ino', owner') && Extends(sb, bs, ino, owner, bs', ino', owner', i)
    ensures SlotsBut(bs, ino[i], bs', ino'[i], k) && |owner'| == |owner| + 1
  {
    SomeRoom(sb, bs, ino, owner, b);
    assert Unfold(0);
    GrowInode(sb, bs, ino, owner, i, k, b);
    InodeSlot(sb, bs, ino, owner, i, k, b);
  }

  lemma EntrySlot(sb: Super, bs: Blocks, ino: seq<Inode>, owner: Owner, i: nat, e: nat, k: nat, a: nat, b: uint, bs': Blocks)
    requires FsInv(sb, bs, ino, owner) && b < sb.size && BBlock(sb, b) < |bs| && !InUse(sb, bs, b)
    requires i < |ino| && e < NINDIRECT && k == NDIRECT + 1 + e && a == ino[i].addrs[NDIRECT] != 0 && a < |bs|
    requires bs' == Allocated(sb, bs, b)[a := SetWord(Allocated(sb, bs, b)[a], e, b)]
    ensures SlotsBut(bs, ino[i], bs', ino[i], k)
  {
    AllocatedInv(sb, bs, ino, owner, b);
    var bs1 := Allocated(sb, bs, b);
    EntryAddrs(sb, bs1, ino, owner, i, e, b);
    forall l | 0 <= l < NSLOTS && l != k ensures Addr(bs', ino[i], l) == Addr(bs, ino[i], l) {
      assert Slot(i, l) != Slot(i, k);
      assert Addr(bs1, ino[i], l) == Addr(bs, ino[i], l);
    }
  }

  /** Where the indirect block lies. */
  lemma IndirectPlace(sb: Super, bs: Blocks, ino: seq<Inode>, owner: Owner, i: nat, a: nat)
    requires Sound(sb, bs, ino, owner) && i < |ino| && a == ino[i].addrs[NDIRECT] != 0
    ensures sb.data <= a < sb.size
  {
    assert Unfold(0);
    OwnedIsData(sb, bs, ino, owner, 0, 0, i, NDIRECT);
    assert Addr(bs, ino[i], NDIRECT) == a;
  }

  /** balloc's block in an empty entry of the indirect block. */
  lemma EntryFilled(sb: Super, bs: Blocks, ino: seq<Inode>, owner: Owner, bs': Blocks, owner': Owner, i: nat, e: nat, k: nat, a: nat, b: uint)
    requires sb.Ok() && |bs| == sb.size && Sound(sb, bs, ino, owner) && b < sb.size && BBlock(sb, b) < |bs| && !InUse(sb, bs, b)
    requires i < |ino| && e < NINDIRECT && k == NDIRECT + 1 + e && a == ino[i].addrs[NDIRECT] != 0 && a < |bs| && Addr(bs, ino[i], k) == 0
    requires bs' == Allocated(sb, bs, b)[a := SetWord(Allocated(sb, bs, b)[a], e, b)] && owner' == owner[b as nat := Slot(i, k)]
    ensures b > 0 && Sound(sb, bs', ino, owner') && Extends(sb, bs, ino, owner, bs', ino, owner', i)
    ensures SlotsBut(bs, ino[i], bs', ino[i], k) && |owner'| == |owner| + 1 && Addr(bs', ino[i], k) == b
  {
    SomeRoom(sb, bs, ino, owner, b);
    assert Unfold(0);
    GrowEntry(sb, bs, ino, owner, i, e, b);
    EntrySlot(sb, bs, ino, owner, i, e, k, a, b, bs');
  }

  /** One file block is there that was missing, and no other has come or gone. */
  lemma FilledOne(bs: Blocks, ip: Inode, bs1: Blocks, ip1: Inode, bs2: Blocks, ip2: Inode, bn: nat, next: nat, k: nat)
    requires bn < MAXFILE && next == bn + 1 && k == FileSlot(bn) && SlotsBut(bs, ip, bs1, ip1, NDIRECT) && SlotsBut(bs1, ip1, bs2, ip2, k)
    requires Addr(bs2, ip2, k) != 0 && ip2.addrs[NDIRECT] == ip1.addrs[NDIRECT]
    requires ip1.addrs[NDIRECT] == 0 <==> ip.addrs[NDIRECT] == 0 && bn < NDIRECT
    ensures Filled(bs, ip, bs2, ip2, bn, next)
  {
    forall x | 0 <= x < MAXFILE ensures FilledAt(bs, ip, bs2, ip2, bn, next, x) {
      SlotFacts(x);
      if x != bn {
        assert FileSlot(x) != k;
        assert Addr(bs1, ip1, FileSlot(x)) == Addr(bs, ip, FileSlot(x));
      }
    }
  }

  /** A block that is there needs no step. */
  lemma FilledThere(bs: Blocks, ip: Inode, bn: nat, next: nat)
    requires bn < MAXFILE && next == bn + 1 && Mapped(bs, ip, bn)
    ensures Filled(bs, ip, bs, ip, bn, next)
  {
    IndirectFirst(bs, ip, bn);
  }

  /** What bmap has done for block bn. */
  ghost predicate MapDone(sb: Super, bs: Blocks, ino: seq<Inode>, owner: Owner, bs': Blocks, ino': seq<Inode>, owner': Owner,
                          i: nat, bn: nat, next: nat) {
    && bn < MAXFILE && next == bn + 1 && Extends(sb, bs, ino, owner, bs', ino', owner', i) && Filled(bs, ino[i], bs', ino'[i], bn, next)
    && |owner'| == |owner| + Cost(bs, ino[i], bn, bn)
  }

  lemma ExtendsSelf(sb: Super, bs: Blocks, ino: seq<Inode>, owner: Owner, i: nat)
    requires Sound(sb, bs, ino, owner) && i < |ino|
    ensures Extends(sb, bs, ino, owner, bs, ino, owner, i)
  {
    assert Unfold(0);
    GrownSelf(sb, bs, ino, owner, i);
  }

  lemma ExtendsTrans(sb: Super, bs: Blocks, ino: seq<Inode>, owner: Owner, bs1: Blocks, ino1: seq<Inode>, owner1: Owner,
                     bs2: Blocks, ino2: seq<Inode>, owner2: Owner, i: nat)
    requires Extends(sb, bs, ino, owner, bs1, ino1, owner1, i) && Extends(sb, bs1, ino1, owner1, bs2, ino2, owner2, i)
    ensures Extends(sb, bs, ino, owner, bs2, ino2, owner2, i)
  {
    assert Unfold(0);
    GrownTrans(sb, bs, ino, owner, bs1, ino1, owner1, bs2, ino2, owner2, i);
  }

  lemma MapThere(sb: Super, bs: Blocks, ino: seq<Inode>, owner: Owner, i: nat, bn: nat, next: nat)
    requires Sound(sb, bs, ino, owner) && i < |ino| && bn < MAXFILE && next == bn + 1 && Mapped(bs, ino[i], bn)
    ensures MapDone(sb, bs, ino, owner, bs, ino, owner, i, bn, next)
  {
    ExtendsSelf(sb, bs, ino, owner, i);
    FilledThere(bs, ino[i], bn, next);
  }

  lemma MapDirect(sb: Super, bs: Blocks, ino: seq<Inode>, owner: Owner, bs': Blocks, ino': seq<Inode>, owner': Owner, i: nat, bn: nat, next: nat)
    requires Extends(sb, bs, ino, owner, bs', ino', owner', i) && bn < NDIRECT && next == bn + 1 && SlotsBut(bs, ino[i], bs', ino'[i], bn)
    requires ino[i].addrs[bn] == 0 != ino'[i].addrs[bn] && |owner'| == |owner| + 1
    ensures MapDone(sb, bs, ino, owner, bs', ino', owner', i, bn, next)
  {
    assert Addr(bs', ino'[i], NDIRECT) == ino'[i].addrs[NDIRECT] && Addr(bs, ino[i], NDIRECT) == ino[i].addrs[NDIRECT];
    FilledOne(bs, ino[i], bs, ino[i], bs', ino'[i], bn, next, bn);
  }

  /** The two steps of bmap beyond the direct blocks: the indirect block, if it is missing, and the entry. */
  lemma MapEntry(sb: Super, bs: Blocks, ino: seq<Inode>, owner: Owner, bs1: Blocks, ino1: seq<Inode>, owner1: Owner,
                 bs2: Blocks, ino2: seq<Inode>, owner2: Owner, i: nat, bn: nat, next: nat, k: nat)
    requires Extends(sb, bs, ino, owner, bs1, ino1, owner1, i) && Extends(sb, bs1, ino1, owner1, bs2, ino2, owner2, i)
    requires NDIRECT <= bn < MAXFILE && next == bn + 1 && k == FileSlot(bn)
    requires SlotsBut(bs, ino[i], bs1, ino1[i], NDIRECT) && SlotsBut(bs1, ino1[i], bs2, ino2[i], k)
    requires Addr(bs1, ino1[i], k) == 0 != Addr(bs2, ino2[i], k) && ino2 == ino1 && ino1[i].addrs[NDIRECT] != 0
    requires |owner1| == |owner| + (if ino[i].addrs[NDIRECT] == 0 then 1 else 0) && |owner2| == |owner1| + 1
    ensures MapDone(sb, bs, ino, owner, bs2, ino2, owner2, i, bn, next) && !Mapped(bs, ino[i], bn)
  {
    ExtendsTrans(sb, bs, ino, owner, bs1, ino1, owner1, bs2, ino2, owner2, i);
    FilledOne(bs, ino[i], bs1, ino1[i], bs2, ino2[i], bn, next, k);
  }

  /** bmap and then the splice, taken together. */
  lemma Chunk(sb: Super, bs: Blocks, ino: seq<Inode>, owner: Owner, bs1: Blocks, ino1: seq<Inode>, owner1: Owner, bs2: Blocks,
              i: nat, off: nat, bn: nat, next: nat, a: nat, part: seq<byte>)
    requires sb.Ok() && |bs| == sb.size && MapDone(sb, bs, ino, owner, bs1, ino1, owner1, i, bn, next)
    requires bn == off / BSIZE && off % BSIZE + |part| <= BSIZE && a == Addr(bs1, ino1[i], FileSlot(bn)) != 0
    requires a < |bs1| ==> bs2 == bs1[a := Splice(bs1[a], off % BSIZE, part)]
    ensures a < |bs1| && |bs2| == |bs1| && Sound(sb, bs2, ino1, owner1) && OnlyGrew(sb, bs, ino, bs2, ino1, i)
    ensures Wrote(bs, ino, bs2, ino1, i, off, part) && Mapped(bs2, ino1[i], bn) && Filled(bs, ino[i], bs2, ino1[i], bn, next)
  {
    assert Unfold(0);
    ChunkMeaning(sb, bs, ino, owner, bs1, ino1, owner1, i, off, part);
    FilledSame(bs, ino[i], bs1, ino1[i], bs2, ino1[i], bn, next);
  }

  lemma BlockPlace(sb: Super, bs: Blocks, ino: seq<Inode>, owner: Owner, i: nat, k: nat)
    requires Sound(sb, bs, ino, owner) && i < |ino| && k < NSLOTS && Addr(bs, ino[i], k) != 0
    ensures sb.data <= Addr(bs, ino[i], k) < sb.size
  {
    assert Unfold(0);
    OwnedIsData(sb, bs, ino, owner, 0, 0, i, k);
  }

  // ---------------------------------------------------------------- a pass against the free blocks

  /** A pass that began at block b, with n0 blocks owned, has come to block cur, with n owned. */
  ghost predicate Pass(bs0: Blocks, ip0: Inode, n0: nat, bs: Blocks, ip: Inode, n: nat, b: nat, cur: nat) {
    b <= cur <= MAXFILE && Filled(bs0, ip0, bs, ip, b, cur) && n == n0 + Need(bs0, ip0, b, cur)
  }

  lemma PassNone(bs: Blocks, ip: Inode, n: nat, b: nat)
    requires b <= MAXFILE
    ensures Pass(bs, ip, n, bs, ip, n, b, b)
  {
    FilledNone(bs, ip, b);
  }

  lemma PassOne(bs0: Blocks, ip0: Inode, n0: nat, bs: Blocks, ip: Inode, n: nat, bs': Blocks, ip': Inode, n': nat, b: nat, cur: nat, next: nat)
    requires Pass(bs0, ip0, n0, bs, ip, n, b, cur) && next == cur + 1 <= MAXFILE
    requires Filled(bs, ip, bs', ip', cur, next) && n' == n + Cost(bs, ip, cur, cur)
    ensures Pass(bs0, ip0, n0, bs', ip', n', b, next)
  {
    CostAhead(bs0, ip0, bs, ip, b, cur);
    FilledMore(bs0, ip0, bs, ip, bs', ip', b, cur, cur, next);
  }

  /** A pass that cannot pay for its next block could never have reached e. */
  lemma PassStuck(bs0: Blocks, ip0: Inode, n0: nat, bs: Blocks, ip: Inode, n: nat, b: nat, cur: nat, e: nat, total: nat)
    requires Pass(bs0, ip0, n0, bs, ip, n, b, cur) && cur < e <= MAXFILE && total - n < Cost(bs, ip, cur, cur)
    ensures total - n0 < Need(bs0, ip0, b, e)
  {
    CostAhead(bs0, ip0, bs, ip, b, cur);
    NeedMono(bs0, ip0, b, cur + 1, e);
  }

  /** A second pass that goes on where the first one stopped, or at its last block. */
  lemma PassMore(bs0: Blocks, ip0: Inode, n0: nat, bs: Blocks, ip: Inode, n: nat, bs': Blocks, ip': Inode, n': nat, b: nat, m: nat, c: nat, e: nat)
    requires Pass(bs0, ip0, n0, bs, ip, n, b, m) && Pass(bs, ip, n, bs', ip', n', c, e) && b < m <= e && (c == m || c == m - 1) && c < e
    ensures Pass(bs0, ip0, n0, bs', ip', n', b, e)
  {
    FilledMore(bs0, ip0, bs, ip, bs', ip', b, m, c, e);
    NeedSplit(bs0, ip0, bs, ip, b, m, c, e);
  }

  lemma PassSame(bs0: Blocks, ip0: Inode, n0: nat, bs: Blocks, ip: Inode, n: nat, bs': Blocks, ip': Inode, b: nat, e: nat)
    requires Pass(bs0, ip0, n0, bs, ip, n, b, e) && forall k :: 0 <= k < NSLOTS ==> Addr(bs', ip', k) == Addr(bs, ip, k)
    ensures Pass(bs0, ip0, n0, bs', ip', n, b, e)
  {
    FilledSame(bs0, ip0, bs, ip, bs', ip', b, e);
  }

  /** What a pass has been over needs nothing more. */
  lemma WrittenThere(bs0: Blocks, ip0: Inode, n0: nat, bs: Blocks, ip: Inode, n: nat, b: nat, e: nat)
    requires Pass(bs0, ip0, n0, bs, ip, n, b, e)
    ensures Need(bs, ip, b, e) == 0
  {
    forall bn | b <= bn < e ensures Mapped(bs, ip, bn) {
      assert FilledAt(bs0, ip0, bs, ip, b, e, bn);
    }
    NeedInside(bs, ip, b, e);
  }

  /** The block that a transfer of n bytes at off has come to after tot of them. */
  function CurBlock(off: nat, n: nat, tot: nat): nat {
    if tot < n then (off + tot) / BSIZE else EndBlock(off, n)
  }

  lemma CurStart(off: nat, n: nat)
    ensures CurBlock(off, n, 0) == off / BSIZE
  {
  }

  lemma CurNext(off: nat, n: nat, tot: nat, o: nat, next: nat)
    requires tot < n && o == off + tot && next == tot + Piece(o, n - tot)
    ensures CurBlock(off, n, tot) == o / BSIZE && CurBlock(off, n, next) == o / BSIZE + 1 <= EndBlock(off, n)
  {
    var m := Piece(o, n - tot);
    assert o == BSIZE * (o / BSIZE) + o % BSIZE;
    assert (o + m - 1) / BSIZE == o / BSIZE;
    if next < n { assert (o + m) / BSIZE == o / BSIZE + 1; }
    assert (off + n - 1) / BSIZE >= (o + m - 1) / BSIZE;
  }

  // ---------------------------------------------------------------- holes, and the inode on disk

  /** The block at off is there. */
  predicate Starts(bs: Blocks, ip: Inode, off: nat) {
    off / BSIZE < MAXFILE && Mapped(bs, ip, off / BSIZE)
  }

  /** A write at off does not begin inside a hole. */
  predicate Clear(bs: Blocks, ip: Inode, off: nat) {
    off % BSIZE == 0 || Starts(bs, ip, off)
  }

  /** It cannot, in a file without holes. */
  lemma NoHolesClear(bs: Blocks, ip: Inode, off: nat)
    ensures NoHoles(bs, ip) && off <= ip.size ==> Clear(bs, ip, off)
  {
    if NoHoles(bs, ip) && off % BSIZE != 0 { assert (off / BSIZE) * BSIZE < off; }
  }

  /** A write leaves a file without holes without holes. */
  lemma NoHolesKept(bs0: Blocks, ip0: Inode, bs: Blocks, ip: Inode, off: nat, n: nat)
    requires NoHoles(bs0, ip0) && off <= ip0.size && off + n <= MAXFILE * BSIZE
    requires Filled(bs0, ip0, bs, ip, off / BSIZE, EndBlock(off, n)) && ip.size == if off + n > ip0.size then off + n else ip0.size
    ensures NoHoles(bs, ip)
  {
    forall bn: nat | bn < MAXFILE && bn * BSIZE < ip.size ensures Addr(bs, ip, FileSlot(bn)) != 0 {
      assert FilledAt(bs0, ip0, bs, ip, off / BSIZE, EndBlock(off, n), bn);
      if bn * BSIZE >= ip0.size {
        assert off / BSIZE <= bn;
        assert bn <= (off + n - 1) / BSIZE;
      } else {
        assert Addr(bs0, ip0, FileSlot(bn)) != 0;
      }
    }
  }

  /** A pass over blocks b to e fills a slot of the inode itself: an empty direct address, or the missing
      indirect block. */
  predicate FillsInode(ip: Inode, b: nat, e: nat) {
    || (exists k :: b <= k < e && k < NDIRECT && ip.addrs[k] == 0)
    || (b < e && e > NDIRECT && ip.addrs[NDIRECT] == 0)
  }

  /** Inside a file without holes it has nothing to fill. */
  lemma NoHolesFillsNone(bs: Blocks, ip: Inode, off: nat, n: nat)
    requires NoHoles(bs, ip) && off + n <= ip.size
    ensures !FillsInode(ip, off / BSIZE, EndBlock(off, n))
  {
    var b, e := off / BSIZE, EndBlock(off, n);
    forall k | b <= k < e ensures k < MAXFILE && Mapped(bs, ip, k) {
      assert k * BSIZE < ip.size;
    }
    forall k | b <= k < e && k < NDIRECT ensures ip.addrs[k] != 0 {
      assert Mapped(bs, ip, k);
    }
    if b < e && e > NDIRECT {
      assert Mapped(bs, ip, e - 1);
      IndirectFirst(bs, ip, e - 1);
    }
  }

  lemma FillsExactly(bs0: Blocks, ip0: Inode, bs: Blocks, ip: Inode, b: nat, e: nat)
    requires Filled(bs0, ip0, bs, ip, b, e) && forall k :: 0 <= k < NSLOTS && Addr(bs0, ip0, k) != 0 ==> Addr(bs, ip, k) == Addr(bs0, ip0, k)
    ensures ip.addrs == ip0.addrs <==> !FillsInode(ip0, b, e)
  {
    forall k | 0 <= k <= NDIRECT ensures Addr(bs, ip, k) == ip.addrs[k] && Addr(bs0, ip0, k) == ip0.addrs[k] {
    }
    forall k | 0 <= k < NDIRECT ensures ip.addrs[k] == ip0.addrs[k] <==> !(ip0.addrs[k] == 0 && b <= k < e) {
      assert FilledAt(bs0, ip0, bs, ip, b, e, k);
    }
    if !FillsInode(ip0, b, e) {
      forall k | 0 <= k <= NDIRECT ensures ip.addrs[k] == ip0.addrs[k] {
      }
    }
  }

  /** Work on a file that does not store the inode leaves it as it is on disk, if it was, exactly when it
      fills no slot of the inode itself. */
  lemma BehindExactly(sb: Super, bs0: Blocks, ino0: seq<Inode>, bs: Blocks, ino: seq<Inode>, i: nat, b: nat, e: nat)
    requires sb.Ok() && |bs0| == sb.size && |ino0| == sb.ninodes && OnlyGrew(sb, bs0, ino0, bs, ino, i)
    requires Filled(bs0, ino0[i], bs, ino[i], b, e) && Synced(sb, bs0, ino0[i], i)
    ensures Synced(sb, bs, ino[i], i) <==> !FillsInode(ino0[i], b, e)
  {
    LayoutFacts(sb, 0, i);
    FillsExactly(bs0, ino0[i], bs, ino[i], b, e);
  }

  /** bmap stores no inode: what is on disk stays as it is. */
  lemma ExtendsDisk(sb: Super, bs: Blocks, ino: seq<Inode>, owner: Owner, bs': Blocks, ino': seq<Inode>, owner': Owner, i: nat)
    requires sb.Ok() && |bs| == sb.size && |ino| == sb.ninodes && Extends(sb, bs, ino, owner, bs', ino', owner', i)
    ensures OnlyGrew(sb, bs, ino, bs', ino', i)
    ensures forall j: nat :: j < |ino| && j != i && Synced(sb, bs, ino[j], j) ==> Synced(sb, bs', ino'[j], j)
  {
    assert Unfold(0);
    GrownOnlyGrew(sb, bs, ino, owner, bs', ino', owner', i);
    forall j: nat | j < |ino| && j != i && Synced(sb, bs, ino[j], j) ensures Synced(sb, bs', ino'[j], j) {
      LayoutFacts(sb, 0, j);
    }
  }

  /** Every inode is on disk as it is in memory. */
  ghost predicate AllSynced(sb: Super, bs: Blocks, ino: seq<Inode>) {
    forall j: nat :: j < |ino| ==> Synced(sb, bs, ino[j], j)
  }

  // ---------------------------------------------------------------- what an operation logs

  /** The operation that began at the blocks `start` has changed them by `writes`, all of them through
      log_write. Kept folded. */
  ghost predicate Tracked(start: Blocks, bs: Blocks, writes: seq<Write>, logged: set<nat>) {
    forall x {:trigger Look(x)} :: Look(x) ==> Fits(|start|, writes) && bs == Apply(start, writes) && logged == Homes(writes)
  }

  lemma TrackedNone(bs: Blocks)
    ensures Tracked(bs, bs, [], {})
  {
    assert Homes([]) == {};
  }

  lemma TrackedMore(start: Blocks, bs: Blocks, writes: seq<Write>, logged: set<nat>, x: nat, blk: Block)
    requires Tracked(start, bs, writes, logged) && x < |bs|
    ensures Tracked(start, bs[x := blk], writes + [Write(x, blk)], logged + {x})
  {
    assert Look(0);
    var more := writes + [Write(x, blk)];
    AfterAgree(start, writes, more, |writes|);
    HomesMore(writes, Write(x, blk));
  }

  /** The blocks that differ from bs0 are among those logged. */
  ghost predicate Confined(bs0: Blocks, bs: Blocks, logged: set<nat>) {
    |bs| == |bs0| && forall x {:trigger Look(x)} :: Look(x) && 0 <= x < |bs| && bs[x] != bs0[x] ==> x in logged
  }

  lemma TrackedConfined(start: Blocks, bs: Blocks, writes: seq<Write>, logged: set<nat>)
    requires Tracked(start, bs, writes, logged)
    ensures Confined(start, bs, logged)
  {
    assert Look(0);
    forall x | 0 <= x < |bs| && x !in logged ensures bs[x] == start[x] {
      AfterUntouched(start, writes, |writes|, x);
    }
  }

  /** What one operation after the other has done, as far as the k-th. */
  function AfterOps(d: Blocks, ops: seq<seq<Write>>, k: nat): (r: Blocks)
    requires k <= |ops| && forall j :: 0 <= j < |ops| ==> Fits(|d|, ops[j])
    ensures |r| == |d|
  {
    if k == 0 then d else Apply(AfterOps(d, ops, k - 1), ops[k - 1])
  }

  lemma {:induction false} AfterOpsAgree(d: Blocks, ops: seq<seq<Write>>, more: seq<seq<Write>>, k: nat)
    requires k <= |ops| && k <= |more| && (forall j :: 0 <= j < |ops| ==> Fits(|d|, ops[j])) && (forall j :: 0 <= j < |more| ==> Fits(|d|, more[j]))
    requires forall j :: 0 <= j < k ==> ops[j] == more[j]
    ensures AfterOps(d, ops, k) == AfterOps(d, more, k)
  {
    if k > 0 { AfterOpsAgree(d, ops, more, k - 1); }
  }

  /** The inodes as they are on disk. */
  function Inodes(sb: Super, bs: Blocks): (r: seq<Inode>)
    requires sb.inodestart + sb.ninodes / IPB < |bs|
    ensures |r| == sb.ninodes && forall j: nat :: j < sb.ninodes ==> Synced(sb, bs, r[j], j)
  {
    seq(sb.ninodes, j requires 0 <= j < sb.ninodes => (assert j / IPB <= sb.ninodes / IPB; Dinode(sb, bs, j)))
  }

  /** How far the first k of filewrite's operations get, of `done` bytes in all. */
  function Reached(k: nat, done: nat): (r: nat)
    ensures r <= done
  {
    if k * CHUNK < done then k * CHUNK else done
  }

  /** The blocks alone, with the inodes as they are on disk, are a sound file system. */
  ghost predicate Consistent(sb: Super, bs: Blocks) {
    sb.Ok() && |bs| == sb.size && exists owner :: FsInv(sb, bs, Inodes(sb, bs), owner)
  }

  /** So are those of bs, and their files are those of bs0 after `part` was written to file i at off. */
  ghost predicate OnDisk(sb: Super, bs0: Blocks, bs: Blocks, i: nat, off: nat, part: seq<byte>) {
    Consistent(sb, bs) && |bs0| == |bs| && FilesAfter(bs0, Inodes(sb, bs0), bs, Inodes(sb, bs), i, off, part)
  }

  lemma IsOnDisk(sb: Super, bs0: Blocks, ino0: seq<Inode>, bs: Blocks, ino: seq<Inode>, owner: Owner, i: nat, off: nat, part: seq<byte>)
    requires sb.Ok() && |bs0| == |bs| == sb.size && |ino0| == |ino| == sb.ninodes && Sound(sb, bs, ino, owner)
    requires AllSynced(sb, bs0, ino0) && AllSynced(sb, bs, ino) && FilesAfter(bs0, ino0, bs, ino, i, off, part)
    ensures OnDisk(sb, bs0, bs, i, off, part)
  {
    assert Unfold(0);
    assert Inodes(sb, bs0) == ino0 && Inodes(sb, bs) == ino;
  }

  // ---------------------------------------------------------------- writei's loop

  /** The state of the file system and what the current operation has logged. */
  datatype Snap = Snap(bs: Blocks, ino: seq<Inode>, owned: nat, logged: set<nat>, maps: set<nat>, allocs: nat)

  /** What one turn of writei's loop does with the bytes `part` at off, in file block bn. */
  ghost predicate ChunkDone(sb: Super, s: Snap, t: Snap, i: nat, off: nat, bn: nat, next: nat, part: seq<byte>, a: nat) {
    && bn == off / BSIZE < MAXFILE && next == bn + 1 && i < |s.ino| == |t.ino|
    && t.owned == s.owned + Cost(s.bs, s.ino[i], bn, bn)
    && Filled(s.bs, s.ino[i], t.bs, t.ino[i], bn, next)
    && OnlyGrew(sb, s.bs, s.ino, t.bs, t.ino, i) && Wrote(s.bs, s.ino, t.bs, t.ino, i, off, part) && Mapped(t.bs, t.ino[i], bn)
    && t.logged <= s.logged + t.maps + {a} + IndirectOf(t.ino[i]) && s.maps <= t.maps
    && (Mapped(s.bs, s.ino[i], bn) ==> t.allocs == s.allocs)
    && (!Mapped(s.bs, s.ino[i], bn) ==> t.allocs <= s.allocs + 1 + NewIndirect(s.ino[i], t.ino[i]))
  }

  /** What writei's loop has done after tot bytes, at file block cur: the bytes, the log blocks and the
      blocks allocated. Kept folded. */
  ghost predicate LoopDone(sb: Super, s0: Snap, s: Snap, i: nat, off: nat, src: seq<byte>, tot: nat, cur: nat, d: set<nat>, added: nat) {
    forall x {:trigger Unfold(x)} :: Unfold(x) ==>
      && i < |s0.ino| == |s.ino| && (tot == 0 || tot == |src| || (off + tot) % BSIZE == 0) && LoopContent(sb, s0.bs, s0.ino, s.bs, s.ino, i, off, src, tot)
      && LoopBudget(off, Starts(s0.bs, s0.ino[i], off), tot, s0.logged, s.logged, s.maps, d, s0.ino[i], s.ino[i], s0.allocs, s.allocs, added)
      && cur == CurBlock(off, |src|, tot) && Pass(s0.bs, s0.ino[i], s0.owned, s.bs, s.ino[i], s.owned, off / BSIZE, cur)
  }

  lemma LoopStart(sb: Super, s: Snap, i: nat, off: nat, src: seq<byte>)
    requires sb.Ok() && |s.bs| == sb.size && i < |s.ino| && off <= MAXFILE * BSIZE
    ensures LoopDone(sb, s, s, i, off, src, 0, off / BSIZE, {}, 0)
  {
    SameDataBytes(s.bs, s.ino, s.bs, s.ino, i, off);
    PassNone(s.bs, s.ino[i], s.owned, off / BSIZE);
    CurStart(off, |src|);
    assert src[..0] == [];
    assert OnlyGrew(sb, s.bs, s.ino, s.bs, s.ino, i);
    assert LoopBudget(off, Starts(s.bs, s.ino[i], off), 0, s.logged, s.logged, s.maps, {}, s.ino[i], s.ino[i], s.allocs, s.allocs, 0);
  }

  lemma LoopStep(sb: Super, s0: Snap, s: Snap, t: Snap, i: nat, off: nat, src: seq<byte>, tot: nat, next: nat, o: nat, cur: nat, step: nat,
                 d: set<nat>, added: nat, part: seq<byte>, a: nat)
    requires LoopDone(sb, s0, s, i, off, src, tot, cur, d, added) && i < |s0.ino| == |s.ino| && o == off + tot && step == cur + 1
    requires tot < |src| && next == tot + Piece(o, |src| - tot) && part == src[tot..next]
    requires ChunkDone(sb, s, t, i, o, cur, step, part, a)
    ensures LoopDone(sb, s0, t, i, off, src, next, step, d + {a}, added + if Mapped(s.bs, s.ino[i], cur) then 0 else 1)
  {
    assert Unfold(0);
    CurNext(off, |src|, tot, o, next);
    var had := Starts(s0.bs, s0.ino[i], off);
    if tot == 0 && had { assert FilledAt(s0.bs, s0.ino[i], s.bs, s.ino[i], off / BSIZE, cur, cur); }
    LoopContentStep(sb, s0.bs, s0.ino, s.bs, s.ino, t.bs, t.ino, i, off, src, tot, next, o, part);
    IndirectKept(sb, s0.bs, s0.ino, s.bs, s.ino, i);
    IndirectKept(sb, s.bs, s.ino, t.bs, t.ino, i);
    LoopBudgetStep(off, had, tot, o, next, |src| - tot, s0.logged, s.logged, s.maps, d, s0.ino[i], s.ino[i], s0.allocs, s.allocs, added,
                   t.logged, t.maps, a, t.ino[i], t.allocs, Mapped(s.bs, s.ino[i], cur));
    PassOne(s0.bs, s0.ino[i], s0.owned, s.bs, s.ino[i], s.owned, t.bs, t.ino[i], t.owned, off / BSIZE, cur, step);
  }

  /** Where the loop stands. */
  lemma LoopAt(sb: Super, s0: Snap, s: Snap, i: nat, off: nat, src: seq<byte>, tot: nat, cur: nat, d: set<nat>, added: nat, o: nat)
    requires LoopDone(sb, s0, s, i, off, src, tot, cur, d, added) && tot < |src| && o == off + tot && off + |src| <= MAXFILE * BSIZE
    ensures cur == o / BSIZE < EndBlock(off, |src|) <= MAXFILE
  {
    assert Unfold(0);
    CurNext(off, |src|, tot, o, tot + Piece(o, |src| - tot));
  }

  lemma LoopStuck(sb: Super, s0: Snap, s: Snap, i: nat, off: nat, src: seq<byte>, tot: nat, cur: nat, d: set<nat>, added: nat, total: nat)
    requires LoopDone(sb, s0, s, i, off, src, tot, cur, d, added) && i < |s0.ino| == |s.ino|
    requires cur < EndBlock(off, |src|) <= MAXFILE && total - s.owned < Cost(s.bs, s.ino[i], cur, cur)
    ensures total - s0.owned < Need(s0.bs, s0.ino[i], off / BSIZE, EndBlock(off, |src|))
  {
    assert Unfold(0);
    PassStuck(s0.bs, s0.ino[i], s0.owned, s.bs, s.ino[i], s.owned, off / BSIZE, cur, EndBlock(off, |src|), total);
  }

  lemma LoopEnd(sb: Super, s0: Snap, s: Snap, i: nat, off: nat, src: seq<byte>, cur: nat, d: set<nat>, added: nat)
    requires LoopDone(sb, s0, s, i, off, src, |src|, cur, d, added) && i < |s0.ino| == |s.ino|
    ensures LoopContent(sb, s0.bs, s0.ino, s.bs, s.ino, i, off, src, |src|)
    ensures LoopBudget(off, Starts(s0.bs, s0.ino[i], off), |src|, s0.logged, s.logged, s.maps, d, s0.ino[i], s.ino[i], s0.allocs, s.allocs, added)
    ensures Pass(s0.bs, s0.ino[i], s0.owned, s.bs, s.ino[i], s.owned, off / BSIZE, EndBlock(off, |src|))
  {
    assert Unfold(0);
  }
}
