/** What a file holds: the block array seen through the addresses of its inode. */
module FsData {
  import opened Common
  import opened Bytes
  import opened FsModel

  /** The bn-th block of a file; a block that is not there reads as zeros. */
  function Data(bs: Blocks, ip: Inode, bn: nat): Block
    requires bn < MAXFILE
  {
    var a := Addr(bs, ip, FileSlot(bn));
    if a == 0 || a >= |bs| then ZeroBlock else bs[a]
  }

  function ByteAt(bs: Blocks, ip: Inode, o: nat): byte {
    if o / BSIZE < MAXFILE then Data(bs, ip, o / BSIZE)[o % BSIZE] else 0
  }

  /** Every block of the file below its size is there. */
  ghost predicate NoHoles(bs: Blocks, ip: Inode) {
    && ip.size <= MAXFILE * BSIZE
    && forall bn: nat :: bn < MAXFILE && bn * BSIZE < ip.size ==> Addr(bs, ip, FileSlot(bn)) != 0
  }

  /** The file as a byte sequence. */
  function Content(bs: Blocks, ip: Inode): (r: seq<byte>)
    ensures |r| == ip.size
  {
    FirstBytes(bs, ip, ip.size)
  }

  function FirstBytes(bs: Blocks, ip: Inode, n: nat): (r: seq<byte>)
    ensures |r| == n
  {
    if n == 0 then [] else FirstBytes(bs, ip, n - 1) + [ByteAt(bs, ip, n - 1)]
  }

  lemma {:induction false} FirstBytesAt(bs: Blocks, ip: Inode, n: nat, o: nat)
    requires o < n
    ensures FirstBytes(bs, ip, n)[o] == ByteAt(bs, ip, o)
  {
    if o < n - 1 { FirstBytesAt(bs, ip, n - 1, o); }
  }

  /** No file's data changed. */
  ghost predicate SameData(bs: Blocks, ino: seq<Inode>, bs': Blocks, ino': seq<Inode>) {
    |ino| == |ino'| && forall j, bn :: 0 <= j < |ino| && 0 <= bn < MAXFILE ==> Data(bs', ino'[j], bn) == Data(bs, ino[j], bn)
  }

  lemma SlotFacts(bn: nat)
    requires bn < MAXFILE
    ensures FileSlot(bn) < NSLOTS && FileSlot(bn) != NDIRECT
  {
  }

  /** Changing a block that no file has as data changes no file's data, if no address moves. */
  lemma DataKept(sb: Super, bs: Blocks, bs': Blocks, ino: seq<Inode>, owner: Owner, x: nat)
    requires Linked(sb, bs, ino, owner, 0, 0) && |bs'| == |bs| && (x in owner ==> owner[x].k == NDIRECT)
    requires forall y :: 0 <= y < |bs| && y != x ==> bs'[y] == bs[y]
    requires forall i, k :: 0 <= i < |ino| && 0 <= k < NSLOTS ==> Addr(bs', ino[i], k) == Addr(bs, ino[i], k)
    ensures SameData(bs, ino, bs', ino)
  {
    forall j, bn | 0 <= j < |ino| && 0 <= bn < MAXFILE ensures Data(bs', ino[j], bn) == Data(bs, ino[j], bn) {
      SlotFacts(bn);
      OwnedIsData(sb, bs, ino, owner, 0, 0, j, FileSlot(bn));
    }
  }

  lemma AllocData(sb: Super, bs: Blocks, ino: seq<Inode>, owner: Owner, b: nat)
    requires FsInv(sb, bs, ino, owner) && b < sb.size && BBlock(sb, b) < |bs| && !InUse(sb, bs, b)
    ensures SameData(bs, ino, Allocated(sb, bs, b), ino)
  {
    AllocatedInv(sb, bs, ino, owner, b);
    LayoutFacts(sb, b, 0);
    var x := BBlock(sb, b);
    var bs1 := bs[x := PutInUse(bs[x], b, true)];
    AddrsKept(sb, bs, ino, owner, 0, 0, x, PutInUse(bs[x], b, true));
    DataKept(sb, bs, bs1, ino, owner, x);
    AddrsKept(sb, bs1, ino, owner, 0, 0, b, ZeroBlock);
    DataKept(sb, bs1, Allocated(sb, bs, b), ino, owner, b);
  }

  /** A zeroed block attached to an empty slot is what the slot read as before. */
  lemma AttachInodeData(sb: Super, bs: Blocks, ino: seq<Inode>, owner: Owner, i: nat, k: nat, b: uint)
    requires Linked(sb, bs, ino, owner, 0, 0) && Marked(sb, bs, owner, b)
    requires i < |ino| && k <= NDIRECT && ino[i].addrs[k] == 0
    requires sb.data <= b < sb.size && b as nat !in owner && bs[b] == ZeroBlock && InUse(sb, bs, b)
    ensures SameData(bs, ino, bs, ino[i := WithAddr(ino[i], k, b)])
  {
    AttachInode(sb, bs, ino, owner, i, k, b);
    var ino' := ino[i := WithAddr(ino[i], k, b)];
    forall j, bn | 0 <= j < |ino| && 0 <= bn < MAXFILE ensures Data(bs, ino'[j], bn) == Data(bs, ino[j], bn) {
      SlotFacts(bn);
      if Slot(j, FileSlot(bn)) != Slot(i, k) {
        assert Addr(bs, ino'[j], FileSlot(bn)) == Addr(bs, ino[j], FileSlot(bn));
      }
    }
  }

  lemma AttachEntryData(sb: Super, bs: Blocks, ino: seq<Inode>, owner: Owner, i: nat, e: nat, b: uint)
    requires Linked(sb, bs, ino, owner, 0, 0) && i < |ino| && e < NINDIRECT && ino[i].addrs[NDIRECT] != 0
    requires Addr(bs, ino[i], NDIRECT + 1 + e) == 0 && b < |bs| && bs[b] == ZeroBlock && b as nat !in owner
    ensures var a := ino[i].addrs[NDIRECT]; a < |bs| && SameData(bs, ino, bs[a := SetWord(bs[a], e, b)], ino)
  {
    var a := ino[i].addrs[NDIRECT];
    EntryAddrs(sb, bs, ino, owner, i, e, b);
    var bs' := bs[a := SetWord(bs[a], e, b)];
    forall j, bn | 0 <= j < |ino| && 0 <= bn < MAXFILE ensures Data(bs', ino[j], bn) == Data(bs, ino[j], bn) {
      SlotFacts(bn);
      OwnedIsData(sb, bs, ino, owner, 0, 0, j, FileSlot(bn));
      if Slot(j, FileSlot(bn)) == Slot(i, NDIRECT + 1 + e) {
        assert Addr(bs', ino[j], FileSlot(bn)) == b;
      } else {
        assert Addr(bs', ino[j], FileSlot(bn)) == Addr(bs, ino[j], FileSlot(bn));
      }
    }
  }

  /** Writing a file's block changes that block of that file and nothing else in any file. */
  lemma WriteData(sb: Super, bs: Blocks, ino: seq<Inode>, owner: Owner, i: nat, bn: nat, blk: Block)
    requires Linked(sb, bs, ino, owner, 0, 0) && i < |ino| && bn < MAXFILE && Addr(bs, ino[i], FileSlot(bn)) != 0
    ensures var a := Addr(bs, ino[i], FileSlot(bn));
            && sb.data <= a < sb.size && a as nat in owner && owner[a].k != NDIRECT
            && Linked(sb, bs[a := blk], ino, owner, 0, 0)
            && (forall j, k :: 0 <= j < |ino| && 0 <= k < NSLOTS ==> Addr(bs[a := blk], ino[j], k) == Addr(bs, ino[j], k))
            && Data(bs[a := blk], ino[i], bn) == blk
            && forall j, m :: 0 <= j < |ino| && 0 <= m < MAXFILE && (j != i || m != bn) ==>
                 Data(bs[a := blk], ino[j], m) == Data(bs, ino[j], m)
  {
    var a := Addr(bs, ino[i], FileSlot(bn));
    SlotFacts(bn);
    OwnedIsData(sb, bs, ino, owner, 0, 0, i, FileSlot(bn));
    AddrsKept(sb, bs, ino, owner, 0, 0, a, blk);
    forall j, m | 0 <= j < |ino| && 0 <= m < MAXFILE && (j != i || m != bn)
      ensures Data(bs[a := blk], ino[j], m) == Data(bs, ino[j], m)
    {
      SlotFacts(m);
      OwnedIsData(sb, bs, ino, owner, 0, 0, j, FileSlot(m));
    }
  }

  // ---------------------------------------------------------------- growing a file

  /** What bmap may do on behalf of inode i: add addresses where there were none. No address moves, no
      other inode changes, and every block of every file, present or not, reads as before. */
  ghost predicate Grown(sb: Super, bs: Blocks, ino: seq<Inode>, owner: Owner, bs': Blocks, ino': seq<Inode>, owner': Owner, i: nat) {
    && FsInv(sb, bs', ino', owner') && |ino'| == |ino| && i < |ino| && |bs| == |bs'|
    && (forall j :: 0 <= j < |ino| && j != i ==> ino'[j] == ino[j])
    && ino'[i] == ino[i].(addrs := ino'[i].addrs)
    && SameData(bs, ino, bs', ino')
    && (forall j, k :: 0 <= j < |ino| && 0 <= k < NSLOTS && (j != i || Addr(bs, ino[j], k) != 0) ==>
          Addr(bs', ino'[j], k) == Addr(bs, ino[j], k))
    && (forall x :: 0 <= x < sb.bmapstart ==> bs'[x] == bs[x])
    && (forall x :: x in owner ==> x in owner' && owner'[x] == owner[x])
  }

  lemma GrownTrans(sb: Super, bs: Blocks, ino: seq<Inode>, owner: Owner, bs1: Blocks, ino1: seq<Inode>, owner1: Owner,
                   bs2: Blocks, ino2: seq<Inode>, owner2: Owner, i: nat)
    requires Grown(sb, bs, ino, owner, bs1, ino1, owner1, i) && Grown(sb, bs1, ino1, owner1, bs2, ino2, owner2, i)
    ensures Grown(sb, bs, ino, owner, bs2, ino2, owner2, i)
  {
    forall j, k | 0 <= j < |ino| && 0 <= k < NSLOTS && (j != i || Addr(bs, ino[j], k) != 0)
      ensures Addr(bs2, ino2[j], k) == Addr(bs, ino[j], k)
    {
      assert Addr(bs1, ino1[j], k) == Addr(bs, ino[j], k);
    }
    SameDataTrans(bs, ino, bs1, ino1, bs2, ino2);
  }

  /** balloc, and its result stored in an empty inode slot. */
  lemma GrowInode(sb: Super, bs: Blocks, ino: seq<Inode>, owner: Owner, i: nat, k: nat, b: uint)
    requires FsInv(sb, bs, ino, owner) && b < sb.size && BBlock(sb, b) < |bs| && !InUse(sb, bs, b)
    requires i < |ino| && k <= NDIRECT && ino[i].addrs[k] == 0
    ensures b > 0 && Grown(sb, bs, ino, owner, Allocated(sb, bs, b), ino[i := WithAddr(ino[i], k, b)], owner[b as nat := Slot(i, k)], i)
  {
    var bs1, ino1 := Allocated(sb, bs, b), ino[i := WithAddr(ino[i], k, b)];
    AllocatedInv(sb, bs, ino, owner, b);
    AllocData(sb, bs, ino, owner, b);
    AttachInode(sb, bs1, ino, owner, i, k, b);
    AttachInodeData(sb, bs1, ino, owner, i, k, b);
    LayoutFacts(sb, b, 0);
    forall j, l | 0 <= j < |ino| && 0 <= l < NSLOTS && (j != i || Addr(bs, ino[j], l) != 0)
      ensures Addr(bs1, ino1[j], l) == Addr(bs, ino[j], l)
    {
      assert Addr(bs1, ino[j], l) == Addr(bs, ino[j], l);
      assert Slot(j, l) != Slot(i, k);
    }
    SameDataTrans(bs, ino, bs1, ino, bs1, ino1);
  }

  lemma SameDataTrans(bs: Blocks, ino: seq<Inode>, bs1: Blocks, ino1: seq<Inode>, bs2: Blocks, ino2: seq<Inode>)
    requires SameData(bs, ino, bs1, ino1) && SameData(bs1, ino1, bs2, ino2)
    ensures SameData(bs, ino, bs2, ino2)
  {
    forall j, bn | 0 <= j < |ino| && 0 <= bn < MAXFILE ensures Data(bs2, ino2[j], bn) == Data(bs, ino[j], bn) {
      assert Data(bs1, ino1[j], bn) == Data(bs, ino[j], bn);
    }
  }

  lemma GrowEntryAddrs(sb: Super, bs: Blocks, bs1: Blocks, ino: seq<Inode>, owner: Owner, i: nat, e: nat, b: uint)
    requires Linked(sb, bs1, ino, owner, 0, 0) && i < |ino| && e < NINDIRECT && ino[i].addrs[NDIRECT] != 0
    requires Addr(bs, ino[i], NDIRECT + 1 + e) == 0
    requires forall j, k :: 0 <= j < |ino| && 0 <= k < NSLOTS ==> Addr(bs1, ino[j], k) == Addr(bs, ino[j], k)
    ensures var a := ino[i].addrs[NDIRECT];
            && sb.data <= a < sb.size
            && var bs2 := bs1[a := SetWord(bs1[a], e, b)];
            && Addr(bs2, ino[i], NDIRECT + 1 + e) == b
            && forall j, k :: 0 <= j < |ino| && 0 <= k < NSLOTS && (j != i || Addr(bs, ino[j], k) != 0) ==>
                 Addr(bs2, ino[j], k) == Addr(bs, ino[j], k)
  {
    EntryAddrs(sb, bs1, ino, owner, i, e, b);
    var a := ino[i].addrs[NDIRECT];
    var bs2 := bs1[a := SetWord(bs1[a], e, b)];
    forall j, l | 0 <= j < |ino| && 0 <= l < NSLOTS && (j != i || Addr(bs, ino[j], l) != 0)
      ensures Addr(bs2, ino[j], l) == Addr(bs, ino[j], l)
    {
      assert Addr(bs1, ino[j], l) == Addr(bs, ino[j], l);
      assert Slot(j, l) != Slot(i, NDIRECT + 1 + e);
    }
  }

  /** balloc, and its result stored in an empty entry of the indirect block. */
  lemma GrowEntry(sb: Super, bs: Blocks, ino: seq<Inode>, owner: Owner, i: nat, e: nat, b: uint)
    requires FsInv(sb, bs, ino, owner) && b < sb.size && BBlock(sb, b) < |bs| && !InUse(sb, bs, b)
    requires i < |ino| && e < NINDIRECT && ino[i].addrs[NDIRECT] != 0 && Addr(bs, ino[i], NDIRECT + 1 + e) == 0
    ensures var a := ino[i].addrs[NDIRECT]; var bs1 := Allocated(sb, bs, b);
            && b > 0 && sb.data <= a < sb.size && a != b
            && Grown(sb, bs, ino, owner, bs1[a := SetWord(bs1[a], e, b)], ino, owner[b as nat := Slot(i, NDIRECT + 1 + e)], i)
            && Addr(bs1[a := SetWord(bs1[a], e, b)], ino[i], NDIRECT + 1 + e) == b
  {
    var bs1 := Allocated(sb, bs, b);
    AllocatedInv(sb, bs, ino, owner, b);
    GrowEntryAddrs(sb, bs, bs1, ino, owner, i, e, b);
    GrowEntryInv(sb, bs, ino, owner, i, e, b);
    LayoutFacts(sb, b, 0);
  }

  lemma GrowEntryInv(sb: Super, bs: Blocks, ino: seq<Inode>, owner: Owner, i: nat, e: nat, b: uint)
    requires FsInv(sb, bs, ino, owner) && b < sb.size && BBlock(sb, b) < |bs| && !InUse(sb, bs, b)
    requires i < |ino| && e < NINDIRECT && ino[i].addrs[NDIRECT] != 0 && Addr(bs, ino[i], NDIRECT + 1 + e) == 0
    ensures var a := ino[i].addrs[NDIRECT]; var bs1 := Allocated(sb, bs, b);
            && sb.data <= a < sb.size && a != b
            && FsInv(sb, bs1[a := SetWord(bs1[a], e, b)], ino, owner[b as nat := Slot(i, NDIRECT + 1 + e)])
            && SameData(bs, ino, bs1[a := SetWord(bs1[a], e, b)], ino)
  {
    var a := ino[i].addrs[NDIRECT];
    var bs1 := Allocated(sb, bs, b);
    AllocatedInv(sb, bs, ino, owner, b);
    assert Addr(bs1, ino[i], NDIRECT + 1 + e) == 0;
    AttachEntry(sb, bs1, ino, owner, i, e, b);
    AllocData(sb, bs, ino, owner, b);
    AttachEntryData(sb, bs1, ino, owner, i, e, b);
    SameDataTrans(bs, ino, bs1, ino, bs1[a := SetWord(bs1[a], e, b)], ino);
  }

  lemma GrownSelf(sb: Super, bs: Blocks, ino: seq<Inode>, owner: Owner, i: nat)
    requires FsInv(sb, bs, ino, owner) && i < |ino|
    ensures Grown(sb, bs, ino, owner, bs, ino, owner, i)
  {
  }

  // ---------------------------------------------------------------- bytes

  /** The bytes [off, off + |part|) of file i became part; every other byte of every file is as before. */
  ghost predicate Wrote(bs: Blocks, ino: seq<Inode>, bs': Blocks, ino': seq<Inode>, i: nat, off: nat, part: seq<byte>) {
    && |ino| == |ino'| && i < |ino|
    && forall j, o :: 0 <= j < |ino| && 0 <= o ==>
         ByteAt(bs', ino'[j], o) == if j == i && off <= o < off + |part| then part[o - off] else ByteAt(bs, ino[j], o)
  }

  lemma WroteTrans(bs: Blocks, ino: seq<Inode>, bs1: Blocks, ino1: seq<Inode>, bs2: Blocks, ino2: seq<Inode>,
                   i: nat, off: nat, a: seq<byte>, b: seq<byte>)
    requires Wrote(bs, ino, bs1, ino1, i, off, a) && Wrote(bs1, ino1, bs2, ino2, i, off + |a|, b)
    ensures Wrote(bs, ino, bs2, ino2, i, off, a + b)
  {
    forall j, o | 0 <= j < |ino| && 0 <= o
      ensures ByteAt(bs2, ino2[j], o) == if j == i && off <= o < off + |a + b| then (a + b)[o - off] else ByteAt(bs, ino[j], o)
    {
      assert ByteAt(bs1, ino1[j], o) == if j == i && off <= o < off + |a| then a[o - off] else ByteAt(bs, ino[j], o);
    }
  }

  /** Data kept block by block is data kept byte by byte. */
  lemma SameDataBytes(bs: Blocks, ino: seq<Inode>, bs': Blocks, ino': seq<Inode>, i: nat, off: nat)
    requires SameData(bs, ino, bs', ino') && i < |ino|
    ensures Wrote(bs, ino, bs', ino', i, off, [])
  {
    forall j, o | 0 <= j < |ino| && 0 <= o ensures ByteAt(bs', ino'[j], o) == ByteAt(bs, ino[j], o) {
      if o / BSIZE < MAXFILE { assert Data(bs', ino'[j], o / BSIZE) == Data(bs, ino[j], o / BSIZE); }
    }
  }

  lemma InBlock(off: nat, n: nat, o: nat)
    requires off % BSIZE + n <= BSIZE && o / BSIZE == off / BSIZE
    ensures off <= o < off + n <==> off % BSIZE <= o % BSIZE < off % BSIZE + n
    ensures off <= o < off + n ==> o - off == o % BSIZE - off % BSIZE
  {
  }

  lemma OutOfBlock(off: nat, n: nat, o: nat)
    requires off % BSIZE + n <= BSIZE && o / BSIZE != off / BSIZE
    ensures !(off <= o < off + n)
  {
    assert off + n <= BSIZE * (off / BSIZE) + BSIZE;
  }

  /** Splicing bytes into one block of one file. */
  lemma SpliceLinked(sb: Super, bs: Blocks, ino: seq<Inode>, owner: Owner, i: nat, off: nat, part: seq<byte>, a: nat, bs': Blocks)
    requires Linked(sb, bs, ino, owner, 0, 0) && i < |ino| && off / BSIZE < MAXFILE && off % BSIZE + |part| <= BSIZE
    requires a == Addr(bs, ino[i], FileSlot(off / BSIZE)) != 0 && (a < |bs| ==> bs' == bs[a := Splice(bs[a], off % BSIZE, part)])
    ensures sb.data <= a < sb.size && a in owner && owner[a].k != NDIRECT
    ensures Linked(sb, bs', ino, owner, 0, 0) && Wrote(bs, ino, bs', ino, i, off, part)
    ensures forall j, k :: 0 <= j < |ino| && 0 <= k < NSLOTS ==> Addr(bs', ino[j], k) == Addr(bs, ino[j], k)
  {
    var bn := off / BSIZE;
    OwnedIsData(sb, bs, ino, owner, 0, 0, i, FileSlot(bn));
    WriteData(sb, bs, ino, owner, i, bn, Splice(bs[a], off % BSIZE, part));
    forall j, o | 0 <= j < |ino| && 0 <= o
      ensures ByteAt(bs', ino[j], o) == if j == i && off <= o < off + |part| then part[o - off] else ByteAt(bs, ino[j], o)
    {
      if j == i && o / BSIZE == bn {
        SplicedByte(bs, bs', ino[i], off, part, o);
      } else {
        if j == i { OutOfBlock(off, |part|, o); }
        if o / BSIZE < MAXFILE { assert Data(bs', ino[j], o / BSIZE) == Data(bs, ino[j], o / BSIZE); }
      }
    }
  }

  lemma SpliceBytes(sb: Super, bs: Blocks, ino: seq<Inode>, owner: Owner, i: nat, off: nat, part: seq<byte>, a: nat, bs': Blocks)
    requires FsInv(sb, bs, ino, owner) && i < |ino| && off / BSIZE < MAXFILE && off % BSIZE + |part| <= BSIZE
    requires a == Addr(bs, ino[i], FileSlot(off / BSIZE)) != 0 && (a < |bs| ==> bs' == bs[a := Splice(bs[a], off % BSIZE, part)])
    ensures sb.data <= a < sb.size && FsInv(sb, bs', ino, owner) && Wrote(bs, ino, bs', ino, i, off, part)
    ensures forall j, k :: 0 <= j < |ino| && 0 <= k < NSLOTS ==> Addr(bs', ino[j], k) == Addr(bs, ino[j], k)
  {
    SpliceLinked(sb, bs, ino, owner, i, off, part, a, bs');
    PlainWriteInv(sb, bs, ino, owner, a, Splice(bs[a], off % BSIZE, part));
  }

  lemma SplicedByte(bs: Blocks, bs': Blocks, ip: Inode, off: nat, part: seq<byte>, o: nat)
    requires off % BSIZE + |part| <= BSIZE && o / BSIZE == off / BSIZE < MAXFILE
    requires Data(bs', ip, o / BSIZE) == Splice(Data(bs, ip, o / BSIZE), off % BSIZE, part)
    ensures ByteAt(bs', ip, o) == if off <= o < off + |part| then part[o - off] else ByteAt(bs, ip, o)
  {
    InBlock(off, |part|, o);
  }

  /** Work on inode i that touches nothing of the others, keeps i's other fields and every address it
      already has, and writes no inode block. */
  ghost predicate OnlyGrew(sb: Super, bs: Blocks, ino: seq<Inode>, bs': Blocks, ino': seq<Inode>, i: nat) {
    && |ino| == |ino'| && |bs| == |bs'| && i < |ino| && sb.bmapstart <= |bs|
    && (forall j :: 0 <= j < |ino| && j != i ==> ino'[j] == ino[j])
    && ino'[i] == ino[i].(addrs := ino'[i].addrs)
    && (forall k :: 0 <= k < NSLOTS && Addr(bs, ino[i], k) != 0 ==> Addr(bs', ino'[i], k) == Addr(bs, ino[i], k))
    && (forall x :: 0 <= x < sb.bmapstart ==> bs'[x] == bs[x])
  }

  lemma OnlyGrewTrans(sb: Super, bs: Blocks, ino: seq<Inode>, bs1: Blocks, ino1: seq<Inode>, bs2: Blocks, ino2: seq<Inode>, i: nat)
    requires OnlyGrew(sb, bs, ino, bs1, ino1, i) && OnlyGrew(sb, bs1, ino1, bs2, ino2, i)
    ensures OnlyGrew(sb, bs, ino, bs2, ino2, i)
  {
    forall k | 0 <= k < NSLOTS && Addr(bs, ino[i], k) != 0 ensures Addr(bs2, ino2[i], k) == Addr(bs, ino[i], k) {
      assert Addr(bs1, ino1[i], k) == Addr(bs, ino[i], k);
    }
  }

  lemma GrownOnlyGrew(sb: Super, bs: Blocks, ino: seq<Inode>, owner: Owner, bs': Blocks, ino': seq<Inode>, owner': Owner, i: nat)
    requires Grown(sb, bs, ino, owner, bs', ino', owner', i)
    ensures OnlyGrew(sb, bs, ino, bs', ino', i)
  {
  }

  lemma SpliceOnlyGrew(sb: Super, bs: Blocks, ino: seq<Inode>, bs1: Blocks, ino1: seq<Inode>, i: nat, a: nat, blk: Block)
    requires OnlyGrew(sb, bs, ino, bs1, ino1, i) && sb.bmapstart <= a < |bs1|
    requires forall k :: 0 <= k < NSLOTS ==> Addr(bs1[a := blk], ino1[i], k) == Addr(bs1, ino1[i], k)
    ensures OnlyGrew(sb, bs, ino, bs1[a := blk], ino1, i)
  {
  }

  lemma WroteAfterGrow(bs: Blocks, ino: seq<Inode>, bs1: Blocks, ino1: seq<Inode>, bs2: Blocks, ino2: seq<Inode>,
                       i: nat, off: nat, part: seq<byte>)
    requires SameData(bs, ino, bs1, ino1) && Wrote(bs1, ino1, bs2, ino2, i, off, part)
    ensures Wrote(bs, ino, bs2, ino2, i, off, part)
  {
    SameDataBytes(bs, ino, bs1, ino1, i, off);
    assert [] + part == part;
    WroteTrans(bs, ino, bs1, ino1, bs2, ino2, i, off, [], part);
  }

  /** bmap and then the splice, taken together. */
  lemma ChunkMeaning(sb: Super, bs: Blocks, ino: seq<Inode>, owner: Owner, bs1: Blocks, ino1: seq<Inode>, owner1: Owner,
                     i: nat, off: nat, part: seq<byte>)
    requires Grown(sb, bs, ino, owner, bs1, ino1, owner1, i) && off / BSIZE < MAXFILE && off % BSIZE + |part| <= BSIZE
    requires Addr(bs1, ino1[i], FileSlot(off / BSIZE)) != 0
    ensures var a := Addr(bs1, ino1[i], FileSlot(off / BSIZE));
            && sb.data <= a < sb.size && |bs1| == sb.size
            && var bs2 := bs1[a := Splice(bs1[a], off % BSIZE, part)];
            && FsInv(sb, bs2, ino1, owner1) && OnlyGrew(sb, bs, ino, bs2, ino1, i)
            && Wrote(bs, ino, bs2, ino1, i, off, part) && Addr(bs2, ino1[i], FileSlot(off / BSIZE)) == a
            && (forall k :: 0 <= k < NSLOTS ==> Addr(bs2, ino1[i], k) == Addr(bs1, ino1[i], k))
  {
    var a := Addr(bs1, ino1[i], FileSlot(off / BSIZE));
    OwnedIsData(sb, bs1, ino1, owner1, 0, 0, i, FileSlot(off / BSIZE));
    SpliceBytes(sb, bs1, ino1, owner1, i, off, part, a, bs1[a := Splice(bs1[a], off % BSIZE, part)]);
    GrownOnlyGrew(sb, bs, ino, owner, bs1, ino1, owner1, i);
    SpliceOnlyGrew(sb, bs, ino, bs1, ino1, i, a, Splice(bs1[a], off % BSIZE, part));
    WroteAfterGrow(bs, ino, bs1, ino1, bs1[a := Splice(bs1[a], off % BSIZE, part)], ino1, i, off, part);
  }

  // ---------------------------------------------------------------- writei's bookkeeping

  const CHUNK: nat := 1536    // ((MAXOPBLOCKS - 1 - 1 - 2) / 2) * 512

  /** The piece of a transfer that fits the block at o. */
  function Piece(o: nat, rest: nat): (m: nat)
    ensures o % BSIZE + m <= BSIZE && m <= rest && (rest > 0 ==> m > 0)
    ensures m == rest || (o + m) % BSIZE == 0
  {
    if rest < BSIZE - o % BSIZE then rest else BSIZE - o % BSIZE
  }

  /** How many blocks the bytes [off, off + n) touch. */
  function Touched(off: nat, n: nat): nat {
    if n == 0 then 0 else (off + n - 1) / BSIZE - off / BSIZE + 1
  }

  lemma TouchedMore(off: nat, tot: nat, rest: nat)
    requires rest > 0 && (tot == 0 || (off + tot) % BSIZE == 0)
    ensures Touched(off, tot + Piece(off + tot, rest)) == Touched(off, tot) + 1
  {
    var o, m := off + tot, Piece(off + tot, rest);
    assert (o + m - 1) / BSIZE == o / BSIZE by {
      assert o == BSIZE * (o / BSIZE) + o % BSIZE;
    }
    if tot > 0 {
      assert (o - 1) / BSIZE + 1 == o / BSIZE;
    }
  }

  /** A filewrite chunk touches at most four blocks, and three when it starts on a block boundary. */
  lemma TouchedChunk(off: nat, n: nat)
    requires n <= CHUNK
    ensures Touched(off, n) <= 4 && (off % BSIZE == 0 ==> Touched(off, n) <= 3)
  {
    if n > 0 {
      var q, r := off / BSIZE, off % BSIZE;
      assert off + n - 1 == BSIZE * q + (r + n - 1);
      assert (off + n - 1) / BSIZE == q + (r + n - 1) / BSIZE;
    }
  }

  /** What writei has done to the file system after tot bytes. */
  ghost predicate LoopContent(sb: Super, bs0: Blocks, ino0: seq<Inode>, bs: Blocks, ino: seq<Inode>, i: nat, off: nat, src: seq<byte>, tot: nat) {
    tot <= |src| && OnlyGrew(sb, bs0, ino0, bs, ino, i) && Wrote(bs0, ino0, bs, ino, i, off, src[..tot])
  }

  lemma LoopContentStep(sb: Super, bs0: Blocks, ino0: seq<Inode>, bs1: Blocks, ino1: seq<Inode>, bs2: Blocks, ino2: seq<Inode>,
                        i: nat, off: nat, src: seq<byte>, tot: nat, next: nat, o: nat, part: seq<byte>)
    requires LoopContent(sb, bs0, ino0, bs1, ino1, i, off, src, tot) && OnlyGrew(sb, bs1, ino1, bs2, ino2, i)
    requires tot < |src| && next == tot + Piece(o, |src| - tot)
    requires o == off + tot && part == src[tot..next] && Wrote(bs1, ino1, bs2, ino2, i, o, part)
    ensures LoopContent(sb, bs0, ino0, bs2, ino2, i, off, src, next)
  {
    OnlyGrewTrans(sb, bs0, ino0, bs1, ino1, bs2, ino2, i);
    assert src[..next] == src[..tot] + part;
    WroteTrans(bs0, ino0, bs1, ino1, bs2, ino2, i, off, src[..tot], part);
  }

  /** The inode's indirect block, if it has one. */
  function IndirectOf(ip: Inode): set<nat> {
    if ip.addrs[NDIRECT] == 0 then {} else {ip.addrs[NDIRECT] as nat}
  }

  /** 1 when the indirect block was added between ip0 and ip. */
  function NewIndirect(ip0: Inode, ip: Inode): nat {
    if ip0.addrs[NDIRECT] == 0 && ip.addrs[NDIRECT] != 0 then 1 else 0
  }

  /** What writei has logged after tot bytes: bitmap blocks, the data blocks d, and the indirect block.
      `added` of the data blocks are new; the first one is not if it was there (`had`). */
  ghost predicate LoopBudget(off: nat, had: bool, tot: nat, logged0: set<nat>, logged: set<nat>, maps: set<nat>, d: set<nat>,
                             ip0: Inode, ip: Inode, allocs0: nat, allocs: nat, added: nat) {
    && logged <= logged0 + maps + d + IndirectOf(ip) && |d| <= Touched(off, tot)
    && allocs <= allocs0 + added + NewIndirect(ip0, ip)
    && (tot == 0 ==> added == 0)
    && (tot > 0 ==> added + (if had then 1 else 0) <= Touched(off, tot))
  }

  lemma LoopBudgetStep(off: nat, had0: bool, tot: nat, o: nat, next: nat, rest: nat, logged0: set<nat>, logged: set<nat>, maps: set<nat>, d: set<nat>,
                       ip0: Inode, ip: Inode, allocs0: nat, allocs: nat, added: nat,
                       logged': set<nat>, maps': set<nat>, a: nat, ip': Inode, allocs': nat, had: bool)
    requires LoopBudget(off, had0, tot, logged0, logged, maps, d, ip0, ip, allocs0, allocs, added)
    requires rest > 0 && o == off + tot && next == tot + Piece(o, rest) && (tot == 0 || o % BSIZE == 0)
    requires logged' <= logged + maps' + {a} + IndirectOf(ip') && maps <= maps' && IndirectOf(ip) <= IndirectOf(ip')
    requires ip0.addrs[NDIRECT] != 0 ==> ip.addrs[NDIRECT] != 0
    requires ip.addrs[NDIRECT] != 0 ==> ip'.addrs[NDIRECT] != 0
    requires if had then allocs' == allocs else allocs' <= allocs + 1 + NewIndirect(ip, ip')
    requires tot == 0 && had0 ==> had
    ensures LoopBudget(off, had0, next, logged0, logged', maps', d + {a}, ip0, ip', allocs0, allocs', added + if had then 0 else 1)
  {
    TouchedMore(off, tot, rest);
    assert |d + {a}| <= |d| + 1;
  }

  /** A filewrite chunk logs at most MAXOPBLOCKS distinct blocks: four data blocks, a bitmap block for
      each of at most four allocations, the indirect block and the inode block; one more when it starts inside
      a block that is not there. */
  lemma ChunkBudget(off: nat, had: bool, n: nat, logged: set<nat>, maps: set<nat>, d: set<nat>, ip0: Inode, ip: Inode, allocs: nat, added: nat, ib: nat)
    requires LoopBudget(off, had, n, {}, logged, maps, d, ip0, ip, 0, allocs, added) && |maps| <= allocs && n <= CHUNK
    ensures |logged + {ib}| <= if had || off % BSIZE == 0 then 10 else 11
  {
    TouchedChunk(off, n);
    var all := maps + d + IndirectOf(ip);
    assert |maps + d| <= |maps| + |d|;
    assert |all| <= |maps + d| + |IndirectOf(ip)|;
    assert |all| <= if had || off % BSIZE == 0 then 9 else 10;
    SubsetSize(logged, all);
    assert |logged + {ib}| <= |logged| + 1;
  }

  lemma IndirectKept(sb: Super, bs: Blocks, ino: seq<Inode>, bs': Blocks, ino': seq<Inode>, i: nat)
    requires OnlyGrew(sb, bs, ino, bs', ino', i)
    ensures IndirectOf(ino[i]) <= IndirectOf(ino'[i]) && (ino[i].addrs[NDIRECT] != 0 ==> ino'[i].addrs[NDIRECT] != 0)
  {
    assert Addr(bs, ino[i], NDIRECT) == ino[i].addrs[NDIRECT];
    assert Addr(bs', ino'[i], NDIRECT) == ino'[i].addrs[NDIRECT];
  }

  // ---------------------------------------------------------------- sizes and whole files

  function WithSize(ino: seq<Inode>, i: nat, n: uint): seq<Inode>
    requires i < |ino|
  {
    ino[i := ino[i].(size := n)]
  }

  /** Changing a file's size moves no address and no byte. */
  lemma SizeInv(sb: Super, bs: Blocks, ino: seq<Inode>, owner: Owner, i: nat, n: uint)
    requires FsInv(sb, bs, ino, owner) && i < |ino|
    ensures FsInv(sb, bs, WithSize(ino, i, n), owner)
    ensures var ino' := WithSize(ino, i, n);
            && (forall j, k :: 0 <= j < |ino| && 0 <= k < NSLOTS ==> Addr(bs, ino'[j], k) == Addr(bs, ino[j], k))
            && (forall j, o :: 0 <= j < |ino| && 0 <= o ==> ByteAt(bs, ino'[j], o) == ByteAt(bs, ino[j], o))
  {
    var ino' := WithSize(ino, i, n);
    forall j, k | 0 <= j < |ino| && 0 <= k < NSLOTS ensures Addr(bs, ino'[j], k) == Addr(bs, ino[j], k) {}
    forall j, o | 0 <= j < |ino| && 0 <= o ensures ByteAt(bs, ino'[j], o) == ByteAt(bs, ino[j], o) {}
  }

  /** The file after a write of src at off, as a byte sequence. */
  function Overwritten(f: seq<byte>, off: nat, src: seq<byte>): seq<byte>
    requires off <= |f|
  {
    f[..off] + src + if off + |src| <= |f| then f[off + |src|..] else []
  }

  lemma SameContent(bs: Blocks, ip: Inode, bs': Blocks, ip': Inode)
    requires ip'.size == ip.size && forall o :: 0 <= o < ip.size ==> ByteAt(bs', ip', o) == ByteAt(bs, ip, o)
    ensures Content(bs', ip') == Content(bs, ip)
  {
    forall o | 0 <= o < ip.size ensures Content(bs', ip')[o] == Content(bs, ip)[o] {
      FirstBytesAt(bs', ip', ip.size, o);
      FirstBytesAt(bs, ip, ip.size, o);
    }
  }

  /** What writei leaves behind, in bytes: file i is overwritten at off and grows as needed, every other
      file is as before. */
  lemma ContentAfter(bs: Blocks, ino: seq<Inode>, bs': Blocks, ino': seq<Inode>, i: nat, off: nat, src: seq<byte>)
    requires Wrote(bs, ino, bs', ino', i, off, src) && off <= ino[i].size
    requires ino'[i].size == if off + |src| > ino[i].size then off + |src| else ino[i].size
    requires forall j :: 0 <= j < |ino| && j != i ==> ino'[j].size == ino[j].size
    ensures Content(bs', ino'[i]) == Overwritten(Content(bs, ino[i]), off, src)
    ensures forall j :: 0 <= j < |ino| && j != i ==> Content(bs', ino'[j]) == Content(bs, ino[j])
  {
    var f, f' := Content(bs, ino[i]), Content(bs', ino'[i]);
    forall o | 0 <= o < |f'| ensures f'[o] == Overwritten(f, off, src)[o] {
      FirstBytesAt(bs', ino'[i], |f'|, o);
      if o < |f| { FirstBytesAt(bs, ino[i], |f|, o); }
      assert ByteAt(bs', ino'[i], o) == if off <= o < off + |src| then src[o - off] else ByteAt(bs, ino[i], o);
    }
    forall j | 0 <= j < |ino| && j != i ensures Content(bs', ino'[j]) == Content(bs, ino[j]) {
      forall o | 0 <= o < ino[j].size ensures ByteAt(bs', ino'[j], o) == ByteAt(bs, ino[j], o) {
      }
      SameContent(bs, ino[j], bs', ino'[j]);
    }
  }

  /** The on-disk inode equals the in-memory one. */
  predicate Synced(sb: Super, bs: Blocks, ip: Inode, j: nat) {
    IBlock(sb, j) < |bs| && Dinode(sb, bs, j) == ip
  }

  predicate SameDinode(sb: Super, bs: Blocks, bs': Blocks, j: nat) {
    IBlock(sb, j) < |bs| && IBlock(sb, j) < |bs'| && Dinode(sb, bs', j) == Dinode(sb, bs, j)
  }

  /** What a successful writei has done. */
  ghost predicate WriteDone(sb: Super, bs0: Blocks, ino0: seq<Inode>, bs: Blocks, ino: seq<Inode>, i: nat, off: nat, src: seq<byte>) {
    && |ino| == |ino0| && i < |ino| && off <= ino0[i].size && off + |src| < 0x1_0000_0000
    && Wrote(bs0, ino0, bs, ino, i, off, src)
    && ino[i] == ino0[i].(size := if off + |src| > ino0[i].size then off + |src| else ino0[i].size, addrs := ino[i].addrs)
    && (forall j :: 0 <= j < |ino| && j != i ==> ino[j] == ino0[j])
    && (forall j: nat :: j < |ino| && j != i && Synced(sb, bs0, ino0[j], j) ==> Synced(sb, bs, ino[j], j))
  }

  /** The write stayed within the file. */
  lemma DoneInside(sb: Super, bs0: Blocks, ino0: seq<Inode>, bs: Blocks, ino: seq<Inode>, i: nat, off: nat, src: seq<byte>)
    requires sb.Ok() && |ino0| == sb.ninodes && |bs0| == sb.size
    requires LoopContent(sb, bs0, ino0, bs, ino, i, off, src, |src|) && off + |src| <= ino0[i].size
    ensures WriteDone(sb, bs0, ino0, bs, ino, i, off, src)
  {
    assert src[..|src|] == src;
    forall j: nat | j < |ino| && j != i && Synced(sb, bs0, ino0[j], j) ensures Synced(sb, bs, ino[j], j) {
      LayoutFacts(sb, 0, j);
    }
  }

  /** The write grew the file: its size was set and iupdate called. */
  lemma DoneGrown(sb: Super, bs0: Blocks, ino0: seq<Inode>, bs1: Blocks, ino1: seq<Inode>, owner1: Owner,
                  bs2: Blocks, ino2: seq<Inode>, i: nat, off: nat, src: seq<byte>, end: nat)
    requires FsInv(sb, bs1, ino1, owner1) && |bs0| == sb.size && end == off + |src|
    requires LoopContent(sb, bs0, ino0, bs1, ino1, i, off, src, |src|) && off <= ino0[i].size
    requires ino0[i].size < end <= MAXFILE * BSIZE && ino2 == WithSize(ino1, i, end)
    requires |bs2| == |bs1| && SameData(bs1, ino2, bs2, ino2)
    requires forall j, k :: 0 <= j < |ino2| && 0 <= k < NSLOTS ==> Addr(bs2, ino2[j], k) == Addr(bs1, ino2[j], k)
    requires forall j: nat :: j < sb.ninodes && j != i ==> SameDinode(sb, bs1, bs2, j)
    ensures WriteDone(sb, bs0, ino0, bs2, ino2, i, off, src)
  {
    assert src[..|src|] == src;
    SizeInv(sb, bs1, ino1, owner1, i, end);
    SameDataBytes(bs1, ino2, bs2, ino2, i, off);
    assert Wrote(bs0, ino0, bs2, ino2, i, off, src) by {
      forall j, o | 0 <= j < |ino0| && 0 <= o
        ensures ByteAt(bs2, ino2[j], o) == if j == i && off <= o < off + |src| then src[o - off] else ByteAt(bs0, ino0[j], o)
      {
        assert ByteAt(bs2, ino2[j], o) == ByteAt(bs1, ino2[j], o) == ByteAt(bs1, ino1[j], o);
      }
    }
    forall j: nat | j < |ino2| && j != i && Synced(sb, bs0, ino0[j], j) ensures Synced(sb, bs2, ino2[j], j) {
      LayoutFacts(sb, 0, j);
      assert SameDinode(sb, bs1, bs2, j);
    }
  }

  /** The bytes readi copies out of one block are those of the file. */
  lemma ReadPart(bs: Blocks, ip: Inode, a: nat, o: nat, m: nat)
    requires o / BSIZE < MAXFILE && a == Addr(bs, ip, FileSlot(o / BSIZE)) && 0 < a < |bs|
    requires o % BSIZE + m <= BSIZE && o + m <= ip.size
    ensures bs[a][o % BSIZE..o % BSIZE + m] == Content(bs, ip)[o..o + m]
  {
    var part, f := bs[a][o % BSIZE..o % BSIZE + m], Content(bs, ip)[o..o + m];
    forall k | 0 <= k < m ensures part[k] == f[k] {
      ReadByte(bs, ip, a, o, k, o + k);
    }
  }

  lemma ReadByte(bs: Blocks, ip: Inode, a: nat, o: nat, k: nat, x: nat)
    requires o / BSIZE < MAXFILE && a == Addr(bs, ip, FileSlot(o / BSIZE)) && 0 < a < |bs|
    requires o % BSIZE + k < BSIZE && x == o + k < ip.size
    ensures bs[a][o % BSIZE + k] == Content(bs, ip)[x]
  {
    assert x / BSIZE == o / BSIZE && x % BSIZE == o % BSIZE + k;
    FirstBytesAt(bs, ip, ip.size, x);
  }

  // ---------------------------------------------------------------- truncation

  /** owner is owner0 without the blocks in inode i's slots below k and its indirect entries below te. */
  ghost predicate Dropped(owner0: Owner, owner: Owner, i: nat, k: nat, te: nat) {
    && (forall b :: b in owner ==> b in owner0 && owner[b] == owner0[b])
    && (forall b :: b in owner0 ==> (b in owner <==> !(owner0[b].inum == i && (owner0[b].k < k || NDIRECT < owner0[b].k < te))))
  }

  /** Only bitmap blocks may differ. */
  ghost predicate OnlyBitmap(sb: Super, bs: Blocks, bs': Blocks) {
    |bs| == |bs'| && forall x :: 0 <= x < |bs| && (x < sb.bmapstart || x >= sb.data) ==> bs'[x] == bs[x]
  }

  /** Inode i has lost its first k addresses and is otherwise as before; no other inode changed. */
  ghost predicate Cleared(ino0: seq<Inode>, ino: seq<Inode>, i: nat, k: nat) {
    && |ino| == |ino0| && i < |ino| && (forall j :: 0 <= j < |ino| && j != i ==> ino[j] == ino0[j])
    && ino[i] == ino0[i].(addrs := ino[i].addrs)
    && forall l :: 0 <= l <= NDIRECT ==> ino[i].addrs[l] == if l < k then 0 else ino0[i].addrs[l]
  }

  /** What itrunc leaves: inode i owns nothing and is empty, exactly its blocks were freed, and no other
      inode, file or on-disk inode changed. */
  ghost predicate TruncDone(sb: Super, bs0: Blocks, ino0: seq<Inode>, owner0: Owner, bs: Blocks, ino: seq<Inode>, owner: Owner, i: nat) {
    && |ino| == |ino0| && i < |ino| && |bs| == |bs0|
    && (forall b :: b in owner <==> b in owner0 && owner0[b].inum != i)
    && (forall b :: b in owner ==> owner[b] == owner0[b])
    && (forall j :: 0 <= j < |ino| && j != i ==> ino[j] == ino0[j])
    && ino[i].size == 0 && ino[i].head == ino0[i].head && ino[i].links == ino0[i].links
    && (forall k :: 0 <= k < NSLOTS ==> Addr(bs, ino[i], k) == 0)
    && (forall x :: sb.data <= x < |bs| ==> bs[x] == bs0[x])
    && (forall j: nat :: j < |ino| && j != i ==> SameDinode(sb, bs0, bs, j))
  }

  /** So every other file reads as before. */
  lemma TruncKeepsFiles(sb: Super, bs0: Blocks, ino0: seq<Inode>, owner0: Owner, bs: Blocks, ino: seq<Inode>, owner: Owner, i: nat, j: nat)
    requires FsInv(sb, bs0, ino0, owner0) && TruncDone(sb, bs0, ino0, owner0, bs, ino, owner, i) && j < |ino| && j != i
    ensures Content(bs, ino[j]) == Content(bs0, ino0[j])
  {
    forall o | 0 <= o < ino0[j].size ensures ByteAt(bs, ino[j], o) == ByteAt(bs0, ino0[j], o) {
      if o / BSIZE < MAXFILE { TruncKeepsByte(sb, bs0, ino0, owner0, bs, ino, owner, i, j, o, FileSlot(o / BSIZE)); }
    }
    SameContent(bs0, ino0[j], bs, ino[j]);
  }

  lemma TruncKeepsByte(sb: Super, bs0: Blocks, ino0: seq<Inode>, owner0: Owner, bs: Blocks, ino: seq<Inode>, owner: Owner,
                       i: nat, j: nat, o: nat, k: nat)
    requires FsInv(sb, bs0, ino0, owner0) && TruncDone(sb, bs0, ino0, owner0, bs, ino, owner, i) && j < |ino| && j != i
    requires o / BSIZE < MAXFILE && k == FileSlot(o / BSIZE)
    ensures ByteAt(bs, ino[j], o) == ByteAt(bs0, ino0[j], o)
  {
    SlotFacts(o / BSIZE);
    assert Addr(bs0, ino0[j], NDIRECT) == ino0[j].addrs[NDIRECT];
    OwnedIsData(sb, bs0, ino0, owner0, 0, 0, j, NDIRECT);
    assert Addr(bs, ino[j], k) == Addr(bs0, ino0[j], k);
    OwnedIsData(sb, bs0, ino0, owner0, 0, 0, j, k);
  }

  lemma FreedOnlyBitmap(sb: Super, bs0: Blocks, bs: Blocks, b: nat)
    requires sb.Ok() && |bs| == sb.size && OnlyBitmap(sb, bs0, bs) && b < sb.size && BBlock(sb, b) < |bs|
    ensures OnlyBitmap(sb, bs0, Freed(sb, bs, b))
  {
    LayoutFacts(sb, b, 0);
  }

  /** An empty direct slot owns nothing, so passing over it drops nothing. */
  lemma DroppedSkip(sb: Super, bs: Blocks, ino: seq<Inode>, owner: Owner, owner0: Owner, i: nat, k: nat)
    requires FsInv(sb, bs, ino, owner) && Dropped(owner0, owner, i, k, 0) && i < |ino| && k < NDIRECT && ino[i].addrs[k] == 0
    ensures Dropped(owner0, owner, i, k + 1, 0)
  {
    forall b | b in owner ensures owner[b] != Slot(i, k) {
      assert Addr(bs, ino[owner[b].inum], owner[b].k) == b;
    }
  }

  lemma DroppedOne(owner0: Owner, owner: Owner, i: nat, k: nat, te: nat, b: nat, k': nat, te': nat)
    requires Dropped(owner0, owner, i, k, te) && b in owner && k <= NDIRECT
    requires (owner[b] == Slot(i, k) && k' == k + 1 && te' == te) || (owner[b] == Slot(i, te) && k' == k && te' == te + 1 && NDIRECT < te)
    requires forall c :: c in owner && c != b ==> owner[c] != owner[b]
    ensures Dropped(owner0, owner - {b}, i, k', te')
  {
  }

  lemma OwnersDiffer(sb: Super, bs: Blocks, ino: seq<Inode>, owner: Owner, ti: nat, te: nat, b: nat)
    requires Linked(sb, bs, ino, owner, ti, te) && b in owner
    ensures forall c :: c in owner && c != b ==> owner[c] != owner[b]
  {
    forall c | c in owner && c != b ensures owner[c] != owner[b] {
      assert Addr(bs, ino[owner[c].inum], owner[c].k) == c;
      assert Addr(bs, ino[owner[b].inum], owner[b].k) == b;
    }
  }

  /** One turn of itrunc's direct loop. */
  lemma DropDirectStep(sb: Super, bs: Blocks, ino: seq<Inode>, owner: Owner, bs0: Blocks, ino0: seq<Inode>, owner0: Owner, i: nat, k: nat)
    requires FsInv(sb, bs, ino, owner) && i < |ino| && k < NDIRECT && ino[i].addrs[k] != 0
    requires OnlyBitmap(sb, bs0, bs) && Cleared(ino0, ino, i, k) && Dropped(owner0, owner, i, k, 0)
    ensures var b: nat := ino[i].addrs[k]; var ino' := ino[i := WithAddr(ino[i], k, 0)];
            && b < sb.size && BBlock(sb, b) < |bs| && InUse(sb, bs, b)
            && FsInv(sb, Freed(sb, bs, b), ino', owner - {b})
            && OnlyBitmap(sb, bs0, Freed(sb, bs, b)) && Cleared(ino0, ino', i, k + 1) && Dropped(owner0, owner - {b}, i, k + 1, 0)
  {
    var b: nat := ino[i].addrs[k];
    DetachInode(sb, bs, ino, owner, i, k, 0);
    FreedOnlyBitmap(sb, bs0, bs, b);
    OwnersDiffer(sb, bs, ino, owner, 0, 0, b);
    DroppedOne(owner0, owner, i, k, 0, b, k + 1, 0);
  }

  /** One turn of itrunc's loop over the indirect block. */
  lemma DropEntryStep(sb: Super, bs: Blocks, ino: seq<Inode>, owner: Owner, bs0: Blocks, owner0: Owner, i: nat, te: nat, next: nat, b: nat, owner': Owner)
    requires Linked(sb, bs, ino, owner, i, te) && Marked(sb, bs, owner, sb.size) && i < |ino| && NDIRECT < te < NSLOTS && next == te + 1
    requires OnlyBitmap(sb, bs0, bs) && Dropped(owner0, owner, i, 0, te) && b == Addr(bs, ino[i], te) != 0 && owner' == owner - {b}
    ensures b < sb.size && BBlock(sb, b) < |bs| && InUse(sb, bs, b)
    ensures Linked(sb, Freed(sb, bs, b), ino, owner', i, next) && Marked(sb, Freed(sb, bs, b), owner', sb.size)
    ensures OnlyBitmap(sb, bs0, Freed(sb, bs, b)) && Dropped(owner0, owner', i, 0, next)
  {
    DetachEntry(sb, bs, ino, owner, i, te);
    FreedOnlyBitmap(sb, bs0, bs, b);
    OwnersDiffer(sb, bs, ino, owner, i, te, b);
    DroppedOne(owner0, owner, i, 0, te, b, 0, next);
  }

  lemma SkipEntryStep(sb: Super, bs: Blocks, ino: seq<Inode>, owner: Owner, owner0: Owner, i: nat, te: nat)
    requires Linked(sb, bs, ino, owner, i, te) && i < |ino| && NDIRECT < te < NSLOTS
    requires Dropped(owner0, owner, i, 0, te) && Addr(bs, ino[i], te) == 0
    ensures Linked(sb, bs, ino, owner, i, te + 1) && Dropped(owner0, owner, i, 0, te + 1)
  {
    ExemptMore(sb, bs, ino, owner, i, te);
    assert 0 !in owner;
    assert owner - {0} == owner;
    forall b | b in owner ensures owner[b] != Slot(i, te) {
      assert Addr(bs, ino[owner[b].inum], owner[b].k) == b;
    }
  }

  /** The end of itrunc's work on the block map: the indirect block itself. bs1, owner1 are the state
      after the direct loop, bs and owner after the indirect one. */
  lemma DropIndirectStep(sb: Super, bs: Blocks, ino: seq<Inode>, owner: Owner, bs0: Blocks, owner1: Owner, i: nat)
    requires Linked(sb, bs, ino, owner, i, NSLOTS) && Marked(sb, bs, owner, sb.size) && i < |ino| && ino[i].addrs[NDIRECT] != 0
    requires OnlyBitmap(sb, bs0, bs) && Dropped(owner1, owner, i, 0, NSLOTS)
    requires forall b :: b in owner1 && owner1[b].inum == i ==> NDIRECT <= owner1[b].k < NSLOTS
    ensures var b: nat := ino[i].addrs[NDIRECT]; var ino' := ino[i := WithAddr(ino[i], NDIRECT, 0)];
            && b < sb.size && BBlock(sb, b) < |bs| && InUse(sb, bs, b)
            && FsInv(sb, Freed(sb, bs, b), ino', owner - {b}) && OnlyBitmap(sb, bs0, Freed(sb, bs, b))
            && NoneOf(owner1, owner - {b}, i)
  {
    var b: nat := ino[i].addrs[NDIRECT];
    DetachInode(sb, bs, ino, owner, i, NDIRECT, NSLOTS);
    FreedOnlyBitmap(sb, bs0, bs, b);
    OwnersDiffer(sb, bs, ino, owner, i, NSLOTS, b);
  }

  /** owner is owner0 without inode i's blocks. */
  ghost predicate NoneOf(owner0: Owner, owner: Owner, i: nat) {
    && (forall b :: b in owner <==> b in owner0 && owner0[b].inum != i)
    && (forall b :: b in owner ==> owner[b] == owner0[b])
  }

  lemma NoIndirect(sb: Super, bs: Blocks, ino: seq<Inode>, owner: Owner, i: nat)
    requires FsInv(sb, bs, ino, owner) && i < |ino| && forall l :: 0 <= l <= NDIRECT ==> ino[i].addrs[l] == 0
    ensures NoneOf(owner, owner, i)
  {
    forall b | b in owner ensures owner[b].inum != i {
      assert Addr(bs, ino[owner[b].inum], owner[b].k) == b;
    }
  }

  /** The slots the direct loop leaves owned by i are the indirect block and its entries. */
  lemma DirectGone(sb: Super, bs: Blocks, ino: seq<Inode>, owner: Owner, i: nat)
    requires FsInv(sb, bs, ino, owner) && i < |ino| && forall l :: 0 <= l < NDIRECT ==> ino[i].addrs[l] == 0
    ensures forall b :: b in owner && owner[b].inum == i ==> NDIRECT <= owner[b].k < NSLOTS
  {
    forall b | b in owner && owner[b].inum == i ensures NDIRECT <= owner[b].k {
      assert Addr(bs, ino[owner[b].inum], owner[b].k) == b;
    }
  }

  /** From an emptied block map to the finished truncation, after the size is cleared and iupdate done. */
  lemma TruncFinish(sb: Super, bs0: Blocks, ino0: seq<Inode>, owner0: Owner, bs1: Blocks, ino1: seq<Inode>, owner1: Owner,
                    bs: Blocks, ino: seq<Inode>, i: nat)
    requires sb.Ok() && |bs0| == sb.size && |ino0| == sb.ninodes && OnlyBitmap(sb, bs0, bs1) && Cleared(ino0, ino1, i, NDIRECT + 1)
    requires NoneOf(owner0, owner1, i) && ino == WithSize(ino1, i, 0)
    requires sb.inodestart <= IBlock(sb, i) < sb.bmapstart && |bs| == |bs1| && bs == bs1[IBlock(sb, i) := bs[IBlock(sb, i)]]
    requires forall j: nat :: j < sb.ninodes && j != i ==> SameDinode(sb, bs1, bs, j)
    ensures TruncDone(sb, bs0, ino0, owner0, bs, ino, owner1, i)
  {
    forall j: nat | j < |ino| && j != i ensures SameDinode(sb, bs0, bs, j) {
      LayoutFacts(sb, 0, j);
      assert SameDinode(sb, bs1, bs, j);
    }
  }

  lemma NoneOfTrans(owner0: Owner, owner1: Owner, owner: Owner, i: nat)
    requires Dropped(owner0, owner1, i, NDIRECT, 0) && NoneOf(owner1, owner, i)
    ensures NoneOf(owner0, owner, i)
  {
  }

  lemma IndirectInRange(sb: Super, bs: Blocks, ino: seq<Inode>, owner: Owner, i: nat, te: nat)
    requires Linked(sb, bs, ino, owner, i, te) && i < |ino| && NDIRECT < te < NSLOTS && ino[i].addrs[NDIRECT] != 0
    ensures ino[i].addrs[NDIRECT] < |bs| && Addr(bs, ino[i], te) == Word(bs[ino[i].addrs[NDIRECT]], te - NDIRECT - 1)
  {
    assert Addr(bs, ino[i], NDIRECT) == ino[i].addrs[NDIRECT];
    OwnedIsData(sb, bs, ino, owner, i, te, i, NDIRECT);
  }

  lemma SliceMore(f: seq<byte>, a: nat, b: nat, c: nat)
    requires a <= b <= c <= |f|
    ensures f[a..b] + f[b..c] == f[a..c]
  {
  }

  lemma NextChunk(src: seq<byte>, done: nat, next: nat)
    requires done % CHUNK == 0 && done <= next <= |src| && (next == done + CHUNK || next == |src|)
    ensures src[..done] + src[done..next] == src[..next]
    ensures next < |src| ==> next % CHUNK == 0
  {
  }

  /** Reading back what was written gives what was written. */
  lemma ReadBack(f: seq<byte>, off: nat, src: seq<byte>)
    requires off <= |f|
    ensures Overwritten(f, off, src)[off..off + |src|] == src
  {
  }

  /** Two writes one after the other are one write of both. */
  lemma OverwrittenTwice(f: seq<byte>, off: nat, a: seq<byte>, b: seq<byte>)
    requires off <= |f|
    ensures off + |a| <= |Overwritten(f, off, a)|
    ensures Overwritten(Overwritten(f, off, a), off + |a|, b) == Overwritten(f, off, a + b)
  {
    var g := Overwritten(f, off, a);
    assert g[..off + |a|] == f[..off] + a;
    var e := off + |a| + |b|;
    if e <= |g| {
      assert g[e..] == if e <= |f| then f[e..] else [];
    }
  }

  // ---------------------------------------------------------------- ownership, without the ghost map

  ghost predicate HeldIn(bs: Blocks, ino: seq<Inode>, b: nat, s: Slot) {
    s.inum < |ino| && s.k < NSLOTS && Addr(bs, ino[s.inum], s.k) == b
  }

  /** A bitmap bit is set exactly when the block is metadata or sits in some slot, and no block sits in two. */
  lemma OwnedExactlyOnce(sb: Super, bs: Blocks, ino: seq<Inode>, owner: Owner, b: nat)
    requires FsInv(sb, bs, ino, owner) && b < sb.size && BBlock(sb, b) < |bs|
    ensures InUse(sb, bs, b) <==> b < sb.data || exists s :: HeldIn(bs, ino, b, s)
    ensures forall s, t :: HeldIn(bs, ino, b, s) && HeldIn(bs, ino, b, t) && b > 0 ==> s == t
    ensures forall s :: HeldIn(bs, ino, b, s) && b > 0 ==> sb.data <= b
  {
    if b in owner { assert HeldIn(bs, ino, b, owner[b]); }
    forall s | HeldIn(bs, ino, b, s) && b > 0 ensures b in owner && owner[b] == s {
      OwnedIsData(sb, bs, ino, owner, 0, 0, s.inum, s.k);
    }
    assert 0 < sb.data;
  }

  function Interval(lo: nat, hi: nat): (r: set<nat>)
    ensures forall b :: b in r <==> lo <= b < hi
    ensures lo <= hi ==> |r| == hi - lo
    decreases hi
  {
    if lo >= hi then {} else Interval(lo, hi - 1) + {hi - 1}
  }

  ghost function FreeBlocks(sb: Super, bs: Blocks): set<nat>
    requires sb.Ok() && |bs| == sb.size
  {
    set b | b in Interval(sb.data, sb.size) && !InUse(sb, bs, b)
  }

  /** Conservation: free and owned blocks together are all the data blocks. */
  lemma FreePlusOwned(sb: Super, bs: Blocks, ino: seq<Inode>, owner: Owner)
    requires FsInv(sb, bs, ino, owner)
    ensures |FreeBlocks(sb, bs)| + |owner| == sb.size - sb.data
  {
    assert Interval(sb.data, sb.size) == FreeBlocks(sb, bs) + owner.Keys;
    assert FreeBlocks(sb, bs) !! owner.Keys;
    assert |owner| == |owner.Keys|;
  }

  // ---------------------------------------------------------------- filewrite

  /** Every file after `part` was written to file i at off; nothing happened if part is empty. */
  ghost predicate FilesAfter(bs0: Blocks, ino0: seq<Inode>, bs: Blocks, ino: seq<Inode>, i: nat, off: nat, part: seq<byte>) {
    && |ino| == |ino0| && i < |ino| && ino[i].head == ino0[i].head
    && (forall j :: 0 <= j < |ino| && j != i ==> Content(bs, ino[j]) == Content(bs0, ino0[j]))
    && WrittenTo(Content(bs0, ino0[i]), Content(bs, ino[i]), off, part)
  }

  ghost predicate WrittenTo(f0: seq<byte>, f: seq<byte>, off: nat, part: seq<byte>) {
    if part == [] then f == f0 else off <= |f0| && f == Overwritten(f0, off, part)
  }

  lemma WrittenToMore(f0: seq<byte>, f1: seq<byte>, f2: seq<byte>, off: nat, part: seq<byte>, more: seq<byte>)
    requires WrittenTo(f0, f1, off, part) && off + |part| <= |f1| && more != [] && f2 == Overwritten(f1, off + |part|, more)
    ensures WrittenTo(f0, f2, off, part + more)
  {
    if part == [] {
      assert part + more == more;
    } else {
      OverwrittenTwice(f0, off, part, more);
    }
  }

  lemma FilesAfterMore(sb: Super, bs0: Blocks, ino0: seq<Inode>, bs1: Blocks, ino1: seq<Inode>, bs2: Blocks, ino2: seq<Inode>,
                       i: nat, off: nat, part: seq<byte>, o: nat, more: seq<byte>)
    requires FilesAfter(bs0, ino0, bs1, ino1, i, off, part) && more != [] && o == off + |part|
    requires WriteDone(sb, bs1, ino1, bs2, ino2, i, o, more)
    ensures FilesAfter(bs0, ino0, bs2, ino2, i, off, part + more) && off + |part| + |more| <= ino2[i].size
  {
    ContentAfter(bs1, ino1, bs2, ino2, i, o, more);
    WrittenToMore(Content(bs0, ino0[i]), Content(bs1, ino1[i]), Content(bs2, ino2[i]), off, part, more);
  }

  /** filewrite's loop after `done` bytes. */
  ghost predicate FileLoop(bs0: Blocks, ino0: seq<Inode>, bs: Blocks, ino: seq<Inode>, i: nat, off: nat, src: seq<byte>, done: nat) {
    && done <= |src| && i < |ino|
    && FilesAfter(bs0, ino0, bs, ino, i, off, src[..done])
    && (done > 0 ==> off + done <= ino[i].size) && (done == 0 ==> ino == ino0)
    && (done < |src| ==> done % CHUNK == 0)
  }

  lemma FileLoopStep(sb: Super, bs0: Blocks, ino0: seq<Inode>, bs1: Blocks, ino1: seq<Inode>, bs2: Blocks, ino2: seq<Inode>,
                     i: nat, off: nat, src: seq<byte>, done: nat, next: nat, o: nat, part: seq<byte>)
    requires FileLoop(bs0, ino0, bs1, ino1, i, off, src, done) && done < |src| && o == off + done
    requires next == done + (if |src| - done > CHUNK then CHUNK else |src| - done) && part == src[done..next]
    requires WriteDone(sb, bs1, ino1, bs2, ino2, i, o, part)
    ensures FileLoop(bs0, ino0, bs2, ino2, i, off, src, next)
  {
    NextChunk(src, done, next);
    FilesAfterMore(sb, bs0, ino0, bs1, ino1, bs2, ino2, i, off, src[..done], o, part);
  }
}
