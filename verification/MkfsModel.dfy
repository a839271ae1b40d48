/** The image that xv6-l/mkfs.c builds, between its steps: which blocks are used, by which inode, and what
    the files hold. */
module MkfsModel {
  import opened Common
  import opened Bytes
  import opened FsModel
  import opened FsData
  import opened FsRoom

  const T_DIR: uint := 1
  const T_FILE: uint := 2
  const ROOTINO: nat := 1

  const NoAddrs: Addrs := [0, 0, 0, 0, 0, 0, 0, 0, 0, 0, 0, 0, 0]
  const Blank: Inode := Inode(0, 0, 0, NoAddrs)

  // ---------------------------------------------------------------- the image under construction

  /** The blocks from data up to the next free one are owned, each once; the rest of the data area, and the
      bitmap, are still zero. */
  ghost predicate Building(sb: Super, bs: Blocks, ino: seq<Inode>, owner: Owner, next: nat) {
    && Linked(sb, bs, ino, owner, 0, 0) && sb.data <= next <= sb.size
    && (forall b :: b in owner <==> sb.data <= b < next)
    && (forall b :: next <= b < sb.size ==> bs[b] == ZeroBlock)
    && (forall b :: sb.bmapstart <= b < sb.data ==> bs[b] == ZeroBlock)
  }

  /** Every inode but x is on the image as it stands. */
  ghost predicate SyncedBut(sb: Super, bs: Blocks, ino: seq<Inode>, x: nat) {
    forall j {:trigger Synced(sb, bs, ino[j], j)} :: 0 <= j < |ino| && j != x ==> Synced(sb, bs, ino[j], j)
  }

  /** Both, kept folded. */
  ghost predicate Built(sb: Super, bs: Blocks, ino: seq<Inode>, owner: Owner, next: nat, x: nat) {
    forall u {:trigger Unfold(u)} :: Unfold(u) ==> Building(sb, bs, ino, owner, next) && SyncedBut(sb, bs, ino, x) && sb.inodestart >= 2
  }

  /** The metadata blocks before the bitmap are the same. */
  ghost predicate SameMeta(sb: Super, bs: Blocks, bs': Blocks) {
    |bs'| == |bs| && forall y :: 0 <= y < sb.bmapstart && y < |bs| ==> bs'[y] == bs[y]
  }

  lemma StillSynced(sb: Super, bs: Blocks, bs': Blocks, ino: seq<Inode>, ino': seq<Inode>, x: nat)
    requires sb.Ok() && |bs| == sb.size && |ino| == |ino'| == sb.ninodes && SyncedBut(sb, bs, ino, x) && SameMeta(sb, bs, bs')
    requires forall j :: 0 <= j < |ino| && j != x ==> ino'[j] == ino[j]
    ensures SyncedBut(sb, bs', ino', x)
  {
    forall j | 0 <= j < |ino'| && j != x ensures Synced(sb, bs', ino'[j], j) {
      LayoutFacts(sb, 0, j);
      assert Synced(sb, bs, ino[j], j);
    }
  }

  /** Every other inode's slots hold what they held. */
  ghost predicate OtherAddrs(bs: Blocks, ino: seq<Inode>, bs': Blocks, ino': seq<Inode>, i: nat) {
    |ino'| == |ino| && forall j, l :: 0 <= j < |ino| && j != i && 0 <= l < NSLOTS ==> Addr(bs', ino'[j], l) == Addr(bs, ino[j], l)
  }

  /** Every other inode and its slots are as they were. */
  ghost predicate OthersKept(bs: Blocks, ino: seq<Inode>, bs': Blocks, ino': seq<Inode>, i: nat) {
    OtherAddrs(bs, ino, bs', ino', i) && forall j :: 0 <= j < |ino| && j != i ==> ino'[j] == ino[j]
  }

  lemma OthersTrans(bs: Blocks, ino: seq<Inode>, bs1: Blocks, ino1: seq<Inode>, bs2: Blocks, ino2: seq<Inode>, i: nat)
    requires OthersKept(bs, ino, bs1, ino1, i) && OthersKept(bs1, ino1, bs2, ino2, i)
    ensures OthersKept(bs, ino, bs2, ino2, i)
  {
    forall j, l | 0 <= j < |ino| && j != i && 0 <= l < NSLOTS ensures Addr(bs2, ino2[j], l) == Addr(bs, ino[j], l) {
      assert Addr(bs1, ino1[j], l) == Addr(bs, ino[j], l);
    }
  }

  // ---------------------------------------------------------------- one new block

  /** Blocks may have come to empty slots of inode i; every file reads as it did. Kept folded. */
  ghost predicate Filling(bs: Blocks, ino: seq<Inode>, bs': Blocks, ino': seq<Inode>, i: nat) {
    && |bs'| == |bs| && |ino'| == |ino| && i < |ino| && ino'[i] == ino[i].(addrs := ino'[i].addrs)
    && forall u {:trigger Unfold(u)} :: Unfold(u) ==> OthersKept(bs, ino, bs', ino', i) && SameData(bs, ino, bs', ino')
  }

  lemma FillingSelf(bs: Blocks, ino: seq<Inode>, i: nat)
    requires i < |ino|
    ensures Filling(bs, ino, bs, ino, i)
  {
  }

  lemma FillingTrans(bs: Blocks, ino: seq<Inode>, bs1: Blocks, ino1: seq<Inode>, bs2: Blocks, ino2: seq<Inode>, i: nat)
    requires Filling(bs, ino, bs1, ino1, i) && Filling(bs1, ino1, bs2, ino2, i)
    ensures Filling(bs, ino, bs2, ino2, i)
  {
    assert Unfold(0);
    OthersTrans(bs, ino, bs1, ino1, bs2, ino2, i);
    SameDataTrans(bs, ino, bs1, ino1, bs2, ino2);
  }

  /** Storing a fresh zero block's number in an empty slot of an inode makes that slot its owner. */
  lemma SlotLinked(sb: Super, bs: Blocks, ino: seq<Inode>, owner: Owner, i: nat, k: nat, b: uint)
    requires Linked(sb, bs, ino, owner, 0, 0) && i < |ino| && k <= NDIRECT && ino[i].addrs[k] == 0
    requires sb.data <= b < sb.size && b as nat !in owner && bs[b] == ZeroBlock
    ensures Linked(sb, bs, ino[i := WithAddr(ino[i], k, b)], owner[b as nat := Slot(i, k)], 0, 0)
    ensures forall j, l :: 0 <= j < |ino| && 0 <= l < NSLOTS && Slot(j, l) != Slot(i, k) ==>
              Addr(bs, ino[i := WithAddr(ino[i], k, b)][j], l) == Addr(bs, ino[j], l)
  {
    var ino', owner' := ino[i := WithAddr(ino[i], k, b)], owner[b as nat := Slot(i, k)];
    forall j, l | 0 <= j < |ino| && 0 <= l < NSLOTS && Slot(j, l) != Slot(i, k) ensures Addr(bs, ino'[j], l) == Addr(bs, ino[j], l) {
      if j == i && k == NDIRECT && l > NDIRECT { ZeroWords(l - NDIRECT - 1); }
    }
    forall c | c in owner' ensures Addr(bs, ino'[owner'[c].inum], owner'[c].k) == c {
      if c != b { assert Addr(bs, ino[owner[c].inum], owner[c].k) == c; }
    }
  }

  /** An empty slot reads as zeros, and so does a fresh block in it. */
  lemma SlotData(bs: Blocks, ino: seq<Inode>, ino': seq<Inode>, i: nat, k: nat, b: uint)
    requires |ino'| == |ino| && i < |ino| && k <= NDIRECT && Addr(bs, ino[i], k) == 0 && Addr(bs, ino'[i], k) == b && b < |bs| && bs[b] == ZeroBlock
    requires forall j, l :: 0 <= j < |ino| && 0 <= l < NSLOTS && Slot(j, l) != Slot(i, k) ==> Addr(bs, ino'[j], l) == Addr(bs, ino[j], l)
    ensures SameData(bs, ino, bs, ino')
  {
    forall j, bn | 0 <= j < |ino| && 0 <= bn < MAXFILE ensures Data(bs, ino'[j], bn) == Data(bs, ino[j], bn) {
      SlotFacts(bn);
      if Slot(j, FileSlot(bn)) != Slot(i, k) {
        assert Addr(bs, ino'[j], FileSlot(bn)) == Addr(bs, ino[j], FileSlot(bn));
      }
    }
  }

  lemma SlotBuilt(sb: Super, bs: Blocks, ino: seq<Inode>, owner: Owner, next: uint, i: nat, k: nat, ino': seq<Inode>, owner': Owner, next': nat)
    requires Built(sb, bs, ino, owner, next, i) && next < sb.size && next' == next + 1 && i < |ino| && k <= NDIRECT && ino[i].addrs[k] == 0
    requires ino' == ino[i := WithAddr(ino[i], k, next)] && owner' == owner[next as nat := Slot(i, k)]
    ensures Built(sb, bs, ino', owner', next', i) && Filling(bs, ino, bs, ino', i) && SlotsBut(bs, ino[i], bs, ino'[i], k) && next > 0
  {
    assert Unfold(0);
    SlotLinked(sb, bs, ino, owner, i, k, next);
    StillSynced(sb, bs, bs, ino, ino', i);
    SlotData(bs, ino, ino', i, k, next);
    forall l | 0 <= l < NSLOTS && l != k ensures Addr(bs, ino'[i], l) == Addr(bs, ino[i], l) {
      assert Slot(i, l) != Slot(i, k);
    }
    assert Building(sb, bs, ino', owner', next');
  }

  /** A fresh block in an empty entry of the indirect block. */
  lemma EntryLinked(sb: Super, bs: Blocks, ino: seq<Inode>, owner: Owner, i: nat, e: nat, k: nat, a: nat, b: uint, bs': Blocks)
    requires Linked(sb, bs, ino, owner, 0, 0) && i < |ino| && e < NINDIRECT && k == NDIRECT + 1 + e && a == ino[i].addrs[NDIRECT] != 0
    requires a < |bs| && bs' == bs[a := SetWord(bs[a], e, b)]
    requires Addr(bs, ino[i], k) == 0 && sb.data <= b < sb.size && b as nat !in owner && bs[b] == ZeroBlock
    ensures sb.data <= a < sb.size && a in owner && Linked(sb, bs', ino, owner[b as nat := Slot(i, k)], 0, 0)
    ensures Addr(bs', ino[i], k) == b && SameData(bs, ino, bs', ino)
    ensures forall j, l :: 0 <= j < |ino| && 0 <= l < NSLOTS && Slot(j, l) != Slot(i, k) ==> Addr(bs', ino[j], l) == Addr(bs, ino[j], l)
  {
    EntryAddrs(sb, bs, ino, owner, i, e, b);
    LinkedMore(sb, bs, bs', ino, owner, Slot(i, k), b);
    AttachEntryData(sb, bs, ino, owner, i, e, b);
  }

  /** The new block leaves the unused blocks alone. */
  lemma EntryBuilding(sb: Super, bs: Blocks, ino: seq<Inode>, owner: Owner, next: uint, s: Slot, a: nat, bs': Blocks, owner': Owner, next': nat)
    requires Building(sb, bs, ino, owner, next) && next < sb.size && next' == next + 1 && Linked(sb, bs', ino, owner', 0, 0)
    requires a in owner && |bs'| == |bs| && (forall y :: 0 <= y < |bs| && y != a ==> bs'[y] == bs[y]) && owner' == owner[next as nat := s]
    ensures Building(sb, bs', ino, owner', next') && SameMeta(sb, bs, bs')
  {
  }

  lemma EntryFilling(bs: Blocks, ino: seq<Inode>, bs': Blocks, i: nat, k: nat)
    requires i < |ino| && k < NSLOTS && |bs'| == |bs| && SameData(bs, ino, bs', ino)
    requires forall j, l :: 0 <= j < |ino| && 0 <= l < NSLOTS && Slot(j, l) != Slot(i, k) ==> Addr(bs', ino[j], l) == Addr(bs, ino[j], l)
    ensures Filling(bs, ino, bs', ino, i) && SlotsBut(bs, ino[i], bs', ino[i], k)
  {
    forall l | 0 <= l < NSLOTS && l != k ensures Addr(bs', ino[i], l) == Addr(bs, ino[i], l) {
      assert Slot(i, l) != Slot(i, k);
    }
  }

  lemma EntryBuilt(sb: Super, bs: Blocks, ino: seq<Inode>, owner: Owner, next: uint, i: nat, e: nat, k: nat, a: nat,
                   bs': Blocks, owner': Owner, next': nat)
    requires Built(sb, bs, ino, owner, next, i) && next < sb.size && next' == next + 1 && i < |ino| && e < NINDIRECT && k == NDIRECT + 1 + e
    requires a == ino[i].addrs[NDIRECT] && 0 < a < |bs| && Addr(bs, ino[i], k) == 0 && bs' == bs[a := SetWord(bs[a], e, next)]
    requires owner' == owner[next as nat := Slot(i, k)]
    ensures Built(sb, bs', ino, owner', next', i) && Filling(bs, ino, bs', ino, i) && SlotsBut(bs, ino[i], bs', ino[i], k)
    ensures Addr(bs', ino[i], k) == next > 0
  {
    assert Unfold(0);
    EntryLinked(sb, bs, ino, owner, i, e, k, a, next, bs');
    EntryBuilding(sb, bs, ino, owner, next, Slot(i, k), a, bs', owner', next');
    StillSynced(sb, bs, bs', ino, ino, i);
    EntryFilling(bs, ino, bs', i, k);
  }

  lemma SlotPlace(sb: Super, bs: Blocks, ino: seq<Inode>, owner: Owner, next: nat, x: nat, i: nat, k: nat)
    requires Built(sb, bs, ino, owner, next, x) && i < |ino| && k < NSLOTS && Addr(bs, ino[i], k) != 0
    ensures sb.data <= Addr(bs, ino[i], k) < sb.size == |bs|
  {
    assert Unfold(0);
    OwnedIsData(sb, bs, ino, owner, 0, 0, i, k);
  }

  // ---------------------------------------------------------------- one block of a file

  /** File block bn has been found or made, and the free blocks paid for it. */
  ghost predicate Mapping(bs: Blocks, ino: seq<Inode>, n: nat, bs': Blocks, ino': seq<Inode>, n': nat, i: nat, bn: nat, next: nat) {
    && bn < MAXFILE && next == bn + 1 && Filling(bs, ino, bs', ino', i) && Filled(bs, ino[i], bs', ino'[i], bn, next)
    && n' == n + Cost(bs, ino[i], bn, bn)
  }

  lemma MappingThere(bs: Blocks, ino: seq<Inode>, n: nat, i: nat, bn: nat, next: nat)
    requires i < |ino| && bn < MAXFILE && next == bn + 1 && Mapped(bs, ino[i], bn)
    ensures Mapping(bs, ino, n, bs, ino, n, i, bn, next)
  {
    FillingSelf(bs, ino, i);
    FilledThere(bs, ino[i], bn, next);
  }

  lemma MappingDirect(bs: Blocks, ino: seq<Inode>, n: nat, ino': seq<Inode>, n': nat, i: nat, bn: nat, next: nat)
    requires Filling(bs, ino, bs, ino', i) && bn < NDIRECT && next == bn + 1 && SlotsBut(bs, ino[i], bs, ino'[i], bn)
    requires ino[i].addrs[bn] == 0 != ino'[i].addrs[bn] && n' == n + 1
    ensures Mapping(bs, ino, n, bs, ino', n', i, bn, next)
  {
    assert Addr(bs, ino'[i], NDIRECT) == ino'[i].addrs[NDIRECT] && Addr(bs, ino[i], NDIRECT) == ino[i].addrs[NDIRECT];
    FilledOne(bs, ino[i], bs, ino[i], bs, ino'[i], bn, next, bn);
  }

  /** The indirect block, if it was missing, and then the entry, if that was missing. */
  lemma MappingEntry(bs: Blocks, ino: seq<Inode>, n: nat, ino1: seq<Inode>, n1: nat, bs2: Blocks, n2: nat, i: nat, bn: nat, next: nat, k: nat)
    requires Filling(bs, ino, bs, ino1, i) && Filling(bs, ino1, bs2, ino1, i) && NDIRECT <= bn < MAXFILE && next == bn + 1 && k == FileSlot(bn)
    requires SlotsBut(bs, ino[i], bs, ino1[i], NDIRECT) && SlotsBut(bs, ino1[i], bs2, ino1[i], k)
    requires ino1[i].addrs[NDIRECT] != 0 && Addr(bs2, ino1[i], k) != 0
    requires n1 == n + (if ino[i].addrs[NDIRECT] == 0 then 1 else 0) && n2 == n1 + (if Addr(bs, ino1[i], k) == 0 then 1 else 0)
    ensures Mapping(bs, ino, n, bs2, ino1, n2, i, bn, next)
  {
    FillingTrans(bs, ino, bs, ino1, bs2, ino1, i);
    FilledOne(bs, ino[i], bs, ino1[i], bs2, ino1[i], bn, next, k);
    assert Addr(bs, ino1[i], k) == Addr(bs, ino[i], k);
    IndirectFirst(bs, ino[i], bn);
  }

  /** What one turn of iappend's loop does with the bytes `part` at off, in file block bn. Kept folded. */
  ghost predicate PieceDone(bs: Blocks, ino: seq<Inode>, n: nat, bs': Blocks, ino': seq<Inode>, n': nat, i: nat, off: nat, part: seq<byte>, bn: nat, next: nat) {
    && |bs'| == |bs| && |ino'| == |ino| && i < |ino| && ino'[i] == ino[i].(addrs := ino'[i].addrs)
    && forall u {:trigger Look(u)} :: Look(u) ==>
      && OthersKept(bs, ino, bs', ino', i) && Wrote(bs, ino, bs', ino', i, off, part)
      && bn == off / BSIZE < MAXFILE && next == bn + 1 && Filled(bs, ino[i], bs', ino'[i], bn, next) && n' == n + Cost(bs, ino[i], bn, bn)
  }

  /** wsect of the data block, once it is there. */
  lemma PieceWritten(sb: Super, bs: Blocks, ino: seq<Inode>, n: nat, bs1: Blocks, ino1: seq<Inode>, owner1: Owner, n1: nat, bs2: Blocks,
                     i: nat, off: nat, part: seq<byte>, bn: nat, next: nat, a: nat)
    requires Mapping(bs, ino, n, bs1, ino1, n1, i, bn, next) && Built(sb, bs1, ino1, owner1, n1, i) && bn == off / BSIZE
    requires off % BSIZE + |part| <= BSIZE && a == Addr(bs1, ino1[i], FileSlot(bn)) != 0 && a < |bs1| && bs2 == bs1[a := Splice(bs1[a], off % BSIZE, part)]
    ensures Built(sb, bs2, ino1, owner1, n1, i) && PieceDone(bs, ino, n, bs2, ino1, n1, i, off, part, bn, next)
  {
    assert Unfold(0);
    SpliceLinked(sb, bs1, ino1, owner1, i, off, part, a, bs2);
    StillSynced(sb, bs1, bs2, ino1, ino1, i);
    WroteAfterGrow(bs, ino, bs1, ino1, bs2, ino1, i, off, part);
    FilledSame(bs, ino[i], bs1, ino1[i], bs2, ino1[i], bn, next);
    OthersTrans(bs, ino, bs1, ino1, bs2, ino1, i);
    assert Building(sb, bs2, ino1, owner1, n1);
  }

  // ---------------------------------------------------------------- iappend's loop

  /** A call of iappend: the state it starts from, with `next` the first free block, and what it appends at
      off, the end of the file. */
  datatype Job = Job(total: nat, bs: Blocks, ino: seq<Inode>, next: nat, i: nat, off: nat, data: seq<byte>) {
    ghost predicate Ok() {
      i < |ino| && off == ino[i].size <= MAXFILE * BSIZE
    }

    /** There is room in the file and on the image. */
    ghost predicate Fits()
      requires Ok()
    {
      off + |data| <= MAXFILE * BSIZE && Need(bs, ino[i], off / BSIZE, EndBlock(off, |data|)) <= total - next
    }
  }

  /** The loop after p bytes, at file block cur. Kept folded. */
  ghost predicate Appended(job: Job, bs: Blocks, ino: seq<Inode>, n: nat, p: nat, cur: nat) {
    && |bs| == |job.bs| && |ino| == |job.ino| && job.i < |ino| && ino[job.i] == job.ino[job.i].(addrs := ino[job.i].addrs)
    && forall u {:trigger Look(u)} :: Look(u) ==>
      && p <= |job.data| && job.off + p <= MAXFILE * BSIZE && OthersKept(job.bs, job.ino, bs, ino, job.i)
      && Wrote(job.bs, job.ino, bs, ino, job.i, job.off, job.data[..p])
      && cur == CurBlock(job.off, |job.data|, p) && Pass(job.bs, job.ino[job.i], job.next, bs, ino[job.i], n, job.off / BSIZE, cur)
  }

  lemma AppendStart(job: Job, cur: nat)
    requires job.Ok() && cur == job.off / BSIZE
    ensures Appended(job, job.bs, job.ino, job.next, 0, cur)
  {
    assert job.data[..0] == [];
    SameDataBytes(job.bs, job.ino, job.bs, job.ino, job.i, job.off);
    CurStart(job.off, |job.data|);
    PassNone(job.bs, job.ino[job.i], job.next, cur);
  }

  lemma AppendAt(job: Job, bs: Blocks, ino: seq<Inode>, n: nat, p: nat, cur: nat, o: nat)
    requires Appended(job, bs, ino, n, p, cur) && p < |job.data| && o == job.off + p
    ensures cur == o / BSIZE && o <= MAXFILE * BSIZE
  {
    assert Look(0);
    CurNext(job.off, |job.data|, p, o, p + Piece(o, |job.data| - p));
  }

  lemma AppendStuck(job: Job, bs: Blocks, ino: seq<Inode>, n: nat, p: nat, cur: nat, o: nat)
    requires job.Ok() && Appended(job, bs, ino, n, p, cur) && p < |job.data| && o == job.off + p && n <= job.total
    requires cur < MAXFILE ==> job.total - n < Cost(bs, ino[job.i], cur, cur)
    ensures !job.Fits()
  {
    AppendAt(job, bs, ino, n, p, cur, o);
    assert Look(0);
    if cur < MAXFILE && job.off + |job.data| <= MAXFILE * BSIZE {
      CurNext(job.off, |job.data|, p, o, p + Piece(o, |job.data| - p));
      PassStuck(job.bs, job.ino[job.i], job.next, bs, ino[job.i], n, job.off / BSIZE, cur, EndBlock(job.off, |job.data|), job.total);
    }
  }

  lemma AppendMore(job: Job, bs: Blocks, ino: seq<Inode>, n: nat, bs': Blocks, ino': seq<Inode>, n': nat, p: nat, p': nat, o: nat,
                   cur: nat, next: nat, part: seq<byte>)
    requires Appended(job, bs, ino, n, p, cur) && p < |job.data| && o == job.off + p && p' == p + Piece(o, |job.data| - p)
    requires part == job.data[p..p'] && PieceDone(bs, ino, n, bs', ino', n', job.i, o, part, cur, next)
    ensures Appended(job, bs', ino', n', p', next)
  {
    assert Look(0);
    CurNext(job.off, |job.data|, p, o, p');
    OthersTrans(job.bs, job.ino, bs, ino, bs', ino', job.i);
    assert job.data[..p'] == job.data[..p] + part;
    WroteTrans(job.bs, job.ino, bs, ino, bs', ino', job.i, job.off, job.data[..p], part);
    PassOne(job.bs, job.ino[job.i], job.next, bs, ino[job.i], n, bs', ino'[job.i], n', job.off / BSIZE, cur, next);
    PieceEnds(o, |job.data| - p);
  }

  lemma PieceEnds(o: nat, rest: nat)
    requires o / BSIZE < MAXFILE
    ensures o + Piece(o, rest) <= MAXFILE * BSIZE
  {
    assert o == BSIZE * (o / BSIZE) + o % BSIZE;
  }

  // ---------------------------------------------------------------- how many blocks a file takes

  function DataBlocks(n: nat): nat {
    (n + BSIZE - 1) / BSIZE
  }

  /** The blocks of a file of n bytes, the indirect block included. */
  function BlocksOf(n: nat): nat {
    DataBlocks(n) + if DataBlocks(n) > NDIRECT then 1 else 0
  }

  lemma BlocksMono(m: nat, n: nat)
    requires m <= n
    ensures BlocksOf(m) <= BlocksOf(n)
  {
  }

  /** The file has exactly the blocks that its first n bytes take. */
  ghost predicate Exact(bs: Blocks, ip: Inode, n: nat) {
    && (forall bn: nat {:trigger Mapped(bs, ip, bn)} :: bn < MAXFILE ==> (Mapped(bs, ip, bn) <==> bn < DataBlocks(n)))
    && (ip.addrs[NDIRECT] != 0 <==> DataBlocks(n) > NDIRECT)
  }

  lemma {:induction false} NeedFrom(bs: Blocks, ip: Inode, m: nat, b: nat, e: nat)
    requires e <= MAXFILE && (b == m || b + 1 == m) && (ip.addrs[NDIRECT] != 0 <==> m > NDIRECT)
    requires forall bn: nat {:trigger Mapped(bs, ip, bn)} :: bn < MAXFILE ==> (Mapped(bs, ip, bn) <==> bn < m)
    ensures Need(bs, ip, b, e) == if e <= m then 0 else e - m + if m <= NDIRECT < e then 1 else 0
    decreases e
  {
    if e > b {
      NeedFrom(bs, ip, m, b, e - 1);
      assert Mapped(bs, ip, e - 1) <==> e - 1 < m;
    }
  }

  lemma EndIs(off: nat, n: nat)
    ensures off / BSIZE == DataBlocks(off) || off / BSIZE + 1 == DataBlocks(off)
    ensures n > 0 ==> EndBlock(off, n) == DataBlocks(off + n)
    ensures n == 0 ==> EndBlock(off, n) <= DataBlocks(off)
  {
    if n > 0 { assert off + n + BSIZE - 1 == off + n - 1 + BSIZE; }
  }

  /** What appending to such a file needs is the difference of the blocks it takes. */
  lemma NeedIsBlocks(bs: Blocks, ip: Inode, off: nat, n: nat)
    requires Exact(bs, ip, off) && off + n <= MAXFILE * BSIZE
    ensures EndBlock(off, n) <= MAXFILE && Need(bs, ip, off / BSIZE, EndBlock(off, n)) + BlocksOf(off) == BlocksOf(off + n)
  {
    EndIs(off, n);
    assert off / BSIZE <= MAXFILE;
    NeedFrom(bs, ip, DataBlocks(off), off / BSIZE, EndBlock(off, n));
    assert DataBlocks(off) <= DataBlocks(off + n);
  }

  lemma ExactMore(bs: Blocks, ip: Inode, bs': Blocks, ip': Inode, off: nat, n: nat)
    requires Exact(bs, ip, off) && off + n <= MAXFILE * BSIZE && Filled(bs, ip, bs', ip', off / BSIZE, EndBlock(off, n))
    ensures Exact(bs', ip', off + n)
  {
    EndIs(off, n);
    assert DataBlocks(off) <= DataBlocks(off + n);
    forall bn: nat | bn < MAXFILE ensures Mapped(bs', ip', bn) <==> bn < DataBlocks(off + n) {
      assert FilledAt(bs, ip, bs', ip', off / BSIZE, EndBlock(off, n), bn);
      assert Mapped(bs, ip, bn) <==> bn < DataBlocks(off);
    }
  }

  /** Only the addresses matter. */
  lemma ExactSame(bs: Blocks, ip: Inode, bs': Blocks, ip': Inode, n: nat)
    requires Exact(bs, ip, n) && forall l :: 0 <= l < NSLOTS ==> Addr(bs', ip', l) == Addr(bs, ip, l)
    ensures Exact(bs', ip', n)
  {
    assert Addr(bs', ip', NDIRECT) == ip'.addrs[NDIRECT] && Addr(bs, ip, NDIRECT) == ip.addrs[NDIRECT];
    forall bn: nat | bn < MAXFILE ensures Mapped(bs', ip', bn) <==> bn < DataBlocks(n) {
      SlotFacts(bn);
      assert Mapped(bs, ip, bn) <==> bn < DataBlocks(n);
    }
  }

  lemma ExactNoHoles(bs: Blocks, ip: Inode)
    requires Exact(bs, ip, ip.size) && ip.size <= MAXFILE * BSIZE
    ensures NoHoles(bs, ip)
  {
    forall bn: nat | bn < MAXFILE && bn * BSIZE < ip.size ensures Addr(bs, ip, FileSlot(bn)) != 0 {
      assert Mapped(bs, ip, bn) <==> bn < DataBlocks(ip.size);
    }
  }

  lemma ExactBlank(bs: Blocks, ip: Inode)
    requires ip.addrs == NoAddrs
    ensures Exact(bs, ip, 0)
  {
    forall bn: nat | bn < MAXFILE ensures !Mapped(bs, ip, bn) {
      SlotFacts(bn);
    }
  }

  /** The blocks that all these inodes take. */
  function Used(ino: seq<Inode>): nat {
    if ino == [] then 0 else Used(ino[..|ino| - 1]) + BlocksOf(ino[|ino| - 1].size)
  }

  lemma {:induction false} UsedUpdate(ino: seq<Inode>, i: nat, ip: Inode)
    requires i < |ino|
    ensures Used(ino[i := ip]) + BlocksOf(ino[i].size) == Used(ino) + BlocksOf(ip.size)
  {
    var n := |ino| - 1;
    var ino' := ino[i := ip];
    if i == n {
      assert ino'[..n] == ino[..n];
    } else {
      UsedUpdate(ino[..n], i, ip);
      assert ino'[..n] == ino[..n][i := ip];
    }
  }

  lemma {:induction false} UsedNone(ino: seq<Inode>)
    requires forall j :: 0 <= j < |ino| ==> ino[j].size == 0
    ensures Used(ino) == 0
  {
    if ino != [] { UsedNone(ino[..|ino| - 1]); }
  }

  /** Every file has exactly the blocks it takes, and the next free block comes after all of them. Kept
      folded. */
  ghost predicate Tidy(sb: Super, bs: Blocks, ino: seq<Inode>, next: nat) {
    forall u {:trigger Look(u)} :: Look(u) ==>
      && next == sb.data + Used(ino)
      && forall j {:trigger Exact(bs, ino[j], ino[j].size)} :: 0 <= j < |ino| ==> Exact(bs, ino[j], ino[j].size) && ino[j].size <= MAXFILE * BSIZE
  }

  lemma TidyAt(sb: Super, bs: Blocks, ino: seq<Inode>, next: nat, i: nat)
    requires Tidy(sb, bs, ino, next) && i < |ino|
    ensures Exact(bs, ino[i], ino[i].size) && ino[i].size <= MAXFILE * BSIZE && next == sb.data + Used(ino)
  {
    assert Look(0);
    assert Exact(bs, ino[i], ino[i].size) && ino[i].size <= MAXFILE * BSIZE;
  }

  lemma TidyNext(sb: Super, bs: Blocks, ino: seq<Inode>, next: nat, bs': Blocks, ino': seq<Inode>, next': nat, i: nat)
    requires Tidy(sb, bs, ino, next) && i < |ino| && OtherAddrs(bs, ino, bs', ino', i) && ino' == ino[i := ino'[i]]
    requires Exact(bs', ino'[i], ino'[i].size) && ino'[i].size <= MAXFILE * BSIZE && next' + BlocksOf(ino[i].size) == next + BlocksOf(ino'[i].size)
    ensures Tidy(sb, bs', ino', next')
  {
    assert Look(0);
    UsedUpdate(ino, i, ino'[i]);
    forall j | 0 <= j < |ino'| ensures Exact(bs', ino'[j], ino'[j].size) && ino'[j].size <= MAXFILE * BSIZE {
      if j != i {
        assert Exact(bs, ino[j], ino[j].size) && ino[j].size <= MAXFILE * BSIZE;
        ExactSame(bs, ino[j], bs', ino'[j], ino[j].size);
      }
    }
  }

  // ---------------------------------------------------------------- writing an inode

  /** winode: every address and every byte is as it was. */
  ghost predicate Rewritten(bs: Blocks, bs': Blocks, ino: seq<Inode>) {
    && |bs'| == |bs| && SameData(bs, ino, bs', ino)
    && forall j, l :: 0 <= j < |ino| && 0 <= l < NSLOTS ==> Addr(bs', ino[j], l) == Addr(bs, ino[j], l)
  }

  lemma SameAddrsLinked(sb: Super, bs: Blocks, ino: seq<Inode>, owner: Owner, i: nat, din: Inode)
    requires Linked(sb, bs, ino, owner, 0, 0) && i < |ino| && din.addrs == ino[i].addrs
    ensures Linked(sb, bs, ino[i := din], owner, 0, 0)
  {
    var ino' := ino[i := din];
    forall j, k | 0 <= j < |ino| && 0 <= k < NSLOTS ensures Addr(bs, ino'[j], k) == Addr(bs, ino[j], k) {
    }
  }

  lemma InodeSynced(sb: Super, bs: Blocks, ino: seq<Inode>, i: nat, din: Inode, x: nat, bs': Blocks, ino': seq<Inode>)
    requires sb.Ok() && |bs| == sb.size && |ino| == sb.ninodes && SyncedBut(sb, bs, ino, i) && i < |ino| && ino' == ino[i := din]
    requires x == IBlock(sb, i) < |bs| && bs' == bs[x := WriteInode(bs[x], i % IPB, din)]
    ensures SyncedBut(sb, bs', ino', |ino|)
  {
    forall j | 0 <= j < |ino'| ensures Synced(sb, bs', ino'[j], j) {
      LayoutFacts(sb, 0, j);
      WriteInodeAt(sb, bs, i, din, j);
      assert j != i ==> Synced(sb, bs, ino[j], j);
    }
  }

  lemma InodeWritten(sb: Super, bs: Blocks, ino: seq<Inode>, owner: Owner, next: nat, i: nat, din: Inode, x: nat, bs': Blocks, ino': seq<Inode>)
    requires Built(sb, bs, ino, owner, next, i) && i < |ino| && din.addrs == ino[i].addrs && ino' == ino[i := din]
    requires x == IBlock(sb, i) < |bs| && x < sb.bmapstart && bs' == bs[x := WriteInode(bs[x], i % IPB, din)]
    ensures Built(sb, bs', ino', owner, next, |ino|) && Rewritten(bs, bs', ino')
  {
    assert Unfold(0);
    SameAddrsLinked(sb, bs, ino, owner, i, din);
    AddrsKept(sb, bs, ino', owner, 0, 0, x, bs'[x]);
    DataKept(sb, bs, bs', ino', owner, x);
    InodeSynced(sb, bs, ino, i, din, x, bs', ino');
    assert Building(sb, bs', ino', owner, next);
  }

  lemma RewrittenOthers(bs: Blocks, ino: seq<Inode>, bs': Blocks, ino': seq<Inode>, i: nat)
    requires |ino'| == |ino| && i < |ino| && ino' == ino[i := ino'[i]] && Rewritten(bs, bs', ino')
    ensures OthersKept(bs, ino, bs', ino', i)
  {
  }

  /** The end of iappend: the new size goes into the inode. */
  lemma AppendEnd(job: Job, bs1: Blocks, ino1: seq<Inode>, n: nat, cur: nat, bs2: Blocks, ino2: seq<Inode>, end: uint)
    requires job.Ok() && Appended(job, bs1, ino1, n, |job.data|, cur) && n <= job.total && Exact(job.bs, job.ino[job.i], job.off)
    requires end == job.off + |job.data| && ino2 == WithSize(ino1, job.i, end) && Rewritten(bs1, bs2, ino2)
    ensures job.Fits() && end <= MAXFILE * BSIZE && n + BlocksOf(job.off) == job.next + BlocksOf(end) && Exact(bs2, ino2[job.i], end)
    ensures OthersKept(job.bs, job.ino, bs2, ino2, job.i) && Wrote(job.bs, job.ino, bs2, ino2, job.i, job.off, job.data)
  {
    assert Look(0);
    NeedIsBlocks(job.bs, job.ino[job.i], job.off, |job.data|);
    ExactMore(job.bs, job.ino[job.i], bs1, ino1[job.i], job.off, |job.data|);
    forall l | 0 <= l < NSLOTS ensures Addr(bs2, ino2[job.i], l) == Addr(bs1, ino1[job.i], l) {
      assert Addr(bs2, ino2[job.i], l) == Addr(bs1, ino2[job.i], l);
    }
    ExactSame(bs1, ino1[job.i], bs2, ino2[job.i], end);
    RewrittenOthers(bs1, ino1, bs2, ino2, job.i);
    OthersTrans(job.bs, job.ino, bs1, ino1, bs2, ino2, job.i);
    assert job.data[..|job.data|] == job.data;
    RewrittenBytes(job.bs, job.ino, bs1, ino1, bs2, ino2, job.i, end, job.off, job.data);
  }

  lemma RewrittenBytes(bs0: Blocks, ino0: seq<Inode>, bs1: Blocks, ino1: seq<Inode>, bs2: Blocks, ino2: seq<Inode>, i: nat, end: uint, off: nat, data: seq<byte>)
    requires Wrote(bs0, ino0, bs1, ino1, i, off, data) && ino2 == WithSize(ino1, i, end) && SameData(bs1, ino2, bs2, ino2)
    ensures Wrote(bs0, ino0, bs2, ino2, i, off, data)
  {
    SameDataBytes(bs1, ino2, bs2, ino2, i, off);
    forall j, o | 0 <= j < |ino0| && 0 <= o
      ensures ByteAt(bs2, ino2[j], o) == if j == i && off <= o < off + |data| then data[o - off] else ByteAt(bs0, ino0[j], o)
    {
      assert ByteAt(bs2, ino2[j], o) == ByteAt(bs1, ino2[j], o) == ByteAt(bs1, ino1[j], o);
    }
  }

  lemma BuiltBut(sb: Super, bs: Blocks, ino: seq<Inode>, owner: Owner, next: nat, i: nat)
    requires Built(sb, bs, ino, owner, next, |ino|) && i < |ino|
    ensures Built(sb, bs, ino, owner, next, i) && Synced(sb, bs, ino[i], i)
  {
    assert Unfold(0);
    assert Synced(sb, bs, ino[i], i);
  }

  // ---------------------------------------------------------------- what the calls have done

  /** n more bytes fit into a file of this size, and their blocks onto the image. */
  predicate CanAppend(sb: Super, next: nat, size: nat, n: nat) {
    size + n <= MAXFILE * BSIZE && next + BlocksOf(size + n) <= sb.size + BlocksOf(size)
  }

  /** A piece of a file fits exactly when the file up to its end does, and then so does every shorter one. */
  lemma CopyRoom(sb: Super, n0: nat, n: nat, p: nat, len: nat, end: nat, whole: nat)
    requires n == n0 + BlocksOf(p) && end == p + len <= whole
    ensures CanAppend(sb, n, p, len) <==> CanAppend(sb, n0, 0, end)
    ensures CanAppend(sb, n0, 0, whole) ==> CanAppend(sb, n0, 0, end)
  {
    BlocksMono(end, whole);
    assert BlocksOf(0) == 0;
  }

  lemma FitsIsRoom(sb: Super, job: Job)
    requires job.Ok() && Exact(job.bs, job.ino[job.i], job.off) && job.total == sb.size
    ensures job.Fits() <==> CanAppend(sb, job.next, job.off, |job.data|)
  {
    if job.off + |job.data| <= MAXFILE * BSIZE { NeedIsBlocks(job.bs, job.ino[job.i], job.off, |job.data|); }
  }

  /** File i is longer by data, and every other file is as it was. Kept folded. */
  ghost predicate AppendDone(bs: Blocks, ino: seq<Inode>, bs': Blocks, ino': seq<Inode>, i: nat, data: seq<byte>) {
    && |ino'| == |ino| && i < |ino| && ino'[i] == ino[i].(size := ino'[i].size, addrs := ino'[i].addrs) && ino'[i].size == ino[i].size + |data|
    && forall u {:trigger Look(u)} :: Look(u) ==>
      && Content(bs', ino'[i]) == Content(bs, ino[i]) + data
      && (forall j :: 0 <= j < |ino| && j != i ==> ino'[j] == ino[j] && Content(bs', ino'[j]) == Content(bs, ino[j]))
      && Wrote(bs, ino, bs', ino', i, ino[i].size, data)
  }

  lemma AppendedContent(bs: Blocks, ino: seq<Inode>, bs': Blocks, ino': seq<Inode>, i: nat, data: seq<byte>)
    requires |ino'| == |ino| && i < |ino| && ino'[i] == ino[i].(size := ino'[i].size, addrs := ino'[i].addrs) && ino'[i].size == ino[i].size + |data|
    requires (forall j :: 0 <= j < |ino| && j != i ==> ino'[j] == ino[j]) && Wrote(bs, ino, bs', ino', i, ino[i].size, data)
    ensures AppendDone(bs, ino, bs', ino', i, data)
  {
    ContentAfter(bs, ino, bs', ino', i, ino[i].size, data);
    var f := Content(bs, ino[i]);
    assert Overwritten(f, |f|, data) == f + data;
  }

  lemma AppendMeans(job: Job, bs: Blocks, ino: seq<Inode>, end: nat)
    requires job.Ok() && OthersKept(job.bs, job.ino, bs, ino, job.i) && Wrote(job.bs, job.ino, bs, ino, job.i, job.off, job.data)
    requires end == job.off + |job.data| && ino[job.i].size == end && ino[job.i] == job.ino[job.i].(size := ino[job.i].size, addrs := ino[job.i].addrs)
    ensures AppendDone(job.bs, job.ino, bs, ino, job.i, job.data)
  {
    AppendedContent(job.bs, job.ino, bs, ino, job.i, job.data);
  }

  lemma AppendNone(bs: Blocks, ino: seq<Inode>, i: nat)
    requires i < |ino|
    ensures AppendDone(bs, ino, bs, ino, i, [])
  {
    SameDataBytes(bs, ino, bs, ino, i, ino[i].size);
    AppendedContent(bs, ino, bs, ino, i, []);
  }

  lemma AppendTwice(bs: Blocks, ino: seq<Inode>, bs1: Blocks, ino1: seq<Inode>, bs2: Blocks, ino2: seq<Inode>, i: nat, a: seq<byte>, b: seq<byte>)
    requires AppendDone(bs, ino, bs1, ino1, i, a) && AppendDone(bs1, ino1, bs2, ino2, i, b)
    ensures AppendDone(bs, ino, bs2, ino2, i, a + b)
  {
    assert Look(0);
    WroteTrans(bs, ino, bs1, ino1, bs2, ino2, i, ino[i].size, a, b);
    AppendedContent(bs, ino, bs2, ino2, i, a + b);
  }

  /** Inode i is new and empty, and every file reads as it did. */
  ghost predicate AllocDone(bs: Blocks, ino: seq<Inode>, bs': Blocks, ino': seq<Inode>, i: nat, head: uint) {
    i < |ino| && ino' == ino[i := Inode(head, 0x1_0000, 0, NoAddrs)] && SameData(bs, ino, bs', ino')
  }

  lemma AllocMeans(bs: Blocks, ino: seq<Inode>, bs': Blocks, ino': seq<Inode>, i: nat, head: uint)
    requires i < |ino| && ino[i] == Blank && ino' == ino[i := Inode(head, 0x1_0000, 0, NoAddrs)] && Rewritten(bs, bs', ino')
    ensures AllocDone(bs, ino, bs', ino', i, head)
  {
    forall j, bn | 0 <= j < |ino| && 0 <= bn < MAXFILE ensures Data(bs', ino'[j], bn) == Data(bs, ino[j], bn) {
      assert Data(bs', ino'[j], bn) == Data(bs, ino'[j], bn);
      SlotFacts(bn);
    }
  }

  /** Rounding the size of the root directory up. */
  ghost predicate RootFixed(bs: Blocks, ino: seq<Inode>, bs': Blocks, ino': seq<Inode>, root: nat) {
    && root < |ino| && (ino[root].size / BSIZE + 1) * BSIZE < 0x1_0000_0000
    && ino' == WithSize(ino, root, (ino[root].size / BSIZE + 1) * BSIZE) && SameData(bs, ino, bs', ino')
    && (NoHoles(bs', ino'[root]) <==> ino[root].size % BSIZE != 0)
    && forall j :: 0 <= j < |ino| && j != root ==> NoHoles(bs', ino'[j])
  }

  /** Rounding the size up leaves the directory without holes if and only if it ended inside a block. */
  lemma RoundedUp(bs: Blocks, ip: Inode, off: nat, up: nat)
    requires Exact(bs, ip, off) && off <= MAXFILE * BSIZE && up == (off / BSIZE + 1) * BSIZE == ip.size
    ensures NoHoles(bs, ip) <==> off % BSIZE != 0
  {
    var last := off / BSIZE;
    if last < MAXFILE {
      SlotFacts(last);
      assert last * BSIZE < up;
      assert Mapped(bs, ip, last) <==> last < DataBlocks(off);
      if off % BSIZE != 0 {
        forall bn: nat | bn < MAXFILE && bn * BSIZE < up ensures Addr(bs, ip, FileSlot(bn)) != 0 {
          assert Mapped(bs, ip, bn) <==> bn < DataBlocks(off);
          assert bn <= last;
        }
      }
    }
  }

  lemma RootFixedIs(sb: Super, bs: Blocks, ino: seq<Inode>, next: nat, bs': Blocks, ino': seq<Inode>, root: nat, off: nat, up: nat)
    requires Tidy(sb, bs, ino, next) && root < |ino| && off == ino[root].size && up == (off / BSIZE + 1) * BSIZE < 0x1_0000_0000
    requires ino' == WithSize(ino, root, up) && Rewritten(bs, bs', ino')
    ensures RootFixed(bs, ino, bs', ino', root)
  {
    forall j | 0 <= j < |ino| ensures Exact(bs', ino'[j], ino[j].size) && ino[j].size <= MAXFILE * BSIZE {
      TidyAt(sb, bs, ino, next, j);
      forall l | 0 <= l < NSLOTS ensures Addr(bs', ino'[j], l) == Addr(bs, ino[j], l) {
        assert Addr(bs', ino'[j], l) == Addr(bs, ino'[j], l);
      }
      ExactSame(bs, ino[j], bs', ino'[j], ino[j].size);
    }
    RoundedUp(bs', ino'[root], off, up);
    forall j | 0 <= j < |ino| && j != root ensures NoHoles(bs', ino'[j]) {
      ExactNoHoles(bs', ino'[j]);
    }
    SizeData(bs, ino, bs', ino', root, up);
  }

  lemma SizeData(bs: Blocks, ino: seq<Inode>, bs': Blocks, ino': seq<Inode>, root: nat, up: uint)
    requires root < |ino| && ino' == WithSize(ino, root, up) && SameData(bs, ino', bs', ino')
    ensures SameData(bs, ino, bs', ino')
  {
    forall j, bn | 0 <= j < |ino| && 0 <= bn < MAXFILE ensures Data(bs', ino'[j], bn) == Data(bs, ino[j], bn) {
      assert Data(bs', ino'[j], bn) == Data(bs, ino'[j], bn);
      SlotFacts(bn);
    }
  }
}
