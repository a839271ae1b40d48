/** The on-disk structures of fs.c over the logged block array: free bitmap, inodes, direct and
    indirect addresses, and the ownership invariant that ties them together. */
module FsModel {
  import opened Bytes

  const BPB: nat := 4096        // bitmap bits per block
  const NDIRECT: nat := 12
  const NINDIRECT: nat := 128
  const MAXFILE: nat := 140     // NDIRECT + NINDIRECT
  const NSLOTS: nat := 141      // addrs[0..12], then the entries of the indirect block
  const IPB: nat := 8           // inodes per block
  const DWORDS: nat := 16       // words per on-disk inode
  const T_DEV: nat := 3

  type Blocks = seq<Block>

  /** The superblock fields the code uses; `data` is the first block after the bitmap. */
  datatype Super = Super(size: nat, ninodes: nat, inodestart: nat, bmapstart: nat, data: nat) {
    ghost predicate Ok() {
      && 0 < ninodes && 0 < inodestart
      && inodestart + (ninodes - 1) / IPB < bmapstart
      && 0 < size <= 0x1_0000_0000 && bmapstart + (size - 1) / BPB < data <= size
    }
  }

  // ---------------------------------------------------------------- bits

  function Pow2(n: nat): (p: nat)
    ensures p > 0
  {
    if n == 0 then 1 else 2 * Pow2(n - 1)
  }

  /** x & (1 << k) is not zero. */
  predicate TestBit(x: nat, k: nat) {
    if k == 0 then x % 2 == 1 else TestBit(x / 2, k - 1)
  }

  /** x with bit k set to v: x | (1 << k), or x & ~(1 << k). */
  function PutBit(x: nat, k: nat, v: bool): nat {
    if k == 0 then x / 2 * 2 + (if v then 1 else 0) else 2 * PutBit(x / 2, k - 1, v) + x % 2
  }

  /** Changing a bit changes that bit and no other. */
  lemma {:induction false} PutBitAt(x: nat, k: nat, v: bool, j: nat)
    ensures TestBit(PutBit(x, k, v), j) == if j == k then v else TestBit(x, j)
    decreases k, j
  {
    if k == 0 {
      assert PutBit(x, k, v) / 2 == x / 2;
    } else {
      assert PutBit(x, k, v) / 2 == PutBit(x / 2, k - 1, v);
      if j > 0 { PutBitAt(x / 2, k - 1, v, j - 1); }
    }
  }

  lemma {:induction false} PutBitBound(x: nat, k: nat, v: bool, n: nat)
    requires x < Pow2(n) && k < n
    ensures PutBit(x, k, v) < Pow2(n)
  {
    if k > 0 { PutBitBound(x / 2, k - 1, v, n - 1); }
  }

  lemma PutBitAll(x: nat, k: nat, v: bool)
    ensures forall j: nat :: TestBit(PutBit(x, k, v), j) == if j == k then v else TestBit(x, j)
  {
    forall j: nat ensures TestBit(PutBit(x, k, v), j) == if j == k then v else TestBit(x, j) {
      PutBitAt(x, k, v, j);
    }
  }

  function PutBitByte(x: byte, k: nat, v: bool): byte
    requires k < 8
  {
    PutBitBound(x, k, v, 8);
    PutBit(x, k, v)
  }

  // ---------------------------------------------------------------- the free bitmap

  function BBlock(sb: Super, b: nat): nat {
    b / BPB + sb.bmapstart
  }

  /** The free-map bit of block b. */
  predicate InUse(sb: Super, bs: Blocks, b: nat)
    requires BBlock(sb, b) < |bs|
  {
    TestBit(bs[BBlock(sb, b)][b % BPB / 8], b % 8)
  }

  /** The bitmap block with block b's bit changed. */
  function PutInUse(blk: Block, b: nat, v: bool): Block {
    var k := b % BPB / 8;
    blk[k := PutBitByte(blk[k], b % 8, v)]
  }

  /** Changing one block's bit changes no other block's. */
  lemma PutInUseAt(sb: Super, bs: Blocks, b: nat, v: bool, c: nat)
    requires BBlock(sb, b) < |bs| && BBlock(sb, c) < |bs|
    ensures InUse(sb, bs[BBlock(sb, b) := PutInUse(bs[BBlock(sb, b)], b, v)], c) == if c == b then v else InUse(sb, bs, c)
  {
    PutBitAll(bs[BBlock(sb, b)][b % BPB / 8], b % 8, v);
    if BBlock(sb, b) == BBlock(sb, c) && b % BPB / 8 == c % BPB / 8 && b % 8 == c % 8 {
      SameBit(b, c);
    }
  }

  lemma SameBit(b: nat, c: nat)
    requires b / BPB == c / BPB && b % BPB / 8 == c % BPB / 8 && b % 8 == c % 8
    ensures b == c
  {
    LowBits(b / BPB, b % BPB);
    LowBits(c / BPB, c % BPB);
    SameLow(b % BPB, c % BPB);
  }

  lemma SameLow(x: nat, y: nat)
    requires x / 8 == y / 8 && x % 8 == y % 8
    ensures x == y
  {
  }

  lemma LowBits(q: nat, r: nat)
    ensures (BPB * q + r) % 8 == r % 8
  {
    var j, m := r / 8, r % 8;
    Low8(512 * q + j, m);
    assert BPB * q + r == 8 * (512 * q + j) + m;
  }

  lemma Low8(k: nat, m: nat)
    requires m < 8
    ensures (8 * k + m) % 8 == m
  {
  }

  // ---------------------------------------------------------------- inodes

  type Addrs = a: seq<uint> | |a| == NDIRECT + 1 witness seq(NDIRECT + 1, i => 0)

  /** The disk part of an inode. `head` packs type and major number, `links` minor number and link count. */
  datatype Inode = Inode(head: uint, links: uint, size: uint, addrs: Addrs) {
    function Type(): nat {
      head % 0x1_0000
    }
  }

  function IBlock(sb: Super, i: nat): nat {
    i / IPB + sb.inodestart
  }

  function ReadWords(blk: Block, w: nat, n: nat): (a: seq<uint>)
    requires w + n <= NWORDS
    ensures |a| == n && forall k :: 0 <= k < n ==> a[k] == Word(blk, w + k)
  {
    if n == 0 then [] else ReadWords(blk, w, n - 1) + [Word(blk, w + n - 1)]
  }

  function ReadAddrs(blk: Block, w: nat): (a: Addrs)
    requires w + NDIRECT < NWORDS
    ensures forall k :: 0 <= k <= NDIRECT ==> a[k] == Word(blk, w + k)
  {
    ReadWords(blk, w, NDIRECT + 1)
  }

  /** The inode in slot s of an inode block. */
  function ReadInode(blk: Block, s: nat): Inode
    requires s < IPB
  {
    var w := DWORDS * s;
    Inode(Word(blk, w), Word(blk, w + 1), Word(blk, w + 2), ReadAddrs(blk, w + 3))
  }

  /** The on-disk inode i. */
  function Dinode(sb: Super, bs: Blocks, i: nat): Inode
    requires IBlock(sb, i) < |bs|
  {
    ReadInode(bs[IBlock(sb, i)], i % IPB)
  }

  function PutAddrs(blk: Block, w: nat, a: Addrs, k: nat): (r: Block)
    requires w + NDIRECT < NWORDS && k <= NDIRECT + 1
    ensures forall j: nat :: j < NWORDS ==> Word(r, j) == if w <= j < w + k then a[j - w] else Word(blk, j)
  {
    if k == 0 then blk else SetWord(PutAddrs(blk, w, a, k - 1), w + k - 1, a[k - 1])
  }

  /** iupdate's stores: the inode block with the inode in slot s replaced. */
  function WriteInode(blk: Block, s: nat, ip: Inode): (r: Block)
    requires s < IPB
    ensures Word(r, DWORDS * s) == ip.head && Word(r, DWORDS * s + 1) == ip.links && Word(r, DWORDS * s + 2) == ip.size
    ensures forall j: nat :: DWORDS * s + 3 <= j < DWORDS * s + DWORDS ==> Word(r, j) == ip.addrs[j - DWORDS * s - 3]
    ensures forall j: nat :: j < NWORDS && !(DWORDS * s <= j < DWORDS * s + DWORDS) ==> Word(r, j) == Word(blk, j)
  {
    var w := DWORDS * s;
    PutAddrs(SetWord(SetWord(SetWord(blk, w, ip.head), w + 1, ip.links), w + 2, ip.size), w + 3, ip.addrs, NDIRECT + 1)
  }

  lemma WriteInodeSame(blk: Block, s: nat, ip: Inode)
    requires s < IPB
    ensures ReadInode(WriteInode(blk, s, ip), s) == ip
  {
    var r := WriteInode(blk, s, ip);
    assert ReadAddrs(r, DWORDS * s + 3) == ip.addrs;
  }

  lemma WriteInodeOther(blk: Block, s: nat, ip: Inode, t: nat)
    requires s < IPB && t < IPB && t != s
    ensures ReadInode(WriteInode(blk, s, ip), t) == ReadInode(blk, t)
  {
    var r, v := WriteInode(blk, s, ip), DWORDS * t;
    assert v + DWORDS <= DWORDS * s || DWORDS * s + DWORDS <= v;
    assert ReadAddrs(r, v + 3) == ReadAddrs(blk, v + 3);
  }

  /** What iupdate stores is read back, and no other inode is touched. */
  lemma WriteInodeAt(sb: Super, bs: Blocks, i: nat, ip: Inode, j: nat)
    requires IBlock(sb, i) < |bs| && IBlock(sb, j) < |bs|
    ensures Dinode(sb, bs[IBlock(sb, i) := WriteInode(bs[IBlock(sb, i)], i % IPB, ip)], j) == if j == i then ip else Dinode(sb, bs, j)
  {
    var blk := bs[IBlock(sb, i)];
    if i == j {
      WriteInodeSame(blk, i % IPB, ip);
    } else if IBlock(sb, i) == IBlock(sb, j) {
      assert i == IPB * (i / IPB) + i % IPB && j == IPB * (j / IPB) + j % IPB;
      WriteInodeOther(blk, i % IPB, ip, j % IPB);
    }
  }

  // ---------------------------------------------------------------- addresses and ownership

  /** Slot k of inode i: a direct address, the indirect block's address, or an entry of that block. */
  datatype Slot = Slot(inum: nat, k: nat)

  /** The address in a slot; 0 is none. */
  function Addr(bs: Blocks, ip: Inode, k: nat): uint
    requires k < NSLOTS
  {
    if k <= NDIRECT then ip.addrs[k]
    else
      var a := ip.addrs[NDIRECT];
      if a == 0 || a >= |bs| then 0 else Word(bs[a], k - NDIRECT - 1)
  }

  /** The slot for the bn-th block of a file. */
  function FileSlot(bn: nat): nat {
    if bn < NDIRECT then bn else bn + 1
  }

  type Owner = map<nat, Slot>

  /** Block ownership. `owner` names the one slot each owned block sits in; slots of inode ti from
      NDIRECT + 1 up to te are exempt, as they hold addresses already freed while itrunc runs. */
  ghost predicate Linked(sb: Super, bs: Blocks, ino: seq<Inode>, owner: Owner, ti: nat, te: nat) {
    && sb.Ok() && |bs| == sb.size && |ino| == sb.ninodes
    && (forall i, k :: 0 <= i < |ino| && 0 <= k < NSLOTS && !(i == ti && NDIRECT < k < te) && Addr(bs, ino[i], k) != 0
          ==> Addr(bs, ino[i], k) as nat in owner && owner[Addr(bs, ino[i], k)] == Slot(i, k))
    && (forall b :: b in owner ==>
          && sb.data <= b < sb.size
          && owner[b].inum < |ino| && owner[b].k < NSLOTS && Addr(bs, ino[owner[b].inum], owner[b].k) == b
          && !(owner[b].inum == ti && NDIRECT < owner[b].k < te))
  }

  /** The bitmap marks exactly the metadata and the owned blocks, apart from block x. */
  ghost predicate Marked(sb: Super, bs: Blocks, owner: Owner, x: nat)
    requires sb.Ok() && |bs| == sb.size
  {
    forall b: nat :: b < sb.size && b != x ==> (InUse(sb, bs, b) <==> b < sb.data || b in owner)
  }

  ghost predicate FsInv(sb: Super, bs: Blocks, ino: seq<Inode>, owner: Owner) {
    Linked(sb, bs, ino, owner, 0, 0) && Marked(sb, bs, owner, sb.size)
  }

  // ---------------------------------------------------------------- single changes

  lemma OwnedIsData(sb: Super, bs: Blocks, ino: seq<Inode>, owner: Owner, ti: nat, te: nat, i: nat, k: nat)
    requires Linked(sb, bs, ino, owner, ti, te) && i < |ino| && k < NSLOTS && !(i == ti && NDIRECT < k < te)
    ensures var a := Addr(bs, ino[i], k); a != 0 ==> sb.data <= a < sb.size && a as nat in owner && owner[a] == Slot(i, k)
  {
  }

  lemma LayoutFacts(sb: Super, b: nat, i: nat)
    requires sb.Ok()
    ensures b < sb.size ==> sb.bmapstart <= BBlock(sb, b) < sb.data
    ensures i < sb.ninodes ==> sb.inodestart <= IBlock(sb, i) < sb.bmapstart
  {
    if b < sb.size { assert b / BPB <= (sb.size - 1) / BPB; }
    if i < sb.ninodes { assert i / IPB <= (sb.ninodes - 1) / IPB; }
  }

  /** Changing a block that is nobody's indirect block leaves every address alone. */
  lemma AddrsKept(sb: Super, bs: Blocks, ino: seq<Inode>, owner: Owner, ti: nat, te: nat, x: nat, blk: Block)
    requires Linked(sb, bs, ino, owner, ti, te) && x < |bs|
    requires x in owner ==> owner[x].k != NDIRECT
    ensures forall i, k :: 0 <= i < |ino| && 0 <= k < NSLOTS ==> Addr(bs[x := blk], ino[i], k) == Addr(bs, ino[i], k)
    ensures Linked(sb, bs[x := blk], ino, owner, ti, te)
  {
    var bs' := bs[x := blk];
    forall i, k | 0 <= i < |ino| && 0 <= k < NSLOTS ensures Addr(bs', ino[i], k) == Addr(bs, ino[i], k) {
      assert Addr(bs, ino[i], NDIRECT) == ino[i].addrs[NDIRECT];
      OwnedIsData(sb, bs, ino, owner, ti, te, i, NDIRECT);
    }
  }

  /** Changing a block outside the bitmap leaves every bit alone. */
  lemma BitsKept(sb: Super, bs: Blocks, owner: Owner, x: nat, blk: Block, y: nat)
    requires sb.Ok() && |bs| == sb.size && x < |bs| && (x < sb.bmapstart || x >= sb.data) && Marked(sb, bs, owner, y)
    ensures Marked(sb, bs[x := blk], owner, y)
  {
    forall b: nat | b < sb.size ensures BBlock(sb, b) < |bs| && InUse(sb, bs[x := blk], b) == InUse(sb, bs, b) {
      LayoutFacts(sb, b, 0);
    }
  }

  /** Writing a data block, or an inode block, keeps the invariant. */
  lemma PlainWriteInv(sb: Super, bs: Blocks, ino: seq<Inode>, owner: Owner, x: nat, blk: Block)
    requires FsInv(sb, bs, ino, owner) && x < |bs| && (x < sb.bmapstart || x >= sb.data)
    requires x in owner ==> owner[x].k != NDIRECT
    ensures FsInv(sb, bs[x := blk], ino, owner)
  {
    AddrsKept(sb, bs, ino, owner, 0, 0, x, blk);
    BitsKept(sb, bs, owner, x, blk, sb.size);
  }

  lemma BitChanged(sb: Super, bs: Blocks, owner: Owner, b: nat, v: bool, x: nat)
    requires sb.Ok() && |bs| == sb.size && b < sb.size && BBlock(sb, b) < |bs| && Marked(sb, bs, owner, x) && (x == sb.size || x == b)
    ensures var bs' := bs[BBlock(sb, b) := PutInUse(bs[BBlock(sb, b)], b, v)];
            Marked(sb, bs', owner, b) && InUse(sb, bs', b) == v
  {
    var bs' := bs[BBlock(sb, b) := PutInUse(bs[BBlock(sb, b)], b, v)];
    forall c: nat | c < sb.size ensures BBlock(sb, c) < |bs| && InUse(sb, bs', c) == if c == b then v else InUse(sb, bs, c) {
      LayoutFacts(sb, c, 0);
      PutInUseAt(sb, bs, b, v, c);
    }
  }

  /** balloc's two writes: the bit, then the zeroed block. */
  function Allocated(sb: Super, bs: Blocks, b: nat): (r: Blocks)
    requires BBlock(sb, b) < |bs| && b < |bs|
    ensures |r| == |bs|
  {
    bs[BBlock(sb, b) := PutInUse(bs[BBlock(sb, b)], b, true)][b := ZeroBlock]
  }

  lemma AllocatedInv(sb: Super, bs: Blocks, ino: seq<Inode>, owner: Owner, b: nat)
    requires FsInv(sb, bs, ino, owner) && b < sb.size && BBlock(sb, b) < |bs| && !InUse(sb, bs, b)
    ensures sb.data <= b && b !in owner
    ensures Linked(sb, Allocated(sb, bs, b), ino, owner, 0, 0) && Marked(sb, Allocated(sb, bs, b), owner, b)
    ensures InUse(sb, Allocated(sb, bs, b), b)
    ensures forall i, k :: 0 <= i < |ino| && 0 <= k < NSLOTS ==> Addr(Allocated(sb, bs, b), ino[i], k) == Addr(bs, ino[i], k)
  {
    LayoutFacts(sb, b, 0);
    var x := BBlock(sb, b);
    var blk := PutInUse(bs[x], b, true);
    AddrsKept(sb, bs, ino, owner, 0, 0, x, blk);
    BitChanged(sb, bs, owner, b, true, sb.size);
    AddrsKept(sb, bs[x := blk], ino, owner, 0, 0, b, ZeroBlock);
    BitsKept(sb, bs[x := blk], owner, b, ZeroBlock, b);
  }

  /** The inode with one address changed. */
  function WithAddr(ip: Inode, k: nat, a: uint): Inode
    requires k <= NDIRECT
  {
    ip.(addrs := ip.addrs[k := a])
  }

  /** Storing a fresh block's number in an empty inode slot makes that slot its owner. */
  lemma AttachInode(sb: Super, bs: Blocks, ino: seq<Inode>, owner: Owner, i: nat, k: nat, b: uint)
    requires Linked(sb, bs, ino, owner, 0, 0) && Marked(sb, bs, owner, b)
    requires i < |ino| && k <= NDIRECT && ino[i].addrs[k] == 0
    requires sb.data <= b < sb.size && b as nat !in owner && bs[b] == ZeroBlock && InUse(sb, bs, b)
    ensures FsInv(sb, bs, ino[i := WithAddr(ino[i], k, b)], owner[b as nat := Slot(i, k)])
    ensures forall j, l :: 0 <= j < |ino| && 0 <= l < NSLOTS && Slot(j, l) != Slot(i, k) ==>
              Addr(bs, ino[i := WithAddr(ino[i], k, b)][j], l) == Addr(bs, ino[j], l)
  {
    var ino', owner' := ino[i := WithAddr(ino[i], k, b)], owner[b as nat := Slot(i, k)];
    AttachAddrs(bs, ino, i, k, b);
    AttachLinks(sb, bs, ino, ino', owner, i, k, b);
  }

  lemma AttachLinks(sb: Super, bs: Blocks, ino: seq<Inode>, ino': seq<Inode>, owner: Owner, i: nat, k: nat, b: uint)
    requires Linked(sb, bs, ino, owner, 0, 0) && |ino'| == |ino| && i < |ino| && k <= NDIRECT && Addr(bs, ino'[i], k) == b
    requires sb.data <= b < sb.size && b as nat !in owner && Addr(bs, ino[i], k) == 0
    requires forall j, l :: 0 <= j < |ino| && 0 <= l < NSLOTS && Slot(j, l) != Slot(i, k) ==> Addr(bs, ino'[j], l) == Addr(bs, ino[j], l)
    ensures Linked(sb, bs, ino', owner[b as nat := Slot(i, k)], 0, 0)
  {
    var owner' := owner[b as nat := Slot(i, k)];
    forall j, l | 0 <= j < |ino'| && 0 <= l < NSLOTS && Addr(bs, ino'[j], l) != 0
      ensures Addr(bs, ino'[j], l) as nat in owner' && owner'[Addr(bs, ino'[j], l)] == Slot(j, l)
    {
      assert Slot(j, l) != Slot(i, k) ==> Addr(bs, ino'[j], l) == Addr(bs, ino[j], l);
    }
    forall c | c in owner' ensures Addr(bs, ino'[owner'[c].inum], owner'[c].k) == c {
      if c != b { assert Addr(bs, ino[owner[c].inum], owner[c].k) == c; }
    }
  }

  /** The entries of a zeroed block are empty, as they were without it. */
  lemma AttachAddrs(bs: Blocks, ino: seq<Inode>, i: nat, k: nat, b: uint)
    requires i < |ino| && k <= NDIRECT && ino[i].addrs[k] == 0 && b < |bs| && bs[b] == ZeroBlock
    ensures forall j, l :: 0 <= j < |ino| && 0 <= l < NSLOTS && Slot(j, l) != Slot(i, k) ==>
              Addr(bs, ino[i := WithAddr(ino[i], k, b)][j], l) == Addr(bs, ino[j], l)
  {
    var ino' := ino[i := WithAddr(ino[i], k, b)];
    forall j, l | 0 <= j < |ino| && 0 <= l < NSLOTS && Slot(j, l) != Slot(i, k) ensures Addr(bs, ino'[j], l) == Addr(bs, ino[j], l) {
      if j == i && k == NDIRECT && l > NDIRECT { ZeroWords(l - NDIRECT - 1); }
    }
  }

  lemma EntryAddrs(sb: Super, bs: Blocks, ino: seq<Inode>, owner: Owner, i: nat, e: nat, b: uint)
    requires Linked(sb, bs, ino, owner, 0, 0) && i < |ino| && e < NINDIRECT && ino[i].addrs[NDIRECT] != 0
    ensures var a := ino[i].addrs[NDIRECT];
            && sb.data <= a < sb.size && a as nat in owner && owner[a] == Slot(i, NDIRECT)
            && Addr(bs[a := SetWord(bs[a], e, b)], ino[i], NDIRECT + 1 + e) == b
            && forall j, l :: 0 <= j < |ino| && 0 <= l < NSLOTS && Slot(j, l) != Slot(i, NDIRECT + 1 + e) ==>
                 Addr(bs[a := SetWord(bs[a], e, b)], ino[j], l) == Addr(bs, ino[j], l)
  {
    var a := ino[i].addrs[NDIRECT];
    assert Addr(bs, ino[i], NDIRECT) == a;
    var s := Slot(i, NDIRECT + 1 + e);
    var bs' := bs[a := SetWord(bs[a], e, b)];
    forall j, l | 0 <= j < |ino| && 0 <= l < NSLOTS && Slot(j, l) != s ensures Addr(bs', ino[j], l) == Addr(bs, ino[j], l) {
      assert Addr(bs, ino[j], NDIRECT) == ino[j].addrs[NDIRECT];
    }
  }

  /** When only slot s changed, from empty to a fresh block b, that slot becomes b's owner. */
  lemma LinkedMore(sb: Super, bs: Blocks, bs': Blocks, ino: seq<Inode>, owner: Owner, s: Slot, b: uint)
    requires Linked(sb, bs, ino, owner, 0, 0) && |bs'| == |bs|
    requires s.inum < |ino| && s.k < NSLOTS && Addr(bs, ino[s.inum], s.k) == 0 && Addr(bs', ino[s.inum], s.k) == b
    requires sb.data <= b < sb.size && b as nat !in owner
    requires forall j, l :: 0 <= j < |ino| && 0 <= l < NSLOTS && Slot(j, l) != s ==> Addr(bs', ino[j], l) == Addr(bs, ino[j], l)
    ensures Linked(sb, bs', ino, owner[b as nat := s], 0, 0)
  {
    var owner' := owner[b as nat := s];
    forall c | c in owner' ensures Addr(bs', ino[owner'[c].inum], owner'[c].k) == c {
      if c != b { assert Addr(bs, ino[owner[c].inum], owner[c].k) == c; }
    }
  }

  /** Storing a fresh block's number in an empty entry of an inode's indirect block does the same. */
  lemma AttachEntry(sb: Super, bs: Blocks, ino: seq<Inode>, owner: Owner, i: nat, e: nat, b: uint)
    requires Linked(sb, bs, ino, owner, 0, 0) && Marked(sb, bs, owner, b)
    requires i < |ino| && e < NINDIRECT && ino[i].addrs[NDIRECT] != 0 && Addr(bs, ino[i], NDIRECT + 1 + e) == 0
    requires sb.data <= b < sb.size && b as nat !in owner && InUse(sb, bs, b)
    ensures var a := ino[i].addrs[NDIRECT];
            && sb.data <= a < sb.size && a as nat in owner && a != b
            && FsInv(sb, bs[a := SetWord(bs[a], e, b)], ino, owner[b as nat := Slot(i, NDIRECT + 1 + e)])
  {
    var a := ino[i].addrs[NDIRECT];
    EntryAddrs(sb, bs, ino, owner, i, e, b);
    var bs' := bs[a := SetWord(bs[a], e, b)];
    LinkedMore(sb, bs, bs', ino, owner, Slot(i, NDIRECT + 1 + e), b);
    BitsKept(sb, bs, owner, a, SetWord(bs[a], e, b), b);
    forall c: nat | c < sb.size ensures BBlock(sb, c) < |bs| && (c == b ==> InUse(sb, bs', c)) {
      LayoutFacts(sb, c, 0);
    }
  }

  /** bfree's write. */
  function Freed(sb: Super, bs: Blocks, b: nat): (r: Blocks)
    requires BBlock(sb, b) < |bs|
    ensures |r| == |bs|
  {
    bs[BBlock(sb, b) := PutInUse(bs[BBlock(sb, b)], b, false)]
  }

  lemma DetachFacts(sb: Super, bs: Blocks, ino: seq<Inode>, owner: Owner, i: nat, k: nat, te: nat, b: nat)
    requires Linked(sb, bs, ino, owner, i, te) && Marked(sb, bs, owner, sb.size)
    requires i < |ino| && k <= NDIRECT && b == ino[i].addrs[k] != 0 && (k == NDIRECT <==> te == NSLOTS) && (k < NDIRECT ==> te == 0)
    ensures sb.data <= b < sb.size && BBlock(sb, b) < |bs| && InUse(sb, bs, b) && b in owner && owner[b] == Slot(i, k)
  {
    assert Addr(bs, ino[i], k) == b;
    LayoutFacts(sb, b, 0);
  }

  /** Freeing an owned block and clearing the inode slot that held it. For the indirect block its
      entries must have been freed first. */
  lemma DetachInode(sb: Super, bs: Blocks, ino: seq<Inode>, owner: Owner, i: nat, k: nat, te: nat)
    requires Linked(sb, bs, ino, owner, i, te) && Marked(sb, bs, owner, sb.size)
    requires i < |ino| && k <= NDIRECT && ino[i].addrs[k] != 0 && (k == NDIRECT <==> te == NSLOTS) && (k < NDIRECT ==> te == 0)
    ensures var b: nat := ino[i].addrs[k];
            && sb.data <= b < sb.size && BBlock(sb, b) < |bs| && InUse(sb, bs, b)
            && FsInv(sb, Freed(sb, bs, b), ino[i := WithAddr(ino[i], k, 0)], owner - {b})
            && b in owner && owner[b] == Slot(i, k)
  {
    var b: nat := ino[i].addrs[k];
    DetachFacts(sb, bs, ino, owner, i, k, te, b);
    LayoutFacts(sb, b, 0);
    var x := BBlock(sb, b);
    var blk := PutInUse(bs[x], b, false);
    AddrsKept(sb, bs, ino, owner, i, te, x, blk);
    BitChanged(sb, bs, owner, b, false, sb.size);
    DetachLinks(sb, Freed(sb, bs, b), ino, owner, i, k, te);
  }

  lemma DetachLinks(sb: Super, bs: Blocks, ino: seq<Inode>, owner: Owner, i: nat, k: nat, te: nat)
    requires Linked(sb, bs, ino, owner, i, te)
    requires i < |ino| && k <= NDIRECT && ino[i].addrs[k] != 0 && (k == NDIRECT <==> te == NSLOTS) && (k < NDIRECT ==> te == 0)
    ensures Linked(sb, bs, ino[i := WithAddr(ino[i], k, 0)], owner - {ino[i].addrs[k] as nat}, 0, 0)
  {
    var b: nat := ino[i].addrs[k];
    assert Addr(bs, ino[i], k) == b;
    var ino', owner' := ino[i := WithAddr(ino[i], k, 0)], owner - {b};
    forall j, l | 0 <= j < |ino| && 0 <= l < NSLOTS && Addr(bs, ino'[j], l) != 0
      ensures Addr(bs, ino'[j], l) as nat in owner' && owner'[Addr(bs, ino'[j], l)] == Slot(j, l)
    {
      assert Addr(bs, ino'[j], l) == Addr(bs, ino[j], l);
      assert Slot(j, l) != Slot(i, k);
    }
    forall c | c in owner' ensures Addr(bs, ino'[owner'[c].inum], owner'[c].k) == c {
      assert Addr(bs, ino[owner[c].inum], owner[c].k) == c;
      assert owner[c] != Slot(i, k);
    }
  }

  lemma ExemptMore(sb: Super, bs: Blocks, ino: seq<Inode>, owner: Owner, i: nat, te: nat)
    requires Linked(sb, bs, ino, owner, i, te) && i < |ino| && NDIRECT < te < NSLOTS
    ensures Linked(sb, bs, ino, owner - {Addr(bs, ino[i], te) as nat}, i, te + 1)
  {
    var b: nat := Addr(bs, ino[i], te);
    forall c | c in owner && c != b ensures owner[c] != Slot(i, te) {
      assert Addr(bs, ino[owner[c].inum], owner[c].k) == c;
    }
  }

  /** Freeing one entry of the indirect block: the entry stays in the block and is exempt from then on. */
  lemma DetachEntry(sb: Super, bs: Blocks, ino: seq<Inode>, owner: Owner, i: nat, te: nat)
    requires Linked(sb, bs, ino, owner, i, te) && Marked(sb, bs, owner, sb.size) && i < |ino| && NDIRECT < te < NSLOTS
    requires Addr(bs, ino[i], te) != 0
    ensures var b: nat := Addr(bs, ino[i], te);
            && sb.data <= b < sb.size && BBlock(sb, b) < |bs| && InUse(sb, bs, b) && b in owner && owner[b] == Slot(i, te)
            && Linked(sb, Freed(sb, bs, b), ino, owner - {b}, i, te + 1) && Marked(sb, Freed(sb, bs, b), owner - {b}, sb.size)
            && forall j, l :: 0 <= j < |ino| && 0 <= l < NSLOTS ==> Addr(Freed(sb, bs, b), ino[j], l) == Addr(bs, ino[j], l)
  {
    var b: nat := Addr(bs, ino[i], te);
    LayoutFacts(sb, b, 0);
    var x := BBlock(sb, b);
    AddrsKept(sb, bs, ino, owner, i, te, x, PutInUse(bs[x], b, false));
    ExemptMore(sb, Freed(sb, bs, b), ino, owner, i, te);
    BitChanged(sb, bs, owner, b, false, sb.size);
  }
}
