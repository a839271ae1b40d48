/** fs.c: block allocation, the block map of an inode, truncation, and reading and writing a file,
    on the block array that the buffer cache and the log provide. */
module Fs {
  import opened Common
  import opened Bytes
  import opened Disk
  import opened FsModel
  import opened FsData
  import opened FsRoom

  /** The outcome of readi and writei: a panic in the allocator, a call into a device driver (which is
      not modelled), or a return value. */
  datatype Outcome = Panic | Device | Ret(n: int)

  /** Every block below n is marked in use. */
  ghost predicate UsedBelow(sb: Super, bs: Blocks, n: nat)
    requires sb.Ok() && |bs| == sb.size
  {
    forall c: nat :: c < n && c < sb.size ==> InUse(sb, bs, c)
  }

  /** The bit that balloc's inner loop looks at. */
  lemma BitPlace(sb: Super, bs: Blocks, b: nat, bi: nat)
    requires sb.Ok() && |bs| == sb.size && b % BPB == 0 && bi < BPB && b + bi < sb.size
    ensures BBlock(sb, b) < |bs| && BBlock(sb, b + bi) == BBlock(sb, b)
    ensures InUse(sb, bs, b + bi) == TestBit(bs[BBlock(sb, b)][bi / 8], bi % 8)
  {
    LayoutFacts(sb, b, 0);
    LayoutFacts(sb, b + bi, 0);
    LowBits(b / BPB, bi);
    assert (b + bi) / BPB == b / BPB && (b + bi) % BPB == bi;
  }

  lemma Exhausted(sb: Super, bs: Blocks, ino: seq<Inode>, owner: Owner)
    requires sb.Ok() && |bs| == sb.size && Sound(sb, bs, ino, owner) && UsedBelow(sb, bs, sb.size)
    ensures Room(sb, owner) == 0
  {
    forall c: nat | c < sb.size ensures BBlock(sb, c) < |bs| && InUse(sb, bs, c) {
      LayoutFacts(sb, c, 0);
    }
    NoRoom(sb, bs, ino, owner);
  }

  /** How many of n bytes at off the file has. */
  function Available(size: nat, off: nat, n: nat): (r: nat)
    requires off <= size
    ensures r <= n && off + r <= size && (r == n || off + r == size)
  {
    if off + n > size then size - off else n
  }

  /** A read of len bytes at off gives them as the file had them, and leaves every file as it was; at most it
      has given blocks to empty slots of the file. */
  ghost predicate ReadDone(sb: Super, bs: Blocks, ino: seq<Inode>, owner: Owner, bs': Blocks, ino': seq<Inode>, owner': Owner,
                           i: nat, off: nat, len: nat, dst: seq<byte>)
    requires i < |ino| && off + len <= ino[i].size
  {
    && Extends(sb, bs, ino, owner, bs', ino', owner', i) && dst == Content(bs, ino[i])[off..off + len]
    && Pass(bs, ino[i], |owner|, bs', ino'[i], |owner'|, off / BSIZE, EndBlock(off, len))
  }

  /** Filling holes changes no file. */
  lemma ExtendsContent(sb: Super, bs: Blocks, ino: seq<Inode>, owner: Owner, bs': Blocks, ino': seq<Inode>, owner': Owner, i: nat, j: nat)
    requires Extends(sb, bs, ino, owner, bs', ino', owner', i) && j < |ino|
    ensures Content(bs', ino'[j]) == Content(bs, ino[j])
  {
    assert Unfold(0);
    forall o | 0 <= o < ino[j].size ensures ByteAt(bs', ino'[j], o) == ByteAt(bs, ino[j], o) {
    }
    SameContent(bs, ino[j], bs', ino'[j]);
  }

  /** What readi's loop has done after tot bytes, at file block cur. Kept folded. */
  ghost predicate ReadSoFar(sb: Super, bs0: Blocks, ino0: seq<Inode>, owner0: Owner, bs: Blocks, ino: seq<Inode>, owner: Owner,
                            i: nat, off: nat, len: nat, tot: nat, cur: nat, dst: seq<byte>)
  {
    forall x {:trigger Look(x)} :: Look(x) ==>
      && tot <= len && Extends(sb, bs0, ino0, owner0, bs, ino, owner, i) && off + len <= ino0[i].size
      && dst == Content(bs0, ino0[i])[off..off + tot]
      && cur == CurBlock(off, len, tot) && Pass(bs0, ino0[i], |owner0|, bs, ino[i], |owner|, off / BSIZE, cur)
  }

  lemma ReadStart(sb: Super, bs: Blocks, ino: seq<Inode>, owner: Owner, i: nat, off: nat, len: nat)
    requires Sound(sb, bs, ino, owner) && i < |ino| && off + len <= ino[i].size <= MAXFILE * BSIZE
    ensures ReadSoFar(sb, bs, ino, owner, bs, ino, owner, i, off, len, 0, off / BSIZE, [])
  {
    ExtendsSelf(sb, bs, ino, owner, i);
    PassNone(bs, ino[i], |owner|, off / BSIZE);
    CurStart(off, len);
  }

  lemma ReadAt(sb: Super, bs0: Blocks, ino0: seq<Inode>, owner0: Owner, bs: Blocks, ino: seq<Inode>, owner: Owner,
               i: nat, off: nat, len: nat, tot: nat, cur: nat, dst: seq<byte>, o: nat)
    requires ReadSoFar(sb, bs0, ino0, owner0, bs, ino, owner, i, off, len, tot, cur, dst) && tot < len && o == off + tot
    requires i < |ino0| && ino0[i].size <= MAXFILE * BSIZE
    ensures cur == o / BSIZE < EndBlock(off, len) <= MAXFILE && i < |ino| && ino[i].size == ino0[i].size
  {
    assert Look(0);
    CurNext(off, len, tot, o, tot + Piece(o, len - tot));
  }

  lemma ReadMore(sb: Super, bs0: Blocks, ino0: seq<Inode>, owner0: Owner, bs: Blocks, ino: seq<Inode>, owner: Owner,
                 bs': Blocks, ino': seq<Inode>, owner': Owner, i: nat, off: nat, len: nat, tot: nat, next: nat, o: nat, cur: nat, step: nat,
                 dst: seq<byte>, part: seq<byte>)
    requires ReadSoFar(sb, bs0, ino0, owner0, bs, ino, owner, i, off, len, tot, cur, dst) && tot < len && o == off + tot
    requires next == tot + Piece(o, len - tot) && step == cur + 1 && MapDone(sb, bs, ino, owner, bs', ino', owner', i, cur, step)
    requires off + next <= ino'[i].size && part == Content(bs', ino'[i])[o..off + next]
    ensures ReadSoFar(sb, bs0, ino0, owner0, bs', ino', owner', i, off, len, next, step, dst + part)
  {
    assert Look(0);
    CurNext(off, len, tot, o, next);
    ExtendsTrans(sb, bs0, ino0, owner0, bs, ino, owner, bs', ino', owner', i);
    ExtendsContent(sb, bs0, ino0, owner0, bs', ino', owner', i, i);
    SliceMore(Content(bs0, ino0[i]), off, o, off + next);
    PassOne(bs0, ino0[i], |owner0|, bs, ino[i], |owner|, bs', ino'[i], |owner'|, off / BSIZE, cur, step);
  }

  lemma ReadStuck(sb: Super, bs0: Blocks, ino0: seq<Inode>, owner0: Owner, bs: Blocks, ino: seq<Inode>, owner: Owner,
                  i: nat, off: nat, len: nat, tot: nat, cur: nat, dst: seq<byte>)
    requires ReadSoFar(sb, bs0, ino0, owner0, bs, ino, owner, i, off, len, tot, cur, dst) && i < |ino0| == |ino| && sb.Ok()
    requires cur < EndBlock(off, len) <= MAXFILE && Room(sb, owner) < Cost(bs, ino[i], cur, cur)
    ensures Room(sb, owner0) < Need(bs0, ino0[i], off / BSIZE, EndBlock(off, len))
  {
    assert Look(0);
    PassStuck(bs0, ino0[i], |owner0|, bs, ino[i], |owner|, off / BSIZE, cur, EndBlock(off, len), sb.size - sb.data);
  }

  lemma ReadEnd(sb: Super, bs0: Blocks, ino0: seq<Inode>, owner0: Owner, bs: Blocks, ino: seq<Inode>, owner: Owner,
                i: nat, off: nat, len: nat, cur: nat, dst: seq<byte>)
    requires ReadSoFar(sb, bs0, ino0, owner0, bs, ino, owner, i, off, len, len, cur, dst) && i < |ino0| == |ino| && Room(sb, owner) >= 0
    requires off + len <= ino0[i].size && EndBlock(off, len) <= MAXFILE
    ensures ReadDone(sb, bs0, ino0, owner0, bs, ino, owner, i, off, len, dst)
    ensures Room(sb, owner0) >= Need(bs0, ino0[i], off / BSIZE, EndBlock(off, len))
  {
    assert Look(0);
  }

  /** The bytes from o to end, all in file block bn, whose address is a. */
  lemma ReadSlice(sb: Super, bs: Blocks, ino: seq<Inode>, owner: Owner, i: nat, bn: nat, a: nat, o: nat, end: nat)
    requires sb.Ok() && |bs| == sb.size && Sound(sb, bs, ino, owner) && i < |ino| && bn == o / BSIZE < MAXFILE
    requires a == Addr(bs, ino[i], FileSlot(bn)) != 0 && o < end <= ino[i].size && o % BSIZE + (end - o) <= BSIZE
    ensures a < |bs| && bs[a][o % BSIZE..o % BSIZE + (end - o)] == Content(bs, ino[i])[o..end]
  {
    BlockPlace(sb, bs, ino, owner, i, FileSlot(bn));
    ReadPart(bs, ino[i], a, o, end - o);
  }

  lemma BelowSizeMapped(bs: Blocks, ip: Inode, o: nat, bn: nat)
    requires o < ip.size && bn == o / BSIZE < MAXFILE
    ensures NoHoles(bs, ip) ==> Mapped(bs, ip, bn)
  {
    assert bn * BSIZE < ip.size;
  }

  /** The size and the inode block, once the file has grown. */
  lemma SizeSound(sb: Super, bs: Blocks, ino: seq<Inode>, owner: Owner, i: nat, end: uint)
    requires Sound(sb, bs, ino, owner) && i < |ino|
    ensures Sound(sb, bs, WithSize(ino, i, end), owner)
  {
    assert Unfold(0);
    SizeInv(sb, bs, ino, owner, i, end);
  }

  lemma GrowDone(sb: Super, bs0: Blocks, ino0: seq<Inode>, n0: nat, bs1: Blocks, ino1: seq<Inode>, owner1: Owner, bs2: Blocks, ino2: seq<Inode>,
                 i: nat, off: nat, src: seq<byte>, end: nat)
    requires sb.Ok() && |bs0| == |bs1| == sb.size && |ino1| == sb.ninodes && Sound(sb, bs1, ino1, owner1) && end == off + |src|
    requires LoopContent(sb, bs0, ino0, bs1, ino1, i, off, src, |src|) && off <= ino0[i].size
    requires ino0[i].size < end <= MAXFILE * BSIZE && ino2 == WithSize(ino1, i, end)
    requires |bs2| == |bs1| && SameData(bs1, ino2, bs2, ino2) && SameAddrs(bs1, ino2, bs2, ino2)
    requires forall j: nat :: j < sb.ninodes && j != i ==> SameDinode(sb, bs1, bs2, j)
    requires Pass(bs0, ino0[i], n0, bs1, ino1[i], |owner1|, off / BSIZE, EndBlock(off, |src|))
    ensures WriteDone(sb, bs0, ino0, bs2, ino2, i, off, src)
    ensures Pass(bs0, ino0[i], n0, bs2, ino2[i], |owner1|, off / BSIZE, EndBlock(off, |src|))
  {
    assert Unfold(0);
    DoneGrown(sb, bs0, ino0, bs1, ino1, owner1, bs2, ino2, i, off, src, end);
    SizeAddrs(bs1, ino1[i], bs2, ino2[i]);
    PassSame(bs0, ino0[i], n0, bs1, ino1[i], |owner1|, bs2, ino2[i], off / BSIZE, EndBlock(off, |src|));
  }

  /** writei's bounds on the offset and the count. */
  predicate Writable(off: nat, n: nat, size: nat) {
    off <= size && off + n < 0x1_0000_0000 && off + n <= MAXFILE * BSIZE
  }

  /** Addresses do not depend on the size. */
  lemma SizeAddrs(bs: Blocks, ip: Inode, bs': Blocks, ip': Inode)
    requires ip'.addrs == ip.addrs && forall k :: 0 <= k < NSLOTS ==> Addr(bs', ip', k) == Addr(bs, ip', k)
    ensures forall k :: 0 <= k < NSLOTS ==> Addr(bs', ip', k) == Addr(bs, ip, k)
  {
    assert forall k :: 0 <= k < NSLOTS ==> Addr(bs, ip', k) == Addr(bs, ip, k);
  }

  // ---------------------------------------------------------------- filewrite's chunks

  /** A write can start at off. */
  predicate InFile(off: nat, size: nat) {
    off <= size && off <= MAXFILE * BSIZE
  }

  /** How many of n bytes at off filewrite tries to write: all of them, or the whole chunks that end within
      the largest file, or none when it starts beyond the end of the file. */
  function Attempted(off: nat, size: nat, n: nat): (r: nat)
    ensures r <= n
    ensures InFile(off, size) ==> off + r <= MAXFILE * BSIZE
    ensures off > size ==> r == 0
    ensures off <= size && off + n <= MAXFILE * BSIZE ==> r == n
    ensures off <= size && off <= MAXFILE * BSIZE < off + n ==> r % CHUNK == 0 && off + r + CHUNK > MAXFILE * BSIZE
  {
    if !InFile(off, size) then 0
    else if off + n <= MAXFILE * BSIZE then n
    else (MAXFILE * BSIZE - off) / CHUNK * CHUNK
  }

  /** The length of the chunk after `done` bytes. */
  function ChunkLen(n: nat, done: nat): (r: nat)
    requires done < n
    ensures 0 < r <= CHUNK && done + r <= n && (r == CHUNK || done + r == n)
  {
    if n - done > CHUNK then CHUNK else n - done
  }

  /** A chunk is among those tried exactly when writei accepts it. */
  lemma ChunkTried(off: nat, size: nat, n: nat, done: nat)
    requires done < n && done % CHUNK == 0 && done <= Attempted(off, size, n)
    ensures off <= size && off + done + ChunkLen(n, done) <= MAXFILE * BSIZE ==> done + ChunkLen(n, done) <= Attempted(off, size, n)
    ensures off > size || off + done + ChunkLen(n, done) > MAXFILE * BSIZE ==> done == Attempted(off, size, n)
  {
    if InFile(off, size) && off + n > MAXFILE * BSIZE {
      var q, room := done / CHUNK, MAXFILE * BSIZE - off;
      assert done == q * CHUNK;
      if done + CHUNK <= room {
        assert q + 1 <= room / CHUNK;
      } else {
        assert room / CHUNK == q;
      }
    }
  }

  /** What the chunks written so far have allocated. */
  ghost predicate FilePass(bs0: Blocks, ip0: Inode, n0: nat, bs: Blocks, ip: Inode, n: nat, off: nat, done: nat) {
    InFile(off, ip0.size) ==> Pass(bs0, ip0, n0, bs, ip, n, off / BSIZE, EndBlock(off, done))
  }

  /** A chunk ends where it ends, and starts at the block after the last one written or in it. */
  lemma ChunkBlocks(off: nat, done: nat, o: nat, len: nat, next: nat)
    requires o == off + done && next == done + len && len > 0 && off + next <= MAXFILE * BSIZE
    ensures EndBlock(o, len) == EndBlock(off, next) <= MAXFILE && o / BSIZE < EndBlock(o, len)
    ensures done == 0 ==> o / BSIZE == EndBlock(off, done)
    ensures done > 0 ==> off / BSIZE < EndBlock(off, done) <= EndBlock(off, next) && (o / BSIZE == EndBlock(off, done) || o / BSIZE == EndBlock(off, done) - 1)
  {
  }

  lemma FilePassMore(bs0: Blocks, ip0: Inode, n0: nat, bs: Blocks, ip: Inode, n: nat, bs': Blocks, ip': Inode, n': nat,
                     off: nat, done: nat, o: nat, len: nat, next: nat)
    requires FilePass(bs0, ip0, n0, bs, ip, n, off, done) && InFile(off, ip0.size) && o == off + done && next == done + len && len > 0
    requires off + next <= MAXFILE * BSIZE && Pass(bs, ip, n, bs', ip', n', o / BSIZE, EndBlock(o, len)) && (done == 0 ==> bs == bs0 && ip == ip0 && n == n0)
    ensures FilePass(bs0, ip0, n0, bs', ip', n', off, next)
  {
    ChunkBlocks(off, done, o, len, next);
    if done > 0 {
      PassMore(bs0, ip0, n0, bs, ip, n, bs', ip', n', off / BSIZE, EndBlock(off, done), o / BSIZE, EndBlock(off, next));
    }
  }

  lemma FilePassStuck(bs0: Blocks, ip0: Inode, n0: nat, bs: Blocks, ip: Inode, n: nat, off: nat, done: nat, o: nat, len: nat, next: nat, all: nat, total: int)
    requires FilePass(bs0, ip0, n0, bs, ip, n, off, done) && InFile(off, ip0.size) && o == off + done && next == done + len <= all && len > 0
    requires off + all <= MAXFILE * BSIZE && (done == 0 ==> bs == bs0 && ip == ip0 && n == n0)
    requires EndBlock(o, len) <= MAXFILE && total - n < Need(bs, ip, o / BSIZE, EndBlock(o, len))
    ensures EndBlock(off, all) <= MAXFILE && total - n0 < Need(bs0, ip0, off / BSIZE, EndBlock(off, all))
  {
    ChunkBlocks(off, done, o, len, next);
    ChunkBlocks(off, 0, off, all, all);
    if done > 0 {
      NeedSplit(bs0, ip0, bs, ip, off / BSIZE, EndBlock(off, done), o / BSIZE, EndBlock(off, next));
    }
    assert EndBlock(off, next) <= EndBlock(off, all);
    NeedMono(bs0, ip0, off / BSIZE, EndBlock(off, next), EndBlock(off, all));
  }

  /** A chunk after the first does not begin inside a hole. */
  lemma PassClear(bs0: Blocks, ip0: Inode, n0: nat, bs: Blocks, ip: Inode, n: nat, off: nat, done: nat, o: nat)
    requires FilePass(bs0, ip0, n0, bs, ip, n, off, done) && InFile(off, ip0.size) && o == off + done && done > 0
    ensures Clear(bs, ip, o)
  {
    if o % BSIZE != 0 {
      assert (o - 1) / BSIZE == o / BSIZE;
      assert off / BSIZE <= o / BSIZE;
      assert FilledAt(bs0, ip0, bs, ip, off / BSIZE, EndBlock(off, done), o / BSIZE);
    }
  }

  // ---------------------------------------------------------------- itrunc's loop over the indirect block

  /** The entries of inode i below slot te are freed. Kept folded. */
  ghost predicate EntriesGone(sb: Super, bs: Blocks, ino: seq<Inode>, owner: Owner, bs0: Blocks, owner0: Owner, i: nat, te: nat) {
    forall x {:trigger Unfold(x)} :: Unfold(x) ==>
      && Linked(sb, bs, ino, owner, i, te) && Marked(sb, bs, owner, sb.size)
      && OnlyBitmap(sb, bs0, bs) && Dropped(owner0, owner, i, 0, te)
  }

  lemma GoneAt(sb: Super, bs: Blocks, ino: seq<Inode>, owner: Owner, bs0: Blocks, owner0: Owner, i: nat, te: nat)
    requires EntriesGone(sb, bs, ino, owner, bs0, owner0, i, te) && i < |ino| && NDIRECT < te < NSLOTS && ino[i].addrs[NDIRECT] != 0
    ensures sb.Ok() && |bs| == sb.size && ino[i].addrs[NDIRECT] < |bs|
    ensures Addr(bs, ino[i], te) == Word(bs[ino[i].addrs[NDIRECT]], te - NDIRECT - 1)
  {
    assert Unfold(0);
    IndirectInRange(sb, bs, ino, owner, i, te);
  }

  lemma GoneStep(sb: Super, bs: Blocks, ino: seq<Inode>, owner: Owner, bs0: Blocks, owner0: Owner, i: nat, te: nat, next: nat, b: nat, owner': Owner)
    requires EntriesGone(sb, bs, ino, owner, bs0, owner0, i, te) && i < |ino| && NDIRECT < te < NSLOTS && next == te + 1
    requires b == Addr(bs, ino[i], te) != 0 && owner' == owner - {b}
    ensures b < sb.size && BBlock(sb, b) < |bs| && InUse(sb, bs, b)
    ensures EntriesGone(sb, Freed(sb, bs, b), ino, owner', bs0, owner0, i, next)
  {
    assert Unfold(0);
    DropEntryStep(sb, bs, ino, owner, bs0, owner0, i, te, next, b, owner');
  }

  lemma GoneSkip(sb: Super, bs: Blocks, ino: seq<Inode>, owner: Owner, bs0: Blocks, owner0: Owner, i: nat, te: nat, next: nat)
    requires EntriesGone(sb, bs, ino, owner, bs0, owner0, i, te) && i < |ino| && NDIRECT < te < NSLOTS && next == te + 1
    requires Addr(bs, ino[i], te) == 0
    ensures EntriesGone(sb, bs, ino, owner, bs0, owner0, i, next)
  {
    assert Unfold(0);
    SkipEntryStep(sb, bs, ino, owner, owner0, i, te);
  }

  class FileSystem {
    const sb: Super
    var blocks: Blocks        // the logged block array: what bread returns
    var ino: seq<Inode>       // the in-memory inodes
    ghost var owner: Owner
    ghost var start: Blocks       // the blocks when the current operation began
    ghost var writes: seq<Write>  // its log_writes so far
    ghost var logged: set<nat>    // the blocks they go to
    ghost var maps: set<nat>      // those of them that are bitmap blocks
    ghost var allocs: nat         // calls to balloc in the current operation

    ghost predicate Valid()
      reads this
    {
      sb.Ok() && |blocks| == sb.size && |ino| == sb.ninodes && Sound(sb, blocks, ino, owner) && |maps| <= allocs && Logging()
    }

    /** The current operation has changed the blocks by its log_writes, and by nothing else. */
    ghost predicate Logging()
      reads this
    {
      Tracked(start, blocks, writes, logged)
    }

    constructor (super: Super, image: Blocks, inodes: seq<Inode>, ghost own: Owner)
      requires FsInv(super, image, inodes, own)
      ensures Valid() && sb == super && blocks == image && ino == inodes && owner == own
      ensures logged == {} && maps == {} && allocs == 0
    {
      sb, blocks, ino, owner := super, image, inodes, own;
      start, writes, logged, maps, allocs := image, [], {}, {}, 0;
      TrackedNone(image);
    }

    /** bread, a change to the data, log_write, brelse. */
    method LogBlock(x: nat, blk: Block)
      requires x < |blocks| && Logging()
      modifies this`blocks, this`logged, this`writes
      ensures blocks == old(blocks)[x := blk] && logged == old(logged) + {x} && Logging()
    {
      TrackedMore(start, blocks, writes, logged, x, blk);
      blocks := blocks[x := blk];
      logged, writes := logged + {x}, writes + [Write(x, blk)];
    }

    /** The scan of balloc: the first block whose bit is clear, taken bitmap block by bitmap block. */
    method FindFree() returns (r: Option<uint>)
      requires sb.Ok() && |blocks| == sb.size
      ensures r.None? ==> UsedBelow(sb, blocks, sb.size)
      ensures r.Some? ==> r.value < sb.size && BBlock(sb, r.value) < |blocks| && !InUse(sb, blocks, r.value)
      ensures r.Some? ==> UsedBelow(sb, blocks, r.value)
    {
      var b: nat := 0;
      while b < sb.size
        invariant b % BPB == 0 && UsedBelow(sb, blocks, b)
      {
        r := FindInBlock(b);
        if r.Some? { return; }
        b := b + BPB;
      }
      return None;
    }

    /** The inner loop: the bits of one bitmap block. */
    method FindInBlock(b: nat) returns (r: Option<uint>)
      requires sb.Ok() && |blocks| == sb.size && b % BPB == 0 && b < sb.size && UsedBelow(sb, blocks, b)
      ensures r.None? ==> UsedBelow(sb, blocks, b + BPB)
      ensures r.Some? ==> r.value < sb.size && BBlock(sb, r.value) < |blocks| && !InUse(sb, blocks, r.value)
      ensures r.Some? ==> UsedBelow(sb, blocks, r.value)
    {
      var bi: nat, c: nat := 0, b;
      while bi < BPB && c < sb.size
        invariant bi <= BPB && c == b + bi && UsedBelow(sb, blocks, c)
      {
        BitPlace(sb, blocks, b, bi);
        if !TestBit(blocks[BBlock(sb, b)][bi / 8], bi % 8) {
          return Some(c);
        }
        bi, c := bi + 1, c + 1;
      }
      return None;
    }

    /** balloc: mark the first free block in use and zero it. None is the "out of blocks" panic. */
    method Balloc() returns (r: Option<uint>)
      requires Valid()
      modifies this`blocks, this`logged, this`writes, this`maps, this`allocs
      ensures Logging() && Confined(start, blocks, logged)
      ensures r.None? ==> UsedBelow(sb, old(blocks), sb.size) && blocks == old(blocks) && logged == old(logged) && maps == old(maps) && allocs == old(allocs)
      ensures r.None? <==> Room(sb, owner) == 0
      ensures r.Some? ==>
                && r.value < sb.size && BBlock(sb, r.value) < |old(blocks)|
                && !InUse(sb, old(blocks), r.value) && UsedBelow(sb, old(blocks), r.value)
                && blocks == Allocated(sb, old(blocks), r.value)
                && logged == old(logged) + {BBlock(sb, r.value), r.value as nat}
                && maps == old(maps) + {BBlock(sb, r.value)} && allocs == old(allocs) + 1 && |maps| <= allocs
    {
      r := FindFree();
      if r.None? {
        Exhausted(sb, blocks, ino, owner);
      } else {
        SomeRoom(sb, blocks, ino, owner, r.value);
        Take(r.value);
      }
      TrackedConfined(start, blocks, writes, logged);
    }

    /** balloc's two writes: the bit of block b, and the zeros that bzero stores in it. */
    method Take(b: uint)
      requires sb.Ok() && |blocks| == sb.size && b < sb.size && BBlock(sb, b) < |blocks| && |maps| <= allocs && Logging()
      modifies this`blocks, this`logged, this`writes, this`maps, this`allocs
      ensures blocks == Allocated(sb, old(blocks), b) && logged == old(logged) + {BBlock(sb, b), b as nat} && Logging()
      ensures maps == old(maps) + {BBlock(sb, b)} && allocs == old(allocs) + 1 && |maps| <= allocs
    {
      var x := BBlock(sb, b);
      LogBlock(x, PutInUse(blocks[x], b, true));
      LogBlock(b, ZeroBlock);
      maps := maps + {x};
      allocs := allocs + 1;
    }

    /** bfree. False is the "freeing free block" panic. */
    method Bfree(b: uint) returns (ok: bool)
      requires sb.Ok() && |blocks| == sb.size && b < sb.size && Logging()
      modifies this`blocks, this`logged, this`writes
      ensures Logging() && Confined(start, blocks, logged)
      ensures BBlock(sb, b) < |blocks| && |blocks| == |old(blocks)|
      ensures ok <==> InUse(sb, old(blocks), b)
      ensures !ok ==> blocks == old(blocks) && logged == old(logged)
      ensures ok ==> blocks == Freed(sb, old(blocks), b)
    {
      LayoutFacts(sb, b, 0);
      var x := BBlock(sb, b);
      LowBits(b / BPB, b % BPB);
      ok := TestBit(blocks[x][b % BPB / 8], b % BPB % 8);
      if ok { LogBlock(x, PutInUse(blocks[x], b, false)); }
      TrackedConfined(start, blocks, writes, logged);
    }

    /** iupdate: copy the in-memory inode to its place on disk. */
    method Iupdate(i: nat)
      requires Valid() && i < sb.ninodes
      modifies this`blocks, this`logged, this`writes
      ensures Valid() && |blocks| == |old(blocks)| && logged == old(logged) + {IBlock(sb, i)} && Confined(start, blocks, logged)
      ensures sb.inodestart <= IBlock(sb, i) < sb.bmapstart && blocks == old(blocks)[IBlock(sb, i) := blocks[IBlock(sb, i)]]
      ensures SameData(old(blocks), ino, blocks, ino) && SameAddrs(old(blocks), ino, blocks, ino)
      ensures Synced(sb, blocks, ino[i], i) && forall j: nat :: j < sb.ninodes && j != i ==> SameDinode(sb, old(blocks), blocks, j)
    {
      assert Unfold(0);
      LayoutFacts(sb, 0, i);
      var x := IBlock(sb, i);
      var blk := WriteInode(blocks[x], i % IPB, ino[i]);
      PlainWriteInv(sb, blocks, ino, owner, x, blk);
      AddrsKept(sb, blocks, ino, owner, 0, 0, x, blk);
      DataKept(sb, blocks, blocks[x := blk], ino, owner, x);
      WriteInodeAt(sb, blocks, i, ino[i], i);
      ghost var bs' := blocks[x := blk];
      forall j: nat | j < sb.ninodes && j != i ensures SameDinode(sb, blocks, bs', j) {
        LayoutFacts(sb, 0, j);
        WriteInodeAt(sb, blocks, i, ino[i], j);
      }
      LogBlock(x, blk);
      TrackedConfined(start, blocks, writes, logged);
    }

    /** bmap's step of filling an empty slot of the inode itself. */
    method FillSlot(i: nat, k: nat) returns (r: Option<uint>)
      requires Valid() && i < sb.ninodes && k <= NDIRECT && ino[i].addrs[k] == 0
      modifies this`blocks, this`ino, this`owner, this`logged, this`writes, this`maps, this`allocs
      ensures r.None? <==> old(Room(sb, owner)) == 0
      ensures r.Some? ==>
                && Valid() && Extends(sb, old(blocks), old(ino), old(owner), blocks, ino, owner, i)
                && r.value == ino[i].addrs[k] != 0 && ino[i] == WithAddr(old(ino)[i], k, r.value)
                && logged <= old(logged) + maps + {r.value as nat} && old(maps) <= maps && allocs == old(allocs) + 1
      ensures r.Some? ==> |owner| == old(|owner|) + 1 && SlotsBut(old(blocks), old(ino)[i], blocks, ino[i], k)
    {
      r := Balloc();
      if r.Some? {
        ino := ino[i := WithAddr(ino[i], k, r.value)];
        owner := owner[r.value as nat := Slot(i, k)];
        SlotFilled(sb, old(blocks), old(ino), old(owner), blocks, ino, owner, i, k, r.value);
      }
    }

    /** bmap's step of filling an empty entry of the indirect block. */
    method FillEntry(i: nat, e: nat, a: nat, ghost k: nat) returns (r: Option<uint>)
      requires Valid() && i < sb.ninodes && e < NINDIRECT && k == NDIRECT + 1 + e
      requires a == ino[i].addrs[NDIRECT] != 0 && a < |blocks| && Addr(blocks, ino[i], k) == 0
      modifies this`blocks, this`ino, this`owner, this`logged, this`writes, this`maps, this`allocs
      ensures r.None? <==> old(Room(sb, owner)) == 0
      ensures r.Some? ==>
                && Valid() && Extends(sb, old(blocks), old(ino), old(owner), blocks, ino, owner, i)
                && r.value == Addr(blocks, ino[i], k) != 0 && ino == old(ino)
                && logged <= old(logged) + maps + {r.value as nat} + IndirectOf(ino[i])
                && old(maps) <= maps && allocs == old(allocs) + 1
      ensures r.Some? ==> |owner| == old(|owner|) + 1 && SlotsBut(old(blocks), ino[i], blocks, ino[i], k)
    {
      r := Balloc();
      if r.Some? {
        LogBlock(a, SetWord(blocks[a], e, r.value));
        owner := owner[r.value as nat := Slot(i, k)];
        EntryFilled(sb, old(blocks), ino, old(owner), blocks, owner, i, e, k, a, r.value);
      }
    }

    /** bmap: the address of the bn-th block of inode i, allocating what is missing. None is a panic: bn out
        of range, or fewer free blocks than the block costs. */
    method Bmap(i: nat, bn: nat, ghost next: nat) returns (r: Option<uint>)
      requires Valid() && i < sb.ninodes && next == bn + 1
      modifies this`blocks, this`ino, this`owner, this`logged, this`writes, this`maps, this`allocs
      ensures r.None? <==> bn >= MAXFILE || old(Room(sb, owner) < Cost(blocks, ino[i], bn, bn))
      ensures r.Some? ==>
                && Valid() && MapDone(sb, old(blocks), old(ino), old(owner), blocks, ino, owner, i, bn, next)
                && r.value == Addr(blocks, ino[i], FileSlot(bn)) != 0 && Confined(start, blocks, logged)
      ensures r.Some? ==>
                && logged <= old(logged) + maps + {r.value as nat} + IndirectOf(ino[i]) && old(maps) <= maps
                && (old(Mapped(blocks, ino[i], bn)) ==> unchanged(this))
                && (!old(Mapped(blocks, ino[i], bn)) ==> allocs <= old(allocs) + 1 + NewIndirect(old(ino[i]), ino[i]))
    {
      if bn < NDIRECT {
        r := BmapDirect(i, bn, next);
      } else if bn < MAXFILE {
        r := BmapIndirect(i, bn, next, bn - NDIRECT, FileSlot(bn));
      } else {
        r := None;
      }
      if r.Some? { TrackedConfined(start, blocks, writes, logged); }
    }

    method BmapDirect(i: nat, bn: nat, ghost next: nat) returns (r: Option<uint>)
      requires Valid() && i < sb.ninodes && bn < NDIRECT && next == bn + 1
      modifies this`blocks, this`ino, this`owner, this`logged, this`writes, this`maps, this`allocs
      ensures r.None? <==> old(Room(sb, owner) < Cost(blocks, ino[i], bn, bn))
      ensures r.Some? ==>
                && Valid() && MapDone(sb, old(blocks), old(ino), old(owner), blocks, ino, owner, i, bn, next)
                && r.value == ino[i].addrs[bn] != 0
      ensures r.Some? ==>
                && logged <= old(logged) + maps + {r.value as nat} && old(maps) <= maps
                && (old(ino[i].addrs[bn]) != 0 ==> unchanged(this))
                && (old(ino[i].addrs[bn]) == 0 ==> allocs == old(allocs) + 1)
    {
      if ino[i].addrs[bn] != 0 {
        RoomIsFree(sb, blocks, ino, owner);
        MapThere(sb, blocks, ino, owner, i, bn, next);
        return Some(ino[i].addrs[bn]);
      }
      RoomIsFree(sb, blocks, ino, owner);
      r := FillSlot(i, bn);
      if r.Some? { MapDirect(sb, old(blocks), old(ino), old(owner), blocks, ino, owner, i, bn, next); }
    }

    /** bmap's step of adding the indirect block if the inode has none; false is the panic of balloc. */
    method IndirectBlock(i: nat) returns (ok: bool)
      requires Valid() && i < sb.ninodes
      modifies this`blocks, this`ino, this`owner, this`logged, this`writes, this`maps, this`allocs
      ensures ok <==> old(ino[i].addrs[NDIRECT] != 0 || Room(sb, owner) > 0)
      ensures ok ==> Valid() && Extends(sb, old(blocks), old(ino), old(owner), blocks, ino, owner, i) && ino[i].addrs[NDIRECT] != 0
      ensures ok ==> SlotsBut(old(blocks), old(ino)[i], blocks, ino[i], NDIRECT)
      ensures ok ==>
                && |owner| == old(|owner|) + NewIndirect(old(ino[i]), ino[i]) && allocs == old(allocs) + NewIndirect(old(ino[i]), ino[i])
                && logged <= old(logged) + maps + IndirectOf(ino[i]) && old(maps) <= maps
      ensures old(ino[i].addrs[NDIRECT]) != 0 ==> unchanged(this)
    {
      if ino[i].addrs[NDIRECT] != 0 {
        ExtendsSelf(sb, blocks, ino, owner, i);
        return true;
      }
      RoomIsFree(sb, blocks, ino, owner);
      var q := FillSlot(i, NDIRECT);
      ok := q.Some?;
    }

    method BmapIndirect(i: nat, ghost bn: nat, ghost next: nat, e: nat, ghost k: nat) returns (r: Option<uint>)
      requires Valid() && i < sb.ninodes && e < NINDIRECT && bn == NDIRECT + e && next == bn + 1 && k == FileSlot(bn)
      modifies this`blocks, this`ino, this`owner, this`logged, this`writes, this`maps, this`allocs
      ensures r.None? <==> old(Room(sb, owner) < Cost(blocks, ino[i], bn, bn))
      ensures r.Some? ==>
                && Valid() && MapDone(sb, old(blocks), old(ino), old(owner), blocks, ino, owner, i, bn, next)
                && r.value == Addr(blocks, ino[i], k) != 0
      ensures r.Some? ==>
                && logged <= old(logged) + maps + {r.value as nat} + IndirectOf(ino[i]) && old(maps) <= maps
                && (old(Mapped(blocks, ino[i], bn)) ==> unchanged(this))
                && (!old(Mapped(blocks, ino[i], bn)) ==> allocs <= old(allocs) + 1 + NewIndirect(old(ino[i]), ino[i]))
    {
      IndirectFirst(blocks, ino[i], bn);
      RoomIsFree(sb, blocks, ino, owner);
      var ok := IndirectBlock(i);
      if !ok { return None; }
      ghost var bs1, ino1, owner1 := blocks, ino, owner;
      r := EntryFor(i, e, k);
      if r.Some? {
        if Addr(bs1, ino1[i], k) != 0 {
          MapThere(sb, blocks, ino, owner, i, bn, next);
        } else {
          MapEntry(sb, old(blocks), old(ino), old(owner), bs1, ino1, owner1, blocks, ino, owner, i, bn, next, k);
        }
      }
    }

    /** The entry of the indirect block, which is there. */
    method EntryFor(i: nat, e: nat, ghost k: nat) returns (r: Option<uint>)
      requires Valid() && i < sb.ninodes && e < NINDIRECT && k == NDIRECT + 1 + e && ino[i].addrs[NDIRECT] != 0
      modifies this`blocks, this`ino, this`owner, this`logged, this`writes, this`maps, this`allocs
      ensures r.None? <==> old(Addr(blocks, ino[i], k) == 0 && Room(sb, owner) == 0)
      ensures old(Addr(blocks, ino[i], k)) != 0 ==> unchanged(this) && r == old(Some(Addr(blocks, ino[i], k)))
      ensures r.Some? && old(Addr(blocks, ino[i], k)) == 0 ==>
                && Valid() && Extends(sb, old(blocks), old(ino), old(owner), blocks, ino, owner, i)
                && r.value == Addr(blocks, ino[i], k) != 0 && ino == old(ino)
                && logged <= old(logged) + maps + {r.value as nat} + IndirectOf(ino[i])
                && old(maps) <= maps && allocs == old(allocs) + 1
      ensures r.Some? && old(Addr(blocks, ino[i], k)) == 0 ==>
                |owner| == old(|owner|) + 1 && SlotsBut(old(blocks), ino[i], blocks, ino[i], k)
    {
      var a := ino[i].addrs[NDIRECT];
      IndirectPlace(sb, blocks, ino, owner, i, a);
      var addr := Word(blocks[a], e);
      assert addr == Addr(blocks, ino[i], k);
      if addr != 0 { return Some(addr); }
      r := FillEntry(i, e, a, k);
    }

    ghost function Now(): Snap
      reads this
    {
      Snap(blocks, ino, |owner|, logged, maps, allocs)
    }

    /** One turn of writei's loop: bmap, then the bytes spliced into the block. False is the panic, exactly
        when the block costs more than is free. */
    method WriteChunk(i: nat, off: nat, bn: nat, ghost next: nat, part: seq<byte>) returns (ok: bool, ghost a: nat)
      requires Valid() && i < sb.ninodes && bn == off / BSIZE < MAXFILE && next == bn + 1 && off % BSIZE + |part| <= BSIZE
      modifies this`blocks, this`ino, this`owner, this`logged, this`writes, this`maps, this`allocs
      ensures ok <==> old(Room(sb, owner) >= Cost(blocks, ino[i], bn, bn))
      ensures ok ==> Valid() && ChunkDone(sb, old(Now()), Now(), i, off, bn, next, part, a)
    {
      a := 0;
      var r := Bmap(i, bn, next);
      if r.None? { return false, a; }
      a := r.value;
      BlockPlace(sb, blocks, ino, owner, i, FileSlot(bn));
      ghost var bs1 := blocks;
      LogBlock(r.value, Splice(blocks[r.value], off % BSIZE, part));
      Chunk(sb, old(blocks), old(ino), old(owner), bs1, ino, owner, blocks, i, off, bn, next, a, part);
      return true, a;
    }

    /** The loop of writei. `d` collects the data blocks it writes, `added` counts those bmap had to add. */
    method WriteLoop(i: nat, off: nat, src: seq<byte>) returns (ok: bool, ghost d: set<nat>, ghost added: nat)
      requires Valid() && i < sb.ninodes && off + |src| <= MAXFILE * BSIZE
      modifies this`blocks, this`ino, this`owner, this`logged, this`writes, this`maps, this`allocs
      ensures EndBlock(off, |src|) <= MAXFILE
      ensures ok <==> old(Room(sb, owner) >= Need(blocks, ino[i], off / BSIZE, EndBlock(off, |src|)))
      ensures ok ==> Valid() && LoopDone(sb, old(Now()), Now(), i, off, src, |src|, EndBlock(off, |src|), d, added)
    {
      var tot: nat := 0;
      ghost var s0 := Now();
      ghost var cur: nat, total := off / BSIZE, sb.size - sb.data;
      d, added := {}, 0;
      RoomIsFree(sb, blocks, ino, owner);
      LoopStart(sb, s0, i, off, src);
      while tot < |src|
        invariant 0 <= tot <= |src| && Valid() && LoopDone(sb, s0, Now(), i, off, src, tot, cur, d, added)
      {
        ghost var s := Now();
        var o := off + tot;
        LoopAt(sb, s0, s, i, off, src, tot, cur, d, added, o);
        var next := tot + Piece(o, |src| - tot);
        var part := src[tot..next];
        ghost var step := cur + 1;
        ghost var a;
        ok, a := WriteChunk(i, o, o / BSIZE, step, part);
        if !ok {
          LoopStuck(sb, s0, s, i, off, src, tot, cur, d, added, total);
          return;
        }
        LoopStep(sb, s0, s, Now(), i, off, src, tot, next, o, cur, step, d, added, part, a);
        d, added := d + {a}, added + if Mapped(s.bs, s.ino[i], cur) then 0 else 1;
        tot, cur := next, step;
      }
      RoomIsFree(sb, blocks, ino, owner);
      LoopEnd(sb, s0, Now(), i, off, src, cur, d, added);
      ok := true;
    }

    /** writei. Past the error cases it panics exactly when the missing blocks of the range, and the indirect
        block if it is needed and missing, outnumber the free ones; a write that stays inside a file without
        holes never does. A file that has grown is stored. One that has not is not, so its inode falls behind
        on disk exactly when the range had a slot of the inode itself to fill. */
    method Writei(i: nat, src: seq<byte>, off: uint) returns (r: Outcome)
      requires Valid() && i < sb.ninodes && |src| < 0x1_0000_0000
      modifies this`blocks, this`ino, this`owner, this`logged, this`writes, this`maps, this`allocs
      ensures old(ino[i].Type()) == T_DEV ==> r == Device && unchanged(this)
      ensures old(ino[i].Type()) != T_DEV && !Writable(off, |src|, old(ino[i].size)) ==> r == Ret(-1) && unchanged(this)
      ensures old(ino[i].Type()) != T_DEV && Writable(off, |src|, old(ino[i].size)) ==>
                && EndBlock(off, |src|) <= MAXFILE
                && r == if old(|FreeBlocks(sb, blocks)| < Need(blocks, ino[i], off / BSIZE, EndBlock(off, |src|))) then Panic else Ret(|src|)
      ensures old(ino[i].Type()) != T_DEV && off + |src| <= old(ino[i].size) && old(NoHoles(blocks, ino[i])) ==> r == Ret(|src|)
      ensures r == Ret(|src|) ==> Valid() && WriteDone(sb, old(blocks), old(ino), blocks, ino, i, off, src) && Confined(start, blocks, logged)
      ensures r == Ret(|src|) ==> Pass(old(blocks), old(ino)[i], old(|owner|), blocks, ino[i], |owner|, off / BSIZE, EndBlock(off, |src|))
      ensures r == Ret(|src|) && old(NoHoles(blocks, ino[i])) ==> NoHoles(blocks, ino[i])
      ensures r == Ret(|src|) && off + |src| > old(ino[i].size) ==> Synced(sb, blocks, ino[i], i)
      ensures r == Ret(|src|) && off + |src| <= old(ino[i].size) && old(Synced(sb, blocks, ino[i], i)) ==>
                (Synced(sb, blocks, ino[i], i) <==> !FillsInode(old(ino[i]), off / BSIZE, EndBlock(off, |src|)))
      ensures r == Ret(|src|) && old(logged == {} && maps == {} && allocs == 0) && |src| <= CHUNK ==>
                |logged| <= if old(Clear(blocks, ino[i], off)) then 10 else 11
    {
      if ino[i].Type() == T_DEV { return Device; }
      if off > ino[i].size || off + |src| >= 0x1_0000_0000 { return Ret(-1); }
      if off + |src| > MAXFILE * BSIZE { return Ret(-1); }
      RoomIsFree(sb, blocks, ino, owner);
      if NoHoles(blocks, ino[i]) && off + |src| <= ino[i].size { NeedBelowSize(blocks, ino[i], off, |src|); }
      var ok;
      ghost var d, added;
      ok, d, added := WriteLoop(i, off, src);
      if !ok { return Panic; }
      LoopEnd(sb, old(Now()), Now(), i, off, src, EndBlock(off, |src|), d, added);
      if old(logged == {} && maps == {} && allocs == 0) && |src| <= CHUNK {
        ChunkBudget(off, Starts(old(blocks), old(ino[i]), off), |src|, logged, maps, d, old(ino[i]), ino[i], allocs, added, IBlock(sb, i));
        SubsetSize(logged, logged + {IBlock(sb, i)});
      }
      if |src| > 0 && off + |src| > ino[i].size {
        Grow(i, off, src, old(blocks), old(ino), old(|owner|));
      } else {
        DoneInside(sb, old(blocks), old(ino), blocks, ino, i, off, src);
        if old(Synced(sb, blocks, ino[i], i)) { BehindExactly(sb, old(blocks), old(ino), blocks, ino, i, off / BSIZE, EndBlock(off, |src|)); }
      }
      if old(NoHoles(blocks, ino[i])) { NoHolesKept(old(blocks), old(ino[i]), blocks, ino[i], off, |src|); }
      TrackedConfined(start, blocks, writes, logged);
      return Ret(|src|);
    }

    /** The end of writei when the file has grown: set the size and call iupdate. */
    method Grow(i: nat, off: uint, src: seq<byte>, ghost bs0: Blocks, ghost ino0: seq<Inode>, ghost n0: nat)
      requires Valid() && LoopContent(sb, bs0, ino0, blocks, ino, i, off, src, |src|)
      requires |bs0| == sb.size && off <= ino0[i].size < off + |src| <= MAXFILE * BSIZE
      requires Pass(bs0, ino0[i], n0, blocks, ino[i], |owner|, off / BSIZE, EndBlock(off, |src|))
      modifies this`blocks, this`ino, this`logged, this`writes
      ensures Valid() && WriteDone(sb, bs0, ino0, blocks, ino, i, off, src) && logged == old(logged) + {IBlock(sb, i)}
      ensures Synced(sb, blocks, ino[i], i)
      ensures Pass(bs0, ino0[i], n0, blocks, ino[i], |owner|, off / BSIZE, EndBlock(off, |src|))
    {
      var end := off + |src|;
      SizeSound(sb, blocks, ino, owner, i, end);
      ino := WithSize(ino, i, end);
      Iupdate(i);
      GrowDone(sb, bs0, ino0, n0, old(blocks), old(ino), owner, blocks, ino, i, off, src, end);
    }

    /** readi into a buffer. It returns exactly the bytes of the file that the request covers. A hole in
        the range is allocated on the way, which changes no byte of any file; when the holes outnumber the
        free blocks it panics. The inode is not stored, so it falls behind on disk exactly when a hole was a
        slot of the inode itself. Without holes nothing changes. */
    method Readi(i: nat, off: uint, n: uint) returns (r: Outcome, dst: seq<byte>)
      requires Valid() && i < sb.ninodes && ino[i].size <= MAXFILE * BSIZE
      modifies this`blocks, this`ino, this`owner, this`logged, this`writes, this`maps, this`allocs
      ensures old(ino[i].Type()) == T_DEV ==> r == Device && unchanged(this)
      ensures old(ino[i].Type()) != T_DEV && (off > old(ino[i].size) || off + n >= 0x1_0000_0000) ==> r == Ret(-1) && unchanged(this)
      ensures old(ino[i].Type()) != T_DEV && off <= old(ino[i].size) && off + n < 0x1_0000_0000 ==>
                var len := Available(old(ino[i].size), off, n);
                && EndBlock(off, len) <= MAXFILE
                && r == (if old(|FreeBlocks(sb, blocks)| < Need(blocks, ino[i], off / BSIZE, EndBlock(off, len))) then Panic else Ret(len))
                && (r == Ret(len) ==> ReadDone(sb, old(blocks), old(ino), old(owner), blocks, ino, owner, i, off, len, dst) && Valid())
                && (r == Ret(len) && old(Synced(sb, blocks, ino[i], i)) ==>
                      (Synced(sb, blocks, ino[i], i) <==> !FillsInode(old(ino[i]), off / BSIZE, EndBlock(off, len))))
      ensures r != Panic ==> forall j: nat :: j < sb.ninodes && j != i && old(Synced(sb, blocks, ino[j], j)) ==> Synced(sb, blocks, ino[j], j)
      ensures old(NoHoles(blocks, ino[i])) ==> r != Panic && unchanged(this)
    {
      if ino[i].Type() == T_DEV { return Device, []; }
      if off > ino[i].size || off + n >= 0x1_0000_0000 { return Ret(-1), []; }
      var len: nat := if off + n > ino[i].size then ino[i].size - off else n;
      assert len == Available(ino[i].size, off, n);
      var ok;
      ok, dst := ReadRange(i, off, len);
      if !ok { return Panic, dst; }
      ExtendsDisk(sb, old(blocks), old(ino), old(owner), blocks, ino, owner, i);
      if old(Synced(sb, blocks, ino[i], i)) { BehindExactly(sb, old(blocks), old(ino), blocks, ino, i, off / BSIZE, EndBlock(off, len)); }
      r := Ret(len);
    }

    /** The part of readi that reads: its loop, against the free blocks. */
    method ReadRange(i: nat, off: nat, len: nat) returns (ok: bool, dst: seq<byte>)
      requires Valid() && i < sb.ninodes && off + len <= ino[i].size <= MAXFILE * BSIZE
      modifies this`blocks, this`ino, this`owner, this`logged, this`writes, this`maps, this`allocs
      ensures EndBlock(off, len) <= MAXFILE
      ensures !ok <==> old(|FreeBlocks(sb, blocks)| < Need(blocks, ino[i], off / BSIZE, EndBlock(off, len)))
      ensures ok ==> Valid() && ReadDone(sb, old(blocks), old(ino), old(owner), blocks, ino, owner, i, off, len, dst)
      ensures old(NoHoles(blocks, ino[i])) ==> ok && unchanged(this)
    {
      if NoHoles(blocks, ino[i]) { NeedBelowSize(blocks, ino[i], off, len); }
      RoomIsFree(sb, blocks, ino, owner);
      ok, dst := ReadLoop(i, off, len);
    }

    /** writei and then readi of the same range: what was written is what is read, unless writei panicked. */
    method WriteThenRead(i: nat, src: seq<byte>, off: uint) returns (w: Outcome, r: Outcome, dst: seq<byte>)
      requires Valid() && i < sb.ninodes && |src| < 0x1_0000_0000 && ino[i].size <= MAXFILE * BSIZE
      requires ino[i].Type() != T_DEV && Writable(off, |src|, ino[i].size)
      modifies this`blocks, this`ino, this`owner, this`logged, this`writes, this`maps, this`allocs
      ensures w != Panic ==> w == r == Ret(|src|) && dst == src
    {
      w := Writei(i, src, off);
      if w == Panic { return Panic, Panic, []; }
      ContentAfter(old(blocks), old(ino), blocks, ino, i, off, src);
      ReadBack(Content(old(blocks), old(ino[i])), off, src);
      WrittenThere(old(blocks), old(ino)[i], old(|owner|), blocks, ino[i], |owner|, off / BSIZE, EndBlock(off, |src|));
      r, dst := Readi(i, off, |src|);
    }

    method ReadLoop(i: nat, off: nat, len: nat) returns (ok: bool, dst: seq<byte>)
      requires Valid() && i < sb.ninodes && off + len <= ino[i].size <= MAXFILE * BSIZE
      modifies this`blocks, this`ino, this`owner, this`logged, this`writes, this`maps, this`allocs
      ensures EndBlock(off, len) <= MAXFILE
      ensures ok <==> old(Room(sb, owner) >= Need(blocks, ino[i], off / BSIZE, EndBlock(off, len)))
      ensures ok ==> Valid() && ReadDone(sb, old(blocks), old(ino), old(owner), blocks, ino, owner, i, off, len, dst)
      ensures old(NoHoles(blocks, ino[i])) ==> unchanged(this)
    {
      dst, ok := [], true;
      var tot: nat := 0;
      ghost var cur: nat := off / BSIZE;
      ReadStart(sb, blocks, ino, owner, i, off, len);
      while tot < len
        invariant tot <= len && Valid() && ReadSoFar(sb, old(blocks), old(ino), old(owner), blocks, ino, owner, i, off, len, tot, cur, dst)
        invariant old(NoHoles(blocks, ino[i])) ==> unchanged(this)
      {
        ghost var bs1, ino1, owner1 := blocks, ino, owner;
        var o := off + tot;
        ReadAt(sb, old(blocks), old(ino), old(owner), blocks, ino, owner, i, off, len, tot, cur, dst, o);
        var next := tot + Piece(o, len - tot);
        ghost var step := cur + 1;
        var part;
        ok, part := ReadChunk(i, o, off + next, o / BSIZE, step);
        if !ok {
          ReadStuck(sb, old(blocks), old(ino), old(owner), bs1, ino1, owner1, i, off, len, tot, cur, dst);
          return;
        }
        ReadMore(sb, old(blocks), old(ino), old(owner), bs1, ino1, owner1, blocks, ino, owner, i, off, len, tot, next, o, cur, step, dst, part);
        dst := dst + part;
        tot, cur := next, step;
      }
      RoomIsFree(sb, blocks, ino, owner);
      ReadEnd(sb, old(blocks), old(ino), old(owner), blocks, ino, owner, i, off, len, cur, dst);
    }

    /** One turn of readi's loop: the bytes from o to end, all in file block bn. */
    method ReadChunk(i: nat, o: nat, end: nat, bn: nat, ghost next: nat) returns (ok: bool, part: seq<byte>)
      requires Valid() && i < sb.ninodes && bn == o / BSIZE < MAXFILE && next == bn + 1
      requires o < end <= ino[i].size && o % BSIZE + (end - o) <= BSIZE
      modifies this`blocks, this`ino, this`owner, this`logged, this`writes, this`maps, this`allocs
      ensures ok <==> old(Room(sb, owner) >= Cost(blocks, ino[i], bn, bn))
      ensures ok ==> Valid() && MapDone(sb, old(blocks), old(ino), old(owner), blocks, ino, owner, i, bn, next)
      ensures ok ==> end <= ino[i].size && part == Content(blocks, ino[i])[o..end]
      ensures old(NoHoles(blocks, ino[i])) ==> ok && unchanged(this)
    {
      RoomIsFree(sb, blocks, ino, owner);
      BelowSizeMapped(blocks, ino[i], o, bn);
      var p := Bmap(i, bn, next);
      if p.None? { return false, []; }
      ReadSlice(sb, blocks, ino, owner, i, bn, p.value, o, end);
      return true, blocks[p.value][o % BSIZE..o % BSIZE + (end - o)];
    }

    /** itrunc's loop over the direct addresses. */
    method TruncDirect(i: nat)
      requires Valid() && i < sb.ninodes
      modifies this`blocks, this`ino, this`owner, this`logged, this`writes, this`maps, this`allocs
      ensures Valid() && OnlyBitmap(sb, old(blocks), blocks) && Cleared(old(ino), ino, i, NDIRECT)
      ensures Dropped(old(owner), owner, i, NDIRECT, 0)
    {
      var k := 0;
      while k < NDIRECT
        invariant 0 <= k <= NDIRECT && Valid()
        invariant OnlyBitmap(sb, old(blocks), blocks) && Cleared(old(ino), ino, i, k) && Dropped(old(owner), owner, i, k, 0)
      {
        DropDirect(i, k, old(blocks), old(ino), old(owner));
        k := k + 1;
      }
    }

    method DropDirect(i: nat, k: nat, ghost bs0: Blocks, ghost ino0: seq<Inode>, ghost owner0: Owner)
      requires Valid() && i < sb.ninodes && k < NDIRECT
      requires OnlyBitmap(sb, bs0, blocks) && Cleared(ino0, ino, i, k) && Dropped(owner0, owner, i, k, 0)
      modifies this`blocks, this`ino, this`owner, this`logged, this`writes, this`maps, this`allocs
      ensures Valid() && OnlyBitmap(sb, bs0, blocks) && Cleared(ino0, ino, i, k + 1) && Dropped(owner0, owner, i, k + 1, 0)
    {
      assert Unfold(0);
      if ino[i].addrs[k] != 0 {
        DropDirectStep(sb, blocks, ino, owner, bs0, ino0, owner0, i, k);
        var ok := Bfree(ino[i].addrs[k]);
        owner := owner - {ino[i].addrs[k] as nat};
        ino := ino[i := WithAddr(ino[i], k, 0)];
      } else {
        DroppedSkip(sb, blocks, ino, owner, owner0, i, k);
      }
    }

    /** itrunc's loop over the entries of the indirect block. */
    method TruncEntries(i: nat)
      requires Valid() && i < sb.ninodes && ino[i].addrs[NDIRECT] != 0
      modifies this`blocks, this`owner, this`logged, this`writes
      ensures EntriesGone(sb, blocks, ino, owner, old(blocks), old(owner), i, NSLOTS) && Logging()
    {
      assert Unfold(0);
      var te := NDIRECT + 1;
      while te < NSLOTS
        invariant NDIRECT < te <= NSLOTS && EntriesGone(sb, blocks, ino, owner, old(blocks), old(owner), i, te) && Logging()
      {
        DropEntry(i, te, te + 1, old(blocks), old(owner));
        te := te + 1;
      }
    }

    /** One turn of that loop, for entry te - NDIRECT - 1. */
    method DropEntry(i: nat, te: nat, ghost next: nat, ghost bs0: Blocks, ghost owner0: Owner)
      requires i < |ino| && NDIRECT < te < NSLOTS && next == te + 1 && ino[i].addrs[NDIRECT] != 0
      requires EntriesGone(sb, blocks, ino, owner, bs0, owner0, i, te) && Logging()
      modifies this`blocks, this`owner, this`logged, this`writes
      ensures EntriesGone(sb, blocks, ino, owner, bs0, owner0, i, next) && Logging()
    {
      GoneAt(sb, blocks, ino, owner, bs0, owner0, i, te);
      var a := Word(blocks[ino[i].addrs[NDIRECT]], te - NDIRECT - 1);
      if a != 0 {
        ghost var owner' := owner - {a as nat};
        GoneStep(sb, blocks, ino, owner, bs0, owner0, i, te, next, a, owner');
        var ok := Bfree(a);
        owner := owner';
      } else {
        GoneSkip(sb, blocks, ino, owner, bs0, owner0, i, te, next);
      }
    }

    /** itrunc on the indirect block: its entries, then the block itself. */
    method TruncIndirect(i: nat, ghost ino0: seq<Inode>)
      requires Valid() && i < sb.ninodes && Cleared(ino0, ino, i, NDIRECT)
      modifies this`blocks, this`ino, this`owner, this`logged, this`writes, this`maps, this`allocs
      ensures Valid() && OnlyBitmap(sb, old(blocks), blocks) && Cleared(ino0, ino, i, NDIRECT + 1) && NoneOf(old(owner), owner, i)
    {
      assert Unfold(0);
      if ino[i].addrs[NDIRECT] != 0 {
        DirectGone(sb, blocks, ino, owner, i);
        TruncEntries(i);
        DropIndirect(i, old(blocks), ino0, old(owner));
      } else {
        NoIndirect(sb, blocks, ino, owner, i);
      }
    }

    method DropIndirect(i: nat, ghost bs0: Blocks, ghost ino0: seq<Inode>, ghost owner1: Owner)
      requires Linked(sb, blocks, ino, owner, i, NSLOTS) && Marked(sb, blocks, owner, sb.size) && |maps| <= allocs && Logging()
      requires i < sb.ninodes && ino[i].addrs[NDIRECT] != 0 && Cleared(ino0, ino, i, NDIRECT)
      requires OnlyBitmap(sb, bs0, blocks) && Dropped(owner1, owner, i, 0, NSLOTS)
      requires forall b :: b in owner1 && owner1[b].inum == i ==> NDIRECT <= owner1[b].k < NSLOTS
      modifies this`blocks, this`ino, this`owner, this`logged, this`writes, this`maps, this`allocs
      ensures Valid() && OnlyBitmap(sb, bs0, blocks) && Cleared(ino0, ino, i, NDIRECT + 1) && NoneOf(owner1, owner, i)
    {
      DropIndirectStep(sb, blocks, ino, owner, bs0, owner1, i);
      var ok := Bfree(ino[i].addrs[NDIRECT]);
      owner := owner - {ino[i].addrs[NDIRECT] as nat};
      ino := ino[i := WithAddr(ino[i], NDIRECT, 0)];
    }

    /** itrunc. It never meets the "freeing free block" panic, frees exactly the blocks that inode i
        owns, and touches no other file. */
    method Itrunc(i: nat)
      requires Valid() && i < sb.ninodes
      modifies this`blocks, this`ino, this`owner, this`logged, this`writes, this`maps, this`allocs
      ensures Valid() && TruncDone(sb, old(blocks), old(ino), old(owner), blocks, ino, owner, i)
      ensures Synced(sb, blocks, ino[i], i) && Confined(start, blocks, logged)
    {
      TruncDirect(i);
      ghost var owner1 := owner;
      TruncIndirect(i, old(ino));
      NoneOfTrans(old(owner), owner1, owner, i);
      ghost var bs1, ino1 := blocks, ino;
      SizeSound(sb, blocks, ino, owner, i, 0);
      ino := WithSize(ino, i, 0);
      Iupdate(i);
      TruncFinish(sb, old(blocks), old(ino), old(owner), bs1, ino1, owner, blocks, ino, i);
    }

    /** begin_op: a new operation with nothing logged yet. */
    method BeginOp()
      requires Valid()
      modifies this`start, this`writes, this`logged, this`maps, this`allocs
      ensures Valid() && start == blocks && writes == [] && logged == {} && maps == {} && allocs == 0
    {
      TrackedNone(blocks);
      start, writes, logged, maps, allocs := blocks, [], {}, {}, 0;
    }

    /** The inode branch of filewrite: chunks of at most three blocks, each its own operation. `done` is
        how much was written and `ops` what each operation logged: at most ten blocks, or eleven for the first
        if it begins inside a hole. It panics exactly when the bytes it tries to write need more blocks than
        are free. Otherwise it writes just those: all of src when it starts within the file and ends within
        the largest file, else whole chunks, and -1 is returned. If the file has no holes and the inodes are
        on disk, then after each operation the blocks alone are a sound file system, in which the file is
        written as far as the chunks before. */
    method Filewrite(i: nat, src: seq<byte>, off: uint) returns (r: Outcome, done: nat, ghost ops: seq<seq<Write>>)
      requires Valid() && i < sb.ninodes && ino[i].Type() != T_DEV
      modifies this
      ensures forall k :: 0 <= k < |ops| ==> Fits(sb.size, ops[k]) && |Homes(ops[k])| <= if k > 0 || old(Clear(blocks, ino[i], off)) then 10 else 11
      ensures old(NoHoles(blocks, ino[i])) && off <= old(ino[i].size) ==> forall k :: 0 <= k < |ops| ==> |Homes(ops[k])| <= 10
      ensures var all := Attempted(off, old(ino[i].size), |src|);
              if InFile(off, old(ino[i].size)) then
                EndBlock(off, all) <= MAXFILE
                && (r == Panic <==> old(|FreeBlocks(sb, blocks)|) < Need(old(blocks), old(ino[i]), off / BSIZE, EndBlock(off, all)))
              else r != Panic
      ensures r != Panic ==>
                && Valid() && done == Attempted(off, old(ino[i].size), |src|)
                && r == Ret(if done == |src| then |src| else -1)
                && FilesAfter(old(blocks), old(ino), blocks, ino, i, off, src[..done])
                && blocks == AfterOps(old(blocks), ops, |ops|)
      ensures done <= |src| && (old(NoHoles(blocks, ino[i]) && AllSynced(sb, blocks, ino)) ==>
                forall k: nat :: k <= |ops| ==> OnDisk(sb, old(blocks), AfterOps(old(blocks), ops, k), i, off, src[..Reached(k, done)]))
    {
      done, ops := 0, [];
      var stop := false;
      RoomIsFree(sb, blocks, ino, owner);
      NoHolesClear(blocks, ino[i], off);
      ghost var job := Job(sb, blocks, ino, |owner|, i, off, src);
      FileStart(job, owner);
      while done < |src| && !stop
        invariant Valid() && done <= |src| && FileState(job, blocks, ino, |owner|, done) && OpsState(job, blocks, ops, done)
        invariant stop ==> done == job.Tried()
        invariant !stop && done < |src| ==> done == |ops| * CHUNK
        decreases |src| - done, !stop
      {
        ghost var k, bs1 := |ops|, blocks;
        var ret, next; ghost var ws;
        ret, next, ws := FilewriteTurn(i, src, off, done, job);
        if ret == Panic {
          OpsEnd(job, bs1, ops, done);
          return Panic, done, ops;
        }
        NewPoint(job, blocks, ino, owner, |owner|, next);
        OpsMore(job, bs1, blocks, ops, done, next, ws, k);
        stop := ret == Ret(-1);
        done, ops := next, ops + [ws];
      }
      RoomIsFree(sb, blocks, ino, owner);
      FileEnd(job, blocks, ino, |owner|, done);
      OpsEnd(job, blocks, ops, done);
      r := Ret(if done == |src| then |src| else -1);
    }

    /** One turn of filewrite's loop. */
    method FilewriteTurn(i: nat, src: seq<byte>, off: uint, done: nat, ghost job: Job) returns (ret: Outcome, done': nat, ghost ws: seq<Write>)
      requires Valid() && i < sb.ninodes && done < |src| && job.Of(sb, i, src, off) && FileState(job, blocks, ino, |owner|, done)
      modifies this
      ensures ret == Panic ==> job.Starves()
      ensures ret != Panic ==> Valid() && FileState(job, blocks, ino, |owner|, done') && OpDone(old(blocks), blocks, ws, done > 0 || job.Begins())
      ensures ret != Panic ==> done' == if ret == Ret(-1) then done else done + ChunkLen(|src|, done)
      ensures ret == Ret(-1) ==> done == job.Tried()
    {
      var n1: nat := if |src| - done > CHUNK then CHUNK else |src| - done;
      done' := done + n1;
      var o: nat, part := off + done, src[done..done'];
      assert |part| == n1;
      FileAt(job, blocks, ino, |owner|, done, o, n1, done');
      RoomIsFree(sb, blocks, ino, owner);
      ret, ws := WriteOp(i, part, o);
      if ret == Panic {
        FileStuck(job, old(blocks), old(ino), old(|owner|), done, o, n1, done');
      } else if ret == Ret(-1) {
        done' := done;
      } else {
        FileMore(job, old(blocks), old(ino), old(|owner|), blocks, ino, |owner|, done, done', o, n1, part);
      }
    }

    /** begin_op, ilock, writei, iunlock, end_op for one chunk, which logs `ws`. */
    method WriteOp(i: nat, part: seq<byte>, off: uint) returns (ret: Outcome, ghost ws: seq<Write>)
      requires Valid() && i < sb.ninodes && ino[i].Type() != T_DEV
      requires 0 < |part| <= CHUNK
      modifies this
      ensures ret != Panic ==> OpDone(old(blocks), blocks, ws, old(Clear(blocks, ino[i], off)))
      ensures !Writable(off, |part|, old(ino[i].size)) ==> ret == Ret(-1) && ino == old(ino) && blocks == old(blocks) && owner == old(owner) && Valid()
      ensures Writable(off, |part|, old(ino[i].size)) ==>
                && EndBlock(off, |part|) <= MAXFILE
                && ret == if old(|FreeBlocks(sb, blocks)| < Need(blocks, ino[i], off / BSIZE, EndBlock(off, |part|))) then Panic else Ret(|part|)
      ensures ret == Ret(|part|) ==> Valid() && WriteDone(sb, old(blocks), old(ino), blocks, ino, i, off, part)
      ensures ret == Ret(|part|) ==> Pass(old(blocks), old(ino)[i], old(|owner|), blocks, ino[i], |owner|, off / BSIZE, EndBlock(off, |part|))
      ensures ret == Ret(|part|) && old(NoHoles(blocks, ino[i])) ==>
                NoHoles(blocks, ino[i]) && (old(AllSynced(sb, blocks, ino)) ==> AllSynced(sb, blocks, ino))
    {
      BeginOp();
      ret := Writei(i, part, off);
      ws := writes;
      if ret == Ret(|part|) && old(NoHoles(blocks, ino[i])) && off + |part| <= old(ino[i].size) { NoHolesFillsNone(old(blocks), old(ino[i]), off, |part|); }
      if ret != Panic { OpIs(start, blocks, writes, logged, old(Clear(blocks, ino[i], off))); }
    }
  }

  /** One operation has taken the blocks bs0 to bs by the log_writes ws, ten distinct blocks at most, or eleven
      if it is not `clear`. Kept folded. */
  ghost predicate OpDone(bs0: Blocks, bs: Blocks, ws: seq<Write>, clear: bool) {
    forall x {:trigger Look(x)} :: Look(x) ==> Fits(|bs0|, ws) && bs == Apply(bs0, ws) && |Homes(ws)| <= if clear then 10 else 11
  }

  lemma OpIs(start: Blocks, bs: Blocks, ws: seq<Write>, logged: set<nat>, clear: bool)
    requires Tracked(start, bs, ws, logged) && |logged| <= if clear then 10 else 11
    ensures OpDone(start, bs, ws, clear)
  {
    assert Look(0);
  }

  lemma OpOf(bs0: Blocks, bs: Blocks, ws: seq<Write>, clear: bool)
    requires OpDone(bs0, bs, ws, clear)
    ensures Fits(|bs0|, ws) && bs == Apply(bs0, ws) && |Homes(ws)| <= if clear then 10 else 11
  {
    assert Look(0);
  }

  /** A call of filewrite: the state it starts from, and what it is to write. */
  datatype Job = Job(sb: Super, bs: Blocks, ino: seq<Inode>, owned: nat, i: nat, off: nat, src: seq<byte>) {
    ghost predicate Of(sb: Super, i: nat, src: seq<byte>, off: nat) {
      this.i == i < |ino| == sb.ninodes && this.src == src && this.off == off < 0x1_0000_0000 && ino[i].Type() != T_DEV && this.sb == sb && sb.Ok()
    }

    ghost function Tried(): nat
      requires i < |ino|
    {
      Attempted(off, ino[i].size, |src|)
    }

    /** Fewer blocks are free than it needs. */
    ghost predicate Starves()
      requires i < |ino|
    {
      InFile(off, ino[i].size) && EndBlock(off, Tried()) <= MAXFILE && sb.size - sb.data - owned < Need(bs, ino[i], off / BSIZE, EndBlock(off, Tried()))
    }

    /** It does not begin inside a hole. */
    ghost predicate Begins()
      requires i < |ino|
    {
      Clear(bs, ino[i], off)
    }

    /** The file has no holes and every inode is on disk. */
    ghost predicate Solid()
      requires i < |ino|
    {
      NoHoles(bs, ino[i]) && AllSynced(sb, bs, ino)
    }
  }

  /** filewrite's loop after `done` bytes: the bytes written and the blocks allocated. Kept folded. */
  ghost predicate FileState(job: Job, bs: Blocks, ino: seq<Inode>, n: nat, done: nat) {
    forall x {:trigger Look(x)} :: Look(x) ==>
      && FileLoop(job.bs, job.ino, bs, ino, job.i, job.off, job.src, done)
      && done <= job.Tried()
      && FilePass(job.bs, job.ino[job.i], job.owned, bs, ino[job.i], n, job.off, done)
      && (done == 0 ==> bs == job.bs && ino == job.ino && n == job.owned)
      && (job.Solid() ==> NoHoles(bs, ino[job.i]) && AllSynced(job.sb, bs, ino))
  }

  /** The operations so far, done one after the other, have led from the blocks at the start to bs, and each of
      them to a file system on disk. Kept folded. */
  ghost predicate OpsState(job: Job, bs: Blocks, ops: seq<seq<Write>>, done: nat) {
    forall x {:trigger Look(x)} :: Look(x) ==>
      && job.i < |job.ino| && done <= |job.src|
      && (forall k :: 0 <= k < |ops| ==> Fits(|job.bs|, ops[k]) && |Homes(ops[k])| <= if k > 0 || job.Begins() then 10 else 11)
      && AfterOps(job.bs, ops, |ops|) == bs
      && (job.Solid() ==> forall k: nat :: k <= |ops| ==> PointAt(job, ops, k, Reached(k, done)))
  }

  /** After the first k operations the disk holds the file as far as n bytes. Kept folded. */
  ghost predicate PointAt(job: Job, ops: seq<seq<Write>>, k: nat, n: nat) {
    forall x {:trigger Unfold(x)} :: Unfold(x) ==>
      && k <= |ops| && n <= |job.src| && (forall j :: 0 <= j < |ops| ==> Fits(|job.bs|, ops[j]))
      && OnDisk(job.sb, job.bs, AfterOps(job.bs, ops, k), job.i, job.off, job.src[..n])
  }

  lemma PointIs(job: Job, ops: seq<seq<Write>>, k: nat, n: nat, d: Blocks)
    requires k <= |ops| && n <= |job.src| && forall j :: 0 <= j < |ops| ==> Fits(|job.bs|, ops[j])
    requires d == AfterOps(job.bs, ops, k) && OnDisk(job.sb, job.bs, d, job.i, job.off, job.src[..n])
    ensures PointAt(job, ops, k, n)
  {
  }

  lemma PointOf(job: Job, ops: seq<seq<Write>>, k: nat, n: nat)
    requires PointAt(job, ops, k, n)
    ensures k <= |ops| && n <= |job.src| && forall j :: 0 <= j < |ops| ==> Fits(|job.bs|, ops[j])
    ensures OnDisk(job.sb, job.bs, AfterOps(job.bs, ops, k), job.i, job.off, job.src[..n])
  {
    assert Unfold(0);
  }

  lemma FileStart(job: Job, owner: Owner)
    requires job.i < |job.ino| == job.sb.ninodes && job.sb.Ok() && |job.bs| == job.sb.size
    requires Sound(job.sb, job.bs, job.ino, owner)
    ensures FileState(job, job.bs, job.ino, job.owned, 0) && OpsState(job, job.bs, [], 0)
  {
    LoopStarts(job);
    NewPoint(job, job.bs, job.ino, owner, job.owned, 0);
    OpsNone(job);
  }

  lemma LoopStarts(job: Job)
    requires job.i < |job.ino|
    ensures FileState(job, job.bs, job.ino, job.owned, 0)
  {
    assert job.src[..0] == [];
    if InFile(job.off, job.ino[job.i].size) { PassNone(job.bs, job.ino[job.i], job.owned, job.off / BSIZE); }
  }

  lemma OpsNone(job: Job)
    requires job.i < |job.ino| && (job.Solid() ==> OnDisk(job.sb, job.bs, job.bs, job.i, job.off, job.src[..0]))
    ensures OpsState(job, job.bs, [], 0)
  {
    if job.Solid() {
      PointIs(job, [], 0, 0, job.bs);
    }
  }

  /** The next chunk is written exactly when it is among those tried. */
  lemma FileAt(job: Job, bs: Blocks, ino: seq<Inode>, n: nat, done: nat, o: nat, len: nat, next: nat)
    requires FileState(job, bs, ino, n, done) && job.i < |job.ino| && job.off < 0x1_0000_0000 && job.ino[job.i].Type() != T_DEV
    requires done < |job.src| && o == job.off + done && len == ChunkLen(|job.src|, done) && next == done + len
    ensures |ino| == |job.ino| && ino[job.i].Type() != T_DEV && o < 0x1_0000_0000
    ensures if Writable(o, len, ino[job.i].size) then InFile(job.off, job.ino[job.i].size) && next <= job.Tried() else done == job.Tried()
    ensures Clear(bs, ino[job.i], o) <==> done > 0 || job.Begins()
  {
    assert Look(0);
    ChunkTried(job.off, job.ino[job.i].size, |job.src|, done);
    if done > 0 { PassClear(job.bs, job.ino[job.i], job.owned, bs, ino[job.i], n, job.off, done, o); }
  }

  lemma FileStuck(job: Job, bs: Blocks, ino: seq<Inode>, n: nat, done: nat, o: nat, len: nat, next: nat)
    requires FileState(job, bs, ino, n, done) && job.i < |job.ino| == |ino| && done < |job.src| && o == job.off + done
    requires len == ChunkLen(|job.src|, done) && next == done + len && InFile(job.off, job.ino[job.i].size) && next <= job.Tried()
    requires EndBlock(o, len) <= MAXFILE && job.sb.size - job.sb.data - n < Need(bs, ino[job.i], o / BSIZE, EndBlock(o, len))
    ensures job.Starves()
  {
    assert Look(0);
    FilePassStuck(job.bs, job.ino[job.i], job.owned, bs, ino[job.i], n, job.off, done, o, len, next, job.Tried(), job.sb.size - job.sb.data);
  }

  lemma FileMore(job: Job, bs1: Blocks, ino1: seq<Inode>, n1: nat, bs2: Blocks, ino2: seq<Inode>, n2: nat,
                 done: nat, next: nat, o: nat, len: nat, part: seq<byte>)
    requires FileState(job, bs1, ino1, n1, done) && job.i < |job.ino| == |ino1| == |ino2| && done < |job.src| && o == job.off + done
    requires len == ChunkLen(|job.src|, done) && next == done + len && part == job.src[done..next] && InFile(job.off, job.ino[job.i].size) && next <= job.Tried()
    requires WriteDone(job.sb, bs1, ino1, bs2, ino2, job.i, o, part) && Pass(bs1, ino1[job.i], n1, bs2, ino2[job.i], n2, o / BSIZE, EndBlock(o, len))
    requires NoHoles(bs1, ino1[job.i]) ==> NoHoles(bs2, ino2[job.i]) && (AllSynced(job.sb, bs1, ino1) ==> AllSynced(job.sb, bs2, ino2))
    ensures FileState(job, bs2, ino2, n2, next)
  {
    assert Look(0);
    FileLoopStep(job.sb, job.bs, job.ino, bs1, ino1, bs2, ino2, job.i, job.off, job.src, done, next, o, part);
    FilePassMore(job.bs, job.ino[job.i], job.owned, bs1, ino1[job.i], n1, bs2, ino2[job.i], n2, job.off, done, o, len, next);
  }

  lemma FileEnd(job: Job, bs: Blocks, ino: seq<Inode>, n: nat, done: nat)
    requires FileState(job, bs, ino, n, done) && job.i < |job.ino| && job.sb.size - job.sb.data - n >= 0
    requires done == |job.src| || done == job.Tried()
    ensures done == job.Tried() && job.i < |ino|
    ensures FilesAfter(job.bs, job.ino, bs, ino, job.i, job.off, job.src[..done]) && !job.Starves()
    ensures InFile(job.off, job.ino[job.i].size) ==> EndBlock(job.off, done) <= MAXFILE
  {
    assert Look(0);
  }

  /** Where the loop stands is on disk. */
  lemma NewPoint(job: Job, bs: Blocks, ino: seq<Inode>, owner: Owner, n: nat, done: nat)
    requires FileState(job, bs, ino, n, done) && Sound(job.sb, bs, ino, owner)
    requires job.i < |job.ino| == |ino| == job.sb.ninodes && job.sb.Ok() && |job.bs| == |bs| == job.sb.size
    ensures done <= |job.src| && (job.Solid() ==> OnDisk(job.sb, job.bs, bs, job.i, job.off, job.src[..done]))
  {
    assert Look(0);
    if job.Solid() { IsOnDisk(job.sb, job.bs, job.ino, bs, ino, owner, job.i, job.off, job.src[..done]); }
  }

  /** One more operation. */
  lemma OpsMore(job: Job, bs: Blocks, bs': Blocks, ops: seq<seq<Write>>, done: nat, next: nat, ws: seq<Write>, k: nat)
    requires job.i < |job.ino| && done <= next <= |job.src| && OpsState(job, bs, ops, done) && OpDone(bs, bs', ws, done > 0 || job.Begins())
    requires job.Solid() ==> OnDisk(job.sb, job.bs, bs', job.i, job.off, job.src[..next])
    requires k == |ops| && |bs| == |job.bs| && done == k * CHUNK && next <= done + CHUNK
    ensures OpsState(job, bs', ops + [ws], next)
  {
    var more := ops + [ws];
    OpsFit(job, bs, bs', ops, more, done, ws, k);
    assert more[..k] == ops;
    if job.Solid() {
      forall j: nat | j <= |more| ensures PointAt(job, more, j, Reached(j, next)) {
        NextPoint(job, bs, bs', ops, more, done, next, k, j);
      }
    }
  }

  lemma NextPoint(job: Job, bs: Blocks, bs': Blocks, ops: seq<seq<Write>>, more: seq<seq<Write>>, done: nat, next: nat, k: nat, j: nat)
    requires job.i < |job.ino| && OpsState(job, bs, ops, done) && job.Solid() && k == |ops| && j <= |more| == k + 1 && more[..k] == ops
    requires (forall l :: 0 <= l < |more| ==> Fits(|job.bs|, more[l])) && AfterOps(job.bs, more, |more|) == bs'
    requires done == k * CHUNK && done <= next <= done + CHUNK && next <= |job.src| && OnDisk(job.sb, job.bs, bs', job.i, job.off, job.src[..next])
    ensures PointAt(job, more, j, Reached(j, next))
  {
    if j <= k {
      OpsPoint(job, bs, ops, done, j);
      OldPoint(job, ops, more, k, j, Reached(j, done));
      assert Reached(j, next) == Reached(j, done);
    } else {
      PointIs(job, more, |more|, next, bs');
      assert j == |more| && Reached(j, next) == next;
    }
  }

  lemma OpsFit(job: Job, bs: Blocks, bs': Blocks, ops: seq<seq<Write>>, more: seq<seq<Write>>, done: nat, ws: seq<Write>, k: nat)
    requires job.i < |job.ino| && OpsState(job, bs, ops, done) && OpDone(bs, bs', ws, done > 0 || job.Begins())
    requires k == |ops| && |bs| == |job.bs| && done == k * CHUNK && more == ops + [ws]
    ensures forall j :: 0 <= j < |more| ==> Fits(|job.bs|, more[j]) && |Homes(more[j])| <= if j > 0 || job.Begins() then 10 else 11
    ensures AfterOps(job.bs, more, |more|) == bs'
  {
    OpsAre(job, bs, ops, done);
    OpOf(bs, bs', ws, done > 0 || job.Begins());
    forall j | 0 <= j < |more| ensures Fits(|job.bs|, more[j]) && |Homes(more[j])| <= if j > 0 || job.Begins() then 10 else 11 {
      if j < k { assert more[j] == ops[j]; }
    }
    AfterOpsAgree(job.bs, ops, more, k);
  }

  lemma OpsAre(job: Job, bs: Blocks, ops: seq<seq<Write>>, done: nat)
    requires job.i < |job.ino| && OpsState(job, bs, ops, done)
    ensures forall k :: 0 <= k < |ops| ==> Fits(|job.bs|, ops[k]) && |Homes(ops[k])| <= if k > 0 || job.Begins() then 10 else 11
    ensures AfterOps(job.bs, ops, |ops|) == bs
  {
    assert Look(0);
  }

  lemma OpsPoint(job: Job, bs: Blocks, ops: seq<seq<Write>>, done: nat, j: nat)
    requires job.i < |job.ino| && OpsState(job, bs, ops, done) && job.Solid() && j <= |ops|
    ensures PointAt(job, ops, j, Reached(j, done))
  {
    assert Look(0);
  }

  lemma OldPoint(job: Job, ops: seq<seq<Write>>, more: seq<seq<Write>>, k: nat, j: nat, n: nat)
    requires j <= k == |ops| && PointAt(job, ops, j, n)
    requires |more| == k + 1 && more[..k] == ops && forall l :: 0 <= l < |more| ==> Fits(|job.bs|, more[l])
    ensures PointAt(job, more, j, n)
  {
    PointOf(job, ops, j, n);
    forall l | 0 <= l < j ensures ops[l] == more[l] {
      assert more[..k][l] == more[l];
    }
    AfterOpsAgree(job.bs, ops, more, j);
    PointIs(job, more, j, n, AfterOps(job.bs, ops, j));
  }

  lemma OpsEnd(job: Job, bs: Blocks, ops: seq<seq<Write>>, done: nat)
    requires OpsState(job, bs, ops, done) && job.i < |job.ino|
    ensures done <= |job.src|
    ensures forall k :: 0 <= k < |ops| ==> Fits(|job.bs|, ops[k]) && |Homes(ops[k])| <= if k > 0 || job.Begins() then 10 else 11
    ensures AfterOps(job.bs, ops, |ops|) == bs
    ensures job.Solid() ==> forall k: nat :: k <= |ops| ==> OnDisk(job.sb, job.bs, AfterOps(job.bs, ops, k), job.i, job.off, job.src[..Reached(k, done)])
  {
    assert Look(0);
    if job.Solid() {
      forall k: nat | k <= |ops| ensures OnDisk(job.sb, job.bs, AfterOps(job.bs, ops, k), job.i, job.off, job.src[..Reached(k, done)]) {
        PointOf(job, ops, k, Reached(k, done));
      }
    }
  }

  ghost predicate SameAddrs(bs: Blocks, ino: seq<Inode>, bs': Blocks, ino': seq<Inode>) {
    |ino| == |ino'| && forall j, k :: 0 <= j < |ino| && 0 <= k < NSLOTS ==> Addr(bs', ino'[j], k) == Addr(bs, ino[j], k)
  }
}
