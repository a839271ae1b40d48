/** xv6-l/mkfs.c: the image of a new file system, built block by block, and the invariant it starts with. */
module Mkfs {
  import opened Common
  import opened Bytes
  import opened FsModel
  import opened FsData
  import opened FsRoom
  import opened DirModel
  import opened MkfsModel
  import opened MkfsFiles
  import Fs

  class Image {
    const sb: Super
    var disk: Blocks
    var freeinode: nat
    var freeblock: nat
    ghost var ino: seq<Inode>
    ghost var owner: Owner

    ghost predicate Valid(x: nat)
      reads this
    {
      sb.Ok() && |disk| == sb.size && |ino| == sb.ninodes && sb.data <= freeblock <= sb.size && Built(sb, disk, ino, owner, freeblock, x)
    }

    /** Between two calls: every inode is on the image, and every file has exactly the blocks it takes. */
    ghost predicate Ready()
      reads this
    {
      Valid(|ino|) && Tidy(sb, disk, ino, freeblock)
    }

    /** The image before anything is put on it: zeroes, and the superblock in block 1. */
    constructor (super: Super, superblock: Block)
      requires super.Ok() && super.inodestart >= 2
      ensures Ready() && sb == super && freeinode == 1 && freeblock == sb.data
      ensures forall j :: 0 <= j < |ino| ==> ino[j] == Blank
    {
      sb := super;
      disk := seq(super.size, i => ZeroBlock)[1 := superblock];
      freeinode, freeblock := 1, super.data;
      ino := seq(super.ninodes, i => Blank);
      owner := map[];
      new;
      ZeroImage(sb, disk, ino);
    }

    /** The block in slot k of the inode, the next free one if there is none. */
    method FillSlot(inum: nat, din: Inode, k: nat) returns (ok: bool, r: Inode)
      requires Valid(inum) && inum < |ino| && ino[inum] == din && k <= NDIRECT
      modifies this`freeblock, this`ino, this`owner
      ensures ok <==> din.addrs[k] != 0 || old(freeblock) < sb.size
      ensures din.addrs[k] != 0 ==> r == din && ino == old(ino) && freeblock == old(freeblock)
      ensures ok ==> Valid(inum) && ino == old(ino)[inum := r] && r.addrs[k] != 0 && freeblock == old(freeblock) + (if din.addrs[k] == 0 then 1 else 0)
      ensures ok ==> Filling(disk, old(ino), disk, ino, inum) && SlotsBut(disk, din, disk, r, k)
    {
      if din.addrs[k] != 0 {
        FillingSelf(disk, ino, inum);
        return true, din;
      }
      if freeblock >= sb.size { return false, din; }
      r := WithAddr(din, k, freeblock);
      ghost var ino', owner' := ino[inum := r], owner[freeblock := Slot(inum, k)];
      SlotBuilt(sb, disk, ino, owner, freeblock, inum, k, ino', owner', freeblock + 1);
      ino, owner := ino', owner';
      freeblock := freeblock + 1;
      ok := true;
    }

    /** The indirect block's entry e, made if it is 0. */
    method FillEntry(inum: nat, din: Inode, e: nat, ghost k: nat) returns (ok: bool, x: nat)
      requires Valid(inum) && inum < |ino| && ino[inum] == din && e < NINDIRECT && k == NDIRECT + 1 + e && din.addrs[NDIRECT] != 0
      modifies this`disk, this`freeblock, this`owner
      ensures ok <==> Addr(old(disk), din, k) != 0 || old(freeblock) < sb.size
      ensures ok ==> Valid(inum) && x == Addr(disk, din, k) != 0 && freeblock == old(freeblock) + (if Addr(old(disk), din, k) == 0 then 1 else 0)
      ensures ok ==> Filling(old(disk), ino, disk, ino, inum) && SlotsBut(old(disk), din, disk, din, k)
    {
      assert Addr(disk, ino[inum], NDIRECT) == din.addrs[NDIRECT];
      SlotPlace(sb, disk, ino, owner, freeblock, inum, inum, NDIRECT);
      var a := din.addrs[NDIRECT];
      x := Word(disk[a], e);
      assert x == Addr(disk, din, k);
      if x != 0 {
        FillingSelf(disk, ino, inum);
        return true, x;
      }
      if freeblock >= sb.size { return false, 0; }
      x := NewEntry(inum, din, e, k, a);
      ok := true;
    }

    /** A block for the empty entry e of the indirect block a. */
    method NewEntry(inum: nat, din: Inode, e: nat, ghost k: nat, a: nat) returns (x: nat)
      requires Valid(inum) && inum < |ino| && ino[inum] == din && e < NINDIRECT && k == NDIRECT + 1 + e && freeblock < sb.size
      requires a == din.addrs[NDIRECT] && 0 < a < |disk| && Addr(disk, din, k) == 0
      modifies this`disk, this`freeblock, this`owner
      ensures Valid(inum) && x == Addr(disk, din, k) != 0 && freeblock == old(freeblock) + 1
      ensures Filling(old(disk), ino, disk, ino, inum) && SlotsBut(old(disk), din, disk, din, k)
    {
      var bs := disk[a := SetWord(disk[a], e, freeblock)];
      ghost var owner' := owner[freeblock := Slot(inum, k)];
      EntryBuilt(sb, disk, ino, owner, freeblock, inum, e, k, a, bs, owner', freeblock + 1);
      x := freeblock;
      disk, owner := bs, owner';
      freeblock := freeblock + 1;
    }

    /** The block for block fbn of the file, made if there is none. */
    method BlockFor(inum: nat, din: Inode, fbn: nat, ghost k: nat, ghost next: nat) returns (ok: bool, r: Inode, x: nat)
      requires Valid(inum) && inum < |ino| && ino[inum] == din && fbn < MAXFILE && k == FileSlot(fbn) && next == fbn + 1
      modifies this`disk, this`freeblock, this`ino, this`owner
      ensures ok <==> sb.size - old(freeblock) >= Cost(old(disk), din, fbn, fbn)
      ensures ok ==> Valid(inum) && ino == old(ino)[inum := r] && x == Addr(disk, r, k) != 0
      ensures ok ==> Mapping(old(disk), old(ino), old(freeblock), disk, ino, freeblock, inum, fbn, next)
    {
      if fbn < NDIRECT {
        ok, r := FillSlot(inum, din, fbn);
        x := r.addrs[fbn];
        if din.addrs[fbn] != 0 {
          MappingThere(disk, ino, freeblock, inum, fbn, next);
        } else if ok {
          MappingDirect(disk, old(ino), old(freeblock), ino, freeblock, inum, fbn, next);
        }
      } else {
        ok, r, x := IndirectFor(inum, din, fbn, k, next);
      }
    }

    method IndirectFor(inum: nat, din: Inode, fbn: nat, ghost k: nat, ghost next: nat) returns (ok: bool, r: Inode, x: nat)
      requires Valid(inum) && inum < |ino| && ino[inum] == din && NDIRECT <= fbn < MAXFILE && k == FileSlot(fbn) && next == fbn + 1
      modifies this`disk, this`freeblock, this`ino, this`owner
      ensures ok <==> sb.size - old(freeblock) >= Cost(old(disk), din, fbn, fbn)
      ensures ok ==> Valid(inum) && ino == old(ino)[inum := r] && x == Addr(disk, r, k) != 0
      ensures ok ==> Mapping(old(disk), old(ino), old(freeblock), disk, ino, freeblock, inum, fbn, next)
    {
      x := 0;
      IndirectFirst(disk, din, fbn);
      ok, r := FillSlot(inum, din, NDIRECT);
      if !ok { return; }
      ghost var ino1, n1 := ino, freeblock;
      assert Addr(disk, r, k) == Addr(disk, din, k);
      ok, x := FillEntry(inum, r, fbn - NDIRECT, k);
      if ok { MappingEntry(old(disk), old(ino), old(freeblock), ino1, n1, disk, freeblock, inum, fbn, next, k); }
    }

    /** One turn of iappend's loop: the bytes of one block. */
    method AppendPiece(inum: nat, din: Inode, off: nat, piece: seq<byte>) returns (ok: bool, r: Inode)
      requires Valid(inum) && inum < |ino| && ino[inum] == din && 0 < |piece| && off % BSIZE + |piece| <= BSIZE
      modifies this`disk, this`freeblock, this`ino, this`owner
      ensures ok <==> off / BSIZE < MAXFILE && sb.size - old(freeblock) >= Cost(old(disk), din, off / BSIZE, off / BSIZE)
      ensures ok ==> Valid(inum) && ino == old(ino)[inum := r] && |old(ino)| == |ino|
      ensures ok ==> PieceDone(old(disk), old(ino), old(freeblock), disk, ino, freeblock, inum, off, piece, off / BSIZE, off / BSIZE + 1)
    {
      var fbn := off / BSIZE;
      if fbn >= MAXFILE { return false, din; }
      var x;
      ghost var next := fbn + 1;
      ok, r, x := BlockFor(inum, din, fbn, FileSlot(fbn), next);
      if !ok { return; }
      SlotPlace(sb, disk, ino, owner, freeblock, inum, inum, FileSlot(fbn));
      var bs := disk[x := Splice(disk[x], off % BSIZE, piece)];
      PieceWritten(sb, old(disk), old(ino), old(freeblock), disk, ino, owner, freeblock, bs, inum, off, piece, fbn, next, x);
      disk := bs;
    }

    /** winode */
    method Winode(inum: nat, din: Inode)
      requires Valid(inum) && inum < |ino| && din.addrs == ino[inum].addrs
      modifies this`disk, this`ino
      ensures Valid(|ino|) && ino == old(ino)[inum := din] && Rewritten(old(disk), disk, ino)
    {
      LayoutFacts(sb, 0, inum);
      var x := IBlock(sb, inum);
      var bs := disk[x := WriteInode(disk[x], inum % IPB, din)];
      ghost var ino' := ino[inum := din];
      InodeWritten(sb, disk, ino, owner, freeblock, inum, din, x, bs, ino');
      disk, ino := bs, ino';
    }

    /** rinode */
    method Rinode(inum: nat) returns (din: Inode)
      requires Valid(|ino|) && inum < |ino|
      ensures din == ino[inum] && Valid(inum)
    {
      BuiltBut(sb, disk, ino, owner, freeblock, inum);
      din := Dinode(sb, disk, inum);
    }

    /** The whole turn: n1 bytes of the data, as many as the block at off takes. */
    method AppendTurn(inum: nat, din: Inode, off: nat, data: seq<byte>, p: nat, ghost job: Job, ghost cur: nat, ghost next: nat)
      returns (ok: bool, r: Inode, n1: nat)
      requires Valid(inum) && inum < |ino| && ino[inum] == din && p < |data| && off == job.off + p && next == cur + 1
      requires job.Ok() && job.i == inum && job.data == data && job.total == sb.size && Appended(job, disk, ino, freeblock, p, cur)
      modifies this`disk, this`freeblock, this`ino, this`owner
      ensures !ok ==> !job.Fits()
      ensures ok ==> Valid(inum) && inum < |ino| && ino[inum] == r && 0 < n1 <= |data| - p && off + n1 <= MAXFILE * BSIZE
      ensures ok ==> Appended(job, disk, ino, freeblock, p + n1, next)
    {
      n1 := if |data| - p < BSIZE - off % BSIZE then |data| - p else BSIZE - off % BSIZE;
      var end: nat, part := p + n1, data[p..p + n1];
      AppendAt(job, disk, ino, freeblock, p, cur, off);
      ok, r := AppendPiece(inum, din, off, part);
      if ok {
        AppendMore(job, old(disk), old(ino), old(freeblock), disk, ino, freeblock, p, end, off, cur, next, part);
        PieceEnds(off, |data| - p);
      } else {
        AppendStuck(job, old(disk), old(ino), old(freeblock), p, cur, off);
      }
    }

    /** iappend: data goes to the end of file inum, which then has exactly the blocks it takes; no other file
        changes. It fails exactly where mkfs would give up, at the largest file size, or where it would run
        off the end of the image. */
    method Iappend(inum: nat, data: seq<byte>) returns (ok: bool)
      requires Ready() && inum < |ino|
      modifies this`disk, this`freeblock, this`ino, this`owner
      ensures ok <==> CanAppend(sb, old(freeblock), old(ino[inum].size), |data|)
      ensures ok ==> Ready() && AppendDone(old(disk), old(ino), disk, ino, inum, data)
      ensures ok ==> freeblock + BlocksOf(old(ino[inum].size)) == old(freeblock) + BlocksOf(ino[inum].size)
    {
      TidyAt(sb, disk, ino, freeblock, inum);
      ghost var job := Job(sb.size, disk, ino, freeblock, inum, ino[inum].size, data);
      FitsIsRoom(sb, job);
      var din := Rinode(inum);
      var off: nat, p: nat := din.size, 0;
      ghost var cur: nat := off / BSIZE;
      AppendStart(job, cur);
      while p < |data|
        invariant p <= |data| && Valid(inum) && inum < |ino| && ino[inum] == din && off == job.off + p <= MAXFILE * BSIZE
        invariant Appended(job, disk, ino, freeblock, p, cur)
      {
        var n1;
        ok, din, n1 := AppendTurn(inum, din, off, data, p, job, cur, cur + 1);
        if !ok { return; }
        off, p, cur := off + n1, p + n1, cur + 1;
      }
      AppendLast(inum, din, off, job, cur);
      ok := true;
    }

    /** The end of iappend: the new size goes into the inode, and the inode onto the image. */
    method AppendLast(inum: nat, din: Inode, off: uint, ghost job: Job, ghost cur: nat)
      requires Valid(inum) && inum < |ino| && ino[inum] == din && job.Ok() && job.i == inum && job.total == sb.size && off == job.off + |job.data|
      requires Appended(job, disk, ino, freeblock, |job.data|, cur) && Exact(job.bs, job.ino[inum], job.off) && Tidy(sb, job.bs, job.ino, job.next)
      modifies this`disk, this`ino
      ensures Ready() && job.Fits() && AppendDone(job.bs, job.ino, disk, ino, inum, job.data)
      ensures freeblock + BlocksOf(job.off) == job.next + BlocksOf(ino[inum].size)
    {
      Winode(inum, din.(size := off));
      AppendEnd(job, old(disk), old(ino), freeblock, cur, disk, ino, off);
      AppendMeans(job, disk, ino, off);
      TidyNext(sb, job.bs, job.ino, job.next, disk, ino, freeblock, inum);
    }

    /** ialloc: the next inode, with no blocks. mkfs does not check that there is one; here it fails. */
    method Ialloc(head: uint) returns (r: Option<nat>)
      requires Ready() && (freeinode < |ino| ==> ino[freeinode] == Blank)
      modifies this`disk, this`ino, this`freeinode
      ensures r == if old(freeinode) < |old(ino)| then Some(old(freeinode)) else None
      ensures r.Some? ==> Ready() && freeinode == r.value + 1 && AllocDone(old(disk), old(ino), disk, ino, r.value, head)
    {
      if freeinode >= sb.ninodes { return None; }
      var inum := freeinode;
      freeinode := freeinode + 1;
      BuiltBut(sb, disk, ino, owner, freeblock, inum);
      Winode(inum, Inode(head, 0x1_0000, 0, NoAddrs));
      RewrittenOthers(old(disk), old(ino), disk, ino, inum);
      ExactBlank(disk, ino[inum]);
      TidyNext(sb, old(disk), old(ino), freeblock, disk, ino, freeblock, inum);
      AllocMeans(old(disk), old(ino), disk, ino, inum, head);
      r := Some(inum);
    }

    /** The end of mkfs: the size of the root directory is rounded up to the next block. It has no hole then
        exactly when its size was not a whole number of blocks; no other file has one. */
    method FixRoot(root: nat)
      requires Ready() && root < |ino|
      modifies this`disk, this`ino
      ensures Valid(|ino|) && RootFixed(old(disk), old(ino), disk, ino, root)
    {
      TidyAt(sb, disk, ino, freeblock, root);
      var din := Rinode(root);
      var off: nat := din.size;
      var up := (off / BSIZE + 1) * BSIZE;
      Winode(root, din.(size := up));
      RootFixedIs(sb, old(disk), old(ino), freeblock, disk, ino, root, off, up);
    }

    /** balloc: the bitmap block with the bits of the first `used` blocks set. */
    method Balloc() returns (ok: bool)
      requires Valid(|ino|)
      modifies this`disk
      ensures ok <==> freeblock < BSIZE * 8
      ensures ok ==> FsInv(sb, disk, ino, owner) && SyncedBut(sb, disk, ino, |ino|) && Rewritten(old(disk), disk, ino)
      ensures ok ==> |FreeBlocks(sb, disk)| == sb.size - freeblock
    {
      var used := freeblock;
      if used >= BSIZE * 8 { return false; }
      var buf := Bitmap(used);
      assert Unfold(0);
      ghost var bs := disk[sb.bmapstart := buf];
      AddrsKept(sb, disk, ino, owner, 0, 0, sb.bmapstart, buf);
      DataKept(sb, disk, bs, ino, owner, sb.bmapstart);
      AllMarked(sb, disk, ino, owner, used, buf, bs);
      StillSynced(sb, disk, bs, ino, ino, |ino|);
      UsedAre(sb, disk, ino, owner, used);
      disk := disk[sb.bmapstart := buf];
      FreePlusOwned(sb, disk, ino, owner);
      ok := true;
    }

    /** read and iappend, block by block, until the file ends. */
    method CopyFile(inum: nat, data: seq<byte>) returns (ok: bool)
      requires Ready() && inum < |ino| && ino[inum].size == 0
      modifies this`disk, this`freeblock, this`ino, this`owner
      ensures ok <==> CanAppend(sb, old(freeblock), 0, |data|)
      ensures ok ==> Ready() && AppendDone(old(disk), old(ino), disk, ino, inum, data) && freeblock == old(freeblock) + BlocksOf(|data|)
    {
      var p: nat := 0;
      AppendNone(disk, ino, inum);
      assert BlocksOf(0) == 0;
      while p < |data|
        invariant p <= |data| && Ready() && inum < |ino| && ino[inum].size == p && freeblock == old(freeblock) + BlocksOf(p) && CanAppend(sb, old(freeblock), 0, p)
        invariant AppendDone(old(disk), old(ino), disk, ino, inum, data[..p])
      {
        var end: nat := if |data| - p < BSIZE then |data| else p + BSIZE;
        var buf := data[p..end];
        ghost var bs1, ino1 := disk, ino;
        CopyRoom(sb, old(freeblock), freeblock, p, |buf|, end, |data|);
        ok := Iappend(inum, buf);
        if !ok { return; }
        AppendTwice(old(disk), old(ino), bs1, ino1, disk, ino, inum, data[..p], buf);
        assert data[..p] + buf == data[..end];
        p := end;
      }
      assert data[..p] == data;
      ok := true;
    }

    /** mkfs's work for one file: an inode, an entry in the root directory, and the bytes. */
    method AddFile(f: Source, ghost files: seq<Source>, ghost k: nat, ghost next: nat) returns (ok: bool)
      requires Ready() && k < |files| && next == k + 1 && f == files[k] && freeblock == sb.data + Total(files, k)
      requires freeinode == k + 2 && Stage(files, k, k, disk, ino, freeinode)
      modifies this
      ensures ok <==> FileFits(sb, files, k, next)
      ensures ok ==> Ready() && |ino| == old(|ino|) && freeblock == sb.data + Total(files, next)
      ensures ok ==> freeinode == next + 2 && Stage(files, next, next, disk, ino, freeinode)
    {
      if SLASH in f.name { return false; }
      var name := if f.name != [] && f.name[0] == UNDERSCORE then f.name[1..] else f.name;
      ghost var n' := sb.data + BlocksOf(DESIZE * (next + 2)) + Sum(files, k);
      EntryRoom(sb, files, k, next, freeblock, n', DESIZE * (k + 2));
      var inum;
      ok, inum := AddEntry(name, files, k, next, n');
      if !ok { return; }
      ghost var bs1, ino1 := disk, ino;
      ok := CopyFile(inum, f.data);
      if ok { StageData(files, k, next, freeinode, bs1, ino1, disk, ino); }
    }

    method AddEntry(name: seq<byte>, ghost files: seq<Source>, ghost k: nat, ghost next: nat, ghost n': nat) returns (ok: bool, inum: nat)
      requires Ready() && k < |files| && next == k + 1 && name == Entered(files[k].name)
      requires freeinode == k + 2 && Stage(files, k, k, disk, ino, freeinode) && n' + BlocksOf(DESIZE * (k + 2)) == freeblock + BlocksOf(DESIZE * (k + 2) + DESIZE)
      modifies this
      ensures ok <==> next + 2 <= sb.ninodes && CanAppend(sb, old(freeblock), DESIZE * (k + 2), DESIZE)
      ensures ok ==> Ready() && |ino| == old(|ino|) && freeblock == n' && freeinode == next + 2 && inum == k + 2 < |ino| && ino[inum].size == 0
      ensures ok ==> Stage(files, next, k, disk, ino, freeinode)
    {
      StageAt(files, k, k, disk, ino, freeinode);
      var r := Ialloc(T_FILE);
      if r.None? { return false, 0; }
      inum := r.value;
      StageAlloc(files, k, inum, freeinode, old(disk), old(ino), disk, ino);
      StageAt(files, k, k, disk, ino, freeinode);
      ghost var bs1, ino1 := disk, ino;
      ok := Iappend(ROOTINO, EntryOf(inum, name));
      if !ok { return; }
      StageEntry(files, k, next, freeinode, bs1, ino1, disk, ino);
      StageAt(files, next, k, disk, ino, freeinode);
    }

    /** mkfs's main, after the superblock is written. */
    method Populate(files: seq<Source>) returns (ok: bool)
      requires Ready() && freeinode == 1 && freeblock == sb.data && forall j :: 0 <= j < |ino| ==> ino[j] == Blank
      modifies this
      ensures ok <==> Fits(sb, files)
      ensures ok ==> FsInv(sb, disk, ino, owner) && SyncedBut(sb, disk, ino, |ino|) && Finished(files, disk, ino)
      ensures ok ==> |FreeBlocks(sb, disk)| == sb.size - sb.data - Total(files, |files|)
    {
      ok := MakeRoot(files);
      if !ok {
        if Fits(sb, files) { FitsLess(sb, files, 0, |files|); }
        return;
      }
      ok := AddFiles(files);
      if ok { ok := Finish(files); }
    }

    method AddFiles(files: seq<Source>) returns (ok: bool)
      requires Ready() && freeblock == sb.data + Total(files, 0) && FitsTo(sb, files, 0)
      requires freeinode == 2 && Stage(files, 0, 0, disk, ino, freeinode)
      modifies this
      ensures ok <==> FitsTo(sb, files, |files|)
      ensures ok ==> Ready() && freeblock == sb.data + Total(files, |files|)
      ensures ok ==> freeinode == |files| + 2 && Stage(files, |files|, |files|, disk, ino, freeinode)
    {
      var k: nat := 0;
      while k < |files|
        invariant k <= |files| && Ready() && freeblock == sb.data + Total(files, k) && FitsTo(sb, files, k)
        invariant freeinode == k + 2 && Stage(files, k, k, disk, ino, freeinode)
      {
        ghost var next := k + 1;
        ok := AddFile(files[k], files, k, next);
        FitsNext(sb, files, k, next);
        if !ok {
          if FitsTo(sb, files, |files|) { FitsLess(sb, files, next, |files|); }
          return;
        }
        k := k + 1;
      }
      ok := true;
    }

    /** The root directory's size, and the bitmap. */
    method Finish(ghost files: seq<Source>) returns (ok: bool)
      requires Ready() && freeinode == |files| + 2 && Stage(files, |files|, |files|, disk, ino, freeinode)
      modifies this`disk, this`ino
      ensures ok <==> freeblock < BPB
      ensures ok ==> FsInv(sb, disk, ino, owner) && SyncedBut(sb, disk, ino, |ino|) && Finished(files, disk, ino)
      ensures ok ==> |FreeBlocks(sb, disk)| == sb.size - freeblock
    {
      StageAt(files, |files|, |files|, disk, ino, freeinode);
      FixRoot(ROOTINO);
      ghost var bs2 := disk;
      ok := Balloc();
      if ok { FinishedIs(files, freeinode, old(disk), old(ino), bs2, ino, disk); }
    }

    /** The root directory with its entries . and .. */
    method MakeRoot(ghost files: seq<Source>) returns (ok: bool)
      requires Ready() && freeinode == 1 && freeblock == sb.data && forall j :: 0 <= j < |ino| ==> ino[j] == Blank
      modifies this
      ensures ok <==> FitsTo(sb, files, 0)
      ensures ok ==> Ready() && freeblock == sb.data + Total(files, 0)
      ensures ok ==> freeinode == 2 && Stage(files, 0, 0, disk, ino, freeinode)
    {
      RootRoom(sb, files);
      var r := Ialloc(T_DIR);
      if r.None? { return false; }
      ghost var bs1, ino1 := disk, ino;
      ok := Iappend(ROOTINO, EntryOf(ROOTINO, [DOT]));
      if !ok { return; }
      ghost var bs2, ino2 := disk, ino;
      ok := Iappend(ROOTINO, EntryOf(ROOTINO, [DOT, DOT]));
      if !ok { return; }
      StageRoot(files, old(disk), old(ino), bs1, ino1, bs2, ino2, disk, ino);
    }
  }

  /** mkfs from beginning to end. It succeeds exactly when the files fit. The image then satisfies the
      invariant that Fs starts from, with every inode as it stands on the disk; every file holds its bytes and
      has no hole; the root directory holds its entries, and has a hole exactly when they fill whole blocks; all
      other blocks are free. */
  method Build(super: Super, superblock: Block, files: seq<Source>) returns (ok: bool, img: Image)
    requires super.Ok() && super.inodestart >= 2
    ensures fresh(img) && img.sb == super && (ok <==> Fits(super, files))
    ensures ok ==> FsInv(super, img.disk, img.ino, img.owner) && Finished(files, img.disk, img.ino)
    ensures ok ==> forall j :: 0 <= j < |img.ino| ==> Synced(super, img.disk, img.ino[j], j)
    ensures ok ==> |FreeBlocks(super, img.disk)| == super.size - super.data - Total(files, |files|)
  {
    img := new Image(super, superblock);
    ok := img.Populate(files);
  }

  /** mkfs's own layout: FSSIZE blocks, NINODES inodes, a log of LOGSIZE blocks. */
  const Layout: Super := Super(1000, 200, 32, 58, 59)

  /** Thirty empty files, with . and .. a block of entries. */
  const Thirty: seq<Source> := seq(30, i => Source([97 + i % 26], []))

  lemma {:induction false} EmptyTake(files: seq<Source>, k: nat)
    requires k <= |files| && forall m :: 0 <= m < |files| ==> files[m].data == []
    ensures Sum(files, k) == 0
  {
    if k > 0 { EmptyTake(files, k - 1); }
  }

  lemma ThirtyFit()
    ensures Layout.Ok() && Fits(Layout, Thirty) && (|Thirty| + 2) % 32 == 0 && Total(Thirty, |Thirty|) == 1
  {
    EmptyTake(Thirty, 30);
    assert BlocksOf(DESIZE * 32) == 1;
  }

  /** So mkfs, on its own layout, can make a root directory with a hole. */
  method RootWithHole(superblock: Block) returns (ok: bool, img: Image)
    ensures ok && img.sb == Layout && FsInv(img.sb, img.disk, img.ino, img.owner) && ROOTINO < |img.ino|
    ensures !NoHoles(img.disk, img.ino[ROOTINO]) && img.ino[ROOTINO].size == 2 * BSIZE && img.ino[ROOTINO].Type() == T_DIR
    ensures img.ino == Inodes(img.sb, img.disk) && |FreeBlocks(img.sb, img.disk)| == 940
  {
    var super, files := ThirtyFiles();
    ok, img := Build(super, superblock, files);
    AllOnImage(super, img.disk, img.ino);
    ThirtyMake(|files|, img.disk, img.ino[ROOTINO]);
  }

  lemma AllOnImage(sb: Super, bs: Blocks, ino: seq<Inode>)
    requires sb.Ok() && |bs| == sb.size && |ino| == sb.ninodes && forall j :: 0 <= j < |ino| ==> Synced(sb, bs, ino[j], j)
    ensures ino == Inodes(sb, bs)
  {
  }

  lemma ThirtyMake(n: nat, bs: Blocks, ip: Inode)
    requires ip.head == T_DIR && ip.size == (DESIZE * (n + 2) / BSIZE + 1) * BSIZE && (NoHoles(bs, ip) <==> (n + 2) % 32 != 0) && n == 30
    ensures !NoHoles(bs, ip) && ip.size == 2 * BSIZE && ip.Type() == T_DIR
  {
    assert DESIZE * (n + 2) / BSIZE == 1;
  }

  /** The kernel that boots from that image and reads the root directory, as every search for a name that is
      not there does, gives the hole a block and does not store the inode: what it has in memory is no longer
      what is on disk. */
  method RootFallsBehind(superblock: Block) returns (fs: Fs.FileSystem, entries: seq<byte>)
    ensures fresh(fs) && fs.Valid() && |entries| == 2 * BSIZE
    ensures ROOTINO < |fs.ino| && !Synced(fs.sb, fs.blocks, fs.ino[ROOTINO], ROOTINO)
  {
    var ok, img := RootWithHole(superblock);
    fs := new Fs.FileSystem(img.sb, img.disk, Inodes(img.sb, img.disk), img.owner);
    HoleIsOwn(img.disk, img.ino[ROOTINO]);
    var r;
    r, entries := fs.Readi(ROOTINO, 0, 2 * BSIZE);
  }

  /** A hole in a file of two blocks is a direct slot, and needs two blocks at most. */
  lemma HoleIsOwn(bs: Blocks, ip: Inode)
    requires !NoHoles(bs, ip) && ip.size == 2 * BSIZE
    ensures EndBlock(0, 2 * BSIZE) == 2 && FillsInode(ip, 0, 2) && Need(bs, ip, 0, 2) <= 4
  {
    var bn: nat :| bn < MAXFILE && bn * BSIZE < ip.size && Addr(bs, ip, FileSlot(bn)) == 0;
    assert bn < 2 && ip.addrs[bn] == 0;
    assert Need(bs, ip, 0, 1) == Need(bs, ip, 0, 0) + Cost(bs, ip, 0, 0);
    assert Need(bs, ip, 0, 2) == Need(bs, ip, 0, 1) + Cost(bs, ip, 0, 1);
  }

  method ThirtyFiles() returns (super: Super, files: seq<Source>)
    ensures super == Layout && super.Ok() && super.inodestart >= 2 && Fits(super, files) && |files| == 30 && Total(files, |files|) == 1
  {
    ThirtyFit();
    super, files := Layout, Thirty;
  }

  /** balloc's loop: buf[i/8] |= 1 << (i%8) for every block used. */
  method Bitmap(used: nat) returns (buf: Block)
    requires used < BPB
    ensures Bits(buf, used)
  {
    buf := ZeroBlock;
    NoBits(buf);
    for i := 0 to used
      invariant Bits(buf, i)
    {
      OneMoreBit(buf, i, i + 1);
      buf := PutInUse(buf, i, true);
    }
  }

  lemma ZeroSynced(sb: Super, bs: Blocks, ino: seq<Inode>)
    requires sb.Ok() && sb.inodestart >= 2 && |bs| == sb.size && |ino| == sb.ninodes
    requires forall b :: 0 <= b < |bs| && b != 1 ==> bs[b] == ZeroBlock
    requires forall j :: 0 <= j < |ino| ==> ino[j] == Blank
    ensures SyncedBut(sb, bs, ino, |ino|)
  {
    forall j | 0 <= j < |ino| ensures Synced(sb, bs, ino[j], j) {
      LayoutFacts(sb, 0, j);
      ZeroInode(j % IPB);
    }
  }

  lemma ZeroBuilding(sb: Super, bs: Blocks, ino: seq<Inode>)
    requires sb.Ok() && sb.inodestart >= 2 && |bs| == sb.size && |ino| == sb.ninodes
    requires forall b :: 0 <= b < |bs| && b != 1 ==> bs[b] == ZeroBlock
    requires forall j :: 0 <= j < |ino| ==> ino[j] == Blank
    ensures Building(sb, bs, ino, map[], sb.data)
  {
    forall i, k | 0 <= i < |ino| && 0 <= k < NSLOTS ensures Addr(bs, ino[i], k) == 0 {
    }
  }

  lemma ZeroImage(sb: Super, bs: Blocks, ino: seq<Inode>)
    requires sb.Ok() && sb.inodestart >= 2 && |bs| == sb.size && |ino| == sb.ninodes
    requires forall b :: 0 <= b < |bs| && b != 1 ==> bs[b] == ZeroBlock
    requires forall j :: 0 <= j < |ino| ==> ino[j] == Blank
    ensures Built(sb, bs, ino, map[], sb.data, |ino|) && Tidy(sb, bs, ino, sb.data)
  {
    ZeroBuilding(sb, bs, ino);
    ZeroSynced(sb, bs, ino);
    UsedNone(ino);
    forall j | 0 <= j < |ino| ensures Exact(bs, ino[j], ino[j].size) {
      ExactBlank(bs, ino[j]);
    }
  }

  lemma ZeroInode(s: nat)
    requires s < IPB
    ensures ReadInode(ZeroBlock, s) == Inode(0, 0, 0, NoAddrs)
  {
    var w, w1, w2, w3 := DWORDS * s, DWORDS * s + 1, DWORDS * s + 2, DWORDS * s + 3;
    ZeroWords(w);
    ZeroWords(w1);
    ZeroWords(w2);
    ZeroAddrs(w3);
    InodeWords(ZeroBlock, s, w, w1, w2, w3);
  }

  lemma InodeWords(blk: Block, s: nat, w: nat, w1: nat, w2: nat, w3: nat)
    requires s < IPB && w == DWORDS * s && w1 == w + 1 && w2 == w + 2 && w3 == w + 3
    ensures ReadInode(blk, s) == Inode(Word(blk, w), Word(blk, w1), Word(blk, w2), ReadAddrs(blk, w3))
  {
  }

  lemma ZeroAddrs(w: nat)
    requires w + NDIRECT < NWORDS
    ensures ReadAddrs(ZeroBlock, w) == NoAddrs
  {
    var a := ReadAddrs(ZeroBlock, w);
    forall k | 0 <= k <= NDIRECT ensures a[k] == 0 {
      ZeroWords(w + k);
    }
    assert a == NoAddrs;
  }

  // ---------------------------------------------------------------- the bitmap

  predicate BitOf(buf: Block, c: nat) {
    TestBit(buf[c % BPB / 8], c % 8)
  }

  /** Exactly the first n bits are set. */
  ghost predicate Bits(buf: Block, n: nat) {
    forall c: nat {:trigger BitOf(buf, c)} :: c < BPB ==> (BitOf(buf, c) <==> c < n)
  }

  lemma NoBits(buf: Block)
    requires buf == ZeroBlock
    ensures Bits(buf, 0)
  {
    forall c: nat | c < BPB ensures !BitOf(buf, c) {
      NoBit(c % 8);
    }
  }

  lemma {:induction false} NoBit(k: nat)
    ensures !TestBit(0, k)
  {
    if k > 0 { NoBit(k - 1); }
  }

  lemma OneMoreBit(buf: Block, i: nat, next: nat)
    requires Bits(buf, i) && i < BPB && next == i + 1
    ensures Bits(PutInUse(buf, i, true), next)
  {
    var buf' := PutInUse(buf, i, true);
    PutBitAll(buf[i % BPB / 8], i % 8, true);
    forall c: nat | c < BPB ensures BitOf(buf', c) <==> c < next {
      assert BitOf(buf, c) <==> c < i;
      if c % BPB / 8 == i % BPB / 8 && c % 8 == i % 8 { SameLow(c, i); }
    }
  }

  /** The blocks handed out so far are the owned ones. */
  lemma UsedAre(sb: Super, bs: Blocks, ino: seq<Inode>, owner: Owner, used: nat)
    requires Building(sb, bs, ino, owner, used)
    ensures |owner| == used - sb.data
  {
    assert owner.Keys == Interval(sb.data, used);
    assert |owner| == |owner.Keys|;
  }

  lemma AllMarked(sb: Super, bs: Blocks, ino: seq<Inode>, owner: Owner, used: nat, buf: Block, bs': Blocks)
    requires Building(sb, bs, ino, owner, used) && used < BPB && Bits(buf, used) && bs' == bs[sb.bmapstart := buf]
    ensures Marked(sb, bs', owner, sb.size)
  {
    forall b: nat | b < sb.size ensures BBlock(sb, b) < |bs'| && (InUse(sb, bs', b) <==> b < sb.data || b in owner) {
      LayoutFacts(sb, b, 0);
      if b < BPB {
        assert BBlock(sb, b) == sb.bmapstart && (BitOf(buf, b) <==> b < used);
      } else {
        assert BBlock(sb, b) > sb.bmapstart && bs'[BBlock(sb, b)] == ZeroBlock;
        NoBit(b % 8);
      }
    }
  }
}
