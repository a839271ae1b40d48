/** The files that xv6-l/mkfs.c puts on the image, one after the other, and what the finished image holds. */
module MkfsFiles {
  import opened Common
  import opened Bytes
  import opened FsModel
  import opened FsData
  import opened FsRoom
  import opened DirModel
  import opened MkfsModel

  // ---------------------------------------------------------------- the files on the command line

  const DOT: byte := 46
  const SLASH: byte := 47
  const UNDERSCORE: byte := 95

  datatype Source = Source(name: seq<byte>, data: seq<byte>)

  /** The name in the directory: mkfs skips one leading underscore. */
  function Entered(name: seq<byte>): seq<byte> {
    if name != [] && name[0] == UNDERSCORE then name[1..] else name
  }

  function EntryOf(inum: nat, name: seq<byte>): (r: seq<byte>)
    ensures |r| == DESIZE
  {
    Encode(inum, Padded(name, DIRSIZ))
  }

  /** The root directory with the entries of the first r files. */
  function RootBytes(files: seq<Source>, r: nat): (f: seq<byte>)
    requires r <= |files|
    ensures |f| == DESIZE * (r + 2)
  {
    if r == 0 then EntryOf(ROOTINO, [DOT]) + EntryOf(ROOTINO, [DOT, DOT])
    else RootBytes(files, r - 1) + EntryOf(r + 1, Entered(files[r - 1].name))
  }

  /** The blocks that the first k files take. */
  function Sum(files: seq<Source>, k: nat): nat
    requires k <= |files|
  {
    if k == 0 then 0 else Sum(files, k - 1) + BlocksOf(|files[k - 1].data|)
  }

  /** Those, and the blocks of the root directory with their entries. */
  function Total(files: seq<Source>, k: nat): nat
    requires k <= |files|
  {
    BlocksOf(DESIZE * (k + 2)) + Sum(files, k)
  }

  predicate FileOk(f: Source) {
    SLASH !in f.name && |f.data| <= MAXFILE * BSIZE
  }

  /** The first k files fit: there are inodes for them, their entries fit into the root directory, and their
      blocks onto the image. */
  predicate FitsTo(sb: Super, files: seq<Source>, k: nat)
    requires k <= |files|
  {
    && k + 2 <= sb.ninodes && DESIZE * (k + 2) <= MAXFILE * BSIZE && sb.data + Total(files, k) <= sb.size
    && forall m :: 0 <= m < k ==> FileOk(files[m])
  }

  /** All fit, and the bitmap block that mkfs writes covers all the blocks used. */
  predicate Fits(sb: Super, files: seq<Source>) {
    FitsTo(sb, files, |files|) && sb.data + Total(files, |files|) < BPB
  }

  /** The next file fits, once the first k do. */
  predicate FileFits(sb: Super, files: seq<Source>, k: nat, next: nat)
    requires k < |files| && next == k + 1
  {
    next + 2 <= sb.ninodes && DESIZE * (next + 2) <= MAXFILE * BSIZE && sb.data + Total(files, next) <= sb.size && FileOk(files[k])
  }

  lemma FitsNext(sb: Super, files: seq<Source>, k: nat, next: nat)
    requires k < |files| && next == k + 1
    ensures FitsTo(sb, files, next) <==> FitsTo(sb, files, k) && FileFits(sb, files, k, next)
  {
    BlocksMono(DESIZE * (k + 2), DESIZE * (next + 2));
  }

  lemma {:induction false} FitsLess(sb: Super, files: seq<Source>, k: nat, n: nat)
    requires k <= n <= |files| && FitsTo(sb, files, n)
    ensures FitsTo(sb, files, k)
    decreases n
  {
    if k < n {
      FitsNext(sb, files, n - 1, n);
      FitsLess(sb, files, k, n - 1);
    }
  }

  /** The room for the entry of the next file, and then for its bytes. */
  lemma EntryRoom(sb: Super, files: seq<Source>, k: nat, next: nat, n: nat, n': nat, size: nat)
    requires k < |files| && next == k + 1 && n == sb.data + Total(files, k) && size == DESIZE * (k + 2)
    requires n' == sb.data + BlocksOf(DESIZE * (next + 2)) + Sum(files, k)
    ensures CanAppend(sb, n, size, DESIZE) <==> DESIZE * (next + 2) <= MAXFILE * BSIZE && n' <= sb.size
    ensures n' + BlocksOf(size) == n + BlocksOf(size + DESIZE)
    ensures CanAppend(sb, n', 0, |files[k].data|) <==> |files[k].data| <= MAXFILE * BSIZE && sb.data + Total(files, next) <= sb.size
    ensures n' <= sb.data + Total(files, next) == n' + BlocksOf(|files[k].data|)
  {
    assert size + DESIZE == DESIZE * (next + 2);
    assert BlocksOf(0) == 0;
  }

  lemma RootRoom(sb: Super, files: seq<Source>)
    ensures CanAppend(sb, sb.data, 0, DESIZE) <==> sb.data + Total(files, 0) <= sb.size
    ensures sb.data + Total(files, 0) <= sb.size ==> CanAppend(sb, sb.data + Total(files, 0), DESIZE, DESIZE)
    ensures BlocksOf(0) == 0 && BlocksOf(DESIZE) == BlocksOf(DESIZE + DESIZE) == Total(files, 0)
  {
  }

  // ---------------------------------------------------------------- the image, file by file

  /** The root directory has the entries of the first r files, the first k files are there, inode numbers
      below fi are taken, and the inode of a file whose bytes are still to come is empty. Kept folded. */
  ghost predicate Stage(files: seq<Source>, r: nat, k: nat, bs: Blocks, ino: seq<Inode>, fi: nat) {
    forall u {:trigger Look(u)} :: Look(u) ==>
      && r <= |files| && k <= |files| && ROOTINO < k + 2 <= fi <= |ino| && fi <= k + 3
      && RootHolds(bs, ino[ROOTINO], files, r)
      && (forall m :: 0 <= m < k ==> FileHolds(bs, ino[m + 2], files[m].data))
      && (fi == k + 3 ==> FileHolds(bs, ino[k + 2], []))
      && (forall j :: fi <= j < |ino| ==> ino[j] == Blank)
  }

  ghost predicate RootHolds(bs: Blocks, ip: Inode, files: seq<Source>, r: nat)
    requires r <= |files|
  {
    ip.head == T_DIR && Content(bs, ip) == RootBytes(files, r) && forall o: nat :: o >= ip.size ==> ByteAt(bs, ip, o) == 0
  }

  ghost predicate FileHolds(bs: Blocks, ip: Inode, data: seq<byte>) {
    ip.head == T_FILE && Content(bs, ip) == data
  }

  lemma StageAt(files: seq<Source>, r: nat, k: nat, bs: Blocks, ino: seq<Inode>, fi: nat)
    requires Stage(files, r, k, bs, ino, fi)
    ensures ROOTINO < k + 2 <= fi <= |ino| && r <= |files| && ino[ROOTINO].size == DESIZE * (r + 2)
    ensures (fi < |ino| ==> ino[fi] == Blank) && (fi == k + 3 ==> ino[k + 2].size == 0)
  {
    assert Look(0);
    if fi == k + 3 { assert Content(bs, ino[k + 2]) == []; }
  }

  lemma BlankBytes(bs: Blocks, ip: Inode, o: nat)
    requires ip.addrs == NoAddrs
    ensures ByteAt(bs, ip, o) == 0
  {
    if o / BSIZE < MAXFILE { SlotFacts(o / BSIZE); }
  }

  lemma SameDataContent(bs: Blocks, ino: seq<Inode>, bs': Blocks, ino': seq<Inode>, j: nat)
    requires SameData(bs, ino, bs', ino') && j < |ino|
    ensures forall o: nat :: ByteAt(bs', ino'[j], o) == ByteAt(bs, ino[j], o)
    ensures ino'[j].size == ino[j].size ==> Content(bs', ino'[j]) == Content(bs, ino[j])
  {
    SameDataBytes(bs, ino, bs', ino', j, 0);
    if ino'[j].size == ino[j].size { SameContent(bs, ino[j], bs', ino'[j]); }
  }

  lemma StageRoot(files: seq<Source>, bs0: Blocks, ino0: seq<Inode>, bs1: Blocks, ino1: seq<Inode>, bs2: Blocks, ino2: seq<Inode>, bs3: Blocks, ino3: seq<Inode>)
    requires (forall j :: 0 <= j < |ino0| ==> ino0[j] == Blank) && AllocDone(bs0, ino0, bs1, ino1, ROOTINO, T_DIR)
    requires AppendDone(bs1, ino1, bs2, ino2, ROOTINO, EntryOf(ROOTINO, [DOT])) && AppendDone(bs2, ino2, bs3, ino3, ROOTINO, EntryOf(ROOTINO, [DOT, DOT]))
    ensures Stage(files, 0, 0, bs3, ino3, 2)
  {
    AppendTwice(bs1, ino1, bs2, ino2, bs3, ino3, ROOTINO, EntryOf(ROOTINO, [DOT]), EntryOf(ROOTINO, [DOT, DOT]));
    RootStarts(files, bs1, ino1, bs3, ino3, EntryOf(ROOTINO, [DOT]) + EntryOf(ROOTINO, [DOT, DOT]));
    assert Look(0);
  }

  lemma RootStarts(files: seq<Source>, bs: Blocks, ino: seq<Inode>, bs': Blocks, ino': seq<Inode>, data: seq<byte>)
    requires AppendDone(bs, ino, bs', ino', ROOTINO, data) && ino[ROOTINO] == Inode(T_DIR, 0x1_0000, 0, NoAddrs) && data == RootBytes(files, 0)
    ensures RootHolds(bs', ino'[ROOTINO], files, 0)
  {
    assert Look(0);
    var ip := ino'[ROOTINO];
    assert Content(bs, ino[ROOTINO]) == [];
    forall o: nat | o >= ip.size ensures ByteAt(bs', ip, o) == 0 {
      BlankBytes(bs, ino[ROOTINO], o);
    }
  }

  lemma StageAlloc(files: seq<Source>, k: nat, fi: nat, next: nat, bs: Blocks, ino: seq<Inode>, bs': Blocks, ino': seq<Inode>)
    requires Stage(files, k, k, bs, ino, fi) && fi == k + 2 && next == fi + 1 && AllocDone(bs, ino, bs', ino', fi, T_FILE)
    ensures Stage(files, k, k, bs', ino', next)
  {
    assert Look(0);
    SameDataContent(bs, ino, bs', ino', ROOTINO);
    forall m | 0 <= m < k ensures FileHolds(bs', ino'[m + 2], files[m].data) {
      assert FileHolds(bs, ino[m + 2], files[m].data);
      SameDataContent(bs, ino, bs', ino', m + 2);
    }
    assert Content(bs', ino'[fi]) == [];
  }

  lemma StageEntry(files: seq<Source>, k: nat, r: nat, fi: nat, bs: Blocks, ino: seq<Inode>, bs': Blocks, ino': seq<Inode>)
    requires Stage(files, k, k, bs, ino, fi) && fi == k + 3 && r == k + 1 && k < |files|
    requires AppendDone(bs, ino, bs', ino', ROOTINO, EntryOf(k + 2, Entered(files[k].name)))
    ensures Stage(files, r, k, bs', ino', fi)
  {
    assert Look(0);
    var ip := ino'[ROOTINO];
    assert Content(bs', ip) == RootBytes(files, r);
    forall o: nat | o >= ip.size ensures ByteAt(bs', ip, o) == 0 {
      assert ByteAt(bs, ino[ROOTINO], o) == 0;
    }
    forall m | 0 <= m < k ensures FileHolds(bs', ino'[m + 2], files[m].data) {
      assert FileHolds(bs, ino[m + 2], files[m].data);
    }
    assert FileHolds(bs, ino[k + 2], []);
  }

  lemma StageData(files: seq<Source>, k: nat, next: nat, fi: nat, bs: Blocks, ino: seq<Inode>, bs': Blocks, ino': seq<Inode>)
    requires Stage(files, next, k, bs, ino, fi) && fi == k + 3 && next == k + 1 && k < |files|
    requires k + 2 < |ino| && AppendDone(bs, ino, bs', ino', k + 2, files[k].data)
    ensures Stage(files, next, next, bs', ino', fi)
  {
    assert Look(0);
    var ip := ino'[ROOTINO];
    assert ip == ino[ROOTINO];
    forall o: nat | o >= ip.size ensures ByteAt(bs', ip, o) == 0 {
      assert ByteAt(bs, ino[ROOTINO], o) == 0;
    }
    forall m | 0 <= m < next ensures FileHolds(bs', ino'[m + 2], files[m].data) {
      if m < k {
        assert FileHolds(bs, ino[m + 2], files[m].data);
      } else {
        assert FileHolds(bs, ino[k + 2], []);
        assert [] + files[k].data == files[k].data;
      }
    }
  }

  /** The finished image: each file holds its bytes, the root directory its entries and then free ones, and
      there is no hole, but for one in the root directory when its entries fill whole blocks. */
  ghost predicate Finished(files: seq<Source>, bs: Blocks, ino: seq<Inode>) {
    && |files| + 2 <= |ino| && FinalRoot(files, bs, ino[ROOTINO])
    && (forall m :: 0 <= m < |files| ==> FileHolds(bs, ino[m + 2], files[m].data))
    && (forall j :: 0 <= j < |ino| && j != ROOTINO ==> NoHoles(bs, ino[j]))
  }

  ghost predicate FinalRoot(files: seq<Source>, bs: Blocks, ip: Inode) {
    && ip.head == T_DIR && ip.size == (DESIZE * (|files| + 2) / BSIZE + 1) * BSIZE
    && Content(bs, ip) == RootBytes(files, |files|) + Zeros(BSIZE - DESIZE * (|files| + 2) % BSIZE)
    && (NoHoles(bs, ip) <==> (|files| + 2) % 32 != 0)
  }

  lemma NoHolesSame(bs: Blocks, bs': Blocks, ino: seq<Inode>, j: nat)
    requires Rewritten(bs, bs', ino) && j < |ino|
    ensures NoHoles(bs', ino[j]) <==> NoHoles(bs, ino[j])
  {
    forall bn: nat | bn < MAXFILE ensures Addr(bs', ino[j], FileSlot(bn)) == Addr(bs, ino[j], FileSlot(bn)) {
      SlotFacts(bn);
    }
  }

  /** A file that has been lengthened over zeros. */
  lemma Lengthened(bs: Blocks, ip: Inode, bs': Blocks, ip': Inode, pad: nat)
    requires ip'.size == ip.size + pad && (forall o: nat :: ByteAt(bs', ip', o) == ByteAt(bs, ip, o))
    requires forall o: nat :: o >= ip.size ==> ByteAt(bs, ip, o) == 0
    ensures Content(bs', ip') == Content(bs, ip) + Zeros(pad)
  {
    var f, f' := Content(bs, ip), Content(bs', ip');
    forall o | 0 <= o < |f'| ensures f'[o] == (f + Zeros(pad))[o] {
      FirstBytesAt(bs', ip', |f'|, o);
      if o < |f| { FirstBytesAt(bs, ip, |f|, o); } else { assert ByteAt(bs, ip, o) == 0; }
    }
  }

  lemma RootPadding(k: nat, n: nat)
    requires n == DESIZE * k
    ensures n % BSIZE != 0 <==> k % 32 != 0
    ensures (n / BSIZE + 1) * BSIZE == n + (BSIZE - n % BSIZE)
  {
  }

  lemma FinishedRoot(files: seq<Source>, n: nat, bs1: Blocks, ino1: seq<Inode>, bs3: Blocks, ino: seq<Inode>)
    requires n == DESIZE * (|files| + 2) && ROOTINO < |ino1| && ino1[ROOTINO].size == n && RootHolds(bs1, ino1[ROOTINO], files, |files|) && SameData(bs1, ino1, bs3, ino)
    requires ino[ROOTINO] == ino1[ROOTINO].(size := ino[ROOTINO].size) && ino[ROOTINO].size == (n / BSIZE + 1) * BSIZE
    requires NoHoles(bs3, ino[ROOTINO]) <==> n % BSIZE != 0
    ensures FinalRoot(files, bs3, ino[ROOTINO])
  {
    RootPadding(|files| + 2, n);
    RootLonger(files, n, BSIZE - n % BSIZE, bs1, ino1, bs3, ino);
  }

  lemma RootLonger(files: seq<Source>, n: nat, pad: nat, bs1: Blocks, ino1: seq<Inode>, bs3: Blocks, ino: seq<Inode>)
    requires ROOTINO < |ino1| && RootHolds(bs1, ino1[ROOTINO], files, |files|) && ino1[ROOTINO].size == n && SameData(bs1, ino1, bs3, ino)
    requires ino[ROOTINO] == ino1[ROOTINO].(size := ino[ROOTINO].size) && ino[ROOTINO].size == n + pad
    ensures ino[ROOTINO].head == T_DIR && Content(bs3, ino[ROOTINO]) == RootBytes(files, |files|) + Zeros(pad)
  {
    SameDataContent(bs1, ino1, bs3, ino, ROOTINO);
    Lengthened(bs1, ino1[ROOTINO], bs3, ino[ROOTINO], pad);
  }

  lemma StageParts(files: seq<Source>, r: nat, k: nat, bs: Blocks, ino: seq<Inode>, fi: nat)
    requires Stage(files, r, k, bs, ino, fi)
    ensures ROOTINO < k + 2 <= |ino| && r <= |files| && k <= |files| && RootHolds(bs, ino[ROOTINO], files, r)
    ensures forall m :: 0 <= m < k ==> FileHolds(bs, ino[m + 2], files[m].data)
  {
    assert Look(0);
  }

  lemma RootGrown(bs1: Blocks, ino1: seq<Inode>, bs2: Blocks, ino: seq<Inode>, bs3: Blocks, n: nat)
    requires RootFixed(bs1, ino1, bs2, ino, ROOTINO) && Rewritten(bs2, bs3, ino) && ino1[ROOTINO].size == n
    ensures SameData(bs1, ino1, bs3, ino) && |ino| == |ino1| && ino[ROOTINO] == ino1[ROOTINO].(size := ino[ROOTINO].size)
    ensures ino[ROOTINO].size == (n / BSIZE + 1) * BSIZE && forall j :: 0 <= j < |ino| && j != ROOTINO ==> ino[j] == ino1[j]
  {
    SameDataTrans(bs1, ino1, bs2, ino, bs3, ino);
  }

  lemma FinishedFile(bs1: Blocks, ino1: seq<Inode>, bs3: Blocks, ino: seq<Inode>, j: nat, data: seq<byte>)
    requires SameData(bs1, ino1, bs3, ino) && j < |ino1| && ino[j] == ino1[j] && FileHolds(bs1, ino1[j], data)
    ensures FileHolds(bs3, ino[j], data)
  {
    SameDataContent(bs1, ino1, bs3, ino, j);
  }

  lemma FinishedHoles(bs1: Blocks, ino1: seq<Inode>, bs2: Blocks, ino: seq<Inode>, bs3: Blocks)
    requires RootFixed(bs1, ino1, bs2, ino, ROOTINO) && Rewritten(bs2, bs3, ino)
    ensures NoHoles(bs3, ino[ROOTINO]) <==> ino1[ROOTINO].size % BSIZE != 0
    ensures forall j :: 0 <= j < |ino| && j != ROOTINO ==> NoHoles(bs3, ino[j])
  {
    forall j | 0 <= j < |ino| ensures NoHoles(bs3, ino[j]) <==> NoHoles(bs2, ino[j]) {
      NoHolesSame(bs2, bs3, ino, j);
    }
  }

  lemma FinishedIs(files: seq<Source>, fi: nat, bs1: Blocks, ino1: seq<Inode>, bs2: Blocks, ino: seq<Inode>, bs3: Blocks)
    requires Stage(files, |files|, |files|, bs1, ino1, fi) && fi == |files| + 2
    requires RootFixed(bs1, ino1, bs2, ino, ROOTINO) && Rewritten(bs2, bs3, ino)
    ensures Finished(files, bs3, ino)
  {
    var n := DESIZE * (|files| + 2);
    StageParts(files, |files|, |files|, bs1, ino1, fi);
    assert |Content(bs1, ino1[ROOTINO])| == n;
    FinishedHoles(bs1, ino1, bs2, ino, bs3);
    RootGrown(bs1, ino1, bs2, ino, bs3, n);
    FinishedRoot(files, n, bs1, ino1, bs3, ino);
    forall m | 0 <= m < |files| ensures FileHolds(bs3, ino[m + 2], files[m].data) {
      FinishedFile(bs1, ino1, bs3, ino, m + 2, files[m].data);
    }
  }

  // ---------------------------------------------------------------- the root directory as a map

  /** The names that the first r files and the two dots are entered under, and their inodes. */
  function RootMap(files: seq<Source>, r: nat): map<seq<byte>, nat>
    requires r <= |files|
  {
    if r == 0 then map[Key([DOT]) := ROOTINO, Key([DOT, DOT]) := ROOTINO]
    else RootMap(files, r - 1)[Key(Entered(files[r - 1].name)) := r + 1]
  }

  /** None of the first n files is entered under a name that is there already. */
  predicate NamesDiffer(files: seq<Source>, n: nat)
    requires n <= |files|
  {
    forall r {:trigger NewName(files, r)} :: 0 <= r < n ==> NewName(files, r)
  }

  predicate NewName(files: seq<Source>, r: nat) {
    r < |files| && Key(Entered(files[r].name)) !in RootMap(files, r)
  }

  lemma EntryAdded(f: seq<byte>, inum: nat, name: seq<byte>)
    requires DirOk(f) && Key(name) !in Dir(f) && 0 < inum < 0x1_0000
    ensures DirOk(f + EntryOf(inum, name)) && Dir(f + EntryOf(inum, name)) == Dir(f)[Key(name) := inum]
  {
    var k, f' := Slots(f), f + EntryOf(inum, name);
    NewEntry(f, f', inum, name, k);
    LinkAdds(f, f', k, inum, Key(name));
  }

  lemma TwoEntries(i: nat, a: seq<byte>, b: seq<byte>)
    requires Key(a) != Key(b) && 0 < i < 0x1_0000
    ensures DirOk(EntryOf(i, a) + EntryOf(i, b)) && Dir(EntryOf(i, a) + EntryOf(i, b)) == map[Key(a) := i, Key(b) := i]
  {
    assert Entries([]) == [];
    assert DirOk([]) && Dir([]) == map[];
    EntryAdded([], i, a);
    assert [] + EntryOf(i, a) == EntryOf(i, a);
    EntryAdded(EntryOf(i, a), i, b);
  }

  lemma DotsDiffer()
    ensures Key([DOT]) != Key([DOT, DOT])
  {
    assert |Key([DOT])| <= 1;
    assert CutLen([DOT, DOT], DIRSIZ, 0) == 2;
  }

  lemma {:induction false} RootDir(files: seq<Source>, r: nat)
    requires r <= |files| && NamesDiffer(files, r) && r + 1 < 0x1_0000
    ensures DirOk(RootBytes(files, r)) && Dir(RootBytes(files, r)) == RootMap(files, r)
  {
    if r == 0 {
      DotsDiffer();
      TwoEntries(ROOTINO, [DOT], [DOT, DOT]);
    } else {
      RootDir(files, r - 1);
      assert NewName(files, r - 1);
      EntryAdded(RootBytes(files, r - 1), r + 1, Entered(files[r - 1].name));
    }
  }

  lemma FreeEntry(g: seq<byte>, blank: seq<byte>)
    requires DirOk(g) && |blank| == DIRSIZ
    ensures DirOk(g + Encode(0, blank)) && Dir(g + Encode(0, blank)) == Dir(g)
  {
    var k, g' := Slots(g), g + Encode(0, blank);
    assert g'[DESIZE * k..DESIZE * k + DESIZE] == Encode(0, blank);
    EntriesAfter(g, g', k, 0, blank);
    SetBindings(Entries(g), k, Entry(0, Key(blank)));
  }

  /** Free entries at the end bind nothing. */
  lemma {:induction false} FreeEntries(f: seq<byte>, c: nat, n: nat)
    requires DirOk(f) && n == DESIZE * c
    ensures DirOk(f + Zeros(n)) && Dir(f + Zeros(n)) == Dir(f)
  {
    if c == 0 {
      assert f + Zeros(n) == f;
    } else {
      var m, blank := n - DESIZE, Zeros(DIRSIZ);
      FreeEntries(f, c - 1, m);
      FreeEntry(f + Zeros(m), blank);
      assert Encode(0, blank) == Zeros(DESIZE);
      assert Zeros(n) == Zeros(m) + Zeros(DESIZE);
      assert f + Zeros(n) == f + Zeros(m) + Encode(0, blank);
    }
  }

  lemma PadWhole(k: nat, n: nat) returns (c: nat)
    requires n == DESIZE * k
    ensures BSIZE - n % BSIZE == DESIZE * c
  {
    c := 32 - k % 32;
  }

  ghost predicate Prefix(f: seq<byte>, g: seq<byte>) {
    |f| <= |g| && f == g[..|f|]
  }

  lemma PrefixTrans(f: seq<byte>, g: seq<byte>, h: seq<byte>)
    requires Prefix(f, g) && Prefix(g, h)
    ensures Prefix(f, h)
  {
  }

  lemma EntriesPrefix(f: seq<byte>, g: seq<byte>, j: nat)
    requires Prefix(f, g) && j < Slots(f)
    ensures j < Slots(g) && Entries(g)[j] == Entries(f)[j]
  {
    EntryAt(f, Slots(f), j);
    EntryAt(g, Slots(g), j);
    assert NameAt(g, j) == NameAt(f, j);
  }

  lemma NewEntry(f: seq<byte>, f': seq<byte>, inum: nat, name: seq<byte>, k: nat)
    requires |f| % DESIZE == 0 && 0 < inum < 0x1_0000 && f' == f + EntryOf(inum, name) && k == Slots(f)
    ensures k < Slots(f') && Entries(f') == Entries(f) + [Entry(inum, Key(name))]
  {
    assert f'[DESIZE * k..DESIZE * k + DESIZE] == EntryOf(inum, name);
    EntriesAfter(f, f', k, inum, Padded(name, DIRSIZ));
    PaddedCut(name, DIRSIZ);
  }

  /** A name that is there already and is entered again is bound twice. */
  lemma TakenTwice(f: seq<byte>, f': seq<byte>, g: seq<byte>, inum: nat, name: seq<byte>)
    requires DirOk(f) && Key(name) in Dir(f) && 0 < inum < 0x1_0000 && f' == f + EntryOf(inum, name) && Prefix(f', g)
    ensures !Unique(Entries(g))
  {
    var k := Slots(f);
    BindingsAre(Entries(f), Key(name));
    var j :| BoundBy(Entries(f), Key(name), j);
    NewEntry(f, f', inum, name, k);
    EntriesPrefix(f', g, j);
    EntriesPrefix(f', g, k);
    assert !Differ(Entries(g), j, k);
  }

  /** g begins with the root directory after r files. Kept folded. */
  ghost predicate Begins(files: seq<Source>, r: nat, g: seq<byte>)
    requires r <= |files|
  {
    forall u {:trigger Look(u)} :: Look(u) ==> Prefix(RootBytes(files, r), g)
  }

  lemma {:induction false} RootBegins(files: seq<Source>, r: nat, next: nat, g: seq<byte>)
    requires next == r + 1 <= |files| && Begins(files, next, g)
    ensures Begins(files, r, g)
  {
    assert Look(0);
    PrefixTrans(RootBytes(files, r), RootBytes(files, next), g);
  }

  lemma BeginsWith(files: seq<Source>, r: nat, next: nat, g: seq<byte>, f: seq<byte>, f': seq<byte>)
    requires next == r + 1 <= |files| && Begins(files, next, g) && f == RootBytes(files, r) && f' == RootBytes(files, next)
    ensures Prefix(f', g) && f' == f + EntryOf(next + 1, Entered(files[r].name))
  {
    assert Look(0);
  }

  lemma {:induction false} NameFresh(files: seq<Source>, r: nat, next: nat, g: seq<byte>)
    requires r < |files| && next == r + 1 && NamesDiffer(files, r) && |files| + 1 < 0x1_0000 && Begins(files, next, g) && Unique(Entries(g))
    ensures NamesDiffer(files, next)
  {
    var f, f', name := RootBytes(files, r), RootBytes(files, next), Entered(files[r].name);
    RootDir(files, r);
    BeginsWith(files, r, next, g, f, f');
    MustBeNew(f, f', g, next + 1, name, RootMap(files, r));
    NamesMore(files, r, next);
  }

  lemma {:induction false} NamesMore(files: seq<Source>, r: nat, next: nat)
    requires r < |files| && next == r + 1 && NamesDiffer(files, r) && NewName(files, r)
    ensures NamesDiffer(files, next)
  {
    forall k | 0 <= k < next ensures NewName(files, k) {
      if k == r { assert NewName(files, r); } else { assert k < r; }
    }
  }

  lemma MustBeNew(f: seq<byte>, f': seq<byte>, g: seq<byte>, inum: nat, name: seq<byte>, m: map<seq<byte>, nat>)
    requires DirOk(f) && Dir(f) == m && 0 < inum < 0x1_0000 && f' == f + EntryOf(inum, name) && Prefix(f', g) && Unique(Entries(g))
    ensures Key(name) !in m
  {
    if Key(name) in m { TakenTwice(f, f', g, inum, name); }
  }

  lemma {:induction false} NamesMustDiffer(files: seq<Source>, n: nat, g: seq<byte>)
    requires n <= |files| && |files| + 1 < 0x1_0000 && Begins(files, n, g) && Unique(Entries(g))
    ensures NamesDiffer(files, n)
  {
    if n > 0 {
      RootBegins(files, n - 1, n, g);
      NamesMustDiffer(files, n - 1, g);
      NameFresh(files, n - 1, n, g);
    }
  }

  /** The root directory of the finished image is a directory if and only if no name is entered twice, and
      then it binds exactly the files and the two dots, each to its inode. */
  lemma {:induction false} RootIsDirectory(files: seq<Source>, bs: Blocks, ino: seq<Inode>)
    requires Finished(files, bs, ino) && |files| + 1 < 0x1_0000
    ensures var f := Content(bs, ino[ROOTINO]);
            (DirOk(f) <==> NamesDiffer(files, |files|)) && (DirOk(f) ==> Dir(f) == RootMap(files, |files|))
  {
    var f := Content(bs, ino[ROOTINO]);
    if DirOk(f) { NamesMustDiffer(files, |files|, f); }
    if NamesDiffer(files, |files|) { RootBinds(files, f); }
  }

  lemma {:induction false} RootBinds(files: seq<Source>, f: seq<byte>)
    requires NamesDiffer(files, |files|) && |files| + 1 < 0x1_0000
    requires f == RootBytes(files, |files|) + Zeros(BSIZE - DESIZE * (|files| + 2) % BSIZE)
    ensures DirOk(f) && Dir(f) == RootMap(files, |files|)
  {
    RootDir(files, |files|);
    var n := DESIZE * (|files| + 2);
    var pad := BSIZE - n % BSIZE;
    var c := PadWhole(|files| + 2, n);
    FreeEntries(RootBytes(files, |files|), c, pad);
  }

  lemma {:induction false} StaysBound(files: seq<Source>, m: nat, r: nat)
    requires m < r <= |files| && NamesDiffer(files, r)
    ensures Key(Entered(files[m].name)) in RootMap(files, r) && RootMap(files, r)[Key(Entered(files[m].name))] == m + 2
  {
    if m < r - 1 {
      StaysBound(files, m, r - 1);
      assert NewName(files, r - 1);
    }
  }

  lemma KeyAdded<K, V>(m: map<K, V>, k: K, v: V)
    requires k !in m
    ensures |m[k := v]| == |m| + 1
  {
    assert m[k := v].Keys == m.Keys + {k};
  }

  /** The two dots are bound to the root, and the map has n entries. */
  ghost predicate HasDots(d: map<seq<byte>, nat>, n: nat) {
    |d| == n && (forall x :: x == Key([DOT]) || x == Key([DOT, DOT]) ==> x in d && d[x] == ROOTINO)
  }

  lemma HasDotsAdded(d: map<seq<byte>, nat>, n: nat, next: nat, k: seq<byte>, v: nat)
    requires HasDots(d, n) && k !in d && next == n + 1
    ensures HasDots(d[k := v], next)
  {
    KeyAdded(d, k, v);
  }

  lemma OnlyDots()
    ensures HasDots(map[Key([DOT]) := ROOTINO, Key([DOT, DOT]) := ROOTINO], 2)
  {
    DotsDiffer();
    var a, b := Key([DOT]), Key([DOT, DOT]);
    assert map[a := ROOTINO, b := ROOTINO].Keys == {a, b};
  }

  lemma {:induction false} DotsStayBound(files: seq<Source>, r: nat, n: nat)
    requires r <= |files| && NamesDiffer(files, r) && n == r + 2
    ensures HasDots(RootMap(files, r), n)
  {
    if r == 0 {
      OnlyDots();
    } else {
      DotsStayBound(files, r - 1, n - 1);
      assert NewName(files, r - 1);
      HasDotsAdded(RootMap(files, r - 1), n - 1, n, Key(Entered(files[r - 1].name)), r + 1);
    }
  }

  /** When the names differ, file m is in the root directory under its name, without the underscore that it may
      begin with, as inode m + 2; and there is nothing else in it but the two dots. */
  lemma {:induction false} FileIsEntered(files: seq<Source>, bs: Blocks, ino: seq<Inode>, m: nat, rest: seq<byte>)
    requires Finished(files, bs, ino) && |files| + 1 < 0x1_0000 && DirOk(Content(bs, ino[ROOTINO]))
    ensures var d := Dir(Content(bs, ino[ROOTINO]));
            && (m < |files| && files[m].name == [UNDERSCORE] + rest ==> Key(rest) in d && d[Key(rest)] == m + 2)
            && (m < |files| && !([UNDERSCORE] <= files[m].name) ==> Key(files[m].name) in d && d[Key(files[m].name)] == m + 2)
            && Key([DOT]) in d && Key([DOT, DOT]) in d && d[Key([DOT])] == d[Key([DOT, DOT])] == ROOTINO
            && |d| == |files| + 2
  {
    RootIsDirectory(files, bs, ino);
    DotsStayBound(files, |files|, |files| + 2);
    if m < |files| {
      StaysBound(files, m, |files|);
      assert ([UNDERSCORE] + rest)[1..] == rest;
    }
  }
}
