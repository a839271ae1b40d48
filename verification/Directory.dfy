/** strncmp and strncpy of xv6-l/string.c, and the directory operations of xv6-l/fs.c on the file system
    underneath: dirlookup, dirlink, and the entry that sys_unlink clears. */
module Directory {
  import opened Bytes
  import opened Common
  import opened DirModel
  import opened FsModel
  import opened FsData
  import opened FsRoom
  import opened Fs

  const T_DIR: nat := 1

  // ---------------------------------------------------------------- names

  lemma CompareStops(p: seq<byte>, q: seq<byte>, n: nat, i: nat)
    requires i <= n && (forall k :: 0 <= k < i ==> At(p, k) == At(q, k) != 0)
    requires i == n || At(p, i) == 0 || At(p, i) != At(q, i)
    ensures Cut(p, n) == Cut(q, n) <==> i == n || At(p, i) == At(q, i)
  {
    var a, b := Cut(p, n), Cut(q, n);
    var x, y := CutLen(p, n, 0), CutLen(q, n, 0);
    assert x >= i && y >= i;
    assert forall k :: 0 <= k < x ==> a[k] == At(p, k);
    assert forall k :: 0 <= k < y ==> b[k] == At(q, k);
  }

  /** The two names first differ at i. */
  ghost predicate Parts(p: seq<byte>, q: seq<byte>, n: nat, i: nat) {
    i < n && At(p, i) != At(q, i) && (forall k :: 0 <= k < i ==> At(p, k) == At(q, k) != 0)
  }

  /** Zero exactly when the two names have one key, and otherwise the difference of the bytes at the first
      of the n places where they differ. */
  method Strncmp(p: seq<byte>, q: seq<byte>, n: nat) returns (r: int)
    ensures r == 0 <==> Cut(p, n) == Cut(q, n)
    ensures r == 0 <==> forall i: nat :: !Parts(p, q, n, i)
    ensures r != 0 ==> exists i: nat :: Parts(p, q, n, i) && r == At(p, i) as int - At(q, i) as int
  {
    var i := 0;
    while i < n && At(p, i) != 0 && At(p, i) == At(q, i)
      invariant i <= n && forall k :: 0 <= k < i ==> At(p, k) == At(q, k) != 0
    {
      i := i + 1;
    }
    CompareStops(p, q, n, i);
    forall j: nat | j != i ensures !Parts(p, q, n, j) {
    }
    if i == n { return 0; }
    r := At(p, i) as int - At(q, i) as int;
    if r != 0 { assert Parts(p, q, n, i); }
  }

  /** Byte k of the name lies before its end. */
  ghost predicate Within(t: seq<byte>, k: nat) {
    forall j :: 0 <= j <= k ==> At(t, j) != 0
  }

  /** The first n bytes become those of the name up to its end, and NULs after it. */
  method Strncpy(s: array<byte>, t: seq<byte>, n: nat)
    requires n <= s.Length
    modifies s
    ensures s[..n] == Padded(t, n) && forall k :: n <= k < s.Length ==> s[k] == old(s[k])
    ensures forall k: nat :: k < n ==> s[k] == if Within(t, k) then At(t, k) else 0
  {
    var i := 0;
    var going := true;
    while i < n && going
      invariant 0 <= i <= n && (going ==> i <= CutLen(t, n, 0)) && (!going ==> 0 < i == CutLen(t, n, 0) + 1)
      invariant forall k :: 0 <= k < i ==> s[k] == At(t, k)
      invariant forall k :: n <= k < s.Length ==> s[k] == old(s[k])
      decreases n - i
    {
      s[i] := At(t, i);
      going := At(t, i) != 0;
      i := i + 1;
    }
    ghost var c := CutLen(t, n, 0);
    while i < n
      invariant 0 <= i <= n && c <= i && (forall k :: 0 <= k < c ==> s[k] == At(t, k)) && (forall k :: c <= k < i ==> s[k] == 0)
      invariant forall k :: n <= k < s.Length ==> s[k] == old(s[k])
    {
      s[i] := 0;
      i := i + 1;
    }
    forall k: nat | k < n ensures Within(t, k) <==> k < c {
      if k >= c { assert At(t, c) == 0; }
    }
  }

  // ---------------------------------------------------------------- scanning a directory

  /** A file system as it stands. */
  datatype View = View(sb: Super, bs: Blocks, ino: seq<Inode>, owner: Owner) {
    ghost predicate Good(i: nat) {
      sb.Ok() && |bs| == sb.size && |ino| == sb.ninodes && i < |ino| && Sound(sb, bs, ino, owner)
    }
  }

  ghost function Here(fs: FileSystem): View
    reads fs
  {
    View(fs.sb, fs.blocks, fs.ino, fs.owner)
  }

  /** File i is a directory, and f are its bytes. */
  ghost predicate IsDir(fs: FileSystem, i: nat, f: seq<byte>)
    reads fs
  {
    fs.Valid() && i < fs.sb.ninodes && DirIs(fs.blocks, fs.ino, i, f)
  }

  ghost predicate DirIs(bs: Blocks, ino: seq<Inode>, i: nat, f: seq<byte>) {
    && i < |ino| && ino[i].size == |f| <= MAXFILE * BSIZE
    && forall x {:trigger Unfold(x)} :: Unfold(x) ==> ino[i].Type() == T_DIR && f == Content(bs, ino[i])
  }

  lemma DirOpen(bs: Blocks, ino: seq<Inode>, i: nat, f: seq<byte>)
    requires DirIs(bs, ino, i, f)
    ensures ino[i].Type() == T_DIR && f == Content(bs, ino[i])
  {
    assert Unfold(0);
  }

  /** Filling holes changes no directory. */
  lemma DirStays(v: View, w: View, i: nat, f: seq<byte>)
    requires Extends(v.sb, v.bs, v.ino, v.owner, w.bs, w.ino, w.owner, i) && DirIs(v.bs, v.ino, i, f)
    ensures DirIs(w.bs, w.ino, i, f)
  {
    DirOpen(v.bs, v.ino, i, f);
    ExtendsContent(v.sb, v.bs, v.ino, v.owner, w.bs, w.ino, w.owner, i, i);
  }

  /** Fewer blocks are free than the holes of file i before byte `end` need. */
  ghost predicate Starved(v: View, i: nat, end: nat)
    requires i < |v.ino|
  {
    EndBlock(0, end) <= MAXFILE && Room(v.sb, v.owner) < Need(v.bs, v.ino[i], 0, EndBlock(0, end))
  }

  /** From v to w nothing has happened but that the holes of file i before byte `end` were filled. Kept folded. */
  ghost predicate Scanned(v: View, w: View, i: nat, end: nat) {
    forall x {:trigger Look(x)} :: Look(x) ==>
      && w.sb == v.sb && Extends(v.sb, v.bs, v.ino, v.owner, w.bs, w.ino, w.owner, i) && i < |w.ino| && end <= MAXFILE * BSIZE
      && FilePass(v.bs, v.ino[i], |v.owner|, w.bs, w.ino[i], |w.owner|, 0, end)
      && (end == 0 ==> w == v)
  }

  lemma ScanStart(v: View, i: nat)
    requires v.Good(i)
    ensures Scanned(v, v, i, 0)
  {
    ExtendsSelf(v.sb, v.bs, v.ino, v.owner, i);
    PassNone(v.bs, v.ino[i], |v.owner|, 0);
  }

  /** A read of the next bytes. */
  lemma ScanMore(v: View, w: View, x: View, i: nat, o: nat, len: nat, next: nat, dst: seq<byte>)
    requires v.Good(i) && Scanned(v, w, i, o) && i < |w.ino| && x.sb == w.sb && len > 0 && next == o + len <= w.ino[i].size <= MAXFILE * BSIZE
    requires ReadDone(w.sb, w.bs, w.ino, w.owner, x.bs, x.ino, x.owner, i, o, len, dst)
    ensures Scanned(v, x, i, next)
  {
    assert Look(0);
    ExtendsTrans(v.sb, v.bs, v.ino, v.owner, w.bs, w.ino, w.owner, x.bs, x.ino, x.owner, i);
    FilePassMore(v.bs, v.ino[i], |v.owner|, w.bs, w.ino[i], |w.owner|, x.bs, x.ino[i], |x.owner|, 0, o, o, len, next);
  }

  /** A read that finds too few blocks. */
  lemma ScanStuck(v: View, w: View, i: nat, o: nat, len: nat, next: nat, end: nat)
    requires v.Good(i) && Scanned(v, w, i, o) && w.sb == v.sb && i < |w.ino| && len > 0 && next == o + len <= end <= MAXFILE * BSIZE
    requires EndBlock(o, len) <= MAXFILE && Room(w.sb, w.owner) < Need(w.bs, w.ino[i], o / BSIZE, EndBlock(o, len))
    ensures Starved(v, i, end)
  {
    assert Look(0);
    FilePassStuck(v.bs, v.ino[i], |v.owner|, w.bs, w.ino[i], |w.owner|, 0, o, o, len, next, end, v.sb.size - v.sb.data);
  }

  /** What a scan leaves behind: no file has changed, no more than the blocks it needed were taken, and the
      inode is as it was on disk exactly when none of them went into a slot of its own. */
  lemma ScanEnd(v: View, w: View, i: nat, end: nat)
    requires v.Good(i) && w.Good(i) && Scanned(v, w, i, end)
    ensures !Starved(v, i, end) && EndBlock(0, end) <= MAXFILE
    ensures Extends(v.sb, v.bs, v.ino, v.owner, w.bs, w.ino, w.owner, i)
    ensures Pass(v.bs, v.ino[i], |v.owner|, w.bs, w.ino[i], |w.owner|, 0, EndBlock(0, end))
    ensures Synced(v.sb, v.bs, v.ino[i], i) ==> (Synced(v.sb, w.bs, w.ino[i], i) <==> !FillsInode(v.ino[i], 0, EndBlock(0, end)))
    ensures OthersSame(v.bs, v.ino, w.bs, w.ino, i) && Content(w.bs, w.ino[i]) == Content(v.bs, v.ino[i])
  {
    assert Look(0);
    RoomIsFree(w.sb, w.bs, w.ino, w.owner);
    ExtendsDisk(v.sb, v.bs, v.ino, v.owner, w.bs, w.ino, w.owner, i);
    if Synced(v.sb, v.bs, v.ino[i], i) { BehindExactly(v.sb, v.bs, v.ino, w.bs, w.ino, i, 0, EndBlock(0, end)); }
    forall j: nat | j < |v.ino| ensures Content(w.bs, w.ino[j]) == Content(v.bs, v.ino[j]) {
      ExtendsContent(v.sb, v.bs, v.ino, v.owner, w.bs, w.ino, w.owner, i, j);
    }
  }

  /** After a scan of the whole file no hole is left. */
  lemma ScannedAll(v: View, w: View, i: nat)
    requires v.Good(i) && i < |w.ino| && w.ino[i].size == v.ino[i].size <= MAXFILE * BSIZE && Scanned(v, w, i, v.ino[i].size)
    ensures NoHoles(w.bs, w.ino[i])
  {
    assert Look(0);
    var e := EndBlock(0, v.ino[i].size);
    forall bn: nat | bn < MAXFILE && bn * BSIZE < w.ino[i].size ensures Addr(w.bs, w.ino[i], FileSlot(bn)) != 0 {
      assert FilledAt(v.bs, v.ino[i], w.bs, w.ino[i], 0, e, bn);
      assert bn < e;
    }
  }

  /** Adding to the end after such a scan takes together what the longer file needs. */
  lemma AppendNeeds(v: View, w: View, i: nat, size: nat, b: nat, e: nat, next: nat)
    requires v.Good(i) && i < |w.ino| && Scanned(v, w, i, size) && next == size + DESIZE <= MAXFILE * BSIZE
    requires b == size / BSIZE && e == EndBlock(size, DESIZE)
    ensures e == EndBlock(0, next) <= MAXFILE
    ensures Room(v.sb, v.owner) - Need(v.bs, v.ino[i], 0, e) == Room(w.sb, w.owner) - Need(w.bs, w.ino[i], b, e)
  {
    assert Look(0);
    ChunkBlocks(0, size, size, DESIZE, next);
    if size > 0 { NeedSplit(v.bs, v.ino[i], w.bs, w.ino[i], 0, EndBlock(0, size), b, e); }
  }

  // ---------------------------------------------------------------- dirlookup

  /** NoBlocks is the panic of the allocator, met when a hole of the directory is read; ShortRead and NotDir
      are panics of dirlookup. */
  datatype Lookup = NotDir | NoBlocks | ShortRead | Missing | Found(inum: nat, off: nat)

  /** The first entry from k on that has the key and is live, or one past the last. */
  ghost function First(es: seq<Entry>, key: seq<byte>, k: nat): (r: nat)
    requires k <= |es|
    ensures k <= r <= |es| && (r < |es| ==> BoundBy(es, key, r)) && forall j :: k <= j < r ==> !BoundBy(es, key, j)
    decreases |es| - k
  {
    if k == |es| || BoundBy(es, key, k) then k else First(es, key, k + 1)
  }

  ghost function FirstOf(f: seq<byte>, key: seq<byte>): nat {
    First(Entries(f), key, 0)
  }

  /** One past the last byte that dirlookup reads. */
  ghost function LookStop(f: seq<byte>, key: seq<byte>): nat {
    if FirstOf(f, key) < Slots(f) then DESIZE * FirstOf(f, key) + DESIZE else |f|
  }

  /** The entries before k do not have the key. Kept folded. */
  ghost predicate NotBefore(f: seq<byte>, key: seq<byte>, k: nat) {
    forall x {:trigger Look(x)} :: Look(x) ==> k <= Slots(f) && FirstOf(f, key) == First(Entries(f), key, k)
  }

  lemma NoneBefore(f: seq<byte>, key: seq<byte>)
    ensures NotBefore(f, key, 0)
  {
  }

  lemma NotBeforeNext(f: seq<byte>, key: seq<byte>, k: nat, next: nat, e: Entry)
    requires NotBefore(f, key, k) && k < Slots(f) && next == k + 1 && Entries(f)[k] == e && (e.inum == 0 || e.key != key)
    ensures NotBefore(f, key, next)
  {
    assert Look(0);
  }

  /** dirlookup reads entry k if there is a byte of it and no entry before it has the key ... */
  lemma StopsAfter(f: seq<byte>, key: seq<byte>, k: nat, off: nat)
    requires NotBefore(f, key, k) && off == DESIZE * k && off < |f|
    ensures off + Rest(f, off) <= LookStop(f, key) <= |f|
  {
    assert Look(0);
  }

  /** ... and stops there if it has the key, */
  lemma FoundAt(f: seq<byte>, key: seq<byte>, k: nat, off: nat, next: nat, e: Entry)
    requires NotBefore(f, key, k) && off == DESIZE * k && next == off + DESIZE && k < Slots(f) && Entries(f)[k] == e && e.inum != 0 && e.key == key
    ensures LooksUp(f, key, Found(e.inum, off)) && LookStop(f, key) == next
  {
    assert Look(0);
    assert BoundBy(Entries(f), key, k);
  }

  /** or if it is not whole, */
  lemma ShortAt(f: seq<byte>, key: seq<byte>, k: nat, off: nat, next: nat)
    requires NotBefore(f, key, k) && off == DESIZE * k && off < |f| && next == off + Rest(f, off) && k >= Slots(f)
    ensures LooksUp(f, key, ShortRead) && LookStop(f, key) == next
  {
    assert Look(0);
  }

  /** or at the end. */
  lemma MissingAt(f: seq<byte>, key: seq<byte>, k: nat, off: nat)
    requires NotBefore(f, key, k) && off == DESIZE * k == |f|
    ensures LooksUp(f, key, Missing) && LookStop(f, key) == off
  {
    assert Look(0);
  }

  /** How many bytes a read of an entry at off finds. */
  function Rest(f: seq<byte>, off: nat): (r: nat)
    requires off < |f|
    ensures 0 < r <= DESIZE && off + r <= |f|
  {
    if off + DESIZE > |f| then |f| - off else DESIZE
  }

  /** The entry that a read of 16 bytes at off brings in. */
  lemma EntryRead(f: seq<byte>, k: nat, off: nat, de: seq<byte>)
    requires off == DESIZE * k && off + DESIZE <= |f| && de == f[off..off + DESIZE]
    ensures k < Slots(f) && Entries(f)[k] == Entry(de[0] as int + 0x100 * de[1] as int, Key(de[2..DESIZE]))
  {
    EntryAt(f, Slots(f), k);
    assert NameAt(f, k) == de[2..DESIZE];
  }

  /** In a directory with unique names, the first entry is the only one. */
  lemma LookedUp(f: seq<byte>, key: seq<byte>)
    requires DirOk(f)
    ensures key in Dir(f) <==> FirstOf(f, key) < Slots(f)
    ensures FirstOf(f, key) < Slots(f) ==> Dir(f)[key] == Entries(f)[FirstOf(f, key)].inum
  {
    BindingsAre(Entries(f), key);
    if FirstOf(f, key) < Slots(f) { assert BoundBy(Entries(f), key, FirstOf(f, key)); }
  }

  datatype EntryResult = Starve | Short | Got(inum: nat, name: seq<byte>)

  /** readi of the bytes of the entry at off, up to byte `next`; None is the panic of the allocator. */
  method ReadBytes(fs: FileSystem, i: nat, off: nat, ghost f: seq<byte>, ghost v: View, ghost next: nat) returns (r: Option<seq<byte>>)
    requires IsDir(fs, i, f) && off < |f| && next == off + Rest(f, off) && v.Good(i) && v.sb == fs.sb && Scanned(v, Here(fs), i, off)
    modifies fs
    ensures r == None ==> forall end :: next <= end <= MAXFILE * BSIZE ==> Starved(v, i, end)
    ensures r.Some? ==> IsDir(fs, i, f) && Scanned(v, Here(fs), i, next) && r.value == f[off..next]
    ensures old(NoHoles(fs.blocks, fs.ino[i])) ==> r.Some? && unchanged(fs)
  {
    ghost var w, len := Here(fs), Rest(f, off);
    DirOpen(fs.blocks, fs.ino, i, f);
    assert len == Available(fs.ino[i].size, off, DESIZE);
    RoomIsFree(fs.sb, fs.blocks, fs.ino, fs.owner);
    var q, de := fs.Readi(i, off, DESIZE);
    if q == Panic {
      forall end | next <= end <= MAXFILE * BSIZE ensures Starved(v, i, end) {
        ScanStuck(v, w, i, off, len, next, end);
      }
      return None;
    }
    DirStays(w, Here(fs), i, f);
    ScanMore(v, w, Here(fs), i, off, len, next, de);
    r := Some(de);
  }

  /** readi of entry k. */
  method ReadEntry(fs: FileSystem, i: nat, off: nat, ghost k: nat, ghost f: seq<byte>, ghost v: View, ghost next: nat) returns (r: EntryResult)
    requires IsDir(fs, i, f) && off == DESIZE * k && off < |f| && next == off + Rest(f, off) && v.Good(i) && v.sb == fs.sb && Scanned(v, Here(fs), i, off)
    modifies fs
    ensures r == Starve ==> forall end :: next <= end <= MAXFILE * BSIZE ==> Starved(v, i, end)
    ensures r != Starve ==> IsDir(fs, i, f) && Scanned(v, Here(fs), i, next) && (r == Short <==> k >= Slots(f))
    ensures r.Got? ==> k < Slots(f) && next == off + DESIZE && Entries(f)[k] == Entry(r.inum, Key(r.name))
    ensures old(NoHoles(fs.blocks, fs.ino[i])) ==> r != Starve && unchanged(fs)
  {
    var q := ReadBytes(fs, i, off, f, v, next);
    if q == None { return Starve; }
    var de := q.value;
    if |de| != DESIZE { return Short; }
    EntryRead(f, k, off, de);
    r := Got(de[0] as int + 0x100 * de[1] as int, de[2..DESIZE]);
  }

  /** dirlookup. It reads the entries up to the first live one of that name, or all of them, and fills the
      holes among them on the way; it panics exactly when i is no directory, when those holes need more blocks
      than are free, or when it comes to the end of a directory that is not made of whole entries. No file
      changes. The inode is not stored: it falls behind on disk exactly when a hole was a slot of its own. */
  method Dirlookup(fs: FileSystem, i: nat, name: seq<byte>) returns (r: Lookup)
    requires fs.Valid() && i < fs.sb.ninodes && fs.ino[i].size <= MAXFILE * BSIZE
    modifies fs
    ensures r == NotDir <==> old(fs.ino[i].Type()) != T_DIR
    ensures r == NotDir || old(NoHoles(fs.blocks, fs.ino[i])) ==> unchanged(fs) && r != NoBlocks
    ensures old(fs.ino[i].Type()) == T_DIR ==>
              var f := old(Content(fs.blocks, fs.ino[i])); var end := EndBlock(0, LookStop(f, Key(name)));
              && end <= MAXFILE && (r == NoBlocks <==> old(|FreeBlocks(fs.sb, fs.blocks)|) < Need(old(fs.blocks), old(fs.ino[i]), 0, end))
              && (r != NoBlocks ==> LooksUp(f, Key(name), r) && LookDone(fs.sb, old(fs.blocks), old(fs.ino), old(fs.owner), fs.blocks, fs.ino, fs.owner, i, end))
              && (r != NoBlocks ==> IsDir(fs, i, f))
              && (r != NoBlocks && DirOk(f) ==> if Key(name) in Dir(f) then r.Found? && r.inum == Dir(f)[Key(name)] else r == Missing)
  {
    if fs.ino[i].Type() != T_DIR { return NotDir; }
    ghost var f, v := Content(fs.blocks, fs.ino[i]), Here(fs);
    RoomIsFree(fs.sb, fs.blocks, fs.ino, fs.owner);
    r := Scan(fs, i, name, f, v);
    if r != NoBlocks { ScanEnd(v, Here(fs), i, LookStop(f, Key(name))); }
    if DirOk(f) { LookedUp(f, Key(name)); }
  }

  /** What dirlookup answers, apart from the panics of the allocator: the first live entry of that name. */
  ghost predicate LooksUp(f: seq<byte>, key: seq<byte>, r: Lookup) {
    var k := FirstOf(f, key);
    if k < Slots(f) then r == Found(Entries(f)[k].inum, DESIZE * k)
    else r == if |f| % DESIZE == 0 then Missing else ShortRead
  }

  /** The holes of file i among its first `end` blocks were filled, and nothing else happened. */
  ghost predicate LookDone(sb: Super, bs: Blocks, ino: seq<Inode>, owner: Owner, bs': Blocks, ino': seq<Inode>, owner': Owner, i: nat, end: nat) {
    && Extends(sb, bs, ino, owner, bs', ino', owner', i) && OthersSame(bs, ino, bs', ino', i)
    && Pass(bs, ino[i], |owner|, bs', ino'[i], |owner'|, 0, end)
    && (Synced(sb, bs, ino[i], i) ==> (Synced(sb, bs', ino'[i], i) <==> !FillsInode(ino[i], 0, end)))
  }

  /** dirlookup's loop. */
  method Scan(fs: FileSystem, i: nat, name: seq<byte>, ghost f: seq<byte>, ghost v: View) returns (r: Lookup)
    requires IsDir(fs, i, f) && v == Here(fs)
    modifies fs
    ensures EndBlock(0, LookStop(f, Key(name))) <= MAXFILE && (r == NoBlocks ==> Starved(v, i, LookStop(f, Key(name))))
    ensures r != NoBlocks ==> IsDir(fs, i, f) && Scanned(v, Here(fs), i, LookStop(f, Key(name))) && LooksUp(f, Key(name), r)
    ensures old(NoHoles(fs.blocks, fs.ino[i])) ==> unchanged(fs) && r != NoBlocks
  {
    var off, size := 0, fs.ino[i].size;
    ghost var k, key := 0, Key(name);
    ScanStart(v, i);
    NoneBefore(f, key);
    while off < size
      invariant IsDir(fs, i, f) && size == |f| && off == DESIZE * k && NotBefore(f, key, k) && off <= size && Scanned(v, Here(fs), i, off)
      invariant old(NoHoles(fs.blocks, fs.ino[i])) ==> unchanged(fs)
      decreases size - off
    {
      ghost var next := off + Rest(f, off);
      r := ScanTurn(fs, i, off, name, k, f, v, next);
      if r != Missing { return; }
      off := off + DESIZE;
      k := k + 1;
    }
    MissingAt(f, key, k, off);
    r := Missing;
  }

  /** One turn of that loop; Missing when it goes on. */
  method ScanTurn(fs: FileSystem, i: nat, off: nat, name: seq<byte>, ghost k: nat, ghost f: seq<byte>, ghost v: View, ghost next: nat) returns (r: Lookup)
    requires IsDir(fs, i, f) && off == DESIZE * k && off < |f| && next == off + Rest(f, off) && v.Good(i) && v.sb == fs.sb && Scanned(v, Here(fs), i, off)
    requires NotBefore(f, Key(name), k)
    modifies fs
    ensures r == NoBlocks ==> Starved(v, i, LookStop(f, Key(name)))
    ensures r != NoBlocks ==> IsDir(fs, i, f) && Scanned(v, Here(fs), i, next)
    ensures r != NoBlocks && r != Missing ==> LooksUp(f, Key(name), r) && LookStop(f, Key(name)) == next
    ensures r == Missing ==> k < Slots(f) && next == off + DESIZE && NotBefore(f, Key(name), k + 1)
    ensures old(NoHoles(fs.blocks, fs.ino[i])) ==> unchanged(fs) && r != NoBlocks
  {
    StopsAfter(f, Key(name), k, off);
    var e := ReadEntry(fs, i, off, k, f, v, next);
    if e == Starve { return NoBlocks; }
    if e == Short {
      ShortAt(f, Key(name), k, off, next);
      return ShortRead;
    }
    ghost var entry := Entry(e.inum, Key(e.name));
    if e.inum != 0 {
      var c := Strncmp(name, e.name, DIRSIZ);
      if c == 0 {
        FoundAt(f, Key(name), k, off, next, entry);
        return Found(e.inum, off);
      }
    }
    NotBeforeNext(f, Key(name), k, k + 1, entry);
    r := Missing;
  }

  // ---------------------------------------------------------------- dirlink and unlink

  /** A write of one entry's bytes at slot k is that entry set, and nothing else of the directory. */
  lemma EntryWritten(f: seq<byte>, k: nat, inum: nat, name: seq<byte>)
    requires k <= Slots(f) && (k == Slots(f) ==> |f| % DESIZE == 0) && |name| == DIRSIZ
    ensures DESIZE * k <= |f| && EntrySet(f, Overwritten(f, DESIZE * k, Encode(inum, name)), k, inum, name)
  {
    ReadBack(f, DESIZE * k, Encode(inum, name));
  }

  /** The first free entry from k on, or one past the last. */
  ghost function Vacant(es: seq<Entry>, k: nat): (r: nat)
    requires k <= |es|
    ensures k <= r <= |es| && (r < |es| ==> es[r].inum == 0) && forall j :: k <= j < r ==> es[j].inum != 0
    decreases |es| - k
  {
    if k == |es| || es[k].inum == 0 then k else Vacant(es, k + 1)
  }

  ghost function VacantOf(f: seq<byte>): nat {
    Vacant(Entries(f), 0)
  }

  /** dirlink's search, in a directory whose holes are filled: the first free entry, or one past the last. */
  method FindFree(fs: FileSystem, i: nat, ghost f: seq<byte>) returns (off: nat)
    requires IsDir(fs, i, f) && |f| % DESIZE == 0 && NoHoles(fs.blocks, fs.ino[i])
    modifies fs
    ensures unchanged(fs) && off == DESIZE * VacantOf(f)
  {
    var size := fs.ino[i].size;
    off := 0;
    ghost var k, v := 0, Here(fs);
    ScanStart(v, i);
    while off < size
      invariant unchanged(fs) && IsDir(fs, i, f) && size == |f| && off == DESIZE * k && k <= Slots(f) && Scanned(v, Here(fs), i, off)
      invariant Vacant(Entries(f), k) == VacantOf(f)
      decreases size - off
    {
      var e := ReadEntry(fs, i, off, k, f, v, off + DESIZE);
      if e.inum == 0 { break; }
      off := off + DESIZE;
      k := k + 1;
    }
  }

  /** There is room to write an entry at off: it stays within the largest file, and if its block is missing,
      there are blocks for it. */
  ghost predicate CanWrite(sb: Super, bs: Blocks, ip: Inode, off: nat)
    requires sb.Ok() && |bs| == sb.size
  {
    off + DESIZE <= MAXFILE * BSIZE && Need(bs, ip, off / BSIZE, EndBlock(off, DESIZE)) <= |FreeBlocks(sb, bs)|
  }

  /** The writei of an entry, by dirlink or by unlink. */
  method WriteEntry(fs: FileSystem, i: nat, off: nat, ghost k: nat, inum: nat, name: seq<byte>, ghost f: seq<byte>) returns (ok: bool, ghost f': seq<byte>)
    requires IsDir(fs, i, f) && |name| == DIRSIZ && off == DESIZE * k && k <= Slots(f) && (k == Slots(f) ==> |f| % DESIZE == 0)
    modifies fs
    ensures ok <==> old(CanWrite(fs.sb, fs.blocks, fs.ino[i], off))
    ensures ok ==> IsDir(fs, i, f') && f' == Content(fs.blocks, fs.ino[i]) && |f'| % DESIZE == |f| % DESIZE && Entries(f') == SetEntry(Entries(f), k, Entry(inum % 0x1_0000, Key(name)))
    ensures ok ==> OthersSame(old(fs.blocks), old(fs.ino), fs.blocks, fs.ino, i) && (old(NoHoles(fs.blocks, fs.ino[i])) ==> NoHoles(fs.blocks, fs.ino[i]))
  {
    ghost var bs0, ino0 := fs.blocks, fs.ino;
    DirOpen(bs0, ino0, i, f);
    var r := fs.Writei(i, Encode(inum, name), off);
    ok := r == Ret(DESIZE);
    f' := [];
    if ok {
      EntryWriteMeans(fs.sb, bs0, ino0, fs.blocks, fs.ino, i, off, k, inum, name);
      f' := Content(fs.blocks, fs.ino[i]);
    }
  }

  /** Every other file holds what it held. */
  ghost predicate OthersSame(bs: Blocks, ino: seq<Inode>, bs': Blocks, ino': seq<Inode>, i: nat) {
    |ino'| == |ino| && forall j :: 0 <= j < |ino| && j != i ==> Content(bs', ino'[j]) == Content(bs, ino[j])
  }

  lemma EntryWriteMeans(sb: Super, bs: Blocks, ino: seq<Inode>, bs': Blocks, ino': seq<Inode>, i: nat, off: nat, k: nat, inum: nat, name: seq<byte>)
    requires |name| == DIRSIZ && off == DESIZE * k && i < |ino| && off <= ino[i].size && (off + DESIZE > ino[i].size ==> off == ino[i].size)
    requires WriteDone(sb, bs, ino, bs', ino', i, off, Encode(inum, name))
    ensures var f, f' := Content(bs, ino[i]), Content(bs', ino'[i]);
            |f'| % DESIZE == |f| % DESIZE && k <= Slots(f) && Entries(f') == SetEntry(Entries(f), k, Entry(inum % 0x1_0000, Key(name)))
    ensures OthersSame(bs, ino, bs', ino', i)
  {
    var f, f' := Content(bs, ino[i]), Content(bs', ino'[i]);
    ContentAfter(bs, ino, bs', ino', i, off, Encode(inum, name));
    EntryWritten(f, k, inum, name);
    EntriesAfter(f, f', k, inum, name);
  }

  /** One past the last byte that dirlink reads or writes. */
  ghost function LinkStop(f: seq<byte>, key: seq<byte>): nat {
    if FirstOf(f, key) < Slots(f) then LookStop(f, key)
    else if VacantOf(f) < Slots(f) then |f|
    else |f| + DESIZE
  }

  /** dirlink fails when a live entry has the name. Otherwise it sets the first free entry, or a new one at the
      end, and changes nothing else in the directory or in any other file; with unique names that adds the
      binding. It panics exactly when i is no directory or is not made of whole entries, when there is no
      space at the end for a new one, or when the holes and the new block need more blocks than are free. */
  method Dirlink(fs: FileSystem, i: nat, name: seq<byte>, inum: nat) returns (r: Outcome)
    requires fs.Valid() && i < fs.sb.ninodes && fs.ino[i].size <= MAXFILE * BSIZE
    modifies fs
    ensures r == Panic || r == Ret(0) || r == Ret(-1)
    ensures old(fs.ino[i].Type()) != T_DIR ==> r == Panic
    ensures old(fs.ino[i].Type()) == T_DIR ==>
              var f := old(Content(fs.blocks, fs.ino[i])); var key, stop := Key(name), LinkStop(f, Key(name));
              && (r == Panic <==>
                    || (FirstOf(f, key) == Slots(f) && |f| % DESIZE != 0)
                    || EndBlock(0, stop) > MAXFILE
                    || old(|FreeBlocks(fs.sb, fs.blocks)|) < Need(old(fs.blocks), old(fs.ino[i]), 0, EndBlock(0, stop)))
              && (r != Panic ==> fs.Valid() && OthersSame(old(fs.blocks), old(fs.ino), fs.blocks, fs.ino, i))
              && (r == Ret(-1) ==> FirstOf(f, key) < Slots(f) && IsDir(fs, i, f))
              && (r == Ret(0) ==> FirstOf(f, key) == Slots(f) && i < |fs.ino| && Linked(f, Content(fs.blocks, fs.ino[i]), key, inum))
  {
    if fs.ino[i].Type() != T_DIR {
      r := Panic;
    } else {
      RoomIsFree(fs.sb, fs.blocks, fs.ino, fs.owner);
      r := LinkIn(fs, i, name, inum, Content(fs.blocks, fs.ino[i]), Here(fs));
    }
  }

  /** The directory after dirlink: an entry set, which adds its binding if names are unique. */
  ghost predicate Linked(f: seq<byte>, f': seq<byte>, key: seq<byte>, inum: nat) {
    && |f'| % DESIZE == 0 && Entries(f') == SetEntry(Entries(f), VacantOf(f), Entry(inum % 0x1_0000, key))
    && (DirOk(f) && 0 < inum < 0x1_0000 ==> key !in Dir(f) && DirOk(f') && Dir(f') == Dir(f)[key := inum])
  }

  method CopyName(name: seq<byte>) returns (padded: seq<byte>)
    ensures |padded| == DIRSIZ && Key(padded) == Key(name)
  {
    var entry := new byte[DIRSIZ](_ => 0);
    Strncpy(entry, name, DIRSIZ);
    PaddedCut(name, DIRSIZ);
    padded := entry[..DIRSIZ];
  }

  lemma IsLinked(f: seq<byte>, f': seq<byte>, key: seq<byte>, inum: nat)
    requires |f| % DESIZE == 0 && |f'| % DESIZE == 0 && Entries(f') == SetEntry(Entries(f), VacantOf(f), Entry(inum % 0x1_0000, key)) && FirstOf(f, key) == Slots(f)
    ensures Linked(f, f', key, inum)
  {
    if DirOk(f) && 0 < inum < 0x1_0000 {
      LookedUp(f, key);
      LinkAdds(f, f', VacantOf(f), inum, key);
    }
  }

  /** dirlink, in a directory. */
  method LinkIn(fs: FileSystem, i: nat, name: seq<byte>, inum: nat, ghost f: seq<byte>, ghost v: View) returns (r: Outcome)
    requires IsDir(fs, i, f) && v == Here(fs)
    modifies fs
    ensures r == Panic || r == Ret(0) || r == Ret(-1)
    ensures r == Panic <==> (FirstOf(f, Key(name)) == Slots(f) && |f| % DESIZE != 0) || Unmet(v, i, LinkStop(f, Key(name)))
    ensures r != Panic ==> fs.Valid() && OthersSame(v.bs, v.ino, fs.blocks, fs.ino, i)
    ensures r == Ret(-1) ==> FirstOf(f, Key(name)) < Slots(f) && IsDir(fs, i, f)
    ensures r == Ret(0) ==> FirstOf(f, Key(name)) == Slots(f) && i < |fs.ino| && Linked(f, Content(fs.blocks, fs.ino[i]), Key(name), inum)
  {
    var found := Scan(fs, i, name, f, v);
    if found == NoBlocks { return Panic; }
    ghost var w := Here(fs);
    ScanEnd(v, Here(fs), i, LookStop(f, Key(name)));
    if found == ShortRead { return Panic; }
    if found != Missing { return Ret(-1); }
    ScannedAll(v, Here(fs), i);
    var ok := AddEntry(fs, i, name, inum, f, v);
    r := if ok then Ret(0) else Panic;
    OthersSameTrans(v.bs, v.ino, w.bs, w.ino, fs.blocks, fs.ino, i);
  }

  /** The end of dirlink, after the scan that did not find the name. */
  method AddEntry(fs: FileSystem, i: nat, name: seq<byte>, inum: nat, ghost f: seq<byte>, ghost v: View) returns (ok: bool)
    requires IsDir(fs, i, f) && NoHoles(fs.blocks, fs.ino[i]) && FirstOf(f, Key(name)) == Slots(f) && |f| % DESIZE == 0
    requires v.Good(i) && v.sb == fs.sb && v.ino[i].size == |f| && Scanned(v, Here(fs), i, |f|) && !Starved(v, i, |f|)
    modifies fs
    ensures ok <==> !Unmet(v, i, LinkStop(f, Key(name)))
    ensures ok ==> fs.Valid() && OthersSame(old(fs.blocks), old(fs.ino), fs.blocks, fs.ino, i)
    ensures ok ==> i < |fs.ino| && Linked(f, Content(fs.blocks, fs.ino[i]), Key(name), inum)
  {
    ghost var f';
    var off := FindFree(fs, i, f);
    var padded := CopyName(name);
    FitsWhere(v, Here(fs), i, f, off, LinkStop(f, Key(name)));
    ok, f' := WriteEntry(fs, i, off, VacantOf(f), inum, padded, f);
    if ok { IsLinked(f, f', Key(name), inum); }
  }

  lemma OthersSameTrans(bs: Blocks, ino: seq<Inode>, bs1: Blocks, ino1: seq<Inode>, bs2: Blocks, ino2: seq<Inode>, i: nat)
    requires OthersSame(bs, ino, bs1, ino1, i)
    ensures OthersSame(bs1, ino1, bs2, ino2, i) ==> OthersSame(bs, ino, bs2, ino2, i)
  {
  }

  /** The first `stop` bytes of the file are more than a file can have, or its holes there more than is free. */
  ghost predicate Unmet(v: View, i: nat, stop: nat)
    requires i < |v.ino|
  {
    EndBlock(0, stop) > MAXFILE || Starved(v, i, stop)
  }

  /** After the scan that finds no entry of the name, the new entry can be written exactly when what dirlink
      needs altogether is free. */
  lemma FitsWhere(v: View, w: View, i: nat, f: seq<byte>, off: nat, stop: nat)
    requires v.Good(i) && w.Good(i) && Scanned(v, w, i, |f|) && !Starved(v, i, |f|) && |f| == w.ino[i].size <= MAXFILE * BSIZE
    requires |f| % DESIZE == 0 && off == DESIZE * VacantOf(f) && NoHoles(w.bs, w.ino[i])
    requires stop == if VacantOf(f) < Slots(f) then |f| else |f| + DESIZE
    ensures CanWrite(w.sb, w.bs, w.ino[i], off) <==> !Unmet(v, i, stop)
  {
    SlotPlace(f, VacantOf(f), off);
    if VacantOf(f) < Slots(f) {
      FitsInside(w, i, off);
      EndsInside(|f|);
    } else if stop <= MAXFILE * BSIZE {
      FitsAtEnd(v, w, i, |f|, stop);
    } else {
      PastLargest(|f|);
    }
  }

  /** Where entry k lies. */
  lemma SlotPlace(f: seq<byte>, k: nat, off: nat)
    requires off == DESIZE * k && k <= Slots(f)
    ensures off <= |f| && (k < Slots(f) ==> off + DESIZE <= |f|) && (k == Slots(f) && |f| % DESIZE == 0 ==> off == |f|)
  {
  }

  lemma EndsInside(n: nat)
    requires n <= MAXFILE * BSIZE
    ensures EndBlock(0, n) <= MAXFILE
  {
  }

  lemma FitsInside(w: View, i: nat, off: nat)
    requires w.Good(i) && NoHoles(w.bs, w.ino[i]) && off + DESIZE <= w.ino[i].size <= MAXFILE * BSIZE
    ensures CanWrite(w.sb, w.bs, w.ino[i], off)
  {
    NeedBelowSize(w.bs, w.ino[i], off, DESIZE);
  }

  lemma FitsAtEnd(v: View, w: View, i: nat, size: nat, next: nat)
    requires v.Good(i) && w.Good(i) && Scanned(v, w, i, size) && next == size + DESIZE <= MAXFILE * BSIZE
    ensures CanWrite(w.sb, w.bs, w.ino[i], size) <==> !Unmet(v, i, next)
  {
    AppendNeeds(v, w, i, size, size / BSIZE, EndBlock(size, DESIZE), next);
    RoomIsFree(w.sb, w.bs, w.ino, w.owner);
  }

  lemma PastLargest(n: nat)
    requires n + DESIZE > MAXFILE * BSIZE
    ensures EndBlock(0, n + DESIZE) > MAXFILE
  {
  }

  /** A live entry is not in a hole. */
  lemma LiveIsThere(bs: Blocks, ip: Inode, f: seq<byte>, k: nat, off: nat)
    requires f == Content(bs, ip) && k < Slots(f) && Entries(f)[k].inum != 0 && off == DESIZE * k
    ensures off / BSIZE < MAXFILE && EndBlock(off, DESIZE) == off / BSIZE + 1 && Need(bs, ip, off / BSIZE, EndBlock(off, DESIZE)) == 0
    ensures off + DESIZE <= MAXFILE * BSIZE
  {
    EntryAt(f, Slots(f), k);
    FirstBytesAt(bs, ip, ip.size, off);
    FirstBytesAt(bs, ip, ip.size, off + 1);
    InOneBlock(k, off);
    NonZeroThere(bs, ip, off, off / BSIZE);
    NonZeroThere(bs, ip, off + 1, off / BSIZE);
    assert Need(bs, ip, off / BSIZE, off / BSIZE) == 0;
  }

  /** No entry straddles two blocks. */
  lemma InOneBlock(k: nat, off: nat)
    requires off == DESIZE * k
    ensures (off + 1) / BSIZE == off / BSIZE && EndBlock(off, DESIZE) == off / BSIZE + 1
    ensures off / BSIZE < MAXFILE ==> off + DESIZE <= MAXFILE * BSIZE
  {
    var q, r := k / 32, k % 32;
    InBlockOf(off, q, DESIZE * r);
    InBlockOf(off + 1, q, DESIZE * r + 1);
    InBlockOf(off + DESIZE - 1, q, DESIZE * r + DESIZE - 1);
  }

  lemma InBlockOf(o: nat, q: nat, r: nat)
    requires o == BSIZE * q + r && r < BSIZE
    ensures o / BSIZE == q
  {
  }

  lemma NonZeroThere(bs: Blocks, ip: Inode, o: nat, bn: nat)
    requires bn == o / BSIZE
    ensures ByteAt(bs, ip, o) != 0 ==> bn < MAXFILE && Mapped(bs, ip, bn)
  {
  }

  /** What unlink does to the directory once it has found the entry at off: the entry is cleared, and with
      unique names its binding goes, and no other. It needs no block, so it never panics. */
  method ClearEntry(fs: FileSystem, i: nat, off: nat, ghost k: nat) returns (r: Outcome)
    requires fs.Valid() && i < fs.sb.ninodes && fs.ino[i].size <= MAXFILE * BSIZE && fs.ino[i].Type() == T_DIR && off == DESIZE * k
    requires k < Slots(Content(fs.blocks, fs.ino[i])) && Entries(Content(fs.blocks, fs.ino[i]))[k].inum != 0
    modifies fs
    ensures r == Ret(0) && fs.Valid() && i < |fs.ino| && OthersSame(old(fs.blocks), old(fs.ino), fs.blocks, fs.ino, i)
    ensures var f, f' := old(Content(fs.blocks, fs.ino[i])), Content(fs.blocks, fs.ino[i]);
            && Entries(f') == SetEntry(Entries(f), k, Entry(0, []))
            && (DirOk(f) ==> DirOk(f') && Dir(f') == Dir(f) - {Entries(f)[k].key})
  {
    ghost var f := Content(fs.blocks, fs.ino[i]);
    LiveIsThere(fs.blocks, fs.ino[i], f, k, off);
    var zeros := Zeros(DIRSIZ);
    var ok;
    ghost var f';
    ok, f' := WriteEntry(fs, i, off, k, 0, zeros, f);
    assert Key(zeros) == [];
    if DirOk(f) { UnlinkRemoves(f, f', k, Entry(0, [])); }
    r := if ok then Ret(0) else Panic;
  }
}
