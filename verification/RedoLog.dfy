/** The physical redo log of log.c as lists of atomic block writes.
    A crash keeps a prefix of the list in progress; recovery is a function of the disk alone. */
module RedoLog {
  import opened Bytes
  import opened Disk

  const MAXOPBLOCKS: nat := 10
  const LOGSIZE: nat := 30    // MAXOPBLOCKS * 3

  /** Where the log lives: block `start` is the header, the next nlog - 1 blocks are log slots. */
  datatype Layout = Layout(start: nat, nlog: nat, size: nat) {
    predicate Ok() {
      2 <= nlog && start + nlog <= size <= 0x1_0000_0000
    }

    predicate InLog(b: nat) {
      start <= b < start + nlog
    }
  }

  /** The block numbers a header may list: they fit the log and name home blocks. */
  predicate GoodBlocks(g: Layout, blocks: seq<uint>) {
    && |blocks| <= LOGSIZE && |blocks| < g.nlog
    && forall i :: 0 <= i < |blocks| ==> blocks[i] < g.size && !g.InLog(blocks[i])
  }

  /** The block numbers that a commit can be followed for: they fit struct logheader, name home blocks, and
      have slots on the disk, though maybe not in the log. */
  predicate Loggable(g: Layout, blocks: seq<uint>) {
    && |blocks| <= LOGSIZE && g.start + |blocks| < g.size
    && forall i :: 0 <= i < |blocks| ==> blocks[i] < g.size && !g.InLog(blocks[i])
  }

  /** The fields of struct logheader: the count and the block numbers. */
  function Count(hdr: Block): uint {
    Word(hdr, 0)
  }

  function Entry(hdr: Block, i: nat): uint
    requires i < LOGSIZE
  {
    Word(hdr, 1 + i)
  }

  /** What read_head takes out of the header block. */
  function HeaderBlocks(hdr: Block): (r: seq<uint>)
    requires Count(hdr) <= LOGSIZE
  {
    seq(Count(hdr), i requires 0 <= i < Count(hdr) => Entry(hdr, i))
  }

  /** What write_head stores in the header block: the count and that many entries,
      leaving the rest of the block as it was. */
  function EncodeHeader(hdr: Block, blocks: seq<uint>): (r: Block)
    requires |blocks| <= LOGSIZE
    ensures Count(r) == |blocks|
    ensures forall i: nat :: i < LOGSIZE ==> Entry(r, i) == if i < |blocks| then blocks[i] else Entry(hdr, i)
  {
    EncodeEntries(SetWord(hdr, 0, |blocks|), blocks, |blocks|)
  }

  function EncodeEntries(hdr: Block, blocks: seq<uint>, k: nat): (r: Block)
    requires k <= |blocks| <= LOGSIZE
    ensures forall i: nat :: i < NWORDS ==> Word(r, i) == if 1 <= i <= k then blocks[i - 1] else Word(hdr, i)
  {
    if k == 0 then hdr else SetWord(EncodeEntries(hdr, blocks, k - 1), k, blocks[k - 1])
  }

  /** The header block reads back as what was stored in it. */
  lemma HeaderRoundTrip(hdr: Block, blocks: seq<uint>)
    requires |blocks| <= LOGSIZE
    ensures HeaderBlocks(EncodeHeader(hdr, blocks)) == blocks
  {
  }

  /** A disk that recovery accepts. */
  predicate WellFormed(g: Layout, d: Disk) {
    && g.Ok() && |d| == g.size
    && Count(d[g.start]) <= LOGSIZE && Count(d[g.start]) < g.nlog
    && forall i :: 0 <= i < Count(d[g.start]) ==> Entry(d[g.start], i) < g.size && !g.InLog(Entry(d[g.start], i))
  }

  /** recover_from_log: install_trans copies slot i to the i-th block the header lists,
      then write_head clears the header. */
  function RecoverWrites(g: Layout, d: Disk): (ws: seq<Write>)
    requires WellFormed(g, d)
    ensures Fits(g.size, ws) && |ws| == Count(d[g.start]) + 1
  {
    var h := d[g.start];
    var n := Count(h);
    seq(n + 1, i requires 0 <= i <= n =>
      if i < n then Write(Entry(h, i), d[g.start + 1 + i]) else Write(g.start, EncodeHeader(h, [])))
  }

  function Recovered(g: Layout, d: Disk): (r: Disk)
    requires WellFormed(g, d)
    ensures |r| == g.size
  {
    Apply(d, RecoverWrites(g, d))
  }

  /** commit of the logged blocks lh, hdr being the header block before it: write_log copies each
      cached block to its slot, write_head lists them, install_trans copies them home, and a second
      write_head clears the list. */
  function CommitWrites(g: Layout, hdr: Block, lh: seq<uint>, view: Disk): (ws: seq<Write>)
    requires g.Ok() && |view| == g.size && Loggable(g, lh)
    ensures Fits(g.size, ws) && |ws| == 2 * |lh| + 2
  {
    var n := |lh|;
    seq(2 * n + 2, i requires 0 <= i <= 2 * n + 1 =>
      if i < n then Write(g.start + 1 + i, view[lh[i]])
      else if i == n then Write(g.start, EncodeHeader(hdr, lh))
      else if i <= 2 * n then Write(lh[i - n - 1], view[lh[i - n - 1]])
      else Write(g.start, EncodeHeader(EncodeHeader(hdr, lh), [])))
  }

  function ViewBlocks(lh: seq<uint>, view: Disk): (r: seq<Block>)
    requires forall i :: 0 <= i < |lh| ==> lh[i] < |view|
    ensures |r| == |lh|
  {
    seq(|lh|, i requires 0 <= i < |lh| => view[lh[i]])
  }

  /** Equal outside the log region. */
  ghost predicate SameHome(g: Layout, d: Disk, e: Disk) {
    |d| == |e| && forall b: nat :: b < |d| && !g.InLog(b) ==> d[b] == e[b]
  }

  /** One of the first k logged blocks is b. */
  predicate Lists(lh: seq<uint>, k: nat, b: nat)
    requires k <= |lh|
  {
    exists i :: 0 <= i < k && lh[i] == b
  }

  /** The home blocks of d with the logged blocks replaced by their cached contents. */
  function Overlay(d: Disk, lh: seq<uint>, view: Disk): (r: Disk)
    requires |d| == |view|
    ensures |r| == |d|
  {
    seq(|d|, b requires 0 <= b < |d| => if Lists(lh, |lh|, b) then view[b] else d[b])
  }

  // ---------------------------------------------------------------- recovery

  /** Installing touches nothing in the log region. */
  lemma {:induction false} InstallKeepsLog(g: Layout, d: Disk, k: nat, b: nat)
    requires WellFormed(g, d) && k < |RecoverWrites(g, d)| && b < g.size && g.InLog(b)
    ensures After(d, RecoverWrites(g, d), k)[b] == d[b]
  {
    var ws := RecoverWrites(g, d);
    AfterUntouched(d, ws, k, b);
  }

  lemma RecoverShape(g: Layout, d: Disk, k: nat)
    requires WellFormed(g, d) && k < |RecoverWrites(g, d)|
    ensures var e := After(d, RecoverWrites(g, d), k);
            && e[g.start] == d[g.start]
            && WellFormed(g, e) && RecoverWrites(g, e) == RecoverWrites(g, d)
  {
    var e := After(d, RecoverWrites(g, d), k);
    forall b: nat | b < g.size && g.InLog(b) ensures e[b] == d[b] {
      InstallKeepsLog(g, d, k, b);
    }
  }

  /** Recovery interrupted after any number of its writes still recovers to the same disk. */
  lemma RecoveryCrash(g: Layout, d: Disk, k: nat)
    requires WellFormed(g, d) && k <= |RecoverWrites(g, d)|
    ensures var e := After(d, RecoverWrites(g, d), k);
            WellFormed(g, e) && Recovered(g, e) == Recovered(g, d)
  {
    var ws := RecoverWrites(g, d);
    if k < |ws| {
      RecoverShape(g, d, k);
      Replay(d, ws, k);
    } else {
      RecoveredIsClean(g, d);
      RecoverClean(g, Recovered(g, d));
    }
  }

  /** After recovery the header lists nothing and is a fixed point of clearing. */
  lemma RecoveredIsClean(g: Layout, d: Disk)
    requires WellFormed(g, d)
    ensures var e := Recovered(g, d); WellFormed(g, e) && Count(e[g.start]) == 0 && EncodeHeader(e[g.start], []) == e[g.start]
  {
    var h := d[g.start];
    assert Recovered(g, d)[g.start] == EncodeHeader(h, []) == SetWord(h, 0, 0);
    assert SetWord(SetWord(h, 0, 0), 0, 0) == SetWord(h, 0, 0);
  }

  /** With an empty header, recovery leaves every home block alone. */
  lemma RecoverClean(g: Layout, d: Disk)
    requires WellFormed(g, d) && Count(d[g.start]) == 0
    ensures SameHome(g, Recovered(g, d), d)
    ensures EncodeHeader(d[g.start], []) == d[g.start] ==> Recovered(g, d) == d
  {
    assert After(d, RecoverWrites(g, d), 0) == d;
    assert Recovered(g, d) == d[g.start := EncodeHeader(d[g.start], [])];
  }

  /** Boot again and again, each attempt at recovery cut short after crashes[i] writes. */
  function AfterCrashes(g: Layout, d: Disk, crashes: seq<nat>): (r: Disk)
    requires WellFormed(g, d)
    ensures WellFormed(g, r)
    decreases |crashes|
  {
    if crashes == [] then d
    else
      var ws := RecoverWrites(g, d);
      var k := if crashes[0] <= |ws| then crashes[0] else |ws|;
      RecoveryCrash(g, d, k);
      AfterCrashes(g, After(d, ws, k), crashes[1..])
  }

  /** Any number of crashes inside recovery do not change what recovery finally gives. */
  lemma {:induction false} RepeatedCrashes(g: Layout, d: Disk, crashes: seq<nat>)
    requires WellFormed(g, d)
    ensures Recovered(g, AfterCrashes(g, d, crashes)) == Recovered(g, d)
    decreases |crashes|
  {
    if crashes != [] {
      var ws := RecoverWrites(g, d);
      var k := if crashes[0] <= |ws| then crashes[0] else |ws|;
      RecoveryCrash(g, d, k);
      RepeatedCrashes(g, After(d, ws, k), crashes[1..]);
    }
  }

  // ---------------------------------------------------------------- commit

  /** The disk is well formed and its header lists nothing. */
  ghost predicate CleanDisk(g: Layout, d: Disk) {
    WellFormed(g, d) && Count(d[g.start]) == 0
  }

  /** A commit can start: these blocks, with these cached contents, on this disk. */
  ghost predicate CanCommit(g: Layout, d: Disk, lh: seq<uint>, view: Disk) {
    CleanDisk(g, d) && |view| == g.size && GoodBlocks(g, lh)
  }

  /** Before the header is written a commit only fills log slots. */
  lemma {:induction false} CommitBeforeHeader(g: Layout, d: Disk, lh: seq<uint>, view: Disk, k: nat)
    requires CanCommit(g, d, lh, view) && k <= |lh|
    ensures var e := After(d, CommitWrites(g, d[g.start], lh, view), k);
            && e[g.start] == d[g.start] && SameHome(g, e, d)
            && (forall i :: 0 <= i < k ==> e[g.start + 1 + i] == view[lh[i]])
  {
    if k > 0 {
      CommitBeforeHeader(g, d, lh, view, k - 1);
    }
  }

  lemma {:induction false} InstallAt(d: Disk, lh: seq<uint>, view: Disk, ws: seq<Write>, k: nat, b: nat)
    requires |view| == |d| && Fits(|d|, ws) && k <= |lh| <= |ws| && b < |d|
    requires forall i :: 0 <= i < |lh| ==> lh[i] < |d| && ws[i] == Write(lh[i], view[lh[i]])
    ensures After(d, ws, k)[b] == if Lists(lh, k, b) then view[b] else d[b]
  {
    if k > 0 {
      InstallAt(d, lh, view, ws, k - 1, b);
      assert Lists(lh, k, b) <==> Lists(lh, k - 1, b) || lh[k - 1] == b;
    }
  }

  /** The header and the slots of a disk hold a committed group. */
  ghost predicate Committed(g: Layout, e: Disk, lh: seq<uint>, view: Disk) {
    && WellFormed(g, e) && |view| == g.size && GoodBlocks(g, lh)
    && Count(e[g.start]) == |lh|
    && forall i :: 0 <= i < |lh| ==> Entry(e[g.start], i) == lh[i] && e[g.start + 1 + i] == view[lh[i]]
  }

  /** What recovery makes of a committed header: the logged blocks are new, the others as before. */
  lemma RecoverCommitted(g: Layout, e: Disk, lh: seq<uint>, view: Disk)
    requires Committed(g, e, lh, view)
    ensures SameHome(g, Recovered(g, e), Overlay(e, lh, view))
  {
    var ws := RecoverWrites(g, e);
    var o := Overlay(e, lh, view);
    forall b: nat | b < g.size && !g.InLog(b) ensures Recovered(g, e)[b] == o[b] {
      InstallAt(e, lh, view, ws, |lh|, b);
    }
  }

  /** The header write commits the group without touching a home block. */
  lemma CommitPoint(g: Layout, d: Disk, lh: seq<uint>, view: Disk)
    requires CanCommit(g, d, lh, view)
    ensures var e := After(d, CommitWrites(g, d[g.start], lh, view), |lh| + 1);
            Committed(g, e, lh, view) && e[g.start] == EncodeHeader(d[g.start], lh) && SameHome(g, e, d)
  {
    CommitBeforeHeader(g, d, lh, view, |lh|);
    var e0 := After(d, CommitWrites(g, d[g.start], lh, view), |lh|);
    HeaderKeepsRest(g, e0, EncodeHeader(d[g.start], lh), lh, view);
  }

  lemma HeaderKeepsRest(g: Layout, e0: Disk, h: Block, lh: seq<uint>, view: Disk)
    requires g.Ok() && |e0| == |view| == g.size && GoodBlocks(g, lh)
    requires Count(h) == |lh| && forall i :: 0 <= i < |lh| ==> Entry(h, i) == lh[i]
    requires forall i :: 0 <= i < |lh| ==> e0[g.start + 1 + i] == view[lh[i]]
    ensures Committed(g, e0[g.start := h], lh, view) && SameHome(g, e0[g.start := h], e0)
  {
  }

  /** Once the header is written, what is left of the commit is exactly a recovery. */
  lemma CommitTailIsRecovery(g: Layout, d: Disk, lh: seq<uint>, view: Disk)
    requires CanCommit(g, d, lh, view)
    ensures var ws := CommitWrites(g, d[g.start], lh, view);
            var e := After(d, ws, |lh| + 1);
            WellFormed(g, e) && RecoverWrites(g, e) == ws[|lh| + 1..]
  {
    CommitPoint(g, d, lh, view);
    var e := After(d, CommitWrites(g, d[g.start], lh, view), |lh| + 1);
    TailAgrees(g, d, e, lh, view);
  }

  lemma TailAgrees(g: Layout, d: Disk, e: Disk, lh: seq<uint>, view: Disk)
    requires CanCommit(g, d, lh, view) && Committed(g, e, lh, view) && e[g.start] == EncodeHeader(d[g.start], lh)
    ensures RecoverWrites(g, e) == CommitWrites(g, d[g.start], lh, view)[|lh| + 1..]
  {
    var r, c := RecoverWrites(g, e), CommitWrites(g, d[g.start], lh, view);
    forall i | 0 <= i <= |lh| ensures r[i] == c[|lh| + 1 + i] {
    }
  }

  lemma CommittedHome(g: Layout, d: Disk, lh: seq<uint>, view: Disk)
    requires CanCommit(g, d, lh, view)
    ensures var e := After(d, CommitWrites(g, d[g.start], lh, view), |lh| + 1);
            WellFormed(g, e) && SameHome(g, Recovered(g, e), Overlay(d, lh, view))
  {
    CommitPoint(g, d, lh, view);
    var e := After(d, CommitWrites(g, d[g.start], lh, view), |lh| + 1);
    RecoverCommitted(g, e, lh, view);
  }

  /** Once what is left of a list of writes is exactly a recovery, cutting it short anywhere is harmless. */
  lemma CutTail(g: Layout, d: Disk, ws: seq<Write>, m: nat, k: nat, i: nat, e: Disk, tail: seq<Write>, home: Disk)
    requires Fits(|d|, ws) && m <= k <= |ws| && i == k - m && e == After(d, ws, m) && tail == ws[m..]
    requires WellFormed(g, e) && RecoverWrites(g, e) == tail && SameHome(g, Recovered(g, e), home)
    ensures WellFormed(g, After(d, ws, k)) && SameHome(g, Recovered(g, After(d, ws, k)), home)
  {
    AfterTail(d, ws, m, k);
    CutRecovery(g, e, tail, i, After(d, ws, k), home);
  }

  lemma CutRecovery(g: Layout, d: Disk, ws: seq<Write>, k: nat, e: Disk, home: Disk)
    requires WellFormed(g, d) && ws == RecoverWrites(g, d) && k <= |ws| && e == After(d, ws, k) && SameHome(g, Recovered(g, d), home)
    ensures WellFormed(g, e) && SameHome(g, Recovered(g, e), home)
  {
    RecoveryCrash(g, d, k);
  }

  lemma CommitAfterHeader(g: Layout, d: Disk, lh: seq<uint>, view: Disk, k: nat)
    requires CanCommit(g, d, lh, view) && |lh| < k <= 2 * |lh| + 2
    ensures var e := After(d, CommitWrites(g, d[g.start], lh, view), k);
            WellFormed(g, e) && SameHome(g, Recovered(g, e), Overlay(d, lh, view))
  {
    CommittedHome(g, d, lh, view);
    CommitTailIsRecovery(g, d, lh, view);
    var ws, m := CommitWrites(g, d[g.start], lh, view), |lh| + 1;
    CutTail(g, d, ws, m, k, k - m, After(d, ws, m), ws[m..], Overlay(d, lh, view));
  }

  /** A finished commit leaves a clear header. */
  lemma CommitClears(g: Layout, d: Disk, lh: seq<uint>, view: Disk)
    requires CanCommit(g, d, lh, view)
    ensures CleanDisk(g, Apply(d, CommitWrites(g, d[g.start], lh, view)))
  {
    var ws := CommitWrites(g, d[g.start], lh, view);
    assert Apply(d, ws)[g.start] == ws[2 * |lh| + 1].data == EncodeHeader(EncodeHeader(d[g.start], lh), []);
  }

  /** What recovery makes of a commit cut short after k writes. */
  lemma CommitMeaning(g: Layout, d: Disk, lh: seq<uint>, view: Disk, k: nat)
    requires CanCommit(g, d, lh, view) && k <= 2 * |lh| + 2
    ensures var e := After(d, CommitWrites(g, d[g.start], lh, view), k);
            && WellFormed(g, e)
            && SameHome(g, Recovered(g, e), if k <= |lh| then d else Overlay(d, lh, view))
  {
    if k <= |lh| {
      CommitBeforeHeader(g, d, lh, view, k);
      RecoverClean(g, After(d, CommitWrites(g, d[g.start], lh, view), k));
    } else {
      CommitAfterHeader(g, d, lh, view, k);
    }
  }

  /** Crash atomicity. A commit of the logged blocks lh is cut short after any k of its block
      writes, and recovery is itself cut short any number of times. The recovered home blocks are
      then all old when the header write had not happened, and all new from that write on. */
  lemma CrashAtomicity(g: Layout, d: Disk, lh: seq<uint>, view: Disk, k: nat, crashes: seq<nat>)
    requires CanCommit(g, d, lh, view) && k <= |CommitWrites(g, d[g.start], lh, view)|
    ensures var e := After(d, CommitWrites(g, d[g.start], lh, view), k);
            && WellFormed(g, e)
            && var r := Recovered(g, AfterCrashes(g, e, crashes));
               && SameHome(g, r, if k <= |lh| then d else Overlay(d, lh, view))
               && Count(r[g.start]) == 0
  {
    CommitMeaning(g, d, lh, view, k);
    var e := After(d, CommitWrites(g, d[g.start], lh, view), k);
    RepeatedCrashes(g, e, crashes);
    RecoveredIsClean(g, e);
  }
}
