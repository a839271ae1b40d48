/** The file system on top of the log: what the log_writes of whole operations, made one operation after the
    other, leave on the disk after a crash. */
module Journal {
  import opened Common
  import opened Bytes
  import opened Disk
  import opened RedoLog
  import opened GroupCommit
  import opened FsModel
  import opened FsData
  import opened FsRoom
  import LogBudget
  import Fs

  // ---------------------------------------------------------------- one operation after the other

  /** The first k log_writes of a history are made one operation after the other, in the order in which these
      began. */
  ghost predicate Serial(evs: seq<Event>, k: nat) {
    k <= |evs| && forall i, j :: 0 <= i < j < k ==> evs[i].op <= evs[j].op
  }

  /** How many of the first k log_writes belong to operations before o. */
  function Before(evs: seq<Event>, k: nat, o: nat): (r: nat)
    requires k <= |evs|
    ensures r <= k
  {
    if k == 0 then 0 else Before(evs, k - 1, o) + if evs[k - 1].op < o then 1 else 0
  }

  lemma {:induction false} BeforeGrows(evs: seq<Event>, k: nat, o: nat)
    requires k <= |evs|
    ensures Before(evs, k, o) <= Before(evs, k, o + 1)
  {
    if k > 0 { BeforeGrows(evs, k - 1, o); }
  }

  /** They come first. */
  lemma {:induction false} BeforeIsFirst(evs: seq<Event>, k: nat, o: nat)
    requires Serial(evs, k)
    ensures forall i :: 0 <= i < k ==> (evs[i].op < o <==> i < Before(evs, k, o))
  {
    if k > 0 { BeforeIsFirst(evs, k - 1, o); }
  }

  lemma {:induction false} OfOpRange(evs: seq<Event>, m: nat, j: nat, o: nat)
    requires m <= j <= |evs| && (forall i :: 0 <= i < m ==> evs[i].op != o) && (forall i :: m <= i < j ==> evs[i].op == o)
    ensures OfOp(evs, j, o) == evs[m..j]
    decreases j
  {
    if j == m {
      OfOpNone(evs, 0, m, o);
    } else {
      OfOpRange(evs, m, j - 1, o);
      assert evs[m..j] == evs[m..j - 1] + [evs[j - 1]];
    }
  }

  /** The log_writes of operation o are those between the ones before it and the ones up to it. */
  lemma Segment(evs: seq<Event>, k: nat, o: nat)
    requires Serial(evs, k)
    ensures Before(evs, k, o) <= Before(evs, k, o + 1) && OfOp(evs, k, o) == evs[Before(evs, k, o)..Before(evs, k, o + 1)]
  {
    var m, n := Before(evs, k, o), Before(evs, k, o + 1);
    BeforeIsFirst(evs, k, o);
    BeforeIsFirst(evs, k, o + 1);
    BeforeGrows(evs, k, o);
    OfOpRange(evs, m, n, o);
    OfOpNone(evs, n, k, o);
  }

  lemma EffectSegment(base: Disk, evs: seq<Event>, k: nat, o: nat, m: nat, n: nat)
    requires Serial(evs, k) && Fits(|base|, Writes(evs)) && m == Before(evs, k, o) && n == Before(evs, k, o + 1)
    ensures Fits(|base|, Writes(OfOp(evs, k, o))) && m <= n
    ensures Effect(base, evs, n) == Apply(Effect(base, evs, m), Writes(OfOp(evs, k, o)))
  {
    Segment(evs, k, o);
    var ws, tail := Writes(evs), Writes(OfOp(evs, k, o));
    forall i | 0 <= i < |tail| ensures tail[i] == ws[m + i] {
    }
    AfterSplit(base, ws, m, tail, n - m);
  }

  // ---------------------------------------------------------------- what whole operations do

  /** The operations with a durable log_write, and nothing for the others. */
  ghost function Durable(ops: seq<seq<Write>>, evs: seq<Event>, cut: nat): (r: seq<seq<Write>>)
    requires cut <= |evs|
    ensures |r| == |ops| && forall o :: 0 <= o < |ops| ==> r[o] == if OfOp(evs, cut, o) != [] then ops[o] else []
  {
    seq(|ops|, o requires 0 <= o < |ops| => if OfOp(evs, cut, o) != [] then ops[o] else [])
  }

  /** Each operation with a log_write among the first `cut` has all of its own there. */
  ghost predicate WholeIn(ops: seq<seq<Write>>, evs: seq<Event>, cut: nat) {
    cut <= |evs| && forall o {:trigger OfOp(evs, cut, o)} :: 0 <= o && OfOp(evs, cut, o) != [] ==> o < |ops| && Writes(OfOp(evs, cut, o)) == ops[o]
  }

  lemma DurableFits(base: Disk, ops: seq<seq<Write>>, evs: seq<Event>, cut: nat)
    requires Serial(evs, cut) && Fits(|base|, Writes(evs)) && WholeIn(ops, evs, cut)
    ensures forall o :: 0 <= o < |ops| ==> Fits(|base|, Durable(ops, evs, cut)[o])
  {
    var picked := Durable(ops, evs, cut);
    forall o: nat | o < |ops| ensures Fits(|base|, picked[o]) {
      if OfOp(evs, cut, o) != [] { EffectSegment(base, evs, cut, o, Before(evs, cut, o), Before(evs, cut, o + 1)); }
    }
  }

  /** The log_writes of the operations before o leave what these operations, each whole, leave. */
  lemma {:induction false} EffectIsOps(base: Disk, ops: seq<seq<Write>>, evs: seq<Event>, cut: nat, o: nat)
    requires Serial(evs, cut) && Fits(|base|, Writes(evs)) && WholeIn(ops, evs, cut) && o <= |ops|
    ensures forall j :: 0 <= j < |ops| ==> Fits(|base|, Durable(ops, evs, cut)[j])
    ensures Effect(base, evs, Before(evs, cut, o)) == AfterOps(base, Durable(ops, evs, cut), o)
  {
    DurableFits(base, ops, evs, cut);
    if o == 0 {
      NoneBefore(evs, cut);
    } else {
      var last := o - 1;
      EffectIsOps(base, ops, evs, cut, last);
      PickedIs(ops, evs, cut, last);
      EffectNext(base, evs, cut, Durable(ops, evs, cut), last, o);
    }
  }

  lemma EffectNext(base: Disk, evs: seq<Event>, cut: nat, picked: seq<seq<Write>>, last: nat, o: nat)
    requires Serial(evs, cut) && Fits(|base|, Writes(evs)) && o == last + 1 <= |picked| && (forall j :: 0 <= j < |picked| ==> Fits(|base|, picked[j]))
    requires Effect(base, evs, Before(evs, cut, last)) == AfterOps(base, picked, last) && picked[last] == Writes(OfOp(evs, cut, last))
    ensures Effect(base, evs, Before(evs, cut, o)) == AfterOps(base, picked, o)
  {
    EffectSegment(base, evs, cut, last, Before(evs, cut, last), Before(evs, cut, o));
  }

  lemma PickedIs(ops: seq<seq<Write>>, evs: seq<Event>, cut: nat, o: nat)
    requires WholeIn(ops, evs, cut) && o < |ops|
    ensures Durable(ops, evs, cut)[o] == Writes(OfOp(evs, cut, o))
  {
    assert Writes([]) == [];
  }

  lemma {:induction false} NoneBefore(evs: seq<Event>, k: nat)
    requires k <= |evs|
    ensures Before(evs, k, 0) == 0
  {
    if k > 0 { NoneBefore(evs, k - 1); }
  }

  lemma {:induction false} AllBefore(evs: seq<Event>, k: nat, o: nat)
    requires k <= |evs| && forall i :: 0 <= i < k ==> evs[i].op < o
    ensures Before(evs, k, o) == k
  {
    if k > 0 { AllBefore(evs, k - 1, o); }
  }

  // ---------------------------------------------------------------- runs of whole operations

  /** Operation number o makes the log_writes ops[o], all of them by the time it ends. */
  ghost predicate Follows(states: seq<State>, steps: seq<Step>, ops: seq<seq<Write>>) {
    |states| == |steps| + 1 && forall i :: 0 <= i < |steps| && steps[i].EndOp? ==> Complete(states[i].all, ops, steps[i].op)
  }

  ghost predicate Complete(all: seq<Event>, ops: seq<seq<Write>>, o: nat) {
    o < |ops| && Writes(OfOp(all, |all|, o)) == ops[o]
  }

  /** An operation with a log_write that is not lost is open or complete; those that are open began after
      every durable one. */
  ghost predicate Orderly(s: State, ops: seq<seq<Write>>) {
    && s.cut <= |s.hist|
    && (forall i :: 0 <= i < |s.hist| && s.hist[i].op !in s.wrote ==> Complete(s.all, ops, s.hist[i].op))
    && (forall i, op :: 0 <= i < s.cut && op in s.wrote ==> s.hist[i].op < op)
  }

  /** What these proofs need of the invariant of group commit. */
  ghost predicate Numbered(s: State) {
    && s.cut <= |s.hist| && (forall i :: 0 <= i < |s.hist| ==> s.hist[i].op < s.nextOp)
    && (forall i :: 0 <= i < s.cut ==> s.hist[i].op !in s.wrote)
    && (forall i, j :: 0 <= i < s.cut <= j < |s.hist| ==> s.hist[i].op != s.hist[j].op)
    && (s.mode.Up? && s.mode.committing ==> s.wrote == map[])
  }

  lemma InvNumbers(s: State)
    requires Inv(s)
    ensures Numbered(s) && Fits(|s.base|, Writes(s.hist))
  {
  }

  lemma CompleteStays(all: seq<Event>, ops: seq<seq<Write>>, o: nat, e: Event)
    requires Complete(all, ops, o) && e.op != o
    ensures Complete(all + [e], ops, o)
  {
    OfOpAgree(all, all + [e], |all|, o);
  }

  lemma AppendOrderly(s: State, op: nat, bno: uint, data: Block, ops: seq<seq<Write>>)
    requires Orderly(s, ops) && Enabled(s, LogAppend(op, bno, data))
    ensures Orderly(DoAppend(s, op, bno, data), ops)
  {
    var t, e := DoAppend(s, op, bno, data), Event(op, bno, data);
    if t.mode.Up? {
      assert t.wrote.Keys == s.wrote.Keys + {op};
      forall i | 0 <= i < |t.hist| && t.hist[i].op !in t.wrote ensures Complete(t.all, ops, t.hist[i].op) {
        assert t.hist[i] == s.hist[i];
        CompleteStays(s.all, ops, s.hist[i].op, e);
      }
    }
  }

  lemma EndOrderly(s: State, op: nat, ops: seq<seq<Write>>)
    requires Orderly(s, ops) && s.mode.Up? && op in s.wrote && Complete(s.all, ops, op)
    ensures Orderly(DoEnd(s, op), ops)
  {
    var t := DoEnd(s, op);
    assert t.hist == s.hist && t.all == s.all && t.cut == s.cut && forall o :: o in t.wrote ==> o in s.wrote;
    assert forall o :: o in s.wrote && o !in t.wrote ==> o == op;
  }

  lemma StepOrderly(s: State, e: Step, ops: seq<seq<Write>>)
    requires Numbered(s) && Orderly(s, ops) && Enabled(s, e) && (e.EndOp? ==> Complete(s.all, ops, e.op))
    ensures Orderly(Do(s, e), ops)
  {
    match e
    case LogAppend(op, bno, data) => AppendOrderly(s, op, bno, data, ops);
    case EndOp(op) => EndOrderly(s, op, ops);
    case _ =>
  }

  lemma {:induction false} RunOrderly(states: seq<State>, steps: seq<Step>, ops: seq<seq<Write>>, k: nat)
    requires SafeRun(states, steps) && Follows(states, steps, ops) && k < |states|
    ensures Inv(states[k]) && Orderly(states[k], ops)
  {
    RunInv(states, steps, k);
    if k > 0 {
      var before := k - 1;
      RunOrderly(states, steps, ops, before);
      assert states[k] == Do(states[before], steps[before]);
      InvNumbers(states[before]);
      StepOrderly(states[before], steps[before], ops);
    }
  }

  lemma DurableIsWhole(s: State, ops: seq<seq<Write>>)
    requires Inv(s) && Orderly(s, ops)
    ensures WholeIn(ops, s.hist, s.cut)
  {
    forall o: nat | OfOp(s.hist, s.cut, o) != [] ensures o < |ops| && Writes(OfOp(s.hist, s.cut, o)) == ops[o] {
      OfOpSome(s.hist, s.cut, o);
      WholeOp(s.nextOp, s.wrote.Keys, s.all, s.hist, s.cut, o);
    }
  }

  /** Operations are atomic on disk. Wherever such a run stops, and however often recovery is then cut short, the
      recovered home blocks are the base disk after exactly the durable operations, each with all of its
      log_writes, one after the other. */
  lemma RecoveredIsOps(states: seq<State>, steps: seq<Step>, ops: seq<seq<Write>>, k: nat, crashes: seq<nat>)
    requires SafeRun(states, steps) && Follows(states, steps, ops) && k < |states| && Serial(states[k].hist, states[k].cut)
    ensures var s := states[k]; var picked := Durable(ops, s.hist, s.cut);
            && WellFormed(s.g, s.disk) && (forall o :: 0 <= o < |ops| ==> Fits(|s.base|, picked[o]))
            && SameHome(s.g, Recovered(s.g, AfterCrashes(s.g, s.disk, crashes)), AfterOps(s.base, picked, |ops|))
  {
    var s := states[k];
    RunOrderly(states, steps, ops, k);
    GroupCommitAtomic(states, steps, k, crashes, 0);
    DurableIsWhole(s, ops);
    EffectIsOps(s.base, ops, s.hist, s.cut, |ops|);
    forall i | 0 <= i < s.cut ensures s.hist[i].op < |ops| {
      OfOpSome(s.hist, s.cut, s.hist[i].op);
    }
    AllBefore(s.hist, s.cut, |ops|);
  }

  // ---------------------------------------------------------------- what every operation keeps, a crash keeps

  /** The blocks once the operations before o are done. */
  function Upto(s: State, o: nat): (r: Disk)
    requires Fits(|s.base|, Writes(s.hist))
  {
    Effect(s.base, s.hist, Before(s.hist, |s.hist|, o))
  }

  /** Each operation that is over took good blocks to good blocks. */
  ghost predicate Keeps(s: State, good: Disk -> bool)
    requires Fits(|s.base|, Writes(s.hist))
  {
    forall o: nat {:trigger Upto(s, o)} :: o < s.nextOp && o !in s.wrote && good(Upto(s, o)) ==> good(Upto(s, o + 1))
  }

  lemma {:induction false} GoodUpto(s: State, good: Disk -> bool, o: nat)
    requires Fits(|s.base|, Writes(s.hist)) && Keeps(s, good) && good(s.base) && o <= s.nextOp && forall op :: 0 <= op < o ==> op !in s.wrote
    ensures good(Upto(s, o))
  {
    if o == 0 {
      NoneBefore(s.hist, |s.hist|);
    } else {
      GoodUpto(s, good, o - 1);
      assert good(Upto(s, o - 1));
    }
  }

  /** The durable log_writes are those of the operations up to the last durable one. */
  lemma CutIsUpto(s: State)
    requires Numbered(s) && Serial(s.hist, |s.hist|) && s.cut > 0
    ensures Before(s.hist, |s.hist|, s.hist[s.cut - 1].op + 1) == s.cut
  {
    var o, n := s.hist[s.cut - 1].op, Before(s.hist, |s.hist|, s.hist[s.cut - 1].op + 1);
    BeforeIsFirst(s.hist, |s.hist|, o + 1);
    assert s.cut - 1 < n;
    if s.cut < |s.hist| { assert s.hist[s.cut].op != o; }
  }

  /** So what holds of the base disk, and is kept by every operation that is over, holds of the recovered home
      blocks, whatever was lost. */
  lemma RecoveredIsGood(states: seq<State>, steps: seq<Step>, ops: seq<seq<Write>>, k: nat, crashes: seq<nat>, good: Disk -> bool) returns (d: Disk)
    requires SafeRun(states, steps) && Follows(states, steps, ops) && k < |states| && Serial(states[k].hist, |states[k].hist|)
    requires Fits(|states[k].base|, Writes(states[k].hist)) && Keeps(states[k], good) && good(states[k].base)
    ensures var s := states[k]; good(d) && WellFormed(s.g, s.disk) && SameHome(s.g, Recovered(s.g, AfterCrashes(s.g, s.disk, crashes)), d)
  {
    var s := states[k];
    RunOrderly(states, steps, ops, k);
    GroupCommitAtomic(states, steps, k, crashes, 0);
    d := Effect(s.base, s.hist, s.cut);
    InvNumbers(s);
    GoodCut(s, ops, good);
  }

  lemma GoodCut(s: State, ops: seq<seq<Write>>, good: Disk -> bool)
    requires Numbered(s) && Orderly(s, ops) && Serial(s.hist, |s.hist|) && Fits(|s.base|, Writes(s.hist)) && Keeps(s, good) && good(s.base)
    ensures good(Effect(s.base, s.hist, s.cut))
  {
    if s.cut > 0 {
      CutIsUpto(s);
      GoodUpto(s, good, s.hist[s.cut - 1].op + 1);
    }
  }

  // ---------------------------------------------------------------- the log is not part of the file system

  /** The log lies before the inode blocks. */
  ghost predicate Apart(g: Layout, sb: Super) {
    g.start + g.nlog <= sb.inodestart && g.size == sb.size
  }

  lemma SameInodes(g: Layout, sb: Super, d: Blocks, e: Blocks)
    requires sb.Ok() && |d| == |e| == sb.size && Apart(g, sb) && SameHome(g, d, e)
    ensures Inodes(sb, e) == Inodes(sb, d)
  {
    forall j: nat | j < sb.ninodes ensures Inodes(sb, e)[j] == Inodes(sb, d)[j] {
      LayoutFacts(sb, 0, j);
      assert Synced(sb, d, Inodes(sb, d)[j], j) && Synced(sb, e, Inodes(sb, e)[j], j);
    }
  }

  lemma SameAddrs(g: Layout, sb: Super, d: Blocks, e: Blocks, ino: seq<Inode>, owner: Owner)
    requires FsInv(sb, d, ino, owner) && |e| == |d| && Apart(g, sb) && SameHome(g, d, e)
    ensures forall j, k :: 0 <= j < |ino| && 0 <= k < NSLOTS ==> Addr(e, ino[j], k) == Addr(d, ino[j], k)
  {
    LayoutFacts(sb, 0, 0);
    forall j, k | 0 <= j < |ino| && 0 <= k < NSLOTS ensures Addr(e, ino[j], k) == Addr(d, ino[j], k) {
      OwnedIsData(sb, d, ino, owner, 0, 0, j, NDIRECT);
      assert Addr(d, ino[j], NDIRECT) == ino[j].addrs[NDIRECT];
    }
  }

  lemma SameInv(g: Layout, sb: Super, d: Blocks, e: Blocks, ino: seq<Inode>, owner: Owner)
    requires FsInv(sb, d, ino, owner) && |e| == |d| && Apart(g, sb) && SameHome(g, d, e)
    ensures FsInv(sb, e, ino, owner)
  {
    SameAddrs(g, sb, d, e, ino, owner);
    forall b: nat | b < sb.size ensures BBlock(sb, b) < |d| && InUse(sb, e, b) == InUse(sb, d, b) {
      LayoutFacts(sb, b, 0);
      LayoutFacts(sb, 0, 0);
    }
  }

  lemma SameFiles(g: Layout, sb: Super, d: Blocks, e: Blocks, ino: seq<Inode>, owner: Owner, j: nat)
    requires FsInv(sb, d, ino, owner) && |e| == |d| && Apart(g, sb) && SameHome(g, d, e) && j < |ino|
    ensures Content(e, ino[j]) == Content(d, ino[j])
  {
    SameAddrs(g, sb, d, e, ino, owner);
    LayoutFacts(sb, 0, 0);
    forall o | 0 <= o < ino[j].size ensures ByteAt(e, ino[j], o) == ByteAt(d, ino[j], o) {
      if o / BSIZE < MAXFILE {
        SlotFacts(o / BSIZE);
        OwnedIsData(sb, d, ino, owner, 0, 0, j, FileSlot(o / BSIZE));
      }
    }
    SameContent(d, ino[j], e, ino[j]);
  }

  /** Blocks that differ in the log only are the same file system. */
  lemma SameSystem(g: Layout, sb: Super, d: Blocks, e: Blocks)
    requires Consistent(sb, d) && Apart(g, sb) && SameHome(g, d, e)
    ensures Consistent(sb, e) && Inodes(sb, e) == Inodes(sb, d)
    ensures forall j :: 0 <= j < sb.ninodes ==> Content(e, Inodes(sb, e)[j]) == Content(d, Inodes(sb, d)[j])
  {
    var ino := Inodes(sb, d);
    var owner :| FsInv(sb, d, ino, owner);
    SameInodes(g, sb, d, e);
    SameInv(g, sb, d, e, ino, owner);
    forall j: nat | j < sb.ninodes ensures Content(e, ino[j]) == Content(d, ino[j]) {
      SameFiles(g, sb, d, e, ino, owner, j);
    }
  }

  lemma SameOnDisk(g: Layout, sb: Super, bs0: Blocks, d: Blocks, e: Blocks, i: nat, off: nat, part: seq<byte>)
    requires OnDisk(sb, bs0, d, i, off, part) && Apart(g, sb) && SameHome(g, d, e)
    ensures OnDisk(sb, bs0, e, i, off, part)
  {
    SameSystem(g, sb, d, e);
  }

  /** If the file system on the base disk is sound, and every operation that is over kept it sound, then so is
      the file system on the recovered disk. */
  lemma RecoveredIsConsistent(states: seq<State>, steps: seq<Step>, ops: seq<seq<Write>>, k: nat, crashes: seq<nat>, sb: Super)
    requires SafeRun(states, steps) && Follows(states, steps, ops) && k < |states| && Serial(states[k].hist, |states[k].hist|)
    requires Apart(states[k].g, sb) && Consistent(sb, states[k].base)
    requires Fits(|states[k].base|, Writes(states[k].hist)) && Keeps(states[k], d => Consistent(sb, d))
    ensures WellFormed(states[k].g, states[k].disk)
    ensures Consistent(sb, Recovered(states[k].g, AfterCrashes(states[k].g, states[k].disk, crashes)))
  {
    var d := RecoveredIsGood(states, steps, ops, k, crashes, d => Consistent(sb, d));
    SameSystem(states[k].g, sb, d, Recovered(states[k].g, AfterCrashes(states[k].g, states[k].disk, crashes)));
  }

  // ---------------------------------------------------------------- filewrite, and a crash

  /** Before the first crash: nothing is lost, and every operation that is over is complete. */
  ghost predicate Unbroken(s: State, ops: seq<seq<Write>>) {
    s.hist == s.all && forall o: nat :: o < s.nextOp && o !in s.wrote ==> Complete(s.all, ops, o)
  }

  lemma StepUnbroken(s: State, e: Step, ops: seq<seq<Write>>)
    requires Unbroken(s, ops) && Enabled(s, e) && !e.Crash? && (e.EndOp? ==> Complete(s.all, ops, e.op))
    ensures Unbroken(Do(s, e), ops)
  {
    match e
    case LogAppend(op, bno, data) => AppendUnbroken(s, op, bno, data, ops);
    case EndOp(op) => EndUnbroken(s, op, ops);
    case _ =>
  }

  lemma AppendUnbroken(s: State, op: nat, bno: uint, data: Block, ops: seq<seq<Write>>)
    requires Unbroken(s, ops) && Enabled(s, LogAppend(op, bno, data))
    ensures Unbroken(DoAppend(s, op, bno, data), ops)
  {
    var t, e := DoAppend(s, op, bno, data), Event(op, bno, data);
    if t.mode.Up? {
      assert t.wrote.Keys == s.wrote.Keys + {op};
      forall o: nat | o < t.nextOp && o !in t.wrote ensures Complete(t.all, ops, o) {
        CompleteStays(s.all, ops, o, e);
      }
    }
  }

  lemma EndUnbroken(s: State, op: nat, ops: seq<seq<Write>>)
    requires Unbroken(s, ops) && s.mode.Up? && op in s.wrote && Complete(s.all, ops, op)
    ensures Unbroken(DoEnd(s, op), ops)
  {
    var t := DoEnd(s, op);
    assert t.hist == s.hist && t.all == s.all && t.nextOp == s.nextOp;
    assert forall o :: o in s.wrote && o !in t.wrote ==> o == op;
  }

  lemma {:induction false} RunUnbroken(states: seq<State>, steps: seq<Step>, ops: seq<seq<Write>>, k: nat)
    requires SafeRun(states, steps) && Follows(states, steps, ops) && k < |states| && states[0].nextOp == 0
    requires forall i :: 0 <= i < k ==> !steps[i].Crash?
    ensures Inv(states[k]) && Unbroken(states[k], ops)
  {
    RunInv(states, steps, k);
    if k > 0 {
      var before := k - 1;
      RunUnbroken(states, steps, ops, before);
      assert states[k] == Do(states[before], steps[before]);
      StepUnbroken(states[before], steps[before], ops);
    }
  }

  /** Then the durable operations are the first ones, up to some n. */
  lemma DurableIsPrefix(s: State, ops: seq<seq<Write>>) returns (n: nat)
    requires Numbered(s) && Orderly(s, ops) && WholeIn(ops, s.hist, s.cut) && Unbroken(s, ops) && Serial(s.hist, |s.hist|)
    ensures n <= |ops| && forall o :: 0 <= o < |ops| ==> Durable(ops, s.hist, s.cut)[o] == if o < n then ops[o] else []
  {
    if s.cut == 0 {
      n := 0;
    } else {
      var last := s.hist[s.cut - 1].op;
      n := last + 1;
      LastIsWhole(s, ops, last);
      forall o: nat | o < |ops| ensures Durable(ops, s.hist, s.cut)[o] == if o < n then ops[o] else [] {
        DurableAt(s, ops, o, last);
      }
    }
  }

  lemma DurableAt(s: State, ops: seq<seq<Write>>, o: nat, last: nat)
    requires Numbered(s) && Orderly(s, ops) && WholeIn(ops, s.hist, s.cut) && Unbroken(s, ops) && Serial(s.hist, |s.hist|)
    requires s.cut > 0 && last == s.hist[s.cut - 1].op && o < |ops|
    ensures Durable(ops, s.hist, s.cut)[o] == if o <= last then ops[o] else []
  {
    if o < last {
      EarlierIsDurable(s, ops, o, last);
    } else if o == last {
      LastIsWhole(s, ops, last);
    } else {
      LaterIsLost(s, o);
    }
  }

  lemma LaterIsLost(s: State, o: nat)
    requires Serial(s.hist, |s.hist|) && 0 < s.cut <= |s.hist| && o > s.hist[s.cut - 1].op
    ensures OfOp(s.hist, s.cut, o) == []
  {
    OfOpSome(s.hist, s.cut, o);
  }

  lemma LastIsWhole(s: State, ops: seq<seq<Write>>, last: nat)
    requires WholeIn(ops, s.hist, s.cut) && s.cut > 0 && last == s.hist[s.cut - 1].op
    ensures last < |ops| && OfOp(s.hist, s.cut, last) != []
  {
    OfOpSome(s.hist, s.cut, last);
  }

  lemma EarlierIsDurable(s: State, ops: seq<seq<Write>>, o: nat, last: nat)
    requires Numbered(s) && Orderly(s, ops) && Unbroken(s, ops) && Serial(s.hist, |s.hist|) && s.cut > 0 && o < last == s.hist[s.cut - 1].op
    ensures o < |ops| && (ops[o] == [] || OfOp(s.hist, s.cut, o) != [])
  {
    assert o !in s.wrote && last < s.nextOp;
    assert Complete(s.all, ops, o);
    OfOpSome(s.hist, |s.hist|, o);
    OfOpSome(s.hist, s.cut, o);
    if ops[o] != [] {
      var i :| 0 <= i < |s.hist| && s.hist[i].op == o;
      assert i < s.cut;
    }
  }

  lemma {:induction false} PrefixOps(d: Blocks, ops: seq<seq<Write>>, picked: seq<seq<Write>>, n: nat, k: nat)
    requires |picked| == |ops| && n <= k <= |ops| && (forall o :: 0 <= o < |ops| ==> Fits(|d|, ops[o]))
    requires forall o :: 0 <= o < |ops| ==> picked[o] == if o < n then ops[o] else []
    ensures (forall o :: 0 <= o < |ops| ==> Fits(|d|, picked[o])) && AfterOps(d, picked, k) == AfterOps(d, ops, n)
    decreases k
  {
    if k == n {
      AfterOpsAgree(d, ops, picked, n);
    } else {
      PrefixOps(d, ops, picked, n, k - 1);
    }
  }

  /** Where a process's operations have the file system to themselves, no two are open together. */
  ghost predicate Alone(states: seq<State>) {
    forall i :: 0 <= i < |states| ==> |states[i].wrote| <= 1
  }

  /** Everything logged so far belongs to the open operation or to earlier ones, in order. */
  ghost predicate InOrder(s: State) {
    Serial(s.hist, |s.hist|) && forall i, op :: 0 <= i < |s.hist| && op in s.wrote ==> s.hist[i].op <= op
  }

  lemma StepInOrder(s: State, e: Step)
    requires Numbered(s) && InOrder(s) && Enabled(s, e) && |Do(s, e).wrote| <= 1
    ensures InOrder(Do(s, e))
  {
    match e
    case BeginOp => OnlyOpen(DoBegin(s).wrote, s.nextOp);
    case EndOp(op) => assert DoEnd(s, op).hist == s.hist && forall o :: o in DoEnd(s, op).wrote ==> o in s.wrote;
    case LogAppend(op, bno, data) => AppendInOrder(s, op, bno, data);
    case _ =>
  }

  lemma AppendInOrder(s: State, op: nat, bno: uint, data: Block)
    requires InOrder(s) && Enabled(s, LogAppend(op, bno, data)) && |DoAppend(s, op, bno, data).wrote| <= 1
    ensures InOrder(DoAppend(s, op, bno, data))
  {
    var t := DoAppend(s, op, bno, data);
    if t.mode.Up? { OnlyOpen(t.wrote, op); }
  }

  lemma OnlyOpen(m: map<nat, set<uint>>, op: nat)
    requires |m| <= 1 && op in m
    ensures forall o :: o in m ==> o == op
  {
    MapShrink(m, op);
    forall o | o in m ensures o == op {
      assert o != op ==> o in m - {op};
    }
  }

  lemma {:induction false} RunInOrder(states: seq<State>, steps: seq<Step>, k: nat)
    requires SafeRun(states, steps) && Alone(states) && k < |states|
    ensures Inv(states[k]) && InOrder(states[k])
  {
    RunInv(states, steps, k);
    if k > 0 {
      var before := k - 1;
      RunInOrder(states, steps, before);
      assert states[k] == Do(states[before], steps[before]);
      InvNumbers(states[before]);
      StepInOrder(states[before], steps[before]);
    }
  }

  /** Then log_write's test is made by one operation at a time, and the run is safe. */
  lemma AloneIsSafe(states: seq<State>, steps: seq<Step>)
    requires Run(states, steps) && Alone(states)
    ensures SafeRun(states, steps)
  {
    forall i | 0 <= i < |states| ensures |states[i].past| <= 1 {
      RunCounted(states, steps, i);
      PastIsOpen(states[i]);
    }
    OneAtATimeIsSafe(states, steps);
  }

  lemma PastIsOpen(s: State)
    requires s.past <= s.wrote.Keys
    ensures |s.past| <= |s.wrote|
  {
    SubsetSize(s.past, s.wrote.Keys);
    assert |s.wrote| == |s.wrote.Keys|;
  }

  /** A run from the disk `base` that makes the operations `ops`, one after the other, and has come to its k-th
      state without a crash. */
  ghost predicate RunOf(states: seq<State>, steps: seq<Step>, k: nat, g: Layout, base: Disk, ops: seq<seq<Write>>) {
    && Run(states, steps) && Alone(states) && Follows(states, steps, ops) && k < |states|
    && states[0].nextOp == 0 && states[0].g == g && states[0].base == base
    && forall j :: 0 <= j < k ==> !steps[j].Crash?
  }

  /** The disk recovered after a crash in that state, when recovery itself is cut short and begun again. */
  ghost predicate Holds(s: State, crashes: seq<nat>, sb: Super, base: Disk, ops: seq<seq<Write>>, i: nat, off: nat, src: seq<byte>, done: nat) {
    && WellFormed(s.g, s.disk) && done <= |src|
    && exists n: nat :: n <= |ops| && OnDisk(sb, base, Recovered(s.g, AfterCrashes(s.g, s.disk, crashes)), i, off, src[..Reached(n, done)])
  }

  lemma CrashDuring(states: seq<State>, steps: seq<Step>, ops: seq<seq<Write>>, k: nat, crashes: seq<nat>, g: Layout, base: Disk,
                    sb: Super, i: nat, off: nat, src: seq<byte>, done: nat)
    requires RunOf(states, steps, k, g, base, ops) && Apart(g, sb) && done <= |src|
    requires forall o :: 0 <= o < |ops| ==> Fits(|base|, ops[o])
    requires forall j: nat :: j <= |ops| ==> OnDisk(sb, base, AfterOps(base, ops, j), i, off, src[..Reached(j, done)])
    ensures Holds(states[k], crashes, sb, base, ops, i, off, src, done)
  {
    var s := states[k];
    RunFacts(states, steps, k, g, base, ops);
    var n := DurableIsPrefix(s, ops);
    RecoveredIsOps(states, steps, ops, k, crashes);
    PrefixOnDisk(base, ops, Durable(ops, s.hist, s.cut), n, g, sb, Recovered(g, AfterCrashes(g, s.disk, crashes)), i, off, src[..Reached(n, done)]);
  }

  lemma RunFacts(states: seq<State>, steps: seq<Step>, k: nat, g: Layout, base: Disk, ops: seq<seq<Write>>)
    requires RunOf(states, steps, k, g, base, ops)
    ensures SafeRun(states, steps) && states[k].g == g && states[k].base == base && Serial(states[k].hist, |states[k].hist|)
    ensures var s := states[k]; Numbered(s) && Orderly(s, ops) && WholeIn(ops, s.hist, s.cut) && Unbroken(s, ops)
  {
    AloneIsSafe(states, steps);
    LogBudget.SameLayout(states, steps, k);
    RunInOrder(states, steps, k);
    RunOrderly(states, steps, ops, k);
    RunUnbroken(states, steps, ops, k);
    InvNumbers(states[k]);
    DurableIsWhole(states[k], ops);
  }

  lemma PrefixOnDisk(base: Blocks, ops: seq<seq<Write>>, picked: seq<seq<Write>>, n: nat, g: Layout, sb: Super, d: Blocks, i: nat, off: nat, part: seq<byte>)
    requires |picked| == |ops| && n <= |ops| && (forall o :: 0 <= o < |ops| ==> Fits(|base|, ops[o]) && Fits(|base|, picked[o]))
    requires forall o :: 0 <= o < |ops| ==> picked[o] == if o < n then ops[o] else []
    requires Apart(g, sb) && OnDisk(sb, base, AfterOps(base, ops, n), i, off, part) && SameHome(g, d, AfterOps(base, picked, |ops|))
    ensures OnDisk(sb, base, d, i, off, part)
  {
    PrefixOps(base, ops, picked, n, |ops|);
    SameOnDisk(g, sb, base, AfterOps(base, ops, n), d, i, off, part);
  }

  /** filewrite, and a crash at any point of it. Whenever its operations run from the file system as it was,
      and the machine stops, the disk recovered is a sound file system in which the file is written as far as
      some number of whole chunks, and every other file is as it was. */
  method FilewriteSurvives(fs: Fs.FileSystem, i: nat, src: seq<byte>, off: uint, ghost g: Layout) returns (r: Fs.Outcome, done: nat, ghost ops: seq<seq<Write>>)
    requires fs.Valid() && i < fs.sb.ninodes && fs.ino[i].Type() != T_DEV && Apart(g, fs.sb)
    requires NoHoles(fs.blocks, fs.ino[i]) && AllSynced(fs.sb, fs.blocks, fs.ino)
    modifies fs
    ensures done <= |src|
    ensures forall states, steps, k, crashes {:trigger Holds(states[k], crashes, fs.sb, old(fs.blocks), ops, i, off, src, done), Run(states, steps)} ::
              RunOf(states, steps, k, g, old(fs.blocks), ops) ==> Holds(states[k], crashes, fs.sb, old(fs.blocks), ops, i, off, src, done)
  {
    ghost var bs := fs.blocks;
    r, done, ops := fs.Filewrite(i, src, off);
    forall states, steps, k, crashes | RunOf(states, steps, k, g, bs, ops)
      ensures Holds(states[k], crashes, fs.sb, bs, ops, i, off, src, done)
    {
      CrashDuring(states, steps, ops, k, crashes, g, bs, fs.sb, i, off, src, done);
    }
  }
}
