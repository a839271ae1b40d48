/** Group commit over whole runs: concurrent file-system operations between begin_op and
    end_op, the commit of the last one to finish, crashes between any two block writes, and
    recovery, as one transition system. log_write is two steps: it tests for room in the log before it
    takes log.lock, so any number of operations can be past the test before one of them appends. */
module GroupCommit {
  import opened Bytes
  import opened Disk
  import opened RedoLog

  /** One log_write: operation `op` left `data` in block `bno`. */
  datatype Event = Event(op: nat, bno: uint, data: Block)

  /** What the kernel is doing. Memory (the cached view, log.lh, log.outstanding) exists in Up only.
      Overrun: log.lh.block has been written past its end, or a commit has more blocks than the disk has
      slots for; runs are not followed from there on. */
  datatype Mode =
    | Up(view: Disk, lh: seq<uint>, outstanding: int, committing: bool)
    | Recovering
    | Panicked
    | Overrun

  /** `plan` are the block writes of the commit or recovery in progress, `done` of which have been
      made to the disk `origin`. `past` are the operations that are past log_write's test and have yet to
      append. The other fields record history: `wrote` the blocks each open operation has logged; `all` every
      log_write ever made; `hist` those not lost in a crash, the first `cut` of them being the committed groups
      in commit order; `base` the disk it all began with. */
  datatype State = State(
    g: Layout, disk: Disk, mode: Mode, plan: seq<Write>, done: nat, origin: Disk,
    nextOp: nat, wrote: map<nat, set<uint>>, past: set<nat>, all: seq<Event>, hist: seq<Event>, cut: nat, base: Disk)

  datatype Step =
    | BeginOp
    | LogCheck(op: nat)                               // log_write before it takes log.lock
    | LogAppend(op: nat, bno: uint, data: Block)      // the rest of it
    | EndOp(op: nat)
    | CommitWrite
    | CommitDone
    | Crash
    | RecoverWrite
    | RecoverDone

  /** When a step can be taken. begin_op sleeps while its guard is false; an operation logs only
      home blocks, and only between its begin_op and its end_op. */
  predicate Enabled(s: State, e: Step) {
    match e
    case BeginOp =>
      s.mode.Up? && !s.mode.committing && |s.mode.lh| + (s.mode.outstanding + 1) * MAXOPBLOCKS <= LOGSIZE
    case LogCheck(op) => s.mode.Up? && op in s.wrote && op !in s.past
    case LogAppend(op, bno, data) => s.mode.Up? && op in s.wrote && op in s.past && bno < s.g.size && !s.g.InLog(bno) && bno < |s.mode.view|
    case EndOp(op) => s.mode.Up? && op in s.wrote && op !in s.past
    case CommitWrite => s.mode.Up? && s.mode.committing && s.done < |s.plan|
    case CommitDone => s.mode.Up? && s.mode.committing && s.done >= |s.plan|
    case Crash => !s.mode.Overrun? && s.cut <= |s.hist|
    case RecoverWrite => s.mode.Recovering? && s.done < |s.plan|
    case RecoverDone => s.mode.Recovering? && s.done >= |s.plan|
  }

  /** log.lh after log_write: the block number is absorbed or appended. */
  function Absorb(lh: seq<uint>, bno: uint): (r: seq<uint>) {
    if Lists(lh, |lh|, bno) then lh else lh + [bno]
  }

  predicate LogFull(s: State)
    requires s.mode.Up?
  {
    |s.mode.lh| >= LOGSIZE || |s.mode.lh| >= s.g.nlog - 1
  }

  function DiskWrite(d: Disk, w: Write): (r: Disk) {
    if w.bno < |d| then d[w.bno := w.data] else d
  }

  /** begin_op, once its guard holds. */
  function DoBegin(s: State): State
    requires s.mode.Up?
  {
    s.(mode := s.mode.(outstanding := s.mode.outstanding + 1), wrote := s.wrote[s.nextOp := {}], nextOp := s.nextOp + 1)
  }

  /** log_write's two panics. */
  function DoCheck(s: State, op: nat): State
    requires s.mode.Up?
  {
    if LogFull(s) || s.mode.outstanding < 1 then s.(mode := Panicked) else s.(past := s.past + {op})
  }

  /** The caller has changed the cached block, and log_write records it. */
  function DoAppend(s: State, op: nat, bno: uint, data: Block): State
    requires Enabled(s, LogAppend(op, bno, data))
  {
    if |Absorb(s.mode.lh, bno)| > LOGSIZE then s.(mode := Overrun)
    else
      s.(mode := s.mode.(view := s.mode.view[bno := data], lh := Absorb(s.mode.lh, bno)),
      wrote := s.wrote[op := s.wrote[op] + {bno}], past := s.past - {op},
      all := s.all + [Event(op, bno, data)], hist := s.hist + [Event(op, bno, data)])
  }

  /** end_op: the last operation to end starts the commit, which does nothing when no block was logged. */
  function DoEnd(s: State, op: nat): State
    requires s.mode.Up?
  {
    var t := s.(mode := s.mode.(outstanding := s.mode.outstanding - 1), wrote := s.wrote - {op});
    if s.mode.committing then s.(mode := Panicked)
    else if t.mode.outstanding != 0 then t
    else if s.mode.lh == [] then t.(mode := t.mode.(committing := true), plan := [], done := 0, origin := s.disk)
    else if CanPlan(s) then
      t.(mode := t.mode.(committing := true), plan := CommitWrites(s.g, s.disk[s.g.start], s.mode.lh, s.mode.view), done := 0, origin := s.disk)
    else t.(mode := Overrun)
  }

  predicate CanPlan(s: State)
    requires s.mode.Up?
  {
    s.g.Ok() && |s.disk| == |s.mode.view| == s.g.size && Loggable(s.g, s.mode.lh)
  }

  /** The next block write of the commit. Its header write makes the open group durable. */
  function DoCommitWrite(s: State): State
    requires s.mode.Up? && s.done < |s.plan|
  {
    s.(disk := DiskWrite(s.disk, s.plan[s.done]), done := s.done + 1,
    cut := if s.done == |s.mode.lh| then |s.hist| else s.cut)
  }

  /** A crash, or a reboot after a panic, loses everything but the disk. */
  function DoCrash(s: State): State
    requires s.cut <= |s.hist|
  {
    s.(mode := Recovering, plan := if WellFormed(s.g, s.disk) then RecoverWrites(s.g, s.disk) else [],
    done := 0, origin := s.disk, wrote := map[], past := {}, hist := s.hist[..s.cut])
  }

  function DoRecoverWrite(s: State): State
    requires s.done < |s.plan|
  {
    s.(disk := DiskWrite(s.disk, s.plan[s.done]), done := s.done + 1)
  }

  function Do(s: State, e: Step): State
    requires Enabled(s, e)
  {
    match e
    case BeginOp => DoBegin(s)
    case LogCheck(op) => DoCheck(s, op)
    case LogAppend(op, bno, data) => DoAppend(s, op, bno, data)
    case EndOp(op) => DoEnd(s, op)
    case CommitWrite => DoCommitWrite(s)
    case CommitDone => s.(mode := s.mode.(lh := [], committing := false))
    case Crash => DoCrash(s)
    case RecoverWrite => DoRecoverWrite(s)
    case RecoverDone => s.(mode := Up(s.disk, [], 0, false))
  }

  predicate Init(s: State) {
    && WellFormed(s.g, s.disk) && s.mode == Recovering
    && s.plan == RecoverWrites(s.g, s.disk) && s.done == 0 && s.origin == s.disk
    && s.wrote == map[] && s.past == {} && s.all == [] && s.hist == [] && s.cut == 0
    && s.base == Recovered(s.g, s.disk)
  }

  // ---------------------------------------------------------------- histories

  function Writes(evs: seq<Event>): (r: seq<Write>)
    ensures |r| == |evs|
  {
    seq(|evs|, i requires 0 <= i < |evs| => Write(evs[i].bno, evs[i].data))
  }

  predicate HomeEvents(g: Layout, evs: seq<Event>) {
    forall i :: 0 <= i < |evs| ==> evs[i].bno < g.size && !g.InLog(evs[i].bno)
  }

  /** The base disk with the first k log_writes of a history done to it in order. */
  function Effect(base: Disk, evs: seq<Event>, k: nat): (r: Disk)
    requires Fits(|base|, Writes(evs)) && k <= |evs|
    ensures |r| == |base|
  {
    After(base, Writes(evs), k)
  }

  /** The log_writes of one operation among the first k of a history. */
  function OfOp(evs: seq<Event>, k: nat, op: nat): (r: seq<Event>)
    requires k <= |evs|
  {
    if k == 0 then []
    else if evs[k - 1].op == op then OfOp(evs, k - 1, op) + [evs[k - 1]]
    else OfOp(evs, k - 1, op)
  }

  lemma {:induction false} OfOpAgree(a: seq<Event>, b: seq<Event>, k: nat, op: nat)
    requires k <= |a| && k <= |b| && forall i :: 0 <= i < k ==> a[i] == b[i]
    ensures OfOp(a, k, op) == OfOp(b, k, op)
  {
    if k > 0 { OfOpAgree(a, b, k - 1, op); }
  }

  lemma {:induction false} OfOpNone(evs: seq<Event>, m: nat, k: nat, op: nat)
    requires m <= k <= |evs| && forall i :: m <= i < k ==> evs[i].op != op
    ensures OfOp(evs, k, op) == OfOp(evs, m, op)
  {
    if k > m { OfOpNone(evs, m, k - 1, op); }
  }

  lemma {:induction false} OfOpSome(evs: seq<Event>, k: nat, op: nat)
    requires k <= |evs|
    ensures OfOp(evs, k, op) != [] <==> exists i :: 0 <= i < k && evs[i].op == op
  {
    if k > 0 { OfOpSome(evs, k - 1, op); }
  }

  lemma EffectSnoc(base: Disk, evs: seq<Event>, e: Event, k: nat)
    requires Fits(|base|, Writes(evs)) && e.bno < |base| && k <= |evs|
    ensures Fits(|base|, Writes(evs + [e]))
    ensures Effect(base, evs + [e], k) == Effect(base, evs, k)
    ensures Effect(base, evs + [e], |evs| + 1) == Effect(base, evs, |evs|)[e.bno := e.data]
  {
    assert forall i :: 0 <= i < |evs| ==> Writes(evs + [e])[i] == Writes(evs)[i];
    AfterAgree(base, Writes(evs), Writes(evs + [e]), k);
    AfterAgree(base, Writes(evs), Writes(evs + [e]), |evs|);
  }

  lemma EffectPrefix(base: Disk, evs: seq<Event>, k: nat)
    requires Fits(|base|, Writes(evs)) && k <= |evs|
    ensures Fits(|base|, Writes(evs[..k])) && Effect(base, evs[..k], k) == Effect(base, evs, k)
  {
    assert forall i :: 0 <= i < k ==> Writes(evs[..k])[i] == Writes(evs)[i];
    AfterAgree(base, Writes(evs), Writes(evs[..k]), k);
  }

  /** A block the open group did not log is as the durable groups left it. */
  lemma {:induction false} EffectUnlogged(base: Disk, evs: seq<Event>, cut: nat, k: nat, b: nat)
    requires Fits(|base|, Writes(evs)) && cut <= k <= |evs| && b < |base|
    requires forall i :: cut <= i < k ==> evs[i].bno != b
    ensures Effect(base, evs, k)[b] == Effect(base, evs, cut)[b]
  {
    if k > cut { EffectUnlogged(base, evs, cut, k - 1, b); }
  }

  // ---------------------------------------------------------------- invariant

  /** What recovery would make of the disk is exactly the durable groups. */
  ghost predicate Means(g: Layout, d: Disk, base: Disk, hist: seq<Event>, cut: nat) {
    && WellFormed(g, d) && |base| == g.size && cut <= |hist| && HomeEvents(g, hist)
    && SameHome(g, Recovered(g, d), Effect(base, hist, cut))
  }

  /** The cached view holds the durable groups and, on top of them, the open one. */
  ghost predicate Views(g: Layout, view: Disk, base: Disk, hist: seq<Event>) {
    && |view| == |base| == g.size && HomeEvents(g, hist)
    && SameHome(g, view, Effect(base, hist, |hist|))
  }

  /** The logged blocks are exactly the blocks of the open group, each once. */
  ghost predicate Logged(lh: seq<uint>, hist: seq<Event>, cut: nat) {
    && (forall i :: cut <= i < |hist| ==> Lists(lh, |lh|, hist[i].bno))
    && (forall i, j :: 0 <= i < j < |lh| ==> lh[i] != lh[j])
    && (cut == |hist| ==> lh == [])
  }

  /** A commit in progress: the first `done` of its writes are on the disk. */
  ghost predicate InCommit(g: Layout, origin: Disk, lh: seq<uint>, view: Disk, d: Disk, plan: seq<Write>, done: nat) {
    && CanCommit(g, origin, lh, view)
    && if lh == [] then plan == [] && done == 0 && d == origin
       else
         && plan == CommitWrites(g, origin[g.start], lh, view)
         && done <= |plan| && d == After(origin, plan, done)
  }

  ghost predicate InRecovery(g: Layout, origin: Disk, d: Disk, plan: seq<Write>, done: nat) {
    && WellFormed(g, origin) && plan == RecoverWrites(g, origin)
    && done <= |plan| && d == After(origin, plan, done)
  }

  /** Histories: an operation with a durable log_write is over and has none in the open group;
      nothing of an operation that is open or appears in `hist` has been lost. */
  ghost predicate Ops(nextOp: nat, active: set<nat>, all: seq<Event>, hist: seq<Event>, cut: nat) {
    && cut <= |hist|
    && (forall op :: op in active ==> op < nextOp)
    && (forall i :: 0 <= i < |hist| ==> hist[i].op < nextOp)
    && (forall i :: 0 <= i < |all| ==> all[i].op < nextOp)
    && (forall i :: 0 <= i < cut ==> hist[i].op !in active)
    && (forall i, j :: 0 <= i < cut <= j < |hist| ==> hist[i].op != hist[j].op)
    && (forall op :: op in active ==> Kept(all, hist, op))
    && (forall i :: 0 <= i < |hist| ==> Kept(all, hist, hist[i].op))
  }

  ghost predicate Kept(all: seq<Event>, hist: seq<Event>, op: nat) {
    OfOp(all, |all|, op) == OfOp(hist, |hist|, op)
  }

  ghost predicate UpInv(s: State)
    requires s.mode.Up?
  {
    var m := s.mode;
    && Views(s.g, m.view, s.base, s.hist)
    && GoodBlocks(s.g, m.lh)
    && m.outstanding == |s.wrote|
    && (m.committing ==>
          && s.wrote == map[]
          && InCommit(s.g, s.origin, m.lh, m.view, s.disk, s.plan, s.done)
          && (if s.done <= |m.lh| then Logged(m.lh, s.hist, s.cut) else s.cut == |s.hist|))
    && (!m.committing ==>
          && CleanDisk(s.g, s.disk) && Logged(m.lh, s.hist, s.cut)
          && (s.wrote == map[] ==> s.cut == |s.hist|))
  }

  ghost predicate Inv(s: State) {
    && Means(s.g, s.disk, s.base, s.hist, s.cut) && !s.mode.Overrun? && s.past <= s.wrote.Keys
    && Ops(s.nextOp, s.wrote.Keys, s.all, s.hist, s.cut)
    && (s.mode.Up? ==> UpInv(s))
    && (s.mode.Recovering? ==> InRecovery(s.g, s.origin, s.disk, s.plan, s.done) && s.wrote == map[] && s.cut == |s.hist|)
  }

  // ---------------------------------------------------------------- how the parts evolve

  lemma MapGrow<V>(m: map<nat, V>, k: nat, v: V)
    ensures m[k := v].Keys == m.Keys + {k}
    ensures |m[k := v]| == if k in m then |m| else |m| + 1
  {
    var n := m[k := v];
    assert |n| == |n.Keys| && |m| == |m.Keys|;
    if k in m {
      assert n.Keys == m.Keys;
    } else {
      assert n.Keys == m.Keys + {k};
    }
  }

  lemma MapShrink<V>(m: map<nat, V>, k: nat)
    requires k in m
    ensures (m - {k}).Keys == m.Keys - {k}
    ensures |m - {k}| == |m| - 1
    ensures |m| == 1 ==> m - {k} == map[]
  {
    var n := m - {k};
    assert n.Keys == m.Keys - {k};
    assert |n| == |n.Keys| && |m| == |m.Keys|;
  }

  lemma OpsBegin(nextOp: nat, active: set<nat>, all: seq<Event>, hist: seq<Event>, cut: nat)
    requires Ops(nextOp, active, all, hist, cut)
    ensures Ops(nextOp + 1, active + {nextOp}, all, hist, cut)
  {
    OfOpNone(all, 0, |all|, nextOp);
    OfOpNone(hist, 0, |hist|, nextOp);
  }

  lemma OpsEnd(nextOp: nat, active: set<nat>, all: seq<Event>, hist: seq<Event>, cut: nat, op: nat)
    requires Ops(nextOp, active, all, hist, cut)
    ensures Ops(nextOp, active - {op}, all, hist, cut)
  {
  }

  lemma KeptMore(all: seq<Event>, hist: seq<Event>, op: nat, e: Event)
    requires Kept(all, hist, op)
    ensures Kept(all + [e], hist + [e], op)
  {
    OfOpAgree(all, all + [e], |all|, op);
    OfOpAgree(hist, hist + [e], |hist|, op);
  }

  lemma OpsLogWrite(nextOp: nat, active: set<nat>, all: seq<Event>, hist: seq<Event>, cut: nat, e: Event)
    requires Ops(nextOp, active, all, hist, cut) && e.op in active
    ensures Ops(nextOp, active, all + [e], hist + [e], cut)
  {
    forall op | op in active ensures Kept(all + [e], hist + [e], op) {
      KeptMore(all, hist, op, e);
    }
    forall i | 0 <= i < |hist + [e]| ensures Kept(all + [e], hist + [e], (hist + [e])[i].op) {
      KeptMore(all, hist, (hist + [e])[i].op, e);
    }
  }

  lemma OpsCrash(nextOp: nat, active: set<nat>, all: seq<Event>, hist: seq<Event>, cut: nat)
    requires Ops(nextOp, active, all, hist, cut)
    ensures Ops(nextOp, {}, all, hist[..cut], cut)
  {
    var h := hist[..cut];
    forall i | 0 <= i < cut ensures Kept(all, h, h[i].op) {
      OfOpNone(hist, cut, |hist|, hist[i].op);
      OfOpAgree(hist, h, cut, hist[i].op);
    }
  }

  lemma ViewsLogWrite(g: Layout, view: Disk, base: Disk, hist: seq<Event>, e: Event)
    requires Views(g, view, base, hist) && e.bno < g.size && !g.InLog(e.bno)
    ensures Views(g, view[e.bno := e.data], base, hist + [e])
  {
    EffectSnoc(base, hist, e, |hist|);
  }

  lemma MeansLogWrite(g: Layout, d: Disk, base: Disk, hist: seq<Event>, cut: nat, e: Event)
    requires Means(g, d, base, hist, cut) && e.bno < g.size && !g.InLog(e.bno)
    ensures Means(g, d, base, hist + [e], cut)
  {
    EffectSnoc(base, hist, e, cut);
  }

  lemma MeansCrash(g: Layout, d: Disk, base: Disk, hist: seq<Event>, cut: nat)
    requires Means(g, d, base, hist, cut)
    ensures Means(g, d, base, hist[..cut], cut)
  {
    EffectPrefix(base, hist, cut);
  }

  lemma LoggedMore(lh: seq<uint>, hist: seq<Event>, cut: nat, e: Event)
    requires Logged(lh, hist, cut) && cut <= |hist|
    ensures Logged(Absorb(lh, e.bno), hist + [e], cut)
  {
    var lh' := Absorb(lh, e.bno);
    forall b: nat | Lists(lh, |lh|, b) ensures Lists(lh', |lh'|, b) {
      var i :| 0 <= i < |lh| && lh[i] == b;
      assert lh'[i] == b;
    }
    if !Lists(lh, |lh|, e.bno) { assert lh'[|lh|] == e.bno; }
  }

  /** Over a disk that holds the durable groups, the logged blocks make up the open group. */
  lemma OverlayIsNewGroup(g: Layout, origin: Disk, lh: seq<uint>, view: Disk, base: Disk, hist: seq<Event>, cut: nat)
    requires Views(g, view, base, hist) && Logged(lh, hist, cut) && cut <= |hist|
    requires SameHome(g, origin, Effect(base, hist, cut))
    ensures SameHome(g, Overlay(origin, lh, view), Effect(base, hist, |hist|))
  {
    var o := Overlay(origin, lh, view);
    forall b: nat | b < |o| && !g.InLog(b) ensures o[b] == Effect(base, hist, |hist|)[b] {
      if !Lists(lh, |lh|, b) {
        EffectUnlogged(base, hist, cut, |hist|, b);
      }
    }
  }

  lemma MeansVia(g: Layout, d: Disk, e: Disk, home: Disk, base: Disk, hist: seq<Event>, cut: nat)
    requires Means(g, d, base, hist, cut) && WellFormed(g, e)
    requires SameHome(g, Recovered(g, d), home) && SameHome(g, Recovered(g, e), home)
    ensures Means(g, e, base, hist, cut) && SameHome(g, home, Effect(base, hist, cut))
  {
  }

  /** A write of recovery does not change what recovery gives. */
  lemma RecoverWriteKeeps(g: Layout, origin: Disk, k: nat, base: Disk, hist: seq<Event>, cut: nat)
    requires WellFormed(g, origin) && k < |RecoverWrites(g, origin)|
    requires Means(g, After(origin, RecoverWrites(g, origin), k), base, hist, cut)
    ensures Means(g, After(origin, RecoverWrites(g, origin), k + 1), base, hist, cut)
  {
    RecoveryCrash(g, origin, k);
    RecoveryCrash(g, origin, k + 1);
  }

  lemma RecoveryNext(g: Layout, origin: Disk, d: Disk, plan: seq<Write>, k: nat, base: Disk, hist: seq<Event>, cut: nat, d': Disk, k': nat)
    requires InRecovery(g, origin, d, plan, k) && k < |plan| && Means(g, d, base, hist, cut) && d' == DiskWrite(d, plan[k]) && k' == k + 1
    ensures InRecovery(g, origin, d', plan, k') && Means(g, d', base, hist, cut)
  {
    RecoverWriteKeeps(g, origin, k, base, hist, cut);
  }

  lemma InCommitNext(g: Layout, origin: Disk, lh: seq<uint>, view: Disk, d: Disk, plan: seq<Write>, done: nat)
    requires InCommit(g, origin, lh, view, d, plan, done) && done < |plan|
    ensures InCommit(g, origin, lh, view, DiskWrite(d, plan[done]), plan, done + 1)
  {
  }

  /** A commit write other than the header write does not change what recovery gives. */
  lemma CommitWriteKeeps(g: Layout, origin: Disk, lh: seq<uint>, view: Disk, k: nat, base: Disk, hist: seq<Event>, cut: nat)
    requires CanCommit(g, origin, lh, view) && k < 2 * |lh| + 2 && k != |lh|
    requires Means(g, After(origin, CommitWrites(g, origin[g.start], lh, view), k), base, hist, cut)
    ensures Means(g, After(origin, CommitWrites(g, origin[g.start], lh, view), k + 1), base, hist, cut)
  {
    CommitMeaning(g, origin, lh, view, k);
    CommitMeaning(g, origin, lh, view, k + 1);
    var ws := CommitWrites(g, origin[g.start], lh, view);
    var d, e := After(origin, ws, k), After(origin, ws, k + 1);
    MeansVia(g, d, e, if k < |lh| then origin else Overlay(origin, lh, view), base, hist, cut);
  }

  /** The header write adds the open group to what recovery gives. */
  lemma HeaderWriteCommits(g: Layout, origin: Disk, lh: seq<uint>, view: Disk, base: Disk, hist: seq<Event>, cut: nat)
    requires CanCommit(g, origin, lh, view) && Views(g, view, base, hist) && Logged(lh, hist, cut)
    requires Means(g, After(origin, CommitWrites(g, origin[g.start], lh, view), |lh|), base, hist, cut)
    ensures Means(g, After(origin, CommitWrites(g, origin[g.start], lh, view), |lh| + 1), base, hist, |hist|)
  {
    var d := After(origin, CommitWrites(g, origin[g.start], lh, view), |lh|);
    CommitMeaning(g, origin, lh, view, |lh|);
    CommitMeaning(g, origin, lh, view, |lh| + 1);
    MeansVia(g, d, d, origin, base, hist, cut);
    OverlayIsNewGroup(g, origin, lh, view, base, hist, cut);
  }

  // ---------------------------------------------------------------- each step keeps the invariant

  lemma InitInv(s: State)
    requires Init(s)
    ensures Inv(s)
  {
    RecoveryCrash(s.g, s.disk, 0);
  }

  lemma BeginOpInv(s: State)
    requires Inv(s) && Enabled(s, BeginOp)
    ensures Inv(DoBegin(s))
  {
    OpsBegin(s.nextOp, s.wrote.Keys, s.all, s.hist, s.cut);
    MapGrow(s.wrote, s.nextOp, {});
  }

  /** The append finds a place in log.lh.block and a slot in the log. */
  predicate HasRoom(s: State, e: Step) {
    e.LogAppend? && s.mode.Up? ==> |Absorb(s.mode.lh, e.bno)| <= LOGSIZE && |Absorb(s.mode.lh, e.bno)| < s.g.nlog
  }

  lemma AppendInv(s: State, op: nat, bno: uint, data: Block)
    requires Inv(s) && Enabled(s, LogAppend(op, bno, data)) && HasRoom(s, LogAppend(op, bno, data))
    ensures Inv(DoAppend(s, op, bno, data))
  {
    var e := Event(op, bno, data);
    MapGrow(s.wrote, op, s.wrote[op] + {bno});
    assert s.wrote.Keys + {op} == s.wrote.Keys;
    OpsLogWrite(s.nextOp, s.wrote.Keys, s.all, s.hist, s.cut, e);
    MeansLogWrite(s.g, s.disk, s.base, s.hist, s.cut, e);
    AppendUp(s, op, bno, data);
  }

  lemma AppendUp(s: State, op: nat, bno: uint, data: Block)
    requires s.mode.Up? && UpInv(s) && Enabled(s, LogAppend(op, bno, data)) && HasRoom(s, LogAppend(op, bno, data)) && s.cut <= |s.hist|
    ensures DoAppend(s, op, bno, data).mode.Up? && UpInv(DoAppend(s, op, bno, data))
  {
    var e := Event(op, bno, data);
    MapGrow(s.wrote, op, s.wrote[op] + {bno});
    ViewsLogWrite(s.g, s.mode.view, s.base, s.hist, e);
    LoggedMore(s.mode.lh, s.hist, s.cut, e);
  }

  /** end_op never finds log.committing set: that panic is unreachable. */
  lemma EndOpInv(s: State, op: nat)
    requires Inv(s) && Enabled(s, EndOp(op))
    ensures Inv(DoEnd(s, op)) && DoEnd(s, op).mode.Up?
  {
    MapShrink(s.wrote, op);
    OpsEnd(s.nextOp, s.wrote.Keys, s.all, s.hist, s.cut, op);
    EndOpUp(s, op);
    EndOpSame(s, op);
  }

  lemma EndOpSame(s: State, op: nat)
    requires s.mode.Up? && !s.mode.committing && op in s.wrote
    ensures var t := DoEnd(s, op);
            t.g == s.g && t.disk == s.disk && t.base == s.base && t.hist == s.hist && t.cut == s.cut
            && t.nextOp == s.nextOp && t.all == s.all && t.wrote == s.wrote - {op}
  {
  }

  lemma EndOpUp(s: State, op: nat)
    requires s.mode.Up? && UpInv(s) && op in s.wrote
    ensures DoEnd(s, op).mode.Up? && UpInv(DoEnd(s, op))
  {
    MapShrink(s.wrote, op);
  }

  lemma CommitWriteInv(s: State)
    requires Inv(s) && Enabled(s, CommitWrite)
    ensures Inv(DoCommitWrite(s))
  {
    CommitWriteUp(s);
    CommitWriteMeans(s);
  }

  lemma CommitWriteUp(s: State)
    requires s.mode.Up? && UpInv(s) && Enabled(s, CommitWrite)
    ensures UpInv(DoCommitWrite(s))
  {
    InCommitNext(s.g, s.origin, s.mode.lh, s.mode.view, s.disk, s.plan, s.done);
  }

  lemma CommitWriteMeans(s: State)
    requires s.mode.Up? && UpInv(s) && Enabled(s, CommitWrite) && Means(s.g, s.disk, s.base, s.hist, s.cut)
    ensures var t := DoCommitWrite(s); Means(t.g, t.disk, t.base, t.hist, t.cut)
  {
    var m := s.mode;
    if s.done == |m.lh| {
      HeaderWriteCommits(s.g, s.origin, m.lh, m.view, s.base, s.hist, s.cut);
    } else {
      CommitWriteKeeps(s.g, s.origin, m.lh, m.view, s.done, s.base, s.hist, s.cut);
    }
  }

  lemma CommitDoneInv(s: State)
    requires Inv(s) && Enabled(s, CommitDone)
    ensures Inv(Do(s, CommitDone))
  {
    if s.mode.lh != [] {
      CommitClears(s.g, s.origin, s.mode.lh, s.mode.view);
    }
  }

  lemma CrashInv(s: State)
    requires Inv(s)
    ensures Inv(DoCrash(s))
  {
    OpsCrash(s.nextOp, s.wrote.Keys, s.all, s.hist, s.cut);
    MeansCrash(s.g, s.disk, s.base, s.hist, s.cut);
  }

  lemma RecoverWriteInv(s: State)
    requires Inv(s) && Enabled(s, RecoverWrite)
    ensures Inv(DoRecoverWrite(s))
  {
    var t := DoRecoverWrite(s);
    RecoveryNext(s.g, s.origin, s.disk, s.plan, s.done, s.base, s.hist, s.cut, t.disk, t.done);
  }

  lemma RecoverDoneInv(s: State)
    requires Inv(s) && Enabled(s, RecoverDone)
    ensures Inv(Do(s, RecoverDone))
  {
    RecoveredIsClean(s.g, s.origin);
    RecoverClean(s.g, s.disk);
  }

  lemma CheckInv(s: State, op: nat)
    requires Inv(s) && Enabled(s, LogCheck(op))
    ensures Inv(DoCheck(s, op))
  {
  }

  /** Every step keeps the invariant, if an append finds room. */
  lemma StepInv(s: State, e: Step)
    requires Inv(s) && Enabled(s, e) && HasRoom(s, e)
    ensures Inv(Do(s, e))
  {
    match e
    case BeginOp => BeginOpInv(s);
    case LogCheck(op) => CheckInv(s, op);
    case LogAppend(op, bno, data) => AppendInv(s, op, bno, data);
    case EndOp(op) => EndOpInv(s, op);
    case CommitWrite => CommitWriteInv(s);
    case CommitDone => CommitDoneInv(s);
    case Crash => CrashInv(s);
    case RecoverWrite => RecoverWriteInv(s);
    case RecoverDone => RecoverDoneInv(s);
  }

  // ---------------------------------------------------------------- whole runs

  /** A run: each step is enabled where it is taken. */
  ghost predicate Run(states: seq<State>, steps: seq<Step>) {
    && |states| == |steps| + 1 && Init(states[0])
    && forall i :: 0 <= i < |steps| ==> Enabled(states[i], steps[i]) && states[i + 1] == Do(states[i], steps[i])
  }

  /** A run in which every append finds room. */
  ghost predicate SafeRun(states: seq<State>, steps: seq<Step>) {
    Run(states, steps) && forall i :: 0 <= i < |steps| ==> HasRoom(states[i], steps[i])
  }

  lemma {:induction false} RunInv(states: seq<State>, steps: seq<Step>, k: nat)
    requires SafeRun(states, steps) && k < |states|
    ensures Inv(states[k])
  {
    if k == 0 {
      InitInv(states[0]);
    } else {
      RunInv(states, steps, k - 1);
      assert states[k - 1 + 1] == Do(states[k - 1], steps[k - 1]);
      StepInv(states[k - 1], steps[k - 1]);
    }
  }

  /** What every run keeps, with room or without. */
  ghost predicate Counted(s: State) {
    && s.past <= s.wrote.Keys && (forall op :: op in s.wrote ==> op < s.nextOp)
    && (s.mode.Up? ==> s.mode.outstanding == |s.wrote| && (s.mode.committing ==> s.wrote == map[]))
    && (s.mode.Recovering? ==> s.wrote == map[])
  }

  /** In no run does end_op find log.committing set: that panic is unreachable. */
  lemma StepCounted(s: State, e: Step)
    requires Counted(s) && Enabled(s, e)
    ensures Counted(Do(s, e)) && (e.EndOp? ==> !Do(s, e).mode.Panicked?)
  {
    match e
    case BeginOp => MapGrow(s.wrote, s.nextOp, {});
    case LogAppend(op, bno, data) => AppendCounted(s, op, bno, data);
    case EndOp(op) => EndCounted(s, op);
    case _ =>
  }

  lemma AppendCounted(s: State, op: nat, bno: uint, data: Block)
    requires Counted(s) && Enabled(s, LogAppend(op, bno, data))
    ensures Counted(DoAppend(s, op, bno, data))
  {
    MapGrow(s.wrote, op, s.wrote[op] + {bno});
  }

  lemma EndCounted(s: State, op: nat)
    requires Counted(s) && Enabled(s, EndOp(op))
    ensures Counted(DoEnd(s, op)) && !DoEnd(s, op).mode.Panicked?
  {
    MapShrink(s.wrote, op);
  }

  lemma {:induction false} RunCounted(states: seq<State>, steps: seq<Step>, k: nat)
    requires Run(states, steps) && k < |states|
    ensures Counted(states[k])
  {
    if k > 0 {
      RunCounted(states, steps, k - 1);
      assert states[k - 1 + 1] == Do(states[k - 1], steps[k - 1]);
      StepCounted(states[k - 1], steps[k - 1]);
    }
  }

  // ---------------------------------------------------------------- one operation past the test at a time

  /** The operation past the test found the log as it still is. */
  ghost predicate Tested(s: State) {
    |s.past| <= 1 && (s.mode.Up? && s.past != {} ==> !LogFull(s))
  }

  lemma OnlyOne(past: set<nat>, op: nat)
    requires |past| <= 1 && op in past
    ensures past == {op}
  {
    assert |past - {op}| == |past| - 1;
  }

  lemma StepTested(s: State, e: Step)
    requires Counted(s) && Tested(s) && Enabled(s, e) && |Do(s, e).past| <= 1
    ensures HasRoom(s, e) && Tested(Do(s, e))
  {
    if e.LogAppend? {
      OnlyOne(s.past, e.op);
    } else if e.LogCheck? && Do(s, e).mode.Up? {
      OnlyOne(s.past + {e.op}, e.op);
    } else if e.EndOp? {
      MapShrink(s.wrote, e.op);
      if s.past != {} {
        var p :| p in s.past;
        assert p in s.wrote - {e.op};
      }
    }
  }

  lemma {:induction false} RunTested(states: seq<State>, steps: seq<Step>, k: nat)
    requires Run(states, steps) && k < |states| && forall i :: 0 <= i < |states| ==> |states[i].past| <= 1
    ensures Tested(states[k]) && (k > 0 ==> HasRoom(states[k - 1], steps[k - 1]))
  {
    if k > 0 {
      RunTested(states, steps, k - 1);
      RunCounted(states, steps, k - 1);
      assert states[k - 1 + 1] == Do(states[k - 1], steps[k - 1]);
      StepTested(states[k - 1], steps[k - 1]);
    }
  }

  /** As long as no two operations are past the test together, as if it were made under log.lock, every
      append finds room, whatever the operations log and however long the log is. */
  lemma OneAtATimeIsSafe(states: seq<State>, steps: seq<Step>)
    requires Run(states, steps) && forall i :: 0 <= i < |states| ==> |states[i].past| <= 1
    ensures SafeRun(states, steps)
  {
    forall i | 0 <= i < |steps| ensures HasRoom(states[i], steps[i]) {
      RunTested(states, steps, i + 1);
    }
  }

  // ---------------------------------------------------------------- the guarantees

  /** Group commit is atomic, in runs in which every append finds room. Wherever such a run stops, and however
      often recovery is then cut short, the recovered home blocks are the base disk with exactly the first
      `cut` log_writes of the history done to it, in order; and every operation is in that prefix with all
      the log_writes it ever made, being over, or with none. */
  lemma GroupCommitAtomic(states: seq<State>, steps: seq<Step>, k: nat, crashes: seq<nat>, op: nat)
    requires SafeRun(states, steps) && k < |states|
    ensures var s := states[k];
            && WellFormed(s.g, s.disk) && s.cut <= |s.hist| && Fits(|s.base|, Writes(s.hist))
            && SameHome(s.g, Recovered(s.g, AfterCrashes(s.g, s.disk, crashes)), Effect(s.base, s.hist, s.cut))
            && (OfOp(s.hist, s.cut, op) == []
                || (op !in s.wrote && OfOp(s.hist, s.cut, op) == OfOp(s.all, |s.all|, op)))
  {
    var s := states[k];
    RunInv(states, steps, k);
    RepeatedCrashes(s.g, s.disk, crashes);
    OfOpSome(s.hist, s.cut, op);
    if OfOp(s.hist, s.cut, op) != [] {
      WholeOp(s.nextOp, s.wrote.Keys, s.all, s.hist, s.cut, op);
    }
  }

  lemma WholeOp(nextOp: nat, active: set<nat>, all: seq<Event>, hist: seq<Event>, cut: nat, op: nat)
    requires Ops(nextOp, active, all, hist, cut) && exists i :: 0 <= i < cut && hist[i].op == op
    ensures op !in active && OfOp(hist, cut, op) == OfOp(all, |all|, op)
  {
    OfOpNone(hist, cut, |hist|, op);
  }

  /** Durability. Committed groups are never lost or reordered: the durable prefix only grows. */
  lemma DurableGrows(s: State, e: Step)
    requires Inv(s) && Enabled(s, e)
    ensures var t := Do(s, e); s.cut <= t.cut <= |t.hist| && forall i :: 0 <= i < s.cut ==> t.hist[i] == s.hist[i]
  {
    match e
    case CommitWrite => assert DoCommitWrite(s).hist == s.hist;
    case Crash => assert DoCrash(s).hist == s.hist[..s.cut];
    case LogAppend(op, bno, data) => assert DoAppend(s, op, bno, data).cut == s.cut;
    case EndOp(op) => assert DoEnd(s, op).cut == s.cut && DoEnd(s, op).hist == s.hist;
    case _ =>
  }

  /** When no operation is open and no commit runs, everything logged and not lost is durable;
      a commit runs only with no operation open; log.outstanding counts the open operations. */
  lemma QuiescentIsDurable(states: seq<State>, steps: seq<Step>, k: nat)
    requires SafeRun(states, steps) && k < |states| && states[k].mode.Up?
    ensures var s := states[k];
            && s.mode.outstanding == |s.wrote|
            && (s.mode.committing ==> s.mode.outstanding == 0)
            && (s.mode.outstanding == 0 && !s.mode.committing ==> s.cut == |s.hist|)
  {
    RunInv(states, steps, k);
    assert |states[k].wrote| == 0 ==> states[k].wrote == map[];
  }

  /** No home block is written before its group's header: whenever the next block write of a commit
      or of a recovery goes to a home block, the header on disk lists that block and the slot beside
      it already holds the contents. */
  lemma HomeWriteIsLogged(s: State, e: Step)
    requires Inv(s) && Enabled(s, e) && (e.CommitWrite? || e.RecoverWrite?)
    requires !s.g.InLog(s.plan[s.done].bno)
    ensures exists i :: Backed(s.g, s.disk, s.plan[s.done], i)
  {
    if e.CommitWrite? {
      var i := s.done - |s.mode.lh| - 1;
      CommitHomeWrite(s.g, s.origin, s.mode.lh, s.mode.view, s.plan, s.done, i);
      assert Backed(s.g, s.disk, s.plan[s.done], i);
    } else {
      RecoverHomeWrite(s.g, s.origin, s.plan, s.done);
      assert Backed(s.g, s.disk, s.plan[s.done], s.done);
    }
  }

  /** The header on disk lists w's block as its i-th, and the i-th slot of the log holds w's contents. */
  ghost predicate Backed(g: Layout, d: Disk, w: Write, i: int) {
    && g.start < |d| && 0 <= i < Count(d[g.start]) <= LOGSIZE && g.start + 1 + i < |d|
    && Entry(d[g.start], i) == w.bno && d[g.start + 1 + i] == w.data
  }

  lemma RecoverHomeWrite(g: Layout, origin: Disk, ws: seq<Write>, k: nat)
    requires WellFormed(g, origin) && ws == RecoverWrites(g, origin) && k < |ws| && !g.InLog(ws[k].bno)
    ensures Backed(g, After(origin, ws, k), ws[k], k)
  {
    InstallKeepsLog(g, origin, k, g.start);
    InstallKeepsLog(g, origin, k, g.start + 1 + k);
  }

  lemma CommitHomeWrite(g: Layout, origin: Disk, lh: seq<uint>, view: Disk, ws: seq<Write>, k: nat, i: int)
    requires CanCommit(g, origin, lh, view) && ws == CommitWrites(g, origin[g.start], lh, view)
    requires k < |ws| && !g.InLog(ws[k].bno) && i == k - |lh| - 1
    ensures Backed(g, After(origin, ws, k), ws[k], i)
  {
    assert i >= 0;
    var m := |lh| + 1;
    CommitTailIsRecovery(g, origin, lh, view);
    AfterTail(origin, ws, m, k);
    var d, tail := After(origin, ws, m), ws[m..];
    assert tail[i] == ws[k];
    RecoverHomeWrite(g, d, tail, i);
  }
}
