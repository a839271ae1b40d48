/** The reservation begin_op makes for each operation, against what log_write checks, and what becomes of
    group commit when the check lets too much through. */
module LogBudget {
  import opened Bytes
  import opened Disk
  import opened RedoLog
  import opened GroupCommit

  /** The step keeps its operation within MAXOPBLOCKS distinct blocks. */
  predicate Within(s: State, e: Step) {
    e.LogAppend? ==> e.op in s.wrote && |s.wrote[e.op] + {e.bno}| <= MAXOPBLOCKS
  }

  /** What the open operations numbered below n may still log. */
  function Unused(wrote: map<nat, set<uint>>, n: nat): int {
    if n == 0 then 0
    else Unused(wrote, n - 1) + if n - 1 in wrote then MAXOPBLOCKS - |wrote[n - 1]| else 0
  }

  /** Logged blocks plus everything still reserved fit in the log. */
  ghost predicate BudgetInv(s: State) {
    s.mode.Up? ==>
      && (forall op :: op in s.wrote ==> op < s.nextOp && |s.wrote[op]| <= MAXOPBLOCKS)
      && (forall op, b :: op in s.wrote && b in s.wrote[op] ==> Lists(s.mode.lh, |s.mode.lh|, b))
      && |s.mode.lh| + Unused(s.wrote, s.nextOp) <= LOGSIZE
  }

  lemma {:induction false} UnusedSame(a: map<nat, set<uint>>, b: map<nat, set<uint>>, n: nat)
    requires forall op: nat :: op < n ==> (op in a <==> op in b) && (op in a ==> a[op] == b[op])
    ensures Unused(a, n) == Unused(b, n)
  {
    if n > 0 { UnusedSame(a, b, n - 1); }
  }

  lemma {:induction false} UnusedUpdate(m: map<nat, set<uint>>, op: nat, v: set<uint>, n: nat)
    requires op in m && op < n
    ensures Unused(m[op := v], n) == Unused(m, n) + |m[op]| - |v|
  {
    if n - 1 == op {
      UnusedSame(m, m[op := v], n - 1);
    } else {
      UnusedUpdate(m, op, v, n - 1);
    }
  }

  lemma {:induction false} UnusedRemove(m: map<nat, set<uint>>, op: nat, n: nat)
    requires op in m && op < n
    ensures Unused(m - {op}, n) == Unused(m, n) - MAXOPBLOCKS + |m[op]|
  {
    if n - 1 == op {
      UnusedSame(m, m - {op}, n - 1);
    } else {
      UnusedRemove(m, op, n - 1);
    }
  }

  lemma {:induction false} UnusedBound(m: map<nat, set<uint>>, ops: set<nat>, n: nat)
    requires forall op :: op in m && op < n ==> op in ops
    ensures Unused(m, n) <= MAXOPBLOCKS * |ops|
  {
    if n > 0 {
      var top := n - 1;
      UnusedBound(m, if top in m then ops - {top} else ops, top);
    }
  }

  /** Nothing is reserved when no operation is open. */
  lemma {:induction false} UnusedEmpty(n: nat)
    ensures Unused(map[], n) == 0
  {
    if n > 0 { UnusedEmpty(n - 1); }
  }

  lemma BeginBudget(s: State)
    requires s.mode.Up? && BudgetInv(s) && Enabled(s, BeginOp) && s.mode.outstanding == |s.wrote|
    ensures BudgetInv(DoBegin(s))
  {
    UnusedSame(s.wrote, s.wrote[s.nextOp := {}], s.nextOp);
    UnusedBound(s.wrote, s.wrote.Keys, s.nextOp);
  }

  lemma AppendBudget(s: State, op: nat, bno: uint, data: Block)
    requires s.mode.Up? && BudgetInv(s) && Enabled(s, LogAppend(op, bno, data)) && Within(s, LogAppend(op, bno, data))
    ensures BudgetInv(DoAppend(s, op, bno, data))
  {
    var t := DoAppend(s, op, bno, data);
    if t.mode.Up? {
      var v := s.wrote[op] + {bno};
      UnusedUpdate(s.wrote, op, v, s.nextOp);
      assert bno in s.wrote[op] ==> v == s.wrote[op];
      forall b: nat | Lists(s.mode.lh, |s.mode.lh|, b) || b == bno ensures Lists(t.mode.lh, |t.mode.lh|, b) {
        if Lists(s.mode.lh, |s.mode.lh|, b) {
          var i :| 0 <= i < |s.mode.lh| && s.mode.lh[i] == b;
          assert t.mode.lh[i] == b;
        } else {
          assert t.mode.lh[|s.mode.lh|] == b;
        }
      }
    }
  }

  lemma EndBudget(s: State, op: nat)
    requires s.mode.Up? && BudgetInv(s) && op in s.wrote
    ensures BudgetInv(DoEnd(s, op))
  {
    UnusedRemove(s.wrote, op, s.nextOp);
  }

  lemma StepBudget(s: State, e: Step)
    requires Counted(s) && BudgetInv(s) && Enabled(s, e) && Within(s, e)
    ensures BudgetInv(Do(s, e))
  {
    match e
    case BeginOp => BeginBudget(s);
    case LogAppend(op, bno, data) => AppendBudget(s, op, bno, data);
    case LogCheck(op) =>
    case EndOp(op) => EndBudget(s, op);
    case _ => UnusedEmpty(s.nextOp);
  }

  /** A run whose operations keep to their budget. */
  ghost predicate BudgetRun(states: seq<State>, steps: seq<Step>) {
    Run(states, steps) && forall i :: 0 <= i < |steps| ==> Within(states[i], steps[i])
  }

  lemma {:induction false} RunBudget(states: seq<State>, steps: seq<Step>, k: nat)
    requires BudgetRun(states, steps) && k < |states|
    ensures BudgetInv(states[k])
  {
    if k > 0 {
      RunBudget(states, steps, k - 1);
      RunCounted(states, steps, k - 1);
      assert states[k - 1 + 1] == Do(states[k - 1], steps[k - 1]);
      StepBudget(states[k - 1], steps[k - 1]);
    }
  }

  lemma {:induction false} UnusedCovers(m: map<nat, set<uint>>, op: nat, n: nat)
    requires op in m && op < n && forall o :: o in m ==> |m[o]| <= MAXOPBLOCKS
    ensures Unused(m, n) >= MAXOPBLOCKS - |m[op]|
  {
    if n - 1 == op {
      UnusedNat(m, n - 1);
    } else {
      UnusedCovers(m, op, n - 1);
    }
  }

  lemma {:induction false} UnusedNat(m: map<nat, set<uint>>, n: nat)
    requires forall o :: o in m ==> |m[o]| <= MAXOPBLOCKS
    ensures Unused(m, n) >= 0
  {
    if n > 0 { UnusedNat(m, n - 1); }
  }

  /** A block within the budget of its operation finds its place in log.lh.block: the append index is in
      range, whoever else is past the test. */
  lemma RoomForBlock(s: State, e: Step)
    requires s.mode.Up? && BudgetInv(s) && e.LogAppend? && Within(s, e) && e.op < s.nextOp
    ensures |Absorb(s.mode.lh, e.bno)| <= LOGSIZE
  {
    UnusedNat(s.wrote, s.nextOp);
    if !Lists(s.mode.lh, |s.mode.lh|, e.bno) {
      UnusedCovers(s.wrote, e.op, s.nextOp);
      assert |s.wrote[e.op] + {e.bno}| == |s.wrote[e.op]| + 1;
    }
  }

  /** In a run within budget log_write panics exactly when log.lh.n has reached LOGSIZE or the on-disk log
      less one, and never for want of an open operation; with an on-disk log longer than LOGSIZE, exactly
      when log.lh.n is LOGSIZE. */
  lemma CheckPanics(states: seq<State>, steps: seq<Step>, k: nat)
    requires BudgetRun(states, steps) && k < |steps| && steps[k].LogCheck?
    ensures var s := states[k];
            && s.mode.Up?
            && (Do(s, steps[k]).mode.Panicked? <==> |s.mode.lh| >= LOGSIZE || |s.mode.lh| >= s.g.nlog - 1)
            && (s.g.nlog > LOGSIZE ==> (Do(s, steps[k]).mode.Panicked? <==> |s.mode.lh| == LOGSIZE))
  {
    var s := states[k];
    RunBudget(states, steps, k);
    RunCounted(states, steps, k);
    UnusedNat(s.wrote, s.nextOp);
    assert |s.wrote| != 0 by { assert steps[k].op in s.wrote; }
  }

  /** What follows the test never leaves log.lh.block in a run within budget; it finds a slot in the log, too,
      when the on-disk log is longer than LOGSIZE. */
  lemma AppendFits(states: seq<State>, steps: seq<Step>, k: nat)
    requires BudgetRun(states, steps) && k < |steps| && steps[k].LogAppend?
    ensures var s, e := states[k], steps[k];
            s.mode.Up? && Do(s, e).mode.Up? && |Do(s, e).mode.lh| <= LOGSIZE && (s.g.nlog > LOGSIZE ==> HasRoom(s, e))
  {
    RunBudget(states, steps, k);
    RunCounted(states, steps, k);
    RoomForBlock(states[k], steps[k]);
  }

  lemma {:induction false} SameLayout(states: seq<State>, steps: seq<Step>, k: nat)
    requires Run(states, steps) && k < |states|
    ensures states[k].g == states[0].g && states[k].base == states[0].base
  {
    if k > 0 {
      SameLayout(states, steps, k - 1);
      assert states[k - 1 + 1] == Do(states[k - 1], steps[k - 1]);
    }
  }

  /** So keeping to the budget is enough for all the guarantees of group commit if the on-disk log is longer
      than LOGSIZE, in every interleaving. */
  lemma BudgetIsSafe(states: seq<State>, steps: seq<Step>)
    requires BudgetRun(states, steps) && states[0].g.nlog > LOGSIZE
    ensures SafeRun(states, steps)
  {
    forall i | 0 <= i < |steps| ensures HasRoom(states[i], steps[i]) {
      SameLayout(states, steps, i);
      if steps[i].LogAppend? { AppendFits(states, steps, i); }
    }
  }

  // ---------------------------------------------------------------- three operations fill the log

  /** Three operations are open and have logged the k blocks from h on, in turns. */
  ghost predicate Filled(s: State, g: Layout, h: nat, k: nat) {
    && s.g == g && s.mode.Up? && !s.mode.committing && s.mode.outstanding == 3 && |s.mode.view| == g.size
    && InRow(s.mode.lh, h, k) && InTurns(s.wrote, h, k) && s.past == {}
    && s.cut == 0 && s.disk == s.base && CleanDisk(g, s.disk)
  }

  ghost predicate InRow(lh: seq<uint>, h: nat, k: nat) {
    |lh| == k && forall i :: 0 <= i < k ==> lh[i] == h + i
  }

  ghost predicate InTurns(wrote: map<nat, set<uint>>, h: nat, k: nat) {
    && wrote.Keys == {0, 1, 2} && (forall o :: 0 <= o < 3 ==> 3 * |wrote[o]| <= k + 2 - o)
    && (k > 0 ==> h + k - 1 in wrote[(k - 1) % 3])
  }

  lemma RowMore(lh: seq<uint>, h: nat, k: nat, next: nat, b: uint)
    requires InRow(lh, h, k) && next == k + 1 && b == h + k
    ensures Absorb(lh, b) == lh + [b] && InRow(lh + [b], h, next)
  {
  }

  lemma TurnsMore(wrote: map<nat, set<uint>>, h: nat, k: nat, next: nat, o: nat, b: uint)
    requires InTurns(wrote, h, k) && k < LOGSIZE && o == k % 3 && next == k + 1 && b == h + k
    ensures |wrote[o] + {b}| <= MAXOPBLOCKS && InTurns(wrote[o := wrote[o] + {b}], h, next)
  {
    assert o in wrote.Keys;
    assert |wrote[o] + {b}| <= |wrote[o]| + 1;
    assert wrote.Keys + {o} == {0, 1, 2};
  }

  /** The three have logged at most 28 blocks, in turns: the second and the third can log one more. */
  lemma TurnsLeft(wrote: map<nat, set<uint>>, h: nat, k: nat, o: nat, b: uint)
    requires InTurns(wrote, h, k) && k <= LOGSIZE - 2 && 1 <= o <= 2
    ensures o in wrote && |wrote[o] + {b}| <= MAXOPBLOCKS && wrote[o := wrote[o] + {b}].Keys == {0, 1, 2}
  {
    assert o in wrote.Keys;
    assert |wrote[o] + {b}| <= |wrote[o]| + 1;
    assert wrote.Keys + {o} == {0, 1, 2};
  }

  lemma Extend(states: seq<State>, steps: seq<Step>, e: Step) returns (states': seq<State>, steps': seq<Step>)
    requires BudgetRun(states, steps) && Enabled(states[|steps|], e) && Within(states[|steps|], e)
    ensures BudgetRun(states', steps') && |steps'| == |steps| + 1 && states'[|steps'|] == Do(states[|steps|], e)
    ensures states'[|steps|] == states[|steps|] && steps'[|steps|] == e && states'[0] == states[0]
  {
    var n, t := |steps|, Do(states[|steps|], e);
    states', steps' := states + [t], steps + [e];
    forall i | 0 <= i < |steps'| ensures Enabled(states'[i], steps'[i]) && states'[i + 1] == Do(states'[i], steps'[i]) && Within(states'[i], steps'[i]) {
      if i < n {
        assert states'[i] == states[i] && states'[i + 1] == states[i + 1] && steps'[i] == steps[i];
      } else {
        assert states'[i] == states[n] && states'[i + 1] == t && steps'[i] == e;
      }
    }
  }

  /** Recovery after the boot from disk d. */
  lemma {:induction false} Boot(g: Layout, d: Disk, k: nat) returns (states: seq<State>, steps: seq<Step>)
    requires WellFormed(g, d) && k <= |RecoverWrites(g, d)|
    ensures BudgetRun(states, steps) && states[0].disk == d
    ensures var s := states[|steps|];
            s.g == g && s.mode == Recovering && s.plan == RecoverWrites(g, d) && s.done == k && s.nextOp == 0 && s.wrote == map[]
            && s.past == {} && s.hist == [] && s.cut == 0 && s.base == Recovered(g, d) && s.disk == After(d, s.plan, k)
  {
    if k == 0 {
      states := [State(g, d, Recovering, RecoverWrites(g, d), 0, d, 0, map[], {}, [], [], 0, Recovered(g, d))];
      steps := [];
    } else {
      states, steps := Boot(g, d, k - 1);
      states, steps := Extend(states, steps, RecoverWrite);
    }
  }

  /** log_write of one block, with nothing in between, leads from s to t. */
  ghost predicate LogsTo(s: State, op: nat, bno: uint, data: Block, t: State) {
    && Enabled(s, LogCheck(op)) && Do(s, LogCheck(op)).mode.Up?
    && var u, e := Do(s, LogCheck(op)), LogAppend(op, bno, data); Enabled(u, e) && Within(u, e) && t == Do(u, e)
  }

  lemma Logs(states: seq<State>, steps: seq<Step>, op: nat, bno: uint, data: Block, t: State) returns (states': seq<State>, steps': seq<Step>)
    requires BudgetRun(states, steps) && LogsTo(states[|steps|], op, bno, data, t)
    ensures BudgetRun(states', steps') && states'[0] == states[0] && states'[|steps'|] == t
  {
    states', steps' := Extend(states, steps, LogCheck(op));
    states', steps' := Extend(states', steps', LogAppend(op, bno, data));
  }

  lemma {:induction false} Fill(g: Layout, d: Disk, h: nat, k: nat) returns (states: seq<State>, steps: seq<Step>)
    requires WellFormed(g, d) && g.start + g.nlog <= h && h + LOGSIZE <= g.size && k <= LOGSIZE && k < g.nlog
    ensures BudgetRun(states, steps) && Filled(states[|steps|], g, h, k) && states[0].disk == d
  {
    if k == 0 {
      states, steps := ThreeOpen(g, d);
    } else {
      states, steps := Fill(g, d, h, k - 1);
      states, steps := FillOne(states, steps, g, h, k - 1, k, (k - 1) % 3, h + k - 1);
    }
  }

  lemma FillOne(states: seq<State>, steps: seq<Step>, g: Layout, h: nat, k: nat, next: nat, o: nat, b: uint) returns (states': seq<State>, steps': seq<Step>)
    requires BudgetRun(states, steps) && Filled(states[|steps|], g, h, k) && g.Ok() && o == k % 3 && next == k + 1 && b == h + k
    requires g.start + g.nlog <= h && h + LOGSIZE <= g.size && k < LOGSIZE && k < g.nlog - 1
    ensures BudgetRun(states', steps') && Filled(states'[|steps'|], g, h, next) && states'[0] == states[0]
  {
    var t := FillStep(states[|steps|], g, h, k, next, o, b);
    states', steps' := Logs(states, steps, o, b, ZeroBlock, t);
  }

  lemma ThreeOpen(g: Layout, d: Disk) returns (states: seq<State>, steps: seq<Step>)
    requires WellFormed(g, d)
    ensures BudgetRun(states, steps) && states[0].disk == d && forall h: nat :: Filled(states[|steps|], g, h, 0)
  {
    states, steps := Boot(g, d, |RecoverWrites(g, d)|);
    RecoveredIsClean(g, d);
    states, steps := Extend(states, steps, RecoverDone);
    states, steps := Extend(states, steps, BeginOp);
    states, steps := Extend(states, steps, BeginOp);
    states, steps := Extend(states, steps, BeginOp);
  }

  lemma FillStep(s: State, g: Layout, h: nat, k: nat, next: nat, o: nat, b: uint) returns (t: State)
    requires Filled(s, g, h, k) && g.Ok() && o == k % 3 && next == k + 1 && b == h + k
    requires g.start + g.nlog <= h && h + LOGSIZE <= g.size && k < LOGSIZE && k < g.nlog - 1
    ensures LogsTo(s, o, b, ZeroBlock, t) && Filled(t, g, h, next)
  {
    RowMore(s.mode.lh, h, k, next, b);
    TurnsMore(s.wrote, h, k, next, o, b);
    t := Do(Do(s, LogCheck(o)), LogAppend(o, b, ZeroBlock));
  }

  /** With nlog == LOGSIZE, as mkfs lays the disk out, keeping to the budget is not enough to stay clear of the
      "too big a transaction" panic: three operations that log ten blocks each, as begin_op allows, reach it. */
  lemma BudgetedRunPanics(g: Layout, d: Disk) returns (states: seq<State>, steps: seq<Step>)
    requires WellFormed(g, d) && g.nlog == LOGSIZE && g.start + g.nlog + LOGSIZE <= g.size
    ensures BudgetRun(states, steps) && |steps| > 0 && states[|steps|].mode.Panicked?
    ensures var s, op := states[|steps| - 1], steps[|steps| - 1].op;
            steps[|steps| - 1] == LogCheck(op) && op in s.wrote && |s.wrote[op]| < MAXOPBLOCKS
  {
    states, steps := Fill(g, d, g.start + g.nlog, LOGSIZE - 1);
    assert 2 in states[|steps|].wrote.Keys;
    states, steps := Extend(states, steps, LogCheck(2));
  }

  /** A longer log does not help: with any nlog > LOGSIZE the three operations fill log.lh within their
      budgets, and the third panics when it logs once more a block that it has logged already. */
  lemma AbsorbedWritePanics(g: Layout, d: Disk) returns (states: seq<State>, steps: seq<Step>)
    requires WellFormed(g, d) && g.nlog > LOGSIZE && g.start + g.nlog + LOGSIZE <= g.size
    ensures BudgetRun(states, steps) && |steps| > 0 && states[|steps|].mode.Panicked?
    ensures var s, op := states[|steps| - 1], steps[|steps| - 1].op;
            steps[|steps| - 1] == LogCheck(op) && op in s.wrote && s.wrote[op] != {} && |s.mode.lh| == LOGSIZE
  {
    var h := g.start + g.nlog;
    states, steps := Fill(g, d, h, LOGSIZE);
    assert 2 in states[|steps|].wrote.Keys;
    states, steps := Extend(states, steps, LogCheck(2));
  }

  // ---------------------------------------------------------------- two operations past the test together

  /** The log has as many blocks as the header and its slots together: one too many. */
  ghost predicate Overfull(s: State, g: Layout, h: nat, data: Block) {
    && s.g == g && s.mode.Up? && !s.mode.committing && s.mode.outstanding == 3 && |s.mode.view| == g.size
    && InRow(s.mode.lh, h, g.nlog) && g.nlog > 0 && h + g.nlog <= g.size && s.mode.view[h + g.nlog - 1] == data
    && s.wrote.Keys == {0, 1, 2} && s.past == {}
    && s.cut == 0 && s.disk == s.base && CleanDisk(g, s.disk)
  }

  /** Operations 1 and 2 both find room for one block ... */
  lemma BothCheck(s: State, g: Layout, h: nat, k: nat) returns (s1: State, s2: State)
    requires Filled(s, g, h, k) && g.nlog == k + 2 <= LOGSIZE
    ensures Enabled(s, LogCheck(1)) && s1 == Do(s, LogCheck(1)) && Enabled(s1, LogCheck(2)) && s2 == Do(s1, LogCheck(2))
    ensures s2 == s.(past := {1, 2})
  {
    assert 1 in s.wrote.Keys && 2 in s.wrote.Keys;
    s1 := Do(s, LogCheck(1));
    s2 := Do(s1, LogCheck(2));
  }

  /** ... and then append one each. */
  lemma FirstAppends(s: State, g: Layout, h: nat, k: nat, b: uint) returns (t: State)
    requires Filled(s.(past := {}), g, h, k) && s.past == {1, 2} && g.nlog == k + 2 <= LOGSIZE && g.Ok() && g.start + g.nlog <= h && h + g.nlog <= g.size
    requires b == h + k
    ensures var e := LogAppend(1, b, ZeroBlock); Enabled(s, e) && Within(s, e) && t == Do(s, e)
    ensures t == s.(mode := t.mode, wrote := s.wrote[1 := s.wrote[1] + {b}], past := {2}, all := t.all, hist := t.hist)
    ensures t.mode == s.mode.(view := s.mode.view[b := ZeroBlock], lh := s.mode.lh + [b])
  {
    TurnsLeft(s.wrote, h, k, 1, b);
    RowMore(s.mode.lh, h, k, k + 1, b);
    t := Do(s, LogAppend(1, b, ZeroBlock));
    assert s.past - {1} == {2};
  }

  lemma SecondAppends(s: State, g: Layout, h: nat, k: nat, next: nat, b: uint, data: Block, wrote0: map<nat, set<uint>>, b0: uint) returns (t: State)
    requires s.g == g && s.mode.Up? && !s.mode.committing && s.mode.outstanding == 3 && |s.mode.view| == g.size && InRow(s.mode.lh, h, next)
    requires wrote0.Keys == {0, 1, 2} && 2 in wrote0 && |wrote0[2] + {b}| <= MAXOPBLOCKS && s.wrote == wrote0[1 := wrote0[1] + {b0}]
    requires s.past == {2} && next == k + 1
    requires s.cut == 0 && s.disk == s.base && CleanDisk(g, s.disk)
    requires g.nlog == k + 2 <= LOGSIZE && g.Ok() && g.start + g.nlog <= h && h + g.nlog <= g.size && b == h + next
    ensures var e := LogAppend(2, b, data); Enabled(s, e) && Within(s, e) && t == Do(s, e) && Overfull(t, g, h, data)
  {
    assert s.wrote[2] == wrote0[2] && s.wrote.Keys + {2} == {0, 1, 2};
    RowMore(s.mode.lh, h, next, g.nlog, b);
    t := Do(s, LogAppend(2, b, data));
    assert s.past - {2} == {};
  }

  lemma Overfill(g: Layout, d: Disk, h: nat, data: Block) returns (states: seq<State>, steps: seq<Step>)
    requires WellFormed(g, d) && g.nlog <= LOGSIZE && g.start + g.nlog <= h && h + LOGSIZE <= g.size
    ensures BudgetRun(states, steps) && Overfull(states[|steps|], g, h, data) && states[0].disk == d
  {
    var k: nat := g.nlog - 2;
    var next: nat := k + 1;
    states, steps := Fill(g, d, h, k);
    var s := states[|steps|];
    var s1, s2 := BothCheck(s, g, h, k);
    states, steps := Extend(states, steps, LogCheck(1));
    states, steps := Extend(states, steps, LogCheck(2));
    var s3 := FirstAppends(s2, g, h, k, h + k);
    states, steps := Extend(states, steps, LogAppend(1, h + k, ZeroBlock));
    RowMore(s2.mode.lh, h, k, next, h + k);
    TurnsLeft(s.wrote, h, k, 2, h + next);
    var s4 := SecondAppends(s3, g, h, k, next, h + next, data, s.wrote, h + k);
    states, steps := Extend(states, steps, LogAppend(2, h + next, data));
  }

  /** Its commit has made the first j writes, none of them the header. */
  ghost predicate Committing(s: State, g: Layout, h: nat, data: Block, j: nat) {
    && s.g == g && s.mode.Up? && s.mode.committing && s.cut == 0 && CleanDisk(g, s.base) && |s.mode.view| == g.size
    && |s.mode.lh| == g.nlog && h + g.nlog <= g.size && Loggable(g, s.mode.lh) && s.mode.lh[g.nlog - 1] == h + g.nlog - 1
    && s.mode.view[h + g.nlog - 1] == data && s.plan == CommitWrites(g, s.base[g.start], s.mode.lh, s.mode.view)
    && s.done == j <= g.nlog && s.disk == After(s.base, s.plan, j)
  }

  lemma EndsAll(states: seq<State>, steps: seq<Step>, g: Layout, h: nat, data: Block) returns (states': seq<State>, steps': seq<Step>)
    requires BudgetRun(states, steps) && Overfull(states[|steps|], g, h, data) && g.nlog <= LOGSIZE && g.start + g.nlog <= h && g.start + g.nlog < g.size
    ensures BudgetRun(states', steps') && Committing(states'[|steps'|], g, h, data, 0) && states'[0] == states[0]
  {
    var s := states[|steps|];
    assert 0 in s.wrote.Keys && 1 in s.wrote.Keys && 2 in s.wrote.Keys;
    states', steps' := Extend(states, steps, EndOp(0));
    states', steps' := Extend(states', steps', EndOp(1));
    states', steps' := Extend(states', steps', EndOp(2));
  }

  lemma {:induction false} CommitGoes(states: seq<State>, steps: seq<Step>, g: Layout, h: nat, data: Block, j: nat)
    returns (states': seq<State>, steps': seq<Step>)
    requires BudgetRun(states, steps) && Committing(states[|steps|], g, h, data, 0) && j <= g.nlog
    ensures BudgetRun(states', steps') && Committing(states'[|steps'|], g, h, data, j) && states'[0] == states[0]
  {
    if j == 0 {
      states', steps' := states, steps;
    } else {
      states', steps' := CommitGoes(states, steps, g, h, data, j - 1);
      states', steps' := Extend(states', steps', CommitWrite);
    }
  }

  /** A block of the log that is not there: the slot after the last is a home block, and a crash before the
      header is written leaves the copy in it. */
  lemma SlotIsHome(s: State, g: Layout, h: nat, data: Block)
    requires Committing(s, g, h, data, g.nlog)
    ensures WellFormed(g, s.disk) && Recovered(g, s.disk)[g.start + g.nlog] == data
  {
    AfterUntouched(s.base, s.plan, g.nlog, g.start);
    assert s.plan[g.nlog - 1] == Write(g.start + g.nlog, data);
    RecoverClean(g, s.disk);
  }

  /** With an on-disk log of LOGSIZE blocks or fewer, mkfs's among them, keeping to the budget is not enough.
      Two operations pass log_write's test for room before either appends, and the group then has one block
      more than the log has slots. Its commit writes the last one to the home block after the log, and a crash
      before the header is written leaves it there: nothing was committed, and yet that home block holds
      whatever the operation wrote elsewhere. */
  lemma BudgetIsNotEnough(g: Layout, d: Disk, data: Block) returns (states: seq<State>, steps: seq<Step>)
    requires WellFormed(g, d) && g.nlog <= LOGSIZE && g.start + g.nlog + 1 + LOGSIZE <= g.size
    ensures BudgetRun(states, steps) && !SafeRun(states, steps) && states[0].disk == d && states[0].g == g
    ensures var s := states[|steps|];
            && s.base == Recovered(g, d) && s.cut == 0 && WellFormed(g, s.disk) && !g.InLog(g.start + g.nlog)
            && Recovered(g, s.disk)[g.start + g.nlog] == data
            && (data != s.base[g.start + g.nlog] ==> !SameHome(g, Recovered(g, s.disk), s.base))
  {
    var h := g.start + g.nlog + 1;
    states, steps := Overfill(g, d, h, data);
    states, steps := EndsAll(states, steps, g, h, data);
    states, steps := CommitGoes(states, steps, g, h, data, g.nlog);
    SlotIsHome(states[|steps|], g, h, data);
    SameLayout(states, steps, |steps|);
    OverfullIsUnsafe(states, steps, g, h, data);
  }

  lemma OverfullIsUnsafe(states: seq<State>, steps: seq<Step>, g: Layout, h: nat, data: Block)
    requires BudgetRun(states, steps) && Committing(states[|steps|], g, h, data, g.nlog)
    ensures !SafeRun(states, steps)
  {
    if SafeRun(states, steps) { RunInv(states, steps, |steps|); }
  }

  /** On a disk with room for the operations, every run within budget is safe if and only if the on-disk log is
      longer than LOGSIZE. */
  lemma BudgetIsEnoughExactly(g: Layout, d: Disk)
    requires WellFormed(g, d) && g.start + g.nlog + 1 + LOGSIZE <= g.size
    ensures (forall states: seq<State>, steps: seq<Step> {:trigger SafeRun(states, steps)} ::
               BudgetRun(states, steps) && states[0].g == g && states[0].disk == d ==> SafeRun(states, steps))
            <==> g.nlog > LOGSIZE
  {
    if g.nlog > LOGSIZE {
      forall states: seq<State>, steps: seq<Step> | BudgetRun(states, steps) && states[0].g == g ensures SafeRun(states, steps) {
        BudgetIsSafe(states, steps);
      }
    } else {
      var states, steps := BudgetIsNotEnough(g, d, ZeroBlock);
    }
  }
}
