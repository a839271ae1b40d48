/** acquiresleep and releasesleep of xv6-l/sleeplock.c over sleep, wakeup and the scheduler of xv6-o/proc.c,
    as a machine of program counters: any number of processes, each on a CPU of its own when it runs. The
    spinlocks are taken and released in single steps; between any two steps any other process, the
    scheduler or kill may act. */
module SleepLock {

  datatype Owner = Free | By(p: nat) | Scheduler

  datatype PState = Running | Runnable | Sleeping

  /** The places where no spinlock is held, so that a timer interrupt can come. */
  datatype Place = AtOut | AtAcquire | AtInside | AtRelease

  /** Where a process is. */
  datatype Pc =
    | Out                    // neither holds nor wants the sleep lock
    | WantSpin               // acquiresleep: at acquire(&lk->lk)
    | Test                   // at while (lk->locked)
    | Took                   // locked is set; at release(&lk->lk)
    | Inside                 // holds the sleep lock
    | WantTable              // sleep: at acquire(&ptable.lock)
    | DropSpin               // at release(lk)
    | GoSleep                // at p->chan = chan; p->state = SLEEPING
    | CallSched              // at sched()
    | Asleep                 // switched away
    | Tidy                   // back from sched(), at p->chan = 0
    | DropTable              // at release(&ptable.lock)
    | WantRelease            // releasesleep: at acquire(&lk->lk)
    | Clear                  // at lk->locked = 0
    | WantWake               // wakeup: at acquire(&ptable.lock)
    | Wake(i: nat)           // wakeup1: at process i of the table
    | WakeDone               // at release(&ptable.lock)
    | LastDrop               // at release(&lk->lk)
    | YieldTable(back: Place) // yield, interrupting the code at this place: at acquire(&ptable.lock)
    | YieldOff(back: Place)   // at p->state = RUNNABLE; sched()
    | Off(back: Place)        // switched away
    | YieldBack(back: Place)  // at release(&ptable.lock)
    | Away(back: Place)       // asleep on some other channel

  datatype Proc = Proc(state: PState, chan: nat, pc: Pc)

  /** The channel of this sleep lock. */
  const LK: nat := 1

  /** holder is lk->pid while lk->locked. */
  datatype State = State(spin: Owner, table: Owner, locked: bool, holder: nat, procs: seq<Proc>)

  predicate HoldsSpin(pc: Pc) {
    pc.Test? || pc.Took? || pc.WantTable? || pc.DropSpin? || pc.Clear? || pc.WantWake? || pc.Wake? || pc.WakeDone? || pc.LastDrop?
  }

  predicate HoldsTable(pc: Pc) {
    pc.DropSpin? || pc.GoSleep? || pc.CallSched? || pc.Tidy? || pc.DropTable? || pc.Wake? || pc.WakeDone? || pc.YieldOff? || pc.YieldBack?
  }

  predicate HoldsLock(pc: Pc) {
    || pc.Took? || pc.Inside? || pc.WantRelease? || pc.Clear?
    || ((pc.YieldTable? || pc.YieldOff? || pc.Off? || pc.YieldBack? || pc.Away?) && (pc.back.AtInside? || pc.back.AtRelease?))
  }

  function Back(back: Place): Pc {
    match back
    case AtOut => Out
    case AtAcquire => WantSpin
    case AtInside => Inside
    case AtRelease => WantRelease
  }

  predicate Interruptible(pc: Pc) {
    pc.Out? || pc.WantSpin? || pc.Inside? || pc.WantRelease?
  }

  function Here(pc: Pc): (r: Place)
    requires Interruptible(pc)
    ensures Back(r) == pc
  {
    if pc.Out? then AtOut else if pc.WantSpin? then AtAcquire else if pc.Inside? then AtInside else AtRelease
  }

  function Put(s: State, p: nat, pc: Pc): State
    requires p < |s.procs|
  {
    s.(procs := s.procs[p := s.procs[p].(pc := pc)])
  }

  function PutState(s: State, p: nat, pc: Pc, state: PState, chan: nat): State
    requires p < |s.procs|
  {
    s.(procs := s.procs[p := Proc(state, chan, pc)])
  }

  /** One step of process p at its program counter. */
  ghost predicate Steps(s: State, s': State, p: nat)
    requires p < |s.procs|
  {
    s.procs[p].state == Running &&
    match s.procs[p].pc
    case Out => s' == Put(s, p, WantSpin)
    case WantSpin => s.spin == Free && s' == Put(s, p, Test).(spin := By(p))
    case Test =>
      if s.locked then s' == Put(s, p, WantTable)
      else s' == Put(s, p, Took).(locked := true, holder := p)
    case Took => s' == Put(s, p, Inside).(spin := Free)
    case Inside => s' == Put(s, p, WantRelease)
    case WantTable => s.table == Free && s' == Put(s, p, DropSpin).(table := By(p))
    case DropSpin => s' == Put(s, p, GoSleep).(spin := Free)
    case GoSleep => s' == PutState(s, p, CallSched, Sleeping, LK)
    case CallSched => false
    case Asleep => false
    case Tidy => s' == PutState(s, p, DropTable, Running, 0)
    case DropTable => s' == Put(s, p, WantSpin).(table := Free)
    case WantRelease => s.spin == Free && s' == Put(s, p, Clear).(spin := By(p))
    case Clear => s' == Put(s, p, WantWake).(locked := false, holder := 0)
    case WantWake => s.table == Free && s' == Put(s, p, Wake(0)).(table := By(p))
    case Wake(i) =>
      if i >= |s.procs| then s' == Put(s, p, WakeDone)
      else if s.procs[i].state == Sleeping && s.procs[i].chan == LK then
        s' == Put(s.(procs := s.procs[i := s.procs[i].(state := Runnable)]), p, Wake(i + 1))
      else s' == Put(s, p, Wake(i + 1))
    case WakeDone => s' == Put(s, p, LastDrop).(table := Free)
    case LastDrop => s' == Put(s, p, Out).(spin := Free)
    case YieldTable(b) => s.table == Free && s' == Put(s, p, YieldOff(b)).(table := By(p))
    case YieldOff(b) => s' == PutState(s, p, Off(b), Runnable, s.procs[p].chan).(table := Scheduler)
    case Off(_) => false
    case YieldBack(b) => s' == Put(s, p, Back(b)).(table := Free)
    case Away(_) => false
  }

  /** The switch away of a process that has gone to sleep, and the scheduler's choice of process p. */
  ghost predicate Switches(s: State, s': State, p: nat)
    requires p < |s.procs|
  {
    var x := s.procs[p];
    || (x.pc.CallSched? && s' == Put(s, p, Asleep).(table := Scheduler))
    || (s.table == Scheduler && x.state == Runnable && x.pc.Asleep? && s' == PutState(s, p, Tidy, Running, x.chan).(table := By(p)))
    || (s.table == Scheduler && x.state == Runnable && x.pc.Off? && s' == PutState(s, p, YieldBack(x.pc.back), Running, x.chan).(table := By(p)))
    || (s.table == Scheduler && x.state == Runnable && x.pc.Away? && s' == PutState(s, p, Back(x.pc.back), Running, 0).(table := Free))
  }

  /** A timer interrupt; a kill, or a wakeup on another channel, that ends a sleep; a sleep elsewhere. */
  ghost predicate Disturbs(s: State, s': State, p: nat)
    requires p < |s.procs|
  {
    var x := s.procs[p];
    || (x.state == Running && Interruptible(x.pc) && s' == Put(s, p, YieldTable(Here(x.pc))))
    || (s.table == Free && x.state == Sleeping && s' == s.(procs := s.procs[p := x.(state := Runnable)]))
    || (s.table == Free && x.state == Running && (x.pc.Out? || x.pc.Inside?)
        && var away := Away(Here(x.pc)); exists c :: c != LK && s' == PutState(s, p, away, Sleeping, c).(table := Scheduler))
  }

  ghost predicate SchedulerTurns(s: State, s': State) {
    || (s.table == Free && s' == s.(table := Scheduler))
    || (s.table == Scheduler && s' == s.(table := Free))
  }

  ghost predicate Next(s: State, s': State) {
    || SchedulerTurns(s, s')
    || exists p: nat :: p < |s.procs| && (Steps(s, s', p) || Switches(s, s', p) || Disturbs(s, s', p))
  }

  // ---------------------------------------------------------------- invariant

  /** The spinlock's holder is on its way to wake process p. */
  ghost predicate WakeComing(s: State, p: nat) {
    s.spin.By? && s.spin.p < |s.procs| && var pc := s.procs[s.spin.p].pc; pc.WantWake? || (pc.Wake? && pc.i <= p)
  }

  ghost predicate Placed(x: Proc) {
    if x.pc.CallSched? then x.state == Sleeping && x.chan == LK
    else if x.pc.Asleep? then (x.state == Sleeping || x.state == Runnable) && x.chan == LK
    else if x.pc.Off? then x.state == Runnable
    else if x.pc.Away? then (x.state == Sleeping || x.state == Runnable) && x.chan != LK
    else x.state == Running
  }

  ghost predicate ProcOk(s: State, p: nat)
    requires p < |s.procs|
  {
    var x := s.procs[p];
    && Placed(x)
    && (HoldsSpin(x.pc) <==> s.spin == By(p)) && (HoldsTable(x.pc) <==> s.table == By(p))
    && (HoldsLock(x.pc) <==> s.locked && s.holder == p)
    && (x.pc.WantTable? || x.pc.DropSpin? ==> s.locked)
    && (x.pc.GoSleep? ==> s.locked || WakeComing(s, p))
    && (x.state == Sleeping && x.chan == LK ==> s.locked || WakeComing(s, p))
  }

  ghost predicate Inv(s: State) {
    && (s.spin.By? ==> s.spin.p < |s.procs|) && !s.spin.Scheduler? && (s.table.By? ==> s.table.p < |s.procs|)
    && (s.locked ==> s.holder < |s.procs|)
    && forall p {:trigger ProcOk(s, p)} :: 0 <= p < |s.procs| ==> ProcOk(s, p)
  }

  ghost predicate Init(s: State) {
    && s.spin == Free && s.table == Free && !s.locked
    && forall p :: 0 <= p < |s.procs| ==> s.procs[p].state == Running && s.procs[p].pc == Out
  }

  lemma AcquireInv(s: State, s': State, p: nat)
    requires Inv(s) && p < |s.procs| && Steps(s, s', p)
    requires var pc := s.procs[p].pc; pc.Out? || pc.WantSpin? || pc.Test? || pc.Took? || pc.Inside?
    ensures Inv(s')
  {
    assert ProcOk(s, p);
    forall q | 0 <= q < |s'.procs| ensures ProcOk(s', q) {
      assert ProcOk(s, q);
    }
  }

  lemma SleepInv(s: State, s': State, p: nat)
    requires Inv(s) && p < |s.procs| && Steps(s, s', p)
    requires var pc := s.procs[p].pc; pc.WantTable? || pc.DropSpin? || pc.GoSleep? || pc.Tidy? || pc.DropTable?
    ensures Inv(s')
  {
    assert ProcOk(s, p);
    forall q | 0 <= q < |s'.procs| ensures ProcOk(s', q) {
      assert ProcOk(s, q);
    }
  }

  lemma ReleaseInv(s: State, s': State, p: nat)
    requires Inv(s) && p < |s.procs| && Steps(s, s', p)
    requires var pc := s.procs[p].pc; pc.WantRelease? || pc.Clear? || pc.WantWake? || pc.WakeDone? || pc.LastDrop?
    ensures Inv(s')
  {
    assert ProcOk(s, p);
    forall q | 0 <= q < |s'.procs| ensures ProcOk(s', q) {
      assert ProcOk(s, q);
    }
  }

  lemma WakeInv(s: State, s': State, p: nat)
    requires Inv(s) && p < |s.procs| && Steps(s, s', p)
    requires var pc := s.procs[p].pc; pc.Wake?
    ensures Inv(s')
  {
    assert ProcOk(s, p);
    forall q | 0 <= q < |s'.procs| ensures ProcOk(s', q) {
      assert ProcOk(s, q);
    }
  }

  lemma YieldInv(s: State, s': State, p: nat)
    requires Inv(s) && p < |s.procs| && Steps(s, s', p)
    requires var pc := s.procs[p].pc; pc.YieldTable? || pc.YieldOff? || pc.YieldBack?
    ensures Inv(s')
  {
    assert ProcOk(s, p);
    forall q | 0 <= q < |s'.procs| ensures ProcOk(s', q) {
      assert ProcOk(s, q);
    }
  }

  lemma StepInv(s: State, s': State, p: nat)
    requires Inv(s) && p < |s.procs| && Steps(s, s', p)
    ensures Inv(s')
  {
    var pc := s.procs[p].pc;
    if pc.Out? || pc.WantSpin? || pc.Test? || pc.Took? || pc.Inside? {
      AcquireInv(s, s', p);
    } else if pc.WantTable? || pc.DropSpin? || pc.GoSleep? || pc.Tidy? || pc.DropTable? {
      SleepInv(s, s', p);
    } else if pc.WantRelease? || pc.Clear? || pc.WantWake? || pc.WakeDone? || pc.LastDrop? {
      ReleaseInv(s, s', p);
    } else if pc.Wake? {
      WakeInv(s, s', p);
    } else {
      YieldInv(s, s', p);
    }
  }

  lemma DisturbInv(s: State, s': State, p: nat)
    requires Inv(s) && p < |s.procs| && Disturbs(s, s', p)
    ensures Inv(s')
  {
    assert ProcOk(s, p);
    forall q | 0 <= q < |s'.procs| ensures ProcOk(s', q) {
      assert ProcOk(s, q);
    }
  }

  /** The switch away after going to sleep. */
  lemma AsleepInv(s: State, s': State, p: nat)
    requires Inv(s) && p < |s.procs| && s.procs[p].pc.CallSched? && Switches(s, s', p)
    ensures Inv(s')
  {
    assert ProcOk(s, p);
    forall q | 0 <= q < |s'.procs| ensures ProcOk(s', q) {
      assert ProcOk(s, q);
    }
  }

  lemma SwitchInv(s: State, s': State, p: nat)
    requires Inv(s) && p < |s.procs| && Switches(s, s', p)
    ensures Inv(s')
  {
    if s.procs[p].pc.CallSched? {
      AsleepInv(s, s', p);
    } else {
      assert ProcOk(s, p);
      forall q | 0 <= q < |s'.procs| ensures ProcOk(s', q) {
        assert ProcOk(s, q);
      }
    }
  }

  lemma TurnInv(s: State, s': State)
    requires Inv(s) && SchedulerTurns(s, s')
    ensures Inv(s')
  {
    forall q | 0 <= q < |s'.procs| ensures ProcOk(s', q) {
      assert ProcOk(s, q);
    }
  }

  ghost predicate Run(ss: seq<State>) {
    |ss| > 0 && Init(ss[0]) && forall i :: 0 <= i < |ss| - 1 ==> Next(ss[i], ss[i + 1])
  }

  lemma {:induction false} RunInv(ss: seq<State>, k: nat)
    requires Run(ss) && k < |ss|
    ensures Inv(ss[k])
  {
    if k == 0 {
      forall p | 0 <= p < |ss[0].procs| ensures ProcOk(ss[0], p) {
      }
    } else {
      RunInv(ss, k - 1);
      var s, s' := ss[k - 1], ss[k];
      assert Next(ss[k - 1], ss[k - 1 + 1]);
      if SchedulerTurns(s, s') {
        TurnInv(s, s');
      } else {
        var p: nat :| p < |s.procs| && (Steps(s, s', p) || Switches(s, s', p) || Disturbs(s, s', p));
        if Steps(s, s', p) { StepInv(s, s', p); } else if Switches(s, s', p) { SwitchInv(s, s', p); } else { DisturbInv(s, s', p); }
      }
    }
  }

  /** Mutual exclusion: in every reachable state at most one process holds the sleep lock, and lk->pid
      names it. */
  lemma MutualExclusion(ss: seq<State>, k: nat, p: nat, q: nat)
    requires Run(ss) && k < |ss| && p < |ss[k].procs| && q < |ss[k].procs|
    requires HoldsLock(ss[k].procs[p].pc) && HoldsLock(ss[k].procs[q].pc)
    ensures p == q == ss[k].holder && ss[k].locked
  {
    RunInv(ss, k);
    assert ProcOk(ss[k], p) && ProcOk(ss[k], q);
  }

  /** No lost wakeup: whenever the sleep lock's spinlock is free, a process asleep on it means that some
      other process holds the sleep lock, which has its wakeup still to do. */
  lemma NoLostWakeup(ss: seq<State>, k: nat, p: nat)
    requires Run(ss) && k < |ss| && p < |ss[k].procs|
    requires ss[k].spin == Free && ss[k].procs[p].state == Sleeping && ss[k].procs[p].chan == LK
    ensures ss[k].locked && ss[k].holder < |ss[k].procs| && ss[k].holder != p && HoldsLock(ss[k].procs[ss[k].holder].pc)
  {
    RunInv(ss, k);
    assert ProcOk(ss[k], p) && ProcOk(ss[k], ss[k].holder);
  }
}
