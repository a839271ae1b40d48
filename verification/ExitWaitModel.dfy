/** exit, wait, sleep, wakeup and kill of xv6-o/proc.c, as steps on the process table. Each step is one
    stretch of code under ptable.lock. fork writes np->parent before it takes the lock; only the child's
    parent looks at that field, and it is busy in fork, so the write counts with the step that follows. */
module ExitWaitModel {

  datatype PState = Unused | Embryo | Sleeping | Runnable | Running | Zombie

  /** wait sleeps on the address of its own process; every other sleep on something else. */
  datatype Chan = NoChan | OfProc(p: int) | Other(c: nat)

  /** A parent of -1 is the null pointer. */
  datatype Table = Table(state: seq<PState>, parent: seq<int>, chan: seq<Chan>, killed: seq<bool>)

  datatype Step =
    | Alloc(p: nat)
    | Drop(p: nat)
    | Fork(p: nat, np: nat)
    | Dispatch(p: nat)
    | Yield(p: nat)
    | Sleep(p: nat, c: nat)
    | Wakeup(c: nat)
    | Kill(p: nat)
    | Exit(p: nat)
    | Wait(p: nat)

  ghost predicate Sized(t: Table) {
    && |t.state| == |t.parent| == |t.chan| == |t.killed|
    && forall p :: 0 <= p < |t.parent| ==> -1 <= t.parent[p] < |t.state|
  }

  predicate Live(t: Table, p: int) {
    0 <= p < |t.state| && (t.state[p] == Sleeping || t.state[p] == Runnable || t.state[p] == Running)
  }

  predicate ZombieChild(t: Table, p: int, q: nat)
    requires |t.parent| == |t.state|
  {
    q < |t.state| && t.parent[q] == p && t.state[q] == Zombie
  }

  /** The zombie child that wait finds: the first in the table from slot n on; none is |t.state|. */
  function FirstZombie(t: Table, p: int, n: nat): (r: nat)
    requires |t.parent| == |t.state| && n <= |t.state|
    ensures n <= r <= |t.state| && (r < |t.state| ==> ZombieChild(t, p, r))
    ensures forall q :: n <= q < r ==> !ZombieChild(t, p, q)
    decreases |t.state| - n
  {
    if n == |t.state| || ZombieChild(t, p, n) then n else FirstZombie(t, p, n + 1)
  }

  ghost predicate HasZombie(t: Table, p: int)
    requires |t.parent| == |t.state|
  {
    exists q :: ZombieChild(t, p, q)
  }

  ghost predicate HasChild(t: Table, p: int) {
    exists q :: 0 <= q < |t.parent| && t.parent[q] == p
  }

  // ---------------------------------------------------------------- steps

  /** wakeup1 */
  function Woken(t: Table, on: Chan): Table
    requires |t.chan| == |t.state|
  {
    t.(state := seq(|t.state|, i requires 0 <= i < |t.state| => if t.state[i] == Sleeping && t.chan[i] == on then Runnable else t.state[i]))
  }

  /** exit: who is woken. */
  ghost predicate WokenByExit(t: Table, p: nat, init: nat, i: nat)
    requires Sized(t) && p < |t.state| && i < |t.state|
  {
    && t.state[i] == Sleeping
    && (t.chan[i] == OfProc(t.parent[p]) || (t.chan[i] == OfProc(init) && HasZombie(t, p)))
  }

  ghost function Exited(t: Table, p: nat, init: nat): Table
    requires Sized(t) && p < |t.state|
  {
    t.(state := seq(|t.state|, i requires 0 <= i < |t.state| =>
         if i == p then Zombie else if WokenByExit(t, p, init, i) then Runnable else t.state[i]),
       parent := seq(|t.state|, i requires 0 <= i < |t.state| => if t.parent[i] == p then init else t.parent[i]))
  }

  datatype Outcome = Reaped(child: nat) | Failed | Slept

  /** One round of wait's loop. */
  ghost function WaitOutcome(t: Table, p: nat): Outcome
    requires Sized(t) && p < |t.state|
  {
    var z := FirstZombie(t, p, 0);
    if z < |t.state| then Reaped(z) else if !HasChild(t, p) || t.killed[p] then Failed else Slept
  }

  function Reap(t: Table, z: nat): Table
    requires Sized(t) && z < |t.state|
  {
    t.(state := t.state[z := Unused], parent := t.parent[z := -1], killed := t.killed[z := false])
  }

  function SleepOn(t: Table, p: nat, on: Chan): Table
    requires Sized(t) && p < |t.state|
  {
    t.(state := t.state[p := Sleeping], chan := t.chan[p := on])
  }

  ghost function Waited(t: Table, p: nat): Table
    requires Sized(t) && p < |t.state|
  {
    match WaitOutcome(t, p)
    case Reaped(z) => Reap(t, z)
    case Failed => t
    case Slept => SleepOn(t, p, OfProc(p))
  }

  function SetState(t: Table, p: nat, s: PState): Table
    requires p < |t.state|
  {
    t.(state := t.state[p := s])
  }

  ghost predicate Enabled(t: Table, e: Step, init: nat)
    requires Sized(t)
  {
    match e
    case Alloc(p) => p < |t.state| && t.state[p] == Unused
    case Drop(p) => p < |t.state| && t.state[p] == Embryo
    case Fork(p, np) => p < |t.state| && np < |t.state| && t.state[p] == Running && t.state[np] == Embryo
    case Dispatch(p) => p < |t.state| && t.state[p] == Runnable
    case Yield(p) => p < |t.state| && t.state[p] == Running
    case Sleep(p, _) => p < |t.state| && t.state[p] == Running
    case Wakeup(_) => true
    case Kill(p) => p < |t.state|
    case Exit(p) => p < |t.state| && t.state[p] == Running && p != init
    case Wait(p) => p < |t.state| && t.state[p] == Running
  }

  ghost function Do(t: Table, e: Step, init: nat): Table
    requires Sized(t) && Enabled(t, e, init)
  {
    match e
    case Alloc(p) => SetState(t, p, Embryo)
    case Drop(p) => SetState(t, p, Unused)
    case Fork(p, np) => SetState(t, np, Runnable).(parent := t.parent[np := p])
    case Dispatch(p) => SetState(t, p, Running).(chan := t.chan[p := NoChan])
    case Yield(p) => SetState(t, p, Runnable)
    case Sleep(p, c) => SleepOn(t, p, Other(c))
    case Wakeup(c) => Woken(t, Other(c))
    case Kill(p) => (if t.state[p] == Sleeping then SetState(t, p, Runnable) else t).(killed := t.killed[p := true])
    case Exit(p) => Exited(t, p, init)
    case Wait(p) => Waited(t, p)
  }

  // ---------------------------------------------------------------- invariant

  ghost predicate AsleepInWait(t: Table, p: nat)
    requires |t.chan| == |t.state|
  {
    p < |t.state| && t.state[p] == Sleeping && t.chan[p] == OfProc(p)
  }

  ghost predicate LiveChild(t: Table, p: int, q: nat)
    requires |t.parent| == |t.state|
  {
    q < |t.state| && t.parent[q] == p && Live(t, q)
  }

  /** A free slot has no parent; everyone else's parent is alive, but for init, which has none. */
  ghost predicate ParentOk(t: Table, init: nat, p: nat)
    requires Sized(t) && p < |t.state|
  {
    if t.state[p] == Unused || t.state[p] == Embryo || p == init then t.parent[p] == -1
    else t.parent[p] != p && Live(t, t.parent[p])
  }

  /** A process asleep in wait has a live child, and no zombie one. */
  ghost predicate WaitOk(t: Table, p: nat)
    requires Sized(t) && p < |t.state|
  {
    && (AsleepInWait(t, p) ==> !HasZombie(t, p) && exists q :: LiveChild(t, p, q))
    && (t.state[p] == Sleeping && t.chan[p].OfProc? ==> t.chan[p] == OfProc(p))
  }

  ghost predicate Inv(t: Table, init: nat) {
    && Sized(t) && Live(t, init)
    && (forall p {:trigger ParentOk(t, init, p)} :: 0 <= p < |t.state| ==> ParentOk(t, init, p))
    && (forall p {:trigger WaitOk(t, p)} :: 0 <= p < |t.state| ==> WaitOk(t, p))
  }

  /** A step that leaves the families alone and puts no one to sleep in wait. */
  lemma QuietInv(t: Table, u: Table, init: nat)
    requires Inv(t, init) && Sized(u) && |u.state| == |t.state| && u.parent == t.parent
    requires forall p :: 0 <= p < |t.state| ==> (u.state[p] == Zombie <==> t.state[p] == Zombie) && (Live(u, p) <==> Live(t, p))
    requires forall p :: 0 <= p < |t.state| && u.state[p] == Sleeping && u.chan[p].OfProc? ==> t.state[p] == Sleeping && t.chan[p] == u.chan[p]
    ensures Inv(u, init)
  {
    forall p | 0 <= p < |u.state| ensures ParentOk(u, init, p) {
      assert ParentOk(t, init, p);
    }
    forall p | 0 <= p < |u.state| ensures WaitOk(u, p) {
      assert WaitOk(t, p);
      if AsleepInWait(u, p) {
        var c :| LiveChild(t, p, c);
        assert LiveChild(u, p, c);
        forall q: nat ensures !ZombieChild(u, p, q) {
          assert !ZombieChild(t, p, q);
        }
      }
    }
  }

  lemma ForkInv(t: Table, p: nat, np: nat, init: nat)
    requires Inv(t, init) && Enabled(t, Fork(p, np), init)
    ensures Inv(Do(t, Fork(p, np), init), init)
  {
    var u := Do(t, Fork(p, np), init);
    assert ParentOk(t, init, np);
    forall x | 0 <= x < |u.state| ensures ParentOk(u, init, x) {
      assert ParentOk(t, init, x);
    }
    forall x | 0 <= x < |u.state| ensures WaitOk(u, x) {
      assert WaitOk(t, x);
      if AsleepInWait(u, x) {
        var c :| LiveChild(t, x, c);
        assert LiveChild(u, x, c);
        forall q: nat ensures !ZombieChild(u, x, q) {
          assert !ZombieChild(t, x, q);
        }
      }
    }
  }

  /** Nobody whose child has just become a zombie, or been passed on as one, is left asleep. */
  lemma ExitWaitOk(t: Table, p: nat, init: nat, x: nat)
    requires Inv(t, init) && Enabled(t, Exit(p), init) && x < |t.state|
    ensures var u := Exited(t, p, init); WaitOk(u, x)
  {
    var u := Exited(t, p, init);
    assert WaitOk(t, x) && ParentOk(t, init, p);
    if AsleepInWait(u, x) {
      assert !WokenByExit(t, p, init, x);
      var c :| LiveChild(t, x, c);
      assert LiveChild(u, x, c);
      forall q: nat ensures !ZombieChild(u, x, q) {
        assert !ZombieChild(t, x, q);
        if q < |t.state| && q != p && t.parent[q] == p { assert x == init ==> !ZombieChild(t, p, q); }
      }
    }
  }

  lemma ExitInv(t: Table, p: nat, init: nat)
    requires Inv(t, init) && Enabled(t, Exit(p), init)
    ensures Inv(Exited(t, p, init), init)
  {
    var u := Exited(t, p, init);
    forall x | 0 <= x < |u.state| ensures ParentOk(u, init, x) {
      assert ParentOk(t, init, x);
    }
    forall x | 0 <= x < |u.state| ensures WaitOk(u, x) {
      ExitWaitOk(t, p, init, x);
    }
  }

  lemma ReapInv(t: Table, z: nat, init: nat)
    requires Inv(t, init) && z < |t.state| && t.state[z] == Zombie
    ensures Inv(Reap(t, z), init)
  {
    var u := Reap(t, z);
    forall x | 0 <= x < |u.state| ensures ParentOk(u, init, x) {
      assert ParentOk(t, init, x);
    }
    forall x | 0 <= x < |u.state| ensures WaitOk(u, x) {
      assert WaitOk(t, x);
      if AsleepInWait(u, x) {
        var c :| LiveChild(t, x, c);
        assert LiveChild(u, x, c);
        forall q: nat ensures !ZombieChild(u, x, q) {
          assert !ZombieChild(t, x, q);
        }
      }
    }
  }

  /** wait goes to sleep only when it has a child that is still alive. */
  lemma SleepInv(t: Table, p: nat, init: nat)
    requires Inv(t, init) && p < |t.state| && t.state[p] == Running && WaitOutcome(t, p) == Slept
    ensures Inv(SleepOn(t, p, OfProc(p)), init)
  {
    var u := SleepOn(t, p, OfProc(p));
    forall x | 0 <= x < |u.state| ensures ParentOk(u, init, x) {
      assert ParentOk(t, init, x);
    }
    var q0 :| 0 <= q0 < |t.parent| && t.parent[q0] == p;
    assert ParentOk(t, init, q0) && !ZombieChild(t, p, q0);
    assert LiveChild(u, p, q0);
    forall x | 0 <= x < |u.state| ensures WaitOk(u, x) {
      assert WaitOk(t, x);
      if AsleepInWait(u, x) {
        if x != p {
          var c :| LiveChild(t, x, c);
          assert LiveChild(u, x, c);
        }
        forall q: nat ensures !ZombieChild(u, x, q) {
          assert !ZombieChild(t, x, q);
        }
      }
    }
  }

  lemma DoInv(t: Table, e: Step, init: nat)
    requires Inv(t, init) && Enabled(t, e, init)
    ensures Inv(Do(t, e, init), init)
  {
    match e
    case Fork(p, np) => ForkInv(t, p, np, init);
    case Exit(p) => ExitInv(t, p, init);
    case Wait(p) =>
      var r := WaitOutcome(t, p);
      if r.Reaped? { ReapInv(t, r.child, init); } else if r.Slept? { SleepInv(t, p, init); }
    case _ => QuietInv(t, Do(t, e, init), init);
  }

  // ---------------------------------------------------------------- whole runs

  ghost predicate Init(t: Table, init: nat) {
    && Sized(t) && init < |t.state| && t.state[init] == Runnable
    && forall p :: 0 <= p < |t.state| ==> t.parent[p] == -1 && t.chan[p] == NoChan && (p != init ==> t.state[p] == Unused)
  }

  ghost predicate Run(ts: seq<Table>, steps: seq<Step>, init: nat) {
    && |ts| == |steps| + 1 && Init(ts[0], init)
    && forall i :: 0 <= i < |steps| ==> Sized(ts[i]) && Enabled(ts[i], steps[i], init) && ts[i + 1] == Do(ts[i], steps[i], init)
  }

  lemma InitInv(t: Table, init: nat)
    requires Init(t, init)
    ensures Inv(t, init)
  {
    forall p | 0 <= p < |t.state| ensures ParentOk(t, init, p) && WaitOk(t, p) {
    }
  }

  lemma {:induction false} RunInv(ts: seq<Table>, steps: seq<Step>, init: nat, k: nat)
    requires Run(ts, steps, init) && k <= |steps|
    ensures Inv(ts[k], init) && |ts[k].state| == |ts[0].state|
  {
    if k == 0 {
      InitInv(ts[0], init);
    } else {
      RunInv(ts, steps, init, k - 1);
      assert ts[k - 1 + 1] == Do(ts[k - 1], steps[k - 1], init);
      DoInv(ts[k - 1], steps[k - 1], init);
    }
  }

  /** No lost wakeup: in every reachable state a process asleep in wait has a live child to wait for and
      no zombie child, its own or passed on to it. */
  lemma NoZombieWaits(ts: seq<Table>, steps: seq<Step>, init: nat, k: nat, p: nat)
    requires Run(ts, steps, init) && k <= |steps| && Sized(ts[k]) && AsleepInWait(ts[k], p)
    ensures forall q :: 0 <= q < |ts[k].state| && ts[k].parent[q] == p ==> ts[k].state[q] != Zombie
    ensures exists q :: 0 <= q < |ts[k].state| && ts[k].parent[q] == p && Live(ts[k], q)
  {
    RunInv(ts, steps, init, k);
    var t := ts[k];
    assert WaitOk(t, p);
    var c :| LiveChild(t, p, c);
    forall q | 0 <= q < |t.state| && t.parent[q] == p ensures t.state[q] != Zombie {
      assert !ZombieChild(t, p, q);
    }
  }

  /** A process that has been killed does not go to sleep in wait, and one that sleeps there is woken: with no
      zombie child its wait fails. */
  ghost predicate AwakeIfKilled(t: Table) {
    Sized(t) && forall p :: 0 <= p < |t.state| && AsleepInWait(t, p) ==> !t.killed[p]
  }

  lemma StepAwake(t: Table, e: Step, init: nat)
    requires Inv(t, init) && Enabled(t, e, init) && AwakeIfKilled(t)
    ensures AwakeIfKilled(Do(t, e, init))
  {
    DoInv(t, e, init);
    var u := Do(t, e, init);
    forall p | 0 <= p < |u.state| && AsleepInWait(u, p) ensures !u.killed[p] {
      if e.Wait? && e.p == p { assert WaitOutcome(t, p) == Slept; } else { assert AsleepInWait(t, p); }
    }
  }

  lemma {:induction false} KilledIsAwake(ts: seq<Table>, steps: seq<Step>, init: nat, k: nat, p: nat)
    requires Run(ts, steps, init) && k <= |steps|
    ensures AwakeIfKilled(ts[k])
    ensures k < |steps| && steps[k] == Wait(p) && p < |ts[k].killed| && ts[k].killed[p] ==> !AsleepInWait(ts[k + 1], p)
  {
    RunInv(ts, steps, init, k);
    if k > 0 {
      KilledIsAwake(ts, steps, init, k - 1, p);
      RunInv(ts, steps, init, k - 1);
      assert ts[k - 1 + 1] == Do(ts[k - 1], steps[k - 1], init);
      StepAwake(ts[k - 1], steps[k - 1], init);
    }
  }

  /** Every zombie has a live parent that is not asleep in wait, so a wait that finds it is still to come. */
  lemma ZombieHasParent(ts: seq<Table>, steps: seq<Step>, init: nat, k: nat, z: nat)
    requires Run(ts, steps, init) && k <= |steps| && Sized(ts[k]) && z < |ts[k].state| && ts[k].state[z] == Zombie
    ensures var p := ts[k].parent[z]; p >= 0 && p != z && Live(ts[k], p) && !AsleepInWait(ts[k], p)
  {
    RunInv(ts, steps, init, k);
    var t := ts[k];
    assert ParentOk(t, init, z) && WaitOk(t, t.parent[z]) && ZombieChild(t, t.parent[z], z);
  }

  ghost predicate Reaps(t: Table, e: Step, z: nat) {
    e.Wait? && Sized(t) && e.p < |t.state| && WaitOutcome(t, e.p) == Reaped(z)
  }

  /** A slot becomes a zombie's by its own exit alone, and stops being one by its parent's wait alone. */
  lemma ZombieChanges(t: Table, e: Step, init: nat, z: nat)
    requires Inv(t, init) && Enabled(t, e, init) && z < |t.state|
    ensures var u := Do(t, e, init);
            && z < |u.state|
            && (t.state[z] != Zombie && u.state[z] == Zombie <==> e == Exit(z))
            && (t.state[z] == Zombie && u.state[z] != Zombie <==> Reaps(t, e, z))
            && (Reaps(t, e, z) ==> e.p == t.parent[z])
  {
  }

  ghost function Exits(steps: seq<Step>, k: nat, z: nat): nat
    requires k <= |steps|
  {
    if k == 0 then 0 else Exits(steps, k - 1, z) + if steps[k - 1] == Exit(z) then 1 else 0
  }

  ghost function Reapings(ts: seq<Table>, steps: seq<Step>, k: nat, z: nat): nat
    requires k <= |steps| && |ts| == |steps| + 1
  {
    if k == 0 then 0 else Reapings(ts, steps, k - 1, z) + if Reaps(ts[k - 1], steps[k - 1], z) then 1 else 0
  }

  /** Every zombie is reaped once: a slot's exits are its reapings, plus one while it holds a zombie. */
  lemma {:induction false} ReapedOnce(ts: seq<Table>, steps: seq<Step>, init: nat, k: nat, z: nat)
    requires Run(ts, steps, init) && k <= |steps| && z < |ts[0].state|
    ensures |ts[k].state| == |ts[0].state|
    ensures Exits(steps, k, z) == Reapings(ts, steps, k, z) + if ts[k].state[z] == Zombie then 1 else 0
  {
    RunInv(ts, steps, init, k);
    if k > 0 {
      ReapedOnce(ts, steps, init, k - 1, z);
      RunInv(ts, steps, init, k - 1);
      assert ts[k - 1 + 1] == Do(ts[k - 1], steps[k - 1], init);
      ZombieChanges(ts[k - 1], steps[k - 1], init, z);
    }
  }
}
