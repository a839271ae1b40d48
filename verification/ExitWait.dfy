/** The process table of xv6-o/proc.c, and the loops of wakeup1, exit and wait over it. */
module ExitWait {
  import opened ExitWaitModel

  class ProcTable {
    const init: nat
    var state: seq<PState>
    var parent: seq<int>
    var chan: seq<Chan>
    var killed: seq<bool>

    ghost function State(): Table
      reads this
    {
      Table(state, parent, chan, killed)
    }

    ghost predicate Valid()
      reads this
    {
      Inv(State(), init)
    }

    /** userinit: the first process, alone in a table of n slots. */
    constructor (n: nat, first: nat)
      requires first < n
      ensures Valid() && Init(State(), init) && |state| == n
    {
      init := first;
      state := seq(n, i => Unused)[first := Runnable];
      parent := seq(n, i => -1);
      chan := seq(n, i => NoChan);
      killed := seq(n, i => false);
      new;
      InitInv(State(), init);
    }

    method Wakeup1(on: Chan)
      requires Sized(State())
      modifies this`state
      ensures State() == Woken(old(State()), on)
    {
      for p := 0 to |state|
        invariant |state| == old(|state|)
        invariant forall i :: 0 <= i < |state| ==>
                    state[i] == if i < p then Woken(old(State()), on).state[i] else old(state)[i]
      {
        if state[p] == Sleeping && chan[p] == on {
          state := state[p := Runnable];
        }
      }
    }

    /** exit's loop: the children of cur go to init, which is woken if one of them is a zombie. */
    method PassChildren(cur: nat, ghost t: Table)
      requires Sized(t) && cur < |t.state| && Live(t, init) && parent == t.parent && chan == t.chan && killed == t.killed && |state| == |t.state|
      requires forall i :: 0 <= i < |state| ==> state[i] == ExitState(t, cur, init, false, i)
      modifies this`state, this`parent
      ensures |state| == |t.state| && forall i :: 0 <= i < |state| ==> state[i] == ExitState(t, cur, init, HasZombie(t, cur), i)
      ensures parent == Exited(t, cur, init).parent
    {
      ghost var woke := false;
      for p := 0 to |state|
        invariant |state| == |parent| == |t.state|
        invariant forall i :: 0 <= i < |parent| ==> parent[i] == if i < p && t.parent[i] == cur then init else t.parent[i]
        invariant woke <==> exists q: nat :: q < p && ZombieChild(t, cur, q)
        invariant forall i :: 0 <= i < |state| ==> state[i] == ExitState(t, cur, init, woke, i)
      {
        if parent[p] == cur {
          parent := parent[p := init];
          if state[p] == Zombie {
            assert ZombieChild(t, cur, p);
            Wakeup1(OfProc(init));
            woke := true;
          }
        }
      }
      assert woke <==> HasZombie(t, cur);
    }

    /** exit, up to its call of sched. False is the panic "init exiting". */
    method Exit(cur: nat) returns (ok: bool)
      requires Valid() && cur < |state| && state[cur] == Running
      modifies this`state, this`parent
      ensures Valid() && (ok <==> cur != init)
      ensures State() == if ok then Exited(old(State()), cur, init) else old(State())
      ensures ok ==> state[cur] == Zombie && chan == old(chan) && killed == old(killed) && |state| == |parent| == old(|state|)
      ensures ok ==> forall i :: 0 <= i < |parent| ==> parent[i] == if old(parent[i]) == cur then init else old(parent[i])
      ensures ok ==> forall i :: 0 <= i < |state| && i != cur ==>
                var toParent := old(chan[i]) == OfProc(old(parent[cur]));
                var toInit := old(chan[i]) == OfProc(init) && HasZombie(old(State()), cur);
                state[i] == if old(state[i]) == Sleeping && (toParent || toInit) then Runnable else old(state[i])
    {
      if cur == init { return false; }
      ghost var t := State();
      ExitInv(t, cur, init);
      Wakeup1(OfProc(parent[cur]));
      PassChildren(cur, t);
      state := state[cur := Zombie];
      assert state == Exited(t, cur, init).state;
      return true;
    }

    /** One round of wait's loop: the scan, and what follows from it. */
    method Wait(cur: nat) returns (r: Outcome)
      requires Valid() && cur < |state| && state[cur] == Running
      modifies this
      ensures Valid() && r == WaitOutcome(old(State()), cur) && State() == Waited(old(State()), cur)
      ensures r.Reaped? ==>
                && ZombieChild(old(State()), cur, r.child) && (forall q: nat :: q < r.child ==> !ZombieChild(old(State()), cur, q))
                && state == old(state)[r.child := Unused] && parent == old(parent)[r.child := -1]
      ensures !r.Reaped? ==> !HasZombie(old(State()), cur)
      ensures r == Failed ==> unchanged(this) && (killed[cur] || forall q :: 0 <= q < |parent| ==> parent[q] != cur)
      ensures r == Slept ==>
                && !killed[cur] && (exists q :: 0 <= q < |parent| && parent[q] == cur) && parent == old(parent)
                && state == old(state)[cur := Sleeping] && chan == old(chan)[cur := OfProc(cur)]
    {
      ghost var t := State();
      DoInv(t, Step.Wait(cur), init);
      var havekids := false;
      for p := 0 to |state|
        invariant State() == t
        invariant FirstZombie(t, cur, 0) == FirstZombie(t, cur, p)
        invariant havekids <==> exists q :: 0 <= q < p && t.parent[q] == cur
      {
        if parent[p] == cur {
          havekids := true;
          if state[p] == Zombie {
            parent := parent[p := -1];
            killed := killed[p := false];
            state := state[p := Unused];
            return Reaped(p);
          }
        }
      }
      if !havekids || killed[cur] {
        return Failed;
      }
      chan := chan[cur := OfProc(cur)];
      state := state[cur := Sleeping];
      r := Slept;
    }
  }

  /** exit's loop, seen from process i: woken as the parent, or as init once a zombie was passed to it. */
  ghost function ExitState(t: Table, cur: nat, init: nat, woke: bool, i: nat): PState
    requires Sized(t) && cur < |t.state| && i < |t.state|
  {
    if t.state[i] == Sleeping && (t.chan[i] == OfProc(t.parent[cur]) || (woke && t.chan[i] == OfProc(init))) then Runnable
    else t.state[i]
  }
}
