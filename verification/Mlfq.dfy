/** The process table of xv6-l/proc.c with its intrusive queues: each level has a head, a last and a count,
    and the processes on it are chained through their next fields. */
module Mlfq {
  import opened Common
  import opened MlfqModel

  /** Following next from head for count steps visits the queue in order and ends at last. What next holds
      beyond that is left over from earlier and means nothing. */
  ghost predicate Chain(queue: seq<nat>, next: seq<nat>, head: nat, last: nat, count: nat) {
    && count == |queue| && |next| == NPROC && (forall k :: 0 <= k < |queue| ==> queue[k] < NPROC)
    && (count > 0 ==> head == queue[0] && last == queue[count - 1])
    && (forall k {:trigger next[queue[k]]} :: 0 <= k < count - 1 ==> next[queue[k]] == queue[k + 1])
  }

  /** No process is queued twice, at one level or at two. */
  ghost predicate AllDistinct(queues: seq<seq<nat>>) {
    forall q, r, j, k ::
      (0 <= q < |queues| && 0 <= r < |queues| && 0 <= j < |queues[q]| && 0 <= k < |queues[r]| && queues[q][j] == queues[r][k])
      ==> q == r && j == k
  }

  ghost predicate Chains(queues: seq<seq<nat>>, next: seq<nat>, head: seq<nat>, last: seq<nat>, count: seq<nat>) {
    && |queues| == |head| == |last| == |count| == NPROCQ && |next| == NPROC && AllDistinct(queues)
    && forall q :: 0 <= q < NPROCQ ==> Chain(queues[q], next, head[q], last[q], count[q])
  }

  /** Appending p behind last, when p is in no queue. */
  lemma ChainAppend(queue: seq<nat>, next: seq<nat>, head: nat, last: nat, p: nat)
    requires Chain(queue, next, head, last, |queue|) && |queue| > 0 && p < NPROC && p !in queue && Distinct(queue)
    ensures Chain(queue + [p], next[p := head][last := p], head, p, |queue| + 1)
  {
    var q', n' := queue + [p], next[p := head][last := p];
    forall k | 0 <= k < |queue| ensures n'[q'[k]] == q'[k + 1] {
      if k < |queue| - 1 { assert next[queue[k]] == queue[k + 1]; }
    }
  }

  /** Another level's chain does not run through p or through this level's last. */
  lemma ChainKept(queue: seq<nat>, next: seq<nat>, head: nat, last: nat, count: nat, p: nat, x: nat, y: nat, l: nat)
    requires Chain(queue, next, head, last, count) && p < NPROC && l < NPROC && p !in queue && l !in queue
    ensures Chain(queue, next[p := x][l := y], head, last, count)
  {
  }

  lemma ChainPop(queue: seq<nat>, next: seq<nat>, head: nat, last: nat, count: nat)
    requires Chain(queue, next, head, last, count) && count > 0
    ensures head < |next| && Chain(queue[1..], next, next[head], last, count - 1)
  {
    var q' := queue[1..];
    if count > 1 { assert next[queue[0]] == queue[1]; }
    forall k | 0 <= k < count - 2 ensures next[q'[k]] == q'[k + 1] {
      assert next[queue[k + 1]] == queue[k + 2];
    }
  }

  lemma PushEmpty(queues: seq<seq<nat>>, next: seq<nat>, head: seq<nat>, last: seq<nat>, count: seq<nat>, q: nat, p: nat)
    requires Chains(queues, next, head, last, count) && q < NPROCQ && p < NPROC && count[q] == 0
    requires forall r :: 0 <= r < NPROCQ ==> p !in queues[r]
    ensures Chains(queues[q := queues[q] + [p]], next[p := p], head[q := p], last[q := p], count[q := count[q] + 1])
  {
    PushDistinct(queues, q, p);
    forall r | 0 <= r < NPROCQ && r != q ensures Chain(queues[r], next[p := p], head[r], last[r], count[r]) {
      ChainKept(queues[r], next, head[r], last[r], count[r], p, p, p, p);
    }
  }

  lemma PushBehind(queues: seq<seq<nat>>, next: seq<nat>, head: seq<nat>, last: seq<nat>, count: seq<nat>, q: nat, p: nat)
    requires Chains(queues, next, head, last, count) && q < NPROCQ && p < NPROC && count[q] > 0
    requires forall r :: 0 <= r < NPROCQ ==> p !in queues[r]
    ensures last[q] < NPROC
    ensures Chains(queues[q := queues[q] + [p]], next[p := head[q]][last[q] := p], head, last[q := p], count[q := count[q] + 1])
  {
    PushDistinct(queues, q, p);
    var l := last[q];
    assert Distinct(queues[q]);
    ChainAppend(queues[q], next, head[q], l, p);
    assert queues[q][count[q] - 1] == l;
    forall r | 0 <= r < NPROCQ && r != q ensures Chain(queues[r], next[p := head[q]][l := p], head[r], last[r], count[r]) {
      ChainKept(queues[r], next, head[r], last[r], count[r], p, head[q], p, l);
    }
  }

  class ProcTable {
    var state: seq<PState>
    var prio: seq<nat>
    var slice: seq<nat>
    var chan: seq<nat>
    var next: seq<nat>
    var head: seq<nat>
    var last: seq<nat>
    var count: seq<nat>
    ghost var queues: seq<seq<nat>>
    ghost var lost: set<nat>

    ghost function State(): Table
      reads this
    {
      Table(state, prio, slice, chan, queues, lost)
    }

    ghost predicate Linked()
      reads this
    {
      Sized(State()) && Chains(queues, next, head, last, count)
    }

    ghost predicate Valid()
      reads this
    {
      Linked() && Inv(State())
    }

    /** pinit: the table starts zeroed. */
    constructor ()
      ensures Valid() && Init(State())
    {
      state := seq(NPROC, i => Unused);
      prio := seq(NPROC, i => 0);
      slice := seq(NPROC, i => 0);
      chan := seq(NPROC, i => 0);
      next := seq(NPROC, i => 0);
      head, last, count := [0, 0, 0], [0, 0, 0], [0, 0, 0];
      queues, lost := [[], [], []], {};
      new;
      EmptyQueues(State(), next, head, last, count);
    }

    method Qpush(p: nat)
      requires Linked() && p < NPROC && forall q :: 0 <= q < NPROCQ ==> p !in queues[q]
      modifies this
      ensures Linked() && State() == Push(old(State()), p)
    {
      var q := prio[p];
      if count[q] <= 0 {
        PushEmpty(queues, next, head, last, count, q, p);
        next := next[p := p];
        head := head[q := p];
        last := last[q := p];
      } else {
        PushBehind(queues, next, head, last, count, q, p);
        next := next[p := head[q]];
        next := next[last[q] := p];
        last := last[q := p];
      }
      slice := slice[p := Quantum(q)];
      count := count[q := count[q] + 1];
      queues := queues[q := queues[q] + [p]];
    }

    /** The end of fork, and of userinit. */
    method Start(p: nat)
      requires Valid() && p < NPROC && state[p] == Embryo
      modifies this
      ensures Valid() && State() == Do(old(State()), Step.Start(p))
      ensures state == old(state)[p := Runnable] && queues == old(queues)[prio[p] := old(queues)[prio[p]] + [p]] && prio == old(prio)
      ensures slice == old(slice)[p := Quantum(prio[p])] && chan == old(chan) && lost == old(lost)
    {
      StartInv(State(), p);
      state := state[p := Runnable];
      Qpush(p);
    }

    method Yield(p: nat)
      requires Linked() && p < NPROC && forall q :: 0 <= q < NPROCQ ==> p !in queues[q]
      modifies this
      ensures Linked() && State() == YieldAt(old(State()), p)
      ensures state == old(state)[p := Runnable] && prio == old(prio)[p := if old(prio[p]) > 0 then old(prio[p]) - 1 else 0]
      ensures queues == old(queues)[prio[p] := old(queues)[prio[p]] + [p]] && slice == old(slice)[p := Quantum(prio[p])] && chan == old(chan)
    {
      state := state[p := Runnable];
      if prio[p] > 0 { prio := prio[p := prio[p] - 1]; }
      Qpush(p);
    }

    /** One timer interrupt while p runs. */
    method Tick(p: nat)
      requires Valid() && p < NPROC && state[p] == Running
      modifies this
      ensures Valid() && State() == TickAt(old(State()), p)
    {
      TickInv(State(), p);
      forall q | 0 <= q < NPROCQ ensures p !in queues[q] {
        NotQueued(State(), p, q);
      }
      slice := slice[p := if slice[p] == 0 then 0xFFFF_FFFF else slice[p] - 1];
      if slice[p] <= 0 { Yield(p); }
    }

    /** wakeup1's loop body. */
    method WakeProc(p: nat, on: nat)
      requires Linked() && p < NPROC && (state[p] == Sleeping ==> forall q :: 0 <= q < NPROCQ ==> p !in queues[q])
      modifies this
      ensures Linked() && State() == WakeOne(old(State()), p, on)
    {
      if state[p] == Sleeping && chan[p] == on {
        state := state[p := Runnable];
        if prio[p] < NPROCQ - 1 { prio := prio[p := prio[p] + 1]; }
        Qpush(p);
      }
    }

    /** wakeup1: exactly the sleepers on the channel become RUNNABLE, one level higher and with a whole
        timepiece, and go to the back of their queues in table order. */
    method Wakeup1(on: nat)
      requires Valid()
      modifies this
      ensures Valid() && State() == WakeUpTo(old(State()), NPROC, on)
      ensures forall p :: 0 <= p < NPROC ==>
                if old(state[p]) == Sleeping && old(chan[p]) == on then
                  && state[p] == Runnable && prio[p] == (if old(prio[p]) == NPROCQ - 1 then NPROCQ - 1 else old(prio[p]) + 1)
                  && slice[p] == Quantum(prio[p])
                else state[p] == old(state[p]) && prio[p] == old(prio[p]) && slice[p] == old(slice[p])
      ensures forall q :: 0 <= q < NPROCQ ==> queues[q] == old(queues[q]) + Risers(old(State()), NPROC, on, q)
      ensures chan == old(chan) && lost == old(lost)
    {
      ghost var t := State();
      for p := 0 to NPROC
        invariant Linked() && State() == WakeUpTo(t, p, on)
      {
        WakeUpToInv(t, p, on);
        WakeProc(p, on);
      }
      WakeUpToInv(t, NPROC, on);
      WakeMeans(t, NPROC, on);
      WokenEach(t, State(), on);
    }

    /** Take the first process off the queue of level q. */
    method DropHead(q: nat)
      requires Linked() && q < NPROCQ && count[q] > 0
      modifies this`head, this`count, this`queues
      ensures Linked() && queues == old(queues)[q := old(queues)[q][1..]]
    {
      ghost var was := queues;
      ChainPop(queues[q], next, head[q], last[q], count[q]);
      PopDistinct(queues, q);
      head := head[q := next[head[q]]];
      count := count[q := count[q] - 1];
      queues := queues[q := queues[q][1..]];
      forall r | 0 <= r < NPROCQ ensures Chain(queues[r], next, head[r], last[r], count[r]) {
        if r != q { assert queues[r] == was[r]; }
      }
    }

    /** The skip loop at one level. */
    method SkipStale(q: nat)
      requires Linked() && q < NPROCQ
      modifies this`head, this`count, this`queues
      ensures Linked() && queues == old(queues)[q := DropStale(state, old(queues)[q])]
    {
      ghost var was := queues;
      while count[q] > 0 && state[head[q]] != Runnable
        invariant Linked() && |was| == |queues|
        invariant DropStale(state, queues[q]) == DropStale(state, was[q])
        invariant forall r :: 0 <= r < NPROCQ && r != q ==> queues[r] == was[r]
        decreases count[q]
      {
        assert head[q] == queues[q][0];
        DropHead(q);
      }
    }

    /** The scheduler at one level: its front process runs, if there is one. */
    method RunLevel(q: nat) returns (r: Option<nat>)
      requires Linked() && q < NPROCQ
      modifies this`head, this`count, this`queues, this`state
      ensures Linked()
      ensures var rest := DropStale(old(state), old(queues)[q]);
              if rest == [] then r == None && state == old(state) && queues == old(queues)[q := []]
              else r == Some(rest[0]) && state == old(state)[rest[0] := Running] && queues == old(queues)[q := rest[1..]]
    {
      SkipStale(q);
      if count[q] > 0 {
        var p := head[q];
        assert p == queues[q][0];
        DropHead(q);
        state := state[p := Running];
        r := Some(p);
      } else {
        r := None;
      }
    }

    /** One pass of the scheduler: the process it switches to, if any. */
    method Scheduler() returns (r: Option<nat>)
      requires Linked()
      modifies this
      ensures Linked() && (State(), r) == DispatchFrom(old(State()), NPROCQ)
    {
      ghost var t := State();
      var n: nat := NPROCQ;
      r := None;
      while n > 0 && r == None
        invariant n <= NPROCQ && Linked()
        invariant if r == None then DispatchFrom(State(), n) == DispatchFrom(t, NPROCQ)
                  else (State(), r) == DispatchFrom(t, NPROCQ)
        decreases n
      {
        ghost var u := State();
        r := RunLevel(n - 1);
        LevelStep(u, n, State(), r);
        n := n - 1;
      }
    }
  }

  lemma LevelStep(t: Table, n: nat, u: Table, r: Option<nat>)
    requires Sized(t) && 0 < n <= NPROCQ && Sized(u) && u == t.(queues := u.queues, state := u.state)
    requires var rest := DropStale(t.state, t.queues[n - 1]);
             if rest == [] then r == None && u.state == t.state && u.queues == t.queues[n - 1 := []]
             else r == Some(rest[0]) && u.state == t.state[rest[0] := Running] && u.queues == t.queues[n - 1 := rest[1..]]
    ensures DispatchFrom(t, n) == if r == None then DispatchFrom(u, n - 1) else (u, r)
  {
  }

  lemma EmptyQueues(t: Table, next: seq<nat>, head: seq<nat>, last: seq<nat>, count: seq<nat>)
    requires Init(t) && |next| == NPROC && |head| == |last| == |count| == NPROCQ && forall q :: 0 <= q < NPROCQ ==> count[q] == 0
    ensures Inv(t) && Chains(t.queues, next, head, last, count)
  {
  }

  lemma PopDistinct(queues: seq<seq<nat>>, q: nat)
    requires AllDistinct(queues) && q < |queues| && queues[q] != []
    ensures AllDistinct(queues[q := queues[q][1..]])
  {
    var u := queues[q := queues[q][1..]];
    forall a, b, j, k |
      (0 <= a < |u| && 0 <= b < |u| && 0 <= j < |u[a]| && 0 <= k < |u[b]| && u[a][j] == u[b][k])
      ensures a == b && j == k
    {
      var j' := if a == q then j + 1 else j;
      var k' := if b == q then k + 1 else k;
      assert queues[a][j'] == queues[b][k'];
    }
  }

  lemma PushDistinct(queues: seq<seq<nat>>, q: nat, p: nat)
    requires AllDistinct(queues) && q < |queues| && forall r :: 0 <= r < |queues| ==> p !in queues[r]
    ensures AllDistinct(queues[q := queues[q] + [p]])
  {
  }
}
