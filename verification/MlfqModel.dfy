/** The multi-level feedback scheduler of xv6-l/proc.c and the timer branch of trap.c, as steps on the
    process table. Each step is one section under ptable.lock. */
module MlfqModel {
  import opened Common

  const NPROC: nat := 64
  const NPROCQ: nat := 3

  datatype PState = Unused | Embryo | Sleeping | Runnable | Running | Zombie

  /** queues[q] lists, front first, the processes queued at priority q; `lost` records the processes
      that kill took out of their sleep. */
  datatype Table = Table(state: seq<PState>, prio: seq<nat>, slice: seq<nat>, chan: seq<nat>,
                         queues: seq<seq<nat>>, lost: set<nat>)

  datatype Step =
    | Alloc(p: nat)               // allocproc
    | Drop(p: nat)                // a failed fork gives the slot back
    | Start(p: nat)               // userinit, or the end of fork
    | Dispatch                    // one pass of scheduler
    | Yield(p: nat)
    | Sleep(p: nat, chan: nat)
    | Wakeup(chan: nat)           // wakeup1
    | Kill(p: nat)
    | Exit(p: nat)
    | Reap(p: nat)                // wait
    | Tick(p: nat)                // the timer branch of trap

  function Doubled(n: nat): nat {
    if n == 0 then 1 else 2 * Doubled(n - 1)
  }

  /** The whole timepiece at a priority: one tick at the highest, twice as many at each level below. */
  function Quantum(prio: nat): (r: nat)
    requires prio < NPROCQ
    ensures 1 <= r <= 4 && r == Doubled(NPROCQ - 1 - prio)
  {
    if prio == 0 then 4 else if prio == 1 then 2 else 1
  }

  ghost predicate Sized(t: Table) {
    && |t.state| == |t.prio| == |t.slice| == |t.chan| == NPROC && |t.queues| == NPROCQ
    && (forall p :: 0 <= p < NPROC ==> t.prio[p] < NPROCQ)
    && (forall q, k :: 0 <= q < NPROCQ && 0 <= k < |t.queues[q]| ==> t.queues[q][k] < NPROC)
  }

  predicate Queued(t: Table, p: nat)
    requires p < |t.prio| && t.prio[p] < |t.queues|
  {
    p in t.queues[t.prio[p]]
  }

  /** qpush */
  function Push(t: Table, p: nat): Table
    requires Sized(t) && p < NPROC
  {
    var q := t.prio[p];
    t.(queues := t.queues[q := t.queues[q] + [p]], slice := t.slice[p := Quantum(q)])
  }

  function SetState(t: Table, p: nat, s: PState): Table
    requires p < |t.state|
  {
    t.(state := t.state[p := s])
  }

  /** The scheduler's skip loop: heads that are not RUNNABLE are thrown away. */
  function DropStale(state: seq<PState>, queue: seq<nat>): (r: seq<nat>)
    requires |state| == NPROC && forall k :: 0 <= k < |queue| ==> queue[k] < NPROC
    ensures forall k :: 0 <= k < |r| ==> r[k] < NPROC
  {
    if queue == [] || state[queue[0]] == Runnable then queue else DropStale(state, queue[1..])
  }

  /** The scheduler's scan over the n lowest levels, highest first; the process run, if any, is the
      second result. */
  function DispatchFrom(t: Table, n: nat): (Table, Option<nat>)
    requires Sized(t) && n <= NPROCQ
    decreases n
  {
    if n == 0 then (t, None)
    else
      var q := DropStale(t.state, t.queues[n - 1]);
      if q == [] then DispatchFrom(t.(queues := t.queues[n - 1 := q]), n - 1)
      else (SetState(t.(queues := t.queues[n - 1 := q[1..]]), q[0], Running), Some(q[0]))
  }

  function YieldAt(t: Table, p: nat): Table
    requires Sized(t) && p < NPROC
  {
    var u := SetState(t, p, Runnable);
    Push(u.(prio := u.prio[p := if u.prio[p] > 0 then u.prio[p] - 1 else 0]), p)
  }

  /** wakeup1's loop body for process p. */
  function WakeOne(t: Table, p: nat, chan: nat): (r: Table)
    requires Sized(t) && p < NPROC
  {
    if t.state[p] == Sleeping && t.chan[p] == chan then
      var u := SetState(t, p, Runnable);
      Push(u.(prio := u.prio[p := if u.prio[p] < NPROCQ - 1 then u.prio[p] + 1 else u.prio[p]]), p)
    else t
  }

  lemma WakeOneSized(t: Table, p: nat, chan: nat)
    requires Sized(t) && p < NPROC
    ensures Sized(WakeOne(t, p, chan))
  {
  }

  /** wakeup1 after the first n processes. */
  function WakeUpTo(t: Table, n: nat, chan: nat): (r: Table)
    requires Sized(t) && n <= NPROC
    ensures Sized(r)
  {
    if n == 0 then t
    else
      WakeOneSized(WakeUpTo(t, n - 1, chan), n - 1, chan);
      WakeOne(WakeUpTo(t, n - 1, chan), n - 1, chan)
  }

  ghost predicate Enabled(t: Table, e: Step)
    requires Sized(t)
  {
    match e
    case Alloc(p) => p < NPROC && t.state[p] == Unused
    case Drop(p) => p < NPROC && t.state[p] == Embryo
    case Start(p) => p < NPROC && t.state[p] == Embryo
    case Dispatch => true
    case Yield(p) => p < NPROC && t.state[p] == Running
    case Sleep(p, _) => p < NPROC && t.state[p] == Running
    case Wakeup(_) => true
    case Kill(p) => p < NPROC
    case Exit(p) => p < NPROC && t.state[p] == Running
    case Reap(p) => p < NPROC && t.state[p] == Zombie
    case Tick(p) => p < NPROC && t.state[p] == Running
  }

  /** --timepiece, and yield when it is spent. The counter is unsigned: from 0 it would wrap to 2^32 - 1. */
  function TickAt(t: Table, p: nat): Table
    requires Sized(t) && p < NPROC
  {
    var s := if t.slice[p] == 0 then 0xFFFF_FFFF else t.slice[p] - 1;
    var u := t.(slice := t.slice[p := s]);
    if s == 0 then YieldAt(u, p) else u
  }

  ghost function Do(t: Table, e: Step): Table
    requires Sized(t) && Enabled(t, e)
  {
    match e
    case Alloc(p) => SetState(t, p, Embryo).(prio := t.prio[p := NPROCQ - 1])
    case Drop(p) => SetState(t, p, Unused)
    case Start(p) => Push(SetState(t, p, Runnable), p)
    case Dispatch => DispatchFrom(t, NPROCQ).0
    case Yield(p) => YieldAt(t, p)
    case Sleep(p, chan) => SetState(t, p, Sleeping).(chan := t.chan[p := chan])
    case Wakeup(chan) => WakeUpTo(t, NPROC, chan)
    case Kill(p) => if t.state[p] == Sleeping then SetState(t, p, Runnable).(lost := t.lost + {p}) else t
    case Exit(p) => SetState(t, p, Zombie)
    case Reap(p) => SetState(t, p, Unused)
    case Tick(p) => TickAt(t, p)
  }

  // ---------------------------------------------------------------- invariant

  ghost predicate Distinct(s: seq<nat>) {
    forall j, k :: 0 <= j < k < |s| ==> s[j] != s[k]
  }

  /** Every queued process is RUNNABLE, sits at the level of its priority with a full quantum, and sits
      there once; every RUNNABLE process is queued, unless kill took it out of its sleep. */
  ghost predicate Inv(t: Table) {
    && Sized(t)
    && (forall q, k :: 0 <= q < NPROCQ && 0 <= k < |t.queues[q]| ==>
          var p := t.queues[q][k];
          t.state[p] == Runnable && t.prio[p] == q && t.slice[p] == Quantum(q) && p !in t.lost)
    && (forall q :: 0 <= q < NPROCQ ==> Distinct(t.queues[q]))
    && (forall p :: 0 <= p < NPROC && t.state[p] == Runnable ==> Queued(t, p) || p in t.lost)
    && (forall p :: p in t.lost ==> p < NPROC && t.state[p] == Runnable)
    && (forall p :: 0 <= p < NPROC && t.state[p] == Running ==> 1 <= t.slice[p] <= Quantum(t.prio[p]))
  }

  /** A process that is not RUNNABLE is in no queue. */
  lemma NotQueued(t: Table, p: nat, q: nat)
    requires Inv(t) && p < NPROC && t.state[p] != Runnable && q < NPROCQ
    ensures p !in t.queues[q]
  {
  }

  /** The table once p, in no queue and with its state and priority set, is pushed. */
  function Pushed(t: Table, p: nat, prio: nat): Table
    requires Sized(t) && p < NPROC && prio < NPROCQ
  {
    Push(SetState(t, p, Runnable).(prio := t.prio[p := prio]), p)
  }

  lemma PushedEntry(t: Table, p: nat, prio: nat, q: nat, k: nat)
    requires Inv(t) && p < NPROC && t.state[p] != Runnable && prio < NPROCQ
    requires q < NPROCQ && k < |Pushed(t, p, prio).queues[q]|
    ensures var u := Pushed(t, p, prio); var x := u.queues[q][k];
            x < NPROC && u.state[x] == Runnable && u.prio[x] == q && u.slice[x] == Quantum(q) && x !in u.lost
  {
    if q != prio || k < |t.queues[q]| { assert Pushed(t, p, prio).queues[q][k] == t.queues[q][k] != p; }
  }

  lemma PushedQueued(t: Table, p: nat, prio: nat, x: nat)
    requires Inv(t) && p < NPROC && t.state[p] != Runnable && prio < NPROCQ
    requires x < NPROC && Pushed(t, p, prio).state[x] == Runnable
    ensures Queued(Pushed(t, p, prio), x) || x in t.lost
  {
    var u := Pushed(t, p, prio);
    if x == p {
      assert u.queues[prio][|t.queues[prio]|] == p;
    } else if Queued(t, x) {
      var k :| 0 <= k < |t.queues[t.prio[x]]| && t.queues[t.prio[x]][k] == x;
      assert u.queues[u.prio[x]][k] == x;
    }
  }

  lemma PushedDistinct(t: Table, p: nat, prio: nat, q: nat)
    requires Inv(t) && p < NPROC && t.state[p] != Runnable && prio < NPROCQ && q < NPROCQ
    ensures Distinct(Pushed(t, p, prio).queues[q])
  {
    NotQueued(t, p, q);
  }

  lemma PushInv(t: Table, p: nat, prio: nat)
    requires Inv(t) && p < NPROC && t.state[p] != Runnable && prio < NPROCQ
    ensures Inv(Pushed(t, p, prio))
  {
    var u := Pushed(t, p, prio);
    forall q, k | 0 <= q < NPROCQ && 0 <= k < |u.queues[q]|
      ensures var x := u.queues[q][k];
              x < NPROC && u.state[x] == Runnable && u.prio[x] == q && u.slice[x] == Quantum(q) && x !in u.lost
    {
      PushedEntry(t, p, prio, q, k);
    }
    forall q | 0 <= q < NPROCQ ensures Distinct(u.queues[q]) {
      PushedDistinct(t, p, prio, q);
    }
    forall x | 0 <= x < NPROC && u.state[x] == Runnable ensures Queued(u, x) || x in u.lost {
      PushedQueued(t, p, prio, x);
    }
  }

  lemma StartInv(t: Table, p: nat)
    requires Inv(t) && p < NPROC && t.state[p] != Runnable
    ensures Inv(Push(SetState(t, p, Runnable), p))
  {
    PushInv(t, p, t.prio[p]);
    assert t.prio[p := t.prio[p]] == t.prio;
  }

  lemma YieldInv(t: Table, p: nat)
    requires Inv(t) && p < NPROC && t.state[p] == Running
    ensures Inv(YieldAt(t, p))
  {
    PushInv(t, p, if t.prio[p] > 0 then t.prio[p] - 1 else 0);
  }

  lemma WakeOneInv(t: Table, p: nat, chan: nat)
    requires Inv(t) && p < NPROC
    ensures Inv(WakeOne(t, p, chan))
  {
    if t.state[p] == Sleeping && t.chan[p] == chan {
      PushInv(t, p, if t.prio[p] < NPROCQ - 1 then t.prio[p] + 1 else t.prio[p]);
    }
  }

  lemma {:induction false} WakeUpToInv(t: Table, n: nat, chan: nat)
    requires Inv(t) && n <= NPROC
    ensures Inv(WakeUpTo(t, n, chan))
  {
    if n > 0 {
      WakeUpToInv(t, n - 1, chan);
      WakeOneInv(WakeUpTo(t, n - 1, chan), n - 1, chan);
    }
  }

  // ---------------------------------------------------------------- wakeup

  /** wakeup on chan takes process p out of its sleep and to level q. */
  predicate Rises(t: Table, p: nat, chan: nat, q: nat)
    requires Sized(t)
  {
    p < NPROC && t.state[p] == Sleeping && t.chan[p] == chan && q == if t.prio[p] == NPROCQ - 1 then NPROCQ - 1 else t.prio[p] + 1
  }

  /** The processes below n that it takes to level q, in table order. */
  function Risers(t: Table, n: nat, chan: nat, q: nat): (r: seq<nat>)
    requires Sized(t) && n <= NPROC
    ensures forall p: nat :: p in r <==> p < n && Rises(t, p, chan, q)
    ensures forall j, k :: 0 <= j < k < |r| ==> r[j] < r[k]
  {
    if n == 0 then []
    else
      var rest := Risers(t, n - 1, chan, q);
      assert forall j :: 0 <= j < |rest| ==> rest[j] in rest;
      rest + if Rises(t, n - 1, chan, q) then [n - 1] else []
  }

  /** What a wakeup of the sleepers on chan among the first n processes makes of process p. */
  ghost predicate WokenOk(t: Table, u: Table, n: nat, chan: nat, p: nat)
    requires Sized(t) && Sized(u) && p < NPROC
  {
    if p < n && t.state[p] == Sleeping && t.chan[p] == chan then
      && u.state[p] == Runnable && u.prio[p] == (if t.prio[p] == NPROCQ - 1 then NPROCQ - 1 else t.prio[p] + 1)
      && u.slice[p] == Quantum(u.prio[p])
    else u.state[p] == t.state[p] && u.prio[p] == t.prio[p] && u.slice[p] == t.slice[p]
  }

  /** Exactly the sleepers on chan wake, one level higher than they were and with a whole timepiece; each level
      gets those that come to it at its back, in table order. */
  ghost predicate WokenAll(t: Table, u: Table, n: nat, chan: nat)
    requires Sized(t) && n <= NPROC
  {
    && Sized(u) && u.chan == t.chan && u.lost == t.lost
    && (forall p {:trigger WokenOk(t, u, n, chan, p)} :: 0 <= p < NPROC ==> WokenOk(t, u, n, chan, p))
    && (forall q {:trigger Risers(t, n, chan, q)} :: 0 <= q < NPROCQ ==> u.queues[q] == t.queues[q] + Risers(t, n, chan, q))
  }

  lemma WokenNext(t: Table, u: Table, n: nat, next: nat, chan: nat)
    requires Sized(t) && next == n + 1 <= NPROC && WokenAll(t, u, n, chan)
    ensures WokenAll(t, WakeOne(u, n, chan), next, chan)
  {
    var w := WakeOne(u, n, chan);
    WakeOneSized(u, n, chan);
    assert WokenOk(t, u, n, chan, n);
    forall p | 0 <= p < NPROC ensures WokenOk(t, w, next, chan, p) {
      assert WokenOk(t, u, n, chan, p);
    }
    forall q | 0 <= q < NPROCQ ensures w.queues[q] == t.queues[q] + Risers(t, next, chan, q) {
      assert u.queues[q] == t.queues[q] + Risers(t, n, chan, q);
      assert Risers(t, next, chan, q) == Risers(t, n, chan, q) + if Rises(t, n, chan, q) then [n] else [];
    }
  }

  lemma {:induction false} WakeMeans(t: Table, n: nat, chan: nat)
    requires Sized(t) && n <= NPROC
    ensures WokenAll(t, WakeUpTo(t, n, chan), n, chan)
  {
    if n > 0 {
      WakeMeans(t, n - 1, chan);
      WokenNext(t, WakeUpTo(t, n - 1, chan), n - 1, n, chan);
    } else {
      forall p | 0 <= p < NPROC ensures WokenOk(t, t, 0, chan, p) {
      }
    }
  }

  lemma WokenEach(t: Table, u: Table, chan: nat)
    requires Sized(t) && WokenAll(t, u, NPROC, chan)
    ensures forall p :: 0 <= p < NPROC ==>
              if t.state[p] == Sleeping && t.chan[p] == chan then
                && u.state[p] == Runnable && u.prio[p] == (if t.prio[p] == NPROCQ - 1 then NPROCQ - 1 else t.prio[p] + 1)
                && u.slice[p] == Quantum(u.prio[p])
              else u.state[p] == t.state[p] && u.prio[p] == t.prio[p] && u.slice[p] == t.slice[p]
    ensures forall q :: 0 <= q < NPROCQ ==> u.queues[q] == t.queues[q] + Risers(t, NPROC, chan, q)
  {
    forall p | 0 <= p < NPROC
      ensures if t.state[p] == Sleeping && t.chan[p] == chan then
                && u.state[p] == Runnable && u.prio[p] == (if t.prio[p] == NPROCQ - 1 then NPROCQ - 1 else t.prio[p] + 1)
                && u.slice[p] == Quantum(u.prio[p])
              else u.state[p] == t.state[p] && u.prio[p] == t.prio[p] && u.slice[p] == t.slice[p]
    {
      assert WokenOk(t, u, NPROC, chan, p);
    }
  }

  /** A step after which p sleeps: its own sleep, or one that neither wakes its channel nor kills it. */
  lemma SleeperStep(t: Table, e: Step, p: nat)
    requires Inv(t) && Enabled(t, e) && p < NPROC
    ensures Sized(Do(t, e)) && Do(t, e).chan[p] == if e.Sleep? && e.p == p then e.chan else t.chan[p]
    ensures Do(t, e).state[p] == Sleeping <==>
              e == Sleep(p, Do(t, e).chan[p]) || (t.state[p] == Sleeping && Do(t, e).chan[p] == t.chan[p] && e != Wakeup(t.chan[p]) && e != Kill(p))
  {
    DoInv(t, e);
    match e
    case Wakeup(chan) =>
      WakeMeans(t, NPROC, chan);
      assert WokenOk(t, Do(t, e), NPROC, chan, p);
    case Dispatch => DispatchIsFifo(t, NPROCQ);
    case _ =>
  }

  /** The skip loop never fires. */
  lemma NothingStale(t: Table, q: nat)
    requires Inv(t) && q < NPROCQ
    ensures DropStale(t.state, t.queues[q]) == t.queues[q]
  {
  }

  /** What dispatch does: the front of the highest non-empty level runs; nothing else changes. */
  function Top(t: Table, n: nat): (r: int)
    requires |t.queues| == NPROCQ && n <= NPROCQ
    ensures -1 <= r < n && (r >= 0 ==> t.queues[r] != [])
    ensures forall q :: r < q < n ==> t.queues[q] == []
  {
    if n == 0 then -1 else if t.queues[n - 1] != [] then n - 1 else Top(t, n - 1)
  }

  function RunHead(t: Table, q: nat): Table
    requires Sized(t) && q < NPROCQ && t.queues[q] != []
  {
    SetState(t.(queues := t.queues[q := t.queues[q][1..]]), t.queues[q][0], Running)
  }

  /** Dispatch is FIFO from the highest non-empty level. */
  lemma {:induction false} DispatchIsFifo(t: Table, n: nat)
    requires Inv(t) && n <= NPROCQ
    ensures var r := Top(t, n);
            DispatchFrom(t, n) == if r < 0 then (t, None) else (RunHead(t, r), Some(t.queues[r][0]))
    decreases n
  {
    if n > 0 {
      NothingStale(t, n - 1);
      assert t.queues[n - 1 := t.queues[n - 1]] == t.queues;
      if t.queues[n - 1] == [] { DispatchIsFifo(t, n - 1); }
    }
  }

  lemma RunHeadInv(t: Table, q: nat)
    requires Inv(t) && q < NPROCQ && t.queues[q] != []
    ensures Inv(RunHead(t, q))
  {
    var u, p := RunHead(t, q), t.queues[q][0];
    assert t.state[p] == Runnable && t.prio[p] == q;
    forall r, k | 0 <= r < NPROCQ && 0 <= k < |u.queues[r]|
      ensures var x := u.queues[r][k]; x != p && x in t.queues[r]
    {
      if r == q { assert u.queues[r][k] == t.queues[r][k + 1]; }
    }
    forall x | 0 <= x < NPROC && u.state[x] == Runnable ensures Queued(u, x) || x in u.lost {
      if Queued(t, x) {
        var k :| 0 <= k < |t.queues[t.prio[x]]| && t.queues[t.prio[x]][k] == x;
        if t.prio[x] == q { assert u.queues[q][k - 1] == x; }
      }
    }
  }

  /** A step that takes a process that is not RUNNABLE to another such state. */
  lemma QuietInv(t: Table, p: nat, s: PState, u: Table)
    requires Inv(t) && p < NPROC && t.state[p] != Runnable && s != Runnable && s != Running
    requires u.state == t.state[p := s] && u.queues == t.queues && u.slice == t.slice && u.lost == t.lost
    requires |u.prio| == NPROC && (forall x :: 0 <= x < NPROC && x != p ==> u.prio[x] == t.prio[x]) && u.prio[p] < NPROCQ && |u.chan| == NPROC
    ensures Inv(u)
  {
    forall q, k | 0 <= q < NPROCQ && 0 <= k < |u.queues[q]| ensures u.queues[q][k] != p {
      assert t.state[t.queues[q][k]] == Runnable;
    }
  }

  lemma KillInv(t: Table, p: nat)
    requires Inv(t) && p < NPROC
    ensures Inv(Do(t, Kill(p)))
  {
    if t.state[p] == Sleeping {
      var u := Do(t, Kill(p));
      forall q, k | 0 <= q < NPROCQ && 0 <= k < |u.queues[q]| ensures u.queues[q][k] != p {
        assert t.state[t.queues[q][k]] == Runnable;
      }
    }
  }

  lemma TickInv(t: Table, p: nat)
    requires Inv(t) && p < NPROC && t.state[p] == Running
    ensures Inv(TickAt(t, p))
  {
    var u := t.(slice := t.slice[p := t.slice[p] - 1]);
    forall q, k | 0 <= q < NPROCQ && 0 <= k < |t.queues[q]| ensures t.queues[q][k] != p {
      assert t.state[t.queues[q][k]] == Runnable;
    }
    if u.slice[p] == 0 {
      SpentInv(t, u, p);
    }
  }

  lemma SpentInv(t: Table, u: Table, p: nat)
    requires Inv(t) && p < NPROC && t.state[p] == Running && u == t.(slice := t.slice[p := 0])
    ensures Inv(YieldAt(u, p))
  {
    YieldInv(t, p);
    var v := YieldAt(t, p);
    assert YieldAt(u, p).slice == v.slice;
    assert YieldAt(u, p) == v;
  }

  lemma DoInv(t: Table, e: Step)
    requires Inv(t) && Enabled(t, e)
    ensures Inv(Do(t, e))
  {
    match e
    case Alloc(p) => QuietInv(t, p, Embryo, Do(t, e));
    case Drop(p) => QuietInv(t, p, Unused, Do(t, e));
    case Start(p) => StartInv(t, p);
    case Dispatch =>
      DispatchIsFifo(t, NPROCQ);
      if Top(t, NPROCQ) >= 0 { RunHeadInv(t, Top(t, NPROCQ)); }
    case Yield(p) => YieldInv(t, p);
    case Sleep(p, chan) => QuietInv(t, p, Sleeping, Do(t, e));
    case Wakeup(chan) => WakeUpToInv(t, NPROC, chan);
    case Kill(p) => KillInv(t, p);
    case Exit(p) => QuietInv(t, p, Zombie, Do(t, e));
    case Reap(p) => QuietInv(t, p, Unused, Do(t, e));
    case Tick(p) => TickInv(t, p);
  }

  // ---------------------------------------------------------------- whole runs

  ghost predicate Init(t: Table) {
    Sized(t) && (forall p :: 0 <= p < NPROC ==> t.state[p] == Unused) && (forall q :: 0 <= q < NPROCQ ==> t.queues[q] == []) && t.lost == {}
  }

  ghost predicate Run(ts: seq<Table>, steps: seq<Step>) {
    && |ts| == |steps| + 1 && Init(ts[0])
    && forall i :: 0 <= i < |steps| ==> Sized(ts[i]) && Enabled(ts[i], steps[i]) && ts[i + 1] == Do(ts[i], steps[i])
  }

  lemma {:induction false} RunInv(ts: seq<Table>, steps: seq<Step>, k: nat)
    requires Run(ts, steps) && k <= |steps|
    ensures Inv(ts[k])
  {
    if k > 0 {
      RunInv(ts, steps, k - 1);
      assert ts[k - 1 + 1] == Do(ts[k - 1], steps[k - 1]);
      DoInv(ts[k - 1], steps[k - 1]);
    }
  }

  ghost predicate KillsSleeper(t: Table, e: Step) {
    e.Kill? && e.p < |t.state| && t.state[e.p] == Sleeping
  }

  lemma {:induction false} WakeKeepsLost(t: Table, n: nat, chan: nat)
    requires Sized(t) && n <= NPROC
    ensures WakeUpTo(t, n, chan).lost == t.lost
  {
    if n > 0 { WakeKeepsLost(t, n - 1, chan); }
  }

  lemma LostGrows(t: Table, e: Step)
    requires Inv(t) && Enabled(t, e)
    ensures t.lost <= Do(t, e).lost && (Do(t, e).lost != t.lost ==> KillsSleeper(t, e))
    ensures KillsSleeper(t, e) ==> Do(t, e).lost != {}
  {
    if e.Wakeup? { WakeKeepsLost(t, NPROC, e.chan); }
    if e.Dispatch? { DispatchIsFifo(t, NPROCQ); }
    if KillsSleeper(t, e) { assert e.p in Do(t, e).lost; }
  }

  lemma LostStep(ts: seq<Table>, steps: seq<Step>, k: nat)
    requires Run(ts, steps) && k < |steps|
    ensures ts[k].lost <= ts[k + 1].lost && (ts[k + 1].lost != ts[k].lost ==> KillsSleeper(ts[k], steps[k]))
    ensures KillsSleeper(ts[k], steps[k]) ==> ts[k + 1].lost != {}
  {
    RunInv(ts, steps, k);
    LostGrows(ts[k], steps[k]);
  }

  lemma {:induction false} LostIff(ts: seq<Table>, steps: seq<Step>, k: nat)
    requires Run(ts, steps) && k <= |steps|
    ensures ts[k].lost != {} <==> exists i :: 0 <= i < k && KillsSleeper(ts[i], steps[i])
  {
    if k > 0 {
      LostIff(ts, steps, k - 1);
      LostStep(ts, steps, k - 1);
    }
  }

  /** In every run, every RUNNABLE process is queued if and only if no sleeper has been killed: kill
      makes a sleeper RUNNABLE without qpush. */
  lemma RunnableIsQueued(ts: seq<Table>, steps: seq<Step>, k: nat)
    requires Run(ts, steps) && k <= |steps|
    ensures Inv(ts[k])
    ensures (forall p :: 0 <= p < NPROC && ts[k].state[p] == Runnable ==> Queued(ts[k], p))
            <==> !exists i :: 0 <= i < k && KillsSleeper(ts[i], steps[i])
  {
    RunInv(ts, steps, k);
    LostIff(ts, steps, k);
    var t := ts[k];
    if t.lost != {} {
      var p :| p in t.lost;
      assert !Queued(t, p);
    }
  }

  lemma {:induction false} LostStays(ts: seq<Table>, steps: seq<Step>, i: nat, k: nat)
    requires Run(ts, steps) && i <= k <= |steps|
    ensures ts[i].lost <= ts[k].lost
  {
    if i < k {
      LostStays(ts, steps, i, k - 1);
      LostStep(ts, steps, k - 1);
    }
  }

  /** Process p went to sleep on that channel at step j, and up to step k nobody has woken the channel or killed
      it. */
  ghost predicate AsleepSince(ts: seq<Table>, steps: seq<Step>, j: nat, k: nat, p: nat, chan: nat) {
    j < k <= |steps| && steps[j] == Sleep(p, chan) && forall i :: j < i < k ==> steps[i] != Wakeup(chan) && steps[i] != Kill(p)
  }

  /** No wakeup is missed: in every run a process sleeps if and only if there was no wakeup of its channel, and no
      kill of it, since it went to sleep. */
  lemma {:induction false} NoMissedWakeup(ts: seq<Table>, steps: seq<Step>, k: nat, p: nat)
    requires Run(ts, steps) && k <= |steps| && p < NPROC
    ensures Inv(ts[k])
    ensures ts[k].state[p] == Sleeping <==> exists j :: AsleepSince(ts, steps, j, k, p, ts[k].chan[p])
  {
    RunInv(ts, steps, k);
    if k > 0 {
      var last := k - 1;
      NoMissedWakeup(ts, steps, last, p);
      assert ts[k] == Do(ts[last], steps[last]);
      SleeperStep(ts[last], steps[last], p);
      SleptOn(ts, steps, last, k, p, ts[last].chan[p], ts[k].chan[p], ts[last].state[p] == Sleeping, ts[k].state[p] == Sleeping);
    }
  }

  lemma SleptOn(ts: seq<Table>, steps: seq<Step>, last: nat, k: nat, p: nat, before: nat, chan: nat, slept: bool, sleeps: bool)
    requires k == last + 1 <= |steps| && (slept <==> exists j :: AsleepSince(ts, steps, j, last, p, before))
    requires var e := steps[last];
             && (if e.Sleep? && e.p == p then e == Sleep(p, chan) else chan == before)
             && (sleeps <==> e == Sleep(p, chan) || (slept && chan == before && e != Wakeup(before) && e != Kill(p)))
    ensures sleeps <==> exists j :: AsleepSince(ts, steps, j, k, p, chan)
  {
    if steps[last] == Sleep(p, chan) {
      assert AsleepSince(ts, steps, last, k, p, chan);
    } else {
      if sleeps {
        var j :| AsleepSince(ts, steps, j, last, p, before);
        assert AsleepSince(ts, steps, j, k, p, chan);
      }
      if j :| AsleepSince(ts, steps, j, k, p, chan) {
        assert j != last;
        assert chan == before ==> AsleepSince(ts, steps, j, last, p, before);
      }
    }
  }

  /** A process lost that way never runs again: it stays RUNNABLE and unqueued for ever. */
  lemma LostForever(ts: seq<Table>, steps: seq<Step>, i: nat, k: nat, p: nat)
    requires Run(ts, steps) && i <= k <= |steps| && p in ts[i].lost
    ensures Inv(ts[k]) && p < NPROC && ts[k].state[p] == Runnable && !Queued(ts[k], p)
  {
    RunInv(ts, steps, k);
    LostStays(ts, steps, i, k);
    assert p in ts[k].lost;
  }

  /** A new process runs first thing, as it starts at the highest priority. */
  lemma FirstRun(t: Table, p: nat)
    requires Init(t) && p < NPROC
    ensures Sized(Do(t, Alloc(p))) && Enabled(Do(t, Alloc(p)), Start(p))
    ensures var u := Do(Do(t, Alloc(p)), Start(p)); Sized(u) && Sized(Do(u, Dispatch)) && Do(u, Dispatch).state[p] == Running
  {
    var t1 := Do(t, Alloc(p));
    var t2 := Do(t1, Start(p));
    assert t2.queues[NPROCQ - 1] == [p];
    assert DropStale(t2.state, t2.queues[NPROCQ - 1]) == [p];
  }

  /** From every empty table there is such a run: a process that starts, runs, sleeps and is killed. */
  lemma SleeperKilled(t: Table, p: nat, chan: nat) returns (ts: seq<Table>, steps: seq<Step>)
    requires Init(t) && p < NPROC
    ensures Run(ts, steps) && ts[0] == t && |steps| == 5 && KillsSleeper(ts[4], steps[4]) && p in ts[5].lost
    ensures ts[5].state[p] == Runnable && !Queued(ts[5], p)
  {
    FirstRun(t, p);
    steps := [Alloc(p), Start(p), Dispatch, Sleep(p, chan), Kill(p)];
    var t1 := Do(t, steps[0]);
    var t2 := Do(t1, steps[1]);
    var t3 := Do(t2, steps[2]);
    var t4 := Do(t3, steps[3]);
    ts := [t, t1, t2, t3, t4, Do(t4, steps[4])];
    LostForever(ts, steps, 5, 5, p);
  }

  // ---------------------------------------------------------------- bounded waiting

  /** The queued processes' priorities, summed. */
  function PrioSum(t: Table): nat
    requires |t.queues| == NPROCQ
  {
    |t.queues[1]| + 2 * |t.queues[2]|
  }

  function NumQueued(t: Table): nat
    requires |t.queues| == NPROCQ
  {
    |t.queues[0]| + |t.queues[1]| + |t.queues[2]|
  }

  /** One CPU, nothing but dispatch and yield: the process dispatched runs and then yields. */
  function Round(t: Table): (r: Table)
    requires Sized(t) && Top(t, NPROCQ) >= 0
  {
    var q := Top(t, NPROCQ);
    YieldAt(RunHead(t, q), t.queues[q][0])
  }

  lemma RoundInv(t: Table)
    requires Inv(t) && Top(t, NPROCQ) >= 0
    ensures Inv(Round(t)) && Sized(RunHead(t, Top(t, NPROCQ)))
  {
    var q := Top(t, NPROCQ);
    RunHeadInv(t, q);
    YieldInv(RunHead(t, q), t.queues[q][0]);
  }

  /** Where process x waits: position k of the queue at its priority. */
  ghost predicate WaitsAt(t: Table, x: nat, q: nat, k: nat) {
    |t.queues| == NPROCQ && q < NPROCQ && k < |t.queues[q]| && t.queues[q][k] == x
  }

  /** What x is behind: the priorities of everyone queued, and those ahead of it. */
  function Behind(t: Table, k: nat): nat
    requires |t.queues| == NPROCQ
  {
    PrioSum(t) + k
  }

  /** A round that does not dispatch x brings it strictly closer. */
  lemma RoundProgress(t: Table, x: nat, q: nat, k: nat) returns (k': nat)
    requires Inv(t) && WaitsAt(t, x, q, k) && Top(t, NPROCQ) >= 0 && t.queues[Top(t, NPROCQ)][0] != x
    ensures Inv(Round(t)) && WaitsAt(Round(t), x, q, k') && Behind(Round(t), k') < Behind(t, k)
  {
    RoundInv(t);
    var r, u := Top(t, NPROCQ), Round(t);
    var p := t.queues[r][0];
    assert t.prio[p] == r;
    k' := if r == q then k - 1 else k;
    var down := if r > 0 then r - 1 else 0;
    var mid := t.queues[r := t.queues[r][1..]];
    assert u.queues == mid[down := mid[down] + [p]];
    assert u.queues[q][k'] == x;
  }

  /** A yield leaves someone queued. */
  lemma RoundsGoOn(t: Table)
    requires Inv(t) && Top(t, NPROCQ) >= 0
    ensures Top(Round(t), NPROCQ) >= 0
  {
    RoundInv(t);
    var p := t.queues[Top(t, NPROCQ)][0];
    var u := Round(t);
    assert u.state[p] == Runnable;
    assert u.queues[u.prio[p]][|u.queues[u.prio[p]]| - 1] == p;
  }

  /** The process that the n-th round dispatches. */
  ghost function Dispatched(t: Table, n: nat): nat
    requires Inv(t) && Top(t, NPROCQ) >= 0
    decreases n
  {
    if n == 0 then t.queues[Top(t, NPROCQ)][0]
    else
      RoundInv(t);
      RoundsGoOn(t);
      Dispatched(Round(t), n - 1)
  }

  lemma {:induction false} WaitBound(t: Table, x: nat, q: nat, k: nat) returns (n: nat)
    requires Inv(t) && WaitsAt(t, x, q, k) && Top(t, NPROCQ) >= 0
    ensures n <= Behind(t, k) && Dispatched(t, n) == x
    decreases Behind(t, k)
  {
    if Dispatched(t, 0) == x {
      n := 0;
    } else {
      var k' := RoundProgress(t, x, q, k);
      RoundsGoOn(t);
      n := WaitBound(Round(t), x, q, k');
      n := n + 1;
    }
  }

  /** Bounded waiting: a queued process is dispatched within (sum of the priorities) + (number queued)
      dispatches. */
  lemma BoundedWaiting(t: Table, x: nat)
    requires Inv(t) && x < NPROC && Queued(t, x)
    ensures Top(t, NPROCQ) >= 0 && exists n: nat :: n < PrioSum(t) + NumQueued(t) && Dispatched(t, n) == x
  {
    var q := t.prio[x];
    var k :| 0 <= k < |t.queues[q]| && t.queues[q][k] == x;
    assert t.queues[q] != [];
    var n := WaitBound(t, x, q, k);
    assert n < PrioSum(t) + NumQueued(t);
  }

  // ---------------------------------------------------------------- the quantum

  /** The table after n timer ticks in process p. */
  ghost function Ticks(t: Table, p: nat, n: nat): (r: Table)
    requires Inv(t) && p < NPROC && t.state[p] == Running && n <= t.slice[p]
    ensures Inv(r)
    ensures n < t.slice[p] ==> r == t.(slice := t.slice[p := t.slice[p] - n])
  {
    if n == 0 then
      assert t.slice[p := t.slice[p]] == t.slice;
      t
    else
      TickInv(Ticks(t, p, n - 1), p);
      TickAt(Ticks(t, p, n - 1), p)
  }

  /** A process dispatched at priority k that does not sleep keeps the CPU for exactly its quantum: the
      counter never wraps, no tick before the last one yields, and the last one demotes it by one level,
      to the back of that level's queue. */
  lemma QuantumExact(t: Table, p: nat)
    requires Inv(t) && p < NPROC && t.state[p] == Running && t.slice[p] == Quantum(t.prio[p])
    ensures forall n: nat :: n < Quantum(t.prio[p]) ==> Ticks(t, p, n).state[p] == Running && Ticks(t, p, n).slice[p] >= 1
    ensures var u := Ticks(t, p, Quantum(t.prio[p]));
            && u.state[p] == Runnable && u.prio[p] == (if t.prio[p] > 0 then t.prio[p] - 1 else 0)
            && u.queues[u.prio[p]] == t.queues[u.prio[p]] + [p]
  {
    var n := t.slice[p];
    var v := Ticks(t, p, n - 1);
    assert v.slice[p] == 1;
    assert Ticks(t, p, n) == TickAt(v, p);
  }

  /** How many of the steps from i on, up to k, are ticks in p. */
  ghost function TickCount(steps: seq<Step>, p: nat, i: nat, k: nat): nat
    requires i <= k <= |steps|
  {
    if i == k then 0 else TickCount(steps, p, i, k - 1) + if steps[k - 1] == Tick(p) then 1 else 0
  }

  lemma TickNext(steps: seq<Step>, p: nat, i: nat, before: nat, k: nat)
    requires i <= before < |steps| && k == before + 1
    ensures TickCount(steps, p, i, k) == TickCount(steps, p, i, before) + if steps[before] == Tick(p) then 1 else 0
  {
  }

  lemma {:induction false} WakeKeepsRunning(t: Table, n: nat, chan: nat, p: nat)
    requires Sized(t) && n <= NPROC && p < NPROC && t.state[p] == Running
    ensures var u := WakeUpTo(t, n, chan); u.state[p] == Running && u.prio[p] == t.prio[p] && u.slice[p] == t.slice[p]
  {
    if n > 0 { WakeKeepsRunning(t, n - 1, chan, p); }
  }

  lemma DispatchKeepsRunning(t: Table, p: nat)
    requires Inv(t) && p < NPROC && t.state[p] == Running
    ensures Do(t, Dispatch).prio[p] == t.prio[p] && Do(t, Dispatch).slice[p] == t.slice[p]
  {
    DispatchIsFifo(t, NPROCQ);
  }

  lemma DispatchStarts(t: Table, p: nat)
    requires Inv(t) && p < NPROC && t.state[p] != Running && |Do(t, Dispatch).state| == NPROC && Do(t, Dispatch).state[p] == Running
    ensures Inv(Do(t, Dispatch)) && Do(t, Dispatch).prio[p] == t.prio[p] && Do(t, Dispatch).slice[p] == Quantum(t.prio[p])
  {
    DoInv(t, Dispatch);
    DispatchIsFifo(t, NPROCQ);
    var q := Top(t, NPROCQ);
    assert q >= 0 && t.queues[q][0] == p;
  }

  /** What a step, of this CPU or another, does to a process that runs before it and after it: a tick of its own
      takes one off its timepiece, and nothing else touches it. */
  lemma StepSlice(t: Table, e: Step, p: nat)
    requires Inv(t) && Enabled(t, e) && p < NPROC && t.state[p] == Running && |Do(t, e).state| == NPROC && Do(t, e).state[p] == Running
    ensures Inv(Do(t, e)) && Do(t, e).prio[p] == t.prio[p]
    ensures Do(t, e).slice[p] == t.slice[p] - if e == Tick(p) then 1 else 0
  {
    DoInv(t, e);
    match e
    case Wakeup(chan) => WakeKeepsRunning(t, NPROC, chan, p);
    case Dispatch => DispatchKeepsRunning(t, p);
    case _ =>
  }

  /** In every run, with other CPUs' steps in between: from the dispatch of p on, as long as it runs, its
      timepiece is the quantum of its priority less the ticks it has had ... */
  lemma {:induction false} SliceInRun(ts: seq<Table>, steps: seq<Step>, d: nat, k: nat, p: nat)
    requires Run(ts, steps) && d < k <= |steps| && p < NPROC && DispatchOf(ts, steps, d, p)
    requires forall i :: d < i <= k ==> |ts[i].state| == NPROC && ts[i].state[p] == Running
    ensures Inv(ts[k]) && ts[k].prio[p] == ts[d].prio[p] && ts[k].slice[p] == Quantum(ts[d].prio[p]) - TickCount(steps, p, d + 1, k)
    decreases k
  {
    var before := k - 1;
    RunInv(ts, steps, before);
    assert ts[k] == Do(ts[before], steps[before]);
    if before == d {
      DispatchStarts(ts[d], p);
      assert TickCount(steps, p, k, k) == 0;
    } else {
      SliceInRun(ts, steps, d, before, p);
      TickNext(steps, p, d + 1, before, k);
      StepSlice(ts[before], steps[before], p);
    }
  }

  /** Step d dispatches p. */
  ghost predicate DispatchOf(ts: seq<Table>, steps: seq<Step>, d: nat, p: nat) {
    && d < |steps| < |ts| && steps[d] == Dispatch && |ts[d].state| == |ts[d + 1].state| == NPROC && p < NPROC
    && ts[d].state[p] != Running && ts[d + 1].state[p] == Running
  }

  /** ... and its ticks take the CPU from it exactly when they are as many as the quantum: that tick, and none
      before it, puts p at the back of the queue one level down. */
  lemma QuantumInRun(ts: seq<Table>, steps: seq<Step>, d: nat, k: nat, p: nat)
    requires Run(ts, steps) && d < k < |steps| && p < NPROC && DispatchOf(ts, steps, d, p) && steps[k] == Tick(p)
    requires forall i :: d < i <= k ==> |ts[i].state| == NPROC && ts[i].state[p] == Running
    ensures Inv(ts[k]) && Inv(ts[k + 1])
    ensures ts[k + 1].state[p] != Running <==> TickCount(steps, p, d + 1, k + 1) == Quantum(ts[d].prio[p])
    ensures ts[k + 1].state[p] != Running ==>
              var q := if ts[k].prio[p] > 0 then ts[k].prio[p] - 1 else 0;
              ts[k + 1].state[p] == Runnable && ts[k + 1].prio[p] == q && ts[k + 1].queues[q] == ts[k].queues[q] + [p]
  {
    SliceInRun(ts, steps, d, k, p);
    DoInv(ts[k], steps[k]);
    TickNext(steps, p, d + 1, k, k + 1);
  }

  /** A process is dispatched with its whole quantum. */
  lemma DispatchedWithQuantum(t: Table)
    requires Inv(t) && Top(t, NPROCQ) >= 0
    ensures var p := t.queues[Top(t, NPROCQ)][0]; var u := RunHead(t, Top(t, NPROCQ));
            u.state[p] == Running && u.slice[p] == Quantum(u.prio[p]) && Do(t, Dispatch) == u
  {
    DispatchIsFifo(t, NPROCQ);
  }
}
