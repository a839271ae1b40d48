/** A pipe as an unbounded stream: the bytes accepted so far, in order, and how many of them have been
    read. A write or a read runs in turns under p->lock; between two turns it sleeps and any other call
    may run. */
module PipeModel {
  import opened Bytes

  const PIPESIZE: nat := 512

  /** A byte accepted from position `at` of write call `call`. */
  datatype Item = Item(b: byte, call: nat, at: nat)

  datatype Stream = Stream(accepted: seq<Item>, consumed: nat, readopen: bool, writeopen: bool)

  datatype WriteEnd = Wrote | WriteFailed | WriteSleeps
  datatype ReadEnd = Read(got: seq<byte>) | ReadFailed | ReadSleeps

  predicate Bounded(s: Stream) {
    s.consumed <= |s.accepted| <= s.consumed + PIPESIZE
  }

  function Held(s: Stream): nat
    requires Bounded(s)
  {
    |s.accepted| - s.consumed
  }

  function Min(a: nat, b: nat): (r: nat)
    ensures r <= a && r <= b && (r == a || r == b)
  {
    if a < b then a else b
  }

  function Items(buf: seq<byte>, call: nat, i: nat, j: nat): (r: seq<Item>)
    requires i <= j <= |buf|
    ensures |r| == j - i && forall k :: 0 <= k < j - i ==> r[k] == Item(buf[i + k], call, i + k)
    decreases j - i
  {
    if i == j then [] else Items(buf, call, i, j - 1) + [Item(buf[j - 1], call, j - 1)]
  }

  /** How far one turn of pipewrite gets from byte i of its buffer. */
  function WriteStops(s: Stream, n: nat, i: nat): (j: nat)
    requires Bounded(s) && i <= n
    ensures i <= j <= n
  {
    i + Min(n - i, PIPESIZE - Held(s))
  }

  function WriteTurn(s: Stream, buf: seq<byte>, call: nat, i: nat, killed: bool): (Stream, WriteEnd)
    requires Bounded(s) && i <= |buf|
  {
    var j := WriteStops(s, |buf|, i);
    (s.(accepted := s.accepted + Items(buf, call, i, j)),
     if j == |buf| then Wrote else if !s.readopen || killed then WriteFailed else WriteSleeps)
  }

  function Payload(items: seq<Item>, i: nat, j: nat): (r: seq<byte>)
    requires i <= j <= |items|
    ensures |r| == j - i && forall k :: 0 <= k < j - i ==> r[k] == items[i + k].b
    decreases j - i
  {
    if i == j then [] else Payload(items, i, j - 1) + [items[j - 1].b]
  }

  function ReadTurn(s: Stream, n: nat, killed: bool): (Stream, ReadEnd)
    requires Bounded(s)
  {
    if Held(s) == 0 && s.writeopen then (s, if killed then ReadFailed else ReadSleeps)
    else
      var k := Min(n, Held(s));
      (s.(consumed := s.consumed + k), Read(Payload(s.accepted, s.consumed, s.consumed + k)))
  }

  function CloseEnd(s: Stream, writable: bool): Stream {
    if writable then s.(writeopen := false) else s.(readopen := false)
  }

  // ---------------------------------------------------------------- whole runs

  datatype Status = Active | Returned | Failed

  /** Many write calls, each with its buffer; out is all that reads have returned, in the order of the reads. */
  datatype World = World(s: Stream, done: seq<nat>, status: seq<Status>, out: seq<byte>)

  datatype Step = DoWrite(call: nat, killed: bool) | DoRead(n: nat, killed: bool) | DoClose(writable: bool)

  ghost predicate Sized(w: World, bufs: seq<seq<byte>>) {
    && |w.done| == |w.status| == |bufs| && Bounded(w.s)
    && forall c :: 0 <= c < |bufs| ==> w.done[c] <= |bufs[c]|
  }

  ghost predicate Enabled(w: World, e: Step, bufs: seq<seq<byte>>)
    requires Sized(w, bufs)
  {
    e.DoWrite? ==> e.call < |bufs| && w.status[e.call] == Active
  }

  function Do(w: World, e: Step, bufs: seq<seq<byte>>): World
    requires Sized(w, bufs) && Enabled(w, e, bufs)
  {
    match e
    case DoWrite(c, killed) =>
      var (s, end) := WriteTurn(w.s, bufs[c], c, w.done[c], killed);
      World(s, w.done[c := WriteStops(w.s, |bufs[c]|, w.done[c])],
            w.status[c := match end case Wrote => Returned case WriteFailed => Failed case WriteSleeps => Active], w.out)
    case DoRead(n, killed) =>
      var (s, end) := ReadTurn(w.s, n, killed);
      w.(s := s, out := if end.Read? then w.out + end.got else w.out)
    case DoClose(writable) => w.(s := CloseEnd(w.s, writable))
  }

  /** The items that came from one write call, in the order they were accepted. */
  function From(items: seq<Item>, call: nat): seq<Item> {
    if items == [] then []
    else
      var rest := From(items[..|items| - 1], call);
      if items[|items| - 1].call == call then rest + [items[|items| - 1]] else rest
  }

  lemma {:induction false} FromAppend(items: seq<Item>, more: seq<Item>, call: nat)
    ensures From(items + more, call) == From(items, call) + From(more, call)
  {
    if more == [] {
      assert items + more == items;
    } else {
      var all := items + more;
      assert all[..|all| - 1] == items + more[..|more| - 1];
      FromAppend(items, more[..|more| - 1], call);
    }
  }

  lemma {:induction false} FromItems(buf: seq<byte>, c: nat, i: nat, j: nat, call: nat)
    requires i <= j <= |buf|
    ensures From(Items(buf, c, i, j), call) == if c == call then Items(buf, c, i, j) else []
    decreases j - i
  {
    if i < j {
      var it := Items(buf, c, i, j);
      assert it[..|it| - 1] == Items(buf, c, i, j - 1);
      FromItems(buf, c, i, j - 1, call);
    }
  }

  lemma ItemsJoin(buf: seq<byte>, c: nat, i: nat, j: nat, k: nat)
    requires i <= j <= k <= |buf|
    ensures Items(buf, c, i, j) + Items(buf, c, j, k) == Items(buf, c, i, k)
  {
  }

  lemma PayloadJoin(items: seq<Item>, more: seq<Item>, i: nat, j: nat, k: nat)
    requires i <= j <= k <= |items|
    ensures Payload(items, i, j) + Payload(items, j, k) == Payload(items, i, k)
    ensures Payload(items + more, i, k) == Payload(items, i, k)
  {
  }

  /** What was read is a prefix of what was accepted, and what was accepted from each call is a prefix of
      its buffer: all of it once the call has returned. */
  ghost predicate Inv(w: World, bufs: seq<seq<byte>>) {
    && Sized(w, bufs) && w.out == Payload(w.s.accepted, 0, w.s.consumed)
    && forall c {:trigger CallOk(w, bufs, c)} :: 0 <= c < |bufs| ==> CallOk(w, bufs, c)
  }

  ghost predicate CallOk(w: World, bufs: seq<seq<byte>>, c: nat)
    requires Sized(w, bufs) && c < |bufs|
  {
    From(w.s.accepted, c) == Items(bufs[c], c, 0, w.done[c]) && (w.status[c] == Returned ==> w.done[c] == |bufs[c]|)
  }

  lemma WriteInv(w: World, c: nat, killed: bool, bufs: seq<seq<byte>>)
    requires Inv(w, bufs) && Enabled(w, DoWrite(c, killed), bufs)
    ensures Inv(Do(w, DoWrite(c, killed), bufs), bufs)
  {
    var w' := Do(w, DoWrite(c, killed), bufs);
    var i, j := w.done[c], w'.done[c];
    var more := Items(bufs[c], c, i, j);
    PayloadJoin(w.s.accepted, more, 0, 0, w.s.consumed);
    forall x | 0 <= x < |bufs| ensures CallOk(w', bufs, x) {
      assert CallOk(w, bufs, x);
      FromAppend(w.s.accepted, more, x);
      FromItems(bufs[c], c, i, j, x);
      ItemsJoin(bufs[c], c, 0, i, j);
    }
  }

  lemma ReadInv(w: World, n: nat, killed: bool, bufs: seq<seq<byte>>)
    requires Inv(w, bufs)
    ensures Inv(Do(w, DoRead(n, killed), bufs), bufs)
  {
    var w' := Do(w, DoRead(n, killed), bufs);
    PayloadJoin(w.s.accepted, [], 0, w.s.consumed, w'.s.consumed);
    forall x | 0 <= x < |bufs| ensures CallOk(w', bufs, x) {
      assert CallOk(w, bufs, x);
    }
  }

  lemma DoInv(w: World, e: Step, bufs: seq<seq<byte>>)
    requires Inv(w, bufs) && Enabled(w, e, bufs)
    ensures Inv(Do(w, e, bufs), bufs)
  {
    match e
    case DoWrite(c, killed) => WriteInv(w, c, killed, bufs);
    case DoRead(n, killed) => ReadInv(w, n, killed, bufs);
    case DoClose(writable) =>
      forall x | 0 <= x < |bufs| ensures CallOk(Do(w, e, bufs), bufs, x) {
        assert CallOk(w, bufs, x);
      }
  }

  ghost predicate Run(ws: seq<World>, steps: seq<Step>, bufs: seq<seq<byte>>) {
    && |ws| == |steps| + 1
    && ws[0] == World(Stream([], 0, true, true), seq(|bufs|, i => 0), seq(|bufs|, i => Active), [])
    && forall k :: 0 <= k < |steps| ==> Sized(ws[k], bufs) && Enabled(ws[k], steps[k], bufs) && ws[k + 1] == Do(ws[k], steps[k], bufs)
  }

  lemma {:induction false} RunInv(ws: seq<World>, steps: seq<Step>, bufs: seq<seq<byte>>, k: nat)
    requires Run(ws, steps, bufs) && k <= |steps|
    ensures Inv(ws[k], bufs)
  {
    if k == 0 {
      forall c | 0 <= c < |bufs| ensures CallOk(ws[0], bufs, c) {
      }
    } else {
      RunInv(ws, steps, bufs, k - 1);
      assert ws[k - 1 + 1] == Do(ws[k - 1], steps[k - 1], bufs);
      DoInv(ws[k - 1], steps[k - 1], bufs);
    }
  }

  /** First in, first out, over every interleaving: the pipe never holds more than PIPESIZE bytes, the
      bytes read are the bytes accepted, in order, up to some point, and every call's bytes are accepted in
      the order of its buffer, all of them once it has returned. */
  lemma Fifo(ws: seq<World>, steps: seq<Step>, bufs: seq<seq<byte>>, k: nat)
    requires Run(ws, steps, bufs) && k <= |steps|
    ensures var w := ws[k];
            && w.s.consumed <= |w.s.accepted| <= w.s.consumed + PIPESIZE
            && w.out == Payload(w.s.accepted, 0, w.s.consumed)
            && |w.done| == |w.status| == |bufs|
            && forall c :: 0 <= c < |bufs| ==>
                 && w.done[c] <= |bufs[c]| && From(w.s.accepted, c) == Items(bufs[c], c, 0, w.done[c])
                 && (w.status[c] == Returned ==> w.done[c] == |bufs[c]|)
  {
    RunInv(ws, steps, bufs, k);
    forall c | 0 <= c < |bufs|
      ensures From(ws[k].s.accepted, c) == Items(bufs[c], c, 0, ws[k].done[c]) && (ws[k].status[c] == Returned ==> ws[k].done[c] == |bufs[c]|)
    {
      assert CallOk(ws[k], bufs, c);
    }
  }

  // ---------------------------------------------------------------- the two ends

  /** One of the first k steps closed that end. */
  ghost predicate Closed(steps: seq<Step>, k: nat, writable: bool)
    requires k <= |steps|
  {
    exists i :: 0 <= i < k && steps[i] == DoClose(writable)
  }

  /** An end is open until the close of that end, and nothing else closes or opens it. */
  lemma {:induction false} EndsInRun(ws: seq<World>, steps: seq<Step>, bufs: seq<seq<byte>>, k: nat)
    requires Run(ws, steps, bufs) && k <= |steps|
    ensures ws[k].s.writeopen <==> !Closed(steps, k, true)
    ensures ws[k].s.readopen <==> !Closed(steps, k, false)
  {
    if k > 0 {
      var last := k - 1;
      EndsInRun(ws, steps, bufs, last);
      assert ws[k] == Do(ws[last], steps[last], bufs);
      ClosedNext(steps, last, k, true);
      ClosedNext(steps, last, k, false);
    }
  }

  lemma ClosedNext(steps: seq<Step>, last: nat, k: nat, writable: bool)
    requires last < |steps| && k == last + 1
    ensures Closed(steps, k, writable) <==> Closed(steps, last, writable) || steps[last] == DoClose(writable)
  {
    if steps[last] == DoClose(writable) { assert Closed(steps, k, writable); }
  }

  /** End of file: a read of n > 0 bytes returns none if and only if everything accepted has been read and the
      write end was closed before. It returns nothing and sleeps, or fails when killed, if and only if
      everything has been read and the write end was not closed; otherwise it returns what there is, n bytes
      at most. */
  lemma EndOfFile(ws: seq<World>, steps: seq<Step>, bufs: seq<seq<byte>>, k: nat, n: nat, killed: bool)
    requires Run(ws, steps, bufs) && k < |steps| && steps[k] == DoRead(n, killed) && n > 0
    ensures var w := ws[k]; var held := |w.s.accepted| - w.s.consumed;
            && Bounded(w.s) && |ws[k + 1].out| == |w.out| + Min(n, held)
            && (ReadTurn(w.s, n, killed).1 == Read([]) <==> held == 0 && Closed(steps, k, true))
            && (ReadTurn(w.s, n, killed).1.Read? <==> held > 0 || Closed(steps, k, true))
            && (ReadTurn(w.s, n, killed).1 == ReadFailed <==> held == 0 && !Closed(steps, k, true) && killed)
  {
    EndsInRun(ws, steps, bufs, k);
    RunInv(ws, steps, bufs, k);
    var (s', end) := ReadTurn(ws[k].s, n, killed);
    assert ws[k + 1] == Do(ws[k], steps[k], bufs);
    if end.Read? { assert |end.got| == Min(n, Held(ws[k].s)); }
  }

  /** Broken pipe: a write takes as many of its bytes as there is space for. It is over when it has them all;
      with the pipe full before that, it fails if and only if the read end was closed before, or it is killed,
      and goes on sleeping otherwise. */
  lemma BrokenPipe(ws: seq<World>, steps: seq<Step>, bufs: seq<seq<byte>>, k: nat, c: nat, killed: bool)
    requires Run(ws, steps, bufs) && k < |steps| && steps[k] == DoWrite(c, killed)
    ensures var w, u := ws[k], ws[k + 1];
            && c < |bufs| && |w.done| == |u.done| == |u.status| == |bufs| && w.done[c] <= |bufs[c]| && Bounded(w.s)
            && u.done[c] == w.done[c] + Min(|bufs[c]| - w.done[c], PIPESIZE - (|w.s.accepted| - w.s.consumed))
            && (u.status[c] == Returned <==> u.done[c] == |bufs[c]|)
            && (u.status[c] == Failed <==> u.done[c] < |bufs[c]| && (Closed(steps, k, false) || killed))
  {
    EndsInRun(ws, steps, bufs, k);
    RunInv(ws, steps, bufs, k);
    assert ws[k + 1] == Do(ws[k], steps[k], bufs);
  }
}
