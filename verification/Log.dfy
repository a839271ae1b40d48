/** log.c on top of the buffer cache: log_write, commit and recovery as loops over cached blocks,
    proved to make exactly the block writes of the redo log model, in its order. */
module Log {
  import opened Common
  import opened Bytes
  import opened Disk
  import opened RedoLog
  import opened CacheModel
  import BC = BufferCache
  import GroupCommit

  /** k of the planned writes have been made since the disk was d0 and the trace t0. */
  ghost predicate Progress(d0: Disk, t0: seq<Write>, plan: seq<Write>, k: nat, d: Disk, t: seq<Write>) {
    Fits(|d0|, plan) && k <= |plan| && d == After(d0, plan, k) && t == t0 + plan[..k]
  }

  lemma ProgressStep(d0: Disk, t0: seq<Write>, plan: seq<Write>, k: nat, d: Disk, t: seq<Write>)
    requires Progress(d0, t0, plan, k, d, t) && k < |plan|
    ensures plan[k].bno < |d|
    ensures Progress(d0, t0, plan, k + 1, d[plan[k].bno := plan[k].data], t + [plan[k]])
  {
  }

  /** The view v is v0 with the first k logged blocks copied to their slots. */
  ghost predicate Copied(g: Layout, lh: seq<uint>, v: Disk, v0: Disk, k: nat) {
    && g.Ok() && |v| == |v0| == g.size && GoodBlocks(g, lh) && k <= |lh|
    && SameHome(g, v, v0) && v[g.start] == v0[g.start]
    && forall i :: 0 <= i < k ==> v[g.start + 1 + i] == v0[lh[i]]
  }

  lemma CopiedStep(g: Layout, lh: seq<uint>, v: Disk, v0: Disk, k: nat)
    requires Copied(g, lh, v, v0, k) && k < |lh|
    ensures v[lh[k]] == v0[lh[k]]
    ensures Copied(g, lh, v[g.start + 1 + k := v0[lh[k]]], v0, k + 1)
  {
  }

  lemma NothingPinned(c: Cache, v: Disk, busy: set<nat>)
    requires Good(c, v, {}) && Readers(c, busy, {})
    ensures v == c.disk
  {
    forall b: nat | b < |v| ensures v[b] == c.disk[b] {
      UnpinnedIsOnDisk(c, v, {}, busy, b);
    }
  }

  lemma ListsMore(lh: seq<uint>, k: nat)
    requires k < |lh|
    ensures forall b: nat :: Lists(lh, k + 1, b) <==> Lists(lh, k, b) || lh[k] == b
  {
    forall b: nat ensures Lists(lh, k + 1, b) <==> Lists(lh, k, b) || lh[k] == b {
      if lh[k] == b { assert Lists(lh, k + 1, b); }
    }
  }

  /** The group lists no block twice, and exactly its blocks are pinned. Kept folded. */
  ghost predicate Matched(lh: seq<uint>, pins: set<nat>) {
    forall x {:trigger Unfold(x)} :: Unfold(x) ==>
      && (forall i, j :: 0 <= i < j < |lh| ==> lh[i] != lh[j])
      && (forall b: nat :: b in pins <==> Lists(lh, |lh|, b))
  }

  /** log_write adds its block to both. */
  lemma MatchedMore(lh: seq<uint>, pins: set<nat>, b: uint)
    requires Matched(lh, pins)
    ensures Matched(GroupCommit.Absorb(lh, b), pins + {b as nat})
  {
    assert Unfold(0);
    var l := GroupCommit.Absorb(lh, b);
    if !Lists(lh, |lh|, b) {
      ListsMore(l, |lh|);
      forall c: nat ensures Lists(lh, |lh|, c) <==> Lists(l, |lh|, c) {
        assert forall i :: 0 <= i < |lh| ==> lh[i] == l[i];
      }
    }
  }

  lemma MatchedAt(g: Layout, lh: seq<uint>, pins: set<nat>, k: nat)
    requires Matched(lh, pins) && GoodBlocks(g, lh) && k < |lh|
    ensures lh[k] as nat in pins && g.start + 1 + k !in pins && g.start !in pins
  {
    assert Unfold(0);
    assert Lists(lh, |lh|, lh[k]);
  }

  /** After k of the group's blocks have gone home, these pins are left. */
  ghost predicate PinsLeft(lh: seq<uint>, pins0: set<nat>, pins: set<nat>, k: nat) {
    forall x {:trigger Unfold(x)} :: Unfold(x) ==> k <= |lh| && forall b :: b in pins <==> b in pins0 && !Lists(lh, k, b)
  }

  lemma PinsLeftStart(lh: seq<uint>, pins: set<nat>)
    ensures PinsLeft(lh, pins, pins, 0)
  {
  }

  lemma PinsLeftStep(lh: seq<uint>, pins0: set<nat>, pins: set<nat>, k: nat, next: nat)
    requires PinsLeft(lh, pins0, pins, k) && k < |lh| && next == k + 1
    ensures PinsLeft(lh, pins0, pins - {lh[k] as nat}, next) && |pins| <= |pins0|
    ensures Matched(lh, pins0) ==> lh[k] as nat in pins
  {
    assert Unfold(0);
    ListsMore(lh, k);
    SubsetSize(pins, pins0);
    if Matched(lh, pins0) { assert Lists(lh, |lh|, lh[k]); }
  }

  lemma PinsLeftEnd(lh: seq<uint>, pins0: set<nat>, pins: set<nat>)
    requires PinsLeft(lh, pins0, pins, |lh|) && (pins0 == {} || Matched(lh, pins0))
    ensures pins == {}
  {
    assert Unfold(0);
  }

  /** The pins of a group are as many as its blocks. */
  lemma {:induction false} PinCount(lh: seq<uint>, pins: set<nat>)
    requires Matched(lh, pins)
    ensures |pins| == |lh|
  {
    assert Unfold(0);
    if lh == [] {
      assert pins == {};
    } else {
      var n := |lh| - 1;
      var l := lh[..n];
      ListsMore(lh, n);
      assert forall b: nat :: Lists(l, n, b) <==> Lists(lh, n, b);
      PinCount(l, pins - {lh[n] as nat});
    }
  }

  /** write_head's loop over the header block. */
  method StoreHeader(h: Block, lh: seq<uint>) returns (x: Block)
    requires |lh| <= LOGSIZE
    ensures x == EncodeHeader(h, lh)
  {
    x := SetWord(h, 0, |lh|);
    var i := 0;
    while i < |lh|
      invariant 0 <= i <= |lh| && x == EncodeEntries(SetWord(h, 0, |lh|), lh, i)
    {
      x := SetWord(x, i + 1, lh[i]);
      i := i + 1;
    }
  }

  /** read_head's loop over the header block. */
  method LoadHeader(h: Block) returns (lh: seq<uint>)
    requires Count(h) <= LOGSIZE
    ensures lh == HeaderBlocks(h)
  {
    lh := [];
    var i := 0;
    while i < Word(h, 0)
      invariant 0 <= i <= Count(h) && |lh| == i && forall j :: 0 <= j < i ==> lh[j] == Entry(h, j)
    {
      lh := lh + [Word(h, 1 + i)];
      i := i + 1;
    }
  }

  // ---------------------------------------------------------------- the parts of a plan

  /** A plan begins with the log slots. Kept folded, like the next three. */
  ghost predicate SlotPlan(g: Layout, lh: seq<uint>, v: Disk, plan: seq<Write>) {
    forall x {:trigger Look(x)} :: Look(x) ==>
      |plan| >= |lh| && forall i :: 0 <= i < |lh| ==> lh[i] < |v| && plan[i] == Write(g.start + 1 + i, v[lh[i]])
  }

  /** From its m-th write on it has the home blocks. */
  ghost predicate HomePlan(lh: seq<uint>, data: seq<Block>, plan: seq<Write>, m: nat) {
    forall x {:trigger Look(x)} :: Look(x) ==>
      |data| == |lh| && m + |lh| <= |plan| && forall i :: 0 <= i < |lh| ==> plan[m + i] == Write(lh[i], data[i])
  }

  /** The slots of the log hold these blocks. */
  ghost predicate SlotsHold(g: Layout, v: Disk, data: seq<Block>) {
    forall x {:trigger Look(x)} :: Look(x) ==>
      g.start + 1 + |data| <= |v| && forall i :: 0 <= i < |data| ==> v[g.start + 1 + i] == data[i]
  }

  lemma SlotPlanAt(g: Layout, lh: seq<uint>, v: Disk, plan: seq<Write>, k: nat)
    requires SlotPlan(g, lh, v, plan) && k < |lh|
    ensures k < |plan| && lh[k] < |v| && plan[k] == Write(g.start + 1 + k, v[lh[k]])
  {
    assert Look(0);
  }

  lemma HomePlanAt(lh: seq<uint>, data: seq<Block>, plan: seq<Write>, m: nat, k: nat, at: nat)
    requires HomePlan(lh, data, plan, m) && k < |lh| && at == m + k
    ensures k < |data| && at < |plan| && plan[at] == Write(lh[k], data[k])
  {
    assert Look(0);
  }

  lemma SlotsHoldAt(g: Layout, v: Disk, data: seq<Block>, k: nat, slot: nat)
    requires SlotsHold(g, v, data) && k < |data| && slot == g.start + 1 + k
    ensures slot < |v| && v[slot] == data[k]
  {
    assert Look(0);
  }

  lemma CopiedHold(g: Layout, lh: seq<uint>, v: Disk, v0: Disk)
    requires Copied(g, lh, v, v0, |lh|)
    ensures SlotsHold(g, v, ViewBlocks(lh, v0))
  {
  }

  /** The header leaves the slots alone. */
  lemma HeaderHold(g: Layout, v: Disk, data: seq<Block>, h: Block)
    requires SlotsHold(g, v, data) && g.start < |v|
    ensures SlotsHold(g, v[g.start := h], data)
  {
    assert Look(0);
  }

  lemma RecoverParts(g: Layout, d: Disk, lh: seq<uint>, data: seq<Block>, plan: seq<Write>)
    requires WellFormed(g, d) && lh == HeaderBlocks(d[g.start]) && plan == RecoverWrites(g, d) && data == d[g.start + 1..g.start + 1 + |lh|]
    ensures SlotsHold(g, d, data) && HomePlan(lh, data, plan, 0)
  {
  }

  /** The plan of a commit: slots, header, home blocks, header. */
  ghost predicate Planned(g: Layout, hdr: Block, lh: seq<uint>, v: Disk, data: seq<Block>, plan: seq<Write>, m: nat, last: nat) {
    && SlotPlan(g, lh, v, plan) && HomePlan(lh, data, plan, m) && m == |lh| + 1 && last == m + |lh| && |plan| == last + 1 && |lh| <= LOGSIZE
    && plan[|lh|] == Write(g.start, EncodeHeader(hdr, lh)) && plan[last] == Write(g.start, EncodeHeader(EncodeHeader(hdr, lh), []))
  }

  lemma PlanParts(g: Layout, hdr: Block, lh: seq<uint>, v: Disk)
    requires g.Ok() && |v| == g.size && GoodBlocks(g, lh)
    ensures Planned(g, hdr, lh, v, ViewBlocks(lh, v), CommitWrites(g, hdr, lh, v), |lh| + 1, 2 * |lh| + 1)
  {
  }

  /** The buffers that others use hold neither log blocks nor blocks of the group. */
  ghost predicate Apart(c: Cache, busy: set<nat>, g: Layout, lh: seq<uint>) {
    forall b: nat {:trigger Spared(c, busy, b)} :: g.InLog(b) || Lists(lh, |lh|, b) ==> Spared(c, busy, b)
  }

  // ---------------------------------------------------------------- bread, bwrite and brelse beside the readers

  /** Where bread finds a buffer, and that nobody else has it. */
  lemma BreadPlace(c: Cache, pins: set<nat>, busy: set<nat>, ours: set<nat>, b: uint)
    requires Inv(c) && PinnedIn(c, pins) && Readers(c, busy, ours) && Spared(c, busy, b) && Spared(c, ours, b)
    requires forall i :: i in ours && i < |c.bufs| ==> c.bufs[i].refcnt >= 1
    ensures b as nat in pins || |pins| + |busy| + |ours| < NBUF ==> Pick(c, 1, b).Some?
    ensures ours == {} && |pins| + |busy| >= NBUF && b as nat !in pins ==> Pick(c, 1, b).None?
    ensures var r := Pick(c, 1, b); r.Some? ==> r.value !in busy && r.value !in ours && c.bufs[r.value].refcnt == 0
    ensures forall i :: 0 <= i < NBUF && Matches(c.bufs[i], 1, b) ==> !c.bufs[i].locked
  {
    forall i: nat | i < NBUF ensures if i in busy then Reads(c, i) else i in ours || Idles(c, i) {
      assert i !in ours ==> if i in busy then Reads(c, i) else Idles(c, i);
    }
    assert |busy + ours| == |busy| + |ours|;
    if b as nat in pins || |pins| + |busy| + |ours| < NBUF { PickFinds(c, pins, busy + ours, b); }
    if ours == {} && |pins| + |busy| >= NBUF && b as nat !in pins { PickFails(c, pins, busy, b); }
    if Pick(c, 1, b).Some? { PickFree(c, 1, b); }
  }

  lemma BreadReaders(c: Cache, d: Cache, busy: set<nat>, ours: set<nat>, ours': set<nat>, i: nat, g: Layout, lh: seq<uint>)
    requires Readers(c, busy, ours) && Apart(c, busy, g, lh) && i < |c.bufs| == |d.bufs| && i !in busy && ours' == ours + {i}
    requires d.disk == c.disk && forall j :: 0 <= j < |c.bufs| && j != i ==> d.bufs[j] == c.bufs[j]
    ensures Readers(d, busy, ours') && Apart(d, busy, g, lh)
  {
    SameReaders(c, d, busy, ours, ours', i, g, lh);
  }

  /** Nothing has happened to the readers' buffers, nor to those in nobody's use. */
  lemma SameReaders(c: Cache, d: Cache, busy: set<nat>, ours: set<nat>, ours': set<nat>, i: nat, g: Layout, lh: seq<uint>)
    requires Readers(c, busy, ours) && Apart(c, busy, g, lh) && i < |c.bufs| == |d.bufs| && i !in busy
    requires (forall j :: j in ours' <==> j in ours || j == i) || (i in ours && ours' == ours - {i} && Idles(d, i))
    requires d.disk == c.disk && forall j :: 0 <= j < |c.bufs| && j != i ==> d.bufs[j] == c.bufs[j]
    ensures Readers(d, busy, ours') && Apart(d, busy, g, lh)
  {
    forall j | 0 <= j < |d.bufs| && j !in ours' ensures if j in busy then Reads(d, j) else Idles(d, j) {
      if j != i { assert if j in busy then Reads(c, j) else Idles(c, j); }
    }
    forall b: nat | g.InLog(b) || Lists(lh, |lh|, b) ensures Spared(d, busy, b) {
      assert Spared(c, busy, b);
    }
  }

  lemma DropReaders(c: Cache, d: Cache, busy: set<nat>, ours: set<nat>, ours': set<nat>, i: nat, g: Layout, lh: seq<uint>)
    requires Readers(c, busy, ours) && Apart(c, busy, g, lh) && i < |c.bufs| == |d.bufs| && i in ours && ours' == ours - {i} && Idles(d, i)
    requires d.disk == c.disk && forall j :: 0 <= j < |c.bufs| && j != i ==> d.bufs[j] == c.bufs[j]
    ensures Readers(d, busy, ours') && Apart(d, busy, g, lh)
  {
    SameReaders(c, d, busy, ours, ours', i, g, lh);
  }

  lemma WriteReaders(c: Cache, d: Cache, busy: set<nat>, ours: set<nat>, p: nat, dst: uint, g: Layout, lh: seq<uint>)
    requires Inv(c) && Readers(c, busy, ours) && Apart(c, busy, g, lh) && p in ours && p < |c.bufs| && Holds(c, p, dst)
    requires |d.bufs| == |c.bufs| && |d.disk| == |c.disk| && (forall b :: 0 <= b < |c.disk| && b != dst ==> d.disk[b] == c.disk[b])
    requires forall j :: 0 <= j < |c.bufs| && j != p ==> d.bufs[j] == c.bufs[j]
    ensures Readers(d, busy, ours) && Apart(d, busy, g, lh)
  {
    forall j | 0 <= j < |d.bufs| && j !in ours ensures if j in busy then Reads(d, j) else Idles(d, j) {
      assert if j in busy then Reads(c, j) else Idles(c, j);
      assert BufOk(c, c.bufs[j]);
      if c.bufs[j].valid { DifferentBlocks(c, j, p); }
    }
    forall b: nat | g.InLog(b) || Lists(lh, |lh|, b) ensures Spared(d, busy, b) {
      assert Spared(c, busy, b);
    }
  }

  ghost predicate OneHeld(c: Cache, v: Disk, busy: set<nat>, p: nat, b: uint, g: Layout, lh: seq<uint>) {
    Held(c, v, p, 1, b) && c.bufs[p].refcnt == 1 && Readers(c, busy, {p}) && Apart(c, busy, g, lh)
  }

  ghost predicate TwoHeld(c: Cache, v: Disk, busy: set<nat>, p: nat, q: nat, a: uint, b: uint, g: Layout, lh: seq<uint>) {
    && Held(c, v, p, 1, a) && Held(c, v, q, 1, b) && p != q && a != b && c.bufs[p].refcnt == c.bufs[q].refcnt == 1
    && Readers(c, busy, {p, q}) && Apart(c, busy, g, lh)
  }

  lemma NoneToOne(c: Cache, d: Cache, v: Disk, busy: set<nat>, p: nat, b: uint, g: Layout, lh: seq<uint>)
    requires Readers(c, busy, {}) && Apart(c, busy, g, lh) && Held(d, v, p, 1, b) && p !in busy
    requires d.disk == c.disk && |d.bufs| == |c.bufs| && d.bufs[p].refcnt == c.bufs[p].refcnt + 1 && c.bufs[p].refcnt == 0
    requires forall j :: 0 <= j < |c.bufs| && j != p ==> d.bufs[j] == c.bufs[j]
    ensures OneHeld(d, v, busy, p, b, g, lh)
  {
    BreadReaders(c, d, busy, {}, {p}, p, g, lh);
  }

  lemma OneToTwo(c: Cache, d: Cache, v: Disk, busy: set<nat>, p: nat, q: nat, a: uint, b: uint, g: Layout, lh: seq<uint>)
    requires OneHeld(c, v, busy, p, a, g, lh) && Held(d, v, q, 1, b) && a != b && q !in busy && p != q
    requires d.disk == c.disk && |d.bufs| == |c.bufs| && d.bufs[q].refcnt == c.bufs[q].refcnt + 1 && c.bufs[q].refcnt == 0
    requires forall j :: 0 <= j < |c.bufs| && j != q ==> d.bufs[j] == c.bufs[j]
    ensures TwoHeld(d, v, busy, p, q, a, b, g, lh)
  {
    BreadReaders(c, d, busy, {p}, {p, q}, q, g, lh);
    assert d.bufs[p] == c.bufs[p];
  }

  class Log {
    const bc: BC.BufferCache
    const g: Layout
    var lh: seq<uint>    // log.lh: block[0..n)
    ghost var busy: set<nat>    // the buffers that other processes use, to read; begin_op does not keep them out

    ghost predicate Valid()
      reads this, bc, bc.buf, bc.prev, bc.next
    {
      bc.Valid() && g.Ok() && |bc.disk| == g.size && GoodBlocks(g, lh)
    }

    /** We use no buffer. What it says of the cache is kept folded. */
    ghost predicate Idle()
      reads this, bc, bc.buf, bc.prev, bc.next
    {
      g.Ok() && |bc.disk| == |bc.view| == g.size && GoodBlocks(g, lh) && AtRest()
    }

    ghost predicate AtRest()
      reads this, bc, bc.buf, bc.prev, bc.next
    {
      forall x {:trigger Unfold(x)} :: Unfold(x) ==>
        bc.Valid() && Readers(bc.State(), busy, {}) && Apart(bc.State(), busy, g, lh)
    }

    /** initlog, before recovery. */
    constructor (cache: BC.BufferCache, layout: Layout)
      requires cache.Valid() && layout.Ok() && |cache.disk| == layout.size
      ensures Valid() && lh == [] && bc == cache && g == layout && busy == {}
      ensures Readers(cache.State(), {}, {}) ==> Idle()
    {
      bc := cache;
      g := layout;
      lh := [];
      busy := {};
    }

    /** log_write: the panics, the absorption loop, and the pin. False is a panic. */
    method LogWrite(i: nat, outstanding: int) returns (ok: bool)
      requires Valid() && i < NBUF && bc.buf[i].locked && bc.buf[i].valid && !g.InLog(bc.buf[i].blockno)
      modifies this`lh, bc, bc.buf
      ensures Valid() && bc.view == old(bc.view)
      ensures ok <==> |old(lh)| < LOGSIZE && |old(lh)| < g.nlog - 1 && outstanding >= 1
      ensures !ok ==> lh == old(lh) && bc.State() == old(bc.State())
      ensures ok && Matched(old(lh), old(bc.pins)) ==> Matched(lh, bc.pins)
      ensures ok ==>
                && lh == GroupCommit.Absorb(old(lh), bc.buf[i].blockno)
                && bc.State() == old(bc.State().(bufs := bc.State().bufs[i := bc.buf[i].(dirty := true)]))
    {
      if |lh| >= LOGSIZE || |lh| >= g.nlog - 1 { return false; }
      if outstanding < 1 { return false; }
      var b := bc.buf[i].blockno;
      assert BufOk(bc.State(), bc.buf[i]);
      var k := 0;
      while k < |lh| && lh[k] != b
        invariant 0 <= k <= |lh| && forall j :: 0 <= j < k ==> lh[j] != b
      {
        k := k + 1;
      }
      if Matched(lh, bc.pins) { MatchedMore(lh, bc.pins, b); }
      if k == |lh| { lh := lh + [b]; }
      bc.Put(i, bc.buf[i].(dirty := true), Pin(i));
      return true;
    }

    /** A block that the log works on. */
    ghost predicate Ours(b: nat)
      reads this`lh
    {
      g.InLog(b) || Lists(lh, |lh|, b)
    }

    lemma SlotOurs(k: nat, slot: nat)
      requires g.Ok() && GoodBlocks(g, lh) && k < |lh| && slot == g.start + 1 + k
      ensures Ours(lh[k]) && Ours(slot)
    {
    }

    /** The body of the write_log and install_trans loops: copy one cached block over another and
        write it. They take the two buffers in opposite orders. False is bget's panic, before the write: it
        cannot happen while the pins and the readers leave buffers for the blocks that are not pinned. */
    method CopyBlock(src: uint, dst: uint, dstFirst: bool) returns (ok: bool)
      requires Idle() && src != dst && src < g.size && dst < g.size && Ours(src) && Ours(dst)
      modifies bc, bc.buf, bc.prev, bc.next
      ensures |old(bc.pins)| + |busy| < NBUF && ((if dstFirst then src else dst) as nat in old(bc.pins) || |old(bc.pins)| + |busy| + 1 < NBUF) ==> ok
      ensures |old(bc.pins)| + |busy| >= NBUF && (if dstFirst then dst else src) as nat !in old(bc.pins) ==> !ok
      ensures !ok ==> bc.disk == old(bc.disk) && bc.trace == old(bc.trace)
      ensures ok ==>
                && Idle() && bc.disk == old(bc.disk[dst := bc.view[src]])
                && bc.trace == old(bc.trace + [Write(dst, bc.view[src])])
                && bc.view == old(bc.view[dst := bc.view[src]])
                && bc.pins == old(bc.pins) - {dst as nat}
    {
      var first := if dstFirst then dst else src;
      var second := if dstFirst then src else dst;
      var p, q;
      ok, p, q := HoldTwo(first, second);
      if !ok { return; }
      if dstFirst {
        SwapTwo(p, q, first, second);
        CopyHeld(q, p, src, dst);
      } else {
        CopyHeld(p, q, src, dst);
      }
    }

    /** We hold buffer p, and no other, with block b. Kept folded. */
    ghost predicate HoldsOne(p: nat, b: uint)
      reads this, bc, bc.buf, bc.prev, bc.next
    {
      forall x {:trigger Unfold(x)} :: Unfold(x) ==>
        bc.Valid() && OneHeld(bc.State(), bc.view, busy, p, b, g, lh)
    }

    /** We hold buffers p and q, and no other, with blocks a and b. Kept folded. */
    ghost predicate HoldsTwo(p: nat, q: nat, a: uint, b: uint)
      reads this, bc, bc.buf, bc.prev, bc.next
    {
      forall x {:trigger Unfold(x)} :: Unfold(x) ==>
        bc.Valid() && TwoHeld(bc.State(), bc.view, busy, p, q, a, b, g, lh)
    }

    lemma FirstPlace(b: uint)
      requires Idle() && Ours(b)
      ensures bc.Valid() && Readers(bc.State(), busy, {}) && Apart(bc.State(), busy, g, lh)
      ensures |bc.pins| + |busy| < NBUF ==> Pick(bc.State(), 1, b).Some?
      ensures |bc.pins| + |busy| >= NBUF && b as nat !in bc.pins ==> Pick(bc.State(), 1, b).None?
      ensures var r := Pick(bc.State(), 1, b); r.Some? ==> r.value !in busy && bc.buf[r.value].refcnt == 0
      ensures forall i :: 0 <= i < NBUF && Matches(bc.buf[i], 1, b) ==> !bc.buf[i].locked
    {
      assert Unfold(0);
      var c := bc.State();
      assert Spared(c, busy, b);
      BreadPlace(c, bc.pins, busy, {}, b);
      forall i | 0 <= i < NBUF && Matches(bc.buf[i], 1, b) ensures !bc.buf[i].locked {
        assert c.bufs[i] == bc.buf[i];
      }
    }

    /** bread when we use no buffer. */
    method HoldOne(b: uint) returns (ok: bool, p: nat)
      requires Idle() && b < g.size && Ours(b)
      modifies bc.buf, bc`disk, bc`trace
      ensures bc.disk == old(bc.disk) && bc.trace == old(bc.trace)
      ensures ok <==> Finds(old(bc.State()), b)
      ensures |bc.pins| + |busy| < NBUF ==> ok
      ensures |bc.pins| + |busy| >= NBUF && b as nat !in bc.pins ==> !ok
      ensures ok ==> HoldsOne(p, b) && p < bc.buf.Length && bc.buf[p].data == bc.view[b]
    {
      FirstPlace(b);
      ghost var c := bc.State();
      var r := bc.Bread(1, b);
      if r.None? { return false, 0; }
      NoneToOne(c, bc.State(), bc.view, busy, r.value, b, g, lh);
      return true, r.value;
    }

    /** Two bread calls in a row. */
    method HoldTwo(first: uint, second: uint) returns (ok: bool, p: nat, q: nat)
      requires Idle() && first != second && first < g.size && second < g.size && Ours(first) && Ours(second)
      modifies bc.buf, bc`disk, bc`trace
      ensures bc.disk == old(bc.disk) && bc.trace == old(bc.trace)
      ensures |bc.pins| + |busy| < NBUF && (second as nat in bc.pins || |bc.pins| + |busy| + 1 < NBUF) ==> ok
      ensures |bc.pins| + |busy| >= NBUF && first as nat !in bc.pins ==> !ok
      ensures ok ==> HoldsTwo(p, q, first, second)
    {
      q := 0;
      ok, p := HoldOne(first);
      if ok { ok, q := HoldNext(p, first, second); }
    }

    lemma NextPlace(p: nat, first: uint, second: uint)
      requires HoldsOne(p, first) && first != second && Ours(second)
      ensures bc.Valid() && OneHeld(bc.State(), bc.view, busy, p, first, g, lh)
      ensures second as nat in bc.pins || |bc.pins| + |busy| + 1 < NBUF ==> Pick(bc.State(), 1, second).Some?
      ensures var r := Pick(bc.State(), 1, second); r.Some? ==> r.value !in busy && r.value != p && bc.buf[r.value].refcnt == 0
      ensures forall i :: 0 <= i < NBUF && Matches(bc.buf[i], 1, second) ==> !bc.buf[i].locked
    {
      assert Unfold(0);
      var c := bc.State();
      assert Spared(c, busy, second);
      BreadPlace(c, bc.pins, busy, {p}, second);
      forall i | 0 <= i < NBUF && Matches(bc.buf[i], 1, second) ensures !bc.buf[i].locked {
        assert c.bufs[i] == bc.buf[i];
      }
    }

    method HoldNext(p: nat, first: uint, second: uint) returns (ok: bool, q: nat)
      requires HoldsOne(p, first) && first != second && second < |bc.disk| && Ours(second)
      modifies bc.buf, bc`disk, bc`trace
      ensures bc.disk == old(bc.disk) && bc.trace == old(bc.trace)
      ensures second as nat in bc.pins || |bc.pins| + |busy| + 1 < NBUF ==> ok
      ensures ok ==> HoldsTwo(p, q, first, second)
    {
      NextPlace(p, first, second);
      ghost var c := bc.State();
      var r := bc.Bread(1, second);
      if r.None? { return false, 0; }
      OneToTwo(c, bc.State(), bc.view, busy, p, r.value, first, second, g, lh);
      return true, r.value;
    }

    lemma SwapTwo(p: nat, q: nat, a: uint, b: uint)
      requires HoldsTwo(p, q, a, b)
      ensures HoldsTwo(q, p, b, a)
    {
      assert Unfold(0);
      assert {p, q} == {q, p};
    }

    method CopyHeld(s: nat, d: nat, src: uint, dst: uint)
      requires HoldsTwo(s, d, src, dst) && src < |bc.view| && dst < |bc.disk| == |bc.view|
      modifies bc, bc.buf, bc.prev, bc.next
      ensures AtRest() && bc.disk == old(bc.disk[dst := bc.view[src]])
      ensures bc.trace == old(bc.trace + [Write(dst, bc.view[src])])
      ensures bc.view == old(bc.view[dst := bc.view[src]])
      ensures bc.pins == old(bc.pins) - {dst as nat}
    {
      MoveHeld(s, d, src, dst);
      DropOne(d, dst);
    }

    method MoveHeld(s: nat, d: nat, src: uint, dst: uint)
      requires HoldsTwo(s, d, src, dst) && src < |bc.view| && dst < |bc.disk| == |bc.view|
      modifies bc, bc.buf, bc.prev, bc.next
      ensures HoldsOne(d, dst) && bc.disk == old(bc.disk[dst := bc.view[src]])
      ensures bc.trace == old(bc.trace + [Write(dst, bc.view[src])])
      ensures bc.view == old(bc.view[dst := bc.view[src]])
      ensures bc.pins == old(bc.pins) - {dst as nat}
    {
      assert Unfold(0);
      ghost var c := bc.State();
      Overwrite(d, dst, bc.buf[s].data);
      ghost var c1 := bc.State();
      WriteReaders(c, c1, busy, {s, d}, d, dst, g, lh);
      Drop(s);
      DropReaders(c1, bc.State(), busy, {s, d}, {d}, s, g, lh);
    }

    method DropOne(p: nat, ghost b: uint)
      requires HoldsOne(p, b)
      modifies bc, bc.buf, bc.prev, bc.next
      ensures AtRest() && bc.disk == old(bc.disk) && bc.trace == old(bc.trace) && bc.view == old(bc.view) && bc.pins == old(bc.pins)
    {
      assert Unfold(0);
      ghost var c := bc.State();
      Drop(p);
      DropReaders(c, bc.State(), busy, {p}, {}, p, g, lh);
    }

    method OverwriteOne(p: nat, b: uint, x: Block)
      requires HoldsOne(p, b) && b < |bc.disk| == |bc.view|
      modifies bc, bc.buf
      ensures HoldsOne(p, b) && bc.disk == old(bc.disk)[b := x] && bc.trace == old(bc.trace) + [Write(b, x)]
      ensures bc.view == old(bc.view)[b := x] && bc.pins == old(bc.pins) - {b as nat}
    {
      assert Unfold(0);
      ghost var c := bc.State();
      Overwrite(p, b, x);
      WriteReaders(c, bc.State(), busy, {p}, p, b, g, lh);
    }

    /** Change the held buffer d, then bwrite(d). */
    method Overwrite(d: nat, dst: uint, x: Block)
      requires bc.Valid() && Held(bc.State(), bc.view, d, 1, dst)
      modifies bc, bc.buf
      ensures bc.Valid() && bc.disk == old(bc.disk)[dst := x] && bc.trace == old(bc.trace) + [Write(dst, x)]
      ensures bc.view == old(bc.view)[dst := x] && bc.pins == old(bc.pins) - {dst as nat}
      ensures bc.buf[..] == old(bc.buf[..])[d := old(bc.buf[d]).(data := x, dirty := false)]
    {
      bc.Put(d, bc.buf[d].(data := x), Modify(d, x));
      assert BufOk(bc.State(), bc.buf[d]);
      var ok := bc.Bwrite(d);
    }

    /** brelse of a held buffer that is pinned or equals its disk block. */
    method Drop(i: nat)
      requires bc.Valid() && i < NBUF && Allowed(bc.State(), Unlock(i))
      modifies bc, bc.buf, bc.prev, bc.next
      ensures bc.Valid() && bc.disk == old(bc.disk) && bc.trace == old(bc.trace)
      ensures bc.view == old(bc.view) && bc.pins == old(bc.pins)
      ensures forall j :: 0 <= j < NBUF && j != i ==> bc.buf[j] == old(bc.buf[j])
      ensures !bc.buf[i].locked && bc.buf[i].refcnt + 1 == old(bc.buf[i].refcnt)
    {
      assert BufOk(bc.State(), bc.buf[i]);
      var ok := bc.Brelse(i);
    }

    lemma AllOnDisk()
      requires Idle() && bc.pins == {}
      ensures bc.view == bc.disk
    {
      assert Unfold(0);
      NothingPinned(bc.State(), bc.view, busy);
    }

    /** write_head: read the header block, store the count and the block numbers, write it. False is bget's
        panic. */
    method WriteHead() returns (ok: bool)
      requires Idle()
      modifies bc, bc.buf, bc.prev, bc.next
      ensures ok <==> Finds(old(bc.State()), g.start)
      ensures |old(bc.pins)| + |busy| < NBUF ==> ok
      ensures !ok ==> bc.disk == old(bc.disk) && bc.trace == old(bc.trace)
      ensures ok ==>
                && Idle() && bc.pins == old(bc.pins) - {g.start}
                && var h := EncodeHeader(old(bc.view[g.start]), lh);
                   && bc.disk == old(bc.disk)[g.start := h] && bc.trace == old(bc.trace) + [Write(g.start, h)]
                   && bc.view == old(bc.view)[g.start := h]
    {
      var p;
      ok, p := HoldOne(g.start);
      if !ok { return; }
      var x := StoreHeader(bc.buf[p].data, lh);
      OverwriteOne(p, g.start, x);
      DropOne(p, g.start);
    }

    /** bread and brelse of the header block. */
    method LookHead() returns (ok: bool, h: Block)
      requires Idle()
      modifies bc, bc.buf, bc.prev, bc.next
      ensures bc.disk == old(bc.disk) && bc.trace == old(bc.trace) && bc.view == old(bc.view) && bc.pins == old(bc.pins)
      ensures ok <==> Finds(old(bc.State()), g.start)
      ensures |bc.pins| + |busy| < NBUF ==> ok
      ensures ok ==> Idle() && h == bc.view[g.start]
    {
      var p;
      ok, p := HoldOne(g.start);
      if !ok { return false, ZeroBlock; }
      h := bc.buf[p].data;
      DropOne(p, g.start);
    }

    /** read_head, at boot: the count and the block numbers the header block lists. False is bget's panic. */
    method ReadHead() returns (ok: bool)
      requires Idle() && busy == {} && WellFormed(g, bc.view)
      modifies this`lh, bc, bc.buf, bc.prev, bc.next
      ensures bc.disk == old(bc.disk) && bc.trace == old(bc.trace)
      ensures ok <==> Finds(old(bc.State()), g.start)
      ensures |old(bc.pins)| < NBUF ==> ok
      ensures ok ==> Idle() && bc.view == old(bc.view) && bc.pins == old(bc.pins)
      ensures ok ==> lh == HeaderBlocks(bc.view[g.start])
    {
      var h;
      ok, h := LookHead();
      if ok {
        assert Unfold(0);
        lh := LoadHeader(h);
      }
    }

    /** install_trans: each log slot goes home. The first m writes of the plan are done; the next ones
        are these. It succeeds whenever pins and readers leave a buffer over and every home block is pinned, as
        in commit, and whenever nothing is pinned and two buffers are left over, as in recovery. */
    method InstallTrans(ghost d0: Disk, ghost t0: seq<Write>, ghost plan: seq<Write>, ghost m: nat, ghost data: seq<Block>)
      returns (ok: bool, ghost k: nat)
      requires Idle() && Progress(d0, t0, plan, m, bc.disk, bc.trace) && |data| == |lh| && m + |lh| <= |plan|
      requires SlotsHold(g, bc.view, data) && HomePlan(lh, data, plan, m)
      modifies bc, bc.buf, bc.prev, bc.next
      ensures m <= k && Progress(d0, t0, plan, k, bc.disk, bc.trace)
      ensures old((bc.pins == {} && |busy| + 1 < NBUF) || (Matched(lh, bc.pins) && |bc.pins| + |busy| < NBUF)) ==> ok
      ensures ok ==>
                && k == m + |lh| && Idle()
                && (forall b: nat :: b < g.size && g.InLog(b) ==> bc.view[b] == old(bc.view[b]))
                && PinsLeft(lh, old(bc.pins), bc.pins, |lh|)
    {
      k := m;
      var tail := 0;
      PinsLeftStart(lh, bc.pins);
      while tail < |lh|
        invariant 0 <= tail <= |lh| && k == m + tail && Idle() && Progress(d0, t0, plan, k, bc.disk, bc.trace)
        invariant forall b: nat :: b < g.size && g.InLog(b) ==> bc.view[b] == old(bc.view[b])
        invariant PinsLeft(lh, old(bc.pins), bc.pins, tail)
      {
        SlotsHoldAt(g, old(bc.view), data, tail, g.start + 1 + tail);
        HomePlanAt(lh, data, plan, m, tail, k);
        ProgressStep(d0, t0, plan, k, bc.disk, bc.trace);
        PinsLeftStep(lh, old(bc.pins), bc.pins, tail, tail + 1);
        SlotOurs(tail, g.start + 1 + tail);
        ok := CopyBlock(g.start + 1 + tail, lh[tail], false);
        if !ok { return false, k; }
        tail := tail + 1;
        k := k + 1;
      }
      ok := true;
    }

    /** write_log: each logged block, as cached, goes to its slot. It panics exactly when the group and the
        readers take up every buffer. */
    method WriteLog(ghost d0: Disk, ghost t0: seq<Write>, ghost plan: seq<Write>, ghost v0: Disk)
      returns (ok: bool, ghost k: nat)
      requires Idle() && Matched(lh, bc.pins) && Progress(d0, t0, plan, 0, bc.disk, bc.trace) && |lh| <= |plan| && bc.view == v0
      requires SlotPlan(g, lh, v0, plan)
      modifies bc, bc.buf, bc.prev, bc.next
      ensures Progress(d0, t0, plan, k, bc.disk, bc.trace)
      ensures (ok <==> lh == [] || |lh| + |busy| < NBUF) && k == if ok then |lh| else 0
      ensures ok ==>
                && Idle() && Copied(g, lh, bc.view, v0, |lh|)
                && bc.pins == old(bc.pins)
    {
      k := 0;
      var tail := 0;
      PinCount(lh, bc.pins);
      while tail < |lh|
        invariant 0 <= tail <= |lh| && k == tail && Idle() && Progress(d0, t0, plan, k, bc.disk, bc.trace)
        invariant Copied(g, lh, bc.view, v0, tail)
        invariant bc.pins == old(bc.pins) && (tail > 0 ==> |lh| + |busy| < NBUF)
      {
        CopiedStep(g, lh, bc.view, v0, tail);
        SlotPlanAt(g, lh, v0, plan, tail);
        ProgressStep(d0, t0, plan, k, bc.disk, bc.trace);
        MatchedAt(g, lh, bc.pins, tail);
        SlotOurs(tail, g.start + 1 + tail);
        ok := CopyBlock(lh[tail], g.start + 1 + tail, true);
        if !ok { return false, k; }
        tail := tail + 1;
        k := k + 1;
      }
      ok := true;
    }

    /** commit, while other processes read some blocks. It panics exactly when the blocks of the group and the
        buffers of the readers take up the whole cache, and then before its first write; otherwise the block
        writes it makes are the planned ones, in order, no buffer stays pinned and the log is empty. */
    method Commit() returns (ok: bool, ghost k: nat)
      requires Idle() && Matched(lh, bc.pins) && CleanDisk(g, bc.disk) && lh != []
      modifies this`lh, bc, bc.buf, bc.prev, bc.next
      ensures var plan := CommitWrites(g, old(bc.disk)[g.start], old(lh), old(bc.view));
              && Progress(old(bc.disk), old(bc.trace), plan, k, bc.disk, bc.trace)
              && k == if ok then |plan| else 0
      ensures ok <==> |old(lh)| + |busy| < NBUF
      ensures ok ==> Idle() && lh == [] && bc.pins == {} && bc.view == bc.disk
    {
      MatchedAt(g, lh, bc.pins, 0);
      assert Unfold(0);
      UnpinnedIsOnDisk(bc.State(), bc.view, bc.pins, busy, g.start);
      PlanParts(g, bc.disk[g.start], lh, bc.view);
      ok, k := CommitPlanned(CommitWrites(g, bc.disk[g.start], lh, bc.view), ViewBlocks(lh, bc.view), |lh| + 1, 2 * |lh| + 1);
    }

    method CommitPlanned(ghost plan: seq<Write>, ghost data: seq<Block>, ghost m: nat, ghost last: nat) returns (ok: bool, ghost k: nat)
      requires Idle() && Matched(lh, bc.pins) && lh != [] && data == ViewBlocks(lh, bc.view) && Fits(g.size, plan)
      requires Planned(g, bc.view[g.start], lh, bc.view, data, plan, m, last)
      modifies this`lh, bc, bc.buf, bc.prev, bc.next
      ensures Progress(old(bc.disk), old(bc.trace), plan, k, bc.disk, bc.trace)
      ensures ok <==> |old(lh)| + |busy| < NBUF
      ensures k == if ok then |plan| else 0
      ensures ok ==> Idle() && lh == [] && bc.pins == {} && bc.view == bc.disk
    {
      ghost var d0, t0, v0 := bc.disk, bc.trace, bc.view;
      ok, k := WriteLog(d0, t0, plan, v0);
      if !ok { return; }
      CopiedHold(g, lh, bc.view, v0);
      k := CommitHeader(d0, t0, plan, v0[g.start], data);
      k := CommitInstall(d0, t0, plan, data, m, last);
    }

    /** The write_head that commits: the (|lh|+1)-st write of the plan. */
    method CommitHeader(ghost d0: Disk, ghost t0: seq<Write>, ghost plan: seq<Write>, ghost hdr: Block, ghost data: seq<Block>)
      returns (ghost k: nat)
      requires Idle() && Matched(lh, bc.pins) && 0 < |lh| && |lh| + |busy| < NBUF && Progress(d0, t0, plan, |lh|, bc.disk, bc.trace)
      requires SlotsHold(g, bc.view, data) && bc.view[g.start] == hdr && |lh| < |plan| && plan[|lh|] == Write(g.start, EncodeHeader(hdr, lh))
      modifies bc, bc.buf, bc.prev, bc.next
      ensures Progress(d0, t0, plan, k, bc.disk, bc.trace)
      ensures k == |lh| + 1 && Idle() && Matched(lh, bc.pins) && bc.view[g.start] == EncodeHeader(hdr, lh) && SlotsHold(g, bc.view, data)
    {
      k := |lh|;
      MatchedAt(g, lh, bc.pins, 0);
      ProgressStep(d0, t0, plan, k, bc.disk, bc.trace);
      PinCount(lh, bc.pins);
      HeaderHold(g, bc.view, data, EncodeHeader(hdr, lh));
      var ok := WriteHead();
      k := k + 1;
    }

    /** The rest of a commit once its header is on the disk. */
    method CommitInstall(ghost d0: Disk, ghost t0: seq<Write>, ghost plan: seq<Write>, ghost data: seq<Block>, ghost m: nat, ghost last: nat)
      returns (ghost k: nat)
      requires Idle() && Matched(lh, bc.pins) && |lh| + |busy| < NBUF && |data| == |lh| && Progress(d0, t0, plan, m, bc.disk, bc.trace)
      requires SlotsHold(g, bc.view, data) && HomePlan(lh, data, plan, m) && last == m + |lh| && |plan| == last + 1
      requires plan[last] == Write(g.start, EncodeHeader(bc.view[g.start], []))
      modifies this`lh, bc, bc.buf, bc.prev, bc.next
      ensures Progress(d0, t0, plan, k, bc.disk, bc.trace)
      ensures k == |plan| && Idle() && lh == [] && bc.pins == {} && bc.view == bc.disk
    {
      PinCount(lh, bc.pins);
      var ok;
      ok, k := InstallTrans(d0, t0, plan, m, data);
      PinsLeftEnd(lh, old(bc.pins), bc.pins);
      Forget();
      k := ClearHeader(d0, t0, plan, k);
    }

    /** Empty the list of logged blocks in memory; the header on disk is cleared after it. */
    method Forget()
      requires Idle()
      modifies this`lh
      ensures Idle() && lh == []
    {
      assert Unfold(0);
      lh := [];
    }

    /** The write_head with log.lh.n == 0 that ends a commit or a recovery: the last write of the plan. */
    method ClearHeader(ghost d0: Disk, ghost t0: seq<Write>, ghost plan: seq<Write>, ghost m: nat) returns (ghost k: nat)
      requires Idle() && lh == [] && bc.pins == {} && |busy| < NBUF && Progress(d0, t0, plan, m, bc.disk, bc.trace) && m + 1 == |plan|
      requires plan[m] == Write(g.start, EncodeHeader(bc.view[g.start], []))
      modifies bc, bc.buf, bc.prev, bc.next
      ensures Progress(d0, t0, plan, k, bc.disk, bc.trace)
      ensures k == |plan| && Idle() && bc.pins == {} && bc.view == bc.disk
    {
      k := m;
      ProgressStep(d0, t0, plan, k, bc.disk, bc.trace);
      var ok := WriteHead();
      k := k + 1;
      AllOnDisk();
    }

    /** recover_from_log with nothing pinned: it never panics, and its block writes are those of the
        recovery model. */
    method Recover() returns (ok: bool, ghost k: nat)
      requires Idle() && busy == {} && WellFormed(g, bc.disk) && bc.pins == {}
      modifies this`lh, bc, bc.buf, bc.prev, bc.next
      ensures ok && k == |RecoverWrites(g, old(bc.disk))|
      ensures Progress(old(bc.disk), old(bc.trace), RecoverWrites(g, old(bc.disk)), k, bc.disk, bc.trace)
      ensures bc.disk == Recovered(g, old(bc.disk)) && Idle() && lh == [] && bc.pins == {} && bc.view == bc.disk
    {
      ghost var d0, t0 := bc.disk, bc.trace;
      ghost var plan := RecoverWrites(g, d0);
      AllOnDisk();
      k := 0;
      ok := ReadHead();
      if !ok { return; }
      ghost var data := d0[g.start + 1..g.start + 1 + |lh|];
      RecoverParts(g, d0, lh, data, plan);
      ok, k := InstallTrans(d0, t0, plan, 0, data);
      if !ok { return; }
      PinsLeftEnd(lh, {}, bc.pins);
      Forget();
      k := ClearHeader(d0, t0, plan, k);
    }
  }
}
