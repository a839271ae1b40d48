/** malloc, free and morecore of xv6-l/umalloc.c over a memory of headers. The static header `base` lies
    below the heap; what sbrk answers is a parameter. */
module Allocator {
  import opened Common
  import opened AllocatorModel

  /** What malloc ends with. Wild: sbrk was asked to shrink, or for nothing, and reported success; the code
      goes on to store a header beyond the memory it has. */
  datatype Outcome = Null | Wild | Block(ap: nat)

  /** Unit u is still the same block's, and holds what it held. */
  ghost predicate Stays(h: Heap, ptr: seq<nat>, g: Heap, ptr': seq<nat>, u: nat) {
    u in h.own && u < |ptr| && u < |h.size| ==>
      && u in g.own && g.own[u] == h.own[u]
      && u < |ptr'| && ptr'[u] == ptr[u] && u < |g.size| && g.size[u] == h.size[u]
  }

  /** The memory of these live blocks: neither its contents nor its owner has changed. */
  ghost predicate Untouched(h: Heap, ptr: seq<nat>, g: Heap, ptr': seq<nat>, live: set<nat>) {
    forall u {:trigger Stays(h, ptr, g, ptr', u)} :: u in h.own && h.own[u] in live ==> Stays(h, ptr, g, ptr', u)
  }

  lemma LiveUnits(h: Heap, base: nat, u: nat)
    requires Tiled(h, base) && u in h.own
    ensures u < |h.size| && (h.own[u] in h.live ==> u !in h.free)
  {
    assert Lies(h, base, u) && Holds(h, h.own[u]);
    if u in h.free && u != base { assert Holds(h, u); }
  }

  function FreedPtr(size: seq<nat>, ptr: seq<nat>, p: nat, bp: nat, next: nat): seq<nat>
    requires p < |ptr| == |size| && bp < |ptr| && next < |ptr|
  {
    LinkDown(LinkUp(ptr, bp + size[bp] == next, p, bp, next), p + size[p] == bp, p, bp)
  }

  function FreedSize(size: seq<nat>, p: nat, bp: nat, next: nat): seq<nat>
    requires p < |size| && bp < |size| && next < |size|
  {
    var up := if bp + size[bp] == next then size[bp := size[bp] + size[next]] else size;
    if p + up[p] == bp then up[p := up[p] + up[bp]] else up
  }

  ghost predicate Relinked(size: seq<nat>, ptr: seq<nat>, p: nat, bp: nat, next: nat, size': seq<nat>, ptr': seq<nat>) {
    && p < bp < |ptr| == |size| && next < |ptr| && next == ptr[p] && next != bp
    && size' == FreedSize(size, p, bp, next) && ptr' == FreedPtr(size, ptr, p, bp, next)
  }

  ghost predicate FreeDone(h: Heap, ptr: seq<nat>, g: Heap, ptr': seq<nat>, freep: nat, bp: nat)
    requires bp < |h.size|
  {
    && g.live == h.live - {bp} && g.own.Keys == h.own.Keys && freep in g.free && freep < |ptr'|
    && bp in g.own && g.own[bp] in g.free && (g.own[bp] == freep || g.own[bp] == ptr'[freep])
    && g.own[bp] < |g.size| && g.size[g.own[bp]] >= h.size[bp]
    && Untouched(h, ptr, g, ptr', g.live)
  }

  lemma FreeElsewhere(h: Heap, ptr: seq<nat>, base: nat, p: nat, bp: nat, next: nat, u: nat)
    requires HeapInv(h, ptr, base) && p in h.free && p < bp && bp in h.live && next in h.free
    requires u in h.own && h.own[u] in h.live && h.own[u] != bp
    ensures u < |ptr| && FreedPtr(h.size, ptr, p, bp, next)[u] == ptr[u] && FreedSize(h.size, p, bp, next)[u] == h.size[u]
  {
    LiveUnits(h, base, u);
    assert Holds(h, bp) && h.own[bp] == bp;
  }

  lemma FreeMeans(h: Heap, ptr: seq<nat>, base: nat, p: nat, bp: nat, next: nat) returns (g: Heap, ptr': seq<nat>)
    requires HeapInv(h, ptr, base) && Between(ptr, h.free, p, bp) && bp in h.live && next == ptr[p] && next in h.free && next < |ptr|
    ensures Relinked(h.size, ptr, p, bp, next, g.size, ptr')
    ensures HeapInv(g, ptr', base) && FreeDone(h, ptr, g, ptr', p, bp)
  {
    FreeInv(h, ptr, base, p, bp, next);
    FreeKeeps(h, ptr, base, p, bp, next);
    FreeSize(h, p, bp, next);
    assert Holds(h, bp);
    g, ptr' := Freed(h, p, bp, next), FreedPtr(h.size, ptr, p, bp, next);
    forall u | u in h.own && h.own[u] in g.live
      ensures u < |ptr| && ptr'[u] == ptr[u] && g.size[u] == h.size[u]
    {
      FreeElsewhere(h, ptr, base, p, bp, next, u);
    }
  }

  lemma FreeSize(h: Heap, p: nat, bp: nat, next: nat)
    requires p < bp < |h.size| && next < |h.size|
    ensures Freed(h, p, bp, next).size == FreedSize(h.size, p, bp, next)
  {
  }

  /** morecore has added a region of n units: they are free now, and lie in freep's block or the next. */
  ghost predicate CoreDone(h: Heap, ptr: seq<nat>, g: Heap, ptr': seq<nat>, freep: nat, region: set<nat>, n: nat) {
    && g.live == h.live && g.own.Keys == h.own.Keys + region && freep in g.free && freep < |ptr'|
    && (exists fit :: fit in g.free && (fit == freep || fit == ptr'[freep]) && fit < |g.size| && g.size[fit] >= n)
    && Untouched(h, ptr, g, ptr', h.live)
  }

  lemma GrownInv(h: Heap, ptr: seq<nat>, base: nat, size': seq<nat>, ptr': seq<nat>, at: nat, n: nat, region: set<nat>) returns (g: Heap)
    requires HeapInv(h, ptr, base) && |ptr| <= at && 1 <= n && |ptr'| == |size'| == at + n <= TOP && size'[at] == n
    requires forall a :: 0 <= a < |ptr| ==> size'[a] == h.size[a] && ptr'[a] == ptr[a]
    requires forall u :: u in region <==> at <= u < at + n
    ensures HeapInv(g, ptr', base) && g.size == size' && g.live == h.live + {at} && at !in h.live && g.free == h.free
    ensures g.own.Keys == h.own.Keys + region && Untouched(h, ptr, g, ptr', h.live)
  {
    g := Grown(h, size', at, region);
    GrownTiled(h, base, size', at, n, region);
    assert at !in h.live;
    RingSame(ptr, ptr', h.free, base);
    forall a | a in g.free && a != base ensures Lone(g, a) {
      assert Lone(h, a);
    }
    forall u | u in h.own ensures u < |ptr| {
      LiveUnits(h, base, u);
    }
  }

  lemma UntouchedTwice(h: Heap, ptr: seq<nat>, g: Heap, ptr1: seq<nat>, k: Heap, ptr2: seq<nat>, live: set<nat>)
    requires Untouched(h, ptr, g, ptr1, live) && Untouched(g, ptr1, k, ptr2, live)
    ensures Untouched(h, ptr, k, ptr2, live)
  {
    forall u | u in h.own && h.own[u] in live ensures Stays(h, ptr, k, ptr2, u) {
      assert Stays(h, ptr, g, ptr1, u) && (u < |ptr| && u < |h.size| ==> Stays(g, ptr1, k, ptr2, u));
    }
  }

  lemma CoreMeans(h: Heap, ptr: seq<nat>, g: Heap, ptr1: seq<nat>, k: Heap, ptr2: seq<nat>, freep: nat, at: nat, region: set<nat>, n: nat)
    requires g.live == h.live + {at} && at !in h.live && g.own.Keys == h.own.Keys + region && at < |g.size| && g.size[at] == n
    requires Untouched(h, ptr, g, ptr1, h.live) && FreeDone(g, ptr1, k, ptr2, freep, at)
    ensures CoreDone(h, ptr, k, ptr2, freep, region, n)
  {
    assert k.live == h.live;
    UntouchedTwice(h, ptr, g, ptr1, k, ptr2, h.live);
    assert k.own[at] in k.free;
  }

  /** malloc has made q, of n units, a live block. */
  ghost predicate GiveDone(h: Heap, ptr: seq<nat>, g: Heap, ptr': seq<nat>, q: nat, n: nat) {
    && q !in h.live && g.live == h.live + {q} && q < |g.size| && g.size[q] == n && g.own.Keys == h.own.Keys
    && q in h.own && h.own[q] in h.free && Untouched(h, ptr, g, ptr', h.live)
  }

  lemma TakeMeans(h: Heap, ptr: seq<nat>, base: nat, prev: nat, p: nat) returns (g: Heap)
    requires HeapInv(h, ptr, base) && prev in h.free && ptr[prev] == p && p != base
    ensures p < |ptr| && HeapInv(g, ptr[prev := ptr[p]], base) && g.size == h.size && prev in g.free
    ensures GiveDone(h, ptr, g, ptr[prev := ptr[p]], p, h.size[p])
  {
    assert Follows(ptr, h.free, base, prev);
    TakeInv(h, ptr, base, prev, p);
    g := Take(h, p);
    assert Holds(h, p) && h.own[p] == p;
    forall u | u in h.own && h.own[u] in h.live ensures u != prev && u < |ptr| {
      LiveUnits(h, base, u);
    }
  }

  lemma SplitMeans(h: Heap, ptr: seq<nat>, base: nat, p: nat, q: nat, n: nat) returns (g: Heap)
    requires HeapInv(h, ptr, base) && p in h.free && p != base && 1 <= n < h.size[p] && q == p + h.size[p] - n
    ensures q < |ptr| && HeapInv(g, ptr, base) && g.size == h.size[p := h.size[p] - n][q := n] && g.free == h.free
    ensures GiveDone(h, ptr, g, ptr, q, n)
  {
    SplitInv(h, ptr, base, p, q, n);
    SplitTiled(h, base, p, q, n);
    g := Split(h, p, q, n);
    assert Holds(h, p) && h.own[p] == p && h.own[q] == p;
  }

  /** What the search that starts after freep has passed on its way to p. */
  ghost predicate Passed(freep: nat, p: nat, a: nat) {
    if p > freep then freep < a < p else a > freep || a < p
  }

  ghost predicate NoneFits(h: Heap, n: nat) {
    forall a :: a in h.free && a < |h.size| ==> h.size[a] < n
  }

  ghost predicate NonePassedFits(h: Heap, freep: nat, p: nat, n: nat) {
    forall a :: a in h.free && a < |h.size| && Passed(freep, p, a) ==> h.size[a] < n
  }

  lemma SearchStart(h: Heap, ptr: seq<nat>, base: nat, freep: nat, n: nat)
    requires HeapInv(h, ptr, base) && freep in h.free
    ensures ptr[freep] in h.free && NonePassedFits(h, freep, ptr[freep], n)
  {
    assert Follows(ptr, h.free, base, freep);
  }

  lemma SearchStep(h: Heap, ptr: seq<nat>, base: nat, freep: nat, p: nat)
    requires HeapInv(h, ptr, base) && freep in h.free && p in h.free && p != freep
    ensures ptr[p] in h.free && (if p > freep then ptr[p] > p || ptr[p] == base <= freep else p < ptr[p] <= freep)
    ensures forall a :: a in h.free && Passed(freep, ptr[p], a) ==> Passed(freep, p, a) || a == p
  {
    assert Follows(ptr, h.free, base, p);
  }

  /** malloc has made q, of n units, a live block; obtained is what sbrk added. */
  ghost predicate MallocDone(h: Heap, ptr: seq<nat>, g: Heap, ptr': seq<nat>, q: nat, n: nat, obtained: set<nat>) {
    && q !in h.live && g.live == h.live + {q} && q < |g.size| && g.size[q] == n
    && g.own.Keys == h.own.Keys + obtained && Untouched(h, ptr, g, ptr', h.live)
  }

  lemma GiveMeans(h: Heap, ptr: seq<nat>, g: Heap, ptr1: seq<nat>, k: Heap, ptr2: seq<nat>, q: nat, n: nat, obtained: set<nat>)
    requires g.live == h.live && g.own.Keys == h.own.Keys + obtained && Untouched(h, ptr, g, ptr1, h.live)
    requires GiveDone(g, ptr1, k, ptr2, q, n)
    ensures MallocDone(h, ptr, k, ptr2, q, n, obtained)
  {
    UntouchedTwice(h, ptr, g, ptr1, k, ptr2, h.live);
  }

  ghost predicate SameFree(h0: Heap, h: Heap) {
    forall a :: a in h0.free && a < |h0.size| ==> a in h.free && a < |h.size| && h.size[a] == h0.size[a]
  }

  /** How the heap stands against the one that malloc was called on: nothing live has changed, sbrk has
      added what was obtained, and what was free still is, as long as it obtained nothing. */
  ghost predicate Since(h0: Heap, ptr0: seq<nat>, h: Heap, ptr: seq<nat>, obtained: set<nat>, grown: bool) {
    && h.live == h0.live && h.own.Keys == h0.own.Keys + obtained && Untouched(h0, ptr0, h, ptr, h0.live)
    && (!grown ==> obtained == {} && SameFree(h0, h))
  }

  lemma SinceCore(h0: Heap, ptr0: seq<nat>, h: Heap, ptr: seq<nat>, g: Heap, ptr': seq<nat>, freep: nat, region: set<nat>, n: nat)
    requires Since(h0, ptr0, h, ptr, {}, false) && CoreDone(h, ptr, g, ptr', freep, region, n)
    ensures Since(h0, ptr0, g, ptr', region, true) && !NoneFits(g, n)
  {
    UntouchedTwice(h0, ptr0, h, ptr, g, ptr', h0.live);
  }

  /** No block is 2 GB large. */
  lemma NotHuge(h: Heap, ptr: seq<nat>, base: nat, p: nat, nbytes: nat)
    requires HeapInv(h, ptr, base) && p in h.live && h.size[p] == Units(nbytes) && nbytes < WORD
    ensures !(LARGEST < nbytes <= WORD - HEADER)
  {
    GrowthAsked(nbytes);
    assert Holds(h, p);
  }

  /** The two words of a unit inside a live block, past its header, are the program's own. */
  lemma PayloadIsFree(h: Heap, ptr: seq<nat>, base: nat, u: nat, x: nat, y: nat)
    requires HeapInv(h, ptr, base) && u in h.own && h.own[u] in h.live && u != h.own[u]
    ensures u < |ptr| && HeapInv(h.(size := h.size[u := y]), ptr[u := x], base)
  {
    LiveUnits(h, base, u);
    var g := h.(size := h.size[u := y]);
    forall a | (a in h.free && a != base) || a in h.live ensures a != u && Holds(g, a) {
      assert Holds(h, a) && h.own[a] == a;
    }
    forall w | w in h.own ensures Lies(g, base, w) {
      assert Lies(h, base, w);
    }
    forall a | a in g.free && a != base ensures Lone(g, a) {
      assert Lone(h, a);
    }
    RingSame(ptr, ptr[u := x], h.free, base);
  }

  class Allocator {
    const base: nat
    var ptr: seq<nat>
    var size: seq<nat>
    var freep: nat
    ghost var heap: Heap

    ghost predicate Valid()
      reads this
    {
      && 0 < base < |ptr| == |size| <= TOP && heap.size == size
      && if freep == 0 then heap == Heap(size, map[], {}, {}) else HeapInv(heap, ptr, base) && freep in heap.free
    }

    /** The process image before the first malloc. */
    constructor (b: nat, top: nat)
      requires 0 < b < top <= TOP
      ensures Valid() && heap.live == {} && heap.own == map[]
    {
      base := b;
      ptr, size := seq(top, i => 0), seq(top, i => 0);
      freep := 0;
      heap := Heap(seq(top, i => 0), map[], {}, {});
    }

    /** free's search for the place of bp. */
    method FindPlace(bp: nat) returns (p: nat)
      requires Valid() && bp in heap.live
      ensures Between(ptr, heap.free, p, bp)
    {
      ghost var free := heap.free;
      p := freep;
      assert Follows(ptr, free, base, p);
      while !(bp > p && bp < ptr[p])
        invariant p in free && Follows(ptr, free, base, p)
        decreases if p > bp then 1 else 0, |ptr| - p
      {
        if p >= ptr[p] && (bp > p || bp < ptr[p]) {
          break;
        }
        p := ptr[p];
        assert Follows(ptr, free, base, p);
      }
    }

    /** The rest of free: bp goes in after p and merges with the neighbours it touches. */
    method Link(p: nat, bp: nat, ghost size': seq<nat>, ghost ptr': seq<nat>)
      requires p < |ptr| && Relinked(size, ptr, p, bp, ptr[p], size', ptr')
      modifies this`ptr, this`size, this`freep
      ensures size == size' && ptr == ptr' && freep == p
    {
      if bp + size[bp] == ptr[p] {
        size := size[bp := size[bp] + size[ptr[p]]];
        ptr := ptr[bp := ptr[ptr[p]]];
      } else {
        ptr := ptr[bp := ptr[p]];
      }
      if p + size[p] == bp {
        size := size[p := size[p] + size[bp]];
        ptr := ptr[p := ptr[bp]];
      } else {
        ptr := ptr[p := bp];
      }
      freep := p;
    }

    method Free(ap: nat)
      requires Valid() && ap > 0 && ap - 1 in heap.live
      modifies this
      ensures Valid() && freep > 0
      ensures FreeDone(old(heap), old(ptr), heap, ptr, freep, ap - 1)
    {
      var p := FindPlace(ap - 1);
      ghost var next := ptr[p];
      assert Follows(ptr, heap.free, base, p);
      ghost var g, ptr' := FreeMeans(heap, ptr, base, p, ap - 1, next);
      Link(p, ap - 1, g.size, ptr');
      heap := g;
    }

    /** sbrk's answer is `grant`, in units: memory above all that the process has. */
    method Morecore(units: nat, grant: Option<nat>) returns (r: Outcome)
      requires Valid() && freep != 0 && units >= 1
      requires grant.Some? && SbrkArg(Asked(units)) > 0 ==> |ptr| <= grant.value && grant.value + Asked(units) <= TOP
      modifies this
      ensures r.Block? ==> Valid() && r.ap == freep != 0 && grant.Some?
                           && CoreDone(old(heap), old(ptr), heap, ptr, freep, Range(grant.value, Asked(units)), Asked(units))
      ensures !r.Block? ==> Valid() && heap == old(heap) && ptr == old(ptr) && freep == old(freep)
      ensures r.Null? <==> grant.None?
      ensures r.Wild? <==> grant.Some? && SbrkArg(Asked(units)) <= 0
    {
      var nu := if units < 4096 then 4096 else units;
      if grant.None? { return Null; }
      if SbrkArg(nu) <= 0 { return Wild; }
      ghost var h, q := heap, ptr;
      var at := grant.value;
      Extend(at, nu, Range(at, nu));
      ghost var g, q1 := heap, ptr;
      Free(at + 1);
      CoreMeans(h, q, g, q1, heap, ptr, freep, at, Range(at, nu), nu);
      r := Block(freep);
    }

    /** The memory that sbrk has added, with morecore's header at its front. */
    method Extend(at: nat, nu: nat, ghost region: set<nat>)
      requires Valid() && freep != 0 && |ptr| <= at && 1 <= nu && at + nu <= TOP
      requires forall u :: u in region <==> at <= u < at + nu
      modifies this`ptr, this`size, this`heap
      ensures Valid()
      ensures heap.live == old(heap).live + {at} && at !in old(heap).live && heap.own.Keys == old(heap).own.Keys + region
      ensures at < |heap.size| && heap.size[at] == nu && Untouched(old(heap), old(ptr), heap, ptr, old(heap).live)
    {
      ghost var q := ptr;
      ptr := ptr + seq(at + nu - |ptr|, i => 0);
      size := (size + seq(at + nu - |size|, i => 0))[at := nu];
      heap := GrownInv(heap, q, base, size, ptr, at, nu, region);
    }

    /** malloc with a block of exactly the right size in hand, */
    method CarveAll(prevp: nat, p: nat)
      requires Valid() && freep != 0 && prevp in heap.free && ptr[prevp] == p && p != base
      modifies this`ptr, this`freep, this`heap
      ensures Valid() && freep != 0 && p < |size| && GiveDone(old(heap), old(ptr), heap, ptr, p, size[p])
    {
      ghost var g := TakeMeans(heap, ptr, base, prevp, p);
      ptr := ptr[prevp := ptr[p]];
      heap := g;
      freep := prevp;
    }

    /** and with a larger one, whose tail it gives out. */
    method CarveTail(prevp: nat, p: nat, n: nat) returns (q: nat)
      requires Valid() && freep != 0 && prevp in heap.free && p in heap.free && p != base && 1 <= n < size[p]
      modifies this`size, this`freep, this`heap
      ensures Valid() && freep != 0 && GiveDone(old(heap), old(ptr), heap, ptr, q, n)
    {
      ghost var g := SplitMeans(heap, ptr, base, p, p + size[p] - n, n);
      size := size[p := size[p] - n];
      q := p + size[p];
      size := size[q := n];
      heap := g;
      freep := prevp;
    }

    method Carve(prevp: nat, p: nat, n: nat) returns (q: nat)
      requires Valid() && freep != 0 && prevp in heap.free && p in heap.free && ptr[prevp] == p && 1 <= n <= size[p]
      modifies this
      ensures Valid() && freep != 0 && GiveDone(old(heap), old(ptr), heap, ptr, q, n)
    {
      if size[p] == n {
        CarveAll(prevp, p);
        q := p;
      } else {
        q := CarveTail(prevp, p, n);
      }
    }

    /** malloc's walk from freep: to the first block of n units or more, or round to freep. */
    method FindFit(n: nat) returns (prevp: nat, p: nat)
      requires Valid() && freep != 0
      ensures prevp in heap.free && p in heap.free && ptr[prevp] == p
      ensures size[p] >= n || (p == freep && NoneFits(heap, n))
    {
      prevp := freep;
      SearchStart(heap, ptr, base, freep, n);
      p := ptr[prevp];
      while size[p] < n && p != freep
        invariant prevp in heap.free && p in heap.free && ptr[prevp] == p
        invariant NonePassedFits(heap, freep, p, n)
        decreases if p > freep then 1 else 0, |ptr| - p
      {
        SearchStep(heap, ptr, base, freep, p);
        prevp := p;
        p := ptr[p];
      }
    }

    /** The first call makes base a list of itself. */
    method Setup()
      requires Valid()
      modifies this
      ensures Valid() && freep != 0 && heap.own == old(heap).own && heap.live == old(heap).live && |ptr| == old(|ptr|)
      ensures Untouched(old(heap), old(ptr), heap, ptr, heap.live)
      ensures forall a :: a in heap.free && a < |size| && size[a] > 0 ==> a in old(heap).free && old(heap).size[a] == size[a]
      ensures old(heap).free <= heap.free && forall a :: a in old(heap).free && a < |old(heap).size| ==> size[a] == old(heap).size[a]
    {
      if freep == 0 {
        ptr := ptr[base := base];
        freep := base;
        size := size[base := 0];
        heap := Heap(size, map[], {base}, {});
        assert Follows(ptr, heap.free, base, base);
      }
    }

    method Malloc(nbytes: nat, grant: Option<nat>) returns (r: Outcome, ghost obtained: set<nat>)
      requires Valid() && nbytes < WORD
      requires grant.Some? && SbrkArg(Asked(Units(nbytes))) > 0
               ==> |ptr| <= grant.value && grant.value + Asked(Units(nbytes)) <= TOP
      modifies this
      ensures Valid()
      ensures r.Wild? ==> grant.Some? && NoneFits(old(heap), Units(nbytes)) && LARGEST < nbytes <= WORD - HEADER
      ensures r.Null? ==> grant.None? && NoneFits(old(heap), Units(nbytes))
      ensures !r.Block? ==> heap.own.Keys == old(heap).own.Keys && heap.live == old(heap).live && Untouched(old(heap), old(ptr), heap, ptr, heap.live)
      ensures r.Block? ==> r.ap > 0 && !(LARGEST < nbytes <= WORD - HEADER)
      ensures r.Block? ==> MallocDone(old(heap), old(ptr), heap, ptr, r.ap - 1, Units(nbytes), obtained)
      ensures obtained == {} || (grant.Some? && NoneFits(old(heap), Units(nbytes)) && obtained == Range(grant.value, Asked(Units(nbytes))))
    {
      GrowthAsked(nbytes);
      ghost var h0, ptr0 := heap, ptr;
      Setup();
      r, obtained := Allocate(Units(nbytes), grant, h0, ptr0);
      if r.Block? { NotHuge(heap, ptr, base, r.ap - 1, nbytes); }
    }

    method Grow(n: nat, grant: Option<nat>, ghost h0: Heap, ghost ptr0: seq<nat>) returns (r: Outcome)
      requires Valid() && freep != 0 && n >= 1 && Since(h0, ptr0, heap, ptr, {}, false) && NoneFits(heap, n)
      requires grant.Some? && SbrkArg(Asked(n)) > 0 ==> |ptr| <= grant.value && grant.value + Asked(n) <= TOP
      modifies this
      ensures Valid() && freep != 0 && NoneFits(h0, n)
      ensures r.Block? ==> grant.Some? && Since(h0, ptr0, heap, ptr, Range(grant.value, Asked(n)), true) && !NoneFits(heap, n)
      ensures !r.Block? ==> Since(h0, ptr0, heap, ptr, {}, false)
      ensures r.Null? <==> grant.None?
      ensures r.Wild? <==> grant.Some? && SbrkArg(Asked(n)) <= 0
    {
      ghost var h, q := heap, ptr;
      r := Morecore(n, grant);
      if r.Block? { SinceCore(h0, ptr0, h, q, heap, ptr, freep, Range(grant.value, Asked(n)), Asked(n)); }
    }

    method Give(prevp: nat, p: nat, n: nat, ghost h0: Heap, ghost ptr0: seq<nat>, ghost obtained: set<nat>, ghost grown: bool)
      returns (q: nat)
      requires Valid() && freep != 0 && prevp in heap.free && p in heap.free && ptr[prevp] == p && 1 <= n <= size[p]
      requires Since(h0, ptr0, heap, ptr, obtained, grown)
      modifies this
      ensures Valid() && freep != 0 && MallocDone(h0, ptr0, heap, ptr, q, n, obtained)
    {
      ghost var g, ptr1 := heap, ptr;
      q := Carve(prevp, p, n);
      GiveMeans(h0, ptr0, g, ptr1, heap, ptr, q, n, obtained);
    }

    /** malloc's loop: walk, and when nothing fits ask for more and walk on. */
    method Allocate(n: nat, grant: Option<nat>, ghost h0: Heap, ghost ptr0: seq<nat>) returns (r: Outcome, ghost obtained: set<nat>)
      requires Valid() && freep != 0 && n >= 1 && Since(h0, ptr0, heap, ptr, {}, false)
      requires grant.Some? && SbrkArg(Asked(n)) > 0 ==> |ptr| <= grant.value && grant.value + Asked(n) <= TOP
      modifies this
      ensures Valid() && freep != 0
      ensures r.Wild? ==> grant.Some? && NoneFits(h0, n) && SbrkArg(Asked(n)) <= 0
      ensures r.Null? ==> grant.None? && NoneFits(h0, n)
      ensures !r.Block? ==> Since(h0, ptr0, heap, ptr, {}, false)
      ensures r.Block? ==> r.ap > 0 && MallocDone(h0, ptr0, heap, ptr, r.ap - 1, n, obtained)
      ensures obtained == {} || (grant.Some? && NoneFits(h0, n) && obtained == Range(grant.value, Asked(n)))
    {
      obtained := {};
      ghost var grown := false;
      var prevp, p := FindFit(n);
      while size[p] < n
        invariant Valid() && freep != 0 && prevp in heap.free && p in heap.free && ptr[prevp] == p
        invariant Since(h0, ptr0, heap, ptr, obtained, grown)
        invariant if grown then size[p] >= n && grant.Some? && NoneFits(h0, n) && obtained == Range(grant.value, Asked(n))
                  else obtained == {} && |ptr| == old(|ptr|) && (size[p] >= n || NoneFits(heap, n))
        decreases size[p] < n
      {
        r := Grow(n, grant, h0, ptr0);
        if !r.Block? { return r, {}; }
        obtained, grown := Range(grant.value, Asked(n)), true;
        prevp, p := FindFit(n);
      }
      p := Give(prevp, p, n, h0, ptr0, obtained, grown);
      r := Block(p + 1);
    }

    /** The program stores into a block it was given. */
    method Store(u: nat, x: nat, y: nat)
      requires Valid() && u in heap.own && heap.own[u] in heap.live && u != heap.own[u]
      modifies this`ptr, this`size, this`heap
      ensures Valid() && heap == old(heap).(size := size)
    {
      PayloadIsFree(heap, ptr, base, u, x, y);
      ptr := ptr[u := x];
      size := size[u := y];
      heap := heap.(size := size);
    }
  }
}
