/** The heap of xv6-l/umalloc.c as a set of blocks. Addresses and sizes count in headers of 8 bytes. */
module AllocatorModel {
  import opened Common

  const HEADER: nat := 8
  const WORD: nat := 0x1_0000_0000
  const INT_MAX: nat := 0x7FFF_FFFF
  /** User memory ends at KERNBASE, 2^31 bytes. */
  const TOP: nat := 0x1000_0000

  /** (nbytes + sizeof(Header) - 1) / sizeof(Header) + 1, in 32 bits. */
  function Units(nbytes: nat): nat {
    (nbytes + HEADER - 1) % WORD / HEADER + 1
  }

  /** The units that morecore asks for. */
  function Asked(units: nat): (r: nat)
    ensures r >= units && r >= 4096 && (r == units || r == 4096)
  {
    if units < 4096 then 4096 else units
  }

  /** The argument of sbrk, a signed int: nu * sizeof(Header), in 32 bits. */
  function SbrkArg(nu: nat): int {
    var b := nu * HEADER % WORD;
    if b <= INT_MAX then b else b - WORD
  }

  /** Up to here malloc works: the block is large enough and sbrk is asked to grow. */
  const LARGEST: nat := 0x7FFF_FFF0

  /** The block holds the request if and only if the rounding up did not wrap. */
  lemma EnoughSpace(nbytes: nat)
    requires nbytes < WORD
    ensures (Units(nbytes) - 1) * HEADER >= nbytes <==> nbytes <= WORD - HEADER
    ensures nbytes <= WORD - HEADER ==> (Units(nbytes) - 1) * HEADER < nbytes + HEADER
  {
  }

  /** Between 2 GB and the wrap, sbrk is asked to shrink or for nothing at all. */
  lemma GrowthAsked(nbytes: nat)
    requires nbytes < WORD
    ensures SbrkArg(Asked(Units(nbytes))) > 0 <==> nbytes <= LARGEST || nbytes > WORD - HEADER
    ensures SbrkArg(Asked(Units(nbytes))) > 0 ==> SbrkArg(Asked(Units(nbytes))) == Asked(Units(nbytes)) * HEADER
    ensures LARGEST < nbytes <= WORD - HEADER ==> Units(nbytes) >= TOP
  {
  }

  /** 4 GB less a byte becomes a block without payload; 2 GB makes sbrk shrink. */
  lemma TooMuch()
    ensures Units(0xFFFF_FFFF) == 1
    ensures SbrkArg(Asked(Units(0x8000_0000))) < 0
  {
  }

  // ---------------------------------------------------------------- the ring

  /** ptr[a] is the next free block up, or base from the highest one. */
  ghost predicate Follows(ptr: seq<nat>, free: set<nat>, base: nat, a: nat) {
    && base <= a < |ptr| && ptr[a] in free
    && if a < ptr[a] then forall b :: b in free ==> b <= a || ptr[a] <= b
       else ptr[a] == base && forall b :: b in free ==> b <= a
  }

  /** The free list is one cycle in the order of addresses, starting at base. */
  ghost predicate Ring(ptr: seq<nat>, free: set<nat>, base: nat) {
    && base in free && (forall a :: a in free ==> base <= a < |ptr|)
    && forall a {:trigger Follows(ptr, free, base, a)} :: a in free ==> Follows(ptr, free, base, a)
  }

  /** p is the free block that bp comes after. */
  ghost predicate Between(ptr: seq<nat>, free: set<nat>, p: nat, bp: nat) {
    p in free && p < |ptr| && p < bp && (bp < ptr[p] || ptr[p] <= p)
  }

  lemma RingInsert(ptr: seq<nat>, free: set<nat>, base: nat, p: nat, bp: nat)
    requires Ring(ptr, free, base) && Between(ptr, free, p, bp) && bp < |ptr| && bp !in free
    ensures Ring(ptr[bp := ptr[p]][p := bp], free + {bp}, base)
  {
    var f', n := free + {bp}, ptr[bp := ptr[p]][p := bp];
    assert Follows(ptr, free, base, p);
    forall a | a in f' ensures Follows(n, f', base, a) {
      if a != bp { assert Follows(ptr, free, base, a); }
    }
  }

  /** Taking the block after p out of the list. */
  lemma RingRemove(ptr: seq<nat>, free: set<nat>, base: nat, p: nat, b: nat)
    requires Ring(ptr, free, base) && p in free && b == ptr[p] && b != base
    ensures b in free && p != b && Ring(ptr[p := ptr[b]], free - {b}, base)
  {
    assert Follows(ptr, free, base, p) && Follows(ptr, free, base, b);
    var n := ptr[p := ptr[b]];
    forall a | a in free - {b} ensures Follows(n, free - {b}, base, a) {
      assert Follows(ptr, free, base, a);
    }
  }

  /** What next holds outside the list does not matter. */
  lemma RingSame(ptr: seq<nat>, ptr': seq<nat>, free: set<nat>, base: nat)
    requires Ring(ptr, free, base) && |ptr'| >= |ptr| && forall a :: a in free && a < |ptr| ==> ptr'[a] == ptr[a]
    ensures Ring(ptr', free, base)
  {
    forall a | a in free ensures Follows(ptr', free, base, a) {
      assert Follows(ptr, free, base, a);
    }
  }

  ghost function Walk(ptr: seq<nat>, free: set<nat>, base: nat, k: nat): (r: nat)
    requires Ring(ptr, free, base)
    ensures r in free
  {
    if k == 0 then base
    else
      assert Follows(ptr, free, base, Walk(ptr, free, base, k - 1));
      ptr[Walk(ptr, free, base, k - 1)]
  }

  ghost function UpTo(free: set<nat>, a: nat): set<nat> {
    set b | b in free && b <= a
  }

  lemma {:induction false} WalkAscends(ptr: seq<nat>, free: set<nat>, base: nat, k: nat)
    requires Ring(ptr, free, base) && k < |free|
    ensures |UpTo(free, Walk(ptr, free, base, k))| == k + 1
  {
    var a := Walk(ptr, free, base, k);
    if k == 0 {
      assert UpTo(free, base) == {base};
    } else {
      WalkAscends(ptr, free, base, k - 1);
      var z := Walk(ptr, free, base, k - 1);
      assert Follows(ptr, free, base, z);
      assert UpTo(free, z) != free;
      assert UpTo(free, a) == UpTo(free, z) + {a};
    }
  }

  /** Following ptr from base ascends, */
  lemma CycleAscends(ptr: seq<nat>, free: set<nat>, base: nat, j: nat, k: nat)
    requires Ring(ptr, free, base) && j < k < |free|
    ensures Walk(ptr, free, base, j) < Walk(ptr, free, base, k)
  {
    WalkAscends(ptr, free, base, j);
    WalkAscends(ptr, free, base, k);
    UpToOrder(free, Walk(ptr, free, base, k), Walk(ptr, free, base, j));
  }

  /** comes back to base after one step for every free block, */
  lemma CycleCloses(ptr: seq<nat>, free: set<nat>, base: nat)
    requires Ring(ptr, free, base)
    ensures Walk(ptr, free, base, |free|) == base
  {
    var n := |free|;
    assert n > 0;
    WalkAscends(ptr, free, base, n - 1);
    var z := Walk(ptr, free, base, n - 1);
    SubsetFull(UpTo(free, z), free);
    assert Follows(ptr, free, base, z);
    assert ptr[z] in UpTo(free, z);
  }

  lemma UpToOrder(free: set<nat>, a: nat, b: nat)
    requires |UpTo(free, a)| > |UpTo(free, b)|
    ensures a > b
  {
    if a <= b { SubsetSize(UpTo(free, a), UpTo(free, b)); }
  }

  lemma SubsetFull(s: set<nat>, t: set<nat>)
    requires s <= t && |s| == |t|
    ensures s == t
  {
    if x :| x in t && x !in s {
      SubsetSize(s, t - {x});
    }
  }

  /** and visits every free block on the way. */
  lemma Visit(ptr: seq<nat>, free: set<nat>, base: nat, a: nat) returns (k: nat)
    requires Ring(ptr, free, base) && a in free
    ensures k < |free| && Walk(ptr, free, base, k) == a
  {
    k := 0;
    while Walk(ptr, free, base, k) != a
      invariant k < |free| && Walk(ptr, free, base, k) <= a
      decreases |free| - k
    {
      var z := Walk(ptr, free, base, k);
      assert Follows(ptr, free, base, z);
      WalkAscends(ptr, free, base, k);
      assert a !in UpTo(free, z);
      SubsetSize(UpTo(free, z) + {a}, free);
      k := k + 1;
    }
  }

  // ---------------------------------------------------------------- the blocks

  /** The heap: own maps each unit obtained from sbrk to the block it lies in. */
  datatype Heap = Heap(size: seq<nat>, own: map<nat, nat>, free: set<nat>, live: set<nat>)

  ghost predicate IsBlock(h: Heap, base: nat, a: nat) {
    (a in h.free && a != base) || a in h.live
  }

  ghost predicate Holds(h: Heap, a: nat) {
    && a < |h.size| && h.size[a] >= 1 && a + h.size[a] <= |h.size|
    && forall u :: a <= u < a + h.size[a] ==> u in h.own && h.own[u] == a
  }

  ghost predicate Lies(h: Heap, base: nat, u: nat)
    requires u in h.own
  {
    IsBlock(h, base, h.own[u]) && h.own[u] < |h.size| && h.own[u] <= u < h.own[u] + h.size[h.own[u]]
  }

  /** Every unit obtained lies in exactly one block, and every block is made of units obtained. */
  ghost predicate Tiled(h: Heap, base: nat) {
    && h.free !! h.live && base !in h.live && base < |h.size| && h.size[base] == 0
    && (forall a :: (a in h.free && a != base) || a in h.live ==> base < a < |h.size|)
    && (forall a {:trigger Holds(h, a)} :: IsBlock(h, base, a) ==> Holds(h, a))
    && (forall u {:trigger Lies(h, base, u)} :: u in h.own ==> Lies(h, base, u))
  }

  ghost predicate Lone(h: Heap, a: nat) {
    a < |h.size| ==> a + h.size[a] !in h.free
  }

  /** No free block ends where another begins. */
  ghost predicate Apart(h: Heap, base: nat) {
    forall a {:trigger Lone(h, a)} :: a in h.free && a != base ==> Lone(h, a)
  }

  /** Two blocks never overlap. */
  lemma Disjoint(h: Heap, base: nat, a: nat, b: nat)
    requires Tiled(h, base) && IsBlock(h, base, a) && IsBlock(h, base, b) && a < b
    ensures a + h.size[a] <= b
  {
    assert Holds(h, a) && Holds(h, b) && h.own[b] == b;
  }

  ghost function Sum(size: seq<nat>, s: set<nat>): nat
    requires forall a :: a in s ==> a < |size|
  {
    if s == {} then 0 else var a :| a in s; size[a] + Sum(size, s - {a})
  }

  function Range(a: nat, n: nat): (r: set<nat>)
    ensures forall u :: u in r <==> a <= u < a + n
    ensures |r| == n
  {
    if n == 0 then {} else Range(a, n - 1) + {a + n - 1}
  }

  ghost function OwnedBy(h: Heap, s: set<nat>): set<nat> {
    set u | u in h.own && h.own[u] in s
  }

  lemma OwnedMore(h: Heap, base: nat, s: set<nat>, a: nat, range: set<nat>)
    requires Tiled(h, base) && a in s && IsBlock(h, base, a) && forall u :: u in range <==> a <= u < a + h.size[a]
    ensures OwnedBy(h, s) == OwnedBy(h, s - {a}) + range
    ensures OwnedBy(h, s - {a}) !! range
  {
    var l, r := OwnedBy(h, s), OwnedBy(h, s - {a});
    assert Holds(h, a);
    forall u | u in h.own ensures h.own[u] == a ==> u in range {
      assert Lies(h, base, u);
    }
  }

  lemma {:induction false} SumIsUnits(h: Heap, base: nat, s: set<nat>)
    requires Tiled(h, base) && s <= (h.free - {base}) + h.live
    ensures Sum(h.size, s) == |OwnedBy(h, s)|
  {
    if s == {} {
      assert OwnedBy(h, s) == {};
    } else {
      var a :| a in s && Sum(h.size, s) == h.size[a] + Sum(h.size, s - {a});
      SumIsUnits(h, base, s - {a});
      OwnedMore(h, base, s, a, Range(a, h.size[a]));
    }
  }

  /** Conservation: the free units and the live units together are the units obtained from sbrk. */
  lemma Conservation(h: Heap, base: nat)
    requires Tiled(h, base)
    ensures Sum(h.size, h.free - {base}) + Sum(h.size, h.live) == |h.own|
  {
    SumIsUnits(h, base, h.free - {base});
    SumIsUnits(h, base, h.live);
    var f, l := OwnedBy(h, h.free - {base}), OwnedBy(h, h.live);
    forall u | u in h.own ensures u in f + l && !(u in f && u in l) {
      assert Lies(h, base, u);
    }
    assert f + l == h.own.Keys && f !! l;
  }

  // ---------------------------------------------------------------- steps

  function Release(h: Heap, bp: nat): Heap {
    h.(free := h.free + {bp}, live := h.live - {bp})
  }

  lemma ReleaseTiled(h: Heap, base: nat, bp: nat)
    requires Tiled(h, base) && bp in h.live
    ensures Tiled(Release(h, bp), base)
  {
    var g := Release(h, bp);
    forall a | IsBlock(g, base, a) ensures Holds(g, a) {
      assert IsBlock(h, base, a) && Holds(h, a);
    }
    forall u | u in g.own ensures Lies(g, base, u) {
      assert Lies(h, base, u);
    }
  }

  /** Free blocks a and b, touching, become one. */
  ghost function Merge(h: Heap, a: nat, b: nat): Heap
    requires a < |h.size| && b < |h.size|
  {
    h.(size := h.size[a := h.size[a] + h.size[b]], free := h.free - {b},
       own := map u | u in h.own :: if h.own[u] == b then a else h.own[u])
  }

  lemma MergeTiled(h: Heap, base: nat, a: nat, b: nat)
    requires Tiled(h, base) && a in h.free && b in h.free && a != base && b != base && b == a + h.size[a]
    ensures Tiled(Merge(h, a, b), base)
  {
    var g := Merge(h, a, b);
    assert Holds(h, a) && Holds(h, b) && h.own[b] == b;
    forall x | IsBlock(g, base, x) ensures Holds(g, x) {
      assert IsBlock(h, base, x) && Holds(h, x);
    }
    forall u | u in g.own ensures Lies(g, base, u) {
      assert Lies(h, base, u);
    }
  }

  /** The tail of free block p becomes a live block of n units. */
  ghost function Split(h: Heap, p: nat, q: nat, n: nat): Heap
    requires p < |h.size| && q < |h.size| && h.size[p] >= n
  {
    h.(size := h.size[p := h.size[p] - n][q := n], live := h.live + {q},
       own := map u | u in h.own :: if q <= u < q + n then q else h.own[u])
  }

  lemma SplitTiled(h: Heap, base: nat, p: nat, q: nat, n: nat)
    requires Tiled(h, base) && p in h.free && p != base && 1 <= n < h.size[p] && q == p + h.size[p] - n
    ensures q < |h.size| && !IsBlock(h, base, q) && q !in h.free && Tiled(Split(h, p, q, n), base)
  {
    assert Holds(h, p) && h.own[q] == p;
    assert IsBlock(h, base, q) ==> Holds(h, q);
    var g := Split(h, p, q, n);
    forall x | IsBlock(g, base, x) ensures Holds(g, x) {
      if x != q { assert IsBlock(h, base, x) && Holds(h, x); }
    }
    forall u | u in g.own ensures Lies(g, base, u) {
      assert Lies(h, base, u);
    }
  }

  function Take(h: Heap, p: nat): Heap {
    h.(free := h.free - {p}, live := h.live + {p})
  }

  lemma TakeTiled(h: Heap, base: nat, p: nat)
    requires Tiled(h, base) && p in h.free && p != base
    ensures Tiled(Take(h, p), base)
  {
    var g := Take(h, p);
    forall a | IsBlock(g, base, a) ensures Holds(g, a) {
      assert IsBlock(h, base, a) && Holds(h, a);
    }
    forall u | u in g.own ensures Lies(g, base, u) {
      assert Lies(h, base, u);
    }
  }

  /** A region of n units that sbrk has handed out, as one live block. */
  ghost function Grown(h: Heap, size: seq<nat>, at: nat, region: set<nat>): Heap {
    h.(size := size, live := h.live + {at},
       own := map u | u in h.own.Keys + region :: if u in region then at else h.own[u])
  }

  lemma GrownTiled(h: Heap, base: nat, size: seq<nat>, at: nat, n: nat, region: set<nat>)
    requires Tiled(h, base) && base in h.free && |h.size| <= at && n >= 1 && |size| == at + n && size[at] == n
    requires forall a :: 0 <= a < |h.size| ==> size[a] == h.size[a]
    requires forall u :: u in region <==> at <= u < at + n
    ensures Tiled(Grown(h, size, at, region), base)
  {
    var g := Grown(h, size, at, region);
    forall u | u in h.own ensures u < at {
      assert Lies(h, base, u) && Holds(h, h.own[u]);
    }
    forall x | IsBlock(g, base, x) ensures Holds(g, x) {
      if x != at { assert IsBlock(h, base, x) && Holds(h, x); }
    }
    forall u | u in g.own ensures Lies(g, base, u) {
      if u in h.own { assert Lies(h, base, u); }
    }
  }

  // ---------------------------------------------------------------- free and malloc

  ghost predicate HeapInv(h: Heap, ptr: seq<nat>, base: nat) {
    Tiled(h, base) && Apart(h, base) && Ring(ptr, h.free, base) && |ptr| == |h.size| <= TOP
  }

  /** Where the block being freed belongs: what lies between its neighbours in the list. */
  lemma Neighbours(h: Heap, ptr: seq<nat>, base: nat, p: nat, bp: nat)
    requires HeapInv(h, ptr, base) && Between(ptr, h.free, p, bp) && bp in h.live
    ensures forall a :: a in h.free ==> a <= p || (a >= bp + h.size[bp] && a >= ptr[p] > bp)
    ensures forall a :: a in h.free && a < p ==> a + h.size[a] < p
    ensures p + h.size[p] <= bp
  {
    assert Follows(ptr, h.free, base, p);
    forall a | a in h.free && a != base && a > bp ensures a >= bp + h.size[bp] {
      Disjoint(h, base, bp, a);
    }
    forall a | a in h.free && a < p ensures a + h.size[a] < p {
      if a != base {
        Disjoint(h, base, a, p);
        assert Lone(h, a);
      }
    }
    if p != base { Disjoint(h, base, p, bp); }
  }

  /** The heap once bp is free and merged with the block after it, if they touch. */
  ghost function FreedUp(h: Heap, p: nat, bp: nat, next: nat): Heap
    requires bp < |h.size| && next < |h.size|
  {
    if bp + h.size[bp] == next then Merge(Release(h, bp), bp, next) else Release(h, bp)
  }

  function LinkUp(ptr: seq<nat>, up: bool, p: nat, bp: nat, next: nat): seq<nat>
    requires p < |ptr| && bp < |ptr| && next < |ptr|
  {
    ptr[bp := if up then ptr[next] else next][p := bp]
  }

  lemma UpTiled(h: Heap, ptr: seq<nat>, base: nat, p: nat, bp: nat, next: nat)
    requires HeapInv(h, ptr, base) && Between(ptr, h.free, p, bp) && bp in h.live && next == ptr[p]
    ensures next in h.free && next < |ptr| && Tiled(FreedUp(h, p, bp, next), base)
    ensures Ring(LinkUp(ptr, bp + h.size[bp] == next, p, bp, next), FreedUp(h, p, bp, next).free, base)
  {
    assert Follows(ptr, h.free, base, p);
    ReleaseTiled(h, base, bp);
    RingInsert(ptr, h.free, base, p, bp);
    if bp + h.size[bp] == next {
      MergeTiled(Release(h, bp), base, bp, next);
      var q := ptr[bp := next][p := bp];
      RingRemove(q, h.free + {bp}, base, bp, next);
      assert q[bp := q[next]] == LinkUp(ptr, true, p, bp, next);
    }
  }

  lemma UpApart(h: Heap, ptr: seq<nat>, base: nat, p: nat, bp: nat, next: nat, a: nat)
    requires HeapInv(h, ptr, base) && Between(ptr, h.free, p, bp) && bp in h.live && next == ptr[p] && next in h.free && next < |ptr|
    requires a in FreedUp(h, p, bp, next).free && a != base && a < |h.size|
    ensures var g := FreedUp(h, p, bp, next);
            a + g.size[a] in g.free ==> a == p && p + h.size[p] == bp
  {
    Neighbours(h, ptr, base, p, bp);
    var g := FreedUp(h, p, bp, next);
    if a == bp {
      assert Holds(h, bp);
      if bp + h.size[bp] == next { assert Lone(h, next) && Holds(h, next); }
    } else {
      assert Lone(h, a);
    }
  }

  /** And then merged with the block before it, if they touch. */
  ghost function FreedDown(g: Heap, p: nat, bp: nat): Heap
    requires bp < |g.size| && p < |g.size|
  {
    if p + g.size[p] == bp then Merge(g, p, bp) else g
  }

  function LinkDown(ptr: seq<nat>, down: bool, p: nat, bp: nat): seq<nat>
    requires p < |ptr| && bp < |ptr|
  {
    if down then ptr[p := ptr[bp]] else ptr
  }

  lemma DownInv(g: Heap, ptr: seq<nat>, base: nat, p: nat, bp: nat)
    requires Tiled(g, base) && Ring(ptr, g.free, base) && p in g.free && p < bp && bp in g.free && ptr[p] == bp && |ptr| == |g.size| <= TOP
    requires forall a {:trigger Lone(g, a)} :: a in g.free && a != base && !Lone(g, a) ==> a == p && p + g.size[p] == bp
    ensures HeapInv(FreedDown(g, p, bp), LinkDown(ptr, p + g.size[p] == bp, p, bp), base)
  {
    if p + g.size[p] == bp {
      assert p != base;
      MergeTiled(g, base, p, bp);
      RingRemove(ptr, g.free, base, p, bp);
      var d := Merge(g, p, bp);
      forall a | a in d.free && a != base ensures Lone(d, a) {
        assert Lone(g, bp) && (a != p ==> Lone(g, a));
      }
    }
  }

  /** What free makes of the heap. */
  ghost function Freed(h: Heap, p: nat, bp: nat, next: nat): Heap
    requires bp < |h.size| && next < |h.size| && p < |h.size|
  {
    FreedDown(FreedUp(h, p, bp, next), p, bp)
  }

  lemma FreeInv(h: Heap, ptr: seq<nat>, base: nat, p: nat, bp: nat, next: nat)
    requires HeapInv(h, ptr, base) && Between(ptr, h.free, p, bp) && bp in h.live && next == ptr[p]
    ensures next in h.free && next < |ptr| && p < bp < |ptr|
    ensures HeapInv(Freed(h, p, bp, next), LinkDown(LinkUp(ptr, bp + h.size[bp] == next, p, bp, next), p + h.size[p] == bp, p, bp), base)
  {
    UpTiled(h, ptr, base, p, bp, next);
    var g := FreedUp(h, p, bp, next);
    forall a | a in g.free && a != base && !Lone(g, a) ensures a == p && p + g.size[p] == bp {
      UpApart(h, ptr, base, p, bp, next, a);
    }
    DownInv(g, LinkUp(ptr, bp + h.size[bp] == next, p, bp, next), base, p, bp);
  }

  /** The units that bp held belong to one free block afterwards, and the other live blocks keep theirs. */
  lemma FreeKeeps(h: Heap, ptr: seq<nat>, base: nat, p: nat, bp: nat, next: nat)
    requires HeapInv(h, ptr, base) && Between(ptr, h.free, p, bp) && bp in h.live && next == ptr[p] && next in h.free && next < |ptr|
    ensures var g := Freed(h, p, bp, next);
            && g.live == h.live - {bp} && g.own.Keys == h.own.Keys && p in g.free
            && (forall u :: u in h.own && h.own[u] in g.live ==> g.own[u] == h.own[u])
            && (forall u :: u in h.own && h.own[u] == bp ==> g.own[u] in g.free)
            && (forall a :: a in g.live ==> g.size[a] == h.size[a])
  {
    FreeInv(h, ptr, base, p, bp, next);
  }

  lemma TakeInv(h: Heap, ptr: seq<nat>, base: nat, prev: nat, p: nat)
    requires HeapInv(h, ptr, base) && prev in h.free && ptr[prev] == p && p != base
    ensures p in h.free && prev != p && HeapInv(Take(h, p), ptr[prev := ptr[p]], base)
  {
    RingRemove(ptr, h.free, base, prev, p);
    TakeTiled(h, base, p);
    var g := Take(h, p);
    forall a | a in g.free && a != base ensures Lone(g, a) {
      assert Lone(h, a);
    }
  }

  lemma SplitInv(h: Heap, ptr: seq<nat>, base: nat, p: nat, q: nat, n: nat)
    requires HeapInv(h, ptr, base) && p in h.free && p != base && 1 <= n < h.size[p] && q == p + h.size[p] - n
    ensures q < |h.size| && HeapInv(Split(h, p, q, n), ptr, base)
  {
    SplitTiled(h, base, p, q, n);
    var g := Split(h, p, q, n);
    forall a | a in g.free && a != base ensures Lone(g, a) {
      assert Lone(h, a);
    }
  }
}
