/** kalloc.c and vm.c of xv6-o, on physical memory. The free list is a sequence of frames;
    in the source its links lie in the free frames themselves. */
module Vm {
  import opened Common
  import opened Bytes
  import opened VmModel

  const JUNK: uint := 0x0101_0101
  /** How many pages sz bytes take: PGROUNDUP(sz) / PGSIZE. */
  function Pages(sz: nat): (r: nat)
    ensures PGSIZE * r >= sz && (r > 0 ==> PGSIZE * (r - 1) < sz)
  {
    (sz + PGSIZE - 1) / PGSIZE
  }

  /** What mappages does with one page. Remap is the panic. */
  datatype Mapping = Mapped | NoFrame | Remap

  /** The result of allocuvm, or its panic. */
  datatype Growth = Remapped | Size(bytes: nat)

  /** The result of copyuvm: its panics, 0, or the new directory. */
  datatype Copy = PageMissing | NoMemory | Copied(dir: nat)

  class Machine {
    const data: DataPage     // the page where the kernel's data begin
    var mem: Mem
    var free: seq<nat>
    ghost var own: Roles
    ghost var dirs: set<nat>       // the directories that setupkvm has completed

    /** In every address space the kernel's half is as kmap says, whatever is done to user memory. */
    ghost predicate Valid()
      reads this
    {
      Inv(mem, free, own) && Kernels(mem, own, dirs, data)
    }

    /** What that means for one of them. */
    lemma KernelEverywhere(d: nat)
      requires Valid() && d in dirs
      ensures d in own && own[d] == Dir && HasKmap(mem, d, data)
    {
      assert KernelOk(mem, own, d, data);
      KernelOkMeans(mem, own, d, data);
    }

    /** kinit: frames first to last - 1 go on the free list (freerange). */
    constructor (memory: Mem, first: nat, last: nat, dataPage: DataPage)
      requires 0 < first <= last <= |memory| <= 0x10_0000
      ensures Valid() && |mem| == |memory| && forall f :: f in own <==> first <= f < last
      ensures dirs == {} && forall f :: f in own ==> own[f] == Free
    {
      data := dataPage;
      mem, free, own, dirs := memory, [], map[], {};
      new;
      for p := first to last
        invariant Valid() && dirs == {} && |mem| == |memory| && (forall f :: f in own <==> first <= f < p) && forall f :: f in own ==> own[f] == Free
      {
        AddInv(mem, free, own, p);
        own := own[p := Taken];
        Kfree(p);
      }
    }

    /** kfree, as it stands: the frame is filled with junk and put at the head of the list. */
    method Push(f: nat)
      requires f < |mem|
      modifies this`mem, this`free
      ensures mem == old(mem)[f := Fill(NENTRIES, JUNK)] && free == [f] + old(free)
    {
      mem := mem[f := Fill(NENTRIES, JUNK)];
      free := [f] + free;
    }

    method Kfree(f: nat)
      requires Valid() && f in own && own[f] == Taken
      modifies this`mem, this`free, this`own
      ensures Valid() && own == old(own)[f := Free] && mem == old(mem)[f := Fill(NENTRIES, JUNK)] && free == [f] + old(free)
    {
      FillInv(mem, free, own, f, Fill(NENTRIES, JUNK));
      KernelsFill(mem, own, f, Fill(NENTRIES, JUNK), dirs, data);
      Push(f);
      PushInv(mem, old(free), own, f);
      KernelsHand(mem, own, f, Free, dirs, data);
      own := own[f := Free];
    }

    method Kalloc() returns (r: Option<nat>)
      requires Valid()
      modifies this`free, this`own
      ensures Valid() && (r.None? <==> old(free) == [])
      ensures r.None? ==> own == old(own) && free == old(free)
      ensures r.Some? ==> r.value in old(own) && old(own)[r.value] == Free && own == old(own)[r.value := Taken] && free == old(free)[1..]
    {
      if free == [] { return None; }
      PopInv(mem, free, own);
      KernelsHand(mem, own, free[0], Taken, dirs, data);
      r := Some(free[0]);
      own := own[free[0] := Taken];
      free := free[1..];
    }

    /** kalloc and the memset or memmove that fills the page. */
    method NewPage(fr: Frame, ghost d: nat, ghost lo: nat) returns (r: Option<nat>)
      requires Valid()
      modifies this`mem, this`free, this`own
      ensures Valid() && Only(old(mem), old(own), mem, own, d, lo, lo)
      ensures r.None? ==> own == old(own) && mem == old(mem) && free == old(free) == []
      ensures r.Some? ==> r.value in old(own) && old(own)[r.value] == Free && own == old(own)[r.value := Taken] && mem == old(mem)[r.value := fr]
      ensures r.Some? ==> |free| + 1 == |old(free)|
    {
      r := Kalloc();
      if r.None? {
        OnlySame(mem, own, d, lo, lo);
        return;
      }
      FillOnly(mem, old(free), old(own), r.value, fr, Taken, d, lo);
      FillInv(mem, free, own, r.value, fr);
      KernelsFill(mem, own, r.value, fr, dirs, data);
      mem := mem[r.value := fr];
    }

    /** walkpgdir: the page table for page v, made if there is none and alloc says so. */
    method Walkpgdir(d: nat, v: nat, alloc: bool) returns (r: Option<nat>)
      requires Valid() && d in own && own[d] == Dir && v < NUSER
      modifies this`mem, this`free, this`own
      ensures Valid() && Only(old(mem), old(own), mem, own, d, v, v) && Takes(old(own), own, d, v, v)
      ensures r.Some? ==> TableFor(mem, own, d, v, r.value)
      ensures r.None? ==> mem == old(mem) && own == old(own) && free == old(free) && !Present(mem[d][Pdx(v)]) && (alloc ==> free == [])
      ensures !alloc ==> mem == old(mem) && own == old(own) && free == old(free)
      ensures r.Some? && alloc ==> Tables(mem, d) == old(Tables(mem, d)) + {Pdx(v)} && |free| + old(Cost(Tables(mem, d), v)) == |old(free)| + 1
      ensures r.Some? <==> Pdx(v) in old(Tables(mem, d)) || (alloc && old(free) != [])
    {
      assert RoleOk(mem, own, d);
      TakesSelf(own, d, v, v);
      if Present(mem[d][Pdx(v)]) {
        TableRole(mem, own, d, Pdx(v));
        assert RoleOk(mem, own, FrameOf(mem[d][Pdx(v)]));
        OnlySame(mem, own, d, v, v);
        assert Tables(mem, d) == Tables(mem, d) + {Pdx(v)};
        return Some(FrameOf(mem[d][Pdx(v)]));
      }
      if !alloc {
        OnlySame(mem, own, d, v, v);
        return None;
      }
      r := NewTable(d, Pdx(v), v);
      if r.Some? {
        TakesOne(old(own), r.value, Table(d, Pdx(v)), d, v, v);
        assert RoleOk(mem, own, d) && RoleOk(mem, own, r.value);
      }
    }

    /** A new page table for entry i of directory d. */
    method NewTable(d: nat, i: nat, ghost v: nat) returns (r: Option<nat>)
      requires Valid() && d in own && own[d] == Dir && i < NENTRIES && !Present(mem[d][i]) && (i < NUSERDIRS || d !in dirs)
      modifies this`mem, this`free, this`own
      ensures Valid() && Only(old(mem), old(own), mem, own, d, v, v) && |mem| == |old(mem)|
      ensures r.None? ==> mem == old(mem) && own == old(own) && free == old(free) == []
      ensures r.Some? ==>
                && r.value in old(own) && old(own)[r.value] == Free && own == old(own)[r.value := Table(d, i)]
                && d < |mem| && Present(mem[d][i]) && FrameOf(mem[d][i]) == r.value && FlagsOf(mem[d][i]) == 7
                && (forall k :: 0 <= k < NENTRIES && k != i ==> mem[d][k] == old(mem)[d][k])
                && (forall f :: 0 <= f < |mem| && f != d && f != r.value ==> mem[f] == old(mem)[f])
      ensures r.Some? ==> Tables(mem, d) == old(Tables(mem, d)) + {i} && |free| + 1 == |old(free)|
    {
      r := NewPage(Fill(NENTRIES, 0), d, v);
      if r.None? { return; }
      var t, e := r.value, Entry(r.value, USER_RW);
      assert RoleOk(mem, own, d);
      PresentMore(mem[d], i, e);
      LinkInv(mem, free, own, d, i, t, e);
      LinkOnly(mem, free, own, d, i, t, e, v);
      KernelsWrite(mem, own, d, i, e, dirs, data);
      KernelsHand(WithEntry(mem, d, i, e), own, t, Table(d, i), dirs, data);
      ghost var m1, o1 := mem, own;
      mem := WithEntry(mem, d, i, e);
      own := own[t := Table(d, i)];
      OnlyThen(old(mem), old(own), m1, o1, mem, own, d, v, v, v, t);
    }

    /** mappages for one page: the entry of page v is set to frame x. A page that is mapped already is the
        panic "remap"; otherwise it fails exactly when the page table is missing and no frame is free for it. */
    method Mappage(d: nat, v: nat, ghost next: nat, x: nat, flags: nat) returns (r: Mapping)
      requires Valid() && d in own && own[d] == Dir && v < NUSER && next == v + 1
      requires x in own && own[x] == Taken && flags < PGSIZE && flags % 2 == 1
      modifies this`mem, this`free, this`own
      ensures r == if old(Lookup(mem, d, v)).Some? then Remap else if |old(free)| + 1 >= old(Cost(Tables(mem, d), v)) then Mapped else NoFrame
      ensures r.NoFrame? ==> Valid() && mem == old(mem) && own == old(own) && free == old(free) == []
      ensures r.Mapped? ==>
                && Valid() && OnlyBut(old(mem), old(own), mem, own, d, v, next, x) && Lookup(mem, d, v) == Some(Entry(x, flags))
                && own[x] == User(d, v) && mem[x] == old(mem)[x] && Takes(old(own), own[x := Taken], d, v, v)
                && Tables(mem, d) == old(Tables(mem, d)) + {Pdx(v)} && |free| + old(Cost(Tables(mem, d), v)) == |old(free)| + 1
    {
      var t := Walkpgdir(d, v, true);
      assert KeepsMap(old(mem), mem, d, v) && KeepsPage(old(mem), old(own), mem, own, x);
      if t.None? { return NoFrame; }
      if Present(mem[t.value][Ptx(v)]) {
        EntryThere(mem, own, d, v, t.value);
        return Remap;
      }
      NoEntry(mem, own, d, v, t.value);
      var e := Entry(x, flags);
      assert CanSet(mem, own, d, v, t.value, e, x, User(d, v));
      SetInv(mem, free, own, d, v, t.value, e, x, User(d, v));
      SetOnly(mem, free, own, d, v, next, t.value, e, x, User(d, v));
      KernelsWrite(mem, own, t.value, Ptx(v), e, dirs, data);
      KernelsHand(WithEntry(mem, t.value, Ptx(v), e), own, x, User(d, v), dirs, data);
      ghost var m1, o1 := mem, own;
      mem := WithEntry(mem, t.value, Ptx(v), e);
      own := own[x := User(d, v)];
      OnlyButAfter(old(mem), old(own), m1, o1, mem, own, d, v, next, x);
      assert own[x := Taken] == o1;
      r := Mapped;
    }

    /** deallocuvm with a page present: kfree, and the entry is cleared. */
    method Unmap(d: nat, v: nat, ghost next: nat, t: nat) returns (ghost x: nat)
      requires Valid() && TableFor(mem, own, d, v, t) && Present(mem[t][Ptx(v)]) && next == v + 1
      modifies this`mem, this`free, this`own
      ensures Valid() && x in old(own) && old(own)[x] == User(d, v) && own == old(own)[x := Free]
      ensures Lookup(mem, d, v) == None && Only(old(mem), old(own), mem, own, d, v, next)
    {
      var f := FrameOf(mem[t][Ptx(v)]);
      x := f;
      assert PteOk(mem, own, t, d, Pdx(v), Ptx(v));
      KernelsFill(mem, own, f, Fill(NENTRIES, JUNK), dirs, data);
      Push(f);
      KernelsWrite(mem, own, t, Ptx(v), 0, dirs, data);
      mem := WithEntry(mem, t, Ptx(v), 0);
      KernelsHand(mem, own, f, Free, dirs, data);
      UnmapInv(old(mem), old(free), old(own), d, v, next, t, f, Fill(NENTRIES, JUNK), mem);
      own := own[f := Free];
    }

    /** deallocuvm. Whole page tables that do not exist are skipped; the outcome is that of going page by
        page. */
    method Deallocuvm(d: nat, oldsz: nat, newsz: nat) returns (r: nat)
      requires Valid() && d in own && own[d] == Dir && oldsz <= KERNBASE
      modifies this`mem, this`free, this`own
      ensures Valid() && r == if newsz >= oldsz then oldsz else newsz
      ensures newsz >= oldsz ==> mem == old(mem) && own == old(own) && free == old(free)
      ensures newsz < oldsz ==> Cleared(old(mem), old(own), mem, own, d, Pages(newsz), Pages(oldsz))
    {
      if newsz >= oldsz { return oldsz; }
      var a := PGSIZE * Pages(newsz);
      ghost var lo, hi := Pages(newsz), Pages(oldsz);
      ghost var q := lo;
      ClearedNone(mem, own, d, lo);
      while a < oldsz
        invariant Valid() && d in own && own[d] == Dir
        invariant lo <= q <= hi <= NUSER && AtPage(a, q, hi)
        invariant Cleared(old(mem), old(own), mem, own, d, lo, q)
        decreases oldsz - a
      {
        AtPageIs(a, q, oldsz, hi);
        ghost var next;
        a, next := DeallocTurn(d, a / PGSIZE, a, lo, hi, old(mem), old(own));
        a := a + PGSIZE;
        q := next;
      }
      AtPageIs(a, q, oldsz, hi);
      r := newsz;
    }

    /** One turn of deallocuvm's loop at page v; after it the pages before next are gone. */
    method DeallocTurn(d: nat, v: nat, a: nat, ghost lo: nat, ghost hi: nat, ghost m0: Mem, ghost o0: Roles) returns (a': nat, ghost next: nat)
      requires Valid() && d in own && own[d] == Dir && a == PGSIZE * v && lo <= v < hi <= NUSER && Cleared(m0, o0, mem, own, d, lo, v)
      modifies this`mem, this`free, this`own
      ensures Valid() && d in own && own[d] == Dir && Cleared(m0, o0, mem, own, d, lo, next)
      ensures v < next <= hi && a <= a' && AtPage(a' + PGSIZE, next, hi)
    {
      var t := Walkpgdir(d, v, false);
      a', next := a, v + 1;
      if t.None? {
        a' := PGSIZE * NENTRIES * (Pdx(v) + 1) - PGSIZE;
        next := SkipTo(mem, d, v, hi, a');
        ClearedMore(m0, o0, mem, free, own, d, lo, v, next);
      } else if Present(mem[t.value][Ptx(v)]) {
        ghost var m1, f1, o1 := mem, free, own;
        ghost var x := Unmap(d, v, next, t.value);
        ClearedPage(m0, o0, m1, f1, o1, mem, d, lo, v, next, x);
      } else {
        NoEntry(mem, own, d, v, t.value);
        ClearedMore(m0, o0, mem, free, own, d, lo, v, next);
      }
    }

    /** kalloc, memset and mappages for one page of a growing process. It fails exactly when the frames for
        the page and for a missing page table are not there, and then hands out a page or nothing. */
    method AllocPage(d: nat, v: nat, ghost next: nat) returns (r: Mapping, x: Option<nat>)
      requires Valid() && d in own && own[d] == Dir && v < NUSER && next == v + 1
      modifies this`mem, this`free, this`own
      ensures r == if old(free) == [] then NoFrame else if old(Lookup(mem, d, v)).Some? then Remap
                   else if |old(free)| >= old(Cost(Tables(mem, d), v)) then Mapped else NoFrame
      ensures r.Mapped? ==> Valid() && d in own && own[d] == Dir && Grown(old(mem), old(own), mem, own, d, v, next)
      ensures r.Mapped? ==> Tables(mem, d) == old(Tables(mem, d)) + {Pdx(v)} && |free| + old(Cost(Tables(mem, d), v)) == |old(free)|
      ensures r.NoFrame? ==> Valid() && d in own && own[d] == Dir && Only(old(mem), old(own), mem, own, d, v, v)
      ensures r.NoFrame? ==> own == if x.Some? then old(own)[x.value := Taken] else old(own)
      ensures r.NoFrame? && x.Some? ==> x.value in old(own) && old(own)[x.value] == Free
    {
      x := NewPage(Fill(NENTRIES, 0), d, v);
      if x.None? { return NoFrame, None; }
      ghost var m1, o1 := mem, own;
      assert KeepsMap(old(mem), mem, d, v);
      r := Mappage(d, v, next, x.value, USER_RW);
      if r.Mapped? {
        OnlyThen(old(mem), old(own), m1, o1, mem, own, d, v, v, next, x.value);
        TakesPage(old(own), own, x.value, d, v, next);
        assert FreshPage(old(own), mem, own, d, v);
      }
    }

    /** allocuvm's way out: what was added goes, and with it the page in hand, and every other page of the
        range too. */
    method Undo(d: nat, oldsz: nat, newsz: nat, v: nat, x: Option<nat>, ghost m0: Mem, ghost f0: seq<nat>, ghost o0: Roles, ghost o1: Roles)
      requires Valid() && d in own && own[d] == Dir && oldsz < newsz < KERNBASE && Pages(oldsz) <= v <= Pages(newsz)
      requires Inv(m0, f0, o0) && Only(m0, o0, mem, own, d, Pages(oldsz), v) && Takes(o0, o1, d, Pages(oldsz), v)
      requires own == if x.Some? then o1[x.value := Taken] else o1
      requires x.Some? ==> x.value in o1 && o1[x.value] == Free
      modifies this`mem, this`free, this`own
      ensures Valid() && Only(m0, o0, mem, own, d, Pages(oldsz), Pages(newsz)) && own == Released(o1, d, Pages(oldsz), Pages(newsz))
      ensures forall w {:trigger Unmapped(mem, d, w)} :: Pages(oldsz) <= w < Pages(newsz) ==> Unmapped(mem, d, w)
    {
      ghost var lo, hi := Pages(oldsz), Pages(newsz);
      ghost var m1, o2 := mem, own;
      var _ := Deallocuvm(d, newsz, oldsz);
      OnlyTrans(m0, o0, m1, o2, mem, own, d, lo, v, hi, lo);
      if x.Some? {
        assert TakenFor(o0, o1, d, lo, v, x.value);
        ghost var m3, o3 := mem, own;
        FreeOnly(mem, free, own, x.value, Fill(NENTRIES, JUNK), d, lo);
        Kfree(x.value);
        OnlyButWider(m3, o3, mem, own, d, lo, hi, x.value);
        OnlyThen(m0, o0, m3, o3, mem, own, d, lo, hi, hi, x.value);
        StillUnmapped(m3, o3, mem, own, d, lo, hi, x.value);
        ReleasedBut(o1, d, lo, hi, x.value);
      }
    }

    /** allocuvm, in the range [PGROUNDUP(oldsz), newsz). Up to the first page of it that is mapped already
        each page takes a frame, and each missing page table one more. With frames enough for that, it adds
        exactly the zeroed fresh pages of the range, or panics at the page that is mapped. With fewer, it
        gives everything back, and every page of the range goes: if none was mapped, every user map is as it
        was, and every frame that was free is free or one of the page tables that were made. */
    method Allocuvm(d: nat, oldsz: nat, newsz: nat) returns (r: Growth)
      requires Valid() && d in own && own[d] == Dir
      modifies this`mem, this`free, this`own
      ensures newsz >= KERNBASE ==> r == Size(0) && unchanged(this)
      ensures newsz < KERNBASE && newsz < oldsz ==> r == Size(oldsz) && unchanged(this)
      ensures oldsz <= newsz < KERNBASE ==>
                var lo, hi := Pages(oldsz), Pages(newsz);
                var m := FirstMapped(old(mem), d, lo, hi);
                var need := Need(old(Tables(mem, d)), lo, m);
                if |old(free)| >= need && m == hi then
                  r == Size(newsz) && Valid() && Grown(old(mem), old(own), mem, own, d, lo, hi) && |free| + need == |old(free)|
                else if |old(free)| > need && m < hi then r == Remapped
                else
                  && r == Size(0) && Valid() && NotGrown(old(mem), old(free), old(own), mem, free, own, d, lo, hi, m)
    {
      if newsz >= KERNBASE { return Size(0); }
      if newsz < oldsz { return Size(oldsz); }
      ghost var lo, hi := Pages(oldsz), Pages(newsz);
      ghost var m := FirstMapped(mem, d, lo, hi);
      var q: nat := Pages(oldsz);
      var a: nat := PGSIZE * q;
      GrowStart(mem, own, |free|, d, lo, m);
      while a < newsz
        invariant Valid() && a == PGSIZE * q && lo <= q <= m && hi <= NUSER
        invariant GrowSoFar(old(mem), old(own), |old(free)|, mem, own, |free|, d, lo, m, q)
      {
        PageBelow(newsz, q, a);
        ghost var next := q + 1;
        var s := AllocTurn(d, oldsz, newsz, q, next, m, old(mem), old(free), old(own));
        if s == Remap { return Remapped; }
        if s == NoFrame { return Size(0); }
        a, q := a + PGSIZE, q + 1;
      }
      PageBelow(newsz, q, a);
      GrowEnd(old(mem), old(own), |old(free)|, mem, own, |free|, d, lo, m);
      return Size(newsz);
    }

    /** One turn of allocuvm's loop, and its way out. */
    method AllocTurn(d: nat, oldsz: nat, newsz: nat, v: nat, ghost next: nat, ghost m: nat, ghost m0: Mem, ghost f0: seq<nat>, ghost o0: Roles) returns (s: Mapping)
      requires Valid() && Inv(m0, f0, o0) && oldsz < newsz < KERNBASE && Pages(oldsz) <= v < Pages(newsz) <= NUSER && next == v + 1 && v <= m
      requires m == FirstMapped(m0, d, Pages(oldsz), Pages(newsz)) && d in o0 && o0[d] == Dir
      requires GrowSoFar(m0, o0, |f0|, mem, own, |free|, d, Pages(oldsz), m, v)
      modifies this`mem, this`free, this`own
      ensures s.Mapped? ==> Valid() && v < m && GrowSoFar(m0, o0, |f0|, mem, own, |free|, d, Pages(oldsz), m, next)
      ensures s.Remap? ==> m < Pages(newsz) && |f0| > Need(Tables(m0, d), Pages(oldsz), m)
      ensures s.NoFrame? ==>
                && Valid() && NotGrown(m0, f0, o0, mem, free, own, d, Pages(oldsz), Pages(newsz), m)
                && |f0| <= Need(Tables(m0, d), Pages(oldsz), m) && (m == Pages(newsz) ==> |f0| < Need(Tables(m0, d), Pages(oldsz), m))
    {
      ghost var lo, hi := Pages(oldsz), Pages(newsz);
      GrowAt(m0, o0, |f0|, mem, own, |free|, d, lo, m, v);
      ghost var m1, f1, o1 := mem, free, own;
      var x;
      s, x := AllocPage(d, v, next);
      if s == Mapped {
        GrowMore(m0, o0, |f0|, m1, f1, o1, mem, own, |free|, d, lo, m, v, next);
      } else if s == NoFrame {
        GrowStuck(m0, o0, |f0|, m1, o1, |f1|, d, lo, m, v);
        OnlyTrans(m0, o0, m1, o1, mem, own, d, lo, v, v, v);
        Undo(d, oldsz, newsz, v, x, m0, f0, o0, o1);
        if m == hi { GiveBack(m0, f0, o0, o1, mem, free, own, d, lo, v, hi); }
      }
    }

    /** freevm: every user page, page table and the directory itself goes back to the free list, each once;
        no other address space notices. */
    method Freevm(d: nat)
      requires Valid() && d in own && own[d] == Dir
      modifies this
      ensures Valid() && own == AllFreed(old(own), d) && OthersKept(old(mem), old(own), mem, own, d) && dirs == old(dirs) - {d}
    {
      dirs := dirs - {d};
      var _ := Deallocuvm(d, KERNBASE, 0);
      assert Pages(0) == 0 && Pages(KERNBASE) == NUSER;
      OnlyIsOthers(old(mem), old(own), mem, own, d, 0, NUSER);
      NoUsersLeft(old(mem), old(free), old(own), d);
      FreeTables(d, old(mem), old(own));
      OthersFree(old(mem), old(own), mem, free, own, d, d, Fill(NENTRIES, JUNK));
      Kfree(d);
      AllFreedIs(old(mem), old(free), old(own), d);
    }

    /** freevm's loop over the directory. */
    method FreeTables(d: nat, ghost m0: Mem, ghost o0: Roles)
      requires Valid() && d in own && own[d] == Dir && NoUsers(own, d) && OthersKept(m0, o0, mem, own, d)
      requires own == Released(o0, d, 0, NUSER) && d !in dirs
      modifies this`mem, this`free, this`own
      ensures Valid() && own == Dismantled(old(own), d, NENTRIES) && OthersKept(m0, o0, mem, own, d)
    {
      ghost var m1, o1 := mem, own;
      DismantledInv(mem, free, own, d);
      KernelsDismantled(mem, own, d, dirs, data);
      own := Dismantled(own, d, 0);
      DismantledOthers(m0, o0, mem, o1, d);
      assert RoleOk(m1, o1, d);
      for i := 0 to NENTRIES
        invariant Valid() && own == Dismantled(o1, d, i) && |mem| == |m1| && mem[d] == m1[d] && OthersKept(m0, o0, mem, own, d)
      {
        FreeTable(d, i, i + 1, m0, o0, m1, o1);
      }
    }

    method FreeTable(d: nat, i: nat, ghost next: nat, ghost m0: Mem, ghost o0: Roles, ghost m1: Mem, ghost o1: Roles)
      requires Valid() && own == Dismantled(o1, d, i) && |mem| == |m1| && d < |mem| && mem[d] == m1[d] && OthersKept(m0, o0, mem, own, d)
      requires i < NENTRIES && next == i + 1 && o1 == Released(o0, d, 0, NUSER) && d in o1 && o1[d] == Dir
      requires forall f {:trigger RoleOk(m1, o1, f)} :: f in o1 ==> RoleOk(m1, o1, f)
      modifies this`mem, this`free, this`own
      ensures Valid() && own == Dismantled(o1, d, next) && |mem| == |m1| && mem[d] == m1[d] && OthersKept(m0, o0, mem, own, d)
    {
      assert RoleOk(m1, o1, d) && PdeOk(m1, o1, d, i);
      DismantledNext(m1, o1, d, i, next);
      if Present(mem[d][i]) {
        OthersFree(m0, o0, mem, free, own, d, FrameOf(mem[d][i]), Fill(NENTRIES, JUNK));
        Kfree(FrameOf(mem[d][i]));
      }
    }

    /** setupkvm's kalloc and memset. */
    method NewDirectory() returns (r: Option<nat>)
      requires Valid()
      modifies this`mem, this`free, this`own
      ensures Valid() && (r.None? ==> own == old(own) && mem == old(mem) && free == old(free) == [])
      ensures r.None? ==> Only(mem, own, mem, own, 0, 0, 0)
      ensures r.Some? ==> r.value !in dirs && KernelSoFar(old(mem), old(own), |old(free)|, mem, own, |free|, r.value, data, 0)
    {
      r := NewPage(Fill(NENTRIES, 0), 0, 0);
      if r.Some? {
        var d := r.value;
        NewDirInv(mem, free, own, d);
        NewDirOnly(old(mem), old(own), mem, own, d, 0);
        KernelsHand(mem, own, d, Dir, dirs, data);
        own := own[d := Dir];
        NotComplete(old(mem), old(own), d, dirs, data);
        KernelStart(old(mem), old(own), |old(free)|, mem, own, |free|, d, data);
      }
    }

    /** setupkvm: a fresh directory that maps no user page, and the kernel's half as kmap says. It takes a
        frame for each page table of that half, and fails exactly when fewer are free; then every frame is
        used as it was. */
    method Setupkvm() returns (r: Option<nat>)
      requires Valid()
      modifies this
      ensures Valid() && (r.None? <==> |old(free)| < 1 + NKERNEL)
      ensures r.None? ==> own == old(own) && OthersKept(old(mem), old(own), mem, own, 0) && dirs == old(dirs)
      ensures r.Some? ==>
                && r.value in old(own) && old(own)[r.value] == Free && KernelSoFar(old(mem), old(own), |old(free)|, mem, own, |free|, r.value, data, NENTRIES)
                && Tables(mem, r.value) == KernelDirs(NENTRIES) && |free| + 1 + NKERNEL == |old(free)|
      ensures r.Some? ==> HasKmap(mem, r.value, data) && dirs == old(dirs) + {r.value}
    {
      r := NewDirectory();
      if r.None? {
        OnlyIsOthers(mem, own, mem, own, 0, 0, 0);
        return;
      }
      var d := r.value;
      for i := 0 to NENTRIES
        invariant Valid() && KernelSoFar(old(mem), old(own), |old(free)|, mem, own, |free|, d, data, i)
        invariant dirs == old(dirs) && d !in dirs
      {
        var ok := KernelTurn(d, i, i + 1, old(mem), old(free), old(own));
        if !ok {
          KernelFails(old(mem), old(own), |old(free)|, mem, own, |free|, d, data, i);
          ghost var m1, o1, n1 := mem, own, |free|;
          Freevm(d);
          KernelUndone(old(mem), old(free), old(own), |old(free)|, m1, o1, n1, mem, own, d, data, i);
          return None;
        }
      }
      KernelDone(old(mem), old(own), |old(free)|, mem, own, |free|, d, data, dirs);
      dirs := dirs + {d};
    }

    /** mappages on the pages of directory entry i, if kmap has them. */
    method KernelTurn(d: nat, i: nat, ghost next: nat, ghost m0: Mem, ghost f0: seq<nat>, ghost o0: Roles) returns (ok: bool)
      requires Valid() && KernelSoFar(m0, o0, |f0|, mem, own, |free|, d, data, i) && i < NENTRIES && next == i + 1 && d !in dirs
      modifies this`mem, this`free, this`own
      ensures Valid() && (ok ==> KernelSoFar(m0, o0, |f0|, mem, own, |free|, d, data, next))
      ensures !ok ==> mem == old(mem) && own == old(own) && free == old(free) == [] && IsKernel(i)
    {
      KernelAtTurn(m0, o0, |f0|, mem, own, |free|, d, data, i);
      KernelNext(i, next);
      if !IsKernel(i) {
        KernelSkip(m0, o0, |f0|, mem, own, |free|, d, data, i, next);
        return true;
      }
      ghost var m1, o1, n1 := mem, own, |free|;
      var t := NewTable(d, i, 0);
      if t.None? { return false; }
      ghost var m2, o2 := mem, own;
      FillKernel(t.value, i);
      KernelsFill(m2, own, t.value, KernelTable(data, i), dirs, data);
      KernelWrite(m2, free, own, d, i, t.value, KernelTable(data, i), 0);
      KernelMore(m0, o0, |f0|, m1, o1, n1, m2, mem, own, |free|, d, data, i, next, t.value);
      ok := true;
    }

    /** The entries of page table t. */
    method FillKernel(t: nat, i: nat)
      requires t < |mem| && i < NENTRIES
      modifies this`mem
      ensures mem == old(mem)[t := KernelTable(data, i)]
    {
      for j := 0 to NENTRIES
        invariant |mem| == |old(mem)| && mem == old(mem)[t := mem[t]]
        invariant forall k :: 0 <= k < j ==> mem[t][k] == KernelPte(data, NENTRIES * i + k)
      {
        mem := WithEntry(mem, t, j, KernelPte(data, NENTRIES * i + j));
      }
      assert mem[t] == KernelTable(data, i);
    }

    /** One turn of copyuvm's loop, for a page that is there. The page in hand is lost when it fails after
        kalloc. */
    method CopyPage(d: nat, d2: nat, v: nat, ghost next: nat) returns (ok: bool, ghost lost: Option<nat>)
      requires Valid() && d in own && own[d] == Dir && d2 in own && own[d2] == Dir && d != d2 && v < NUSER && next == v + 1
      requires Lookup(mem, d, v).Some? && Lookup(mem, d2, v) == None
      modifies this`mem, this`free, this`own
      ensures Valid() && d in own && own[d] == Dir && d2 in own && own[d2] == Dir
      ensures Only(old(mem), old(own), mem, own, d2, v, next)
      ensures ok ==> PageCopied(mem, own, d, d2, v) && Takes(old(own), own, d2, v, next)
      ensures ok <==> |old(free)| >= old(Cost(Tables(mem, d2), v))
      ensures ok ==> Tables(mem, d2) == old(Tables(mem, d2)) + {Pdx(v)} && |free| + old(Cost(Tables(mem, d2), v)) == |old(free)|
      ensures !ok ==> own == (if lost.Some? then old(own)[lost.value := Taken] else old(own)) && (lost.Some? <==> |old(free)| == 1)
      ensures !ok && lost.Some? ==> lost.value in old(own) && old(own)[lost.value] == Free
    {
      lost := None;
      var t := Walkpgdir(d, v, false);
      NoTable(mem, d, v);
      var pte := mem[t.value][Ptx(v)];
      var pa, flags := FrameOf(pte), FlagsOf(pte);
      assert PteOk(mem, own, t.value, d, Pdx(v), Ptx(v));
      PageIndex(v, v);
      var x := NewPage(mem[pa], d2, v);
      ghost var m1, o1 := mem, own;
      assert KeepsMap(old(mem), m1, d, v) && KeepsMap(old(mem), m1, d2, v) && KeepsPage(old(mem), old(own), m1, o1, pa);
      if x.None? {
        OnlyWider(old(mem), old(own), mem, own, d2, v, next);
        return false, None;
      }
      OddFlags(pte);
      var s := Mappage(d2, v, next, x.value, flags);
      if s == Mapped {
        assert KeepsMap(m1, mem, d, v) && KeepsPage(m1, o1, mem, own, pa);
        OnlyThen(old(mem), old(own), m1, o1, mem, own, d2, v, v, next, x.value);
        TakesPage(old(own), own, x.value, d2, v, next);
        ok := true;
      } else {
        OnlyWider(old(mem), old(own), mem, own, d2, v, next);
        ok, lost := false, x;
      }
    }

    /** copyuvm. With frames enough for the directory, the kernel's page tables, and the pages and page tables
        up to the first page below sz that is not mapped, it makes a copy with equal contents and flags in
        frames of its own, and nothing else changes, or panics at the missing page. With fewer it fails and
        leaves every address space as it was (0 is no directory); then every frame is used as it was, but for
        the one page in hand when mappages found no frame for a page table, which is lost. */
    method Copyuvm(d: nat, sz: nat) returns (r: Copy, ghost lost: Option<nat>)
      requires Valid() && d in own && own[d] == Dir && sz <= KERNBASE
      modifies this
      ensures var hi := Pages(sz);
              var m := FirstMissing(old(mem), d, 0, hi);
              var n := |old(free)| - 1 - NKERNEL;
              if n < CopyNeed(m) then
                && r == NoMemory && Valid() && OthersKept(old(mem), old(own), mem, own, 0) && dirs == old(dirs)
                && own == (if lost.Some? then old(own)[lost.value := Taken] else old(own))
                && (lost.Some? ==> lost.value in old(own) && old(own)[lost.value] == Free)
                && (lost.Some? <==> n >= 0 && n % (NENTRIES + 1) == 1)
              else if m < hi then r == PageMissing
              else
                && r.Copied? && Valid() && r.dir in old(own) && old(own)[r.dir] == Free && r.dir in own && own[r.dir] == Dir
                && VmModel.Copied(mem, own, d, r.dir, hi) && Only(old(mem), old(own), mem, own, r.dir, 0, hi)
                && Takes(old(own), own, r.dir, 0, hi) && |free| == n - CopyNeed(hi) && dirs == old(dirs) + {r.dir}
    {
      var dir := Setupkvm();
      if dir.None? { return NoMemory, None; }
      CopyStart(old(mem), old(own), |old(free)|, mem, own, |free|, d, dir.value, data);
      NotComplete(old(mem), old(own), dir.value, old(dirs), data);
      r, lost := CopyPages(d, dir.value, sz, |free|, old(mem), old(free), old(own));
    }

    /** copyuvm's loop, with n frames free. */
    method CopyPages(d: nat, d2: nat, sz: nat, ghost n: nat, ghost m0: Mem, ghost f0: seq<nat>, ghost o0: Roles) returns (r: Copy, ghost lost: Option<nat>)
      requires Valid() && Inv(m0, f0, o0) && sz <= KERNBASE && d2 in o0 && o0[d2] == Free && CopySoFar(m0, o0, n, mem, own, |free|, d, d2, 0)
      modifies this
      ensures var m := FirstMissing(m0, d, 0, Pages(sz));
              r == if n < CopyNeed(m) then NoMemory else if m < Pages(sz) then PageMissing else Copied(d2)
      ensures r.NoMemory? ==>
                && Valid() && OthersKept(m0, o0, mem, own, 0) && own == (if lost.Some? then o0[lost.value := Taken] else o0) && dirs == old(dirs) - {d2}
                && (lost.Some? ==> lost.value in o0 && o0[lost.value] == Free) && (lost.Some? <==> n % (NENTRIES + 1) == 1)
      ensures r.Copied? ==> Valid() && CopyState(m0, o0, n, mem, own, |free|, d, d2, Pages(sz)) && dirs == old(dirs)
    {
      lost := None;
      var i: nat, q: nat := 0, 0;
      ghost var hi := Pages(sz);
      ghost var m := FirstMissing(m0, d, 0, hi);
      while i < sz
        invariant Valid() && i == PGSIZE * q && q <= m <= hi <= NUSER
        invariant CopySoFar(m0, o0, n, mem, own, |free|, d, d2, q) && dirs == old(dirs)
      {
        ghost var next := q + 1;
        r, lost := CopyStep(d, d2, q, next, m, hi, m0, f0, o0, n);
        if !r.Copied? { return; }
        i, q := i + PGSIZE, q + 1;
      }
      CopyEnd(m0, o0, n, mem, own, |free|, d, d2, q);
      r := Copied(d2);
    }

    /** One turn of that loop, against the first missing page m. */
    method CopyStep(d: nat, d2: nat, v: nat, ghost next: nat, ghost m: nat, ghost hi: nat, ghost m0: Mem, ghost f0: seq<nat>, ghost o0: Roles, ghost n0: nat)
      returns (s: Copy, ghost lost: Option<nat>)
      requires Valid() && Inv(m0, f0, o0) && v < hi <= NUSER && next == v + 1 && m == FirstMissing(m0, d, 0, hi) && v <= m
      requires CopySoFar(m0, o0, n0, mem, own, |free|, d, d2, v)
      modifies this
      ensures s.Copied? ==> Valid() && v < m && CopySoFar(m0, o0, n0, mem, own, |free|, d, d2, next) && dirs == old(dirs)
      ensures s.PageMissing? ==> v == m && n0 >= CopyNeed(m)
      ensures s.NoMemory? ==>
                && n0 < CopyNeed(m)
                && Valid() && OthersKept(m0, o0, mem, own, 0) && own == (if lost.Some? then o0[lost.value := Taken] else o0) && dirs == old(dirs) - {d2}
                && (lost.Some? ==> lost.value in o0 && o0[lost.value] == Free) && (lost.Some? <==> n0 % (NENTRIES + 1) == 1)
    {
      ghost var f := |free|;
      CopyAt(m0, o0, n0, mem, own, f, d, d2, v);
      s, lost := CopyTurn(d, d2, v, next, m0, f0, o0, n0);
      if s == NoMemory { CopyFails(n0, v, m, f); }
    }

    /** One turn of that loop, with what it has achieved so far and, when it fails, the way out. */
    method CopyTurn(d: nat, d2: nat, v: nat, ghost next: nat, ghost m0: Mem, ghost f0: seq<nat>, ghost o0: Roles, ghost n0: nat) returns (s: Copy, ghost lost: Option<nat>)
      requires Valid() && Inv(m0, f0, o0) && v < NUSER && next == v + 1 && CopySoFar(m0, o0, n0, mem, own, |free|, d, d2, v)
      modifies this
      ensures s == if Lookup(m0, d, v) == None then PageMissing else if |old(free)| >= PageCost(v) then Copied(d2) else NoMemory
      ensures s.Copied? ==> Valid() && CopySoFar(m0, o0, n0, mem, own, |free|, d, d2, next) && dirs == old(dirs)
      ensures s.NoMemory? ==>
                && Valid() && OthersKept(m0, o0, mem, own, 0) && own == (if lost.Some? then o0[lost.value := Taken] else o0) && dirs == old(dirs) - {d2}
                && (lost.Some? ==> lost.value in o0 && o0[lost.value] == Free) && (lost.Some? <==> |old(free)| == 1)
    {
      lost := None;
      CopyAt(m0, o0, n0, mem, own, |free|, d, d2, v);
      var t := Walkpgdir(d, v, false);
      if t.None? {
        TableMissing(mem, d, v);
        return PageMissing, None;
      }
      if !Present(mem[t.value][Ptx(v)]) {
        NoEntry(mem, own, d, v, t.value);
        return PageMissing, None;
      }
      EntryThere(mem, own, d, v, t.value);
      ghost var m1, o1, n1 := mem, own, |free|;
      var ok;
      ok, lost := CopyPage(d, d2, v, next);
      if ok {
        CopyMore(m0, o0, n0, m1, o1, n1, mem, own, |free|, d, d2, v, next);
        return Copied(d2), None;
      }
      ghost var m2, o2 := mem, own;
      LostOther(m1, o1, o0, d2, v, lost);
      Freevm(d2);
      CopyBack(m0, f0, o0, n0, m1, o1, n1, m2, o2, mem, own, d, d2, v, next, lost);
      s := NoMemory;
    }
  }

  lemma PageBelow(sz: nat, q: nat, a: nat)
    requires a == PGSIZE * q
    ensures a < sz <==> q < Pages(sz)
  {
  }

  /** deallocuvm's a is the address of page q, or past the end once q is hi. */
  ghost predicate AtPage(a: nat, q: nat, hi: nat) {
    a % PGSIZE == 0 && if a < PGSIZE * hi then a == PGSIZE * q else q == hi
  }

  lemma AtPageIs(a: nat, q: nat, sz: nat, hi: nat)
    requires AtPage(a, q, hi) && hi == Pages(sz)
    ensures if a < sz then a == PGSIZE * q && a / PGSIZE == q < hi else q == hi
  {
  }

  lemma AddInv(mem: Mem, free: seq<nat>, own: Roles, p: nat)
    requires Inv(mem, free, own) && p !in own && 0 < p < |mem| && forall f :: f in own ==> own[f] == Free
    ensures Inv(mem, free, own[p := Taken])
  {
    var own' := own[p := Taken];
    forall f | f in own' ensures RoleOk(mem, own', f) {
    }
  }

  lemma OnlyButAfter(m0: Mem, o0: Roles, m1: Mem, o1: Roles, m2: Mem, o2: Roles, d: nat, v: nat, next: nat, x: nat)
    requires Only(m0, o0, m1, o1, d, v, v) && OnlyBut(m1, o1, m2, o2, d, v, next, x) && v <= next
    ensures OnlyBut(m0, o0, m2, o2, d, v, next, x)
  {
    forall d', w | d' in o0 && o0[d'] == Dir && 0 <= w < NUSER && !(d' == d && v <= w < next) ensures KeepsMap(m0, m2, d', w) {
      assert KeepsMap(m0, m1, d', w) && KeepsMap(m1, m2, d', w);
    }
    forall f | f in o0 && f != x && Outside(o0, f, d, v, next) ensures KeepsPage(m0, o0, m2, o2, f) {
      assert KeepsPage(m0, o0, m1, o1, f) && KeepsPage(m1, o1, m2, o2, f);
    }
  }

  lemma NoEntry(mem: Mem, own: Roles, d: nat, v: nat, t: nat)
    requires TableFor(mem, own, d, v, t) && !Present(mem[t][Ptx(v)])
    ensures Unmapped(mem, d, v)
  {
  }

  /** Without a page table none of its pages is mapped. */
  lemma SkipTo(mem: Mem, d: nat, v: nat, hi: nat, a: nat) returns (next: nat)
    requires v < hi <= NUSER && d < |mem| && !Present(mem[d][Pdx(v)]) && a == PGSIZE * NENTRIES * (Pdx(v) + 1) - PGSIZE
    ensures PGSIZE * v <= a && AtPage(a + PGSIZE, next, hi)
    ensures v < next <= hi && forall w :: v <= w < next ==> Unmapped(mem, d, w)
  {
    next := if NENTRIES * (Pdx(v) + 1) < hi then NENTRIES * (Pdx(v) + 1) else hi;
    forall w | v <= w < next ensures Unmapped(mem, d, w) {
      assert Pdx(w) == Pdx(v);
    }
  }

  lemma NoUsersLeft(mem: Mem, free: seq<nat>, own: Roles, d: nat)
    requires Inv(mem, free, own)
    ensures NoUsers(Released(own, d, 0, NUSER), d)
  {
    forall f | f in own && own[f].User? ensures own[f].v < NUSER {
      assert RoleOk(mem, own, f);
    }
  }

  lemma DismantledOthers(m0: Mem, o0: Roles, m: Mem, o: Roles, d: nat)
    requires OthersKept(m0, o0, m, o, d) && d in o && o[d] == Dir
    ensures OthersKept(m0, o0, m, Dismantled(o, d, 0), d)
  {
    var o' := Dismantled(o, d, 0);
    forall f | f in o0 && o0[f].User? && o0[f].d != d ensures KeepsPage(m0, o0, m, o', f) {
      assert KeepsPage(m0, o0, m, o, f);
    }
  }

  lemma NewDirOnly(m0: Mem, o0: Roles, m: Mem, o: Roles, x: nat, lo: nat)
    requires Only(m0, o0, m, o, 0, lo, lo) && x in o0 && o0[x] == Free && x in o
    ensures Only(m0, o0, m, o[x := Dir], x, lo, lo)
  {
    var o' := o[x := Dir];
    forall d', v | d' in o0 && o0[d'] == Dir && 0 <= v < NUSER ensures KeepsMap(m0, m, d', v) {
    }
    forall f | f in o0 && Outside(o0, f, x, lo, lo) ensures KeepsPage(m0, o0, m, o', f) {
      assert KeepsPage(m0, o0, m, o, f);
    }
  }

  lemma OnlyWider(m0: Mem, o0: Roles, m: Mem, o: Roles, d: nat, v: nat, next: nat)
    requires Only(m0, o0, m, o, d, v, v) && v <= next
    ensures Only(m0, o0, m, o, d, v, next)
  {
    forall d', w | d' in o0 && o0[d'] == Dir && 0 <= w < NUSER ensures KeepsMap(m0, m, d', w) {
    }
    forall f | f in o0 && Outside(o0, f, d, v, next) ensures KeepsPage(m0, o0, m, o, f) {
    }
  }

  lemma NoTable(mem: Mem, d: nat, v: nat)
    requires Lookup(mem, d, v).Some?
    ensures d < |mem| && Present(mem[d][Pdx(v)])
  {
  }

  lemma OddFlags(e: uint)
    requires Present(e)
    ensures FlagsOf(e) % 2 == 1
  {
  }

  /** A copy begun and given back, for every address space there was before. */
  lemma CopyUndone(m0: Mem, free: seq<nat>, o0: Roles, m1: Mem, o1: Roles, m2: Mem, o2: Roles, d2: nat, hi: nat)
    requires Inv(m0, free, o0) && d2 in o0 && o0[d2] == Free && Only(m0, o0, m1, o1, d2, 0, hi) && OthersKept(m1, o1, m2, o2, d2)
    ensures OthersKept(m0, o0, m2, o2, 0)
  {
    forall d', v | d' in o0 && o0[d'] == Dir && d' != 0 && 0 <= v < NUSER ensures KeepsMap(m0, m2, d', v) {
      assert KeepsMap(m0, m1, d', v) && KeepsMap(m1, m2, d', v);
    }
    forall f | f in o0 && o0[f].User? && o0[f].d != 0 ensures KeepsPage(m0, o0, m2, o2, f) {
      assert RoleOk(m0, o0, f);
      assert KeepsPage(m0, o0, m1, o1, f) && KeepsPage(m1, o1, m2, o2, f);
    }
  }

  // ---------------------------------------------------------------- allocuvm's loop

  /** Pages lo to q are added, and paid for, where m is the first page that was mapped already. Kept folded. */
  ghost predicate GrowSoFar(m0: Mem, o0: Roles, n0: nat, m1: Mem, o1: Roles, n1: nat, d: nat, lo: nat, m: nat, q: nat) {
    forall x {:trigger Look(x)} :: Look(x) ==>
      d in o1 && o1[d] == Dir && Paid(n0, Tables(m0, d), lo, m, n1, Tables(m1, d), q) && Grown(m0, o0, m1, o1, d, lo, q)
  }

  lemma GrowStart(m0: Mem, o0: Roles, n0: nat, d: nat, lo: nat, m: nat)
    requires Managed(m0, o0) && d in o0 && o0[d] == Dir && lo <= m
    ensures GrowSoFar(m0, o0, n0, m0, o0, n0, d, lo, m, lo)
  {
    OnlySame(m0, o0, d, lo, lo);
    TakesSelf(o0, d, lo, lo);
    PaidStart(n0, Tables(m0, d), lo, m);
  }

  lemma GrowAt(m0: Mem, o0: Roles, n0: nat, m1: Mem, o1: Roles, n1: nat, d: nat, lo: nat, m: nat, q: nat)
    requires GrowSoFar(m0, o0, n0, m1, o1, n1, d, lo, m, q) && d in o0 && o0[d] == Dir && lo <= q <= m && q < NUSER
    ensures d in o1 && o1[d] == Dir && Lookup(m1, d, q) == Lookup(m0, d, q) && Only(m0, o0, m1, o1, d, lo, q) && Takes(o0, o1, d, lo, q)
    ensures q == m ==> n0 == n1 + Need(Tables(m0, d), lo, m)
  {
    assert Look(0);
    assert KeepsMap(m0, m1, d, q);
    if q == m { PaidEnd(n0, Tables(m0, d), lo, m, n1, Tables(m1, d)); }
  }

  lemma GrowMore(m0: Mem, o0: Roles, n0: nat, m1: Mem, f1: seq<nat>, o1: Roles, m2: Mem, o2: Roles, n2: nat, d: nat, lo: nat, m: nat, q: nat, next: nat)
    requires GrowSoFar(m0, o0, n0, m1, o1, |f1|, d, lo, m, q) && Inv(m1, f1, o1) && lo <= q < m && q < NUSER && next == q + 1
    requires d in o2 && o2[d] == Dir && Grown(m1, o1, m2, o2, d, q, next) && Tables(m2, d) == Tables(m1, d) + {Pdx(q)} && n2 + Cost(Tables(m1, d), q) == |f1|
    ensures GrowSoFar(m0, o0, n0, m2, o2, n2, d, lo, m, next)
  {
    assert Look(0);
    GrownMore(m0, o0, m1, f1, o1, m2, o2, d, lo, q, next);
    PaidNext(n0, Tables(m0, d), lo, m, |f1|, Tables(m1, d), q, n2, Tables(m2, d), next);
  }

  lemma GrowStuck(m0: Mem, o0: Roles, n0: nat, m1: Mem, o1: Roles, n1: nat, d: nat, lo: nat, m: nat, q: nat)
    requires GrowSoFar(m0, o0, n0, m1, o1, n1, d, lo, m, q) && q <= m && (if q < m then n1 < Cost(Tables(m1, d), q) else n1 == 0)
    ensures n0 <= Need(Tables(m0, d), lo, m) && (q < m ==> n0 < Need(Tables(m0, d), lo, m))
  {
    assert Look(0);
    if q < m {
      PaidStuck(n0, Tables(m0, d), lo, m, n1, Tables(m1, d), q);
    } else {
      PaidEnd(n0, Tables(m0, d), lo, m, n1, Tables(m1, d));
    }
  }

  lemma GrowEnd(m0: Mem, o0: Roles, n0: nat, m1: Mem, o1: Roles, n1: nat, d: nat, lo: nat, m: nat)
    requires GrowSoFar(m0, o0, n0, m1, o1, n1, d, lo, m, m)
    ensures Grown(m0, o0, m1, o1, d, lo, m) && n0 == n1 + Need(Tables(m0, d), lo, m)
  {
    assert Look(0);
    PaidEnd(n0, Tables(m0, d), lo, m, n1, Tables(m1, d));
  }

  // ---------------------------------------------------------------- a growth given back

  lemma EntryThere(mem: Mem, own: Roles, d: nat, v: nat, t: nat)
    requires TableFor(mem, own, d, v, t) && Present(mem[t][Ptx(v)])
    ensures Lookup(mem, d, v) == Some(mem[t][Ptx(v)])
  {
  }

  lemma TableMissing(mem: Mem, d: nat, v: nat)
    requires d < |mem| && v < NUSER && !Present(mem[d][Pdx(v)])
    ensures Lookup(mem, d, v) == None
  {
  }

  lemma OnlyButWider(m0: Mem, o0: Roles, m: Mem, o: Roles, d: nat, lo: nat, hi: nat, x: nat)
    requires OnlyBut(m0, o0, m, o, d, lo, lo, x)
    ensures OnlyBut(m0, o0, m, o, d, lo, hi, x)
  {
    forall d', v | d' in o0 && o0[d'] == Dir && 0 <= v < NUSER && !(d' == d && lo <= v < hi) ensures KeepsMap(m0, m, d', v) {
    }
    forall f | f in o0 && f != x && Outside(o0, f, d, lo, hi) ensures KeepsPage(m0, o0, m, o, f) {
    }
  }

  lemma StillUnmapped(m0: Mem, o0: Roles, m: Mem, o: Roles, d: nat, lo: nat, hi: nat, x: nat)
    requires OnlyBut(m0, o0, m, o, d, lo, lo, x) && d in o0 && o0[d] == Dir && hi <= NUSER
    requires forall w {:trigger Unmapped(m0, d, w)} :: lo <= w < hi ==> Unmapped(m0, d, w)
    ensures forall w {:trigger Unmapped(m, d, w)} :: lo <= w < hi ==> Unmapped(m, d, w)
  {
    forall w | lo <= w < hi ensures Unmapped(m, d, w) {
      assert Unmapped(m0, d, w) && KeepsMap(m0, m, d, w);
    }
  }

  lemma ReleasedBut(o: Roles, d: nat, lo: nat, hi: nat, x: nat)
    requires x in o && o[x] == Free
    ensures Released(o[x := Taken], d, lo, hi)[x := Free] == Released(o, d, lo, hi)
  {
  }

  /** The growth has left every user map as it was. Every frame that was free is free, or one of the page tables
      made for d; together they are as many as before. */
  ghost predicate GivenBack(m0: Mem, f0: seq<nat>, o0: Roles, m: Mem, f: seq<nat>, o: Roles, d: nat) {
    Only(m0, o0, m, o, d, 0, 0) && Takes(o0, o, d, 0, 0) && |f| + |Tables(m, d)| == |f0| + |Tables(m0, d)|
  }

  /** Nothing but the pages from lo to hi has changed, and they are all gone; if none of them was mapped, where m
      is the first that was, everything is given back. */
  ghost predicate NotGrown(m0: Mem, f0: seq<nat>, o0: Roles, mem: Mem, f: seq<nat>, o: Roles, d: nat, lo: nat, hi: nat, m: nat) {
    && Only(m0, o0, mem, o, d, lo, hi) && (forall w {:trigger Unmapped(mem, d, w)} :: lo <= w < hi ==> Unmapped(mem, d, w))
    && (m == hi ==> GivenBack(m0, f0, o0, mem, f, o, d))
  }

  lemma OnlyNothing(m0: Mem, o0: Roles, m: Mem, o: Roles, d: nat, lo: nat)
    requires Only(m0, o0, m, o, d, lo, lo) && Takes(o0, o, d, lo, lo)
    ensures Only(m0, o0, m, o, d, 0, 0) && Takes(o0, o, d, 0, 0)
  {
    forall d', v | d' in o0 && o0[d'] == Dir && 0 <= v < NUSER ensures KeepsMap(m0, m, d', v) {
    }
    forall f | f in o0 && Outside(o0, f, d, 0, 0) ensures KeepsPage(m0, o0, m, o, f) {
    }
    forall f | f in o0 ensures TakenFor(o0, o, d, 0, 0, f) {
      assert TakenFor(o0, o, d, lo, lo, f);
    }
  }

  lemma GiveBack(m0: Mem, f0: seq<nat>, o0: Roles, o1: Roles, m: Mem, f: seq<nat>, o: Roles, d: nat, lo: nat, v: nat, hi: nat)
    requires Inv(m0, f0, o0) && Inv(m, f, o) && Only(m0, o0, m, o, d, lo, hi) && lo <= hi && v <= hi <= NUSER && FirstMapped(m0, d, lo, hi) == hi
    requires Takes(o0, o1, d, lo, v) && o == Released(o1, d, lo, hi) && d in o0 && o0[d] == Dir
    requires forall w {:trigger Unmapped(m, d, w)} :: lo <= w < hi ==> Unmapped(m, d, w)
    ensures GivenBack(m0, f0, o0, m, f, o, d)
  {
    forall w | lo <= w < hi ensures Unmapped(m0, d, w) {
      assert Lookup(m0, d, w) == None;
    }
    Restored(m0, f0, o0, m, o, d, lo, hi);
    UndoneTakes(m0, f0, o0, o1, o, d, lo, v, hi);
    Conserved(m0, f0, o0, m, f, o, d, lo);
    OnlyNothing(m0, o0, m, o, d, lo);
  }

  // ---------------------------------------------------------------- setupkvm's loop

  /** The directory d is new and maps no user page, and the page tables of the kernel's half below entry i are
      made and filled. */
  ghost predicate KernelSoFar(m0: Mem, o0: Roles, n0: nat, m: Mem, o: Roles, n: nat, d: nat, data: nat, i: nat) {
    && d in o && o[d] == Dir && d in o0 && o0[d] == Free && d < |m| && Tables(m, d) == KernelDirs(i) && n + 1 + KernelBelow(i) == n0
    && Only(m0, o0, m, o, d, 0, 0) && Takes(o0, o, d, 0, 0)
    && (forall v {:trigger Unmapped(m, d, v)} :: 0 <= v < NUSER ==> Unmapped(m, d, v)) && KernelMapped(m, o, d, data, i)
  }

  lemma KernelStart(m0: Mem, o0: Roles, n0: nat, m: Mem, o: Roles, n: nat, d: nat, data: nat)
    requires d in o0 && o0[d] == Free && o == o0[d := Dir] && Only(m0, o0, m, o, d, 0, 0) && d < |m| && IsZero(m[d]) && n + 1 == n0
    ensures KernelSoFar(m0, o0, n0, m, o, n, d, data, 0)
  {
    TakesOne(o0, d, Dir, d, 0, 0);
    assert Tables(m, d) == KernelDirs(0);
  }

  lemma KernelAtTurn(m0: Mem, o0: Roles, n0: nat, m: Mem, o: Roles, n: nat, d: nat, data: nat, i: nat)
    requires KernelSoFar(m0, o0, n0, m, o, n, d, data, i) && i < NENTRIES
    ensures !Present(m[d][i])
  {
    assert i !in Tables(m, d);
  }

  lemma KernelSkip(m0: Mem, o0: Roles, n0: nat, m: Mem, o: Roles, n: nat, d: nat, data: nat, i: nat, next: nat)
    requires KernelSoFar(m0, o0, n0, m, o, n, d, data, i) && next == i + 1 && !IsKernel(i)
    ensures KernelSoFar(m0, o0, n0, m, o, n, d, data, next)
  {
    KernelNext(i, next);
  }

  lemma KernelMore(m0: Mem, o0: Roles, n0: nat, m1: Mem, o1: Roles, n1: nat, m2: Mem, m: Mem, o: Roles, n: nat, d: nat, data: nat,
                   i: nat, next: nat, t: nat)
    requires KernelSoFar(m0, o0, n0, m1, o1, n1, d, data, i) && next == i + 1 && IsKernel(i)
    requires t in o1 && o1[t] == Free && o == o1[t := Table(d, i)] && n + 1 == n1 && Only(m1, o1, m2, o, d, 0, 0) && Only(m2, o, m, o, d, 0, 0)
    requires d < |m2| == |m1| && Present(m2[d][i]) && FrameOf(m2[d][i]) == t < |m2| && (forall k :: 0 <= k < NENTRIES && k != i ==> m2[d][k] == m1[d][k])
    requires forall f :: 0 <= f < |m2| && f != d && f != t ==> m2[f] == m1[f]
    requires m == m2[t := KernelTable(data, i)] && Tables(m, d) == Tables(m1, d) + {i}
    ensures KernelSoFar(m0, o0, n0, m, o, n, d, data, next)
  {
    KernelNext(i, next);
    OnlyTrans(m0, o0, m1, o1, m2, o, d, 0, 0, 0, 0);
    OnlyTrans(m0, o0, m2, o, m, o, d, 0, 0, 0, 0);
    TakesOne(o1, t, Table(d, i), d, 0, 0);
    TakesTrans(o0, o1, o, d, 0, 0, 0, 0);
    forall v | 0 <= v < NUSER ensures Unmapped(m, d, v) {
      assert Unmapped(m1, d, v) && KeepsMap(m1, m2, d, v) && KeepsMap(m2, m, d, v);
    }
    forall k | 0 <= k < next && IsKernel(k) ensures KernelAt(m, o, d, data, k) {
      if k < i { assert KernelAt(m1, o1, d, data, k); }
    }
  }

  lemma KernelDone(m0: Mem, o0: Roles, n0: nat, m: Mem, o: Roles, n: nat, d: nat, data: DataPage, dirs: set<nat>)
    requires KernelSoFar(m0, o0, n0, m, o, n, d, data, NENTRIES) && Kernels(m, o, dirs, data)
    ensures Kernels(m, o, dirs + {d}, data) && HasKmap(m, d, data)
  {
    KernelOkIs(m, o, d, data);
    KernelOkMeans(m, o, d, data);
  }

  lemma KernelFails(m0: Mem, o0: Roles, n0: nat, m: Mem, o: Roles, n: nat, d: nat, data: nat, i: nat)
    requires KernelSoFar(m0, o0, n0, m, o, n, d, data, i) && n == 0 && IsKernel(i)
    ensures n0 < 1 + NKERNEL
  {
  }

  lemma KernelUndone(m0: Mem, f0: seq<nat>, o0: Roles, n0: nat, m1: Mem, o1: Roles, n1: nat, m: Mem, o: Roles, d: nat, data: nat, i: nat)
    requires Inv(m0, f0, o0) && KernelSoFar(m0, o0, n0, m1, o1, n1, d, data, i) && OthersKept(m1, o1, m, o, d) && o == AllFreed(o1, d)
    ensures o == o0 && OthersKept(m0, o0, m, o, 0)
  {
    AllFreedBack(m0, f0, o0, o1, d, 0, 0);
    CopyUndone(m0, f0, o0, m1, o1, m, o, d, 0);
  }

  // ---------------------------------------------------------------- copyuvm's loop

  /** The frames for the first q pages of a copy: each page, and a page table at each 1024th. */
  function CopyNeed(q: nat): nat {
    if q == 0 then 0 else CopyNeed(q - 1) + PageCost(q - 1)
  }

  function PageCost(q: nat): nat {
    if q % NENTRIES == 0 then 2 else 1
  }

  function UserDirs(q: nat): set<nat> {
    set i: nat | i < NENTRIES && NENTRIES * i < q
  }

  lemma {:induction false} UserDirsNext(q: nat, next: nat)
    requires q < NUSER && next == q + 1
    ensures UserDirs(next) == UserDirs(q) + {Pdx(q)} && (Pdx(q) in UserDirs(q) <==> q % NENTRIES != 0) && !IsKernel(Pdx(q))
    ensures CopyNeed(next) == CopyNeed(q) + PageCost(q)
  {
    forall i: nat ensures i in UserDirs(next) <==> i in UserDirs(q) || i == Pdx(q) {
    }
  }

  lemma {:induction false} CopyNeedMono(q: nat, m: nat)
    requires q <= m
    ensures CopyNeed(q) <= CopyNeed(m)
    decreases m
  {
    if q < m { CopyNeedMono(q, m - 1); }
  }

  /** The first q pages of d are copied to the new directory d2, which has no others. Kept folded. */
  ghost predicate CopySoFar(m0: Mem, o0: Roles, n0: nat, m: Mem, o: Roles, n: nat, d: nat, d2: nat, q: nat) {
    forall x {:trigger Look(x)} :: Look(x) ==> CopyState(m0, o0, n0, m, o, n, d, d2, q)
  }

  ghost predicate CopyState(m0: Mem, o0: Roles, n0: nat, m: Mem, o: Roles, n: nat, d: nat, d2: nat, q: nat) {
    && d in o && o[d] == Dir && d2 in o && o[d2] == Dir && d != d2 && d in o0 && o0[d] == Dir && d2 in o0 && o0[d2] == Free
    && Only(m0, o0, m, o, d2, 0, q) && VmModel.Copied(m, o, d, d2, q) && Takes(o0, o, d2, 0, q)
    && Tables(m, d2) == KernelDirs(NENTRIES) + UserDirs(q) && n + CopyNeed(q) == n0
  }

  lemma CopyStart(m0: Mem, o0: Roles, n0: nat, m: Mem, o: Roles, n: nat, d: nat, d2: nat, data: nat)
    requires KernelSoFar(m0, o0, n0, m, o, n, d2, data, NENTRIES) && d in o0 && o0[d] == Dir
    ensures CopySoFar(m0, o0, n, m, o, n, d, d2, 0)
  {
    assert UserDirs(0) == {};
  }

  lemma CopyAt(m0: Mem, o0: Roles, n0: nat, m: Mem, o: Roles, n: nat, d: nat, d2: nat, q: nat)
    requires CopySoFar(m0, o0, n0, m, o, n, d, d2, q) && q < NUSER
    ensures d in o && o[d] == Dir && d2 in o && o[d2] == Dir && d != d2
    ensures Lookup(m, d, q) == Lookup(m0, d, q) && Lookup(m, d2, q) == None && Cost(Tables(m, d2), q) == PageCost(q) && n + CopyNeed(q) == n0
  {
    assert Look(0);
    assert KeepsMap(m0, m, d, q) && Unmapped(m, d2, q);
    UserDirsNext(q, q + 1);
  }

  lemma CopyMore(m0: Mem, o0: Roles, n0: nat, m1: Mem, o1: Roles, n1: nat, m: Mem, o: Roles, n: nat, d: nat, d2: nat, q: nat, next: nat)
    requires CopySoFar(m0, o0, n0, m1, o1, n1, d, d2, q) && q < NUSER && next == q + 1
    requires Only(m1, o1, m, o, d2, q, next) && PageCopied(m, o, d, d2, q) && Takes(o1, o, d2, q, next)
    requires Tables(m, d2) == Tables(m1, d2) + {Pdx(q)} && n + PageCost(q) == n1
    ensures CopySoFar(m0, o0, n0, m, o, n, d, d2, next)
  {
    assert Look(0);
    OnlyTrans(m0, o0, m1, o1, m, o, d2, 0, q, next, q);
    TakesTrans(o0, o1, o, d2, 0, q, q, next);
    CopiedMore(m1, o1, m, o, d, d2, q, next);
    UserDirsNext(q, next);
  }

  lemma CopyEnd(m0: Mem, o0: Roles, n0: nat, m: Mem, o: Roles, n: nat, d: nat, d2: nat, q: nat)
    requires CopySoFar(m0, o0, n0, m, o, n, d, d2, q)
    ensures CopyState(m0, o0, n0, m, o, n, d, d2, q) && n0 >= CopyNeed(q)
  {
    assert Look(0);
  }

  /** The page in hand is not the directory. */
  lemma LostOther(m1: Mem, o1: Roles, o0: Roles, d2: nat, v: nat, lost: Option<nat>)
    requires d2 in o1 && o1[d2] == Dir && (lost.Some? ==> lost.value in o1 && o1[lost.value] == Free)
    ensures lost.Some? ==> lost.value != d2
  {
  }

  lemma CopyBack(m0: Mem, f0: seq<nat>, o0: Roles, n0: nat, m1: Mem, o1: Roles, n1: nat, m2: Mem, o2: Roles, m: Mem, o: Roles,
                 d: nat, d2: nat, q: nat, next: nat, lost: Option<nat>)
    requires Inv(m0, f0, o0) && CopySoFar(m0, o0, n0, m1, o1, n1, d, d2, q) && next == q + 1 && Only(m1, o1, m2, o2, d2, q, next)
    requires o2 == (if lost.Some? then o1[lost.value := Taken] else o1) && (lost.Some? ==> lost.value in o1 && o1[lost.value] == Free && lost.value != d2)
    requires OthersKept(m2, o2, m, o, d2) && o == AllFreed(o2, d2)
    ensures OthersKept(m0, o0, m, o, 0) && o == (if lost.Some? then o0[lost.value := Taken] else o0)
    ensures lost.Some? ==> lost.value in o0 && o0[lost.value] == Free
  {
    assert Look(0);
    OnlyTrans(m0, o0, m1, o1, m2, o2, d2, 0, q, next, q);
    CopyUndone(m0, f0, o0, m2, o2, m, o, d2, next);
    if lost.Some? {
      AllFreedBut(m0, f0, o0, o1, d2, 0, q, lost.value);
    } else {
      AllFreedBack(m0, f0, o0, o1, d2, 0, q);
    }
  }

  /** In all, k and a part of 1024 pages take k page tables, and one more for the part. */
  lemma {:induction false} CopyNeedIs(q: nat, k: nat, r: nat)
    requires q == NENTRIES * k + r && r < NENTRIES
    ensures CopyNeed(q) == q + k + (if r == 0 then 0 else 1) && PageCost(q) == if r == 0 then 2 else 1
    decreases q
  {
    PageCostIs(q, k, r);
    if r > 0 {
      CopyNeedIs(q - 1, k, r - 1);
      CopyNeedNext(q - 1, q);
    } else if k > 0 {
      CopyNeedIs(q - 1, k - 1, NENTRIES - 1);
      CopyNeedNext(q - 1, q);
    }
  }

  lemma PageCostIs(q: nat, k: nat, r: nat)
    requires q == NENTRIES * k + r && r < NENTRIES
    ensures PageCost(q) == if r == 0 then 2 else 1
  {
  }

  lemma {:induction false} LeftOver(n: nat, k: nat, r: nat)
    requires n == (NENTRIES + 1) * k + r && r <= NENTRIES
    ensures n % (NENTRIES + 1) == r
  {
  }

  /** A copy that stops at page q, with f frames left of n. */
  lemma {:induction false} CopyFails(n: nat, q: nat, m: nat, f: nat)
    requires n == f + CopyNeed(q) && f < PageCost(q) && q < m
    ensures n < CopyNeed(m) && (f == 1 <==> n % (NENTRIES + 1) == 1)
  {
    var k, r := q / NENTRIES, q % NENTRIES;
    CopyNeedIs(q, k, r);
    LeftOver(n, k, if r == 0 then f else r + 1);
    CopyNeedNext(q, q + 1);
    CopyNeedMono(q + 1, m);
  }

  lemma {:induction false} CopyNeedNext(q: nat, next: nat)
    requires next == q + 1
    ensures CopyNeed(next) == CopyNeed(q) + PageCost(q)
  {
  }
}
