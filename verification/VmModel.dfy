/** Physical memory, the page tables in it, and who uses which frame. Frames are counted, not addressed: the
    physical address of frame f is PGSIZE * f. A frame is 1024 words, and a page directory or page table is
    one such frame of entries (section 4.3 of the Intel SDM, volume 3A: two-level paging with 4 KB pages). */
module VmModel {
  import opened Common
  import opened Bytes

  const PGSIZE: nat := 4096
  const NENTRIES: nat := 1024        // NPDENTRIES and NPTENTRIES
  const NUSERDIRS: nat := 512        // PDX(KERNBASE)
  const NUSER: nat := 0x8_0000       // user pages: KERNBASE / PGSIZE

  type Frame = w: seq<uint> | |w| == NENTRIES witness seq(NENTRIES, i => 0)
  type Mem = seq<Frame>

  function Fill(n: nat, w: uint): (r: seq<uint>)
    ensures |r| == n && forall k :: 0 <= k < n ==> r[k] == w
  {
    if n == 0 then [] else Fill(n - 1, w) + [w]
  }

  ghost predicate IsZero(fr: Frame) {
    forall k :: 0 <= k < NENTRIES ==> fr[k] == 0
  }

  // ---------------------------------------------------------------- entries

  predicate Present(e: uint) {
    e % 2 == 1
  }

  function FrameOf(e: uint): nat {
    e / PGSIZE
  }

  function FlagsOf(e: uint): nat {
    e % PGSIZE
  }

  /** pa | flags | PTE_P, for a frame below 2^20. */
  function Entry(f: nat, flags: nat): (e: uint)
    requires f < 0x10_0000 && flags < PGSIZE && flags % 2 == 1
    ensures Present(e) && FrameOf(e) == f && FlagsOf(e) == flags
  {
    PGSIZE * f + flags
  }

  /** The page directory and page table index of page v. */
  function Pdx(v: nat): (r: nat)
    ensures v < NUSER ==> r < NUSERDIRS
    ensures v < NENTRIES * NENTRIES ==> r < NENTRIES
  {
    v / NENTRIES
  }

  function Ptx(v: nat): (r: nat)
    ensures r < NENTRIES
  {
    v % NENTRIES
  }

  // ---------------------------------------------------------------- roles

  /** What a frame that kalloc manages is used for. Taken: handed out, and not part of any page table yet. */
  datatype Role = Free | Taken | Dir | Table(d: nat, i: nat) | User(d: nat, v: nat)

  type Roles = map<nat, Role>

  ghost predicate Managed(mem: Mem, own: Roles) {
    |mem| <= 0x10_0000 && forall f :: f in own ==> 0 < f < |mem|
  }

  const USER_RW: nat := 7     // PTE_P | PTE_W | PTE_U

  /** A present directory entry names a page table of this directory, and leaves the permissions to it. */
  ghost predicate PdeOk(mem: Mem, own: Roles, d: nat, i: nat) {
    d < |mem| && i < NENTRIES && Present(mem[d][i]) ==>
      FrameOf(mem[d][i]) in own && own[FrameOf(mem[d][i])] == Table(d, i) && FlagsOf(mem[d][i]) == USER_RW
  }

  /** A present entry of a user page table names the user page at its place. */
  ghost predicate PteOk(mem: Mem, own: Roles, t: nat, d: nat, i: nat, j: nat) {
    t < |mem| && i < NUSERDIRS && j < NENTRIES && Present(mem[t][j]) ==>
      FrameOf(mem[t][j]) in own && own[FrameOf(mem[t][j])] == User(d, NENTRIES * i + j)
  }

  ghost predicate DirOk(mem: Mem, own: Roles, d: nat) {
    forall i {:trigger PdeOk(mem, own, d, i)} :: 0 <= i < NENTRIES ==> PdeOk(mem, own, d, i)
  }

  /** The directory entry that leads to table t. */
  ghost predicate Linked(mem: Mem, own: Roles, t: nat, d: nat, i: nat) {
    d in own && own[d] == Dir && d < |mem| && i < NENTRIES && Present(mem[d][i]) && FrameOf(mem[d][i]) == t
  }

  ghost predicate TableOk(mem: Mem, own: Roles, t: nat, d: nat, i: nat) {
    && Linked(mem, own, t, d, i)
    && forall j {:trigger PteOk(mem, own, t, d, i, j)} :: 0 <= j < NENTRIES ==> PteOk(mem, own, t, d, i, j)
  }

  /** The page walk, for any of the 2^20 pages: the entry of page v in directory d, if there is one. */
  function Walk(mem: Mem, d: nat, v: nat): Option<uint>
    requires v < NENTRIES * NENTRIES
  {
    if d < |mem| && Present(mem[d][Pdx(v)]) && FrameOf(mem[d][Pdx(v)]) < |mem|
       && Present(mem[FrameOf(mem[d][Pdx(v)])][Ptx(v)])
    then Some(mem[FrameOf(mem[d][Pdx(v)])][Ptx(v)]) else None
  }

  /** The mapping of user page v. */
  function Lookup(mem: Mem, d: nat, v: nat): Option<uint> {
    if v < NUSER then Walk(mem, d, v) else None
  }

  ghost predicate UserOk(mem: Mem, own: Roles, f: nat, d: nat, v: nat) {
    && d in own && own[d] == Dir && v < NUSER
    && Lookup(mem, d, v).Some? && FrameOf(Lookup(mem, d, v).value) == f
  }

  ghost predicate RoleOk(mem: Mem, own: Roles, f: nat)
    requires f in own
  {
    match own[f]
    case Free => true
    case Taken => true
    case Dir => DirOk(mem, own, f)
    case Table(d, i) => TableOk(mem, own, f, d, i)
    case User(d, v) => UserOk(mem, own, f, d, v)
  }

  /** The free list holds the free frames, each once. */
  ghost predicate FreeOk(free: seq<nat>, own: Roles) {
    && (forall k :: 0 <= k < |free| ==> free[k] in own && own[free[k]] == Free)
    && (forall j, k :: 0 <= j < k < |free| ==> free[j] != free[k])
    && (forall f :: f in own && own[f] == Free ==> f in free)
  }

  ghost predicate Inv(mem: Mem, free: seq<nat>, own: Roles) {
    && Managed(mem, own) && FreeOk(free, own)
    && forall f {:trigger RoleOk(mem, own, f)} :: f in own ==> RoleOk(mem, own, f)
  }

  // ---------------------------------------------------------------- the steps

  /** The table on the way to user page v belongs to this directory and this index. */
  lemma TableRole(mem: Mem, own: Roles, d: nat, i: nat)
    requires d in own && own[d] == Dir && RoleOk(mem, own, d) && d < |mem| && i < NENTRIES && Present(mem[d][i])
    ensures FrameOf(mem[d][i]) in own && own[FrameOf(mem[d][i])] == Table(d, i)
  {
    assert PdeOk(mem, own, d, i);
  }

  /** Frames that hold no page table may be written at will. */
  lemma LookupKept(mem: Mem, own: Roles, x: nat, fr: Frame, d: nat, v: nat)
    requires Managed(mem, own) && d in own && own[d] == Dir && RoleOk(mem, own, d) && v < NUSER
    requires x in own && !own[x].Dir? && !own[x].Table?
    ensures Lookup(mem[x := fr], d, v) == Lookup(mem, d, v)
  {
    if Present(mem[d][Pdx(v)]) { TableRole(mem, own, d, Pdx(v)); }
  }

  lemma FillRole(mem: Mem, own: Roles, x: nat, fr: Frame, f: nat)
    requires Managed(mem, own) && f in own && RoleOk(mem, own, f) && x in own && !own[x].Dir? && !own[x].Table?
    requires own[f].User? ==> own[f].d in own && RoleOk(mem, own, own[f].d)
    ensures RoleOk(mem[x := fr], own, f)
  {
    var mem' := mem[x := fr];
    match own[f]
    case Free =>
    case Taken =>
    case Dir =>
      forall i | 0 <= i < NENTRIES ensures PdeOk(mem', own, f, i) {
        assert PdeOk(mem, own, f, i);
      }
    case Table(d, i) =>
      forall j | 0 <= j < NENTRIES ensures PteOk(mem', own, f, d, i, j) {
        assert PteOk(mem, own, f, d, i, j);
      }
    case User(d, v) => LookupKept(mem, own, x, fr, d, v);
  }

  lemma FillInv(mem: Mem, free: seq<nat>, own: Roles, x: nat, fr: Frame)
    requires Inv(mem, free, own) && x in own && !own[x].Dir? && !own[x].Table?
    ensures Inv(mem[x := fr], free, own)
  {
    forall f | f in own ensures RoleOk(mem[x := fr], own, f) {
      assert RoleOk(mem, own, f);
      if own[f].User? { assert RoleOk(mem, own, own[f].d); }
      FillRole(mem, own, x, fr, f);
    }
  }

  /** A frame changes hands between the free list and its next user. */
  lemma HandRole(mem: Mem, own: Roles, x: nat, r: Role, f: nat)
    requires x in own && (own[x].Free? || own[x].Taken?) && (r.Free? || r.Taken?)
    requires f in own && RoleOk(mem, own, f)
    ensures RoleOk(mem, own[x := r], f)
  {
    var own' := own[x := r];
    match own[f]
    case Free =>
    case Taken =>
    case Dir =>
      forall i | 0 <= i < NENTRIES ensures PdeOk(mem, own', f, i) {
        assert PdeOk(mem, own, f, i);
      }
    case Table(d, i) =>
      forall j | 0 <= j < NENTRIES ensures PteOk(mem, own', f, d, i, j) {
        assert PteOk(mem, own, f, d, i, j);
      }
    case User(d, v) =>
  }

  lemma PopInv(mem: Mem, free: seq<nat>, own: Roles)
    requires Inv(mem, free, own) && free != []
    ensures free[0] in own && own[free[0]] == Free && Inv(mem, free[1..], own[free[0] := Taken])
  {
    var x := free[0];
    forall f | f in own ensures RoleOk(mem, own[x := Taken], f) {
      assert RoleOk(mem, own, f);
      HandRole(mem, own, x, Taken, f);
    }
    forall f | f in own && f != x && own[f] == Free ensures f in free[1..] {
      var k :| 0 <= k < |free| && free[k] == f;
      assert free[1..][k - 1] == f;
    }
  }

  lemma PushInv(mem: Mem, free: seq<nat>, own: Roles, x: nat)
    requires Inv(mem, free, own) && x in own && own[x] == Taken
    ensures Inv(mem, [x] + free, own[x := Free])
  {
    forall f | f in own ensures RoleOk(mem, own[x := Free], f) {
      assert RoleOk(mem, own, f);
      HandRole(mem, own, x, Free, f);
    }
    forall f | f in own && own[f] == Free ensures f in [x] + free {
      var k :| 0 <= k < |free| && free[k] == f;
      assert ([x] + free)[k + 1] == f;
    }
  }

  // ---------------------------------------------------------------- a new page table

  function WithEntry(mem: Mem, x: nat, k: nat, e: uint): Mem
    requires x < |mem| && k < NENTRIES
  {
    mem[x := mem[x][k := e]]
  }

  ghost predicate CanLink(mem: Mem, own: Roles, d: nat, i: nat, t: nat) {
    && Managed(mem, own) && d in own && own[d] == Dir && RoleOk(mem, own, d) && i < NENTRIES && !Present(mem[d][i])
    && t in own && own[t] == Taken && IsZero(mem[t])
  }

  /** An empty page table changes no mapping. */
  lemma LinkLookup(mem: Mem, own: Roles, d: nat, i: nat, t: nat, e: uint, d': nat, v: nat)
    requires CanLink(mem, own, d, i, t) && Present(e) && FrameOf(e) == t
    requires d' in own && own[d'] == Dir && RoleOk(mem, own, d') && v < NUSER
    ensures Lookup(WithEntry(mem, d, i, e), d', v) == Lookup(mem, d', v)
  {
    if Present(mem[d'][Pdx(v)]) { TableRole(mem, own, d', Pdx(v)); }
    assert !Present(0);
  }

  lemma LinkRole(mem: Mem, own: Roles, d: nat, i: nat, t: nat, e: uint, f: nat)
    requires CanLink(mem, own, d, i, t) && Present(e) && FrameOf(e) == t && FlagsOf(e) == USER_RW && f in own && RoleOk(mem, own, f)
    requires own[f].User? ==> own[f].d in own && RoleOk(mem, own, own[f].d)
    ensures RoleOk(WithEntry(mem, d, i, e), own[t := Table(d, i)], f)
  {
    var mem', own' := WithEntry(mem, d, i, e), own[t := Table(d, i)];
    if f == t {
      forall j | 0 <= j < NENTRIES ensures PteOk(mem', own', t, d, i, j) {
        assert mem'[t][j] == 0;
      }
    } else {
      match own[f]
      case Free =>
      case Taken =>
      case Dir =>
        forall i' | 0 <= i' < NENTRIES ensures PdeOk(mem', own', f, i') {
          assert PdeOk(mem, own, f, i');
        }
      case Table(d', i') =>
        forall j | 0 <= j < NENTRIES ensures PteOk(mem', own', f, d', i', j) {
          assert PteOk(mem, own, f, d', i', j);
        }
      case User(d', v) => LinkLookup(mem, own, d, i, t, e, d', v);
    }
  }

  lemma LinkInv(mem: Mem, free: seq<nat>, own: Roles, d: nat, i: nat, t: nat, e: uint)
    requires Inv(mem, free, own) && CanLink(mem, own, d, i, t) && Present(e) && FrameOf(e) == t && FlagsOf(e) == USER_RW
    ensures Inv(WithEntry(mem, d, i, e), free, own[t := Table(d, i)])
  {
    forall f | f in own ensures RoleOk(WithEntry(mem, d, i, e), own[t := Table(d, i)], f) {
      assert RoleOk(mem, own, f);
      if own[f].User? { assert RoleOk(mem, own, own[f].d); }
      LinkRole(mem, own, d, i, t, e, f);
    }
  }

  // ---------------------------------------------------------------- what mapping costs

  /** The entries of directory d that lead to a page table. */
  function Tables(mem: Mem, d: nat): set<nat> {
    if d < |mem| then PresentIn(mem[d]) else {}
  }

  function PresentIn(fr: Frame): set<nat> {
    set i: nat | i < NENTRIES && Present(fr[i])
  }

  lemma PresentMore(fr: Frame, i: nat, e: uint)
    requires i < NENTRIES && Present(e)
    ensures PresentIn(fr[i := e]) == PresentIn(fr) + {i}
  {
  }

  /** The frames that mapping page v takes, its own included, where these page tables are there. */
  function Cost(tables: set<nat>, v: nat): (r: nat)
    ensures 1 <= r <= 2
  {
    if Pdx(v) in tables then 1 else 2
  }

  /** The frames that mapping pages lo to hi takes, one after the other. */
  function Need(tables: set<nat>, lo: nat, hi: nat): nat
    decreases hi - lo
  {
    if lo >= hi then 0 else Cost(tables, lo) + Need(tables + {Pdx(lo)}, lo + 1, hi)
  }

  /** Of n0 free frames n are left with pages lo to q mapped. Kept folded. */
  ghost predicate Paid(n0: nat, tables0: set<nat>, lo: nat, hi: nat, n: nat, tables: set<nat>, q: nat) {
    forall x {:trigger Unfold(x)} :: Unfold(x) ==> q <= hi && n0 - n + Need(tables, q, hi) == Need(tables0, lo, hi)
  }

  lemma PaidStart(n: nat, tables: set<nat>, lo: nat, hi: nat)
    requires lo <= hi
    ensures Paid(n, tables, lo, hi, n, tables, lo)
  {
  }

  lemma PaidNext(n0: nat, tables0: set<nat>, lo: nat, hi: nat, n: nat, tables: set<nat>, q: nat, n': nat, tables': set<nat>, next: nat)
    requires Paid(n0, tables0, lo, hi, n, tables, q) && q < hi && next == q + 1
    requires tables' == tables + {Pdx(q)} && n' + Cost(tables, q) == n
    ensures Paid(n0, tables0, lo, hi, n', tables', next)
  {
    assert Unfold(0);
  }

  lemma PaidStuck(n0: nat, tables0: set<nat>, lo: nat, hi: nat, n: nat, tables: set<nat>, q: nat)
    requires Paid(n0, tables0, lo, hi, n, tables, q) && q < hi && n < Cost(tables, q)
    ensures n0 < Need(tables0, lo, hi)
  {
    assert Unfold(0);
  }

  lemma PaidEnd(n0: nat, tables0: set<nat>, lo: nat, hi: nat, n: nat, tables: set<nat>)
    requires Paid(n0, tables0, lo, hi, n, tables, hi)
    ensures n0 == n + Need(tables0, lo, hi)
  {
    assert Unfold(0);
  }

  /** The page tables that pages lo to hi lie in. */
  function Spans(lo: nat, hi: nat): set<nat> {
    set v | lo <= v < hi :: Pdx(v)
  }

  /** That is one frame for each page and one for each page table that is missing. */
  lemma {:induction false} NeedIs(tables: set<nat>, lo: nat, hi: nat)
    requires lo <= hi
    ensures Need(tables, lo, hi) == hi - lo + |Spans(lo, hi) - tables|
    decreases hi - lo
  {
    if lo < hi {
      NeedIs(tables + {Pdx(lo)}, lo + 1, hi);
      var rest := Spans(lo + 1, hi);
      assert Spans(lo, hi) == rest + {Pdx(lo)};
      if Pdx(lo) in tables {
        assert Spans(lo, hi) - tables == rest - (tables + {Pdx(lo)});
      } else {
        assert Spans(lo, hi) - tables == (rest - (tables + {Pdx(lo)})) + {Pdx(lo)};
      }
    } else {
      assert Spans(lo, hi) - tables == {};
    }
  }

  // ---------------------------------------------------------------- one user page

  /** t is the page table for page v of directory d. */
  ghost predicate TableFor(mem: Mem, own: Roles, d: nat, v: nat, t: nat) {
    && Managed(mem, own) && v < NUSER && d in own && own[d] == Dir && RoleOk(mem, own, d)
    && Present(mem[d][Pdx(v)]) && FrameOf(mem[d][Pdx(v)]) == t && t in own && own[t] == Table(d, Pdx(v)) && RoleOk(mem, own, t)
  }

  lemma PageIndex(v: nat, w: nat)
    ensures NENTRIES * Pdx(v) + Ptx(v) == v && (Pdx(v) == Pdx(w) && Ptx(v) == Ptx(w) ==> v == w)
  {
  }

  /** Writing the entry of page v changes the mapping of page v and no other, in any directory. */
  lemma EntryLookup(mem: Mem, own: Roles, d: nat, v: nat, t: nat, e: uint, d': nat, v': nat)
    requires TableFor(mem, own, d, v, t) && d' in own && own[d'] == Dir && RoleOk(mem, own, d') && v' < NUSER
    ensures Lookup(WithEntry(mem, t, Ptx(v), e), d', v')
            == if d' == d && v' == v then (if Present(e) then Some(e) else None) else Lookup(mem, d', v')
  {
    PageIndex(v, v');
    if Present(mem[d'][Pdx(v')]) { TableRole(mem, own, d', Pdx(v')); }
  }

  /** Page v of directory d gets frame x, or loses it; r is what x becomes. */
  ghost predicate CanSet(mem: Mem, own: Roles, d: nat, v: nat, t: nat, e: uint, x: nat, r: Role) {
    && TableFor(mem, own, d, v, t) && x in own
    && if Present(e) then FrameOf(e) == x && own[x] == Taken && r == User(d, v) && !Present(mem[t][Ptx(v)])
       else own[x] == User(d, v) && r == Taken
  }

  lemma SetRole(mem: Mem, own: Roles, d: nat, v: nat, t: nat, e: uint, x: nat, r: Role, f: nat)
    requires CanSet(mem, own, d, v, t, e, x, r) && RoleOk(mem, own, x) && f in own && RoleOk(mem, own, f)
    requires own[f].User? ==> own[f].d in own && RoleOk(mem, own, own[f].d)
    ensures RoleOk(WithEntry(mem, t, Ptx(v), e), own[x := r], f)
  {
    var mem', own' := WithEntry(mem, t, Ptx(v), e), own[x := r];
    PageIndex(v, v);
    if f == x {
      EntryLookup(mem, own, d, v, t, e, d, v);
    } else {
      match own[f]
      case Free =>
      case Taken =>
      case Dir =>
        forall i | 0 <= i < NENTRIES ensures PdeOk(mem', own', f, i) {
          assert PdeOk(mem, own, f, i);
        }
      case Table(d', i) =>
        forall j | 0 <= j < NENTRIES ensures PteOk(mem', own', f, d', i, j) {
          assert PteOk(mem, own, f, d', i, j);
          PageIndex(NENTRIES * i + j, v);
          IndexOf(i, j);
        }
      case User(d', v') =>
        EntryLookup(mem, own, d, v, t, e, d', v');
    }
  }

  lemma IndexOf(i: nat, j: nat)
    requires j < NENTRIES
    ensures Pdx(NENTRIES * i + j) == i && Ptx(NENTRIES * i + j) == j
  {
  }

  lemma SetInv(mem: Mem, free: seq<nat>, own: Roles, d: nat, v: nat, t: nat, e: uint, x: nat, r: Role)
    requires Inv(mem, free, own) && CanSet(mem, own, d, v, t, e, x, r)
    ensures Inv(WithEntry(mem, t, Ptx(v), e), free, own[x := r])
  {
    forall f | f in own ensures RoleOk(WithEntry(mem, t, Ptx(v), e), own[x := r], f) {
      assert RoleOk(mem, own, f);
      if own[f].User? { assert RoleOk(mem, own, own[f].d); }
      assert RoleOk(mem, own, x);
      SetRole(mem, own, d, v, t, e, x, r, f);
    }
  }

  // ---------------------------------------------------------------- what an operation leaves alone

  /** Frame f, a user page or one just handed out, is what it was. */
  ghost predicate KeepsPage(mem: Mem, own: Roles, mem': Mem, own': Roles, f: nat) {
    f in own && f in own' && f < |mem| && f < |mem'| && own'[f] == own[f] && mem'[f] == mem[f]
  }

  /** Page v of directory d' is mapped as it was. */
  ghost predicate KeepsMap(mem: Mem, mem': Mem, d': nat, v: nat) {
    Lookup(mem', d', v) == Lookup(mem, d', v)
  }

  ghost predicate Outside(own: Roles, f: nat, d: nat, lo: nat, hi: nat)
    requires f in own
  {
    own[f].Taken? || (own[f].User? && !(own[f].d == d && lo <= own[f].v < hi))
  }

  /** Nothing changed but pages lo to hi of directory d: no frame has come or gone, every directory is one
      still, every other page is mapped as it was, and every frame mapped there holds what it held. */
  ghost predicate Only(mem: Mem, own: Roles, mem': Mem, own': Roles, d: nat, lo: nat, hi: nat) {
    && |mem'| == |mem| && own'.Keys == own.Keys && (forall f :: f in own && own[f] == Dir ==> own'[f] == Dir)
    && (forall d', v {:trigger KeepsMap(mem, mem', d', v)} ::
          d' in own && own[d'] == Dir && 0 <= v < NUSER && !(d' == d && lo <= v < hi) ==> KeepsMap(mem, mem', d', v))
    && (forall f {:trigger KeepsPage(mem, own, mem', own', f)} :: f in own && Outside(own, f, d, lo, hi) ==> KeepsPage(mem, own, mem', own', f))
  }

  lemma OnlySame(mem: Mem, own: Roles, d: nat, lo: nat, hi: nat)
    requires Managed(mem, own)
    ensures Only(mem, own, mem, own, d, lo, hi)
  {
  }

  lemma OnlyTrans(m0: Mem, o0: Roles, m1: Mem, o1: Roles, m2: Mem, o2: Roles, d: nat, lo: nat, mid: nat, hi: nat, lo1: nat)
    requires Only(m0, o0, m1, o1, d, lo, mid) && Only(m1, o1, m2, o2, d, lo1, hi) && lo <= lo1 && mid <= hi
    ensures Only(m0, o0, m2, o2, d, lo, hi)
  {
    forall d', v | d' in o0 && o0[d'] == Dir && 0 <= v < NUSER && !(d' == d && lo <= v < hi) ensures KeepsMap(m0, m2, d', v) {
      assert KeepsMap(m0, m1, d', v) && KeepsMap(m1, m2, d', v);
    }
    forall f | f in o0 && Outside(o0, f, d, lo, hi) ensures KeepsPage(m0, o0, m2, o2, f) {
      assert KeepsPage(m0, o0, m1, o1, f) && KeepsPage(m1, o1, m2, o2, f);
    }
  }

  /** Writing frame x, which holds no page table and is handed out or about to be. */
  lemma FillOnly(mem: Mem, free: seq<nat>, own: Roles, x: nat, fr: Frame, r: Role, d: nat, lo: nat)
    requires Inv(mem, free, own) && x in own && own[x].Free? && r.Taken?
    ensures Only(mem, own, mem[x := fr], own[x := r], d, lo, lo)
  {
    var mem' := mem[x := fr];
    forall d', v | d' in own && own[d'] == Dir && 0 <= v < NUSER ensures KeepsMap(mem, mem', d', v) {
      assert RoleOk(mem, own, d');
      LookupKept(mem, own, x, fr, d', v);
    }
  }

  /** The same, with frame x left out of account: it was handed out for this. */
  ghost predicate OnlyBut(mem: Mem, own: Roles, mem': Mem, own': Roles, d: nat, lo: nat, hi: nat, x: nat) {
    && |mem'| == |mem| && own'.Keys == own.Keys && (forall f :: f in own && own[f] == Dir ==> own'[f] == Dir)
    && (forall d', v {:trigger KeepsMap(mem, mem', d', v)} ::
          d' in own && own[d'] == Dir && 0 <= v < NUSER && !(d' == d && lo <= v < hi) ==> KeepsMap(mem, mem', d', v))
    && (forall f {:trigger KeepsPage(mem, own, mem', own', f)} ::
          f in own && f != x && Outside(own, f, d, lo, hi) ==> KeepsPage(mem, own, mem', own', f))
  }

  /** A frame that was free before, handed out and then used, does not count as changed. */
  lemma OnlyThen(m0: Mem, o0: Roles, m1: Mem, o1: Roles, m2: Mem, o2: Roles, d: nat, lo: nat, mid: nat, hi: nat, x: nat)
    requires Only(m0, o0, m1, o1, d, lo, mid) && OnlyBut(m1, o1, m2, o2, d, lo, hi, x) && mid <= hi && x in o0 && o0[x].Free?
    ensures Only(m0, o0, m2, o2, d, lo, hi)
  {
    forall d', v | d' in o0 && o0[d'] == Dir && 0 <= v < NUSER && !(d' == d && lo <= v < hi) ensures KeepsMap(m0, m2, d', v) {
      assert KeepsMap(m0, m1, d', v) && KeepsMap(m1, m2, d', v);
    }
    forall f | f in o0 && Outside(o0, f, d, lo, hi) ensures KeepsPage(m0, o0, m2, o2, f) {
      assert KeepsPage(m0, o0, m1, o1, f) && KeepsPage(m1, o1, m2, o2, f);
    }
  }

  lemma LinkOnly(mem: Mem, free: seq<nat>, own: Roles, d: nat, i: nat, t: nat, e: uint, lo: nat)
    requires Inv(mem, free, own) && CanLink(mem, own, d, i, t) && Present(e) && FrameOf(e) == t
    ensures OnlyBut(mem, own, WithEntry(mem, d, i, e), own[t := Table(d, i)], d, lo, lo, t)
  {
    var mem' := WithEntry(mem, d, i, e);
    forall d', v | d' in own && own[d'] == Dir && 0 <= v < NUSER ensures KeepsMap(mem, mem', d', v) {
      assert RoleOk(mem, own, d');
      LinkLookup(mem, own, d, i, t, e, d', v);
    }
  }

  lemma SetOnly(mem: Mem, free: seq<nat>, own: Roles, d: nat, v: nat, next: nat, t: nat, e: uint, x: nat, r: Role)
    requires Inv(mem, free, own) && CanSet(mem, own, d, v, t, e, x, r) && next == v + 1
    ensures Lookup(WithEntry(mem, t, Ptx(v), e), d, v) == if Present(e) then Some(e) else None
    ensures OnlyBut(mem, own, WithEntry(mem, t, Ptx(v), e), own[x := r], d, v, next, x)
  {
    EntryLookup(mem, own, d, v, t, e, d, v);
    var mem' := WithEntry(mem, t, Ptx(v), e);
    forall d', v' | d' in own && own[d'] == Dir && 0 <= v' < NUSER && !(d' == d && v <= v' < next) ensures KeepsMap(mem, mem', d', v') {
      assert RoleOk(mem, own, d');
      EntryLookup(mem, own, d, v, t, e, d', v');
    }
  }

  // ---------------------------------------------------------------- giving pages back

  /** The frame of page v is unmapped, filled with junk and free. */
  lemma UnmapInv(mem: Mem, free: seq<nat>, own: Roles, d: nat, v: nat, next: nat, t: nat, x: nat, junk: Frame, mem': Mem)
    requires Inv(mem, free, own) && TableFor(mem, own, d, v, t) && Present(mem[t][Ptx(v)]) && x == FrameOf(mem[t][Ptx(v)]) && next == v + 1
    requires x < |mem| && mem' == WithEntry(mem[x := junk], t, Ptx(v), 0)
    ensures x in own && own[x] == User(d, v) && Inv(mem', [x] + free, own[x := Free])
    ensures Lookup(mem', d, v) == None && Only(mem, own, mem', own[x := Free], d, v, next)
  {
    assert PteOk(mem, own, t, d, Pdx(v), Ptx(v));
    PageIndex(v, v);
    assert CanSet(mem, own, d, v, t, 0, x, Taken);
    SetInv(mem, free, own, d, v, t, 0, x, Taken);
    SetOnly(mem, free, own, d, v, next, t, 0, x, Taken);
    var m1, o1 := WithEntry(mem, t, Ptx(v), 0), own[x := Taken];
    FillInv(m1, free, o1, x, junk);
    assert mem' == m1[x := junk];
    PushInv(mem', free, o1, x);
    assert o1[x := Free] == own[x := Free];
    UnmapOnly(mem, free, own, m1, o1, d, v, next, x, junk, mem');
  }

  lemma UnmapOnly(mem: Mem, free: seq<nat>, own: Roles, m1: Mem, o1: Roles, d: nat, v: nat, next: nat, x: nat, junk: Frame, mem': Mem)
    requires Inv(m1, free, o1) && x in own && own[x] == User(d, v) && o1 == own[x := Taken] && next == v + 1 && v < NUSER && d in own && own[d] == Dir
    requires OnlyBut(mem, own, m1, o1, d, v, next, x) && Lookup(m1, d, v) == None && mem' == m1[x := junk]
    ensures Lookup(mem', d, v) == None && Only(mem, own, mem', own[x := Free], d, v, next)
  {
    var o2 := own[x := Free];
    assert RoleOk(m1, o1, d);
    LookupKept(m1, o1, x, junk, d, v);
    forall d', v' | d' in own && own[d'] == Dir && 0 <= v' < NUSER && !(d' == d && v <= v' < next) ensures KeepsMap(mem, mem', d', v') {
      assert KeepsMap(mem, m1, d', v') && RoleOk(m1, o1, d');
      LookupKept(m1, o1, x, junk, d', v');
    }
    forall f | f in own && Outside(own, f, d, v, next) ensures KeepsPage(mem, own, mem', o2, f) {
      assert KeepsPage(mem, own, m1, o1, f);
    }
  }

  ghost predicate Unmapped(mem: Mem, d: nat, v: nat) {
    Lookup(mem, d, v) == None
  }

  /** The first of pages lo to hi that is mapped, or hi; and the first that is not. */
  function FirstMapped(mem: Mem, d: nat, lo: nat, hi: nat): (r: nat)
    requires lo <= hi
    ensures lo <= r <= hi && (r < hi ==> Lookup(mem, d, r).Some?) && forall v :: lo <= v < r ==> Lookup(mem, d, v) == None
    decreases hi - lo
  {
    if lo == hi || Lookup(mem, d, lo).Some? then lo else FirstMapped(mem, d, lo + 1, hi)
  }

  function FirstMissing(mem: Mem, d: nat, lo: nat, hi: nat): (r: nat)
    requires lo <= hi
    ensures lo <= r <= hi && (r < hi ==> Lookup(mem, d, r) == None) && forall v :: lo <= v < r ==> Lookup(mem, d, v).Some?
    decreases hi - lo
  {
    if lo == hi || Lookup(mem, d, lo) == None then lo else FirstMissing(mem, d, lo + 1, hi)
  }

  /** The roles once pages lo to hi of directory d are given back: their frames are free, and no others. */
  ghost function Released(own: Roles, d: nat, lo: nat, hi: nat): Roles {
    map f | f in own :: if own[f].User? && own[f].d == d && lo <= own[f].v < hi then Free else own[f]
  }

  /** Pages lo to hi of directory d are gone, their frames are free, and nothing else has changed. */
  ghost predicate Cleared(m0: Mem, o0: Roles, m: Mem, o: Roles, d: nat, lo: nat, hi: nat) {
    && Only(m0, o0, m, o, d, lo, hi) && o == Released(o0, d, lo, hi)
    && forall v {:trigger Unmapped(m, d, v)} :: lo <= v < hi ==> Unmapped(m, d, v)
  }

  lemma ClearedNone(m: Mem, o: Roles, d: nat, lo: nat)
    requires Managed(m, o)
    ensures Cleared(m, o, m, o, d, lo, lo)
  {
    assert Released(o, d, lo, lo) == o;
  }

  /** Pages that are not mapped need no work. */
  lemma ClearedMore(m0: Mem, o0: Roles, m: Mem, free: seq<nat>, o: Roles, d: nat, lo: nat, q: nat, q': nat)
    requires Cleared(m0, o0, m, o, d, lo, q) && Inv(m, free, o) && lo <= q <= q' <= NUSER && d in o && o[d] == Dir
    requires forall v {:trigger Unmapped(m, d, v)} :: q <= v < q' ==> Unmapped(m, d, v)
    ensures Cleared(m0, o0, m, o, d, lo, q')
  {
    OnlySame(m, o, d, q, q');
    OnlyTrans(m0, o0, m, o, m, o, d, lo, q, q', q);
    forall f | f in o0 ensures Released(o0, d, lo, q)[f] == Released(o0, d, lo, q')[f] {
      assert RoleOk(m, o, f) && (o[f].User? ==> !Unmapped(m, o[f].d, o[f].v));
    }
  }

  lemma ClearedPage(m0: Mem, o0: Roles, m: Mem, free: seq<nat>, o: Roles, m': Mem, d: nat, lo: nat, v: nat, next: nat, x: nat)
    requires Cleared(m0, o0, m, o, d, lo, v) && Inv(m, free, o) && lo <= v < NUSER && next == v + 1
    requires x in o && o[x] == User(d, v) && Only(m, o, m', o[x := Free], d, v, next) && Lookup(m', d, v) == None && d in o && o[d] == Dir
    ensures Cleared(m0, o0, m', o[x := Free], d, lo, next)
  {
    var o' := o[x := Free];
    OnlyTrans(m0, o0, m, o, m', o', d, lo, v, next, v);
    forall w | lo <= w < next ensures Unmapped(m', d, w) {
      if w < v { assert Unmapped(m, d, w) && KeepsMap(m, m', d, w); }
    }
    forall f | f in o0 ensures o'[f] == Released(o0, d, lo, next)[f] {
      assert RoleOk(m, o, x) && RoleOk(m, o, f);
    }
  }

  // ---------------------------------------------------------------- growing

  /** Page v is mapped, writable, to a zeroed frame that was free before. */
  ghost predicate FreshPage(o0: Roles, m: Mem, o: Roles, d: nat, v: nat) {
    var e := Lookup(m, d, v);
    && e.Some? && FlagsOf(e.value) == 7 && FrameOf(e.value) < |m| && IsZero(m[FrameOf(e.value)])
    && FrameOf(e.value) in o0 && o0[FrameOf(e.value)] == Free && FrameOf(e.value) in o && o[FrameOf(e.value)] == User(d, v)
  }

  /** A frame of directory d: the directory itself, a page table, or a user page from lo to hi. */
  predicate PartOf(r: Role, f: nat, d: nat, lo: nat, hi: nat) {
    (r.Table? && r.d == d) || (r.User? && r.d == d && lo <= r.v < hi) || (r.Dir? && f == d)
  }

  /** Frames are accounted for: each is used as it was, or it was free and is now a part of directory d. */
  ghost predicate Takes(own: Roles, own': Roles, d: nat, lo: nat, hi: nat) {
    own'.Keys == own.Keys && forall f {:trigger TakenFor(own, own', d, lo, hi, f)} :: f in own ==> TakenFor(own, own', d, lo, hi, f)
  }

  ghost predicate TakenFor(own: Roles, own': Roles, d: nat, lo: nat, hi: nat, f: nat) {
    f in own && f in own' && (own'[f] == own[f] || (own[f] == Free && PartOf(own'[f], f, d, lo, hi)))
  }

  lemma TakesSelf(own: Roles, d: nat, lo: nat, hi: nat)
    ensures Takes(own, own, d, lo, hi)
  {
  }

  lemma TakesTrans(o0: Roles, o1: Roles, o2: Roles, d: nat, lo: nat, mid: nat, lo1: nat, hi: nat)
    requires Takes(o0, o1, d, lo, mid) && Takes(o1, o2, d, lo1, hi) && lo <= lo1 && mid <= hi
    ensures Takes(o0, o2, d, lo, hi)
  {
    forall f | f in o0 ensures TakenFor(o0, o2, d, lo, hi, f) {
      assert TakenFor(o0, o1, d, lo, mid, f) && TakenFor(o1, o2, d, lo1, hi, f);
    }
  }

  lemma TakesOne(own: Roles, x: nat, r: Role, d: nat, lo: nat, hi: nat)
    requires x in own && own[x] == Free && PartOf(r, x, d, lo, hi)
    ensures Takes(own, own[x := r], d, lo, hi)
  {
    forall f | f in own ensures TakenFor(own, own[x := r], d, lo, hi, f) {
    }
  }

  /** A page is handed out, page tables are made for it, and it is mapped. */
  lemma TakesPage(o0: Roles, o2: Roles, x: nat, d: nat, v: nat, next: nat)
    requires x in o0 && o0[x] == Free && x in o2 && o2[x] == User(d, v) && next == v + 1
    requires Takes(o0[x := Taken], o2[x := Taken], d, v, v)
    ensures Takes(o0, o2, d, v, next)
  {
    assert o0[x := Taken].Keys == o0.Keys && o2[x := Taken].Keys == o2.Keys;
    forall f | f in o0 ensures TakenFor(o0, o2, d, v, next, f) {
      assert TakenFor(o0[x := Taken], o2[x := Taken], d, v, v, f);
    }
  }

  /** A directory that was taken from free frames, all given back. */
  lemma AllFreedBack(m0: Mem, free: seq<nat>, o0: Roles, o1: Roles, d: nat, lo: nat, hi: nat)
    requires Inv(m0, free, o0) && d in o0 && o0[d] == Free && Takes(o0, o1, d, lo, hi)
    ensures AllFreed(o1, d) == o0
  {
    forall f | f in o0 ensures AllFreed(o1, d)[f] == o0[f] {
      assert TakenFor(o0, o1, d, lo, hi, f) && RoleOk(m0, o0, f);
    }
  }

  /** The same with one frame handed out besides. */
  lemma AllFreedBut(m0: Mem, free: seq<nat>, o0: Roles, o1: Roles, d: nat, lo: nat, hi: nat, x: nat)
    requires Inv(m0, free, o0) && d in o0 && o0[d] == Free && Takes(o0, o1, d, lo, hi) && x in o1 && o1[x] == Free && x != d
    ensures AllFreed(o1[x := Taken], d) == o0[x := Taken] && x in o0 && o0[x] == Free
  {
    assert TakenFor(o0, o1, d, lo, hi, x);
    forall f | f in o0 ensures AllFreed(o1[x := Taken], d)[f] == o0[x := Taken][f] {
      assert TakenFor(o0, o1, d, lo, hi, f) && RoleOk(m0, o0, f);
    }
  }

  /** A growth that is undone: the pages are free again, and the page in hand. */
  lemma UndoneTakes(m0: Mem, free: seq<nat>, o0: Roles, o1: Roles, o2: Roles, d: nat, lo: nat, v: nat, hi: nat)
    requires Inv(m0, free, o0) && Takes(o0, o1, d, lo, v) && v <= hi <= NUSER && o2 == Released(o1, d, lo, hi)
    requires forall w {:trigger Unmapped(m0, d, w)} :: lo <= w < hi ==> Unmapped(m0, d, w)
    ensures Takes(o0, o2, d, lo, lo)
  {
    forall f | f in o0 ensures TakenFor(o0, o2, d, lo, lo, f) {
      assert TakenFor(o0, o1, d, lo, v, f) && RoleOk(m0, o0, f);
      assert o0[f].User? ==> !Unmapped(m0, o0[f].d, o0[f].v);
    }
  }

  // ---------------------------------------------------------------- counting frames

  ghost function FreeSet(own: Roles): set<nat> {
    set f | f in own && own[f] == Free
  }

  lemma {:induction false} DistinctSize(s: seq<nat>, t: set<nat>)
    requires (forall j, k :: 0 <= j < k < |s| ==> s[j] != s[k]) && forall x :: x in t <==> x in s
    ensures |s| == |t|
  {
    if s == [] {
      assert t == {};
    } else {
      DistinctSize(s[1..], t - {s[0]});
    }
  }

  /** The free list is as long as there are free frames. */
  lemma FreeSize(free: seq<nat>, own: Roles)
    requires FreeOk(free, own)
    ensures |free| == |FreeSet(own)|
  {
    DistinctSize(free, FreeSet(own));
  }

  /** Two sets of one size, by a one-to-one map from the first onto the second. */
  lemma {:induction false} SameSize(s: set<nat>, t: set<nat>, m: map<nat, nat>)
    requires m.Keys == s && (forall x, y :: x in s && y in s && x != y ==> m[x] != m[y])
    requires forall z :: z in t <==> exists x :: x in s && m[x] == z
    ensures |s| == |t|
  {
    if s == {} {
      assert t == {};
    } else {
      var x :| x in s;
      var s', t', m' := s - {x}, t - {m[x]}, m - {x};
      forall z ensures z in t' <==> exists y :: y in s' && m'[y] == z {
        if z in t' {
          var y :| y in s && m[y] == z;
          assert y in s' && m'[y] == z;
        }
      }
      SameSize(s', t', m');
    }
  }

  /** The page tables of d are the frames that its directory entries lead to. */
  ghost function TableFrames(own: Roles, d: nat): set<nat> {
    set f | f in own && own[f].Table? && own[f].d == d
  }

  lemma TableCount(mem: Mem, free: seq<nat>, own: Roles, d: nat)
    requires Inv(mem, free, own) && d in own && own[d] == Dir
    ensures |TableFrames(own, d)| == |Tables(mem, d)|
  {
    var s := TableFrames(own, d);
    var m := map f | f in s :: own[f].i;
    forall f | f in s ensures m[f] in Tables(mem, d) && FrameOf(mem[d][m[f]]) == f {
      assert RoleOk(mem, own, f);
    }
    forall i | i in Tables(mem, d) ensures exists f :: f in s && m[f] == i {
      assert RoleOk(mem, own, d) && PdeOk(mem, own, d, i);
      assert FrameOf(mem[d][i]) in s && m[FrameOf(mem[d][i])] == i;
    }
    SameSize(s, Tables(mem, d), m);
  }

  /** Conservation: free frames and page tables of d together are as many as before. */
  lemma Conserved(m0: Mem, f0: seq<nat>, o0: Roles, m: Mem, f: seq<nat>, o: Roles, d: nat, lo: nat)
    requires Inv(m0, f0, o0) && Inv(m, f, o) && Takes(o0, o, d, lo, lo) && d in o0 && o0[d] == Dir && d in o && o[d] == Dir
    ensures |f| + |Tables(m, d)| == |f0| + |Tables(m0, d)|
  {
    FreeSize(f0, o0);
    FreeSize(f, o);
    TableCount(m0, f0, o0, d);
    TableCount(m, f, o, d);
    forall x ensures x in FreeSet(o0) + TableFrames(o0, d) <==> x in FreeSet(o) + TableFrames(o, d) {
      if x in o0 { assert TakenFor(o0, o, d, lo, lo, x); }
    }
    assert FreeSet(o0) + TableFrames(o0, d) == FreeSet(o) + TableFrames(o, d);
    assert FreeSet(o0) !! TableFrames(o0, d) && FreeSet(o) !! TableFrames(o, d);
  }

  // ---------------------------------------------------------------- the kernel's half

  const KERNBASE: nat := 0x8000_0000
  const EXTMEM: nat := 0x10_0000
  const KERNLINK: nat := KERNBASE + EXTMEM
  const PHYSTOP: nat := 0xE00_0000
  const DEVSPACE: nat := 0xFE00_0000
  const PTE_P: nat := 1
  const PTE_W: nat := 2

  /** struct kmap: a range of virtual addresses, the physical addresses it stands for, and its permissions. */
  datatype Row = Row(virt: nat, physStart: nat, physEnd: nat, perm: nat)

  /** The page where the linker puts the kernel's data: after its text, and below the top of memory. */
  type DataPage = p: nat | KERNLINK < PGSIZE * p < KERNBASE + PHYSTOP witness 0x8_0101

  function V2P(a: nat): nat
    requires a >= KERNBASE
  {
    a - KERNBASE
  }

  function Kmap(data: DataPage): (r: seq<Row>)
    ensures |r| == 4
  {
    [Row(KERNBASE, 0, EXTMEM, PTE_W),                                       // I/O space
     Row(KERNLINK, V2P(KERNLINK), V2P(PGSIZE * data), 0),                   // kernel text and read-only data
     Row(PGSIZE * data, V2P(PGSIZE * data), PHYSTOP, PTE_W),                // kernel data and memory
     Row(DEVSPACE, DEVSPACE, 0, PTE_W)]                                     // devices
  }

  /** Page v lies in the row, whose size is phys_end - phys_start in 32 bits. */
  predicate InRow(row: Row, v: nat) {
    row.virt <= PGSIZE * v < row.virt + (row.physEnd - row.physStart) % 0x1_0000_0000
  }

  predicate InKmap(data: DataPage, v: nat) {
    exists k :: 0 <= k < 4 && InRow(Kmap(data)[k], v)
  }

  /** Page v leads to the physical address at its offset in the row, with the row's permissions. */
  ghost predicate RowMapped(mem: Mem, d: nat, row: Row, v: nat) {
    v < NENTRIES * NENTRIES &&
    var e := Walk(mem, d, v);
    && e.Some? && PGSIZE * FrameOf(e.value) == row.physStart + (PGSIZE * v - row.virt)
    && FlagsOf(e.value) == PTE_P + row.perm
  }

  /** Directory d maps every page of kmap's rows as they say, and no other page of the kernel's half. */
  ghost predicate HasKmap(mem: Mem, d: nat, data: DataPage) {
    && d < |mem|
    && (forall k, v {:trigger RowMapped(mem, d, Kmap(data)[k], v)} :: 0 <= k < 4 && InRow(Kmap(data)[k], v) ==> RowMapped(mem, d, Kmap(data)[k], v))
    && (forall v {:trigger InKmap(data, v)} :: NUSER <= v < NENTRIES * NENTRIES && !InKmap(data, v) ==> !Present(mem[d][Pdx(v)]))
  }

  /** The directory entries that kmap needs: KERNBASE to KERNBASE + PHYSTOP, and DEVSPACE to the top. */
  predicate IsKernel(i: nat) {
    NUSERDIRS <= i < 568 || 1016 <= i < NENTRIES
  }

  const NKERNEL: nat := 64

  function KernelDirs(n: nat): set<nat> {
    set i: nat | i < n && IsKernel(i)
  }

  /** How many of them lie below n. */
  function KernelBelow(n: nat): nat {
    if n <= NUSERDIRS then 0 else if n <= 568 then n - NUSERDIRS else if n <= 1016 then 56 else if n <= NENTRIES then n - 960 else NKERNEL
  }

  lemma KernelNext(n: nat, next: nat)
    requires next == n + 1
    ensures KernelDirs(next) == if IsKernel(n) then KernelDirs(n) + {n} else KernelDirs(n)
    ensures KernelBelow(next) == KernelBelow(n) + if IsKernel(n) then 1 else 0
  {
  }

  /** The entry of kernel page v: kmap's four ranges, with `data` the page where the kernel's data begin. */
  function KernelPte(data: nat, v: nat): uint
    requires v < 0x10_0000
  {
    var pa := if NUSER <= v < 0xFE000 then v - NUSER else v;
    Entry(pa, if NUSER + 0x100 <= v < data then 1 else 3)
  }

  function KernelEntries(data: nat, i: nat, n: nat): (r: seq<uint>)
    requires i < NENTRIES && n <= NENTRIES
    ensures |r| == n && forall j :: 0 <= j < n ==> r[j] == KernelPte(data, NENTRIES * i + j)
  {
    if n == 0 then [] else KernelEntries(data, i, n - 1) + [KernelPte(data, NENTRIES * i + n - 1)]
  }

  function KernelTable(data: nat, i: nat): (fr: Frame)
    requires i < NENTRIES
  {
    KernelEntries(data, i, NENTRIES)
  }

  /** Page table i of d is as kmap says. */
  ghost predicate KernelAt(mem: Mem, own: Roles, d: nat, data: nat, i: nat) {
    && d < |mem| && i < NENTRIES && Present(mem[d][i]) && FrameOf(mem[d][i]) < |mem|
    && mem[FrameOf(mem[d][i])] == KernelTable(data, i) && FrameOf(mem[d][i]) in own && own[FrameOf(mem[d][i])] == Table(d, i)
  }

  ghost predicate KernelMapped(mem: Mem, own: Roles, d: nat, data: nat, n: nat) {
    forall i {:trigger KernelAt(mem, own, d, data, i)} :: 0 <= i < n && IsKernel(i) ==> KernelAt(mem, own, d, data, i)
  }

  /** What IsKernel and KernelPte say is what kmap says. */
  lemma RowEntry(data: DataPage, k: nat, v: nat)
    requires k < 4 && InRow(Kmap(data)[k], v)
    ensures v < NENTRIES * NENTRIES && IsKernel(Pdx(v))
    ensures PGSIZE * FrameOf(KernelPte(data, v)) == Kmap(data)[k].physStart + (PGSIZE * v - Kmap(data)[k].virt)
    ensures FlagsOf(KernelPte(data, v)) == PTE_P + Kmap(data)[k].perm
  {
  }

  lemma RowOf(data: DataPage, v: nat)
    requires NUSER <= v < NENTRIES * NENTRIES
    ensures IsKernel(Pdx(v)) ==> InKmap(data, v)
  {
    var k := if v < 0x8_0100 then 0 else if v < data then 1 else if v < 0x8_E000 then 2 else 3;
    assert IsKernel(Pdx(v)) ==> InRow(Kmap(data)[k], v);
  }

  lemma RowFound(mem: Mem, own: Roles, d: nat, data: DataPage, k: nat, v: nat)
    requires k < 4 && InRow(Kmap(data)[k], v) && d < |mem| && KernelMapped(mem, own, d, data, NENTRIES)
    ensures RowMapped(mem, d, Kmap(data)[k], v)
  {
    RowEntry(data, k, v);
    var i, j := Pdx(v), Ptx(v);
    assert KernelAt(mem, own, d, data, i);
    assert KernelTable(data, i)[j] == KernelPte(data, v);
  }

  // ---------------------------------------------------------------- the kernel's half, kept

  /** The kernel's half of directory d is complete: kmap's page tables, each as kmap says, and no others. */
  ghost predicate KernelOk(mem: Mem, own: Roles, d: nat, data: DataPage) {
    && d in own && own[d] == Dir && d < |mem| && KernelMapped(mem, own, d, data, NENTRIES)
    && forall i :: NUSERDIRS <= i < NENTRIES && !IsKernel(i) ==> !Present(mem[d][i])
  }

  ghost predicate Kernels(mem: Mem, own: Roles, dirs: set<nat>, data: DataPage) {
    forall d {:trigger KernelOk(mem, own, d, data)} :: d in dirs ==> KernelOk(mem, own, d, data)
  }

  lemma KernelOkIs(mem: Mem, own: Roles, d: nat, data: DataPage)
    requires d in own && own[d] == Dir && d < |mem| && KernelMapped(mem, own, d, data, NENTRIES) && Tables(mem, d) == KernelDirs(NENTRIES)
    ensures KernelOk(mem, own, d, data)
  {
    forall i | NUSERDIRS <= i < NENTRIES && !IsKernel(i) ensures !Present(mem[d][i]) {
      assert i !in Tables(mem, d);
    }
  }

  lemma NotComplete(mem: Mem, own: Roles, d: nat, dirs: set<nat>, data: DataPage)
    requires Kernels(mem, own, dirs, data) && d in own && own[d] != Dir
    ensures d !in dirs
  {
    assert d in dirs ==> KernelOk(mem, own, d, data);
  }

  /** Frame f is what it was, if it is part of the kernel's half of one of these directories. */
  ghost predicate KernelSame(mem: Mem, own: Roles, mem': Mem, own': Roles, dirs: set<nat>, f: nat)
    requires f in own
  {
    && (own[f] == Dir && f in dirs ==>
          f < |mem| && f < |mem'| && f in own' && own'[f] == Dir && forall i :: NUSERDIRS <= i < NENTRIES ==> mem'[f][i] == mem[f][i])
    && (own[f].Table? && own[f].d in dirs && own[f].i >= NUSERDIRS ==>
          f < |mem| && f < |mem'| && f in own' && own'[f] == own[f] && mem'[f] == mem[f])
  }

  lemma KernelsKeep(mem: Mem, own: Roles, mem': Mem, own': Roles, dirs: set<nat>, data: DataPage)
    requires Kernels(mem, own, dirs, data) && |mem'| == |mem|
    requires forall f {:trigger KernelSame(mem, own, mem', own', dirs, f)} :: f in own ==> KernelSame(mem, own, mem', own', dirs, f)
    ensures Kernels(mem', own', dirs, data)
  {
    forall d | d in dirs ensures KernelOk(mem', own', d, data) {
      assert KernelOk(mem, own, d, data) && KernelSame(mem, own, mem', own', dirs, d);
      forall i | 0 <= i < NENTRIES && IsKernel(i) ensures KernelAt(mem', own', d, data, i) {
        assert KernelAt(mem, own, d, data, i) && KernelSame(mem, own, mem', own', dirs, FrameOf(mem[d][i]));
      }
    }
  }

  lemma KernelsFill(mem: Mem, own: Roles, x: nat, fr: Frame, dirs: set<nat>, data: DataPage)
    requires Kernels(mem, own, dirs, data) && Managed(mem, own) && x in own && own[x] != Dir && (own[x].Table? ==> own[x].d !in dirs)
    ensures Kernels(mem[x := fr], own, dirs, data)
  {
    forall f | f in own ensures KernelSame(mem, own, mem[x := fr], own, dirs, f) {
    }
    KernelsKeep(mem, own, mem[x := fr], own, dirs, data);
  }

  lemma KernelsWrite(mem: Mem, own: Roles, t: nat, k: nat, e: uint, dirs: set<nat>, data: DataPage)
    requires Kernels(mem, own, dirs, data) && Managed(mem, own) && t in own && k < NENTRIES
    requires if own[t] == Dir then t !in dirs || k < NUSERDIRS else own[t].Table? ==> own[t].d !in dirs || own[t].i < NUSERDIRS
    ensures Kernels(WithEntry(mem, t, k, e), own, dirs, data)
  {
    var mem' := WithEntry(mem, t, k, e);
    forall f | f in own ensures KernelSame(mem, own, mem', own, dirs, f) {
    }
    KernelsKeep(mem, own, mem', own, dirs, data);
  }

  lemma KernelsHand(mem: Mem, own: Roles, x: nat, r: Role, dirs: set<nat>, data: DataPage)
    requires Kernels(mem, own, dirs, data) && Managed(mem, own) && x in own && own[x] != Dir && !own[x].Table?
    ensures Kernels(mem, own[x := r], dirs, data)
  {
    forall f | f in own ensures KernelSame(mem, own, mem, own[x := r], dirs, f) {
    }
    KernelsKeep(mem, own, mem, own[x := r], dirs, data);
  }

  lemma KernelsDismantled(mem: Mem, own: Roles, d: nat, dirs: set<nat>, data: DataPage)
    requires Kernels(mem, own, dirs, data) && Managed(mem, own) && d in own && own[d] == Dir && d !in dirs
    ensures Kernels(mem, Dismantled(own, d, 0), dirs, data)
  {
    var own' := Dismantled(own, d, 0);
    forall f | f in own ensures KernelSame(mem, own, mem, own', dirs, f) {
    }
    KernelsKeep(mem, own, mem, own', dirs, data);
  }

  /** So every complete directory maps the kernel as kmap says. */
  lemma KernelOkMeans(mem: Mem, own: Roles, d: nat, data: DataPage)
    requires KernelOk(mem, own, d, data)
    ensures HasKmap(mem, d, data)
  {
    forall k, v | 0 <= k < 4 && 0 <= v && InRow(Kmap(data)[k], v) ensures RowMapped(mem, d, Kmap(data)[k], v) {
      RowFound(mem, own, d, data, k, v);
    }
    forall v | NUSER <= v < NENTRIES * NENTRIES && !InKmap(data, v) ensures !Present(mem[d][Pdx(v)]) {
      RowOf(data, v);
    }
  }

  /** Page tables of the kernel's half may hold anything: no user page is looked up in them. */
  lemma KernelWrite(mem: Mem, free: seq<nat>, own: Roles, d: nat, i: nat, t: nat, fr: Frame, lo: nat)
    requires Inv(mem, free, own) && t in own && own[t] == Table(d, i) && NUSERDIRS <= i
    ensures Inv(mem[t := fr], free, own) && Tables(mem[t := fr], d) == Tables(mem, d) && Only(mem, own, mem[t := fr], own, d, lo, lo)
  {
    var mem' := mem[t := fr];
    assert RoleOk(mem, own, t);
    forall d', v | d' in own && own[d'] == Dir && 0 <= v < NUSER ensures KeepsMap(mem, mem', d', v) {
      KernelLookup(mem, own, d, i, t, fr, d', v);
    }
    forall f | f in own ensures RoleOk(mem', own, f) {
      assert RoleOk(mem, own, f);
      if own[f].User? { assert RoleOk(mem, own, own[f].d); }
      KernelRole(mem, own, d, i, t, fr, f);
    }
  }

  lemma KernelLookup(mem: Mem, own: Roles, d: nat, i: nat, t: nat, fr: Frame, d': nat, v: nat)
    requires Managed(mem, own) && t in own && own[t] == Table(d, i) && NUSERDIRS <= i && d' in own && own[d'] == Dir && v < NUSER && RoleOk(mem, own, d')
    ensures Lookup(mem[t := fr], d', v) == Lookup(mem, d', v)
  {
    if Present(mem[d'][Pdx(v)]) { TableRole(mem, own, d', Pdx(v)); }
  }

  lemma KernelRole(mem: Mem, own: Roles, d: nat, i: nat, t: nat, fr: Frame, f: nat)
    requires Managed(mem, own) && t in own && own[t] == Table(d, i) && NUSERDIRS <= i && f in own && RoleOk(mem, own, f)
    requires own[f].User? ==> own[f].d in own && RoleOk(mem, own, own[f].d)
    ensures RoleOk(mem[t := fr], own, f)
  {
    var mem' := mem[t := fr];
    match own[f]
    case Free =>
    case Taken =>
    case Dir =>
      forall k | 0 <= k < NENTRIES ensures PdeOk(mem', own, f, k) {
        assert PdeOk(mem, own, f, k);
      }
    case Table(d', i') =>
      forall j | 0 <= j < NENTRIES ensures PteOk(mem', own, f, d', i', j) {
        assert PteOk(mem, own, f, d', i', j);
      }
    case User(d', v) => KernelLookup(mem, own, d, i, t, fr, d', v);
  }

  /** Pages lo to hi of directory d are fresh, and nothing else has changed. */
  ghost predicate Grown(m0: Mem, o0: Roles, m: Mem, o: Roles, d: nat, lo: nat, hi: nat) {
    && Only(m0, o0, m, o, d, lo, hi) && Takes(o0, o, d, lo, hi)
    && forall v {:trigger FreshPage(o0, m, o, d, v)} :: lo <= v < hi ==> FreshPage(o0, m, o, d, v)
  }

  lemma GrownMore(m0: Mem, o0: Roles, m: Mem, free: seq<nat>, o: Roles, m': Mem, o': Roles, d: nat, lo: nat, v: nat, next: nat)
    requires Grown(m0, o0, m, o, d, lo, v) && Grown(m, o, m', o', d, v, next) && lo <= v <= next <= NUSER && next == v + 1
    requires Inv(m, free, o) && d in o && o[d] == Dir
    ensures Grown(m0, o0, m', o', d, lo, next)
  {
    OnlyTrans(m0, o0, m, o, m', o', d, lo, v, next, v);
    TakesTrans(o0, o, o', d, lo, v, v, next);
    forall w | lo <= w < next ensures FreshPage(o0, m', o', d, w) {
      if w < v {
        assert FreshPage(o0, m, o, d, w) && KeepsMap(m, m', d, w);
        var f := FrameOf(Lookup(m, d, w).value);
        assert KeepsPage(m, o, m', o', f);
      } else {
        assert FreshPage(o, m', o', d, v);
        assert TakenFor(o0, o, d, lo, v, FrameOf(Lookup(m', d, v).value));
      }
    }
  }

  /** A failed growth that is undone leaves the user map as it was. */
  lemma Restored(m0: Mem, free: seq<nat>, o0: Roles, m: Mem, o: Roles, d: nat, lo: nat, hi: nat)
    requires Inv(m0, free, o0) && Only(m0, o0, m, o, d, lo, hi) && hi <= NUSER
    requires forall v {:trigger Unmapped(m0, d, v)} :: lo <= v < hi ==> Unmapped(m0, d, v)
    requires forall v {:trigger Unmapped(m, d, v)} :: lo <= v < hi ==> Unmapped(m, d, v)
    ensures Only(m0, o0, m, o, d, lo, lo)
  {
    forall d', v | d' in o0 && o0[d'] == Dir && 0 <= v < NUSER ensures KeepsMap(m0, m, d', v) {
      if d' == d && lo <= v < hi { assert Unmapped(m0, d, v) && Unmapped(m, d, v); }
    }
    forall f | f in o0 && Outside(o0, f, d, lo, lo) ensures KeepsPage(m0, o0, m, o, f) {
      assert RoleOk(m0, o0, f) && (o0[f].User? ==> !Unmapped(m0, o0[f].d, o0[f].v));
    }
  }

  /** kfree of a frame that is handed out. */
  lemma FreeOnly(mem: Mem, free: seq<nat>, own: Roles, x: nat, junk: Frame, d: nat, lo: nat)
    requires Inv(mem, free, own) && x in own && own[x] == Taken
    ensures OnlyBut(mem, own, mem[x := junk], own[x := Free], d, lo, lo, x)
  {
    var mem' := mem[x := junk];
    forall d', v | d' in own && own[d'] == Dir && 0 <= v < NUSER ensures KeepsMap(mem, mem', d', v) {
      assert RoleOk(mem, own, d');
      LookupKept(mem, own, x, junk, d', v);
    }
  }

  // ---------------------------------------------------------------- a whole address space given back

  /** Every directory but d maps what it mapped, to pages that hold what they held. */
  ghost predicate OthersKept(m0: Mem, o0: Roles, m: Mem, o: Roles, d: nat) {
    && |m| == |m0| && o.Keys == o0.Keys && (forall d' :: d' in o0 && o0[d'] == Dir && d' != d ==> o[d'] == Dir)
    && (forall d', v {:trigger KeepsMap(m0, m, d', v)} :: d' in o0 && o0[d'] == Dir && d' != d && 0 <= v < NUSER ==> KeepsMap(m0, m, d', v))
    && (forall f {:trigger KeepsPage(m0, o0, m, o, f)} :: f in o0 && o0[f].User? && o0[f].d != d ==> KeepsPage(m0, o0, m, o, f))
  }

  lemma OnlyIsOthers(m0: Mem, o0: Roles, m: Mem, o: Roles, d: nat, lo: nat, hi: nat)
    requires Only(m0, o0, m, o, d, lo, hi)
    ensures OthersKept(m0, o0, m, o, d)
  {
    forall d', v | d' in o0 && o0[d'] == Dir && d' != d && 0 <= v < NUSER ensures KeepsMap(m0, m, d', v) {
    }
    forall f | f in o0 && o0[f].User? && o0[f].d != d ensures KeepsPage(m0, o0, m, o, f) {
    }
  }

  /** The roles while freevm runs, before it reaches table n: d and its remaining tables are no page tables
      any more. */
  ghost function Dismantled(own: Roles, d: nat, n: nat): Roles {
    map f | f in own :: if f == d then Taken
                        else if own[f].Table? && own[f].d == d then (if own[f].i < n then Free else Taken)
                        else own[f]
  }

  ghost predicate NoUsers(own: Roles, d: nat) {
    forall f :: f in own && own[f].User? ==> own[f].d != d
  }

  lemma DismantledRole(mem: Mem, own: Roles, d: nat, f: nat)
    requires f in own && RoleOk(mem, own, f) && d in own && own[d] == Dir && NoUsers(own, d)
    ensures RoleOk(mem, Dismantled(own, d, 0), f)
  {
    var own' := Dismantled(own, d, 0);
    match own'[f]
    case Free =>
    case Taken =>
    case Dir =>
      forall i | 0 <= i < NENTRIES ensures PdeOk(mem, own', f, i) {
        assert PdeOk(mem, own, f, i);
      }
    case Table(d', i) =>
      forall j | 0 <= j < NENTRIES ensures PteOk(mem, own', f, d', i, j) {
        assert PteOk(mem, own, f, d', i, j);
      }
    case User(d', v) =>
  }

  lemma DismantledInv(mem: Mem, free: seq<nat>, own: Roles, d: nat)
    requires Inv(mem, free, own) && d in own && own[d] == Dir && NoUsers(own, d)
    ensures Inv(mem, free, Dismantled(own, d, 0))
  {
    var own' := Dismantled(own, d, 0);
    forall f | f in own' ensures RoleOk(mem, own', f) {
      assert RoleOk(mem, own, f);
      DismantledRole(mem, own, d, f);
    }
  }

  /** freevm's loop at entry n: its table, if there is one, is the one frame with that role. */
  lemma DismantledNext(m1: Mem, o1: Roles, d: nat, n: nat, next: nat)
    requires d in o1 && o1[d] == Dir && RoleOk(m1, o1, d) && d < |m1| && n < NENTRIES && next == n + 1
    requires forall f {:trigger RoleOk(m1, o1, f)} :: f in o1 ==> RoleOk(m1, o1, f)
    ensures Present(m1[d][n]) ==> FrameOf(m1[d][n]) in o1 && FrameOf(m1[d][n]) != d && Dismantled(o1, d, n)[FrameOf(m1[d][n])] == Taken
    ensures Dismantled(o1, d, next) == if Present(m1[d][n]) then Dismantled(o1, d, n)[FrameOf(m1[d][n]) := Free] else Dismantled(o1, d, n)
  {
    if Present(m1[d][n]) { TableRole(m1, o1, d, n); }
    var a, b := Dismantled(o1, d, n), Dismantled(o1, d, next);
    forall f | f in o1 ensures b[f] == if Present(m1[d][n]) && f == FrameOf(m1[d][n]) then Free else a[f] {
      assert RoleOk(m1, o1, f);
    }
  }

  /** kfree of a frame that nothing maps. */
  lemma OthersFree(m0: Mem, o0: Roles, m: Mem, free: seq<nat>, o: Roles, d: nat, x: nat, junk: Frame)
    requires OthersKept(m0, o0, m, o, d) && Inv(m, free, o) && x in o && o[x] == Taken
    requires x == d || (o0[x].Table? && o0[x].d == d)
    ensures OthersKept(m0, o0, m[x := junk], o[x := Free], d)
  {
    var m', o' := m[x := junk], o[x := Free];
    forall d', v | d' in o0 && o0[d'] == Dir && d' != d && 0 <= v < NUSER ensures KeepsMap(m0, m', d', v) {
      assert KeepsMap(m0, m, d', v) && RoleOk(m, o, d');
      LookupKept(m, o, x, junk, d', v);
    }
    forall f | f in o0 && o0[f].User? && o0[f].d != d ensures KeepsPage(m0, o0, m', o', f) {
      assert KeepsPage(m0, o0, m, o, f);
    }
  }

  /** Everything that directory d was made of is free: its pages, its tables and itself. */
  ghost function AllFreed(own: Roles, d: nat): Roles {
    map f | f in own :: if f == d || (own[f].Table? && own[f].d == d) || (own[f].User? && own[f].d == d) then Free else own[f]
  }

  lemma AllFreedIs(mem: Mem, free: seq<nat>, own: Roles, d: nat)
    requires Inv(mem, free, own) && d in own && own[d] == Dir
    ensures Dismantled(Released(own, d, 0, NUSER), d, NENTRIES)[d := Free] == AllFreed(own, d)
  {
    var a := Dismantled(Released(own, d, 0, NUSER), d, NENTRIES)[d := Free];
    forall f | f in own ensures a[f] == AllFreed(own, d)[f] {
      assert RoleOk(mem, own, f);
    }
  }

  // ---------------------------------------------------------------- copying

  lemma NewDirRole(mem: Mem, own: Roles, x: nat, f: nat)
    requires Managed(mem, own) && x in own && own[x] == Taken && IsZero(mem[x]) && f in own && RoleOk(mem, own, f)
    ensures RoleOk(mem, own[x := Dir], f)
  {
    var own' := own[x := Dir];
    match own'[f]
    case Free =>
    case Taken =>
    case Dir =>
      forall i | 0 <= i < NENTRIES ensures PdeOk(mem, own', f, i) {
        if f != x { assert PdeOk(mem, own, f, i); }
      }
    case Table(d, i) =>
      forall j | 0 <= j < NENTRIES ensures PteOk(mem, own', f, d, i, j) {
        assert PteOk(mem, own, f, d, i, j);
      }
    case User(d, v) =>
  }

  lemma NewDirInv(mem: Mem, free: seq<nat>, own: Roles, x: nat)
    requires Inv(mem, free, own) && x in own && own[x] == Taken && IsZero(mem[x])
    ensures Inv(mem, free, own[x := Dir]) && forall v :: 0 <= v < NUSER ==> Unmapped(mem, x, v)
  {
    var own' := own[x := Dir];
    forall f | f in own' ensures RoleOk(mem, own', f) {
      assert RoleOk(mem, own, f);
      NewDirRole(mem, own, x, f);
    }
  }

  /** Page v of directory d2 is a copy of page v of d: the same contents and flags in a frame of its own. */
  ghost predicate PageCopied(m: Mem, o: Roles, d: nat, d2: nat, v: nat) {
    var e, e2 := Lookup(m, d, v), Lookup(m, d2, v);
    && e.Some? && e2.Some? && FlagsOf(e2.value) == FlagsOf(e.value)
    && FrameOf(e.value) < |m| && FrameOf(e2.value) < |m| && m[FrameOf(e2.value)] == m[FrameOf(e.value)]
    && FrameOf(e2.value) in o && o[FrameOf(e2.value)] == User(d2, v) && FrameOf(e.value) in o && o[FrameOf(e.value)] == User(d, v)
  }

  /** The first n pages are copied, and the copy has no others. */
  ghost predicate Copied(m: Mem, o: Roles, d: nat, d2: nat, n: nat) {
    && (forall v {:trigger PageCopied(m, o, d, d2, v)} :: 0 <= v < n ==> PageCopied(m, o, d, d2, v))
    && (forall v {:trigger Unmapped(m, d2, v)} :: n <= v < NUSER ==> Unmapped(m, d2, v))
  }

  lemma CopiedMore(m: Mem, o: Roles, m': Mem, o': Roles, d: nat, d2: nat, v: nat, next: nat)
    requires Copied(m, o, d, d2, v) && Only(m, o, m', o', d2, v, next) && next == v + 1 <= NUSER && d != d2
    requires d in o && o[d] == Dir && d2 in o && o[d2] == Dir && PageCopied(m', o', d, d2, v)
    ensures Copied(m', o', d, d2, next)
  {
    forall w | 0 <= w < next ensures PageCopied(m', o', d, d2, w) {
      if w < v {
        assert PageCopied(m, o, d, d2, w) && KeepsMap(m, m', d, w) && KeepsMap(m, m', d2, w);
        assert KeepsPage(m, o, m', o', FrameOf(Lookup(m, d, w).value)) && KeepsPage(m, o, m', o', FrameOf(Lookup(m, d2, w).value));
      }
    }
    forall w | next <= w < NUSER ensures Unmapped(m', d2, w) {
      assert Unmapped(m, d2, w) && KeepsMap(m, m', d2, w);
    }
  }

  /** No two user pages, of one address space or of two, share a frame, and none is free or a page table. */
  lemma Isolation(mem: Mem, free: seq<nat>, own: Roles, d: nat, v: nat, d': nat, v': nat)
    requires Inv(mem, free, own) && d in own && own[d] == Dir && d' in own && own[d'] == Dir && v < NUSER && v' < NUSER
    requires Lookup(mem, d, v).Some? && Lookup(mem, d', v').Some? && FrameOf(Lookup(mem, d, v).value) == FrameOf(Lookup(mem, d', v').value)
    ensures d == d' && v == v' && FrameOf(Lookup(mem, d, v).value) in own && own[FrameOf(Lookup(mem, d, v).value)] == User(d, v)
  {
    UserRole(mem, own, d, v, FrameOf(mem[d][Pdx(v)]));
    UserRole(mem, own, d', v', FrameOf(mem[d'][Pdx(v')]));
  }

  lemma UserRole(mem: Mem, own: Roles, d: nat, v: nat, t: nat)
    requires Managed(mem, own) && (forall f {:trigger RoleOk(mem, own, f)} :: f in own ==> RoleOk(mem, own, f))
    requires d in own && own[d] == Dir && v < NUSER && Lookup(mem, d, v).Some? && t == FrameOf(mem[d][Pdx(v)])
    ensures FrameOf(Lookup(mem, d, v).value) in own && own[FrameOf(Lookup(mem, d, v).value)] == User(d, v)
  {
    assert RoleOk(mem, own, d);
    TableRole(mem, own, d, Pdx(v));
    assert RoleOk(mem, own, t) && PteOk(mem, own, t, d, Pdx(v), Ptx(v));
    PageIndex(v, v);
  }
}
