/** A directory, read as a finite map from names to inode numbers. Names are cut at the first NUL or at
    DIRSIZ bytes, as strncmp and strncpy of xv6-l/string.c do. */
module DirModel {
  import opened Bytes

  const DIRSIZ: nat := 14
  const DESIZE: nat := 16   // sizeof(struct dirent)

  /** The byte that a C string, given without its NUL, holds at i. */
  function At(p: seq<byte>, i: nat): byte {
    if i < |p| then p[i] else 0
  }

  /** How many bytes of p strncmp and strncpy see: those before the first NUL, n at most. */
  function CutLen(p: seq<byte>, n: nat, i: nat): (r: nat)
    requires i <= |p| && i <= n
    ensures i <= r <= n && r <= |p| && (r < n ==> At(p, r) == 0) && forall k :: i <= k < r ==> p[k] != 0
    decreases |p| - i
  {
    if i == n || i == |p| || p[i] == 0 then i else CutLen(p, n, i + 1)
  }

  function Cut(p: seq<byte>, n: nat): seq<byte> {
    p[..CutLen(p, n, 0)]
  }

  function Key(name: seq<byte>): seq<byte> {
    Cut(name, DIRSIZ)
  }

  // ---------------------------------------------------------------- entries

  function Slots(f: seq<byte>): nat {
    |f| / DESIZE
  }

  function Inum(f: seq<byte>, k: nat): nat
    requires k < Slots(f)
  {
    var lo: int, hi: int := f[DESIZE * k], f[DESIZE * k + 1];
    lo + 0x100 * hi
  }

  function NameAt(f: seq<byte>, k: nat): seq<byte>
    requires k < Slots(f)
  {
    f[DESIZE * k + 2..DESIZE * k + DESIZE]
  }

  function KeyAt(f: seq<byte>, k: nat): seq<byte>
    requires k < Slots(f)
  {
    Key(NameAt(f, k))
  }

  /** An entry as lookup sees it; number 0 marks a free one. */
  datatype Entry = Entry(inum: nat, key: seq<byte>)

  function FirstEntries(f: seq<byte>, n: nat): (r: seq<Entry>)
    requires n <= Slots(f)
    ensures |r| == n
  {
    if n == 0 then [] else FirstEntries(f, n - 1) + [Entry(Inum(f, n - 1), KeyAt(f, n - 1))]
  }

  function Entries(f: seq<byte>): (r: seq<Entry>)
    ensures |r| == Slots(f)
  {
    FirstEntries(f, Slots(f))
  }

  lemma {:induction false} EntryAt(f: seq<byte>, n: nat, k: nat)
    requires k < n <= Slots(f)
    ensures FirstEntries(f, n)[k] == Entry(Inum(f, k), KeyAt(f, k))
  {
    if k < n - 1 { EntryAt(f, n - 1, k); }
  }

  /** No two live entries have one name. */
  ghost predicate Unique(es: seq<Entry>) {
    forall j, k {:trigger Differ(es, j, k)} :: 0 <= j < k < |es| ==> Differ(es, j, k)
  }

  ghost predicate Differ(es: seq<Entry>, j: nat, k: nat) {
    j < |es| && k < |es| && es[j].inum != 0 && es[k].inum != 0 ==> es[j].key != es[k].key
  }

  ghost predicate DirOk(f: seq<byte>) {
    |f| % DESIZE == 0 && Unique(Entries(f))
  }

  /** The map that a list of entries stands for. */
  function Bindings(es: seq<Entry>): map<seq<byte>, nat> {
    if es == [] then map[]
    else
      var n := |es| - 1;
      if es[n].inum != 0 then Bindings(es[..n])[es[n].key := es[n].inum] else Bindings(es[..n])
  }

  function Dir(f: seq<byte>): map<seq<byte>, nat> {
    Bindings(Entries(f))
  }

  ghost predicate BoundBy(es: seq<Entry>, key: seq<byte>, k: int) {
    0 <= k < |es| && es[k].inum != 0 && es[k].key == key
  }

  /** A key is in the map if and only if some live entry has it, and then that entry's number is its value. */
  lemma {:induction false} BindingsAre(es: seq<Entry>, key: seq<byte>)
    requires Unique(es)
    ensures key in Bindings(es) <==> exists k :: BoundBy(es, key, k)
    ensures forall k :: BoundBy(es, key, k) ==> key in Bindings(es) && Bindings(es)[key] == es[k].inum
  {
    if es != [] {
      var n := |es| - 1;
      var d := es[..n];
      forall j, k | 0 <= j < k < n ensures Differ(d, j, k) {
        assert Differ(es, j, k);
      }
      BindingsAre(d, key);
      forall k | BoundBy(es, key, k) ensures key in Bindings(es) && Bindings(es)[key] == es[k].inum {
        if k < n { assert BoundBy(d, key, k) && Differ(es, k, n); }
      }
      if key in Bindings(es) {
        if key in Bindings(d) {
          var k :| BoundBy(d, key, k);
          assert BoundBy(es, key, k);
        } else {
          assert BoundBy(es, key, n);
        }
      }
    }
  }

  // ---------------------------------------------------------------- changing one entry

  /** The bytes of an entry. de.inum is a ushort: the number is cut to 16 bits. */
  function Encode(inum: nat, name: seq<byte>): (r: seq<byte>)
    requires |name| == DIRSIZ
    ensures |r| == DESIZE
  {
    [inum % 0x100, inum / 0x100 % 0x100] + name
  }

  /** strncpy's result: the name up to its cut, and NULs. */
  function Padded(name: seq<byte>, n: nat): (r: seq<byte>)
    ensures |r| == n
  {
    Cut(name, n) + Zeros(n - |Cut(name, n)|)
  }

  /** Copying a name keeps its key. */
  lemma PaddedCut(name: seq<byte>, n: nat)
    ensures Cut(Padded(name, n), n) == Cut(name, n)
  {
    var p, c := Padded(name, n), Cut(name, n);
    assert forall k :: 0 <= k < |c| ==> p[k] == c[k];
    assert |c| < n ==> p[|c|] == 0;
  }

  /** f' is f with entry k, which may be one past its last, holding inum under name. */
  ghost predicate EntrySet(f: seq<byte>, f': seq<byte>, k: nat, inum: nat, name: seq<byte>)
    requires |name| == DIRSIZ
  {
    && k <= Slots(f) && (k == Slots(f) ==> |f| % DESIZE == 0) && |f'| == (if k == Slots(f) then |f| + DESIZE else |f|)
    && (forall o :: 0 <= o < |f| && !(DESIZE * k <= o < DESIZE * k + DESIZE) ==> f'[o] == f[o])
    && f'[DESIZE * k..DESIZE * k + DESIZE] == Encode(inum, name)
  }

  lemma OthersKept(f: seq<byte>, f': seq<byte>, k: nat, inum: nat, name: seq<byte>, j: nat)
    requires |name| == DIRSIZ && EntrySet(f, f', k, inum, name) && j < Slots(f) && j != k
    ensures j < Slots(f') && Inum(f', j) == Inum(f, j) && KeyAt(f', j) == KeyAt(f, j)
  {
    assert NameAt(f', j) == NameAt(f, j);
  }

  lemma SlotsAfter(f: seq<byte>, f': seq<byte>, k: nat)
    requires k <= Slots(f) && (k == Slots(f) ==> |f| % DESIZE == 0) && |f'| == (if k == Slots(f) then |f| + DESIZE else |f|)
    ensures Slots(f') == (if k == Slots(f) then Slots(f) + 1 else Slots(f)) && DESIZE * k + DESIZE <= |f'|
  {
  }

  lemma EntryIs(f: seq<byte>, f': seq<byte>, k: nat, inum: nat, name: seq<byte>)
    requires |name| == DIRSIZ && EntrySet(f, f', k, inum, name)
    ensures k < Slots(f') && Inum(f', k) == inum % 0x1_0000 && NameAt(f', k) == name
    ensures Slots(f') == if k == Slots(f) then Slots(f) + 1 else Slots(f)
  {
    SlotsAfter(f, f', k);
    EncodedAt(f'[DESIZE * k..DESIZE * k + DESIZE], f', DESIZE * k);
    var e := f'[DESIZE * k..DESIZE * k + DESIZE];
    assert NameAt(f', k) == e[2..] == name;
  }

  lemma EncodedAt(e: seq<byte>, f: seq<byte>, o: nat)
    requires o + DESIZE <= |f| && e == f[o..o + DESIZE]
    ensures f[o] == e[0] && f[o + 1] == e[1] && f[o + 2..o + DESIZE] == e[2..]
  {
  }

  function SetEntry(es: seq<Entry>, k: nat, e: Entry): seq<Entry>
    requires k <= |es|
  {
    if k == |es| then es + [e] else es[k := e]
  }

  lemma EntriesAfter(f: seq<byte>, f': seq<byte>, k: nat, inum: nat, name: seq<byte>)
    requires |name| == DIRSIZ && EntrySet(f, f', k, inum, name)
    ensures Entries(f') == SetEntry(Entries(f), k, Entry(inum % 0x1_0000, Key(name)))
  {
    EntryIs(f, f', k, inum, name);
    EntryAt(f', Slots(f'), k);
    forall j | 0 <= j < Slots(f) && j != k ensures Entries(f')[j] == Entries(f)[j] {
      OthersKept(f, f', k, inum, name, j);
      EntryAt(f, Slots(f), j);
      EntryAt(f', Slots(f'), j);
    }
  }

  // ---------------------------------------------------------------- the map

  /** Setting an entry takes away the binding it held, if any, and adds the new one, if it is live. */
  ghost function Rebound(es: seq<Entry>, k: nat, e: Entry): map<seq<byte>, nat>
    requires k <= |es|
  {
    var rest := if k < |es| && es[k].inum != 0 then Bindings(es) - {es[k].key} else Bindings(es);
    if e.inum == 0 then rest else rest[e.key := e.inum]
  }

  ghost predicate KeyFree(es: seq<Entry>, k: nat, key: seq<byte>) {
    forall j :: BoundBy(es, key, j) ==> j == k
  }

  lemma SetUnique(es: seq<Entry>, k: nat, e: Entry)
    requires Unique(es) && k <= |es| && (e.inum != 0 ==> KeyFree(es, k, e.key))
    ensures Unique(SetEntry(es, k, e))
  {
    var es' := SetEntry(es, k, e);
    forall i, j | 0 <= i < j < |es'| ensures Differ(es', i, j) {
      assert j < |es| ==> Differ(es, i, j);
      assert BoundBy(es, e.key, i) || !BoundBy(es, e.key, j) || j < |es|;
    }
  }

  lemma SetKey(es: seq<Entry>, k: nat, e: Entry, key: seq<byte>)
    requires Unique(es) && k <= |es| && (e.inum != 0 ==> KeyFree(es, k, e.key)) && Unique(SetEntry(es, k, e))
    ensures var m, m' := Rebound(es, k, e), Bindings(SetEntry(es, k, e)); (key in m' <==> key in m) && (key in m ==> m'[key] == m[key])
  {
    var es', m := SetEntry(es, k, e), Rebound(es, k, e);
    BindingsAre(es, key);
    BindingsAre(es', key);
    if key in Bindings(es') {
      var j :| BoundBy(es', key, j);
      if j != k { assert BoundBy(es, key, j) && (k < |es| ==> if j < k then Differ(es, j, k) else Differ(es, k, j)); }
    }
    if key in m {
      if e.inum != 0 && key == e.key {
        assert BoundBy(es', key, k);
      } else {
        var j :| BoundBy(es, key, j);
        assert j != k && BoundBy(es', key, j);
      }
    }
  }

  lemma SetBindings(es: seq<Entry>, k: nat, e: Entry)
    requires Unique(es) && k <= |es| && (e.inum != 0 ==> KeyFree(es, k, e.key))
    ensures Unique(SetEntry(es, k, e)) && Bindings(SetEntry(es, k, e)) == Rebound(es, k, e)
  {
    SetUnique(es, k, e);
    var m, m' := Rebound(es, k, e), Bindings(SetEntry(es, k, e));
    forall key ensures (key in m' <==> key in m) && (key in m ==> m'[key] == m[key]) {
      SetKey(es, k, e, key);
    }
  }

  lemma AddBinding(es: seq<Entry>, k: nat, e: Entry)
    requires Unique(es) && k <= |es| && e.key !in Bindings(es) && e.inum != 0 && (k < |es| ==> es[k].inum == 0)
    ensures Unique(SetEntry(es, k, e)) && Bindings(SetEntry(es, k, e)) == Bindings(es)[e.key := e.inum]
  {
    BindingsAre(es, e.key);
    SetBindings(es, k, e);
  }

  lemma DropBinding(es: seq<Entry>, k: nat, e: Entry)
    requires Unique(es) && k < |es| && e.inum == 0 && es[k].inum != 0
    ensures Unique(SetEntry(es, k, e)) && Bindings(SetEntry(es, k, e)) == Bindings(es) - {es[k].key}
  {
    SetBindings(es, k, e);
  }

  /** Linking a name that is not there adds its binding and no other. */
  lemma LinkAdds(f: seq<byte>, f': seq<byte>, k: nat, inum: nat, key: seq<byte>)
    requires DirOk(f) && |f'| % DESIZE == 0 && k <= Slots(f) && Entries(f') == SetEntry(Entries(f), k, Entry(inum, key))
    requires key !in Dir(f) && inum != 0 && (k < Slots(f) ==> Entries(f)[k].inum == 0)
    ensures DirOk(f') && Dir(f') == Dir(f)[key := inum]
  {
    AddBinding(Entries(f), k, Entry(inum, key));
  }

  /** Zeroing an entry removes its binding and no other. */
  lemma UnlinkRemoves(f: seq<byte>, f': seq<byte>, k: nat, e: Entry)
    requires DirOk(f) && |f'| % DESIZE == 0 && k < Slots(f) && Entries(f') == SetEntry(Entries(f), k, e)
    requires e.inum == 0 && Entries(f)[k].inum != 0
    ensures DirOk(f') && Dir(f') == Dir(f) - {Entries(f)[k].key}
  {
    DropBinding(Entries(f), k, e);
  }
}
