/** The disk under the buffer cache: an array of blocks changed by atomic
    single-block writes, and what a sequence of such writes leaves behind. */
module Disk {
  import opened Bytes

  type Disk = seq<Block>

  datatype Write = Write(bno: nat, data: Block)

  /** Every write lands on the disk: the "block out of range" panic does not fire. */
  predicate Fits(size: nat, ws: seq<Write>) {
    forall i :: 0 <= i < |ws| ==> ws[i].bno < size
  }

  /** The disk after the first k of a list of writes. */
  function After(d: Disk, ws: seq<Write>, k: nat): (r: Disk)
    requires Fits(|d|, ws) && k <= |ws|
    ensures |r| == |d|
  {
    if k == 0 then d else After(d, ws, k - 1)[ws[k - 1].bno := ws[k - 1].data]
  }

  function Apply(d: Disk, ws: seq<Write>): (r: Disk)
    requires Fits(|d|, ws)
    ensures |r| == |d|
  {
    After(d, ws, |ws|)
  }

  /** One of the first k writes goes to block b. */
  ghost predicate Touches(ws: seq<Write>, k: nat, b: nat)
    requires k <= |ws|
  {
    exists i :: 0 <= i < k && ws[i].bno == b
  }

  /** The blocks that a list of writes goes to. */
  ghost function Homes(ws: seq<Write>): (r: set<nat>)
    ensures forall b: nat :: b in r <==> Touches(ws, |ws|, b)
  {
    set i | 0 <= i < |ws| :: ws[i].bno
  }

  lemma HomesMore(ws: seq<Write>, w: Write)
    ensures Homes(ws + [w]) == Homes(ws) + {w.bno}
  {
    var more := ws + [w];
    forall b: nat ensures b in Homes(more) <==> b in Homes(ws) + {w.bno} {
      if Touches(ws, |ws|, b) {
        var i :| 0 <= i < |ws| && ws[i].bno == b;
        assert more[i].bno == b;
      }
      if b == w.bno { assert more[|ws|].bno == b; }
    }
  }

  /** A block that no write touches keeps its contents. */
  lemma {:induction false} AfterUntouched(d: Disk, ws: seq<Write>, k: nat, b: nat)
    requires Fits(|d|, ws) && k <= |ws| && b < |d| && !Touches(ws, k, b)
    ensures After(d, ws, k)[b] == d[b]
  {
    if k > 0 {
      assert ws[k - 1].bno != b;
      AfterUntouched(d, ws, k - 1, b);
    }
  }

  /** A block that is written forgets what it held before: only the writes matter. */
  lemma {:induction false} AfterTouched(d: Disk, e: Disk, ws: seq<Write>, k: nat, b: nat)
    requires |d| == |e| && Fits(|d|, ws) && k <= |ws| && b < |d| && Touches(ws, k, b)
    ensures After(d, ws, k)[b] == After(e, ws, k)[b]
  {
    if ws[k - 1].bno != b {
      AfterTouched(d, e, ws, k - 1, b);
    }
  }

  /** Replaying a whole list of writes after any prefix of it was already done
      gives what one clean pass gives: redo is idempotent. */
  lemma {:induction false} Replay(d: Disk, ws: seq<Write>, k: nat)
    requires Fits(|d|, ws) && k <= |ws|
    ensures Apply(After(d, ws, k), ws) == Apply(d, ws)
  {
    var e := After(d, ws, k);
    forall b: nat | b < |d| ensures Apply(e, ws)[b] == Apply(d, ws)[b] {
      if Touches(ws, |ws|, b) {
        AfterTouched(d, e, ws, |ws|, b);
      } else {
        AfterUntouched(d, ws, k, b);
        AfterUntouched(d, ws, |ws|, b);
        AfterUntouched(e, ws, |ws|, b);
      }
    }
  }

  /** Lists that agree on their first k writes. */
  lemma {:induction false} AfterAgree(d: Disk, ws: seq<Write>, vs: seq<Write>, k: nat)
    requires Fits(|d|, ws) && Fits(|d|, vs) && k <= |ws| && k <= |vs|
    requires forall i :: 0 <= i < k ==> ws[i] == vs[i]
    ensures After(d, ws, k) == After(d, vs, k)
  {
    if k > 0 { AfterAgree(d, ws, vs, k - 1); }
  }

  /** Doing m writes and then j of the list that continues them. */
  lemma {:induction false} AfterSplit(d: Disk, ws: seq<Write>, m: nat, tail: seq<Write>, j: nat)
    requires Fits(|d|, ws) && Fits(|d|, tail) && m + j <= |ws| && j <= |tail|
    requires forall i :: 0 <= i < j ==> tail[i] == ws[m + i]
    ensures After(d, ws, m + j) == After(After(d, ws, m), tail, j)
  {
    if j > 0 { AfterSplit(d, ws, m, tail, j - 1); }
  }

  lemma AfterTail(d: Disk, ws: seq<Write>, m: nat, k: nat)
    requires Fits(|d|, ws) && m <= k <= |ws|
    ensures Fits(|d|, ws[m..]) && After(d, ws, k) == After(After(d, ws, m), ws[m..], k - m)
  {
    AfterSplit(d, ws, m, ws[m..], k - m);
  }
}
