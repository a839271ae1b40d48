/** Bytes, 512-byte disk blocks, and the little-endian 32-bit words that the log
    header, the indirect blocks and the on-disk inodes are made of. */
module Bytes {

  type byte = x: int | 0 <= x < 0x100
  type uint = x: int | 0 <= x < 0x1_0000_0000

  const BSIZE: nat := 512
  const NWORDS: nat := 128    // BSIZE / sizeof(uint)

  type Block = b: seq<byte> | |b| == BSIZE witness seq(BSIZE, i => 0)

  function Zeros(n: nat): (r: seq<byte>)
    ensures |r| == n && forall k :: 0 <= k < n ==> r[k] == 0
  {
    if n == 0 then [] else Zeros(n - 1) + [0]
  }

  const ZeroBlock: Block := Zeros(BSIZE)

  /** The i-th little-endian word of a block. */
  function Word(b: Block, i: nat): uint
    requires i < NWORDS
  {
    var b0: int, b1: int, b2: int, b3: int := b[4 * i], b[4 * i + 1], b[4 * i + 2], b[4 * i + 3];
    b0 + 0x100 * b1 + 0x1_0000 * b2 + 0x100_0000 * b3
  }

  /** Storing a word changes that word and no other. */
  function SetWord(b: Block, i: nat, w: uint): (r: Block)
    requires i < NWORDS
    ensures forall j: nat :: j < NWORDS ==> Word(r, j) == if j == i then w else Word(b, j)
  {
    var r: Block := b[4 * i := w % 0x100]
      [4 * i + 1 := w / 0x100 % 0x100]
      [4 * i + 2 := w / 0x1_0000 % 0x100]
      [4 * i + 3 := w / 0x100_0000];
    assert Word(r, i) == w by { SplitWord(w); }
    r
  }

  lemma SplitWord(w: uint)
    ensures w % 0x100 + 0x100 * (w / 0x100 % 0x100) + 0x1_0000 * (w / 0x1_0000 % 0x100)
            + 0x100_0000 * (w / 0x100_0000) == w
  {
    assert w / 0x1_0000 == w / 0x100 / 0x100;
    assert w / 0x100_0000 == w / 0x1_0000 / 0x100;
  }

  /** Every word of the all-zero block is zero. */
  lemma ZeroWords(i: nat)
    requires i < NWORDS
    ensures Word(ZeroBlock, i) == 0
  {
  }

  /** Overwriting the bytes [at, at + |src|) of a block, as memmove does. */
  function Splice(b: Block, at: nat, src: seq<byte>): (r: Block)
    requires at + |src| <= BSIZE
    ensures forall k: nat :: k < BSIZE ==> r[k] == if at <= k < at + |src| then src[k - at] else b[k]
  {
    b[..at] + src + b[at + |src|..]
  }
}
