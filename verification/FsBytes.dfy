/**
  Disk blocks as the file system reads them: 512 bytes, the bits of the free
  map and the little-endian 32-bit words of an indirect block.
 */
module FsBytes {
  const BSIZE := 512
  const NINDIRECT := 128
  const WORD_LIMIT := 0x1_0000_0000

  type Byte = x: nat | x < 256
  type Bytes = seq<Byte>
  type Block = b: Bytes | |b| == BSIZE witness seq(BSIZE, i => 0)

  function Zeros(): (b: Block)
    ensures forall e :: 0 <= e < BSIZE ==> b[e] == 0
  {
    seq(BSIZE, i => 0)
  }

  predicate Bit(v: nat, k: nat) {
    if k == 0 then v % 2 == 1 else Bit(v / 2, k - 1)
  }

  // v with bit k set or cleared: "|= 1 << k" and "&= ~(1 << k)".
  function PutBit(v: nat, k: nat, on: bool): (w: nat) {
    if k == 0 then v / 2 * 2 + (if on then 1 else 0) else 2 * PutBit(v / 2, k - 1, on) + v % 2
  }

  lemma {:induction false} PutBitBits(v: nat, k: nat, on: bool, j: nat)
    ensures Bit(PutBit(v, k, on), j) == if j == k then on else Bit(v, j)
  {
    if k == 0 {
      assert PutBit(v, k, on) / 2 == v / 2;
    } else {
      assert PutBit(v, k, on) / 2 == PutBit(v / 2, k - 1, on);
      if j > 0 {
        PutBitBits(v / 2, k - 1, on, j - 1);
      }
    }
  }

  function Pow2(k: nat): (p: nat) {
    if k == 0 then 1 else 2 * Pow2(k - 1)
  }

  lemma {:induction false} PutBitBound(v: nat, k: nat, on: bool, n: nat)
    requires k < n && v < Pow2(n)
    ensures PutBit(v, k, on) < Pow2(n)
  {
    if k > 0 {
      PutBitBound(v / 2, k - 1, on, n - 1);
    }
  }

  function WithBit(v: Byte, k: nat, on: bool): (w: Byte)
    requires k < 8
    ensures forall j: nat :: Bit(w, j) == if j == k then on else Bit(v, j)
  {
    assert Pow2(8) == 256;
    PutBitBound(v, k, on, 8);
    assert forall j: nat :: Bit(PutBit(v, k, on), j) == (if j == k then on else Bit(v, j)) by {
      forall j: nat
        ensures Bit(PutBit(v, k, on), j) == if j == k then on else Bit(v, j)
      {
        PutBitBits(v, k, on, j);
      }
    }
    PutBit(v, k, on)
  }

  // Entry j of an indirect block.
  function Word(b: Block, j: nat): (w: nat)
    requires j < NINDIRECT
    ensures w < WORD_LIMIT
  {
    var b0: nat, b1: nat, b2: nat, b3: nat := b[4 * j], b[4 * j + 1], b[4 * j + 2], b[4 * j + 3];
    b0 + 0x100 * b1 + 0x1_0000 * b2 + 0x100_0000 * b3
  }

  function WithWord(b: Block, j: nat, w: nat): (c: Block)
    requires j < NINDIRECT && w < WORD_LIMIT
  {
    b[4 * j := w % 0x100][4 * j + 1 := w / 0x100 % 0x100][4 * j + 2 := w / 0x1_0000 % 0x100][4 * j + 3 := w / 0x100_0000]
  }

  lemma Digits(w: nat)
    requires w < WORD_LIMIT
    ensures w == w % 0x100 + 0x100 * (w / 0x100 % 0x100) + 0x1_0000 * (w / 0x1_0000 % 0x100) + 0x100_0000 * (w / 0x100_0000)
  {
    var x, y := w / 0x100, w / 0x1_0000;
    assert w == 0x100 * x + w % 0x100 && x / 0x100 == y && y / 0x100 == w / 0x100_0000;
    assert x == 0x100 * y + x % 0x100 && y == 0x100 * (y / 0x100) + y % 0x100;
  }

  lemma WordWritten(b: Block, j: nat, w: nat)
    requires j < NINDIRECT && w < WORD_LIMIT
    ensures Word(WithWord(b, j, w), j) == w
  {
    Digits(w);
  }

  lemma WordKept(b: Block, j: nat, w: nat, k: nat)
    requires j < NINDIRECT && w < WORD_LIMIT && k < NINDIRECT && k != j
    ensures Word(WithWord(b, j, w), k) == Word(b, k)
  {
    assert 4 * k + 3 < 4 * j || 4 * j + 3 < 4 * k;
  }

  lemma ZeroWords(j: nat)
    requires j < NINDIRECT
    ensures Word(Zeros(), j) == 0
  {
  }

  // The block b with the bytes of s copied in at offset at.
  function Patch(b: Block, at: nat, s: Bytes): (c: Block)
    requires at + |s| <= BSIZE
    ensures forall e :: 0 <= e < BSIZE ==> c[e] == if at <= e < at + |s| then s[e - at] else b[e]
  {
    b[..at] + s + b[at + |s|..]
  }
}
