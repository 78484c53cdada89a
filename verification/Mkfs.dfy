/**
  The empty image mkfs.c lays out: the blocks before the data area are marked
  in use, no data block is, and no inode has a block.
 */
module Mkfs {
  import opened FsBytes
  import opened FsVolume
  import opened FsContent

  const FSSIZE := 1000
  const NINODES := 200
  const NLOG := 30
  const INODE_BLOCKS := NINODES / IPB + 1
  const BITMAP_BLOCKS := FSSIZE / BPB + 1
  const NMETA := 2 + NLOG + INODE_BLOCKS + BITMAP_BLOCKS

  // The superblock that mkfs writes.
  function Superblock(): (sb: Super)
    ensures Layout(sb) && DataStart(sb) == NMETA
  {
    Super(FSSIZE, FSSIZE - NMETA, NINODES, 2 + NLOG, 2 + NLOG + INODE_BLOCKS)
  }

  // The byte whose lowest m bits are set.
  function LowBits(m: nat): (b: Byte)
    requires m <= 8
  {
    assert Pow2(8) == 256;
    LowBitsBound(m);
    Pow2(m) - 1
  }

  lemma {:induction false} LowBitsBound(m: nat)
    requires m <= 8
    ensures 1 <= Pow2(m) <= Pow2(8)
    decreases 8 - m
  {
    if m < 8 {
      LowBitsBound(m + 1);
    }
  }

  lemma {:induction false} LowBitsSet(m: nat, j: nat)
    ensures Pow2(m) > 0 && (Bit(Pow2(m) - 1, j) <==> j < m)
  {
    if m > 0 {
      LowBitsSet(m - 1, if j > 0 then j - 1 else 0);
      assert (Pow2(m) - 1) / 2 == Pow2(m - 1) - 1;
    } else if j > 0 {
      LowBitsSet(0, j - 1);
    }
  }

  // How many of the 8 blocks from b on lie below end.
  function Below(b: nat, end: nat): (m: nat)
    ensures m <= 8
  {
    if end <= b then 0 else if end - b >= 8 then 8 else end - b
  }

  // Bitmap block n of a disk on which exactly the blocks below end are in use.
  function BitmapUpTo(n: nat, end: nat): (b: Block) {
    seq(BSIZE, e requires 0 <= e < BSIZE => LowBits(Below(BPB * n + 8 * e, end)))
  }

  function EmptyBlock(sb: Super, b: nat): (r: Block)
    requires Layout(sb)
  {
    if sb.bmapstart <= b <= BitmapBlock(sb, sb.size - 1) then BitmapUpTo(b - sb.bmapstart, DataStart(sb)) else Zeros()
  }

  function EmptyInode(): (node: Inode) {
    Inode(0, 0, seq(NDIRECT + 1, k => 0))
  }

  function EmptyImage(sb: Super): (v: Volume)
    requires Layout(sb)
  {
    Volume(seq(sb.size, b requires 0 <= b < sb.size => EmptyBlock(sb, b)), seq(sb.ninodes, x => EmptyInode()), map[])
  }

  lemma EmptyBit(sb: Super, b: nat)
    requires Layout(sb) && b < sb.size
    ensures Used(sb, EmptyImage(sb).blocks, b) <==> b < DataStart(sb)
  {
    MetadataBelow(sb, b);
    BitPosition(b);
    assert b / BPB <= (sb.size - 1) / BPB;
    var first := BPB * (b / BPB) + 8 * (b % BPB / 8);
    LowBitsSet(Below(first, DataStart(sb)), b % 8);
    assert EmptyImage(sb).blocks[BitmapBlock(sb, b)][b % BPB / 8] == LowBits(Below(first, DataStart(sb)));
  }

  /** The empty image is a consistent one, for every layout, mkfs's own among them. */
  lemma EmptyConsistent(sb: Super)
    requires Layout(sb)
    ensures Consistent(sb, EmptyImage(sb)) && FreeEmpty(EmptyImage(sb)) && |EmptyImage(sb).inodes| == sb.ninodes
  {
    var v := EmptyImage(sb);
    hide Used, Layout;
    forall b: nat | b < sb.size
      ensures BitOk(sb, v, b)
    {
      EmptyBit(sb, b);
    }
    forall x: nat, k: nat | x < |v.inodes| && k < SLOTS
      ensures At(v, x, k) == 0
    {
    }
  }
}
