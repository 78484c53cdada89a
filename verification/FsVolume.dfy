/**
  What the blocks of a file-system image mean: the free bitmap, the block map
  of every inode and the owner of every data block (fs.c).
 */
module FsVolume {
  import opened FsBytes

  const NDIRECT := 12
  const MAXFILE := NDIRECT + NINDIRECT
  const BPB := 8 * BSIZE
  const IPB := 8
  const INDIRECT := NDIRECT             // the slot of the indirect block itself
  const ENTRIES := NDIRECT + 1          // the slots of the entries of the indirect block
  const SLOTS := ENTRIES + NINDIRECT

  datatype Super = Super(size: nat, nblocks: nat, ninodes: nat, inodestart: nat, bmapstart: nat)

  function DataStart(sb: Super): (b: int) {
    sb.size - sb.nblocks
  }

  // The layout mkfs writes: inodes, then the bitmap, then the data blocks.
  predicate Layout(sb: Super) {
    && 0 < sb.nblocks <= sb.size < WORD_LIMIT
    && sb.inodestart + sb.ninodes / IPB < sb.bmapstart
    && BitmapBlock(sb, sb.size - 1) < DataStart(sb)
  }

  predicate Shaped(sb: Super, blocks: seq<Block>) {
    Layout(sb) && |blocks| == sb.size
  }

  type Addrs = a: seq<nat> | |a| == NDIRECT + 1 witness seq(NDIRECT + 1, i => 0)

  const T_DIR := 1
  const T_FILE := 2
  const T_DEV := 3

  datatype Inode = Inode(typ: nat, size: nat, addrs: Addrs)

  // A place a block number can be stored in: addrs[slot] for slot <= 12, and
  // entry slot - 13 of the indirect block above that.
  datatype Place = Place(inum: nat, slot: nat)

  datatype Volume = Volume(blocks: seq<Block>, inodes: seq<Inode>, owner: map<nat, Place>)

  function BitmapBlock(sb: Super, b: nat): (n: nat) {
    b / BPB + sb.bmapstart
  }

  function InodeBlock(sb: Super, i: nat): (n: nat) {
    i / IPB + sb.inodestart
  }

  lemma MetadataBelow(sb: Super, b: nat)
    requires Layout(sb) && b < sb.size
    ensures BitmapBlock(sb, b) < DataStart(sb)
  {
    assert b / BPB <= (sb.size - 1) / BPB;
  }

  predicate Used(sb: Super, blocks: seq<Block>, b: nat)
    requires Shaped(sb, blocks) && b < sb.size
  {
    MetadataBelow(sb, b);
    Bit(blocks[BitmapBlock(sb, b)][b % BPB / 8], b % 8)
  }

  function Marked(sb: Super, blocks: seq<Block>, b: nat, on: bool): (r: seq<Block>)
    requires Shaped(sb, blocks) && b < sb.size
    ensures |r| == |blocks|
  {
    MetadataBelow(sb, b);
    var n, e := BitmapBlock(sb, b), b % BPB / 8;
    var v: Byte := WithBit(blocks[n][e], b % 8, on);
    var block: Block := blocks[n][e := v];
    blocks[n := block]
  }

  lemma InBitmapBlock(b: nat, bi: nat)
    requires b % BPB == 0 && bi < BPB
    ensures (b + bi) / BPB == b / BPB && (b + bi) % BPB == bi && (b + bi) % 8 == bi % 8
  {
    var q := b / BPB;
    assert b + bi == BPB * q + bi == 8 * (BSIZE * q) + bi;
  }

  lemma UsedBit(sb: Super, blocks: seq<Block>, b: nat, bi: nat)
    requires Shaped(sb, blocks) && b % BPB == 0 && bi < BPB && b + bi < sb.size
    ensures BitmapBlock(sb, b) < |blocks|
    ensures Used(sb, blocks, b + bi) == Bit(blocks[BitmapBlock(sb, b)][bi / 8], bi % 8)
  {
    hide Bit;
    MetadataBelow(sb, b);
    InBitmapBlock(b, bi);
  }

  lemma BitPosition(b: nat)
    ensures b == BPB * (b / BPB) + 8 * (b % BPB / 8) + b % 8
  {
    var q, r := b / BPB, b % BPB;
    assert b == 8 * (BSIZE * q) + r;
    assert b % 8 == r % 8;
  }

  lemma MarkedUsed(sb: Super, blocks: seq<Block>, b: nat, on: bool, c: nat)
    requires Shaped(sb, blocks) && b < sb.size && c < sb.size
    ensures Used(sb, Marked(sb, blocks, b, on), c) == if c == b then on else Used(sb, blocks, c)
  {
    hide Bit, Layout;
    MetadataBelow(sb, b);
    MetadataBelow(sb, c);
    BitPosition(b);
    BitPosition(c);
  }

  function Slot(blocks: seq<Block>, node: Inode, k: nat): (a: nat)
    requires k < SLOTS
  {
    if k <= INDIRECT then node.addrs[k]
    else if node.addrs[INDIRECT] == 0 || node.addrs[INDIRECT] >= |blocks| then 0
    else Word(blocks[node.addrs[INDIRECT]], k - ENTRIES)
  }

  function At(v: Volume, x: nat, k: nat): (a: nat)
    requires x < |v.inodes| && k < SLOTS
  {
    Slot(v.blocks, v.inodes[x], k)
  }

  // A stored block number is owned by the place it is stored in.
  ghost predicate SlotOk(v: Volume, x: nat, k: nat)
    requires x < |v.inodes| && k < SLOTS
  {
    At(v, x, k) == 0 || (At(v, x, k) in v.owner && v.owner[At(v, x, k)] == Place(x, k))
  }

  ghost predicate OwnerOk(sb: Super, v: Volume, b: nat)
    requires b in v.owner
  {
    && DataStart(sb) <= b < sb.size
    && v.owner[b].inum < |v.inodes| && v.owner[b].slot < SLOTS && At(v, v.owner[b].inum, v.owner[b].slot) == b
  }

  ghost predicate BitOk(sb: Super, v: Volume, b: nat)
    requires Shaped(sb, v.blocks) && b < sb.size
  {
    Used(sb, v.blocks, b) <==> b < DataStart(sb) || b in v.owner
  }

  ghost predicate Accounted(sb: Super, v: Volume) {
    && Shaped(sb, v.blocks)
    && (forall b :: b in v.owner ==> OwnerOk(sb, v, b))
    && forall b: nat :: b < sb.size ==> BitOk(sb, v, b)
  }

  /**
    Block ownership: every stored block number is a data block whose bit is set
    and has one place only, and every set bit of the data area has a place.
   */
  ghost predicate Owned(sb: Super, v: Volume) {
    Accounted(sb, v) && forall x: nat, k: nat :: x < |v.inodes| && k < SLOTS ==> SlotOk(v, x, k)
  }

  // b, free before, is now stored in slot k of inode i, and nothing else moved.
  ghost predicate Gains(sb: Super, v: Volume, w: Volume, i: nat, k: nat, b: nat)
    requires Shaped(sb, v.blocks) && Shaped(sb, w.blocks)
  {
    && i < |v.inodes| == |w.inodes| && k < SLOTS && w.owner == v.owner[b := Place(i, k)]
    && At(v, i, k) == 0 && At(w, i, k) == b
    && (forall x: nat, j: nat :: x < |v.inodes| && j < SLOTS && (x != i || j != k) ==> At(w, x, j) == At(v, x, j))
    && forall c: nat :: c < sb.size ==> Used(sb, w.blocks, c) == (c == b || Used(sb, v.blocks, c))
  }

  ghost predicate FreeBlock(sb: Super, v: Volume, b: nat) {
    Shaped(sb, v.blocks) && b < sb.size && !Used(sb, v.blocks, b)
  }

  lemma FreeIsData(sb: Super, v: Volume, b: nat)
    requires Accounted(sb, v) && FreeBlock(sb, v, b)
    ensures DataStart(sb) <= b && b !in v.owner && b != 0
  {
    assert BitOk(sb, v, b);
  }

  lemma GainsOwned(sb: Super, v: Volume, w: Volume, i: nat, k: nat, b: nat)
    requires Owned(sb, v) && Shaped(sb, w.blocks) && FreeBlock(sb, v, b) && Gains(sb, v, w, i, k, b)
    ensures Owned(sb, w)
  {
    FreeIsData(sb, v, b);
    hide At, Used, Layout;
    forall c | c in w.owner
      ensures OwnerOk(sb, w, c)
    {
      if c != b {
        assert OwnerOk(sb, v, c);
      }
    }
    forall c: nat | c < sb.size
      ensures BitOk(sb, w, c)
    {
      assert BitOk(sb, v, c);
    }
    forall x: nat, j: nat | x < |w.inodes| && j < SLOTS
      ensures SlotOk(w, x, j)
    {
      assert SlotOk(v, x, j);
    }
  }

  // balloc() and bzero() of block b.
  function Allocated(sb: Super, blocks: seq<Block>, b: nat): (r: seq<Block>)
    requires Shaped(sb, blocks) && b < sb.size
  {
    Marked(sb, blocks, b, true)[b := Zeros()]
  }

  lemma AllocatedUsed(sb: Super, v: Volume, b: nat, c: nat)
    requires Shaped(sb, v.blocks) && DataStart(sb) <= b < sb.size && c < sb.size
    ensures Used(sb, Allocated(sb, v.blocks, b), c) == (c == b || Used(sb, v.blocks, c))
  {
    MetadataBelow(sb, b);
    MetadataBelow(sb, c);
    MarkedUsed(sb, v.blocks, b, true, c);
    assert Allocated(sb, v.blocks, b)[BitmapBlock(sb, c)] == Marked(sb, v.blocks, b, true)[BitmapBlock(sb, c)];
  }

  // The block b becomes addrs[k] of inode i.
  function NewAddr(sb: Super, v: Volume, i: nat, k: nat, b: nat): (w: Volume)
    requires Shaped(sb, v.blocks) && i < |v.inodes| && k <= INDIRECT && b < sb.size
  {
    var node := v.inodes[i];
    Volume(Allocated(sb, v.blocks, b), v.inodes[i := node.(addrs := node.addrs[k := b])], v.owner[b := Place(i, k)])
  }

  // The block b becomes entry j of the indirect block of inode i.
  function NewEntry(sb: Super, v: Volume, i: nat, j: nat, b: nat): (w: Volume)
    requires Shaped(sb, v.blocks) && i < |v.inodes| && j < NINDIRECT && b < sb.size
    requires v.inodes[i].addrs[INDIRECT] < |v.blocks|
  {
    var a := v.inodes[i].addrs[INDIRECT];
    Volume(Allocated(sb, v.blocks, b)[a := WithWord(v.blocks[a], j, b)], v.inodes, v.owner[b := Place(i, ENTRIES + j)])
  }

  lemma SlotInRange(sb: Super, v: Volume, x: nat, k: nat)
    requires Owned(sb, v) && x < |v.inodes| && k < SLOTS && At(v, x, k) != 0
    ensures DataStart(sb) <= At(v, x, k) < sb.size
  {
    hide Used, Slot;
    assert SlotOk(v, x, k);
    assert OwnerOk(sb, v, At(v, x, k));
  }

  lemma IndirectKept(sb: Super, v: Volume, b: nat, x: nat)
    requires Owned(sb, v) && FreeBlock(sb, v, b) && x < |v.inodes| && v.inodes[x].addrs[INDIRECT] != 0
    ensures var a := v.inodes[x].addrs[INDIRECT];
            && DataStart(sb) <= a < sb.size && a != b && a in v.owner && v.owner[a] == Place(x, INDIRECT)
            && Allocated(sb, v.blocks, b)[a] == v.blocks[a]
  {
    hide Used, Marked;
    FreeIsData(sb, v, b);
    MetadataBelow(sb, b);
    assert SlotOk(v, x, INDIRECT);
    assert OwnerOk(sb, v, v.inodes[x].addrs[INDIRECT]);
    MarkedElsewhere(sb, v.blocks, b, true, v.inodes[x].addrs[INDIRECT]);
  }

  lemma MarkedElsewhere(sb: Super, blocks: seq<Block>, b: nat, on: bool, c: nat)
    requires Shaped(sb, blocks) && b < sb.size && c < |blocks| && c != BitmapBlock(sb, b)
    ensures Marked(sb, blocks, b, on)[c] == blocks[c]
  {
  }

  lemma NewAddrSlot(sb: Super, v: Volume, i: nat, k: nat, b: nat, x: nat, j: nat)
    requires Owned(sb, v) && FreeBlock(sb, v, b) && i < |v.inodes| && k <= INDIRECT && v.inodes[i].addrs[k] == 0
    requires x < |v.inodes| && j < SLOTS
    ensures At(NewAddr(sb, v, i, k, b), x, j) == if x == i && j == k then b else At(v, x, j)
  {
    hide Used, Marked, Word;
    if j > INDIRECT {
      if v.inodes[x].addrs[INDIRECT] != 0 {
        IndirectKept(sb, v, b, x);
      }
      ZeroWords(j - ENTRIES);
    }
  }

  lemma NewAddrGains(sb: Super, v: Volume, i: nat, k: nat, b: nat)
    requires Owned(sb, v) && FreeBlock(sb, v, b) && i < |v.inodes| && k <= INDIRECT && v.inodes[i].addrs[k] == 0
    ensures var w := NewAddr(sb, v, i, k, b); Shaped(sb, w.blocks) && Gains(sb, v, w, i, k, b)
  {
    FreeIsData(sb, v, b);
    MetadataBelow(sb, b);
    var w := NewAddr(sb, v, i, k, b);
    assert At(v, i, k) == 0;
    hide Used, Marked, At, Owned, FreeBlock;
    forall x: nat, j: nat | x < |v.inodes| && j < SLOTS
      ensures At(w, x, j) == if x == i && j == k then b else At(v, x, j)
    {
      NewAddrSlot(sb, v, i, k, b, x, j);
    }
    forall c: nat | c < sb.size
      ensures Used(sb, w.blocks, c) == (c == b || Used(sb, v.blocks, c))
    {
      AllocatedUsed(sb, v, b, c);
    }
    NewAddrSlot(sb, v, i, k, b, i, k);
  }

  lemma NewAddrOwned(sb: Super, v: Volume, i: nat, k: nat, b: nat)
    requires Owned(sb, v) && FreeBlock(sb, v, b) && i < |v.inodes| && k <= INDIRECT && v.inodes[i].addrs[k] == 0
    ensures var w := NewAddr(sb, v, i, k, b); Shaped(sb, w.blocks) && Gains(sb, v, w, i, k, b) && Owned(sb, w)
  {
    NewAddrGains(sb, v, i, k, b);
    GainsOwned(sb, v, NewAddr(sb, v, i, k, b), i, k, b);
  }

  lemma NewEntrySlot(sb: Super, v: Volume, i: nat, j: nat, b: nat, x: nat, k: nat)
    requires Owned(sb, v) && FreeBlock(sb, v, b) && i < |v.inodes| && j < NINDIRECT
    requires v.inodes[i].addrs[INDIRECT] != 0 && At(v, i, ENTRIES + j) == 0
    requires x < |v.inodes| && k < SLOTS
    ensures v.inodes[i].addrs[INDIRECT] < sb.size
    ensures At(NewEntry(sb, v, i, j, b), x, k) == if x == i && k == ENTRIES + j then b else At(v, x, k)
  {
    hide Used, Marked, Word;
    var a := v.inodes[i].addrs[INDIRECT];
    IndirectKept(sb, v, b, i);
    if k > INDIRECT && v.inodes[x].addrs[INDIRECT] != 0 {
      IndirectKept(sb, v, b, x);
      if x == i {
        if k == ENTRIES + j {
          WordWritten(v.blocks[a], j, b);
        } else {
          WordKept(v.blocks[a], j, b, k - ENTRIES);
        }
      }
    }
  }

  lemma NewEntryUsed(sb: Super, v: Volume, i: nat, j: nat, b: nat, c: nat)
    requires Owned(sb, v) && FreeBlock(sb, v, b) && i < |v.inodes| && j < NINDIRECT && c < sb.size
    requires v.inodes[i].addrs[INDIRECT] != 0
    ensures v.inodes[i].addrs[INDIRECT] < sb.size
    ensures Used(sb, NewEntry(sb, v, i, j, b).blocks, c) == (c == b || Used(sb, v.blocks, c))
  {
    hide Marked;
    FreeIsData(sb, v, b);
    MetadataBelow(sb, c);
    IndirectKept(sb, v, b, i);
    AllocatedUsed(sb, v, b, c);
  }

  lemma NewEntryGains(sb: Super, v: Volume, i: nat, j: nat, b: nat)
    requires Owned(sb, v) && FreeBlock(sb, v, b) && i < |v.inodes| && j < NINDIRECT
    requires v.inodes[i].addrs[INDIRECT] != 0 && At(v, i, ENTRIES + j) == 0
    ensures v.inodes[i].addrs[INDIRECT] < sb.size
    ensures var w := NewEntry(sb, v, i, j, b); Shaped(sb, w.blocks) && Gains(sb, v, w, i, ENTRIES + j, b)
  {
    FreeIsData(sb, v, b);
    MetadataBelow(sb, b);
    IndirectKept(sb, v, b, i);
    var w := NewEntry(sb, v, i, j, b);
    hide Used, Marked, At, Owned, FreeBlock;
    forall x: nat, k: nat | x < |v.inodes| && k < SLOTS
      ensures At(w, x, k) == if x == i && k == ENTRIES + j then b else At(v, x, k)
    {
      NewEntrySlot(sb, v, i, j, b, x, k);
    }
    forall c: nat | c < sb.size
      ensures Used(sb, w.blocks, c) == (c == b || Used(sb, v.blocks, c))
    {
      NewEntryUsed(sb, v, i, j, b, c);
    }
    NewEntrySlot(sb, v, i, j, b, i, ENTRIES + j);
  }

  lemma NewEntryOwned(sb: Super, v: Volume, i: nat, j: nat, b: nat)
    requires Owned(sb, v) && FreeBlock(sb, v, b) && i < |v.inodes| && j < NINDIRECT
    requires v.inodes[i].addrs[INDIRECT] != 0 && At(v, i, ENTRIES + j) == 0
    ensures v.inodes[i].addrs[INDIRECT] < sb.size
    ensures var w := NewEntry(sb, v, i, j, b); Shaped(sb, w.blocks) && Gains(sb, v, w, i, ENTRIES + j, b) && Owned(sb, w)
  {
    NewEntryGains(sb, v, i, j, b);
    GainsOwned(sb, v, NewEntry(sb, v, i, j, b), i, ENTRIES + j, b);
  }

  // Slot k of inode x, holding a block of file data in v, holds it still in w.
  ghost predicate DataKept(v: Volume, w: Volume, x: nat, k: nat)
    requires x < |v.inodes| == |w.inodes| && k < SLOTS
  {
    var a := At(v, x, k);
    a != 0 ==> At(w, x, k) == a && a < |v.blocks| == |w.blocks| && w.blocks[a] == v.blocks[a]
  }

  // Inode x has in w the file data it had in v.
  ghost predicate Keeps(v: Volume, w: Volume, x: nat)
    requires x < |v.inodes| == |w.inodes|
  {
    forall k: nat :: k < SLOTS && k != INDIRECT ==> DataKept(v, w, x, k)
  }

  lemma KeepsData(sb: Super, v: Volume, w: Volume, i: nat, k: nat, b: nat, x: nat)
    requires Owned(sb, v) && Shaped(sb, w.blocks) && Gains(sb, v, w, i, k, b) && x < |v.inodes|
    requires forall c :: c in v.owner && v.owner[c].slot != INDIRECT ==> c < sb.size && w.blocks[c] == v.blocks[c]
    ensures Keeps(v, w, x)
  {
    hide Used, Slot;
    forall j: nat | j < SLOTS && j != INDIRECT
      ensures DataKept(v, w, x, j)
    {
      assert SlotOk(v, x, j);
    }
  }

  lemma NewAddrKeeps(sb: Super, v: Volume, i: nat, k: nat, b: nat, x: nat)
    requires Owned(sb, v) && FreeBlock(sb, v, b) && i < |v.inodes| && k <= INDIRECT && v.inodes[i].addrs[k] == 0
    requires x < |v.inodes|
    ensures Keeps(v, NewAddr(sb, v, i, k, b), x)
  {
    FreeIsData(sb, v, b);
    NewAddrOwned(sb, v, i, k, b);
    var w := NewAddr(sb, v, i, k, b);
    hide Used, Marked, Slot;
    forall c | c in v.owner
      ensures c < sb.size && w.blocks[c] == v.blocks[c]
    {
      OwnedElsewhere(sb, v, b, c);
    }
    KeepsData(sb, v, w, i, k, b, x);
  }

  lemma OwnedElsewhere(sb: Super, v: Volume, b: nat, c: nat)
    requires Accounted(sb, v) && b < sb.size && b != c && c in v.owner
    ensures c < sb.size && Allocated(sb, v.blocks, b)[c] == v.blocks[c]
  {
    hide Used, Marked;
    assert OwnerOk(sb, v, c);
    MetadataBelow(sb, b);
    MarkedElsewhere(sb, v.blocks, b, true, c);
  }

  lemma NewEntryKeeps(sb: Super, v: Volume, i: nat, j: nat, b: nat, x: nat)
    requires Owned(sb, v) && FreeBlock(sb, v, b) && i < |v.inodes| && j < NINDIRECT
    requires v.inodes[i].addrs[INDIRECT] != 0 && At(v, i, ENTRIES + j) == 0
    requires x < |v.inodes|
    ensures v.inodes[i].addrs[INDIRECT] < sb.size
    ensures Keeps(v, NewEntry(sb, v, i, j, b), x)
  {
    FreeIsData(sb, v, b);
    IndirectKept(sb, v, b, i);
    NewEntryOwned(sb, v, i, j, b);
    var w := NewEntry(sb, v, i, j, b);
    hide Used, Marked, Slot;
    forall c | c in v.owner && v.owner[c].slot != INDIRECT
      ensures c < sb.size && w.blocks[c] == v.blocks[c]
    {
      OwnedElsewhere(sb, v, b, c);
    }
    KeepsData(sb, v, w, i, ENTRIES + j, b, x);
  }

  // New contents for block a, which holds file data.
  function Written(v: Volume, a: nat, data: Block): (w: Volume)
    requires a < |v.blocks|
  {
    v.(blocks := v.blocks[a := data])
  }

  lemma WrittenSlot(sb: Super, v: Volume, i: nat, k: nat, data: Block, x: nat, j: nat)
    requires Owned(sb, v) && i < |v.inodes| && k < SLOTS && k != INDIRECT && At(v, i, k) != 0
    requires x < |v.inodes| && j < SLOTS
    ensures At(v, i, k) < |v.blocks| && At(Written(v, At(v, i, k), data), x, j) == At(v, x, j)
  {
    hide Used, Word;
    assert SlotOk(v, i, k);
    assert OwnerOk(sb, v, At(v, i, k));
    assert SlotOk(v, x, INDIRECT);
  }

  lemma WrittenUsed(sb: Super, v: Volume, a: nat, data: Block, c: nat)
    requires Shaped(sb, v.blocks) && DataStart(sb) <= a < sb.size && c < sb.size
    ensures Used(sb, Written(v, a, data).blocks, c) == Used(sb, v.blocks, c)
  {
    MetadataBelow(sb, c);
  }

  lemma WrittenOwned(sb: Super, v: Volume, i: nat, k: nat, data: Block)
    requires Owned(sb, v) && i < |v.inodes| && k < SLOTS && k != INDIRECT && At(v, i, k) != 0
    ensures At(v, i, k) < |v.blocks| && Owned(sb, Written(v, At(v, i, k), data))
  {
    assert SlotOk(v, i, k);
    var a := At(v, i, k);
    assert OwnerOk(sb, v, a);
    var w := Written(v, a, data);
    hide Used, Slot;
    forall x: nat, j: nat | x < |v.inodes| && j < SLOTS
      ensures At(w, x, j) == At(v, x, j)
    {
      WrittenSlot(sb, v, i, k, data, x, j);
    }
    SameSlots(sb, v, w, a, data);
  }

  lemma SameSlots(sb: Super, v: Volume, w: Volume, a: nat, data: Block)
    requires Owned(sb, v) && DataStart(sb) <= a < sb.size && w == Written(v, a, data)
    requires forall x: nat, j: nat :: x < |v.inodes| && j < SLOTS ==> At(w, x, j) == At(v, x, j)
    ensures Owned(sb, w)
  {
    hide At, Used, Layout;
    forall c | c in w.owner
      ensures OwnerOk(sb, w, c)
    {
      assert OwnerOk(sb, v, c);
    }
    forall c: nat | c < sb.size
      ensures BitOk(sb, w, c)
    {
      assert BitOk(sb, v, c);
      WrittenUsed(sb, v, a, data, c);
    }
    forall x: nat, j: nat | x < |w.inodes| && j < SLOTS
      ensures SlotOk(w, x, j)
    {
      assert SlotOk(v, x, j);
    }
  }

  lemma WrittenKeeps(sb: Super, v: Volume, i: nat, k: nat, data: Block, x: nat, j: nat)
    requires Owned(sb, v) && i < |v.inodes| && k < SLOTS && k != INDIRECT && At(v, i, k) != 0
    requires x < |v.inodes| && j < SLOTS && j != INDIRECT && (x != i || j != k)
    ensures At(v, i, k) < |v.blocks| && DataKept(v, Written(v, At(v, i, k), data), x, j)
  {
    hide Used, Slot;
    WrittenSlot(sb, v, i, k, data, x, j);
    assert SlotOk(v, x, j);
    assert SlotOk(v, i, k);
    if At(v, x, j) != 0 {
      assert OwnerOk(sb, v, At(v, x, j));
    }
  }
}
