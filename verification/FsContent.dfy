/**
  The bytes of a file: one flat sequence, spread over the data blocks that the
  block map of its inode names (fs.c).
 */
module FsContent {
  import opened FsBytes
  import opened FsVolume

  const MAXBYTES := MAXFILE * BSIZE

  // The slot of the bn-th block of a file.
  function DataSlot(bn: nat): (k: nat) {
    if bn < NDIRECT then bn else bn + 1
  }

  // Number of blocks that size bytes take.
  function Blocks(size: nat): (n: nat) {
    (size + BSIZE - 1) / BSIZE
  }

  predicate Needed(n: nat, k: nat) {
    if k < INDIRECT then k < n else if k == INDIRECT then n > NDIRECT else k - 1 < n
  }

  // The first n blocks of the file are mapped, and no others: there are no holes.
  ghost predicate Mapped(v: Volume, x: nat, n: nat)
    requires x < |v.inodes|
  {
    n <= MAXFILE && forall k: nat :: k < SLOTS ==> (At(v, x, k) != 0) == Needed(n, k)
  }

  ghost predicate Complete(v: Volume, x: nat)
    requires x < |v.inodes|
  {
    v.inodes[x].size <= MAXBYTES && Mapped(v, x, Blocks(v.inodes[x].size))
  }

  // The image between two operations.
  ghost predicate Consistent(sb: Super, v: Volume) {
    Owned(sb, v) && forall x: nat :: x < |v.inodes| ==> Complete(v, x)
  }

  // A free inode is empty: iput() truncates before it frees.
  ghost predicate FreeEmpty(v: Volume) {
    forall x: nat :: x < |v.inodes| && v.inodes[x].typ == 0 ==> v.inodes[x].size == 0
  }

  function ByteAt(v: Volume, x: nat, p: nat): (b: Byte)
    requires x < |v.inodes| && p < MAXBYTES
  {
    var a := At(v, x, DataSlot(p / BSIZE));
    if a < |v.blocks| then v.blocks[a][p % BSIZE] else 0
  }

  function Content(v: Volume, x: nat): (s: Bytes)
    requires x < |v.inodes| && v.inodes[x].size <= MAXBYTES
    ensures |s| == v.inodes[x].size
    ensures forall p: nat :: p < |s| ==> s[p] == ByteAt(v, x, p)
  {
    seq(v.inodes[x].size, p requires 0 <= p < v.inodes[x].size => ByteAt(v, x, p))
  }

  // Inode x has the same size, block map and bytes in v and w.
  ghost predicate SameFile(v: Volume, w: Volume, x: nat)
    requires x < |v.inodes| == |w.inodes|
  {
    w.inodes[x] == v.inodes[x] && v.inodes[x].size <= MAXBYTES && Content(w, x) == Content(v, x)
  }

  ghost predicate OthersSame(v: Volume, w: Volume, i: nat) {
    |v.inodes| == |w.inodes| && forall x: nat :: x < |v.inodes| && x != i ==> SameFile(v, w, x)
  }

  lemma MappedBlock(v: Volume, x: nat, n: nat, p: nat)
    requires x < |v.inodes| && Mapped(v, x, n) && p < n * BSIZE
    ensures p / BSIZE < n && DataSlot(p / BSIZE) < SLOTS && DataSlot(p / BSIZE) != INDIRECT
    ensures At(v, x, DataSlot(p / BSIZE)) != 0
  {
    hide At;
    var k := DataSlot(p / BSIZE);
    assert (At(v, x, k) != 0) == Needed(n, k);
  }

  lemma KeepsByte(v: Volume, w: Volume, x: nat, n: nat, p: nat)
    requires x < |v.inodes| == |w.inodes| && Mapped(v, x, n) && p < n * BSIZE && Keeps(v, w, x)
    ensures ByteAt(w, x, p) == ByteAt(v, x, p)
  {
    MappedBlock(v, x, n, p);
    hide At;
    assert DataKept(v, w, x, DataSlot(p / BSIZE));
  }

  lemma WholeBlocks(size: nat, p: nat)
    ensures p < size ==> p < Blocks(size) * BSIZE
  {
  }

  /** An inode that keeps its data blocks keeps its bytes. */
  lemma KeepsContent(v: Volume, w: Volume, x: nat)
    requires x < |v.inodes| == |w.inodes| && Complete(v, x) && Keeps(v, w, x) && w.inodes[x] == v.inodes[x]
    ensures Content(w, x) == Content(v, x)
  {
    hide At, ByteAt;
    forall p: nat | p < v.inodes[x].size
      ensures ByteAt(w, x, p) == ByteAt(v, x, p)
    {
      WholeBlocks(v.inodes[x].size, p);
      KeepsByte(v, w, x, Blocks(v.inodes[x].size), p);
    }
  }

  lemma KeepsComplete(v: Volume, w: Volume, x: nat)
    requires x < |v.inodes| == |w.inodes| && Complete(v, x) && w.inodes[x] == v.inodes[x]
    requires forall k: nat :: k < SLOTS ==> At(w, x, k) == At(v, x, k)
    ensures Complete(w, x)
  {
    hide At, Needed, Blocks;
  }

  ghost predicate SameStat(v: Volume, w: Volume, i: nat)
    requires i < |v.inodes| == |w.inodes|
  {
    w.inodes[i].typ == v.inodes[i].typ && w.inodes[i].size == v.inodes[i].size
  }

  // Only slot k of inode i moved from v to w, and no file lost a data block.
  ghost predicate Moves(v: Volume, w: Volume, i: nat, k: nat) {
    && i < |v.inodes| == |w.inodes| && SameStat(v, w, i)
    && (forall x: nat :: x < |v.inodes| && x != i ==> w.inodes[x] == v.inodes[x])
    && (forall x: nat, j: nat :: x < |v.inodes| && j < SLOTS && (x != i || j != k) ==> At(w, x, j) == At(v, x, j))
    && forall x: nat :: x < |v.inodes| ==> Keeps(v, w, x)
  }

  lemma NoMove(sb: Super, v: Volume, i: nat, k: nat)
    requires Owned(sb, v) && i < |v.inodes|
    ensures Moves(v, v, i, k)
  {
    hide Used, Slot;
    forall x: nat, j: nat | x < |v.inodes| && j < SLOTS
      ensures DataKept(v, v, x, j)
    {
      assert SlotOk(v, x, j);
      if At(v, x, j) != 0 {
        assert OwnerOk(sb, v, At(v, x, j));
      }
    }
  }

  lemma NewAddrMoves(sb: Super, v: Volume, i: nat, k: nat, b: nat)
    requires Owned(sb, v) && FreeBlock(sb, v, b) && i < |v.inodes| && k <= INDIRECT && v.inodes[i].addrs[k] == 0
    ensures var w := NewAddr(sb, v, i, k, b);
            Owned(sb, w) && Moves(v, w, i, k) && At(w, i, k) == b != 0
  {
    var w := NewAddr(sb, v, i, k, b);
    NewAddrOwned(sb, v, i, k, b);
    FreeIsData(sb, v, b);
    hide At, Owned, FreeBlock, Allocated, Keeps;
    forall x: nat | x < |v.inodes|
      ensures Keeps(v, w, x)
    {
      NewAddrKeeps(sb, v, i, k, b, x);
    }
  }

  lemma NewEntryMoves(sb: Super, v: Volume, i: nat, j: nat, b: nat)
    requires Owned(sb, v) && FreeBlock(sb, v, b) && i < |v.inodes| && j < NINDIRECT
    requires v.inodes[i].addrs[INDIRECT] != 0 && At(v, i, ENTRIES + j) == 0
    ensures v.inodes[i].addrs[INDIRECT] < sb.size
    ensures var w := NewEntry(sb, v, i, j, b);
            Owned(sb, w) && Moves(v, w, i, ENTRIES + j) && At(w, i, ENTRIES + j) == b != 0
  {
    NewEntryOwned(sb, v, i, j, b);
    var w := NewEntry(sb, v, i, j, b);
    FreeIsData(sb, v, b);
    hide At, Owned, FreeBlock, Allocated, Keeps;
    forall x: nat | x < |v.inodes|
      ensures Keeps(v, w, x)
    {
      NewEntryKeeps(sb, v, i, j, b, x);
    }
  }

  // bmap(ip, bn) has mapped block bn of the file, and nothing else changed.
  ghost predicate Grows(v: Volume, w: Volume, i: nat, bn: nat) {
    && i < |v.inodes| == |w.inodes| && SameStat(v, w, i) && bn < MAXFILE
    && (forall x: nat :: x < |v.inodes| && x != i ==> w.inodes[x] == v.inodes[x])
    && (forall x: nat, k: nat :: x < |v.inodes| && k < SLOTS && x != i ==> At(w, x, k) == At(v, x, k))
    && (forall x: nat :: x < |v.inodes| ==> Keeps(v, w, x))
    && Extends(v, w, i, bn)
  }

  ghost predicate Extends(v: Volume, w: Volume, i: nat, bn: nat)
    requires i < |v.inodes| == |w.inodes| && bn < MAXFILE
  {
    forall k: nat :: k < SLOTS ==>
      (At(w, i, k) != 0) == (At(v, i, k) != 0 || k == DataSlot(bn) || (bn >= NDIRECT && k == INDIRECT))
  }

  lemma GrowsIndirect(v: Volume, w: Volume, i: nat, bn: nat)
    requires Grows(v, w, i, bn) && bn >= NDIRECT
    ensures w.inodes[i].addrs[INDIRECT] != 0
  {
    assert At(w, i, INDIRECT) != 0;
  }

  lemma KeepsTransitive(v: Volume, u: Volume, w: Volume, x: nat)
    requires x < |v.inodes| == |u.inodes| == |w.inodes| && Keeps(v, u, x) && Keeps(u, w, x)
    ensures Keeps(v, w, x)
  {
    hide At;
    forall k: nat | k < SLOTS && k != INDIRECT
      ensures DataKept(v, w, x, k)
    {
      assert DataKept(v, u, x, k) && DataKept(u, w, x, k);
    }
  }

  lemma DirectGrows(v: Volume, w: Volume, i: nat, bn: nat)
    requires bn < NDIRECT && Moves(v, w, i, bn) && At(w, i, bn) != 0
    ensures Grows(v, w, i, bn)
  {
    hide At, Keeps;
  }

  lemma IndirectGrows(v: Volume, u: Volume, w: Volume, i: nat, bn: nat)
    requires NDIRECT <= bn < MAXFILE && Moves(v, u, i, INDIRECT) && Moves(u, w, i, DataSlot(bn))
    requires At(w, i, DataSlot(bn)) != 0 && At(u, i, INDIRECT) != 0
    ensures Grows(v, w, i, bn)
  {
    hide At, Keeps;
    forall x: nat | x < |v.inodes|
      ensures Keeps(v, w, x)
    {
      KeepsTransitive(v, u, w, x);
    }
    assert At(w, i, INDIRECT) == At(u, i, INDIRECT);
  }

  lemma ExtendsMapped(v: Volume, w: Volume, i: nat, n: nat, bn: nat)
    requires i < |v.inodes| == |w.inodes| && Mapped(v, i, n) && bn <= n && bn < MAXFILE && Extends(v, w, i, bn)
    ensures Mapped(w, i, if bn == n then n + 1 else n)
  {
    hide At;
    var n' := if bn == n then n + 1 else n;
    forall k: nat | k < SLOTS
      ensures (At(w, i, k) != 0) == Needed(n', k)
    {
      assert (At(v, i, k) != 0) == Needed(n, k);
    }
  }

  lemma MappedMissing(v: Volume, i: nat, n: nat, bn: nat)
    requires i < |v.inodes| && Mapped(v, i, n) && bn <= n && bn < MAXFILE
    ensures (At(v, i, DataSlot(bn)) == 0) == (bn == n)
    ensures bn >= NDIRECT && At(v, i, INDIRECT) == 0 ==> bn == n
  {
    hide At;
    assert (At(v, i, DataSlot(bn)) != 0) == Needed(n, DataSlot(bn));
    assert (At(v, i, INDIRECT) != 0) == Needed(n, INDIRECT);
  }

  // A piece s written at byte off, which lies in one block, is what the file then holds there.
  lemma WrittenByte(sb: Super, v: Volume, i: nat, n: nat, off: nat, s: Bytes, p: nat)
    requires Owned(sb, v) && i < |v.inodes| && Mapped(v, i, n) && off < n * BSIZE && off % BSIZE + |s| <= BSIZE
    requires p < n * BSIZE
    ensures MAXBYTES >= n * BSIZE && DataSlot(off / BSIZE) < SLOTS
    ensures At(v, i, DataSlot(off / BSIZE)) < |v.blocks|
    ensures var a := At(v, i, DataSlot(off / BSIZE));
            ByteAt(Written(v, a, Patch(v.blocks[a], off % BSIZE, s)), i, p)
            == if off <= p < off + |s| then s[p - off] else ByteAt(v, i, p)
  {
    MappedBlock(v, i, n, off);
    MappedBlock(v, i, n, p);
    var k, j := DataSlot(off / BSIZE), DataSlot(p / BSIZE);
    var a := At(v, i, k);
    hide Used, Slot, Owned;
    assert a < |v.blocks| by {
      WrittenOwned(sb, v, i, k, Zeros());
    }
    var data := Patch(v.blocks[a], off % BSIZE, s);
    if j == k {
      WrittenSlot(sb, v, i, k, data, i, j);
      assert p / BSIZE == off / BSIZE;
      assert p - off == p % BSIZE - off % BSIZE;
    } else {
      WrittenKeeps(sb, v, i, k, data, i, j);
      SameBlock(off, |s|, p);
    }
  }

  lemma SameBlock(off: nat, n: nat, p: nat)
    requires off % BSIZE + n <= BSIZE
    ensures off <= p < off + n ==> p / BSIZE == off / BSIZE
  {
    assert p == BSIZE * (off / BSIZE) + (off % BSIZE + (p - off));
  }

  // A free inode gets a type.  It had no blocks.
  function Retyped(v: Volume, i: nat, typ: nat): (w: Volume)
    requires i < |v.inodes|
  {
    v.(inodes := v.inodes[i := v.inodes[i].(typ := typ)])
  }

  lemma RetypedSlots(v: Volume, i: nat, typ: nat, x: nat, k: nat)
    requires i < |v.inodes| && x < |v.inodes| && k < SLOTS
    ensures At(Retyped(v, i, typ), x, k) == At(v, x, k)
  {
  }

  lemma RetypedOwned(sb: Super, v: Volume, i: nat, typ: nat)
    requires Owned(sb, v) && i < |v.inodes|
    ensures Owned(sb, Retyped(v, i, typ))
  {
    var w := Retyped(v, i, typ);
    hide At, Used, Layout;
    forall x: nat, k: nat | x < |v.inodes| && k < SLOTS
      ensures At(w, x, k) == At(v, x, k)
      ensures SlotOk(w, x, k)
    {
      RetypedSlots(v, i, typ, x, k);
      assert SlotOk(v, x, k);
    }
    forall b | b in w.owner
      ensures OwnerOk(sb, w, b)
    {
      assert OwnerOk(sb, v, b);
    }
    forall b: nat | b < sb.size
      ensures BitOk(sb, w, b)
    {
      assert BitOk(sb, v, b);
    }
  }

  lemma RetypedSame(sb: Super, v: Volume, i: nat, typ: nat)
    requires Consistent(sb, v) && i < |v.inodes|
    ensures Consistent(sb, Retyped(v, i, typ)) && OthersSame(v, Retyped(v, i, typ), i)
  {
    var w := Retyped(v, i, typ);
    RetypedOwned(sb, v, i, typ);
    hide At, Owned, Needed, Blocks;
    forall x: nat | x < |v.inodes|
      ensures Complete(w, x) && (x != i ==> SameFile(v, w, x))
    {
      assert Complete(v, x);
      forall k: nat | k < SLOTS
        ensures At(w, x, k) == At(v, x, k)
      {
        RetypedSlots(v, i, typ, x, k);
      }
    }
  }

  lemma NoBlocks(v: Volume, x: nat, k: nat)
    requires x < |v.inodes| && Complete(v, x) && v.inodes[x].size == 0 && k <= INDIRECT
    ensures v.inodes[x].addrs[k] == 0
  {
    assert (At(v, x, k) != 0) == Needed(0, k);
  }
}
