/** A write of consecutive bytes to one file, block by block (writei in fs.c). */
module FsWrite {
  import opened FsBytes
  import opened FsVolume
  import opened FsContent

  function Max(a: nat, b: nat): (m: nat) {
    if a < b then b else a
  }

  function Min(a: nat, b: nat): (m: nat) {
    if a < b then a else b
  }

  // The bytes c with s laid over them at off.
  function Overlay(c: Bytes, off: nat, s: Bytes): (r: Bytes)
    requires off <= |c|
    ensures |r| == Max(|c|, off + |s|)
    ensures forall p: nat :: p < |r| ==> r[p] == if off <= p < off + |s| then s[p - off] else c[p]
  {
    c[..off] + s + (if off + |s| < |c| then c[off + |s|..] else [])
  }

  lemma OverlayTwice(c: Bytes, off: nat, s: Bytes, t: Bytes)
    requires off <= |c|
    ensures Overlay(Overlay(c, off, s), off + |s|, t) == Overlay(c, off, s + t)
  {
    var r, q := Overlay(Overlay(c, off, s), off + |s|, t), Overlay(c, off, s + t);
    forall p: nat | p < |r|
      ensures r[p] == q[p]
    {
    }
  }

  // The file of inode x has the same inode, blocks and bytes in v and w.
  ghost predicate Alike(v: Volume, w: Volume, x: nat)
    requires x < |v.inodes| == |w.inodes|
  {
    w.inodes[x] == v.inodes[x] && Complete(w, x) && Keeps(v, w, x)
  }

  // What byte p must be when the bytes from off0 up to off have been written.
  function Expected(v: Volume, i: nat, src: Bytes, off0: nat, off: nat, p: nat): (b: Byte)
    requires i < |v.inodes| && off0 <= off <= off0 + |src| && p < MAXBYTES
  {
    if off0 <= p < off then src[p - off0] else ByteAt(v, i, p)
  }

  ghost predicate Bytewise(v: Volume, w: Volume, i: nat, src: Bytes, off0: nat, off: nat)
    requires i < |v.inodes| == |w.inodes| && off0 <= off <= off0 + |src| && off <= MAXBYTES && v.inodes[i].size <= MAXBYTES
  {
    forall p: nat :: p < Max(v.inodes[i].size, off) ==> ByteAt(w, i, p) == Expected(v, i, src, off0, off, p)
  }

  // writei() is under way: it started on v, is on w now, and off is its next byte.
  ghost predicate Writing(sb: Super, v: Volume, w: Volume, i: nat, src: Bytes, off0: nat, off: nat) {
    && i < |v.inodes| == |w.inodes| && Owned(sb, w)
    && off0 <= off <= off0 + |src| && off <= MAXBYTES && SameStat(v, w, i) && v.inodes[i].size <= MAXBYTES
    && (forall x: nat :: x < |v.inodes| && x != i ==> Alike(v, w, x))
    && Mapped(w, i, Max(Blocks(v.inodes[i].size), Blocks(off)))
    && Bytewise(v, w, i, src, off0, off)
  }

  lemma StartWriting(sb: Super, v: Volume, i: nat, src: Bytes, off: nat)
    requires Consistent(sb, v) && i < |v.inodes| && off <= v.inodes[i].size
    ensures Writing(sb, v, v, i, src, off, off)
  {
    BlocksMonotone(off, v.inodes[i].size);
    NoMove(sb, v, i, 0);
    assert Complete(v, i);
    hide At, Blocks, Keeps, ByteAt;
  }

  lemma BlocksMonotone(a: nat, b: nat)
    requires a <= b
    ensures Blocks(a) <= Blocks(b)
  {
  }

  // One step of the loop: off to off' lies in one block.
  predicate Piece(off: nat, off': nat) {
    off < off' && off % BSIZE + (off' - off) <= BSIZE
  }

  predicate Aligned(off: nat) {
    off % BSIZE == 0
  }

  // How many of the n bytes left go into the block of byte off.
  function PieceLength(off: nat, n: nat): (m: nat)
    requires n > 0
    ensures 0 < m <= n && Piece(off, off + m) && (m < n ==> Aligned(off + m))
  {
    var m := if n < BSIZE - off % BSIZE then n else BSIZE - off % BSIZE;
    assert off + (BSIZE - off % BSIZE) == BSIZE * (off / BSIZE + 1);
    m
  }

  lemma PieceBlocks(size: nat, off: nat, off': nat)
    requires Piece(off, off')
    ensures var n, bn := Max(Blocks(size), Blocks(off)), off / BSIZE;
            bn <= n && Max(Blocks(size), Blocks(off')) == (if bn == n then n + 1 else n) && off < (bn + 1) * BSIZE
  {
    assert Blocks(off') == off / BSIZE + 1;
    assert off / BSIZE <= Blocks(off) <= off / BSIZE + 1;
  }

  // Number of blocks the bytes from off to at lie in.
  function Touched(off: nat, at: nat): (n: int) {
    if at == off then 0 else Blocks(at) - off / BSIZE
  }

  lemma PieceTouched(off: nat, at: nat, at': nat)
    requires off <= at && Piece(at, at') && (at == off || Aligned(at))
    ensures Touched(off, at') == Touched(off, at) + 1
  {
    assert Blocks(at') == at / BSIZE + 1;
  }

  lemma WritingMissing(sb: Super, v: Volume, w: Volume, i: nat, src: Bytes, off0: nat, off: nat)
    requires Writing(sb, v, w, i, src, off0, off) && off < MAXBYTES
    ensures var n, bn := Max(Blocks(v.inodes[i].size), Blocks(off)), off / BSIZE;
            && bn <= n && (At(w, i, DataSlot(bn)) == 0) == (bn == n)
            && (bn >= NDIRECT && w.inodes[i].addrs[INDIRECT] == 0 ==> bn == n)
  {
    var n, bn := Max(Blocks(v.inodes[i].size), Blocks(off)), off / BSIZE;
    assert bn <= Blocks(off);
    MappedMissing(w, i, n, bn);
  }

  lemma WritingInodes(sb: Super, v: Volume, w: Volume, i: nat, src: Bytes, off0: nat, off: nat, size: nat)
    requires Writing(sb, v, w, i, src, off0, off)
    ensures Resized(w, i, size).inodes == v.inodes[i := Resized(w, i, size).inodes[i]]
  {
    hide Owned, Mapped, Complete, Keeps;
    forall x: nat | x < |v.inodes| && x != i
      ensures w.inodes[x] == v.inodes[x]
    {
      assert Alike(v, w, x);
    }
  }

  lemma GrowsAlike(v: Volume, w: Volume, u: Volume, i: nat, bn: nat, x: nat)
    requires i < |v.inodes| == |w.inodes| && Grows(w, u, i, bn) && x < |v.inodes| && x != i && Alike(v, w, x)
    ensures Alike(v, u, x)
  {
    hide At, Keeps;
    KeepsComplete(w, u, x);
    KeepsTransitive(v, w, u, x);
  }

  lemma WrittenAlike(sb: Super, v: Volume, u: Volume, i: nat, k: nat, data: Block, x: nat)
    requires Owned(sb, u) && i < |v.inodes| == |u.inodes| && k < SLOTS && k != INDIRECT && At(u, i, k) != 0
    requires x < |v.inodes| && x != i && Alike(v, u, x)
    ensures At(u, i, k) < |u.blocks| && Alike(v, Written(u, At(u, i, k), data), x)
  {
    hide Slot, Owned;
    WrittenSlot(sb, u, i, k, data, x, 0);
    var w := Written(u, At(u, i, k), data);
    forall j: nat | j < SLOTS
      ensures At(w, x, j) == At(u, x, j)
      ensures j != INDIRECT ==> DataKept(u, w, x, j)
    {
      WrittenSlot(sb, u, i, k, data, x, j);
      if j != INDIRECT {
        WrittenKeeps(sb, u, i, k, data, x, j);
      }
    }
    KeepsComplete(u, w, x);
    KeepsTransitive(v, u, w, x);
  }

  lemma WrittenMapped(sb: Super, u: Volume, i: nat, k: nat, data: Block, n: nat)
    requires Owned(sb, u) && i < |u.inodes| && k < SLOTS && k != INDIRECT && At(u, i, k) != 0 && Mapped(u, i, n)
    ensures At(u, i, k) < |u.blocks| && Mapped(Written(u, At(u, i, k), data), i, n)
  {
    hide Slot, Owned, Needed;
    WrittenSlot(sb, u, i, k, data, i, 0);
    var w := Written(u, At(u, i, k), data);
    forall j: nat | j < SLOTS
      ensures At(w, i, j) == At(u, i, j)
    {
      WrittenSlot(sb, u, i, k, data, i, j);
    }
  }

  lemma WriteByte(sb: Super, v: Volume, w: Volume, u: Volume, i: nat, src: Bytes, off0: nat, off: nat, off': nat, p: nat)
    requires Writing(sb, v, w, i, src, off0, off) && Piece(off, off') && off' <= off0 + |src| && off' <= MAXBYTES
    requires Grows(w, u, i, off / BSIZE) && Owned(sb, u) && p < Max(v.inodes[i].size, off')
    ensures DataSlot(off / BSIZE) < SLOTS && At(u, i, DataSlot(off / BSIZE)) < |u.blocks|
    ensures var a := At(u, i, DataSlot(off / BSIZE));
            ByteAt(Written(u, a, Patch(u.blocks[a], off % BSIZE, src[off - off0..off' - off0])), i, p)
            == Expected(v, i, src, off0, off', p)
  {
    var size := v.inodes[i].size;
    var n, n' := Max(Blocks(size), Blocks(off)), Max(Blocks(size), Blocks(off'));
    var s := src[off - off0..off' - off0];
    PieceBlocks(size, off, off');
    ExtendsMapped(w, u, i, n, off / BSIZE);
    WholeBlocks(size, p);
    WholeBlocks(off', p);
    WholeBlocks(size, p);
    WholeBlocks(off, p);
    hide Owned, At, ByteAt, Blocks, Keeps;
    assert p < n' * BSIZE;
    WrittenByte(sb, u, i, n', off, s, p);
    if !(off <= p < off') {
      assert p < Max(size, off);
      KeepsByte(w, u, i, n, p);
      assert ByteAt(w, i, p) == Expected(v, i, src, off0, off, p);
    }
  }

  lemma WriteStep(sb: Super, v: Volume, w: Volume, u: Volume, i: nat, src: Bytes, off0: nat, off: nat, off': nat)
    requires Writing(sb, v, w, i, src, off0, off) && Piece(off, off') && off' <= off0 + |src| && off' <= MAXBYTES
    requires Grows(w, u, i, off / BSIZE) && Owned(sb, u) && At(u, i, DataSlot(off / BSIZE)) != 0
    ensures var a := At(u, i, DataSlot(off / BSIZE));
            && a < |u.blocks|
            && Writing(sb, v, Written(u, a, Patch(u.blocks[a], off % BSIZE, src[off - off0..off' - off0])), i, src, off0, off')
  {
    var k := DataSlot(off / BSIZE);
    var a := At(u, i, k);
    var size := v.inodes[i].size;
    hide Owned, At, ByteAt, Blocks, Keeps, Mapped, Alike;
    WriteByte(sb, v, w, u, i, src, off0, off, off', off);
    var data := Patch(u.blocks[a], off % BSIZE, src[off - off0..off' - off0]);
    var t := Written(u, a, data);
    PieceBlocks(size, off, off');
    ExtendsMapped(w, u, i, Max(Blocks(size), Blocks(off)), off / BSIZE);
    WrittenMapped(sb, u, i, k, data, Max(Blocks(size), Blocks(off')));
    WrittenOwned(sb, u, i, k, data);
    forall x: nat | x < |v.inodes| && x != i
      ensures Alike(v, t, x)
    {
      GrowsAlike(v, w, u, i, off / BSIZE, x);
      WrittenAlike(sb, v, u, i, k, data, x);
    }
    forall p: nat | p < Max(size, off')
      ensures ByteAt(t, i, p) == Expected(v, i, src, off0, off', p)
    {
      WriteByte(sb, v, w, u, i, src, off0, off, off', p);
    }
  }

  // The end of writei(): the file may have grown.
  function Resized(v: Volume, i: nat, size: nat): (w: Volume)
    requires i < |v.inodes|
  {
    v.(inodes := v.inodes[i := v.inodes[i].(size := size)])
  }

  lemma ResizedSlots(v: Volume, i: nat, size: nat, x: nat, k: nat)
    requires i < |v.inodes| && x < |v.inodes| && k < SLOTS
    ensures At(Resized(v, i, size), x, k) == At(v, x, k)
  {
  }

  lemma ResizedOwned(sb: Super, v: Volume, i: nat, size: nat)
    requires Owned(sb, v) && i < |v.inodes|
    ensures Owned(sb, Resized(v, i, size))
  {
    var w := Resized(v, i, size);
    hide At, Used, Layout;
    forall x: nat, k: nat | x < |v.inodes| && k < SLOTS
      ensures At(w, x, k) == At(v, x, k)
      ensures SlotOk(w, x, k)
    {
      ResizedSlots(v, i, size, x, k);
      assert SlotOk(v, x, k);
    }
    forall b | b in w.owner
      ensures OwnerOk(sb, w, b)
    {
      assert OwnerOk(sb, v, b);
    }
    forall b: nat | b < sb.size
      ensures BitOk(sb, w, b)
    {
      assert BitOk(sb, v, b);
    }
  }

  lemma ResizedMapped(v: Volume, i: nat, size: nat, x: nat, n: nat)
    requires i < |v.inodes| && x < |v.inodes| && Mapped(v, x, n)
    ensures Mapped(Resized(v, i, size), x, n)
  {
    hide At, Needed;
    forall k: nat | k < SLOTS
      ensures At(Resized(v, i, size), x, k) == At(v, x, k)
    {
      ResizedSlots(v, i, size, x, k);
    }
  }

  lemma ResizedKeeps(v: Volume, w: Volume, i: nat, size: nat, x: nat)
    requires i < |v.inodes| == |w.inodes| && x < |v.inodes| && Keeps(v, w, x)
    ensures Keeps(v, Resized(w, i, size), x)
  {
    hide At;
    forall k: nat | k < SLOTS && k != INDIRECT
      ensures DataKept(v, Resized(w, i, size), x, k)
    {
      assert DataKept(v, w, x, k);
      ResizedSlots(w, i, size, x, k);
    }
  }

  lemma ResizedByte(v: Volume, i: nat, size: nat, p: nat)
    requires i < |v.inodes| && p < MAXBYTES
    ensures ByteAt(Resized(v, i, size), i, p) == ByteAt(v, i, p)
  {
  }

  /** A finished write: the file is the old one with src laid over it, and every other file is as it was. */
  lemma FinishWriting(sb: Super, v: Volume, w: Volume, i: nat, src: Bytes, off: nat)
    requires Consistent(sb, v) && Writing(sb, v, w, i, src, off, off + |src|) && off <= v.inodes[i].size
    ensures var t := Resized(w, i, Max(v.inodes[i].size, off + |src|));
            && Consistent(sb, t) && t.inodes[i].size <= MAXBYTES && t.inodes[i].typ == v.inodes[i].typ
            && Content(t, i) == Overlay(Content(v, i), off, src)
            && OthersSame(v, t, i)
  {
    var size := Max(v.inodes[i].size, off + |src|);
    var t := Resized(w, i, size);
    assert Max(Blocks(v.inodes[i].size), Blocks(off + |src|)) == Blocks(size) by {
      BlocksMonotone(v.inodes[i].size, size);
      BlocksMonotone(off + |src|, size);
    }
    hide At, Blocks, Keeps, ByteAt, Owned, Mapped;
    ResizedOwned(sb, w, i, size);
    ResizedMapped(w, i, size, i, Blocks(size));
    forall x: nat | x < |v.inodes| && x != i
      ensures Complete(t, x) && SameFile(v, t, x)
    {
      assert Alike(v, w, x);
      ResizedMapped(w, i, size, x, Blocks(w.inodes[x].size));
      ResizedKeeps(v, w, i, size, x);
      KeepsContent(v, t, x);
    }
    forall p: nat | p < size
      ensures Content(t, i)[p] == Overlay(Content(v, i), off, src)[p]
    {
      ResizedByte(w, i, size, p);
      assert ByteAt(w, i, p) == Expected(v, i, src, off, off + |src|, p);
    }
  }

  lemma PieceAddr(sb: Super, v: Volume, i: nat, off: nat)
    requires Owned(sb, v) && i < |v.inodes| && Complete(v, i) && off < v.inodes[i].size
    ensures off / BSIZE < MAXFILE && 0 < At(v, i, DataSlot(off / BSIZE)) < |v.blocks|
    ensures off / BSIZE >= NDIRECT ==> v.inodes[i].addrs[INDIRECT] != 0
  {
    var size := v.inodes[i].size;
    WholeBlocks(size, off);
    MappedBlock(v, i, Blocks(size), off);
    MappedMissing(v, i, Blocks(size), off / BSIZE);
    SlotInRange(sb, v, i, DataSlot(off / BSIZE));
  }

  // The bytes of a file that lie in one block are that part of the block.
  lemma PieceBytes(sb: Super, v: Volume, i: nat, off: nat, n: nat)
    requires Owned(sb, v) && i < |v.inodes| && Complete(v, i) && off + n <= v.inodes[i].size && Piece(off, off + n)
    ensures off / BSIZE < MAXFILE && 0 < At(v, i, DataSlot(off / BSIZE)) < |v.blocks|
    ensures v.blocks[At(v, i, DataSlot(off / BSIZE))][off % BSIZE..off % BSIZE + n] == Content(v, i)[off..off + n]
  {
    hide Owned, At, Mapped, Blocks;
    PieceAddr(sb, v, i, off);
    var s := v.blocks[At(v, i, DataSlot(off / BSIZE))][off % BSIZE..off % BSIZE + n];
    forall p: nat | p < n
      ensures s[p] == Content(v, i)[off + p]
    {
      SameBlock(off, n, off + p);
      assert (off + p) % BSIZE == off % BSIZE + p;
    }
  }
}
