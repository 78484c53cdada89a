/**
  The block allocator and the inode operations of fs.c, one call at a time
  under the inode lock.
 */
module FileSystem {
  import Log
  import opened FsBytes
  import opened FsVolume
  import opened FsContent
  import opened FsTruncate
  import opened FsWrite
  import opened Results

  lemma MoreIsLarger(s: set<nat>, t: set<nat>)
    requires s <= t
    ensures |s| <= |t|
  {
    assert t == s + (t - s);
  }

  lemma UnionSize(s: set<nat>, t: set<nat>)
    ensures |s + t| <= |s| + |t|
  {
    assert s + t == s + (t - s);
    MoreIsLarger(t - s, t);
  }

  // The 32-bit sum of the source.
  function Sum32(off: nat, n: nat): (s: nat)
    requires off < WORD_LIMIT && n < WORD_LIMIT
    ensures s < off <==> off + n >= WORD_LIMIT
    ensures s >= off ==> s == off + n
  {
    (off + n) % WORD_LIMIT
  }

  // At most this many blocks are logged by a write of n bytes at off: the data
  // blocks, a bitmap block for each block that has to be mapped, one of them
  // perhaps the indirect block, then the indirect block and the inode block.
  function Cost(off: nat, n: nat): (c: int) {
    (Blocks(off + n) - off / BSIZE) + (Blocks(off + n) - Blocks(off)) + 3
  }

  // The blocks logged by a write that has gone from off to at: its data blocks,
  // the bitmap blocks of what it mapped, the indirect block.
  ghost predicate Charged(logged: set<nat>, base: set<nat>, data: set<nat>, bits: set<nat>, ind: set<nat>, had: set<nat>,
                          off: nat, at: nat, size: nat) {
    && logged <= base + data + bits + ind && had <= ind
    && |data| <= Touched(off, at)
    && |bits| <= Max(Blocks(size), Blocks(at)) - Blocks(size) + (if had == ind then 0 else 1)
  }

  lemma ChargedNext(logged: set<nat>, base: set<nat>, data: set<nat>, bits: set<nat>, ind: set<nat>, had: set<nat>,
                    off: nat, at: nat, size: nat, at': nat, logged': set<nat>, a: set<nat>, more: set<nat>, ind': set<nat>)
    requires Charged(logged, base, data, bits, ind, had, off, at, size)
    requires off <= at && Piece(at, at') && (at == off || Aligned(at))
    requires logged' <= logged + more + a + ind' && ind <= ind' && |a| <= 1
    requires var n := Max(Blocks(size), Blocks(at));
             |more| <= (if at / BSIZE == n then 1 else 0) + (if ind == {} && ind' != {} then 1 else 0)
    ensures Charged(logged', base, data + a, bits + more, ind', had, off, at', size)
  {
    PieceBlocks(size, at, at');
    PieceTouched(off, at, at');
    UnionSize(bits, more);
    UnionSize(data, a);
  }

  lemma ChargedMore(logged: set<nat>, base: set<nat>, data: set<nat>, bits: set<nat>, ind: set<nat>, had: set<nat>,
                    off: nat, at: nat, size: nat, at': nat)
    requires Charged(logged, base, data, bits, ind, had, off, at, size) && off <= at <= at'
    ensures Charged(logged, base, data, bits, ind, had, off, at', size)
  {
    BlocksMonotone(at, at');
    assert off / BSIZE <= Blocks(off) <= Blocks(at');
  }

  // From v to w every block that changed was logged, and no owned block changed hands.
  ghost predicate Covered(v: Volume, w: Volume, logged: set<nat>) {
    && |v.blocks| == |w.blocks|
    && (forall b :: 0 <= b < |v.blocks| && w.blocks[b] != v.blocks[b] ==> b in logged)
    && forall b :: b in v.owner ==> b in w.owner && w.owner[b] == v.owner[b]
  }

  lemma CoveredTrans(v: Volume, u: Volume, w: Volume, some: set<nat>, all: set<nat>)
    requires Covered(v, u, some) && Covered(u, w, all) && some <= all
    ensures Covered(v, w, all)
  {
  }

  lemma NewAddrCovered(sb: Super, v: Volume, i: nat, k: nat, b: nat, logged: set<nat>)
    requires Accounted(sb, v) && FreeBlock(sb, v, b) && i < |v.inodes| && k <= INDIRECT
    requires BitmapBlock(sb, b) in logged && b in logged
    ensures Covered(v, NewAddr(sb, v, i, k, b), logged)
  {
    FreeIsData(sb, v, b);
  }

  lemma NewEntryCovered(sb: Super, v: Volume, i: nat, j: nat, b: nat, logged: set<nat>)
    requires Accounted(sb, v) && FreeBlock(sb, v, b) && i < |v.inodes| && j < NINDIRECT
    requires v.inodes[i].addrs[INDIRECT] < |v.blocks| && v.inodes[i].addrs[INDIRECT] in logged
    requires BitmapBlock(sb, b) in logged && b in logged
    ensures Covered(v, NewEntry(sb, v, i, j, b), logged)
  {
    FreeIsData(sb, v, b);
  }

  lemma ChargedTotal(logged: set<nat>, base: set<nat>, data: set<nat>, bits: set<nat>, ind: set<nat>, had: set<nat>,
                     off: nat, n: nat, size: nat)
    requires Charged(logged, base, data, bits, ind, had, off, off + n, size) && |ind| <= 1 && off <= size
    ensures |logged| <= |base| + Cost(off, n) - 1
  {
    MoreIsLarger(logged, base + data + bits + ind);
    UnionSize(base + data + bits, ind);
    UnionSize(base + data, bits);
    UnionSize(base, data);
    BlocksMonotone(off, size);
    BlocksMonotone(off, off + n);
  }

  // The log_write() calls of every operation, the last one perhaps unfinished.
  type Calls = seq<seq<nat>>

  function Called(ops: Calls, b: nat): (r: Calls) {
    if ops == [] then [[b]] else ops[|ops| - 1 := ops[|ops| - 1] + [b]]
  }

  // What the last operation has logged, and whether all have kept to their reservation.
  ghost predicate Traced(ops: Calls, logged: set<nat>, within: bool) {
    && logged == (if ops == [] then {} else Log.Elements(ops[|ops| - 1]))
    && (within ==> forall k :: 0 <= k < |ops| ==> Log.Thrifty(ops[k]))
  }

  lemma TracedCall(ops: Calls, logged: set<nat>, within: bool, b: nat)
    requires Traced(ops, logged, within)
    ensures Traced(Called(ops, b), logged + {b}, within && |logged| < Log.MAXOPBLOCKS)
  {
    var op := if ops == [] then [] else ops[|ops| - 1];
    Log.ThriftyNext(op, b);
  }

  lemma MovesElsewhere(v: Volume, w: Volume, i: nat, k: nat, j: nat)
    requires Moves(v, w, i, k) && j < SLOTS && j != k
    ensures i < |v.inodes| == |w.inodes| && At(w, i, j) == At(v, i, j)
  {
  }

  lemma MovesSize(v: Volume, w: Volume, i: nat, k: nat)
    requires Moves(v, w, i, k)
    ensures |w.inodes| == |v.inodes|
  {
  }

  class Fs {
    const sb: Super
    var blocks: seq<Block>        // what bread() gives for each block
    var inodes: seq<Inode>        // the inodes as cached in memory
    var dinodes: seq<Inode>       // the inodes in the inode blocks
    var logged: set<nat>          // the blocks this operation has passed to log_write()
    ghost var within: bool        // no log_write() came when the operation had spent MAXOPBLOCKS blocks
    ghost var ops: Calls          // all log_write() calls so far
    ghost var vol: Volume         // blocks and inodes, with the owner of every data block

    ghost predicate Ready()
      reads this
    {
      && vol.blocks == blocks && vol.inodes == inodes && Owned(sb, vol)
      && |inodes| == |dinodes| == sb.ninodes && Traced(ops, logged, within)
    }

    // As long as the operation has not spent its blocks it has stayed within them.
    ghost predicate Spends(before: set<nat>, ok: bool)
      reads this
    {
      before <= logged && (ok && |logged| < Log.MAXOPBLOCKS ==> within)
    }

    // The file system on an image that mkfs or an earlier run has left.
    constructor (sb: Super, blocks: seq<Block>, inodes: seq<Inode>, ghost owner: map<nat, Place>)
      requires Consistent(sb, Volume(blocks, inodes, owner)) && |inodes| == sb.ninodes
      ensures Settled() && vol == Volume(blocks, inodes, owner) && this.sb == sb && logged == {} && within && ops == []
    {
      this.sb, this.blocks, this.inodes, this.dinodes := sb, blocks, inodes, inodes;
      this.logged, this.within, this.ops, this.vol := {}, true, [], Volume(blocks, inodes, owner);
    }

    method LogWrite(b: nat)
      requires Traced(ops, logged, within)
      modifies this`logged, this`within, this`ops
      ensures logged == old(logged) + {b} && Spends(old(logged), old(within))
      ensures old(within) && |old(logged)| < Log.MAXOPBLOCKS ==> within
      ensures Traced(ops, logged, within)
    {
      TracedCall(ops, logged, within, b);
      ops := Called(ops, b);
      hide Traced;
      within := within && |logged| < Log.MAXOPBLOCKS;
      logged := logged + {b};
      MoreIsLarger(old(logged), logged);
    }

    // begin_op(): an operation starts with nothing logged.
    method BeginOp()
      requires Traced(ops, logged, within)
      modifies this`logged, this`ops
      ensures logged == {} && ops == old(ops) + [[]] && Traced(ops, logged, within)
    {
      ops := ops + [[]];
      logged := {};
    }

    method Bzero(b: nat)
      requires b < |blocks| && Traced(ops, logged, within)
      modifies this`blocks, this`logged, this`within, this`ops
      ensures Traced(ops, logged, within) && blocks == old(blocks)[b := Zeros()]
      ensures logged == old(logged) + {b} && Spends(old(logged), old(within))
    {
      blocks := blocks[b := Zeros()];
      LogWrite(b);
    }

    // The scan of balloc(): the first free block, if there is one.
    method FindFree() returns (r: Outcome<nat>)
      requires Shaped(sb, blocks)
      ensures r.Done? ==> r.value < sb.size && !Used(sb, blocks, r.value)
      ensures forall c: nat :: c < (if r.Done? then r.value else sb.size) ==> Used(sb, blocks, c)
    {
      hide Used, Bit, Layout, Traced;
      var b := 0;
      while b < sb.size
        invariant b % BPB == 0
        invariant forall c: nat :: c < b && c < sb.size ==> Used(sb, blocks, c)
      {
        UsedBit(sb, blocks, b, 0);
        var data := blocks[BitmapBlock(sb, b)];
        var bi := 0;
        while bi < BPB && b + bi < sb.size
          invariant 0 <= bi <= BPB
          invariant forall c: nat :: c < b + bi && c < sb.size ==> Used(sb, blocks, c)
        {
          UsedBit(sb, blocks, b, bi);
          if !Bit(data[bi / 8], bi % 8) {
            return Done(b + bi);
          }
          bi := bi + 1;
        }
        b := b + BPB;
      }
      return Panic("balloc: out of blocks");
    }

    // Writes the bit of block b.
    method PutInUse(b: nat, on: bool)
      requires Shaped(sb, blocks) && b < sb.size && Traced(ops, logged, within)
      modifies this`blocks, this`logged, this`within, this`ops
      ensures Traced(ops, logged, within) && blocks == Marked(sb, old(blocks), b, on)
      ensures logged == old(logged) + {BitmapBlock(sb, b)} && Spends(old(logged), old(within))
    {
      MetadataBelow(sb, b);
      var n, bi := BitmapBlock(sb, b), b % BPB;
      InBitmapBlock(b - bi, bi);
      hide Layout, Traced;
      var data := blocks[n];
      blocks := blocks[n := data[bi / 8 := WithBit(data[bi / 8], bi % 8, on)]];
      LogWrite(n);
    }

    /** balloc(): the first free block, marked and zeroed; it panics only on a full disk. */
    method Balloc() returns (r: Outcome<nat>)
      requires Shaped(sb, blocks) && Traced(ops, logged, within)
      modifies this`blocks, this`logged, this`within, this`ops
      ensures Traced(ops, logged, within) && Spends(old(logged), old(within))
      ensures r.Panic? ==> blocks == old(blocks) && logged == old(logged) && forall c: nat :: c < sb.size ==> Used(sb, blocks, c)
      ensures r.Done? ==> r.value < sb.size && !Used(sb, old(blocks), r.value)
      ensures r.Done? ==> forall c: nat :: c < r.value ==> Used(sb, old(blocks), c)
      ensures r.Done? ==> blocks == Allocated(sb, old(blocks), r.value)
      ensures r.Done? ==> logged == old(logged) + {BitmapBlock(sb, r.value), r.value}
    {
      r := FindFree();
      hide Used, Layout, Marked, BitmapBlock, Traced;
      if r.Done? {
        PutInUse(r.value, true);
        MoreIsLarger(logged, logged + {r.value});
        Bzero(r.value);
      }
    }

    /** bfree(): the bit is cleared; it panics exactly on a block that is free. */
    method Bfree(b: nat) returns (r: Outcome<()>)
      requires Shaped(sb, blocks) && b < sb.size && Traced(ops, logged, within)
      modifies this`blocks, this`logged, this`within, this`ops
      ensures Traced(ops, logged, within) && r.Done? == Used(sb, old(blocks), b)
      ensures blocks == if r.Done? then Marked(sb, old(blocks), b, false) else old(blocks)
      ensures logged == if r.Done? then old(logged) + {BitmapBlock(sb, b)} else old(logged)
    {
      MetadataBelow(sb, b);
      var bi := b % BPB;
      UsedBit(sb, blocks, b - bi, bi);
      InBitmapBlock(b - bi, bi);
      hide Layout, Traced;
      if !Bit(blocks[BitmapBlock(sb, b)][bi / 8], bi % 8) {
        return Panic("freeing free block");
      }
      PutInUse(b, false);
      return Done(());
    }

    // The log_write() calls of a bmap() that mapped a block: bits is their bitmap blocks.
    ghost predicate Logs(before: set<nat>, bits: set<nat>, n: nat, a: set<nat>, ind: set<nat>)
      reads this
    {
      |bits| <= n && logged <= before + bits + a + ind
    }

    ghost predicate Full()
      reads this
    {
      Shaped(sb, blocks) && forall c: nat :: c < sb.size ==> Used(sb, blocks, c)
    }

    // addrs[k], allocated if necessary.
    method MapAddr(i: nat, k: nat) returns (r: Outcome<nat>, ghost bits: set<nat>)
      requires Ready() && i < |inodes| && k <= INDIRECT
      modifies this`blocks, this`inodes, this`logged, this`within, this`ops, this`vol
      ensures Spends(old(logged), old(within))
      ensures Ready() && Covered(old(vol), vol, logged)
      ensures r.Panic? ==> Full() && old(inodes[i].addrs[k]) == 0
      ensures r.Done? ==> Moves(old(vol), vol, i, k) && At(vol, i, k) == r.value != 0
      ensures if r.Panic? || old(inodes[i].addrs[k]) != 0 then bits == {} && vol == old(vol) && logged == old(logged)
              else Logs(old(logged), bits, 1, {r.value}, {})
    {
      hide Traced;
      bits := {};
      var addr := inodes[i].addrs[k];
      if addr != 0 {
        NoMove(sb, vol, i, k);
        return Done(addr), {};
      }
      ghost var v := vol;
      r := Balloc();
      if r.Done? {
        var b := r.value;
        bits := {BitmapBlock(sb, b)};
        NewAddrCovered(sb, v, i, k, b, logged);
        NewAddrMoves(sb, v, i, k, b);
        hide Covered;
        var node := inodes[i];
        inodes := inodes[i := node.(addrs := node.addrs[k := b])];
        vol := NewAddr(sb, v, i, k, b);
      }
    }

    // Entry j of the indirect block, allocated if necessary.
    method MapEntry(i: nat, j: nat) returns (r: Outcome<nat>, ghost bits: set<nat>)
      requires Ready() && i < |inodes| && j < NINDIRECT && inodes[i].addrs[INDIRECT] != 0
      modifies this`blocks, this`logged, this`within, this`ops, this`vol
      ensures Spends(old(logged), old(within))
      ensures Ready() && Covered(old(vol), vol, logged)
      ensures r.Panic? ==> Full() && old(At(vol, i, ENTRIES + j)) == 0
      ensures r.Done? ==> Moves(old(vol), vol, i, ENTRIES + j) && At(vol, i, ENTRIES + j) == r.value != 0
      ensures if r.Panic? || old(At(vol, i, ENTRIES + j)) != 0 then bits == {} && vol == old(vol) && logged == old(logged)
              else Logs(old(logged), bits, 1, {r.value}, {inodes[i].addrs[INDIRECT]})
    {
      hide Traced;
      bits := {};
      var a := inodes[i].addrs[INDIRECT];
      ghost var v := vol;
      SlotInRange(sb, v, i, INDIRECT);
      var data := blocks[a];
      var addr := Word(data, j);
      if addr != 0 {
        NoMove(sb, vol, i, ENTRIES + j);
        return Done(addr), {};
      }
      r := Balloc();
      if r.Done? {
        var b := r.value;
        bits := {BitmapBlock(sb, b)};
        NewEntryCovered(sb, v, i, j, b, logged + {a});
        NewEntryMoves(sb, v, i, j, b);
        hide Covered;
        blocks := blocks[a := WithWord(data, j, b)];
        MoreIsLarger(logged, logged + {a});
        LogWrite(a);
        vol := NewEntry(sb, v, i, j, b);
      }
    }

    ghost function Indirect(i: nat): (s: set<nat>)
      requires i < |inodes|
      reads this
    {
      if inodes[i].addrs[INDIRECT] == 0 then {} else {inodes[i].addrs[INDIRECT]}
    }

    // Number of blocks bmap(i, bn) has to allocate.
    ghost function Missing(i: nat, bn: nat): (n: nat)
      requires i < |inodes| && bn < MAXFILE && vol.inodes == inodes
      reads this
    {
      (if At(vol, i, DataSlot(bn)) == 0 then 1 else 0)
      + (if bn >= NDIRECT && inodes[i].addrs[INDIRECT] == 0 then 1 else 0)
    }

    // bmap() started on v with the indirect block missing or not, and has it now.
    ghost predicate HasIndirect(v: Volume, i: nat, base: set<nat>, bits: set<nat>)
      reads this
    {
      && Ready() && i < |v.inodes| == |inodes| && inodes[i].addrs[INDIRECT] != 0
      && Moves(v, vol, i, INDIRECT) && Covered(v, vol, logged)
      && if v.inodes[i].addrs[INDIRECT] != 0 then bits == {} && vol == v && logged == base
         else Logs(base, bits, 1, {inodes[i].addrs[INDIRECT]}, {})
    }

    // The entry of the indirect block, when that is there.
    method MapBehind(i: nat, bn: nat, ghost v: Volume, ghost base: set<nat>, ghost ok: bool, ghost had: set<nat>)
      returns (r: Outcome<nat>, ghost bits: set<nat>)
      requires HasIndirect(v, i, base, had) && Spends(base, ok) && NDIRECT <= bn < MAXFILE
      modifies this`blocks, this`logged, this`within, this`ops, this`vol
      ensures Spends(base, ok) && Ready() && Covered(v, vol, logged)
      ensures r.Panic? ==> Full() && At(v, i, DataSlot(bn)) == 0 && bits == had
      ensures r.Done? ==> Grows(v, vol, i, bn) && At(vol, i, DataSlot(bn)) == r.value != 0
      ensures r.Done? && At(v, i, DataSlot(bn)) != 0 && v.inodes[i].addrs[INDIRECT] != 0 ==> vol == v && logged == base
      ensures Logs(base, bits, |had| + (if r.Panic? || At(v, i, DataSlot(bn)) != 0 then 0 else 1),
                   if r.Done? then {r.value} else {}, {inodes[i].addrs[INDIRECT]})
    {
      hide Owned, Shaped, Grows, Covered, Full, Traced, Moves, At;
      ghost var u, mid := vol, logged;
      ghost var more;
      MovesElsewhere(v, u, i, INDIRECT, DataSlot(bn));
      DirectSlot(u, i, INDIRECT);
      r, more := MapEntry(i, bn - NDIRECT);
      MoreIsLarger(mid, logged);
      CoveredTrans(v, u, vol, mid, logged);
      UnionSize(had, more);
      bits := had;
      if r.Done? {
        IndirectGrows(v, u, vol, i, bn);
        bits := had + more;
      }
    }

    // The part of bmap() behind the direct blocks.
    method MapIndirect(i: nat, bn: nat) returns (r: Outcome<nat>, ghost bits: set<nat>)
      requires Ready() && i < |inodes| && NDIRECT <= bn < MAXFILE
      modifies this`blocks, this`inodes, this`logged, this`within, this`ops, this`vol
      ensures Spends(old(logged), old(within))
      ensures r.Panic? ==> Full() && old(Missing(i, bn)) > 0
      ensures Ready() && |inodes| == |old(inodes)| && Covered(old(vol), vol, logged)
      ensures r.Done? ==> Grows(old(vol), vol, i, bn) && At(vol, i, DataSlot(bn)) == r.value != 0
      ensures r.Done? && old(Missing(i, bn)) == 0 ==> vol == old(vol) && logged == old(logged)
      ensures old(Indirect(i)) <= Indirect(i)
      ensures r.Panic? ==> |bits| <= 1 && (Indirect(i) == old(Indirect(i)) ==> bits == {})
      ensures Logs(old(logged), bits, old(Missing(i, bn)), if r.Done? then {r.value} else {}, Indirect(i))
    {
      hide Owned, Shaped, Grows, Covered, Full, Traced, At, Moves;
      DirectSlot(vol, i, INDIRECT);
      r, bits := MapAddr(i, INDIRECT);
      if r.Done? {
        DirectSlot(vol, i, INDIRECT);
        MovesSize(old(vol), vol, i, INDIRECT);
        r, bits := MapBehind(i, bn, old(vol), old(logged), old(within), bits);
      }
    }

    /** bmap(): the disk block of block bn of the file, mapped if it was not. */
    method Bmap(i: nat, bn: nat) returns (r: Outcome<nat>, ghost bits: set<nat>)
      requires Ready() && i < |inodes|
      modifies this`blocks, this`inodes, this`logged, this`within, this`ops, this`vol
      ensures Spends(old(logged), old(within))
      ensures r.Panic? ==> bn >= MAXFILE || (Full() && old(Missing(i, bn)) > 0)
      ensures Ready() && |inodes| == |old(inodes)| && Covered(old(vol), vol, logged)
      ensures r.Done? ==> Grows(old(vol), vol, i, bn) && At(vol, i, DataSlot(bn)) == r.value != 0
      ensures r.Done? && old(Missing(i, bn)) == 0 ==> vol == old(vol) && logged == old(logged)
      ensures old(Indirect(i)) <= Indirect(i)
      ensures r.Panic? ==> |bits| <= 1 && (Indirect(i) == old(Indirect(i)) ==> bits == {})
      ensures bn < MAXFILE ==> Logs(old(logged), bits, old(Missing(i, bn)), if r.Done? then {r.value} else {}, Indirect(i))
    {
      if bn < NDIRECT {
        hide Owned, Grows;
        r, bits := MapAddr(i, bn);
        if r.Done? {
          assert At(vol, i, INDIRECT) == old(At(vol, i, INDIRECT));
          hide Moves;
          DirectGrows(old(vol), vol, i, bn);
        }
      } else if bn < MAXFILE {
        r, bits := MapIndirect(i, bn);
      } else {
        r, bits := Panic("bmap: out of range"), {};
      }
    }

    // iupdate(): the cached inode goes to its inode block.
    method IUpdate(i: nat)
      requires i < |inodes| == |dinodes| && Traced(ops, logged, within)
      modifies this`dinodes, this`logged, this`within, this`ops
      ensures Traced(ops, logged, within) && dinodes == old(dinodes)[i := inodes[i]]
      ensures logged == old(logged) + {InodeBlock(sb, i)}
      ensures old(within) && |old(logged)| < Log.MAXOPBLOCKS ==> within
    {
      dinodes := dinodes[i := inodes[i]];
      LogWrite(InodeBlock(sb, i));
    }

    // One turn of the loop of writei(): the bytes s go into one block.
    method WriteBlock(i: nat, off: nat, s: Bytes) returns (r: Outcome<nat>, ghost u: Volume, ghost bits: set<nat>)
      requires Ready() && i < |inodes| && off / BSIZE < MAXFILE && off % BSIZE + |s| <= BSIZE
      modifies this`blocks, this`inodes, this`logged, this`within, this`ops, this`vol
      ensures Spends(old(logged), old(within))
      ensures r.Panic? ==> Full()
      ensures r.Done? ==> Owned(sb, u) && Grows(old(vol), u, i, off / BSIZE) && At(u, i, DataSlot(off / BSIZE)) == r.value != 0
      ensures r.Done? ==> r.value < |u.blocks| && vol == Written(u, r.value, Patch(u.blocks[r.value], off % BSIZE, s))
      ensures Ready() && |inodes| == |old(inodes)| && Covered(old(vol), vol, logged) && old(Indirect(i)) <= Indirect(i)
      ensures r.Done? && old(Missing(i, off / BSIZE)) == 0 ==> inodes == old(inodes)
      ensures r.Panic? ==> |bits| <= 1 && (Indirect(i) == old(Indirect(i)) ==> bits == {})
      ensures Logs(old(logged), bits, old(Missing(i, off / BSIZE)), if r.Done? then {r.value} else {}, Indirect(i))
    {
      hide Grows, Owned, Missing, Full, At, Traced;
      r, bits := Bmap(i, off / BSIZE);
      u := vol;
      if r.Done? {
        var a := r.value;
        WrittenOwned(sb, u, i, DataSlot(off / BSIZE), Zeros());
        var data := Patch(blocks[a], off % BSIZE, s);
        WrittenOwned(sb, u, i, DataSlot(off / BSIZE), data);
        blocks := blocks[a := data];
        vol := Written(u, a, data);
        MoreIsLarger(logged, logged + {a});
        ghost var mid := logged;
        LogWrite(a);
        CoveredTrans(old(vol), u, vol, mid, logged);
      }
    }

    // What writei(), started on v, has logged on the way from byte off to byte at.
    ghost predicate Booked(v: Volume, i: nat, off: nat, at: nat, base: set<nat>, had: set<nat>, data: set<nat>, bits: set<nat>)
      reads this
    {
      && i < |v.inodes| == |inodes| && vol.blocks == blocks && base <= logged && Covered(v, vol, logged)
      && Charged(logged, base, data, bits, Indirect(i), had, off, at, v.inodes[i].size)
    }

    // writei() started on v and has come from byte off to byte at.
    ghost predicate Underway(v: Volume, i: nat, src: Bytes, off: nat, at: nat,
                             base: set<nat>, ok: bool, had: set<nat>, data: set<nat>, bits: set<nat>)
      reads this
    {
      && Ready() && i < |v.inodes| == |inodes| && SameStat(v, vol, i) && Writing(sb, v, vol, i, src, off, at)
      && Booked(v, i, off, at, base, had, data, bits) && Spends(base, ok)
      && (Blocks(at) <= Blocks(v.inodes[i].size) ==> inodes == v.inodes)
    }

    lemma BookedMore(v: Volume, i: nat, off: nat, at: nat, at': nat, base: set<nat>, had: set<nat>, data: set<nat>, bits: set<nat>)
      requires Booked(v, i, off, at, base, had, data, bits) && off <= at <= at'
      ensures Booked(v, i, off, at', base, had, data, bits)
    {
      hide Charged, Traced;
      ChargedMore(logged, base, data, bits, Indirect(i), had, off, at, v.inodes[i].size, at');
    }

    lemma BookedTotal(v: Volume, i: nat, off: nat, n: nat, base: set<nat>, had: set<nat>, data: set<nat>, bits: set<nat>)
      requires Booked(v, i, off, off + n, base, had, data, bits) && off <= v.inodes[i].size
      ensures |logged| <= |base| + Cost(off, n) && vol.blocks == blocks && Covered(v, vol, logged)
    {
      hide Charged, Cost, Covered, Traced;
      ChargedTotal(logged, base, data, bits, Indirect(i), had, off, n, v.inodes[i].size);
    }

    lemma UnderwayBooked(v: Volume, i: nat, src: Bytes, off: nat, at: nat,
                         base: set<nat>, ok: bool, had: set<nat>, data: set<nat>, bits: set<nat>)
      requires Underway(v, i, src, off, at, base, ok, had, data, bits)
      ensures Booked(v, i, off, at, base, had, data, bits)
    {
      hide Ready, SameStat, Writing, Booked, Spends, Blocks, Traced;
    }

    lemma StartUnderway(i: nat, src: Bytes, off: nat)
      requires Ready() && Consistent(sb, vol) && i < |inodes| && off <= inodes[i].size
      ensures Underway(vol, i, src, off, off, logged, within, Indirect(i), {}, {})
    {
      StartWriting(sb, vol, i, src, off);
      BlocksMonotone(off, inodes[i].size);
    }

    method WriteNext(i: nat, src: Bytes, off: nat, at: nat, at': nat, ghost v: Volume,
                     ghost base: set<nat>, ghost ok: bool, ghost had: set<nat>, ghost data: set<nat>, ghost bits: set<nat>)
      returns (r: Outcome<()>, ghost data': set<nat>, ghost bits': set<nat>)
      requires Underway(v, i, src, off, at, base, ok, had, data, bits)
      requires off <= at && Piece(at, at') && at' <= off + |src| && at' <= MAXBYTES && (at == off || Aligned(at))
      modifies this`blocks, this`inodes, this`logged, this`within, this`ops, this`vol
      ensures r.Panic? ==> Full()
      ensures Booked(v, i, off, at', base, had, data', bits')
      ensures r.Done? ==> Underway(v, i, src, off, at', base, ok, had, data', bits')
    {
      ghost var w, mid, ind, size := vol, logged, Indirect(i), v.inodes[i].size;
      PieceBlocks(size, at, at');
      WritingMissing(sb, v, w, i, src, off, at);
      hide Owned, Writing, Grows, Blocks, Charged, Piece, Traced;
      assert at / BSIZE < MAXFILE;
      var addr;
      ghost var u, more;
      addr, u, more := WriteBlock(i, at, src[at - off..at' - off]);
      ghost var a := if addr.Done? then {addr.value} else {};
      data', bits' := data + a, bits + more;
      CoveredTrans(v, w, vol, mid, logged);
      hide Covered;
      if addr.Done? && at / BSIZE >= NDIRECT {
        GrowsIndirect(w, u, i, at / BSIZE);
      }
      ChargedNext(mid, base, data, bits, ind, had, off, at, size, at', logged, a, more, Indirect(i));
      if addr.Panic? {
        return Panic(addr.message), data', bits';
      }
      MoreIsLarger(mid, logged);
      WriteStep(sb, v, w, u, i, src, off, at, at');
      return Done(()), data', bits';
    }

    // The loop of writei().
    method WriteBlocks(i: nat, src: Bytes, off: nat) returns (r: Outcome<()>, ghost data: set<nat>, ghost bits: set<nat>)
      requires i < |inodes| && off + |src| <= MAXBYTES
      requires Underway(vol, i, src, off, off, logged, within, Indirect(i), {}, {})
      modifies this`blocks, this`inodes, this`logged, this`within, this`ops, this`vol
      ensures r.Panic? ==> Full()
      ensures Booked(old(vol), i, off, off + |src|, old(logged), old(Indirect(i)), data, bits)
      ensures r.Done? ==> Underway(old(vol), i, src, off, off + |src|, old(logged), old(within), old(Indirect(i)), data, bits)
    {
      hide *;
      ghost var v, base, ok, had := vol, logged, within, Indirect(i);
      data, bits := {}, {};
      var tot := 0;
      while tot < |src|
        invariant 0 <= tot <= |src| && (0 < tot < |src| ==> Aligned(off + tot))
        invariant Underway(v, i, src, off, off + tot, base, ok, had, data, bits)
      {
        var m := PieceLength(off + tot, |src| - tot);
        r, data, bits := WriteNext(i, src, off, off + tot, off + tot + m, v, base, ok, had, data, bits);
        if r.Panic? {
          BookedMore(v, i, off, off + tot + m, off + |src|, base, had, data, bits);
          return;
        }
        tot := tot + m;
      }
      UnderwayBooked(v, i, src, off, off + |src|, base, ok, had, data, bits);
      r := Done(());
    }

    // Between two operations: the image is consistent and the inode blocks are up to date.
    ghost predicate Settled()
      reads this
    {
      Ready() && Consistent(sb, vol) && dinodes == inodes
    }

    // The end of writei(): a file that grew gets its new size and goes to the inode block.
    method FinishWrite(i: nat, src: Bytes, off: nat, ghost v: Volume, ghost base: set<nat>, ghost ok: bool, ghost had: set<nat>,
                       ghost data: set<nat>, ghost bits: set<nat>)
      requires Underway(v, i, src, off, off + |src|, base, ok, had, data, bits)
      requires Consistent(sb, v) && off <= v.inodes[i].size && dinodes == v.inodes
      modifies this`inodes, this`dinodes, this`logged, this`within, this`ops, this`vol
      ensures Settled() && i < |inodes| == |v.inodes| && v.inodes[i].size <= MAXBYTES && inodes[i].size <= MAXBYTES
      ensures inodes[i].typ == v.inodes[i].typ
      ensures Content(vol, i) == Overlay(Content(v, i), off, src) && OthersSame(v, vol, i)
      ensures |logged| <= |base| + Cost(off, |src|) && Covered(v, vol, logged)
      ensures dinodes != v.inodes ==> InodeBlock(sb, i) in logged
      ensures ok && |base| + Cost(off, |src|) <= Log.MAXOPBLOCKS ==> within
    {
      hide Owned, Writing, Complete, Charged, Cost, Blocks, Content, OthersSame, Overlay, Traced;
      ghost var w, size := vol, v.inodes[i].size;
      var at := off + |src|;
      FinishWriting(sb, v, w, i, src, off);
      ChargedTotal(logged, base, data, bits, Indirect(i), had, off, |src|, size);
      if |src| > 0 && at > inodes[i].size {
        WritingInodes(sb, v, w, i, src, off, at, at);
        inodes := inodes[i := inodes[i].(size := at)];
        vol := Resized(w, i, at);
        UnionSize(logged, {InodeBlock(sb, i)});
        IUpdate(i);
        assert Covered(v, vol, logged);
      } else {
        BlocksMonotone(at, size);
        assert Resized(w, i, size) == w;
      }
    }

    /**
      writei(): the bytes of the file become the old ones with src laid over
      them at off, every other file keeps its own, and at most Cost blocks are
      logged.  It answers -1, and changes nothing, exactly for a start behind the
      end of the file, a wrap of the 32-bit end or an end behind the largest file.
     */
    method WriteI(i: nat, src: Bytes, off: nat) returns (r: Outcome<Option<nat>>)
      requires Settled() && i < |inodes| && inodes[i].typ != T_DEV && off < WORD_LIMIT && |src| < WORD_LIMIT
      modifies this`blocks, this`inodes, this`dinodes, this`logged, this`within, this`ops, this`vol
      ensures r.Panic? ==> Full()
      ensures r.Done? ==> Settled() && |inodes| == |old(inodes)| && old(inodes[i].size) <= MAXBYTES && inodes[i].size <= MAXBYTES
      ensures r.Done? ==> inodes[i].typ == old(inodes[i].typ)
      ensures r.Done? ==> r.value == if off > old(inodes[i].size) || off + |src| > MAXBYTES then None else Some(|src|)
      ensures r == Done(None) ==> vol == old(vol) && logged == old(logged) && within == old(within)
      ensures r.Done? && r.value.Some? ==>
                Content(vol, i) == Overlay(Content(old(vol), i), off, src) && OthersSame(old(vol), vol, i)
      ensures r == Done(None) || |logged| <= |old(logged)| + Cost(off, |src|)
      ensures vol.blocks == blocks && Covered(old(vol), vol, logged)
      ensures r.Done? && dinodes != old(dinodes) ==> InodeBlock(sb, i) in logged
      ensures r.Done? && r.value.Some? && old(within) && |old(logged)| + Cost(off, |src|) <= Log.MAXOPBLOCKS ==> within
    {
      assert Complete(vol, i);
      hide Sum32, Traced;
      if off > inodes[i].size || Sum32(off, |src|) < off {
        return Done(None);
      }
      if Sum32(off, |src|) > MAXBYTES {
        return Done(None);
      }
      ghost var v, base, ok, had := vol, logged, within, Indirect(i);
      hide Consistent, Owned, Complete, Cost, Content, OthersSame, Overlay, Blocks;
      StartUnderway(i, src, off);
      var done;
      ghost var data, bits;
      done, data, bits := WriteBlocks(i, src, off);
      if done.Panic? {
        BookedTotal(v, i, off, |src|, base, had, data, bits);
        return Panic(done.message);
      }
      hide Underway;
      FinishWrite(i, src, off, v, base, ok, had, data, bits);
      return Done(Some(|src|));
    }

    // Nothing has happened since the image was v, except that nothing may have been logged.
    ghost predicate Unmoved(v: Volume, base: set<nat>, ok: bool)
      reads this
    {
      Settled() && vol == v && logged == base && (ok && |logged| < Log.MAXOPBLOCKS ==> within)
    }

    // One turn of the loop of readi(): bytes out of one block.
    method ReadBlock(i: nat, off: nat, n: nat, ghost v: Volume, ghost base: set<nat>, ghost ok: bool) returns (s: Bytes)
      requires Unmoved(v, base, ok) && i < |v.inodes| && off + n <= v.inodes[i].size <= MAXBYTES && Piece(off, off + n)
      modifies this`blocks, this`inodes, this`logged, this`within, this`ops, this`vol
      ensures Unmoved(v, base, ok) && s == Content(v, i)[off..off + n]
    {
      assert Complete(v, i);
      hide Owned, Complete, Content, Piece, Grows, Full, Logs, Traced;
      PieceAddr(sb, v, i, off);
      PieceBytes(sb, v, i, off, n);
      var r;
      ghost var bits;
      r, bits := Bmap(i, off / BSIZE);
      s := blocks[r.value][off % BSIZE..off % BSIZE + n];
    }

    // The loop of readi().
    method ReadBlocks(i: nat, off: nat, end: nat, ghost v: Volume, ghost base: set<nat>, ghost ok: bool) returns (dst: Bytes)
      requires Unmoved(v, base, ok) && i < |v.inodes| && off <= end <= v.inodes[i].size <= MAXBYTES
      modifies this`blocks, this`inodes, this`logged, this`within, this`ops, this`vol
      ensures Unmoved(v, base, ok) && dst == Content(v, i)[off..end]
    {
      hide *;
      var at := off;
      dst := [];
      while at < end
        invariant off <= at <= end && Unmoved(v, base, ok) && dst == Content(v, i)[off..at]
        decreases end - at
      {
        var m := PieceLength(at, end - at);
        var piece := ReadBlock(i, at, m, v, base, ok);
        at, dst := at + m, dst + piece;
      }
    }

    /**
      readi(): the bytes of the file from off on, n of them or up to its end;
      -1 exactly for a start behind the end or a wrap of the 32-bit end.
     */
    method ReadI(i: nat, off: nat, n: nat) returns (r: Option<Bytes>)
      requires Settled() && i < |inodes| && inodes[i].typ != T_DEV && off < WORD_LIMIT && n < WORD_LIMIT
      modifies this`blocks, this`inodes, this`logged, this`within, this`ops, this`vol
      ensures Unmoved(old(vol), old(logged), old(within)) && inodes[i].size <= MAXBYTES
      ensures r.None? <==> off > inodes[i].size || off + n >= WORD_LIMIT
      ensures r.Some? ==> r.value == Content(vol, i)[off..Min(off + n, inodes[i].size)]
    {
      assert Complete(vol, i);
      hide Sum32, Traced;
      if off > inodes[i].size || Sum32(off, n) < off {
        return None;
      }
      hide Consistent, Owned, Content;
      var end := Min(off + n, inodes[i].size);
      var dst := ReadBlocks(i, off, end, vol, logged, within);
      return Some(dst);
    }

    // itrunc() of inode i of the image v has given up addrs and entries places.
    ghost predicate Freeing(v: Volume, i: nat, addrs: nat, entries: nat)
      reads this
    {
      && Owned(sb, v) && i < |v.inodes| && Freed(sb, v, blocks, i, addrs, entries)
      && inodes == v.inodes[i := Cleared(v.inodes[i], addrs)] && Traced(ops, logged, within)
    }

    // Gives up one place, if it holds a block.
    method FreePlace(b: nat, ghost v: Volume, ghost p: Place, ghost i: nat, ghost addrs: nat, ghost entries: nat,
                     ghost addrs': nat, ghost entries': nat)
      returns (r: Outcome<()>)
      requires Owned(sb, v) && i < |v.inodes| && Freed(sb, v, blocks, i, addrs, entries)
      requires Traced(ops, logged, within) && addrs <= ENTRIES && Next(p, i, addrs, entries, addrs', entries') && b == At(v, i, p.slot)
      modifies this`blocks, this`logged, this`within, this`ops
      ensures Traced(ops, logged, within) && r.Done? && Freed(sb, v, blocks, i, addrs', entries')
    {
      if b != 0 {
        StillUsed(sb, v, blocks, p, i, addrs, entries, addrs', entries');
      }
      hide Owned, At, Layout, Used, Traced;
      FreedNext(sb, v, blocks, p, i, addrs, entries, addrs', entries');
      r := Done(());
      if b != 0 {
        r := Bfree(b);
      }
    }

    // The first loop of itrunc().
    method FreeDirect(i: nat, ghost v: Volume) returns (r: Outcome<()>)
      requires Freeing(v, i, 0, 0)
      modifies this`blocks, this`inodes, this`logged, this`within, this`ops
      ensures r.Done? && Freeing(v, i, NDIRECT, 0)
    {
      hide Owned, Freed, At, Traced;
      var k := 0;
      r := Done(());
      while k < NDIRECT
        invariant 0 <= k <= NDIRECT && Freeing(v, i, k, 0) && r.Done?
      {
        var addr := inodes[i].addrs[k];
        assert addr == At(v, i, k) by {
          DirectSlot(v, i, k);
        }
        r := FreePlace(addr, v, Place(i, k), i, k, 0, k + 1, 0);
        var node := inodes[i];
        ClearedNext(v.inodes[i], k);
        inodes := inodes[i := node.(addrs := node.addrs[k := 0])];
        k := k + 1;
      }
    }

    // The second loop of itrunc(), and the indirect block itself.
    method FreeIndirect(i: nat, ghost v: Volume) returns (r: Outcome<()>)
      requires Freeing(v, i, NDIRECT, 0) && v.inodes[i].addrs[INDIRECT] != 0
      modifies this`blocks, this`inodes, this`logged, this`within, this`ops
      ensures r.Done? && Freeing(v, i, ENTRIES, NINDIRECT)
    {
      var addr := inodes[i].addrs[INDIRECT];
      SlotInRange(sb, v, i, INDIRECT);
      var a := blocks[addr];
      assert a == v.blocks[addr];
      hide Owned, Freed, At, Word, Traced;
      var j := 0;
      r := Done(());
      while j < NINDIRECT
        invariant 0 <= j <= NINDIRECT && Freeing(v, i, NDIRECT, j) && r.Done?
      {
        EntrySlot(v, i, j);
        r := FreePlace(Word(a, j), v, Place(i, ENTRIES + j), i, NDIRECT, j, NDIRECT, j + 1);
        j := j + 1;
      }
      DirectSlot(v, i, INDIRECT);
      r := FreePlace(addr, v, Place(i, INDIRECT), i, NDIRECT, NINDIRECT, ENTRIES, NINDIRECT);
      var node := inodes[i];
      ClearedNext(v.inodes[i], INDIRECT);
      inodes := inodes[i := node.(addrs := node.addrs[INDIRECT := 0])];
    }

    /**
      itrunc(): the bitmap loses exactly the blocks of the inode, which becomes
      empty, and no other file changes.  bfree() never finds a block free.
     */
    method ITrunc(i: nat) returns (r: Outcome<()>)
      requires Settled() && i < |inodes|
      modifies this`blocks, this`inodes, this`dinodes, this`logged, this`within, this`ops, this`vol
      ensures r.Done? && Settled() && OthersSame(old(vol), vol, i)
      ensures inodes[i] == Inode(old(inodes[i].typ), 0, seq(NDIRECT + 1, k => 0))
      ensures forall b: nat :: b < sb.size ==>
                Used(sb, blocks, b) == (Used(sb, old(blocks), b) && !(b in old(vol).owner && old(vol).owner[b].inum == i))
    {
      ghost var v := vol;
      StartFreeing(i);
      r := FreeDirect(i, v);
      if inodes[i].addrs[INDIRECT] != 0 {
        r := FreeIndirect(i, v);
      } else {
        NoIndirect(sb, v, blocks, i);
      }
      hide Owned, At, Used, Freed, Traced;
      ClearedNext(v.inodes[i], INDIRECT);
      assert inodes[i].addrs == Cleared(v.inodes[i], ENTRIES).addrs;
      inodes := inodes[i := inodes[i].(size := 0)];
      IUpdate(i);
      vol := Truncated(v, blocks, i);
      TruncatedConsistent(sb, v, blocks, i);
      TruncatedBits(sb, v, blocks, i);
    }

    lemma StartFreeing(i: nat)
      requires Settled() && i < |inodes|
      ensures Freeing(vol, i, 0, 0)
    {
      FreedNone(sb, vol, i);
      assert Cleared(inodes[i], 0) == inodes[i];
    }

    /** ialloc(): the first free inode gets the type and is empty; it panics only if there is none. */
    method IAlloc(typ: nat) returns (r: Outcome<nat>)
      requires Settled() && FreeEmpty(vol) && typ != 0
      modifies this`inodes, this`dinodes, this`logged, this`within, this`ops, this`vol
      ensures r.Panic? ==> forall x: nat :: 1 <= x < |inodes| ==> inodes[x].typ != 0
      ensures r.Done? ==> 1 <= r.value < |inodes| == |old(inodes)| && old(inodes[r.value].typ) == 0
      ensures r.Done? ==> forall x: nat :: 1 <= x < r.value ==> old(inodes)[x].typ != 0
      ensures r.Done? ==> Settled() && FreeEmpty(vol) && vol == Retyped(old(vol), r.value, typ)
      ensures r.Done? ==> inodes[r.value].size == 0 && OthersSame(old(vol), vol, r.value)
    {
      hide Consistent, Owned, OthersSame, Traced;
      var inum := 1;
      while inum < sb.ninodes
        invariant 1 <= inum && forall x: nat :: 1 <= x < inum && x < |inodes| ==> inodes[x].typ != 0
      {
        if dinodes[inum].typ == 0 {
          FreshInode(inum, typ);
          dinodes := dinodes[inum := Inode(typ, 0, seq(NDIRECT + 1, k => 0))];
          LogWrite(InodeBlock(sb, inum));
          inodes := inodes[inum := dinodes[inum]];
          RetypedSame(sb, vol, inum, typ);
          RetypedOwned(sb, vol, inum, typ);
          vol := Retyped(vol, inum, typ);
          return Done(inum);
        }
        inum := inum + 1;
      }
      return Panic("ialloc: no inodes");
    }

    lemma FreshInode(i: nat, typ: nat)
      requires Settled() && i < |inodes| && inodes[i].size == 0
      ensures Inode(typ, 0, seq(NDIRECT + 1, k => 0)) == inodes[i].(typ := typ)
    {
      assert Complete(vol, i);
      forall k | 0 <= k <= INDIRECT
        ensures inodes[i].addrs[k] == 0
      {
        NoBlocks(vol, i, k);
      }
      assert inodes[i].addrs == seq(NDIRECT + 1, k => 0);
    }
  }
}
