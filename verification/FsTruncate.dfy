/**
  Giving back all blocks of one inode (itrunc in fs.c).  The direct blocks go
  first, then the entries of the indirect block, then the indirect block.
 */
module FsTruncate {
  import opened FsBytes
  import opened FsVolume
  import opened FsContent

  // The places of inode i that have been given up so far.
  predicate Gone(p: Place, i: nat, addrs: nat, entries: nat) {
    p.inum == i && (p.slot < addrs || ENTRIES <= p.slot < ENTRIES + entries)
  }

  predicate Lost(v: Volume, c: nat, i: nat, addrs: nat, entries: nat) {
    c in v.owner && Gone(v.owner[c], i, addrs, entries)
  }

  // The inode with the first n of its addresses cleared.
  function Cleared(node: Inode, n: nat): (r: Inode)
  {
    Inode(node.typ, node.size, seq(NDIRECT + 1, k requires 0 <= k <= INDIRECT => if k < n then 0 else node.addrs[k]))
  }

  // The bitmap has lost exactly the blocks of those places, and no data block changed.
  ghost predicate Freed(sb: Super, v: Volume, blocks: seq<Block>, i: nat, addrs: nat, entries: nat) {
    && Shaped(sb, v.blocks) && Shaped(sb, blocks)
    && (forall c: nat :: DataStart(sb) <= c < sb.size ==> blocks[c] == v.blocks[c])
    && forall c: nat :: c < sb.size ==> Used(sb, blocks, c) == (Used(sb, v.blocks, c) && !Lost(v, c, i, addrs, entries))
  }

  lemma FreedNone(sb: Super, v: Volume, i: nat)
    requires Shaped(sb, v.blocks)
    ensures Freed(sb, v, v.blocks, i, 0, 0)
  {
  }

  // The next place: addrs[addrs], or entry number entries once addrs[0..12] are done.
  predicate Next(p: Place, i: nat, addrs: nat, entries: nat, addrs': nat, entries': nat) {
    && p.inum == i
    && if entries' == entries then addrs' == addrs + 1 && p.slot == addrs <= INDIRECT
       else addrs' == addrs && entries' == entries + 1 && p.slot == ENTRIES + entries < SLOTS
  }

  lemma LostNext(sb: Super, v: Volume, c: nat, p: Place, i: nat, addrs: nat, entries: nat, addrs': nat, entries': nat)
    requires Owned(sb, v) && i < |v.inodes| && addrs <= ENTRIES && Next(p, i, addrs, entries, addrs', entries')
    ensures Lost(v, c, i, addrs', entries') == (Lost(v, c, i, addrs, entries) || (c == At(v, i, p.slot) && c != 0))
  {
    hide Used, Slot;
    assert SlotOk(v, i, p.slot);
    if c in v.owner {
      assert OwnerOk(sb, v, c);
    }
  }

  // A place that has not been given up still has its bit, so bfree() does not panic.
  lemma StillUsed(sb: Super, v: Volume, blocks: seq<Block>, p: Place, i: nat, addrs: nat, entries: nat, addrs': nat, entries': nat)
    requires Owned(sb, v) && i < |v.inodes| && addrs <= ENTRIES && Next(p, i, addrs, entries, addrs', entries')
    requires Freed(sb, v, blocks, i, addrs, entries) && At(v, i, p.slot) != 0
    ensures var b := At(v, i, p.slot);
            DataStart(sb) <= b < sb.size && Used(sb, blocks, b)
  {
    hide Used, Slot, Shaped;
    var b := At(v, i, p.slot);
    assert SlotOk(v, i, p.slot);
    assert OwnerOk(sb, v, b);
    assert BitOk(sb, v, b);
  }

  lemma FreedNext(sb: Super, v: Volume, blocks: seq<Block>, p: Place, i: nat, addrs: nat, entries: nat, addrs': nat, entries': nat)
    requires Owned(sb, v) && i < |v.inodes| && addrs <= ENTRIES && Next(p, i, addrs, entries, addrs', entries')
    requires Freed(sb, v, blocks, i, addrs, entries)
    requires At(v, i, p.slot) < sb.size
    ensures var b := At(v, i, p.slot);
            Freed(sb, v, if b == 0 then blocks else Marked(sb, blocks, b, false), i, addrs', entries')
  {
    hide Used, At, Marked, Lost, Owned, Layout;
    var b := At(v, i, p.slot);
    var r := if b == 0 then blocks else Marked(sb, blocks, b, false);
    forall c: nat | c < sb.size
      ensures Used(sb, r, c) == (Used(sb, v.blocks, c) && !Lost(v, c, i, addrs', entries'))
    {
      LostNext(sb, v, c, p, i, addrs, entries, addrs', entries');
      if b != 0 {
        MarkedUsed(sb, blocks, b, false, c);
      }
    }
    forall c: nat | DataStart(sb) <= c < sb.size
      ensures r[c] == v.blocks[c]
    {
      if b != 0 {
        MetadataBelow(sb, b);
        MarkedElsewhere(sb, blocks, b, false, c);
      }
    }
  }

  lemma NoIndirect(sb: Super, v: Volume, blocks: seq<Block>, i: nat)
    requires Owned(sb, v) && i < |v.inodes| && v.inodes[i].addrs[INDIRECT] == 0 && Freed(sb, v, blocks, i, NDIRECT, 0)
    ensures Freed(sb, v, blocks, i, ENTRIES, NINDIRECT)
  {
    hide Used;
    forall c: nat
      ensures Lost(v, c, i, ENTRIES, NINDIRECT) == Lost(v, c, i, NDIRECT, 0)
    {
      if c in v.owner {
        assert OwnerOk(sb, v, c);
      }
    }
  }

  // The image after itrunc().
  function Truncated(v: Volume, blocks: seq<Block>, i: nat): (w: Volume)
    requires i < |v.inodes|
  {
    Volume(blocks, v.inodes[i := v.inodes[i].(size := 0, addrs := seq(NDIRECT + 1, k => 0))],
           map b | b in v.owner && v.owner[b].inum != i :: v.owner[b])
  }

  lemma TruncatedSlot(sb: Super, v: Volume, blocks: seq<Block>, i: nat, x: nat, k: nat)
    requires Owned(sb, v) && i < |v.inodes| && Freed(sb, v, blocks, i, ENTRIES, NINDIRECT)
    requires x < |v.inodes| && k < SLOTS
    ensures At(Truncated(v, blocks, i), x, k) == if x == i then 0 else At(v, x, k)
  {
    hide Used, Word;
    assert SlotOk(v, x, INDIRECT);
    if v.inodes[x].addrs[INDIRECT] != 0 {
      assert OwnerOk(sb, v, v.inodes[x].addrs[INDIRECT]);
    }
  }

  /** itrunc() frees exactly the blocks of its inode, and the image stays in order. */
  lemma TruncatedOwned(sb: Super, v: Volume, blocks: seq<Block>, i: nat)
    requires Owned(sb, v) && i < |v.inodes| && Freed(sb, v, blocks, i, ENTRIES, NINDIRECT)
    ensures Owned(sb, Truncated(v, blocks, i))
  {
    var w := Truncated(v, blocks, i);
    hide Used, At;
    forall x: nat, k: nat | x < |v.inodes| && k < SLOTS
      ensures At(w, x, k) == if x == i then 0 else At(v, x, k)
      ensures SlotOk(w, x, k)
    {
      TruncatedSlot(sb, v, blocks, i, x, k);
      assert SlotOk(v, x, k);
    }
    forall b | b in w.owner
      ensures OwnerOk(sb, w, b)
    {
      assert OwnerOk(sb, v, b);
    }
    forall b: nat | b < sb.size
      ensures BitOk(sb, w, b)
    {
      assert BitOk(sb, v, b);
      if b in v.owner {
        assert OwnerOk(sb, v, b);
      }
    }
  }

  lemma TruncatedKeeps(sb: Super, v: Volume, blocks: seq<Block>, i: nat, x: nat)
    requires Owned(sb, v) && i < |v.inodes| && Freed(sb, v, blocks, i, ENTRIES, NINDIRECT)
    requires x < |v.inodes| && x != i
    ensures Keeps(v, Truncated(v, blocks, i), x)
  {
    hide Used, At;
    forall k: nat | k < SLOTS && k != INDIRECT
      ensures DataKept(v, Truncated(v, blocks, i), x, k)
    {
      TruncatedSlot(sb, v, blocks, i, x, k);
      assert SlotOk(v, x, k);
      if At(v, x, k) != 0 {
        assert OwnerOk(sb, v, At(v, x, k));
      }
    }
  }

  lemma DirectSlot(v: Volume, i: nat, k: nat)
    requires i < |v.inodes| && k <= INDIRECT
    ensures At(v, i, k) == v.inodes[i].addrs[k]
  {
  }

  lemma EntrySlot(v: Volume, i: nat, j: nat)
    requires i < |v.inodes| && j < NINDIRECT && 0 < v.inodes[i].addrs[INDIRECT] < |v.blocks|
    ensures At(v, i, ENTRIES + j) == Word(v.blocks[v.inodes[i].addrs[INDIRECT]], j)
  {
  }

  lemma ClearedNext(node: Inode, k: nat)
    requires k <= INDIRECT
    ensures Cleared(node, k).addrs[k := 0] == Cleared(node, k + 1).addrs
    ensures Cleared(node, k).addrs[k] == node.addrs[k]
    ensures node.addrs[k] == 0 ==> Cleared(node, k).addrs == Cleared(node, k + 1).addrs
    ensures k == INDIRECT ==> Cleared(node, k + 1).addrs == seq(NDIRECT + 1, k => 0)
  {
  }

  /** itrunc() clears the bits of its inode's blocks and no others. */
  lemma TruncatedBits(sb: Super, v: Volume, blocks: seq<Block>, i: nat)
    requires Owned(sb, v) && i < |v.inodes| && Freed(sb, v, blocks, i, ENTRIES, NINDIRECT)
    ensures forall b: nat :: b < sb.size ==>
              Used(sb, blocks, b) == (Used(sb, v.blocks, b) && !(b in v.owner && v.owner[b].inum == i))
  {
    hide Used, At;
    forall b: nat | b < sb.size
      ensures Lost(v, b, i, ENTRIES, NINDIRECT) == (b in v.owner && v.owner[b].inum == i)
    {
      if b in v.owner {
        assert OwnerOk(sb, v, b);
      }
    }
  }

  /** After itrunc() the image is consistent and every other file has its bytes. */
  lemma TruncatedConsistent(sb: Super, v: Volume, blocks: seq<Block>, i: nat)
    requires Consistent(sb, v) && i < |v.inodes| && Freed(sb, v, blocks, i, ENTRIES, NINDIRECT)
    ensures var w := Truncated(v, blocks, i); Consistent(sb, w) && OthersSame(v, w, i)
  {
    var w := Truncated(v, blocks, i);
    TruncatedOwned(sb, v, blocks, i);
    hide Owned, Freed, At, Keeps, Content;
    forall x: nat | x < |v.inodes|
      ensures Complete(w, x)
    {
      forall k: nat | k < SLOTS
        ensures At(w, x, k) == if x == i then 0 else At(v, x, k)
      {
        TruncatedSlot(sb, v, blocks, i, x, k);
      }
      if x != i {
        KeepsComplete(v, w, x);
      }
    }
    forall x: nat | x < |v.inodes| && x != i
      ensures SameFile(v, w, x)
    {
      TruncatedKeeps(sb, v, blocks, i, x);
      KeepsContent(v, w, x);
    }
  }
}
