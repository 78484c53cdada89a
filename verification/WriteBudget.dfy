/**
  The write budget of file.c is met with equality: an image of 50 bitmap blocks
  whose free blocks lie one to a bitmap block, and an unaligned chunk of 1536
  bytes that logs MAXOPBLOCKS distinct blocks on it.
 */
module WriteBudget {
  import Log
  import opened FsBytes
  import opened FsVolume
  import opened FsContent
  import opened FsWrite
  import opened File
  import opened FileSystem
  import opened Results

  const AREAS := 49                     // the data area: 49 times the blocks of one bitmap block
  const PER_AREA := 4095                // blocks in use in each, all but the first
  const HELD := PER_AREA * AREAS        // blocks in use altogether
  const TARGET := 1423                  // the file that is written
  const OFF := 11 * 512 + 1

  function Image(): (sb: Super)
    ensures Layout(sb) && DataStart(sb) == 4096 && sb.size == 4096 * (AREAS + 1) && sb.ninodes == TARGET + 1
    ensures sb.bmapstart == 256 && sb.inodestart == 32
  {
    Super(4096 * (AREAS + 1), 4096 * AREAS, TARGET + 1, 32, 256)
  }

  // The q-th block in use, and its inverse.
  function Number(q: nat): (b: nat) {
    4096 + q / PER_AREA * 4096 + 1 + q % PER_AREA
  }

  predicate Held(b: nat) {
    4096 <= b < 4096 * (AREAS + 1) && b % 4096 != 0
  }

  function Index(b: nat): (q: nat)
    requires Held(b)
  {
    (b / 4096 - 1) * PER_AREA + b % 4096 - 1
  }

  lemma IndexNumber(q: nat)
    requires q < HELD
    ensures Held(Number(q)) && Index(Number(q)) == q
  {
    var a, r := q / 4095, q % 4095;
    assert q == 4095 * a + r && a < 49;
    assert Number(q) == 4096 * (a + 1) + (r + 1);
    assert Number(q) / 4096 == a + 1 && Number(q) % 4096 == r + 1;
  }

  lemma NumberIndex(b: nat)
    requires Held(b)
    ensures Index(b) < HELD && Number(Index(b)) == b
  {
    var a, r := b / 4096, b % 4096;
    assert b == 4096 * a + r && 1 <= a < 50;
    assert Index(b) == 4095 * (a - 1) + (r - 1);
    assert Index(b) / 4095 == a - 1 && Index(b) % 4095 == r - 1;
  }

  // The files lie one behind the other, SLOTS block numbers each.
  function Entry(x: nat, k: nat): (a: nat)
    requires k < SLOTS
    ensures a < WORD_LIMIT
    ensures a != 0 <==> SLOTS * x + k < HELD
  {
    var q := SLOTS * x + k;
    if q < HELD then IndexNumber(q); Number(q) else 0
  }

  function Digit(w: nat, d: nat): (b: Byte)
    requires w < WORD_LIMIT && d < 4
  {
    if d == 0 then w % 0x100
    else if d == 1 then w / 0x100 % 0x100
    else if d == 2 then w / 0x1_0000 % 0x100
    else w / 0x100_0000
  }

  function IndirectOf(x: nat): (b: Block) {
    seq(BSIZE, e requires 0 <= e < BSIZE => Digit(Entry(x, ENTRIES + e / 4), e % 4))
  }

  lemma IndirectWord(x: nat, j: nat)
    requires j < NINDIRECT
    ensures Word(IndirectOf(x), j) == Entry(x, ENTRIES + j)
  {
    hide Entry;
    var w := Entry(x, ENTRIES + j);
    assert 4 * j / 4 == (4 * j + 1) / 4 == (4 * j + 2) / 4 == (4 * j + 3) / 4 == j;
    assert 4 * j % 4 == 0 && (4 * j + 1) % 4 == 1 && (4 * j + 2) % 4 == 2 && (4 * j + 3) % 4 == 3;
    Digits(w);
  }

  // In every bitmap block but the first one bit, the lowest, is clear.
  function BitmapOf(n: nat): (b: Block) {
    seq(BSIZE, e => if n > 0 && e == 0 then 254 else 255)
  }

  function BlockOf(b: nat): (r: Block) {
    if 256 <= b < 256 + AREAS + 1 then BitmapOf(b - 256)
    else if Held(b) && Index(b) % SLOTS == INDIRECT then IndirectOf(Index(b) / SLOTS)
    else Zeros()
  }

  function FileOf(x: nat): (node: Inode) {
    Inode(T_FILE, if x < TARGET then MAXBYTES else OFF, seq(NDIRECT + 1, k requires 0 <= k < NDIRECT + 1 => Entry(x, k)))
  }

  function Owners(): (m: map<nat, Place>)
    ensures forall b :: b in m <==> Held(b)
    ensures forall b :: b in m ==> m[b] == Place(Index(b) / SLOTS, Index(b) % SLOTS)
  {
    map b: nat | b < 4096 * (AREAS + 1) && Held(b) :: Place(Index(b) / SLOTS, Index(b) % SLOTS)
  }

  function Spread(): (v: Volume)
    ensures |v.blocks| == Image().size && |v.inodes| == Image().ninodes && v.owner == Owners()
    ensures forall b: nat :: b < |v.blocks| ==> v.blocks[b] == BlockOf(b)
    ensures forall x: nat :: x < |v.inodes| ==> v.inodes[x] == FileOf(x)
  {
    Volume(seq(Image().size, b requires 0 <= b < Image().size => BlockOf(b)),
           seq(Image().ninodes, x requires 0 <= x < Image().ninodes => FileOf(x)), Owners())
  }

  lemma PlaceOf(x: nat, k: nat)
    requires k < SLOTS
    ensures (SLOTS * x + k) / SLOTS == x && (SLOTS * x + k) % SLOTS == k
  {
  }

  lemma IndirectPlace(x: nat)
    requires x <= TARGET && Entry(x, INDIRECT) != 0
    ensures Entry(x, INDIRECT) < Image().size && BlockOf(Entry(x, INDIRECT)) == IndirectOf(x)
  {
    hide IndirectOf, BitmapOf, Number;
    IndexNumber(SLOTS * x + INDIRECT);
    PlaceOf(x, INDIRECT);
  }

  lemma EntryOrder(x: nat, k: nat)
    requires INDIRECT <= k < SLOTS && Entry(x, INDIRECT) == 0
    ensures Entry(x, k) == 0
  {
    hide Number;
  }

  lemma SpreadAt(x: nat, k: nat)
    requires x <= TARGET && k < SLOTS
    ensures At(Spread(), x, k) == Entry(x, k)
  {
    hide Entry, BlockOf, IndirectOf, Word;
    var v, a := Spread(), Entry(x, INDIRECT);
    assert v.inodes[x] == FileOf(x) && v.inodes[x].addrs[INDIRECT] == a;
    if k > INDIRECT {
      if a == 0 {
        EntryOrder(x, k);
      } else {
        IndirectPlace(x);
        IndirectWord(x, k - ENTRIES);
      }
    }
  }

  lemma FullByte(j: nat)
    requires j < 8
    ensures Bit(255, j) && (Bit(254, j) <==> j > 0)
  {
    assert Bit(1, 0) && Bit(3, 1) && Bit(7, 2) && Bit(15, 3) && Bit(31, 4) && Bit(63, 5) && Bit(127, 6) && Bit(255, 7);
  }

  lemma SpreadUsed(b: nat)
    requires b < Image().size
    ensures Used(Image(), Spread().blocks, b) <==> b < 4096 || Held(b)
  {
    MetadataBelow(Image(), b);
    var n, e := b / 4096, b % 4096 / 8;
    BitPosition(b);
    assert BitmapBlock(Image(), b) == 256 + n && n <= AREAS;
    assert Spread().blocks[256 + n] == BlockOf(256 + n) == BitmapOf(n);
    FullByte(b % 8);
  }

  lemma SpreadSlot(x: nat, k: nat)
    requires x <= TARGET && k < SLOTS
    ensures SlotOk(Spread(), x, k)
  {
    SpreadAt(x, k);
    if SLOTS * x + k < HELD {
      IndexNumber(SLOTS * x + k);
      PlaceOf(x, k);
    }
  }

  lemma SpreadOwner(b: nat)
    requires Held(b)
    ensures OwnerOk(Image(), Spread(), b)
  {
    NumberIndex(b);
    var q := Index(b);
    assert q / SLOTS <= TARGET && SLOTS * (q / SLOTS) + q % SLOTS == q;
    SpreadAt(q / SLOTS, q % SLOTS);
  }

  lemma EntryNeeded(x: nat, k: nat)
    requires x <= TARGET && k < SLOTS
    ensures (Entry(x, k) != 0) == Needed(if x < TARGET then MAXFILE else NDIRECT, k)
  {
    hide Number;
    assert x < TARGET ==> SLOTS * x + k < SLOTS * TARGET;
  }

  lemma SpreadComplete(x: nat)
    requires x <= TARGET
    ensures Complete(Spread(), x)
  {
    var v := Spread();
    assert v.inodes[x].size == (if x < TARGET then MAXBYTES else OFF);
    assert Blocks(MAXBYTES) == MAXFILE && Blocks(OFF) == NDIRECT;
    hide At, Entry, FileOf, Spread, Needed, Blocks;
    forall k: nat | k < SLOTS
      ensures (At(v, x, k) != 0) == Needed(Blocks(v.inodes[x].size), k)
    {
      SpreadAt(x, k);
      EntryNeeded(x, k);
    }
  }

  lemma SpreadConsistent()
    ensures Consistent(Image(), Spread())
  {
    var sb, v := Image(), Spread();
    hide Used, Layout, At, Complete, Held;
    forall b | b in v.owner
      ensures OwnerOk(sb, v, b)
    {
      SpreadOwner(b);
    }
    forall b: nat | b < sb.size
      ensures BitOk(sb, v, b)
    {
      SpreadUsed(b);
    }
    forall x: nat, k: nat | x < |v.inodes| && k < SLOTS
      ensures SlotOk(v, x, k)
    {
      SpreadSlot(x, k);
    }
    forall x: nat | x < |v.inodes|
      ensures Complete(v, x)
    {
      SpreadComplete(x);
    }
  }

  // A block that was free on the image and is in use on w has its bitmap block logged.
  lemma BitmapLogged(w: Volume, logged: set<nat>, b: nat)
    requires Covered(Spread(), w, logged) && Shaped(Image(), w.blocks) && b < Image().size
    requires 4096 <= b && b % 4096 == 0 && Used(Image(), w.blocks, b)
    ensures 256 + b / 4096 in logged
  {
    SpreadUsed(b);
    MetadataBelow(Image(), b);
    assert BitmapBlock(Image(), b) == 256 + b / 4096;
  }

  // The disk has not run full: that would have logged 49 bitmap blocks.
  lemma NotFull(w: Volume, logged: set<nat>)
    requires Covered(Spread(), w, logged) && Shaped(Image(), w.blocks)
    requires forall c: nat :: c < Image().size ==> Used(Image(), w.blocks, c)
    ensures |logged| > Log.MAXOPBLOCKS
  {
    hide Used, Covered, Shaped;
    var s: set<nat> := {257, 258, 259, 260, 261, 262, 263, 264, 265, 266, 267};
    forall n | n in s
      ensures n in logged
    {
      BitmapLogged(w, logged, 4096 * (n - 256));
    }
    MoreIsLarger(s, logged);
  }

  // What the write of the chunk leaves.
  ghost predicate AfterChunk(w: Volume, logged: set<nat>) {
    && Covered(Spread(), w, logged) && Consistent(Image(), w) && |w.inodes| == TARGET + 1
    && w.inodes[TARGET].size == OFF + CHUNK
    && forall p: nat :: OFF <= p < OFF + CHUNK ==> ByteAt(w, TARGET, p) == 1
  }

  // The indirect block and the three data blocks behind it come from the free blocks.
  lemma NewBlock(w: Volume, logged: set<nat>, k: nat)
    requires AfterChunk(w, logged) && INDIRECT <= k <= INDIRECT + 3
    ensures var b := At(w, TARGET, k);
            && 4096 <= b < Image().size && b % 4096 == 0 && Used(Image(), w.blocks, b)
            && b in w.owner && w.owner[b] == Place(TARGET, k)
  {
    hide At, Used;
    var b := At(w, TARGET, k);
    assert Complete(w, TARGET);
    assert Blocks(OFF + CHUNK) == 15;
    assert SlotOk(w, TARGET, k);
    assert OwnerOk(Image(), w, b);
    assert BitOk(Image(), w, b);
    if b in Owners() {
      NumberIndex(b);
    }
  }

  lemma NewIndirect(w: Volume, logged: set<nat>)
    requires AfterChunk(w, logged)
    ensures var b := At(w, TARGET, INDIRECT); 0 < b < Image().size && w.blocks[b] != Zeros()
  {
    NewBlock(w, logged, INDIRECT);
    NewBlock(w, logged, ENTRIES);
    hide Consistent, Used, Word;
    ZeroWords(0);
  }

  lemma NewData(w: Volume, logged: set<nat>, k: nat)
    requires AfterChunk(w, logged) && INDIRECT < k <= INDIRECT + 3
    ensures var b := At(w, TARGET, k); 0 < b < Image().size && w.blocks[b] != Zeros()
  {
    NewBlock(w, logged, k);
    hide Consistent, Used, At;
    var p := 512 * (k - 1);
    assert p / BSIZE == k - 1 && p % BSIZE == 0 && DataSlot(k - 1) == k && ByteAt(w, TARGET, p) == 1;
  }

  lemma NewChanged(w: Volume, logged: set<nat>, k: nat)
    requires AfterChunk(w, logged) && INDIRECT <= k <= INDIRECT + 3
    ensures var b := At(w, TARGET, k); b in logged && 256 + b / 4096 in logged
  {
    if k == INDIRECT {
      NewIndirect(w, logged);
    } else {
      NewData(w, logged, k);
    }
    NewBlock(w, logged, k);
    hide At, Used, ByteAt, Complete, Owned;
    var b := At(w, TARGET, k);
    BitmapLogged(w, logged, b);
    assert Spread().blocks[b] == BlockOf(b) == Zeros();
  }

  lemma OldKept(w: Volume, logged: set<nat>)
    requires AfterChunk(w, logged)
    ensures var b := Number(SLOTS * TARGET + 11);
            && Held(b) && b in w.owner && w.owner[b] == Place(TARGET, 11) && At(w, TARGET, 11) == b
            && BlockOf(b) == Zeros()
  {
    hide At, Used, ByteAt, Complete, Number;
    var b := Number(SLOTS * TARGET + 11);
    IndexNumber(SLOTS * TARGET + 11);
    PlaceOf(TARGET, 11);
    assert b in Owners();
    assert OwnerOk(Image(), w, b);
  }

  lemma OldChanged(w: Volume, logged: set<nat>)
    requires AfterChunk(w, logged)
    ensures var b := At(w, TARGET, 11); b in logged && b in w.owner && w.owner[b] == Place(TARGET, 11) && Held(b)
  {
    OldKept(w, logged);
    hide At, Consistent, Number, BlockOf;
    var b := At(w, TARGET, 11);
    assert Spread().blocks[b] == BlockOf(b) == Zeros();
    assert OFF / BSIZE == 11 && OFF % BSIZE == 1 && DataSlot(11) == 11 && ByteAt(w, TARGET, OFF) == 1;
  }

  // The new block of slot k and its bitmap block are logged.
  ghost predicate Fresh(w: Volume, logged: set<nat>, k: nat)
    requires |w.inodes| == TARGET + 1 && k < SLOTS
  {
    var b := At(w, TARGET, k);
    && 4096 <= b < 4096 * (AREAS + 1) && b % 4096 == 0 && b in w.owner && w.owner[b] == Place(TARGET, k)
    && b in logged && 256 + b / 4096 in logged
  }

  lemma AllFresh(w: Volume, logged: set<nat>, k: nat)
    requires AfterChunk(w, logged) && |w.inodes| == TARGET + 1 && 12 <= k <= 15
    ensures Fresh(w, logged, k)
  {
    hide At, AfterChunk, Used;
    NewBlock(w, logged, k);
    NewChanged(w, logged, k);
  }

  lemma FourDistinct(b: nat, c: nat, d: nat, e: nat)
    requires b != c && b != d && b != e && c != d && c != e && d != e
    ensures |{b, c, d, e}| == 4
  {
  }

  // Blocks of four areas have four bitmap blocks.
  lemma FourAreas(b: nat, c: nat, d: nat, e: nat)
    requires b % 4096 == c % 4096 == d % 4096 == e % 4096 == 0
    requires b != c && b != d && b != e && c != d && c != e && d != e
    ensures |{256 + b / 4096, 256 + c / 4096, 256 + d / 4096, 256 + e / 4096}| == 4
  {
    FourDistinct(256 + b / 4096, 256 + c / 4096, 256 + d / 4096, 256 + e / 4096);
  }

  lemma TenDistinct(a: nat, four: set<nat>, bits: set<nat>, i: nat, logged: set<nat>)
    requires a >= 4096 && a !in four && i < 256 && |four| == |bits| == 4
    requires (forall n :: n in four ==> n >= 4096) && forall n :: n in bits ==> 256 <= n < 4096
    requires a in logged && four <= logged && bits <= logged && i in logged
    ensures |logged| >= 10
  {
    MoreIsLarger(four + bits + {a} + {i}, logged);
  }

  lemma FourFresh(w: Volume, logged: set<nat>) returns (four: set<nat>, bits: set<nat>)
    requires |w.inodes| == TARGET + 1
    requires Fresh(w, logged, 12) && Fresh(w, logged, 13) && Fresh(w, logged, 14) && Fresh(w, logged, 15)
    ensures |four| == |bits| == 4 && four <= logged && bits <= logged
    ensures forall n :: n in four ==> n >= 4096 && n in w.owner && w.owner[n].slot >= 12
    ensures forall n :: n in bits ==> 256 <= n < 4096
  {
    hide At;
    var b, c, d, e := At(w, TARGET, 12), At(w, TARGET, 13), At(w, TARGET, 14), At(w, TARGET, 15);
    FourDistinct(b, c, d, e);
    FourAreas(b, c, d, e);
    four, bits := {b, c, d, e}, {256 + b / 4096, 256 + c / 4096, 256 + d / 4096, 256 + e / 4096};
  }

  lemma TenLogged(w: Volume, logged: set<nat>)
    requires AfterChunk(w, logged) && InodeBlock(Image(), TARGET) in logged
    ensures |logged| >= Log.MAXOPBLOCKS
  {
    assert |w.inodes| == TARGET + 1;
    hide At, AfterChunk, Fresh;
    OldChanged(w, logged);
    AllFresh(w, logged, 12);
    AllFresh(w, logged, 13);
    AllFresh(w, logged, 14);
    AllFresh(w, logged, 15);
    var four, bits := FourFresh(w, logged);
    TenDistinct(At(w, TARGET, 11), four, bits, InodeBlock(Image(), TARGET), logged);
  }

  function Ones(): (s: Bytes)
    ensures |s| == CHUNK && forall p :: 0 <= p < CHUNK ==> s[p] == 1
  {
    seq(CHUNK, p => 1)
  }

  lemma ChunkWritten(w: Volume, logged: set<nat>)
    requires Covered(Spread(), w, logged) && Consistent(Image(), w) && |w.inodes| == TARGET + 1
    requires w.inodes[TARGET].size <= MAXBYTES
    requires Spread().inodes[TARGET].size == OFF && Content(w, TARGET) == Overlay(Content(Spread(), TARGET), OFF, Ones())
    ensures AfterChunk(w, logged)
  {
    hide Covered, Consistent, ByteAt;
    var c := Content(w, TARGET);
    forall p: nat | OFF <= p < OFF + CHUNK
      ensures ByteAt(w, TARGET, p) == 1
    {
      assert c[p] == Ones()[p - OFF];
    }
  }

  /**
    The budget is tight: on a settled volume with a free block in each of 49
    bitmap blocks, one write of 1536 bytes at an unaligned offset logs four data
    blocks, four bitmap blocks, the indirect block and the inode block, which are
    ten distinct blocks.
   */
  method FillBudget() returns (fs: Fs, r: Outcome<Option<nat>>)
    ensures Consistent(Image(), Spread()) && OFF % BSIZE != 0 && CHUNK == 3 * BSIZE
    ensures fresh(fs) && fs.Settled() && r == Done(Some(CHUNK)) && |fs.logged| == Log.MAXOPBLOCKS && fs.within
    ensures |fs.inodes| == TARGET + 1 == |Spread().inodes| && fs.inodes[TARGET].size <= MAXBYTES
    ensures Spread().inodes[TARGET].size == OFF && Content(fs.vol, TARGET) == Overlay(Content(Spread(), TARGET), OFF, Ones())
  {
    hide Consistent, Covered, AfterChunk, Content, Overlay, Layout;
    SpreadConsistent();
    fs := new Fs(Image(), Spread().blocks, Spread().inodes, Spread().owner);
    assert fs.inodes[TARGET] == FileOf(TARGET);
    assert Cost(OFF, CHUNK) == Log.MAXOPBLOCKS;
    r := fs.WriteI(TARGET, Ones(), OFF);
    if r.Panic? {
      NotFull(fs.vol, fs.logged);
    } else {
      ChunkWritten(fs.vol, fs.logged);
      TenLogged(fs.vol, fs.logged);
    }
  }
}
