/**
  An image on which each way of losing the isolation of a container is open: a
  root directory with a name of 14 bytes, a file "ab" and a longer file "ab$0".
 */
module ContainerWitness {
  import opened Container
  import opened ContainerLimits
  import opened Creation
  import opened Directory
  import opened File
  import opened FileSystem
  import opened FsBytes
  import opened FsContent
  import opened FsVolume
  import opened Mkfs
  import opened Namei
  import opened Names
  import opened Paths
  import opened PrivateNames
  import opened Results

  function Long(): (s: Bytes)
    ensures |s| == DIRSIZ && forall j :: 0 <= j < |s| ==> s[j] == 97
  {
    seq(DIRSIZ, j => 97)
  }

  function Ab(): (s: Bytes) {
    [97, 98]
  }

  // "ab$0", the private name of "ab" in container 0.
  function Taken(): (s: Bytes) {
    [97, 98, 36, 48]
  }

  function Padded(k: Bytes): (s: Bytes)
    requires |k| <= DIRSIZ
    ensures |s| == DIRSIZ
  {
    k + seq(DIRSIZ - |k|, j => 0)
  }

  function RootBytes(): (c: Bytes)
    ensures |c| == 3 * DIRENT
  {
    Dirent(2, Long()) + Dirent(3, Padded(Ab())) + Dirent(4, Padded(Taken()))
  }

  function RootBlock(): (b: Block) {
    RootBytes() + seq(BSIZE - 3 * DIRENT, j => 0)
  }

  function AddrsOf(first: nat): (a: Addrs) {
    [first, 0, 0, 0, 0, 0, 0, 0, 0, 0, 0, 0, 0]
  }

  function NodeOf(x: nat): (node: Inode) {
    if x == 1 then Inode(T_DIR, 3 * DIRENT, AddrsOf(NMETA))
    else if x == 2 || x == 3 then Inode(T_FILE, 0, AddrsOf(0))
    else if x == 4 then Inode(T_FILE, 1, AddrsOf(NMETA + 1))
    else Inode(0, 0, AddrsOf(0))
  }

  function Disk(): (v: Volume)
    ensures |v.inodes| == NINODES && forall x: nat :: x < NINODES ==> v.inodes[x] == NodeOf(x)
    ensures |v.blocks| == FSSIZE && v.blocks[NMETA] == RootBlock()
    ensures v.owner == map[NMETA := Place(1, 0), NMETA + 1 := Place(4, 0)]
  {
    var sb := Superblock();
    var blocks := Allocated(sb, Allocated(sb, EmptyImage(sb).blocks, NMETA), NMETA + 1)[NMETA := RootBlock()];
    Volume(blocks, seq(NINODES, x requires 0 <= x < NINODES => NodeOf(x)), map[NMETA := Place(1, 0), NMETA + 1 := Place(4, 0)])
  }

  function Places(): (d: Dirs) {
    map[1 := map[Long() := 0, Ab() := 1, Taken() := 2]]
  }

  lemma DiskAt(x: nat, k: nat)
    requires x < NINODES && k < SLOTS
    ensures At(Disk(), x, k) == if x == 1 && k == 0 then NMETA else if x == 4 && k == 0 then NMETA + 1 else 0
  {
    hide Disk;
    assert Disk().inodes[x] == NodeOf(x);
  }

  lemma TwoMore(sb: Super, v: Volume, n: nat, data: Block, b: nat)
    requires Shaped(sb, v.blocks) && DataStart(sb) <= n && n + 1 < sb.size && b < sb.size
    ensures var a := Allocated(sb, v.blocks, n);
            Used(sb, Allocated(sb, a, n + 1)[n := data], b) <==> b == n || b == n + 1 || Used(sb, v.blocks, b)
  {
    var a := Allocated(sb, v.blocks, n);
    MetadataBelow(sb, b);
    hide Allocated, Layout;
    AllocatedUsed(sb, v, n, b);
    AllocatedUsed(sb, v.(blocks := a), n + 1, b);
  }

  lemma DiskUsed(b: nat)
    requires b < FSSIZE
    ensures Used(Superblock(), Disk().blocks, b) <==> b <= NMETA + 1
  {
    hide EmptyImage, Allocated, RootBlock, Superblock, Used, Layout;
    SuperblockSizes();
    EmptyBit(Superblock(), b);
    EmptyShaped(Superblock());
    TwoMore(Superblock(), EmptyImage(Superblock()), NMETA, RootBlock(), b);
  }

  lemma EmptyShaped(sb: Super)
    requires Layout(sb)
    ensures Shaped(sb, EmptyImage(sb).blocks)
  {
  }

  lemma TwoOwned(sb: Super, v: Volume, b: nat)
    requires Shaped(sb, v.blocks) && 0 < b == DataStart(sb) && b + 1 < sb.size && |v.inodes| > 4
    requires v.owner == map[b := Place(1, 0), b + 1 := Place(4, 0)]
    requires forall c: nat :: c < sb.size ==> (Used(sb, v.blocks, c) <==> c <= b + 1)
    requires forall x: nat, k: nat :: x < |v.inodes| && k < SLOTS ==>
               At(v, x, k) == if x == 1 && k == 0 then b else if x == 4 && k == 0 then b + 1 else 0
    ensures Owned(sb, v)
  {
    hide Used, At, Layout;
    forall c: nat | c < sb.size
      ensures BitOk(sb, v, c)
    {
      assert Used(sb, v.blocks, c) <==> c <= b + 1;
    }
    forall x: nat, k: nat | x < |v.inodes| && k < SLOTS
      ensures SlotOk(v, x, k)
    {
    }
  }

  lemma DiskOwned(sb: Super, v: Volume)
    requires sb == Superblock() && v == Disk()
    ensures Owned(sb, v)
  {
    hide Used, At, Disk, Layout, NodeOf, Owned, Superblock;
    assert DataStart(sb) == NMETA && sb.size == FSSIZE by {
      SuperblockSizes();
    }
    forall b: nat | b < sb.size
      ensures Used(sb, v.blocks, b) <==> b <= NMETA + 1
    {
      DiskUsed(b);
    }
    forall x: nat, k: nat | x < |v.inodes| && k < SLOTS
      ensures At(v, x, k) == if x == 1 && k == 0 then NMETA else if x == 4 && k == 0 then NMETA + 1 else 0
    {
      DiskAt(x, k);
    }
    TwoOwned(sb, v, NMETA);
  }

  lemma SuperblockSizes()
    ensures DataStart(Superblock()) == NMETA && Superblock().size == FSSIZE && Superblock().ninodes == NINODES
  {
  }

  lemma DiskComplete(x: nat)
    requires x < NINODES
    ensures Complete(Disk(), x) && (Disk().inodes[x].typ == 0 ==> Disk().inodes[x].size == 0)
  {
    var v := Disk();
    hide At, Disk, AddrsOf;
    assert v.inodes[x] == NodeOf(x);
    assert Blocks(0) == 0 && Blocks(1) == 1 && Blocks(3 * DIRENT) == 1;
    forall k: nat | k < SLOTS
      ensures (At(v, x, k) != 0) == Needed(Blocks(v.inodes[x].size), k)
    {
      DiskAt(x, k);
    }
  }

  lemma DiskConsistent()
    ensures Consistent(Superblock(), Disk()) && FreeEmpty(Disk()) && |Disk().inodes| == Superblock().ninodes
  {
    DiskOwned(Superblock(), Disk());
    hide Disk, Owned, Complete;
    forall x: nat | x < |Disk().inodes|
      ensures Complete(Disk(), x) && (Disk().inodes[x].typ == 0 ==> Disk().inodes[x].size == 0)
    {
      DiskComplete(x);
    }
  }

  lemma RootContent()
    ensures Disk().inodes[1].size == 3 * DIRENT && Content(Disk(), 1) == RootBytes()
  {
    var v := Disk();
    hide Disk, RootBytes;
    assert v.inodes[1] == NodeOf(1);
    DiskAt(1, 0);
    forall p: nat | p < 3 * DIRENT
      ensures ByteAt(v, 1, p) == RootBytes()[p]
    {
      assert p / BSIZE == 0 && p % BSIZE == p;
    }
  }

  lemma PaddedKey(k: Bytes)
    requires |k| <= DIRSIZ && Text(k)
    ensures Key(Padded(k)) == k
  {
    KeyLenIs(Padded(k), |k|);
    assert Padded(k)[..|k|] == k;
  }

  lemma RootEntries()
    ensures var c := RootBytes();
            && Entries(c) == 3
            && Inum(c, 0) == 2 && Key(Field(c, 0)) == Long()
            && Inum(c, 1) == 3 && Key(Field(c, 1)) == Ab()
            && Inum(c, 2) == 4 && Key(Field(c, 2)) == Taken()
  {
    var c := RootBytes();
    var a, b, d := Dirent(2, Long()), Dirent(3, Padded(Ab())), Dirent(4, Padded(Taken()));
    assert c[0..16] == a && c[16..32] == b && c[32..48] == d;
    hide RootBytes, Long, Ab, Taken, Padded, Key;
    DirentSays(2, Long());
    DirentSays(3, Padded(Ab()));
    DirentSays(4, Padded(Taken()));
    EntryRead(c, 0);
    EntryRead(c, 1);
    EntryRead(c, 2);
    RootKeys();
  }

  lemma RootKeys()
    ensures Key(Long()) == Long() && Key(Padded(Ab())) == Ab() && Key(Padded(Taken())) == Taken()
  {
    PaddedKey(Ab());
    PaddedKey(Taken());
    KeyLenIs(Long(), DIRSIZ);
  }

  lemma ThreeLive(c: Bytes, k0: Bytes, k1: Bytes, k2: Bytes, j: nat, k: Bytes)
    requires Entries(c) == 3 && Inum(c, 0) != 0 && Inum(c, 1) != 0 && Inum(c, 2) != 0
    requires Key(Field(c, 0)) == k0 && Key(Field(c, 1)) == k1 && Key(Field(c, 2)) == k2
    ensures Live(c, j, k) <==> (j == 0 && k == k0) || (j == 1 && k == k1) || (j == 2 && k == k2)
  {
    hide Inum, Field, Key;
  }

  lemma ThreeNames(c: Bytes, k0: Bytes, k1: Bytes, k2: Bytes)
    requires |c| == 3 * DIRENT && Entries(c) == 3 && k0 != k1 && k0 != k2 && k1 != k2
    requires Inum(c, 0) != 0 && Inum(c, 1) != 0 && Inum(c, 2) != 0
    requires Key(Field(c, 0)) == k0 && Key(Field(c, 1)) == k1 && Key(Field(c, 2)) == k2
    ensures Dir(c, map[k0 := 0, k1 := 1, k2 := 2])
  {
    hide Inum, Field, Key, Live;
    var at := map[k0 := 0, k1 := 1, k2 := 2];
    forall j: nat, k: Bytes
      ensures Live(c, j, k) <==> (j == 0 && k == k0) || (j == 1 && k == k1) || (j == 2 && k == k2)
    {
      ThreeLive(c, k0, k1, k2, j, k);
    }
  }

  lemma ThreeMeaning(c: Bytes, k0: Bytes, k1: Bytes, k2: Bytes)
    requires Entries(c) == 3 && k0 != k1 && k0 != k2 && k1 != k2
    ensures Meaning(c, map[k0 := 0, k1 := 1, k2 := 2]) == map[k0 := Inum(c, 0), k1 := Inum(c, 1), k2 := Inum(c, 2)]
  {
    hide Inum;
  }

  lemma RootLengths()
    ensures |Long()| != |Ab()| && |Long()| != |Taken()| && |Ab()| != |Taken()|
  {
  }

  lemma RootListing()
    ensures Dir(RootBytes(), Places()[1]) && Listing(Disk(), Places(), 1) == map[Long() := 2, Ab() := 3, Taken() := 4]
  {
    RootEntries();
    RootContent();
    RootLengths();
    hide RootBytes, Long, Ab, Taken, Disk, Inum, Field, Key, Content, Dir, Meaning;
    ThreeNames(RootBytes(), Long(), Ab(), Taken());
    ThreeMeaning(RootBytes(), Long(), Ab(), Taken());
  }

  lemma DiskWorld()
    ensures WorldOf(Disk(), Places())
  {
    RootListing();
    RootContent();
    DiskConsistent();
    var v := Disk();
    hide Disk, Content, Dir, Listing, RootBytes, FreeEmpty;
    forall x: nat | x < |v.inodes| && v.inodes[x].typ == T_DIR
      ensures Node(v, Places(), x)
    {
      assert v.inodes[x] == NodeOf(x);
    }
  }

  lemma OneComponent(c: Bytes)
    requires c != [] && Plain(c)
    ensures Components(c) == [c]
  {
    hide Components;
    FirstComponent(c, []);
    assert c + [] == c;
    assert Components([]) == [] by {
      NoComponent();
    }
  }

  lemma NoComponent()
    ensures Components([]) == []
  {
  }

  lemma OneWalk(v: Volume, dirs: Dirs, x: nat, c: Bytes)
    requires x < |v.inodes| && v.inodes[x].typ == T_DIR && Cut(c) == c
    ensures Walk(v, dirs, x, [c]) == if c in Listing(v, dirs, x) then Some(Listing(v, dirs, x)[c]) else None
  {
    hide Listing, Cut;
    if c in Listing(v, dirs, x) {
      assert [c][1..] == [];
    }
  }

  lemma RootWalk(c: Bytes)
    requires Cut(c) == c
    ensures Walk(Disk(), Places(), 1, [c]) ==
              if c == Long() then Some(2) else if c == Ab() then Some(3) else if c == Taken() then Some(4) else None
  {
    RootLengths();
    hide Listing, Disk, Long, Ab, Taken, Cut, Places, Dir, RootBytes, Walk;
    RootListing();
    assert Disk().inodes[1] == NodeOf(1);
    OneWalk(Disk(), Places(), 1, c);
  }

  lemma OneName(c: Bytes)
    requires c != [] && Plain(c) && |c| <= DIRSIZ
    ensures Components(c) == [c]
    ensures Walk(Disk(), Places(), 1, [c]) ==
              if c == Long() then Some(2) else if c == Ab() then Some(3) else if c == Taken() then Some(4) else None
  {
    assert |c| == DIRSIZ ==> c[..DIRSIZ] == c;
    hide Components, Walk, Disk, Places, Long, Ab, Taken;
    OneComponent(c);
    RootWalk(c);
  }

  // The three files are regular, and the last is the longest.
  lemma DiskFiles()
    ensures forall x: nat :: 2 <= x <= 4 ==> Disk().inodes[x].typ == T_FILE && Disk().inodes[x].size == if x == 4 then 1 else 0
  {
    forall x: nat | 2 <= x <= 4
      ensures Disk().inodes[x] == NodeOf(x)
    {
    }
    hide Disk;
  }

  // A file in a directory is one that create() gives.
  lemma FileInPlace(v: Volume, dirs: Dirs, x: nat, name: Bytes)
    requires x < |v.inodes| && v.inodes[x].typ == T_DIR
    requires var ip := Walk(v, dirs, x, [name]); ip.Some? && ip.value < |v.inodes| && v.inodes[ip.value].typ == T_FILE
    ensures !NoPlace(v, dirs, x, [name])
  {
    hide Listing, Cut;
    assert [name][..0] == [];
  }

  lemma HasPlace(name: Bytes)
    requires Walk(Disk(), Places(), 1, [name]).Some? && 2 <= Walk(Disk(), Places(), 1, [name]).value <= 4
    ensures !NoPlace(Disk(), Places(), 1, [name])
  {
    hide Disk, Places, Walk, NoPlace;
    DiskFiles();
    assert Disk().inodes[1] == NodeOf(1);
    FileInPlace(Disk(), Places(), 1, name);
  }

  // The conditions of an open that must succeed, and is not isolated.
  ghost predicate Unavoidable(path: Bytes, i: nat, j: nat) {
    var name := Components(PrivateName(path, 0));
    && FirstOpen(Disk(), Places(), [], path, 0, 0, 1) && !Separate(Disk(), Places(), 1, name, i)
    && Walk(Disk(), Places(), 1, Components(path)) == Some(i) && Walk(Disk(), Places(), 1, name) == Some(j)
    && !Refuses(Disk(), Places(), [], path, 0, 0, 1) && !Costs(Disk(), Places(), 1, name, i, true)
  }

  lemma LongName()
    ensures Unavoidable(Long(), 2, 2)
  {
    hide Disk, Walk, Components, Separate, Places, PrivateName, NoPlace;
    OneName(Long());
    DiskFiles();
    LongNameShared(Disk(), Places(), Long(), 0, 1);
    SuffixedPath(Long(), 0);
    var name := Components(PrivateName(Long(), 0));
    assert |name| == 1 && name == [name[0]];
    HasPlace(name[0]);
  }

  lemma PrivateAb()
    ensures PrivateName(Ab(), 0) == Taken() && PrivateName(Ab(), 7) == [97, 98, 36, 55]
  {
    assert Decimal(0) == [48] && Decimal(7) == [55];
  }

  lemma TakenName()
    ensures Unavoidable(Ab(), 3, 4)
  {
    hide Disk, Walk, Components, Places, PrivateName, NoPlace;
    PrivateAb();
    OneName(Ab());
    OneName(Taken());
    DiskFiles();
    HasPlace(Taken());
  }

  method OpenFirst(path: Bytes, ghost i: nat, ghost j: nat) returns (fs: Fs, r: Outcome<Option<Handle>>)
    requires Text(path) && (path != [] ==> path[0] != SLASH) && Unavoidable(path, i, j) && 2 <= i <= 4
    ensures r.Done? && r.value.Some? && r.value.value.ip == j && !Isolated(Disk(), fs.vol, i, r.value.value.ip)
  {
    hide Disk, Walk, Components, Consistent, WorldOf, Places, PrivateName, Known, Superblock, Layout, Owned;
    hide FirstOpen, Separate, Refuses, Costs, Isolated;
    DiskFiles();
    fs := Mounted();
    var files';
    ghost var dirs';
    r, files', dirs' := OpenFile(fs, [], path, 0, 0, 1, Places());
  }

  lemma OpenNames()
    ensures Text(Long()) && Text(Ab()) && Long() != [] && Ab() != [] && Long()[0] != SLASH && Ab()[0] != SLASH
  {
  }

  lemma LeadsTo(path: Bytes, i: nat, j: nat)
    requires Unavoidable(path, i, j)
    ensures Walk(Disk(), Places(), 1, Components(path)) == Some(i)
  {
    hide Disk, Walk, Components, Places, PrivateName, FirstOpen, Separate, Refuses, Costs;
  }

  /** A name of 14 bytes: the container gets the original itself. */
  method OpensOriginal() returns (fs: Fs, r: Outcome<Option<Handle>>)
    ensures Walk(Disk(), Places(), 1, Components(Long())) == Some(2) && Disk().inodes[2].typ == T_FILE
    ensures r.Done? && r.value.Some? && r.value.value.ip == 2 && !Isolated(Disk(), fs.vol, 2, r.value.value.ip)
  {
    hide Disk, Walk, Components, Places, Unavoidable, Isolated, Long, Ab, Text;
    OpenNames();
    LongName();
    LeadsTo(Long(), 2, 2);
    DiskFiles();
    fs, r := OpenFirst(Long(), 2, 2);
  }

  /** The private name is taken by a longer file: the container gets that one, not a copy. */
  method OpensLonger() returns (fs: Fs, r: Outcome<Option<Handle>>)
    ensures Walk(Disk(), Places(), 1, Components(Ab())) == Some(3) && Disk().inodes[3].typ == T_FILE
    ensures r.Done? && r.value.Some? && r.value.value.ip == 4 && !Isolated(Disk(), fs.vol, 3, r.value.value.ip)
  {
    hide Disk, Walk, Components, Places, Unavoidable, Isolated, Long, Ab, Text;
    OpenNames();
    TakenName();
    LeadsTo(Ab(), 3, 4);
    DiskFiles();
    fs, r := OpenFirst(Ab(), 3, 4);
  }

  lemma ShadowedNames(name: Bytes, files: seq<Bytes>)
    requires name == [97, 98, 36, 55] && files == [[120, 98, 36, 55]]
    ensures Known(files, PrivateName(Ab(), 7)) && PrivateName(Ab(), 7) == name
    ensures Walk(Disk(), Places(), 1, Components(name)) == None
    ensures Walk(Disk(), Places(), 1, Components(Ab())) == Some(3)
  {
    hide Disk, Walk, Components, Places, PrivateName;
    PrivateAb();
    assert Similar(files[0], name);
    OneName(Ab());
    OneName(name);
  }

  method Mounted() returns (fs: Fs)
    ensures fresh(fs) && World(fs, Places()) && fs.vol == Disk()
  {
    hide Disk, Consistent, WorldOf, Places, Superblock, Layout, Owned;
    DiskConsistent();
    DiskWorld();
    fs := new Fs(Superblock(), Disk().blocks, Disk().inodes, Disk().owner);
  }

  /**
    A file that is there cannot be opened: the container knows "xb$7", which
    mystrcmp() does not tell from the private name of "ab".
   */
  method Shadowed() returns (r: Outcome<Option<Handle>>)
    ensures Walk(Disk(), Places(), 1, Components(Ab())) == Some(3) && Disk().inodes[3].typ == T_FILE
    ensures r == Done(None)
  {
    hide Disk, Walk, Components, Consistent, WorldOf, Places, PrivateName, Known, Superblock, Layout, Owned, FirstOpen;
    DiskFiles();
    var files: seq<Bytes> := [[120, 98, 36, 55]];
    ShadowedNames([97, 98, 36, 55], files);
    var fs := Mounted();
    var files';
    ghost var dirs';
    r, files', dirs' := OpenFile(fs, files, Ab(), 7, 0, 1, Places());
  }
}
