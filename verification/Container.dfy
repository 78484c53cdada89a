/**
  Opening a file from inside a container: the container gets its own copy, and
  the original is out of its reach (sys_open in sysfile.c).
 */
module Container {
  import opened Creation
  import opened File
  import opened FileCopy
  import opened FileSystem
  import opened FsBytes
  import opened FsContent
  import opened FsVolume
  import opened FsWrite
  import opened Namei
  import opened Paths
  import opened PrivateNames
  import opened Results

  const PAGE := 4096
  const CID_LIMIT := 0x8000_0000

  function Pow10(k: nat): (p: nat) {
    if k == 0 then 1 else 10 * Pow10(k - 1)
  }

  lemma {:induction false} DecimalLength(i: nat, k: nat)
    requires k >= 1 && i < Pow10(k)
    ensures |Decimal(i)| <= k
  {
    if i >= 10 {
      assert k >= 2 by {
        assert Pow10(1) == 10;
      }
      DecimalLength(i / 10, k - 1);
    }
  }

  lemma SuffixFits(cid: nat)
    requires cid < CID_LIMIT
    ensures |Suffix(cid)| <= 11
  {
    assert Pow10(10) == 10000000000;
    DecimalLength(cid, 10);
  }

  // The private name of path in container cid, built in a page of its own.
  method BuildName(path: Bytes, cid: nat) returns (name: Bytes)
    requires cid < CID_LIMIT
    ensures name == PrivateName(path, cid)
  {
    SuffixFits(cid);
    var b := new Byte[PAGE];
    MyItoa(cid, b);
    forall k | 0 <= k < |Suffix(cid)|
      ensures Suffix(cid)[k] != 0
    {
      SuffixByte(cid, k);
    }
    hide Decimal;
    var n := 0;
    while b[n] != 0
      invariant 0 <= n <= |Suffix(cid)| && b[..|Suffix(cid)| + 1] == Suffix(cid) + [0]
      decreases PAGE - n
    {
      assert b[n] == (Suffix(cid) + [0])[n];
      n := n + 1;
    }
    assert b[..n] == b[..n + 1][..n] == Suffix(cid);
    name := Strcat(path, b[..n]);
  }

  lemma SuffixByte(cid: nat, k: nat)
    requires k < |Suffix(cid)|
    ensures Suffix(cid)[k] != 0
  {
    if k > 0 {
      assert Suffix(cid)[k] == Decimal(cid)[k - 1];
    }
  }

  lemma PrivateText(path: Bytes, cid: nat)
    requires Text(path)
    ensures Text(PrivateName(path, cid))
  {
    var s := PrivateName(path, cid);
    forall j | 0 <= j < |s|
      ensures s[j] != 0
    {
      if j > |path| {
        assert s[j] == Decimal(cid)[j - |path| - 1];
      }
    }
  }

  // The search in the files of the container.
  method Registered(files: seq<Bytes>, name: Bytes) returns (hit: bool)
    ensures hit <==> Known(files, name)
  {
    var j := 0;
    while j < |files|
      invariant 0 <= j <= |files| && forall k :: 0 <= k < j ==> !Similar(files[k], name)
    {
      var same := MyStrcmp(files[j], name);
      if same {
        return true;
      }
      j := j + 1;
    }
    return false;
  }

  /** A file that is no directory can change without any path leading elsewhere. */
  lemma KeptWalk(v: Volume, w: Volume, dirs: Dirs, i: nat, start: nat, path: seq<Bytes>)
    requires OnlyData(v, w, i) && v.inodes[i].typ != T_DIR && Walk(v, dirs, start, path).Some?
    ensures Walk(w, dirs, start, path) == Walk(v, dirs, start, path)
  {
    hide Listing, Content;
    forall x: nat | x < |v.inodes| && v.inodes[x].typ == T_DIR
      ensures WiderAt(v, dirs, w, dirs, x)
    {
      assert SameFile(v, w, x);
      ListingSame(v, w, dirs, x);
    }
    WiderWalk(v, dirs, w, dirs, start, path);
  }

  // The file of inode j is a copy of that of i in v, which is still as it was.
  ghost predicate Isolated(v: Volume, w: Volume, i: nat, j: nat) {
    && i < |v.inodes| == |w.inodes| && j < |v.inodes| && i != j && SameFile(v, w, i)
    && w.inodes[j].size <= MAXBYTES && Content(w, j) == Content(v, i)
  }

  // The private file was made for the first time: from v over u (made) to w (copied).
  lemma FirstCopy(v: Volume, dirs: Dirs, u: Volume, dirs': Dirs, w: Volume, i: nat, j: nat, dp: nat, k: Bytes)
    requires Created(v, dirs, u, dirs', dp, k, j) && OthersSame(v, Retyped(v, j, T_FILE), j)
    requires i < |v.inodes| && v.inodes[i].typ == T_FILE && v.inodes[i].size <= MAXBYTES
    requires |u.inodes| == |v.inodes| && u.inodes[i].size <= MAXBYTES && Laid(u, w, j, 0, Content(u, i))
    ensures Isolated(v, w, i, j)
  {
    CreatedOther(v, dirs, u, dirs', dp, k, j, i);
    assert SameFile(Retyped(v, j, T_FILE), u, j);
    assert u.inodes[j].size == 0;
    assert Content(u, j) == [];
    hide Listing, ByteAt;
    assert SameFile(u, w, i);
    OverlayNothing(Content(v, i));
  }

  lemma OverlayNothing(s: Bytes)
    ensures Overlay([], 0, s) == s
  {
  }

  // No such path before, and create() found a parent: it made the file.
  lemma NotThere(v: Volume, dirs: Dirs, u: Volume, dirs': Dirs, start: nat, path: seq<Bytes>, r: Option<nat>)
    requires CreateAnswers(v, dirs, u, dirs', start, path, r) && r.Some? && Walk(v, dirs, start, path) == None
    ensures path != [] && Parent(v, dirs, start, path).Some?
    ensures Created(v, dirs, u, dirs', Parent(v, dirs, start, path).value, Cut(path[|path| - 1]), r.value)
    ensures OthersSame(v, Retyped(v, r.value, T_FILE), r.value)
  {
    hide Listing, Cut, Created, OthersSame;
    WalkLast(v, dirs, start, path);
  }

  lemma CreatedType(v: Volume, dirs: Dirs, u: Volume, dirs': Dirs, start: nat, path: seq<Bytes>, r: Option<nat>)
    requires CreateAnswers(v, dirs, u, dirs', start, path, r) && r.Some?
    ensures r.value < |u.inodes| && u.inodes[r.value].typ == T_FILE
  {
    hide Listing, Cut, Content;
    if path != [] && Parent(v, dirs, start, path).Some? {
      var dp := Parent(v, dirs, start, path).value;
      if Cut(path[|path| - 1]) !in Listing(v, dirs, dp) {
        assert SameFile(Retyped(v, r.value, T_FILE), u, r.value);
      }
    }
  }

  // The open modes of fcntl.h.
  const O_RDONLY := 0
  const O_WRONLY := 1
  const O_RDWR := 2

  predicate Readable(omode: nat) {
    omode % 2 == 0
  }

  predicate Writable(omode: nat) {
    omode % 2 == 1 || omode / 2 % 2 == 1
  }

  /** The rights of a descriptor are read off the bits of O_WRONLY and O_RDWR. */
  lemma Rights(omode: nat)
    ensures Readable(omode) <==> !Bit(omode, 0)
    ensures Writable(omode) <==> Bit(omode, 0) || Bit(omode, 1)
    ensures !Bit(O_RDONLY, 0) && !Bit(O_RDONLY, 1) && Bit(O_WRONLY, 0) && !Bit(O_RDWR, 0) && Bit(O_RDWR, 1)
  {
    assert Bit(omode, 1) == Bit(omode / 2, 0);
    assert Bit(O_RDWR, 1) == Bit(1, 0) && Bit(O_RDONLY, 1) == Bit(0, 0);
  }

  // The path leads nowhere, or to a directory that is opened for more than reading.
  ghost predicate Blocked(v: Volume, dirs: Dirs, start: nat, path: seq<Bytes>, omode: nat) {
    var ip := Walk(v, dirs, start, path);
    ip.None? || ip.value >= |v.inodes| || (v.inodes[ip.value].typ == T_DIR && omode != 0)
  }

  // create() finds no directory for the path, or something there that is no file.
  ghost predicate NoPlace(v: Volume, dirs: Dirs, start: nat, path: seq<Bytes>) {
    var dp, ip := Parent(v, dirs, start, path), Walk(v, dirs, start, path);
    dp.None? || (ip.Some? && (ip.value >= |v.inodes| || v.inodes[ip.value].typ != T_FILE))
  }

  lemma CreateRefuses(v: Volume, dirs: Dirs, w: Volume, dirs': Dirs, start: nat, path: seq<Bytes>, r: Option<nat>)
    requires CreateAnswers(v, dirs, w, dirs', start, path, r)
    ensures r.None? <==> NoPlace(v, dirs, start, path)
    ensures r.None? ==> w == v && dirs' == dirs
  {
    hide Listing, Cut, Created, OthersSame;
    if path != [] && Parent(v, dirs, start, path).Some? {
      WalkLast(v, dirs, start, path);
    }
  }

  // Finds a path and opens it: sys_open() without O_CREATE.
  method OpenPath(fs: Fs, path: Bytes, omode: nat, cwd: nat, ghost dirs: Dirs) returns (f: Option<Handle>)
    requires World(fs, dirs) && Text(path) && cwd < |fs.inodes|
    modifies fs
    ensures World(fs, dirs) && fs.vol == old(fs.vol)
    ensures f.Some? ==> fresh(f.value) && f.value.off == 0 && f.value.ip < |fs.inodes|
    ensures f.Some? ==> f.value.readable == !Bit(omode, 0) && f.value.writable == (Bit(omode, 0) || Bit(omode, 1))
    ensures f.None? <==> Blocked(fs.vol, dirs, Start(path, cwd), Components(path), omode)
    ensures f.Some? ==> Walk(fs.vol, dirs, Start(path, cwd), Components(path)) == Some(f.value.ip)
  {
    hide Consistent, Owned, TreeOf, Components, Walk;
    ghost var v := fs.vol;
    var ip, name := Namex(fs, path, false, cwd, dirs);
    if ip.None? {
      return None;
    }
    WalkInRange(v, dirs, Start(path, cwd), Components(path));
    if fs.inodes[ip.value].typ == T_DIR && omode != 0 {
      return None;
    }
    Rights(omode);
    var h := new Handle(Readable(omode), Writable(omode), ip.value);
    return Some(h);
  }

  lemma {:induction false} WalkInRange(v: Volume, dirs: Dirs, start: nat, path: seq<Bytes>)
    requires TreeOf(v, dirs) && start < |v.inodes| && Walk(v, dirs, start, path).Some?
    ensures Walk(v, dirs, start, path).value < |v.inodes|
    decreases |path|
  {
    if path != [] {
      assert Node(v, dirs, start);
      hide Listing, Cut;
      WalkInRange(v, dirs, Listing(v, dirs, start)[Cut(path[0])], path[1..]);
    }
  }

  lemma WorldKept(u: Volume, w: Volume, dirs: Dirs, j: nat)
    requires WorldOf(u, dirs) && OnlyData(u, w, j) && u.inodes[j].typ == T_FILE
    ensures WorldOf(w, dirs)
  {
    hide TreeOf, SameFile, FreeEmpty;
    TreeKept(u, w, dirs, j);
    StillFreeEmpty(u, w, j);
  }

  lemma TypeKept(v: Volume, dirs: Dirs, u: Volume, dirs': Dirs, start: nat, path: seq<Bytes>, r: Option<nat>, x: nat)
    requires CreateAnswers(v, dirs, u, dirs', start, path, r) && r.Some? && x < |v.inodes| && v.inodes[x].typ != T_DEV
    ensures |u.inodes| == |v.inodes| && u.inodes[x].typ != T_DEV
  {
    hide Listing, Cut, Content;
    if path != [] && Parent(v, dirs, start, path).Some? {
      var dp := Parent(v, dirs, start, path).value;
      if Cut(path[|path| - 1]) !in Listing(v, dirs, dp) && x != dp {
        assert SameFile(Retyped(v, r.value, T_FILE), u, x);
      }
    }
  }

  // A name that was there has cost nothing.
  lemma SizeKept(v: Volume, dirs: Dirs, u: Volume, dirs': Dirs, start: nat, path: seq<Bytes>, j: nat, i: nat)
    requires CreateAnswers(v, dirs, u, dirs', start, path, Some(j)) && i < |v.inodes| && i < |u.inodes|
    ensures u.inodes[i].size > 0 ==> Costs(v, dirs, start, path, i, true)
  {
    hide Listing, Cut, Created, OthersSame, Walk;
    if Walk(v, dirs, start, path).Some? {
      Existing(v, dirs, u, dirs', start, path, j);
    }
  }

  lemma CopyIsolated(v: Volume, dirs: Dirs, u: Volume, dirs': Dirs, w: Volume, start: nat, path: seq<Bytes>, i: nat, j: nat)
    requires CreateAnswers(v, dirs, u, dirs', start, path, Some(j)) && Walk(v, dirs, start, path) == None
    requires i < |v.inodes| && v.inodes[i].typ == T_FILE && OnlyData(u, w, j) && |u.inodes| == |v.inodes|
    requires i != j ==> u.inodes[i].size <= MAXBYTES && Laid(u, w, j, 0, Content(u, i))
    ensures Isolated(v, w, i, j) && Walk(w, dirs', start, path) == Some(j)
  {
    CreatedType(v, dirs, u, dirs', start, path, Some(j));
    NotThere(v, dirs, u, dirs', start, path, Some(j));
    var dp, k := Parent(v, dirs, start, path).value, Cut(path[|path| - 1]);
    assert SameFile(v, Retyped(v, j, T_FILE), i);
    hide Listing, Cut, Content, Walk, CreateAnswers, Linked, Laid, OthersSame, Parent;
    FirstCopy(v, dirs, u, dirs', w, i, j, dp, k);
    CreatedWalk(v, dirs, u, dirs', start, path, dp, j);
    KeptWalk(u, w, dirs', j, start, path);
  }

  // The private name leads nowhere, or to another file that is not longer: then, and
  // only then, will the copy stand apart from the original, inode i, and equal it.
  ghost predicate Separate(v: Volume, dirs: Dirs, start: nat, name: seq<Bytes>, i: nat) {
    var at := Walk(v, dirs, start, name);
    at.None? || (at.value != i && i < |v.inodes| && at.value < |v.inodes| && v.inodes[at.value].size <= v.inodes[i].size)
  }

  // A file is there under the name already: create() gives it and changes nothing.
  lemma Existing(v: Volume, dirs: Dirs, u: Volume, dirs': Dirs, start: nat, path: seq<Bytes>, j: nat)
    requires CreateAnswers(v, dirs, u, dirs', start, path, Some(j)) && Walk(v, dirs, start, path).Some?
    ensures u == v && dirs' == dirs && Walk(v, dirs, start, path) == Some(j) && j < |v.inodes|
  {
    hide Listing, Cut, Created, OthersSame;
    WalkLast(v, dirs, start, path);
  }

  lemma OverlayEqual(c: Bytes, s: Bytes)
    ensures Overlay(c, 0, s) == s <==> |c| <= |s|
  {
  }

  lemma LaidEqual(v: Volume, w: Volume, i: nat, j: nat)
    requires i < |v.inodes| && v.inodes[i].size <= MAXBYTES && i != j && Laid(v, w, j, 0, Content(v, i))
    ensures Isolated(v, w, i, j) <==> v.inodes[j].size <= v.inodes[i].size
  {
    assert SameFile(v, w, i);
    OverlayEqual(Content(v, j), Content(v, i));
    hide ByteAt, Overlay;
  }

  lemma CopyWalk(v: Volume, dirs: Dirs, u: Volume, dirs': Dirs, w: Volume, start: nat, path: seq<Bytes>, j: nat)
    requires CreateAnswers(v, dirs, u, dirs', start, path, Some(j)) && OnlyData(u, w, j)
    ensures Walk(w, dirs', start, path) == Some(j) && Walk(v, dirs, start, path) in {None, Some(j)}
  {
    CreatedType(v, dirs, u, dirs', start, path, Some(j));
    if Walk(v, dirs, start, path).Some? {
      Existing(v, dirs, u, dirs', start, path, j);
    } else {
      NotThere(v, dirs, u, dirs', start, path, Some(j));
      CreatedWalk(v, dirs, u, dirs', start, path, Parent(v, dirs, start, path).value, j);
    }
    hide Listing, Cut, Content, Walk, CreateAnswers, Linked, Parent, OthersSame;
    KeptWalk(u, w, dirs', j, start, path);
  }

  lemma CopyIsolatedIff(v: Volume, dirs: Dirs, u: Volume, dirs': Dirs, w: Volume, start: nat, path: seq<Bytes>, i: nat, j: nat)
    requires CreateAnswers(v, dirs, u, dirs', start, path, Some(j)) && OnlyData(u, w, j) && |u.inodes| == |v.inodes|
    requires i < |v.inodes| && v.inodes[i].typ == T_FILE
    requires i != j ==> u.inodes[i].size <= MAXBYTES && Laid(u, w, j, 0, Content(u, i))
    ensures Isolated(v, w, i, j) <==> Separate(v, dirs, start, path, i)
  {
    hide Listing, Cut, Content, Walk, CreateAnswers, Laid, OthersSame;
    if Walk(v, dirs, start, path).None? {
      CopyIsolated(v, dirs, u, dirs', w, start, path, i, j);
    } else {
      Existing(v, dirs, u, dirs', start, path, j);
      if i != j {
        LaidEqual(v, w, i, j);
      }
    }
  }

  // The copy of inode i under the name takes an inode or a block.
  ghost predicate Costs(v: Volume, dirs: Dirs, start: nat, name: seq<Bytes>, i: nat, readable: bool) {
    Walk(v, dirs, start, name) == None || (readable && i < |v.inodes| && v.inodes[i].size > 0)
  }

  // The copy: the private file is created, or found, and the original's bytes go into it.
  method MakeCopy(fs: Fs, f: Handle, name: Bytes, cwd: nat, ghost dirs: Dirs)
    returns (r: Outcome<Option<nat>>, ghost dirs': Dirs)
    requires World(fs, dirs) && Text(name) && cwd < |fs.inodes|
    requires f.ip < |fs.inodes| && fs.inodes[f.ip].typ != T_DEV && f.off == 0
    modifies fs, f`off
    ensures r.Panic? ==> OutOfRoom(fs) && Costs(old(fs.vol), dirs, Start(name, cwd), Components(name), f.ip, f.readable)
    ensures r.Done? ==> World(fs, dirs') && |fs.inodes| == |old(fs.inodes)|
    ensures r.Done? ==> (r.value.None? <==> NoPlace(old(fs.vol), dirs, Start(name, cwd), Components(name)))
    ensures r == Done(None) ==> fs.vol == old(fs.vol) && dirs' == dirs
    ensures r.Done? && r.value.Some? ==> Walk(fs.vol, dirs', Start(name, cwd), Components(name)) == r.value
    ensures r.Done? && r.value.Some? ==> r.value.value < |fs.inodes| && fs.inodes[r.value.value].typ == T_FILE
    ensures r.Done? && r.value.Some? ==> Walk(old(fs.vol), dirs, Start(name, cwd), Components(name)) in {None, r.value}
    ensures r.Done? && r.value.Some? && old(fs.inodes[f.ip].typ) == T_FILE && f.readable ==>
              (Isolated(old(fs.vol), fs.vol, f.ip, r.value.value)
               <==> Separate(old(fs.vol), dirs, Start(name, cwd), Components(name), f.ip))
  {
    ghost var v, start, path := fs.vol, Start(name, cwd), Components(name);
    hide Consistent, Owned, Components, Walk, WorldOf, CreateAnswers, OnlyData, Laid, Content, Isolated, Separate, NoPlace;
    assert ROOTINO < |fs.inodes|;
    var ip2;
    ip2, dirs' := Create(fs, name, cwd, dirs);
    if ip2.Panic? {
      return Panic(ip2.message), dirs;
    }
    CreateRefuses(v, dirs, fs.vol, dirs', start, path, ip2.value);
    if ip2.value.None? {
      return Done(None), dirs';
    }
    var j := ip2.value.value;
    ghost var u := fs.vol;
    SizeKept(v, dirs, u, dirs', start, path, j, f.ip);
    CreatedType(v, dirs, u, dirs', start, path, ip2.value);
    TypeKept(v, dirs, u, dirs', start, path, ip2.value, f.ip);
    var g := new Handle(f.readable, true, j);
    var copied := CopyFile(fs, f, g);
    if copied.Panic? {
      return Panic(copied.message), dirs';
    }
    WorldKept(u, fs.vol, dirs', j);
    CopyWalk(v, dirs, u, dirs', fs.vol, start, path, j);
    if v.inodes[f.ip].typ == T_FILE && f.readable {
      CopyIsolatedIff(v, dirs, u, dirs', fs.vol, start, path, f.ip, j);
    }
    return Done(Some(j)), dirs';
  }

  // A name like this one is in the files of the container.
  ghost predicate Known(files: seq<Bytes>, name: Bytes) {
    exists j :: 0 <= j < |files| && Similar(files[j], name)
  }

  // A path that a container opens for the first time: a regular file, opened for reading.
  ghost predicate FirstOpen(v: Volume, dirs: Dirs, files: seq<Bytes>, path: Bytes, cid: nat, omode: nat, cwd: nat) {
    var ip := Walk(v, dirs, Start(path, cwd), Components(path));
    && ip.Some? && ip.value < |v.inodes| && v.inodes[ip.value].typ == T_FILE && !Bit(omode, 0)
    && !Known(files, PrivateName(path, cid))
  }

  // sys_open() answers -1.
  ghost predicate Refuses(v: Volume, dirs: Dirs, files: seq<Bytes>, path: Bytes, cid: nat, omode: nat, cwd: nat) {
    var start, name := Start(path, cwd), PrivateName(path, cid);
    if Known(files, name) then Blocked(v, dirs, start, Components(name), omode)
    else Blocked(v, dirs, start, Components(path), omode) || NoPlace(v, dirs, start, Components(name))
  }

  lemma SameStart(path: Bytes, cid: nat, cwd: nat)
    ensures Start(PrivateName(path, cid), cwd) == Start(path, cwd)
  {
    hide Decimal;
  }

  /**
    sys_open() in container cid, without O_CREATE.  The first open of a file
    gives an inode of its own with the bytes of the original, which stays as it
    was, exactly if the private name led nowhere or to another file that is not
    longer.  Whatever happened, the descriptor is on the inode of the private name.
    A name that is known to the container is not looked up under its own path at all.
    The answer is -1, and nothing has changed, exactly if the path that is looked up
    cannot be opened or there is no place for the private file.
   */
  method OpenFile(fs: Fs, files: seq<Bytes>, path: Bytes, cid: nat, omode: nat, cwd: nat, ghost dirs: Dirs)
    returns (r: Outcome<Option<Handle>>, files': seq<Bytes>, ghost dirs': Dirs)
    requires World(fs, dirs) && Text(path) && cwd < |fs.inodes| && cid < CID_LIMIT
    requires var ip := Walk(fs.vol, dirs, Start(path, cwd), Components(path));
             ip.Some? && ip.value < |fs.inodes| ==> fs.inodes[ip.value].typ != T_DEV
    modifies fs
    ensures r.Panic? ==> OutOfRoom(fs) && !Known(files, PrivateName(path, cid))
    ensures r.Panic? ==>
              var ip := Walk(old(fs.vol), dirs, Start(path, cwd), Components(path));
              ip.Some? && Costs(old(fs.vol), dirs, Start(path, cwd), Components(PrivateName(path, cid)), ip.value, !Bit(omode, 0))
    ensures r.Done? ==> World(fs, dirs') && |fs.inodes| == |old(fs.inodes)|
    ensures r.Done? ==> (r.value.None? <==> Refuses(old(fs.vol), dirs, files, path, cid, omode, cwd))
    ensures r == Done(None) ==> fs.vol == old(fs.vol) && files' == files && dirs' == dirs
    ensures r.Done? && r.value.Some? ==>
              && fresh(r.value.value) && r.value.value.off == 0 && r.value.value.ip < |fs.inodes|
              && r.value.value.readable == !Bit(omode, 0) && r.value.value.writable == (Bit(omode, 0) || Bit(omode, 1))
              && (!Known(files, PrivateName(path, cid)) ==> fs.inodes[r.value.value.ip].typ == T_FILE)
              && Walk(fs.vol, dirs', Start(path, cwd), Components(PrivateName(path, cid))) == Some(r.value.value.ip)
              && Walk(old(fs.vol), dirs, Start(path, cwd), Components(PrivateName(path, cid))) in {None, Some(r.value.value.ip)}
              && files' == if Known(files, PrivateName(path, cid)) then files else files + [PrivateName(path, cid)]
    ensures r.Done? && r.value.Some? && FirstOpen(old(fs.vol), dirs, files, path, cid, omode, cwd) ==>
              var ip := Walk(old(fs.vol), dirs, Start(path, cwd), Components(path)).value;
              Isolated(old(fs.vol), fs.vol, ip, r.value.value.ip)
              <==> Separate(old(fs.vol), dirs, Start(path, cwd), Components(PrivateName(path, cid)), ip)
    ensures Known(files, PrivateName(path, cid)) ==> r.Done? && fs.vol == old(fs.vol) && files' == files && dirs' == dirs
  {
    hide Consistent, Owned, Components, Walk, WorldOf, Isolated, Separate, Similar, PrivateName, NoPlace, Costs, Bit;
    SameStart(path, cid, cwd);
    PrivateText(path, cid);
    dirs', files' := dirs, files;
    var name := BuildName(path, cid);
    var hit := Registered(files, name);
    var f := OpenPath(fs, if hit then name else path, omode, cwd, dirs);
    if hit || f.None? {
      return Done(f), files, dirs;
    }
    var ip2;
    ip2, dirs' := MakeCopy(fs, f.value, name, cwd, dirs);
    if ip2.Panic? {
      return Panic(ip2.message), files, dirs';
    }
    if ip2.value.None? {
      return Done(None), files, dirs';
    }
    var h := OpenPath(fs, name, omode, cwd, dirs');
    if h.None? {
      return Done(None), files, dirs';
    }
    return Done(h), files + [name], dirs';
  }

  /** Whatever is written through the private descriptor, every other file keeps its bytes. */
  method LaterWrites(fs: Fs, h: Handle, writes: seq<Bytes>) returns (r: Outcome<()>)
    requires fs.Settled() && h.ip < |fs.inodes| && fs.inodes[h.ip].typ != T_DEV && h.off <= MAXBYTES
    requires forall k :: 0 <= k < |writes| ==> |writes[k]| < CID_LIMIT
    modifies fs, h`off
    ensures r.Panic? ==> fs.Full()
    ensures r.Done? ==> fs.Settled() && OthersSame(old(fs.vol), fs.vol, h.ip)
  {
    ghost var v := fs.vol;
    StartWrote(fs, h, []);
    hide Consistent, Owned, OthersSame, Content, Overlay;
    var k := 0;
    while k < |writes|
      invariant 0 <= k <= |writes| && fs.Settled() && h.ip < |fs.inodes| && fs.inodes[h.ip].typ != T_DEV && h.off <= MAXBYTES
      invariant OthersSame(v, fs.vol, h.ip)
    {
      ghost var u := fs.vol;
      var w := FileWrite(fs, h, writes[k]);
      if w.Panic? {
        return Panic(w.message);
      }
      if h.writable {
        OthersSameTrans(v, u, fs.vol, h.ip);
      }
      k := k + 1;
    }
    return Done(());
  }

  lemma StillSame(v: Volume, u: Volume, w: Volume, i: nat, j: nat)
    requires Isolated(v, u, i, j) && OthersSame(u, w, j)
    ensures SameFile(v, w, i)
  {
    hide ByteAt;
    assert SameFile(u, w, i);
  }

  /**
    Container isolation: a file opened for the first time, whose private name is
    free, keeps its bytes whatever is written through the descriptor; those writes
    go to another inode, which began with the same bytes.
   */
  method OpenAndWrite(fs: Fs, files: seq<Bytes>, path: Bytes, cid: nat, omode: nat, cwd: nat, writes: seq<Bytes>, ghost dirs: Dirs)
    returns (r: Outcome<Option<Handle>>, ghost mid: Volume)
    requires World(fs, dirs) && Text(path) && cwd < |fs.inodes| && cid < CID_LIMIT
    requires var ip := Walk(fs.vol, dirs, Start(path, cwd), Components(path));
             ip.Some? && ip.value < |fs.inodes| ==> fs.inodes[ip.value].typ != T_DEV
    requires forall k :: 0 <= k < |writes| ==> |writes[k]| < CID_LIMIT
    modifies fs
    ensures r.Panic? ==> OutOfRoom(fs)
    ensures r.Done? ==> (r.value.None? <==> Refuses(old(fs.vol), dirs, files, path, cid, omode, cwd))
    ensures r.Done? && r.value.Some? && FirstOpen(old(fs.vol), dirs, files, path, cid, omode, cwd) ==>
              var ip := Walk(old(fs.vol), dirs, Start(path, cwd), Components(path)).value;
              Separate(old(fs.vol), dirs, Start(path, cwd), Components(PrivateName(path, cid)), ip) ==>
                && Isolated(old(fs.vol), mid, ip, r.value.value.ip)
                && |fs.vol.inodes| == |old(fs.inodes)| && SameFile(old(fs.vol), fs.vol, ip)
  {
    hide Consistent, Owned, Components, Walk, WorldOf, Isolated, Separate, SameFile, OthersSame, Known, PrivateName, Refuses, Costs;
    ghost var v := fs.vol;
    var files';
    ghost var dirs';
    r, files', dirs' := OpenFile(fs, files, path, cid, omode, cwd, dirs);
    mid := fs.vol;
    if r.Panic? || r.value.None? {
      return;
    }
    var h := r.value.value;
    if fs.inodes[h.ip].typ != T_DEV {
      var done := LaterWrites(fs, h, writes);
      if done.Panic? {
        return Panic(done.message), mid;
      }
      ghost var ip := Walk(v, dirs, Start(path, cwd), Components(path));
      if ip.Some? && Isolated(v, mid, ip.value, h.ip) {
        StillSame(v, mid, fs.vol, ip.value, h.ip);
      }
    } else {
      ghost var ip := Walk(v, dirs, Start(path, cwd), Components(path));
      if ip.Some? && Isolated(v, mid, ip.value, h.ip) {
        IsolatedSame(v, mid, ip.value, h.ip);
      }
    }
  }

  /**
    A file opened for the first time with O_RDONLY or O_RDWR, whose private name is
    free, is read back as the original.
   */
  method OpenAndRead(fs: Fs, files: seq<Bytes>, path: Bytes, cid: nat, omode: nat, cwd: nat, n: nat, ghost dirs: Dirs)
    returns (r: Outcome<Option<Bytes>>)
    requires World(fs, dirs) && Text(path) && cwd < |fs.inodes| && cid < CID_LIMIT && n < CID_LIMIT
    requires omode == O_RDONLY || omode == O_RDWR
    requires FirstOpen(fs.vol, dirs, files, path, cid, omode, cwd)
    requires Separate(fs.vol, dirs, Start(path, cwd), Components(PrivateName(path, cid)),
                      Walk(fs.vol, dirs, Start(path, cwd), Components(path)).value)
    modifies fs
    ensures r.Panic? ==> OutOfRoom(fs)
    ensures r.Done? ==> (r.value.None? <==> Refuses(old(fs.vol), dirs, files, path, cid, omode, cwd))
    ensures r.Done? && r.value.Some? ==>
              var v, ip := old(fs.vol), Walk(old(fs.vol), dirs, Start(path, cwd), Components(path)).value;
              v.inodes[ip].size <= MAXBYTES && r.value.value == Content(v, ip)[..Min(n, v.inodes[ip].size)]
  {
    hide Consistent, Owned, Components, Walk, WorldOf, Isolated, Separate, Known, PrivateName, Refuses, Costs, Bit, FirstOpen;
    hide Content, OutOfRoom;
    Rights(omode);
    ghost var v := fs.vol;
    ghost var ip := Walk(v, dirs, Start(path, cwd), Components(path));
    FirstIsFile(v, dirs, files, path, cid, omode, cwd);
    var h, files';
    ghost var dirs';
    h, files', dirs' := OpenFile(fs, files, path, cid, omode, cwd, dirs);
    if h.Panic? {
      return Panic(h.message);
    }
    if h.value.None? {
      return Done(None);
    }
    IsolatedBytes(v, fs.vol, ip.value, h.value.value.ip);
    var s := FileRead(fs, h.value.value, n);
    return Done(s);
  }

  lemma FirstIsFile(v: Volume, dirs: Dirs, files: seq<Bytes>, path: Bytes, cid: nat, omode: nat, cwd: nat)
    requires FirstOpen(v, dirs, files, path, cid, omode, cwd)
    ensures var ip := Walk(v, dirs, Start(path, cwd), Components(path));
            ip.Some? && ip.value < |v.inodes| && v.inodes[ip.value].typ == T_FILE && !Known(files, PrivateName(path, cid))
  {
  }

  lemma IsolatedBytes(v: Volume, w: Volume, i: nat, j: nat)
    requires Isolated(v, w, i, j)
    ensures i < |v.inodes| && j < |w.inodes| && v.inodes[i].size <= MAXBYTES && w.inodes[j].size == v.inodes[i].size
    ensures Content(w, j) == Content(v, i)
  {
    hide ByteAt;
  }

  /**
    A file opened with O_WRONLY or O_RDWR takes the bytes that fit into a file: the
    write answers their number, and they are what the private file now begins with.
   */
  method OpenAndPut(fs: Fs, files: seq<Bytes>, path: Bytes, cid: nat, omode: nat, cwd: nat, s: Bytes, ghost dirs: Dirs)
    returns (r: Outcome<Option<int>>, ghost ip: nat)
    requires World(fs, dirs) && Text(path) && cwd < |fs.inodes| && cid < CID_LIMIT && |s| <= MAXBYTES
    requires omode == O_WRONLY || omode == O_RDWR
    requires !Known(files, PrivateName(path, cid))
    requires var ip := Walk(fs.vol, dirs, Start(path, cwd), Components(path));
             ip.Some? && ip.value < |fs.inodes| ==> fs.inodes[ip.value].typ != T_DEV
    modifies fs
    ensures r.Panic? ==> OutOfRoom(fs)
    ensures r.Done? ==> (r.value.None? <==> Refuses(old(fs.vol), dirs, files, path, cid, omode, cwd))
    ensures r.Done? && r.value.Some? ==> r.value.value == |s|
    ensures r.Done? && r.value.Some? ==>
              && ip < |fs.vol.inodes| && |s| <= fs.vol.inodes[ip].size <= MAXBYTES && Content(fs.vol, ip)[..|s|] == s
  {
    Rights(omode);
    hide Consistent, Owned, Components, Walk, WorldOf, Isolated, Separate, Known, PrivateName, Refuses, Costs, Bit, FirstOpen;
    var h, files';
    ghost var dirs';
    ip := 0;
    h, files', dirs' := OpenFile(fs, files, path, cid, omode, cwd, dirs);
    if h.Panic? {
      return Panic(h.message), ip;
    }
    if h.value.None? {
      return Done(None), ip;
    }
    ip := h.value.value.ip;
    ghost var u := fs.vol;
    hide Content, Overlay, OthersSame, OutOfRoom;
    var w := FileWrite(fs, h.value.value, s);
    if w.Panic? {
      FullIsNoRoom(fs);
      return Panic(w.message), ip;
    }
    assert s[..|s|] == s;
    LaidFront(u, fs.vol, ip, s);
    return Done(Some(w.value)), ip;
  }

  lemma FullIsNoRoom(fs: Fs)
    requires fs.Full()
    ensures OutOfRoom(fs)
  {
  }

  lemma LaidFront(v: Volume, w: Volume, i: nat, s: Bytes)
    requires Laid(v, w, i, 0, s)
    ensures i < |w.inodes| && |s| <= w.inodes[i].size <= MAXBYTES && Content(w, i)[..|s|] == s
  {
    hide ByteAt;
  }

  lemma IsolatedSame(v: Volume, w: Volume, i: nat, j: nat)
    requires Isolated(v, w, i, j)
    ensures |w.inodes| == |v.inodes| && i < |v.inodes| && SameFile(v, w, i)
  {
    hide SameFile;
  }
}
