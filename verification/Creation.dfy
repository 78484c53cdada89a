/** Creating a file under a path (create in sysfile.c). */
module Creation {
  import opened Directory
  import opened FileSystem
  import opened FsBytes
  import opened FsContent
  import opened FsVolume
  import opened Namei
  import opened Names
  import opened Paths
  import opened Results

  lemma ListingSame(v: Volume, w: Volume, dirs: Dirs, x: nat)
    requires x < |v.inodes| == |w.inodes| && SameFile(v, w, x)
    ensures Listing(w, dirs, x) == Listing(v, dirs, x)
  {
    hide Content, Meaning;
  }

  lemma NodeSame(v: Volume, w: Volume, dirs: Dirs, x: nat)
    requires x < |v.inodes| == |w.inodes| && SameFile(v, w, x) && Node(v, dirs, x)
    ensures Node(w, dirs, x)
  {
    ListingSame(v, w, dirs, x);
    hide Content, Dir, Listing;
  }

  /** A change to a file that is no directory leaves all directories alone. */
  lemma TreeKept(v: Volume, w: Volume, dirs: Dirs, i: nat)
    requires TreeOf(v, dirs) && OthersSame(v, w, i) && i < |v.inodes| && w.inodes[i].typ != T_DIR
    ensures TreeOf(w, dirs)
  {
    hide Node, Content;
    forall x: nat | x < |w.inodes| && w.inodes[x].typ == T_DIR
      ensures Node(w, dirs, x)
    {
      assert SameFile(v, w, x);
      NodeSame(v, w, dirs, x);
    }
  }

  // Directory dp has gained the name k for inode ip.
  ghost predicate Linked(v: Volume, dirs: Dirs, w: Volume, dirs': Dirs, dp: nat, k: Bytes, ip: nat) {
    && dp < |v.inodes| == |w.inodes| && ip < |v.inodes| && v.inodes[dp].typ == T_DIR == w.inodes[dp].typ
    && dp in dirs' && dirs' == dirs[dp := dirs'[dp]] && OthersSame(v, w, dp)
    && k !in Listing(v, dirs, dp) && Listing(w, dirs', dp) == Listing(v, dirs, dp)[k := ip]
  }

  lemma LinkedOther(v: Volume, dirs: Dirs, w: Volume, dirs': Dirs, dp: nat, k: Bytes, ip: nat, x: nat)
    requires Linked(v, dirs, w, dirs', dp, k, ip) && x < |v.inodes| && x != dp
    ensures w.inodes[x] == v.inodes[x] && Listing(w, dirs', x) == Listing(v, dirs, x)
    ensures Node(v, dirs, x) ==> Node(w, dirs', x)
  {
    assert SameFile(v, w, x);
    ListingSame(v, w, dirs, x);
    assert Listing(w, dirs', x) == Listing(w, dirs, x);
    hide Content, Dir, Listing, OthersSame;
  }

  lemma LinkedTree(v: Volume, dirs: Dirs, w: Volume, dirs': Dirs, dp: nat, k: Bytes, ip: nat)
    requires Linked(v, dirs, w, dirs', dp, k, ip) && TreeOf(v, dirs)
    requires w.inodes[dp].size <= MAXBYTES && Dir(Content(w, dp), dirs'[dp])
    ensures TreeOf(w, dirs')
  {
    assert Node(v, dirs, dp);
    hide Content, Dir, Listing, OthersSame;
    assert Node(w, dirs', dp);
    forall x: nat | x < |w.inodes| && w.inodes[x].typ == T_DIR
      ensures Node(w, dirs', x)
    {
      if x != dp {
        LinkedOther(v, dirs, w, dirs', dp, k, ip, x);
      }
    }
  }

  // Whatever a path reaches in v it reaches in w.
  ghost predicate Wider(v: Volume, dirs: Dirs, w: Volume, dirs': Dirs) {
    |v.inodes| == |w.inodes| && forall x: nat :: x < |v.inodes| && v.inodes[x].typ == T_DIR ==> WiderAt(v, dirs, w, dirs', x)
  }

  ghost predicate WiderAt(v: Volume, dirs: Dirs, w: Volume, dirs': Dirs, x: nat)
    requires x < |v.inodes| == |w.inodes|
  {
    && w.inodes[x].typ == T_DIR
    && forall k :: k in Listing(v, dirs, x) ==> k in Listing(w, dirs', x) && Listing(w, dirs', x)[k] == Listing(v, dirs, x)[k]
  }

  lemma {:induction false} WiderWalk(v: Volume, dirs: Dirs, w: Volume, dirs': Dirs, ip: nat, path: seq<Bytes>)
    requires Wider(v, dirs, w, dirs') && Walk(v, dirs, ip, path).Some?
    ensures Walk(w, dirs', ip, path) == Walk(v, dirs, ip, path)
    decreases |path|
  {
    if path != [] {
      hide Listing, Cut;
      assert WiderAt(v, dirs, w, dirs', ip);
      WiderWalk(v, dirs, w, dirs', Listing(v, dirs, ip)[Cut(path[0])], path[1..]);
    }
  }

  lemma LinkedWider(v: Volume, dirs: Dirs, w: Volume, dirs': Dirs, dp: nat, k: Bytes, ip: nat)
    requires Linked(v, dirs, w, dirs', dp, k, ip)
    ensures Wider(v, dirs, w, dirs')
  {
    hide Listing, OthersSame;
    forall x: nat | x < |v.inodes| && v.inodes[x].typ == T_DIR
      ensures WiderAt(v, dirs, w, dirs', x)
    {
      if x != dp {
        LinkedOther(v, dirs, w, dirs', dp, k, ip, x);
      }
    }
  }

  /** A path ends where the directory of its last element says. */
  lemma {:induction false} WalkLast(v: Volume, dirs: Dirs, ip: nat, path: seq<Bytes>)
    requires path != [] && Parent(v, dirs, ip, path).Some?
    ensures var dp, k := Parent(v, dirs, ip, path).value, Cut(path[|path| - 1]);
            Walk(v, dirs, ip, path) == if k in Listing(v, dirs, dp) then Some(Listing(v, dirs, dp)[k]) else None
    decreases |path|
  {
    hide Listing, Cut;
    if |path| == 1 {
      assert path[..0] == [] && path[1..] == [];
    } else {
      assert path[..|path| - 1][0] == path[0];
      ParentFirst(v, dirs, ip, path);
      WalkFirst(v, dirs, ip, path);
      WalkLast(v, dirs, Listing(v, dirs, ip)[Cut(path[0])], path[1..]);
      assert path[1..][|path| - 2] == path[|path| - 1];
    }
  }

  /** A new name in the directory of the last element is what the path then leads to. */
  lemma LinkedWalk(v: Volume, dirs: Dirs, w: Volume, dirs': Dirs, ip: nat, path: seq<Bytes>, dp: nat, new_: nat)
    requires path != [] && Parent(v, dirs, ip, path) == Some(dp)
    requires Linked(v, dirs, w, dirs', dp, Cut(path[|path| - 1]), new_)
    ensures Walk(w, dirs', ip, path) == Some(new_)
  {
    LinkedWider(v, dirs, w, dirs', dp, Cut(path[|path| - 1]), new_);
    WiderWalk(v, dirs, w, dirs', ip, path[..|path| - 1]);
    hide Listing, Cut, Wider, OthersSame;
    assert Parent(w, dirs', ip, path) == Some(dp);
    WalkLast(w, dirs', ip, path);
  }

  // A free inode ip has become an empty file with the name k in directory dp.
  ghost predicate Created(v: Volume, dirs: Dirs, w: Volume, dirs': Dirs, dp: nat, k: Bytes, ip: nat) {
    && ip < |v.inodes| && ip != dp && v.inodes[ip].typ == 0 && v.inodes[ip].size == 0
    && Linked(Retyped(v, ip, T_FILE), dirs, w, dirs', dp, k, ip)
  }

  lemma RetypedListing(v: Volume, dirs: Dirs, ip: nat, x: nat)
    requires ip < |v.inodes| && OthersSame(v, Retyped(v, ip, T_FILE), ip) && x < |v.inodes| && x != ip
    ensures Listing(Retyped(v, ip, T_FILE), dirs, x) == Listing(v, dirs, x)
  {
    ListingSame(v, Retyped(v, ip, T_FILE), dirs, x);
  }

  lemma {:induction false} RetypedWalk(v: Volume, dirs: Dirs, ip: nat, start: nat, path: seq<Bytes>)
    requires ip < |v.inodes| && v.inodes[ip].typ == 0 && OthersSame(v, Retyped(v, ip, T_FILE), ip)
    ensures Walk(Retyped(v, ip, T_FILE), dirs, start, path) == Walk(v, dirs, start, path)
    decreases |path|
  {
    if path != [] && start < |v.inodes| && v.inodes[start].typ == T_DIR {
      RetypedListing(v, dirs, ip, start);
      hide Listing, Cut, OthersSame;
      if Cut(path[0]) in Listing(v, dirs, start) {
        RetypedWalk(v, dirs, ip, Listing(v, dirs, start)[Cut(path[0])], path[1..]);
      }
    }
  }

  /** What create() made is what its path leads to, and every other file but the directory is as before. */
  lemma CreatedWalk(v: Volume, dirs: Dirs, w: Volume, dirs': Dirs, start: nat, path: seq<Bytes>, dp: nat, ip: nat)
    requires path != [] && Parent(v, dirs, start, path) == Some(dp) && Created(v, dirs, w, dirs', dp, Cut(path[|path| - 1]), ip)
    requires OthersSame(v, Retyped(v, ip, T_FILE), ip)
    ensures Walk(w, dirs', start, path) == Some(ip)
  {
    var u := Retyped(v, ip, T_FILE);
    RetypedWalk(v, dirs, ip, start, path[..|path| - 1]);
    hide Listing, Cut, OthersSame, Walk;
    assert Parent(u, dirs, start, path) == Some(dp);
    LinkedWalk(u, dirs, w, dirs', start, path, dp, ip);
  }

  lemma CreatedOther(v: Volume, dirs: Dirs, w: Volume, dirs': Dirs, dp: nat, k: Bytes, ip: nat, x: nat)
    requires Created(v, dirs, w, dirs', dp, k, ip) && OthersSame(v, Retyped(v, ip, T_FILE), ip)
    requires x < |v.inodes| && x != dp && x != ip
    ensures SameFile(v, w, x)
  {
    hide Listing, Content;
    var u := Retyped(v, ip, T_FILE);
    assert SameFile(v, u, x) && SameFile(u, w, x);
  }

  lemma LinkedFrom(v: Volume, dirs: Dirs, w: Volume, dp: nat, at: map<Bytes, nat>, k: Bytes, ip: nat)
    requires TreeOf(v, dirs) && dp < |v.inodes| == |w.inodes| && ip < |v.inodes| && v.inodes[dp].typ == T_DIR == w.inodes[dp].typ
    requires OthersSame(v, w, dp) && k !in Listing(v, dirs, dp)
    requires dp in dirs && v.inodes[dp].size <= MAXBYTES && w.inodes[dp].size <= MAXBYTES
    requires Dir(Content(w, dp), at) && Meaning(Content(w, dp), at) == Meaning(Content(v, dp), dirs[dp])[k := ip]
    ensures Linked(v, dirs, w, dirs[dp := at], dp, k, ip) && TreeOf(w, dirs[dp := at])
  {
    hide Content, Dir, Meaning, OthersSame, TreeOf;
    LinkedTree(v, dirs, w, dirs[dp := at], dp, k, ip);
  }

  // No free block, no free inode or no room in a directory: create() panics.
  ghost predicate OutOfRoom(fs: Fs)
    reads fs
  {
    || fs.Full()
    || (forall x: nat :: 1 <= x < |fs.inodes| ==> fs.inodes[x].typ != 0)
    || exists x: nat :: x < |fs.inodes| && fs.inodes[x].typ == T_DIR && fs.inodes[x].size == MAXBYTES
  }

  // dirlink() of a new name, seen from the whole tree.
  method LinkName(fs: Fs, dp: nat, name: Bytes, ip: nat, ghost dirs: Dirs) returns (r: Outcome<()>, ghost dirs': Dirs)
    requires Tree(fs, dirs) && dp < |fs.inodes| && fs.inodes[dp].typ == T_DIR
    requires 0 < ip < |fs.inodes| <= INUM_LIMIT && Name(name) && Key(name) !in Listing(fs.vol, dirs, dp)
    modifies fs
    ensures r.Panic? ==> OutOfRoom(fs)
    ensures r.Done? ==> Tree(fs, dirs') && Linked(old(fs.vol), dirs, fs.vol, dirs', dp, Key(name), ip)
  {
    ghost var u := fs.vol;
    assert Node(u, dirs, dp);
    dirs' := dirs;
    hide Consistent, Owned, Content, Meaning, Dir, Key, Name, OthersSame, TreeOf, Node, Linked;
    var linked;
    ghost var at;
    linked, at := DirLink(fs, dp, name, ip, dirs[dp]);
    if linked.Panic? {
      return Panic(linked.message), dirs;
    }
    dirs' := dirs[dp := at];
    LinkedFrom(u, dirs, fs.vol, dp, at, Key(name), ip);
    return Done(()), dirs';
  }

  lemma StillFreeEmpty(v: Volume, w: Volume, i: nat)
    requires FreeEmpty(v) && OthersSame(v, w, i) && i < |v.inodes| && w.inodes[i].typ != 0
    ensures FreeEmpty(w)
  {
    hide Content;
    forall x: nat | x < |w.inodes| && w.inodes[x].typ == 0
      ensures w.inodes[x].size == 0
    {
      assert SameFile(v, w, x);
    }
  }

  // The part of create() for a name that is not there.
  method MakeFile(fs: Fs, dp: nat, name: Bytes, ghost dirs: Dirs) returns (r: Outcome<nat>, ghost dirs': Dirs)
    requires Tree(fs, dirs) && FreeEmpty(fs.vol) && dp < |fs.inodes| <= INUM_LIMIT && fs.inodes[dp].typ == T_DIR
    requires Name(name) && Key(name) !in Listing(fs.vol, dirs, dp)
    modifies fs
    ensures r.Panic? ==> OutOfRoom(fs)
    ensures r.Done? ==> Tree(fs, dirs') && FreeEmpty(fs.vol) && |fs.inodes| == |old(fs.inodes)|
    ensures r.Done? ==> Created(old(fs.vol), dirs, fs.vol, dirs', dp, Key(name), r.value)
    ensures r.Done? ==> OthersSame(old(fs.vol), Retyped(old(fs.vol), r.value, T_FILE), r.value)
  {
    ghost var v := fs.vol;
    dirs' := dirs;
    hide Consistent, Owned, Listing, Key, Name, TreeOf, OthersSame;
    r := fs.IAlloc(T_FILE);
    if r.Panic? {
      return;
    }
    var ip := r.value;
    ghost var u := fs.vol;
    TreeKept(v, u, dirs, ip);
    RetypedListing(v, dirs, ip, dp);
    var linked;
    linked, dirs' := LinkName(fs, dp, name, ip, dirs);
    if linked.Panic? {
      return Panic(linked.message), dirs;
    }
    StillFreeEmpty(u, fs.vol, dp);
  }

  // The image create() and open() work on.
  ghost predicate WorldOf(v: Volume, dirs: Dirs) {
    TreeOf(v, dirs) && FreeEmpty(v) && ROOTINO < |v.inodes| <= INUM_LIMIT
  }

  ghost predicate World(fs: Fs, dirs: Dirs)
    reads fs
  {
    fs.Settled() && WorldOf(fs.vol, dirs)
  }

  function Start(path: Bytes, cwd: nat): (ip: nat) {
    if path != [] && path[0] == SLASH then ROOTINO else cwd
  }

  // create() went from v to w: it fails without a parent directory or on a name
  // that is no file, gives a file that is there, and else makes one.
  ghost predicate CreateAnswers(v: Volume, dirs: Dirs, w: Volume, dirs': Dirs, start: nat, path: seq<Bytes>, r: Option<nat>) {
    var dp := Parent(v, dirs, start, path);
    if path == [] || dp.None? then r == None && w == v && dirs' == dirs
    else
      var k := Cut(path[|path| - 1]);
      if k in Listing(v, dirs, dp.value) then
        var ip := Listing(v, dirs, dp.value)[k];
        w == v && dirs' == dirs && r == if ip < |v.inodes| && v.inodes[ip].typ == T_FILE then Some(ip) else None
      else
        r.Some? && Created(v, dirs, w, dirs', dp.value, k, r.value) && OthersSame(v, Retyped(v, r.value, T_FILE), r.value)
  }

  /** create() of a file; it panics only where it has to make one. */
  method Create(fs: Fs, path: Bytes, cwd: nat, ghost dirs: Dirs) returns (r: Outcome<Option<nat>>, ghost dirs': Dirs)
    requires World(fs, dirs) && Text(path) && cwd < |fs.inodes|
    modifies fs
    ensures r.Panic? ==> OutOfRoom(fs) && Walk(old(fs.vol), dirs, Start(path, cwd), Components(path)) == None
    ensures r.Done? ==> World(fs, dirs') && |fs.inodes| == |old(fs.inodes)|
    ensures r.Done? ==> CreateAnswers(old(fs.vol), dirs, fs.vol, dirs', Start(path, cwd), Components(path), r.value)
  {
    ghost var v := fs.vol;
    hide Consistent, Owned, Listing, Key, Name, TreeOf, OthersSame, Components, Cut, Walk, Created;
    var dp, name := Namex(fs, path, true, cwd, dirs);
    dirs' := dirs;
    if dp.None? {
      return Done(None), dirs;
    }
    ParentIsDir(v, dirs, Start(path, cwd), Components(path));
    var found := Advance(fs, dp.value, name, dirs, v, fs.logged, fs.within);
    if found.Some? {
      return Done(if fs.inodes[found.value].typ == T_FILE then Some(found.value) else None), dirs;
    }
    var made;
    made, dirs' := MakeFile(fs, dp.value, name, dirs);
    if made.Panic? {
      WalkLast(v, dirs, Start(path, cwd), Components(path));
      return Panic(made.message), dirs;
    }
    return Done(Some(made.value)), dirs';
  }

  lemma ParentIsDir(v: Volume, dirs: Dirs, start: nat, path: seq<Bytes>)
    requires Parent(v, dirs, start, path).Some?
    ensures var dp := Parent(v, dirs, start, path).value; dp < |v.inodes| && v.inodes[dp].typ == T_DIR && path != []
  {
  }
}
