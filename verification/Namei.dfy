/** Walking a path through the directories (namex in fs.c). */
module Namei {
  import opened Directory
  import opened FileSystem
  import opened FsBytes
  import opened FsContent
  import opened FsVolume
  import opened Names
  import opened Paths
  import opened Results

  const ROOTINO := 1

  // Where every directory has its names.
  type Dirs = map<nat, map<Bytes, nat>>

  // Every directory of the image means a map to inodes of the image.
  ghost predicate TreeOf(v: Volume, dirs: Dirs) {
    forall x: nat :: x < |v.inodes| && v.inodes[x].typ == T_DIR ==> Node(v, dirs, x)
  }

  ghost predicate Node(v: Volume, dirs: Dirs, x: nat)
    requires x < |v.inodes|
  {
    && x in dirs && v.inodes[x].size <= MAXBYTES && Dir(Content(v, x), dirs[x])
    && forall k :: k in Listing(v, dirs, x) ==> Listing(v, dirs, x)[k] < |v.inodes|
  }

  ghost predicate Tree(fs: Fs, dirs: Dirs)
    reads fs
  {
    fs.Settled() && TreeOf(fs.vol, dirs)
  }

  ghost function Listing(v: Volume, dirs: Dirs, x: nat): (m: map<Bytes, nat>) {
    if x < |v.inodes| && x in dirs && v.inodes[x].size <= MAXBYTES then Meaning(Content(v, x), dirs[x]) else map[]
  }

  /** The inode reached from ip by a list of path elements. */
  ghost function Walk(v: Volume, dirs: Dirs, ip: nat, path: seq<Bytes>): (r: Option<nat>)
    decreases |path|
  {
    if path == [] then Some(ip)
    else if ip >= |v.inodes| || v.inodes[ip].typ != T_DIR || Cut(path[0]) !in Listing(v, dirs, ip) then None
    else Walk(v, dirs, Listing(v, dirs, ip)[Cut(path[0])], path[1..])
  }

  // The directory the last element of path is in.
  ghost function Parent(v: Volume, dirs: Dirs, ip: nat, path: seq<Bytes>): (r: Option<nat>) {
    if path == [] then None
    else
      var dp := Walk(v, dirs, ip, path[..|path| - 1]);
      if dp.Some? && dp.value < |v.inodes| && v.inodes[dp.value].typ == T_DIR then dp else None
  }

  // What namex() finds.
  ghost function Goal(v: Volume, dirs: Dirs, ip: nat, path: seq<Bytes>, parent: bool): (r: Option<nat>) {
    if parent then Parent(v, dirs, ip, path) else Walk(v, dirs, ip, path)
  }

  lemma WalkFirst(v: Volume, dirs: Dirs, ip: nat, path: seq<Bytes>)
    requires path != [] && ip < |v.inodes|
    ensures v.inodes[ip].typ != T_DIR || Cut(path[0]) !in Listing(v, dirs, ip) ==> Walk(v, dirs, ip, path) == None
    ensures v.inodes[ip].typ == T_DIR && Cut(path[0]) in Listing(v, dirs, ip) ==>
              Walk(v, dirs, ip, path) == Walk(v, dirs, Listing(v, dirs, ip)[Cut(path[0])], path[1..])
  {
    hide Listing, Cut;
  }

  lemma ParentFirst(v: Volume, dirs: Dirs, ip: nat, path: seq<Bytes>)
    requires |path| >= 2 && ip < |v.inodes|
    ensures v.inodes[ip].typ != T_DIR || Cut(path[0]) !in Listing(v, dirs, ip) ==> Parent(v, dirs, ip, path) == None
    ensures v.inodes[ip].typ == T_DIR && Cut(path[0]) in Listing(v, dirs, ip) ==>
              Parent(v, dirs, ip, path) == Parent(v, dirs, Listing(v, dirs, ip)[Cut(path[0])], path[1..])
  {
    hide Walk, Listing, Cut;
    WithoutLast(path);
    WalkFirst(v, dirs, ip, path[..|path| - 1]);
  }

  lemma WithoutLast(path: seq<Bytes>)
    requires |path| >= 2
    ensures path[..|path| - 1][0] == path[0] && path[..|path| - 1][1..] == path[1..][..|path| - 2]
  {
  }

  lemma GoalFirst(v: Volume, dirs: Dirs, ip: nat, path: seq<Bytes>, parent: bool)
    requires path != [] && ip < |v.inodes|
    ensures v.inodes[ip].typ != T_DIR ==> Goal(v, dirs, ip, path, parent) == None
    ensures v.inodes[ip].typ == T_DIR && !(parent && |path| == 1) && Cut(path[0]) !in Listing(v, dirs, ip) ==>
              Goal(v, dirs, ip, path, parent) == None
    ensures v.inodes[ip].typ == T_DIR && !(parent && |path| == 1) && Cut(path[0]) in Listing(v, dirs, ip) ==>
              Goal(v, dirs, ip, path, parent) == Goal(v, dirs, Listing(v, dirs, ip)[Cut(path[0])], path[1..], parent)
    ensures parent && |path| == 1 && v.inodes[ip].typ == T_DIR ==> Goal(v, dirs, ip, path, parent) == Some(ip)
  {
    WalkFirst(v, dirs, ip, path);
    if |path| >= 2 {
      ParentFirst(v, dirs, ip, path);
    } else {
      assert path[..|path| - 1] == [];
    }
  }

  lemma GoalEmpty(v: Volume, dirs: Dirs, ip: nat, parent: bool)
    ensures Goal(v, dirs, ip, [], parent) == if parent then None else Some(ip)
  {
  }

  // One element of the walk.
  method Advance(fs: Fs, ip: nat, name: Bytes, ghost dirs: Dirs, ghost v: Volume, ghost base: set<nat>, ghost ok: bool)
    returns (next: Option<nat>)
    requires Tree(fs, dirs) && fs.Unmoved(v, base, ok) && ip < |fs.inodes| && fs.inodes[ip].typ == T_DIR && Name(name)
    modifies fs
    ensures Tree(fs, dirs) && fs.Unmoved(v, base, ok)
    ensures next.Some? <==> Key(name) in Listing(v, dirs, ip)
    ensures next.Some? ==> next.value == Listing(v, dirs, ip)[Key(name)] && next.value < |v.inodes|
  {
    assert Node(v, dirs, ip);
    hide Key, Name, Consistent, Owned, Meaning, Content, Dir;
    var found := DirLookup(fs, ip, name, dirs[ip]);
    next := if found.Some? then Some(found.value.inum) else None;
  }

  // The loop of namex().
  method Follow(fs: Fs, path: Bytes, parent: bool, start: nat, ghost dirs: Dirs) returns (r: Option<nat>, name: Bytes)
    requires Tree(fs, dirs) && Text(path) && start < |fs.inodes|
    modifies fs
    ensures Tree(fs, dirs) && fs.Unmoved(old(fs.vol), old(fs.logged), old(fs.within))
    ensures r == Goal(old(fs.vol), dirs, start, Components(path), parent)
    ensures parent && r.Some? ==> Name(name) && Components(path) != [] && Key(name) == Cut(Components(path)[|Components(path)| - 1])
  {
    ghost var v, base, ok, all := fs.vol, fs.logged, fs.within, Components(path);
    hide Components, Key, Name, Cut, Consistent, Owned, Goal, Listing, Tree, Text;
    var ip: nat, p := start, path;
    var rest;
    rest, name := Skipelem(p);
    while rest.Some?
      invariant Tree(fs, dirs) && fs.Unmoved(v, base, ok) && Text(p) && ip < |v.inodes|
      invariant Goal(v, dirs, ip, Components(p), parent) == Goal(v, dirs, start, all, parent)
      invariant Components(p) != [] ==> all != [] && Components(p)[|Components(p)| - 1] == all[|all| - 1]
      invariant Skips(p, rest, name)
      decreases |p|
    {
      ghost var here := Components(p);
      GoalFirst(v, dirs, ip, here, parent);
      if fs.inodes[ip].typ != T_DIR {
        return None, name;
      }
      if parent && rest.value == [] {
        return Some(ip), name;
      }
      var next := Advance(fs, ip, name, dirs, v, base, ok);
      if next.None? {
        return None, name;
      }
      ip, p := next.value, rest.value;
      assert Components(p) == here[1..];
      rest, name := Skipelem(p);
    }
    GoalEmpty(v, dirs, ip, parent);
    r := if parent then None else Some(ip);
  }

  /**
    namex(): follows the path elements from the root or the current directory.
    For a parent it stops at the directory of the last element and gives its name.
   */
  method Namex(fs: Fs, path: Bytes, parent: bool, cwd: nat, ghost dirs: Dirs) returns (r: Option<nat>, name: Bytes)
    requires Tree(fs, dirs) && Text(path) && cwd < |fs.inodes| && ROOTINO < |fs.inodes|
    modifies fs
    ensures Tree(fs, dirs) && fs.Unmoved(old(fs.vol), old(fs.logged), old(fs.within))
    ensures var start := if path != [] && path[0] == SLASH then ROOTINO else cwd;
            r == if parent then Parent(fs.vol, dirs, start, Components(path)) else Walk(fs.vol, dirs, start, Components(path))
    ensures parent && r.Some? ==> Name(name) && Components(path) != [] && Key(name) == Cut(Components(path)[|Components(path)| - 1])
  {
    hide Components, Key, Name, Cut, Consistent, Owned, Listing, Tree, Walk, Parent;
    r, name := Follow(fs, path, parent, if path != [] && path[0] == SLASH then ROOTINO else cwd, dirs);
  }
}
