/**
  Directories: files of 16-byte entries that mean a finite map from names to
  inode numbers (dirlookup and dirlink in fs.c, the end of sys_unlink in sysfile.c).
 */
module Directory {
  import opened FileSystem
  import opened FsBytes
  import opened FsContent
  import opened FsVolume
  import opened FsWrite
  import opened Names
  import opened Results

  const DIRENT := 16 // an inode number of 2 bytes and a name of DIRSIZ
  const INUM_LIMIT := 0x1_0000

  function Inum(c: Bytes, j: nat): (n: nat)
    requires DIRENT * (j + 1) <= |c|
    ensures n < INUM_LIMIT
  {
    var low: nat, high: nat := c[DIRENT * j], c[DIRENT * j + 1];
    low + 0x100 * high
  }

  function Field(c: Bytes, j: nat): (name: Bytes)
    requires DIRENT * (j + 1) <= |c|
    ensures |name| == DIRSIZ
  {
    c[DIRENT * j + 2..DIRENT * (j + 1)]
  }

  function Entries(c: Bytes): (n: nat)
    ensures DIRENT * n <= |c|
  {
    |c| / DIRENT
  }

  // Entry j of c is in use under the name k.
  ghost predicate Live(c: Bytes, j: nat, k: Bytes) {
    j < Entries(c) && Inum(c, j) != 0 && Key(Field(c, j)) == k
  }

  // The entries of c in use are the ones at[k], one for each name k.
  ghost predicate Dir(c: Bytes, at: map<Bytes, nat>) {
    && |c| % DIRENT == 0
    && (forall j: nat, k: Bytes :: Live(c, j, k) ==> k in at && at[k] == j)
    && forall k :: k in at ==> Live(c, at[k], k)
  }

  /** The finite map a directory means. */
  ghost function Meaning(c: Bytes, at: map<Bytes, nat>): (m: map<Bytes, nat>)
  {
    map k | k in at && at[k] < Entries(c) :: Inum(c, at[k])
  }

  function Dirent(inum: nat, field: Bytes): (de: Bytes)
    requires |field| == DIRSIZ
    ensures |de| == DIRENT
  {
    [inum % 0x100, inum / 0x100 % 0x100] + field
  }

  lemma DirentSays(inum: nat, field: Bytes)
    requires |field| == DIRSIZ && inum < INUM_LIMIT
    ensures Inum(Dirent(inum, field), 0) == inum && Field(Dirent(inum, field), 0) == field
  {
  }

  // Entry j read as 16 bytes.
  lemma EntryRead(c: Bytes, j: nat)
    requires j < Entries(c)
    ensures DIRENT * j + DIRENT <= |c|
    ensures var de := c[DIRENT * j..DIRENT * j + DIRENT];
            Inum(de, 0) == Inum(c, j) && Field(de, 0) == Field(c, j)
  {
  }

  lemma WrittenSize(c: Bytes, j: nat, de: Bytes)
    requires |c| % DIRENT == 0 && j <= Entries(c) && |de| == DIRENT
    ensures DIRENT * j <= |c|
    ensures var d := Overlay(c, DIRENT * j, de);
            && |d| % DIRENT == 0 && Entries(d) == (if j == Entries(c) then j + 1 else Entries(c))
  {
    assert |c| == DIRENT * Entries(c);
  }

  // Entry j written as 16 bytes.
  lemma EntryWritten(c: Bytes, j: nat, de: Bytes)
    requires |c| % DIRENT == 0 && j <= Entries(c) && |de| == DIRENT
    ensures DIRENT * j <= |c|
    ensures var d := Overlay(c, DIRENT * j, de);
            j < Entries(d) && Inum(d, j) == Inum(de, 0) && Field(d, j) == Field(de, 0)
  {
    WrittenSize(c, j, de);
    var d := Overlay(c, DIRENT * j, de);
    hide Overlay, Entries;
    assert forall e :: 0 <= e < DIRENT ==> d[DIRENT * j + e] == de[e];
    assert Field(d, j) == Field(de, 0);
  }

  lemma EntryKept(c: Bytes, j: nat, de: Bytes, i: nat)
    requires |c| % DIRENT == 0 && j <= Entries(c) && |de| == DIRENT && i < Entries(c) && i != j
    ensures DIRENT * j <= |c|
    ensures var d := Overlay(c, DIRENT * j, de);
            i < Entries(d) && Inum(d, i) == Inum(c, i) && Field(d, i) == Field(c, i)
  {
    WrittenSize(c, j, de);
    var d := Overlay(c, DIRENT * j, de);
    hide Overlay, Entries;
    assert DIRENT * (i + 1) <= DIRENT * j || DIRENT * (j + 1) <= DIRENT * i;
    assert Field(d, i) == Field(c, i);
  }

  lemma LiveKept(c: Bytes, j: nat, de: Bytes, i: nat, k: Bytes)
    requires |c| % DIRENT == 0 && j <= Entries(c) && |de| == DIRENT && i != j
    ensures DIRENT * j <= |c| && Live(Overlay(c, DIRENT * j, de), i, k) == Live(c, i, k)
  {
    hide Key;
    WrittenSize(c, j, de);
    if i < Entries(c) {
      EntryKept(c, j, de, i);
    }
  }

  lemma LiveWritten(c: Bytes, j: nat, de: Bytes, k: Bytes)
    requires |c| % DIRENT == 0 && j <= Entries(c) && |de| == DIRENT
    ensures DIRENT * j <= |c|
    ensures Live(Overlay(c, DIRENT * j, de), j, k) == (Inum(de, 0) != 0 && Key(Field(de, 0)) == k)
  {
    hide Key;
    EntryWritten(c, j, de);
  }

  lemma DirGains(c: Bytes, d: Bytes, at: map<Bytes, nat>, j: nat, key: Bytes)
    requires Dir(c, at) && |d| % DIRENT == 0 && key !in at && forall k :: !Live(c, j, k)
    requires forall i: nat, k: Bytes :: Live(d, i, k) == if i == j then k == key else Live(c, i, k)
    ensures Dir(d, at[key := j])
  {
    hide Live;
  }

  lemma DirLoses(c: Bytes, d: Bytes, at: map<Bytes, nat>, key: Bytes)
    requires Dir(c, at) && |d| % DIRENT == 0 && key in at
    requires forall i: nat, k: Bytes :: Live(d, i, k) == (i != at[key] && Live(c, i, k))
    ensures Dir(d, at - {key})
  {
    hide Live;
    assert Live(c, at[key], key);
    forall k | k in at && k != key
      ensures at[k] != at[key]
    {
      OneName(c, at, k, key);
    }
  }

  lemma OneName(c: Bytes, at: map<Bytes, nat>, k: Bytes, key: Bytes)
    requires Dir(c, at) && k in at && key in at && k != key
    ensures at[k] != at[key]
  {
    hide Key, Inum;
    assert Live(c, at[k], k) && Live(c, at[key], key);
  }

  // Names that keep their entries keep their inode numbers.
  lemma NameKept(c: Bytes, at: map<Bytes, nat>, j: nat, de: Bytes, k: Bytes)
    requires Dir(c, at) && k in at && at[k] != j && j <= Entries(c) && |de| == DIRENT
    ensures DIRENT * j <= |c| && at[k] < Entries(c)
    ensures var d := Overlay(c, DIRENT * j, de); at[k] < Entries(d) && Inum(d, at[k]) == Inum(c, at[k])
  {
    hide Key, Inum;
    assert Live(c, at[k], k);
    EntryKept(c, j, de, at[k]);
  }

  ghost predicate SameNumbers(c: Bytes, d: Bytes, at: map<Bytes, nat>, key: Bytes) {
    forall k :: k in at && k != key ==> at[k] < Entries(d) && at[k] < Entries(c) && Inum(d, at[k]) == Inum(c, at[k])
  }

  lemma MeaningGains(c: Bytes, d: Bytes, at: map<Bytes, nat>, j: nat, key: Bytes)
    requires SameNumbers(c, d, at, key) && key !in at && j < Entries(d)
    ensures Meaning(d, at[key := j]) == Meaning(c, at)[key := Inum(d, j)]
  {
    hide Inum, Entries;
  }

  lemma MeaningLoses(c: Bytes, d: Bytes, at: map<Bytes, nat>, key: Bytes)
    requires SameNumbers(c, d, at, key)
    ensures Meaning(d, at - {key}) == Meaning(c, at) - {key}
  {
    hide Inum, Entries;
  }

  /** A new entry in an unused place adds one name to the map. */
  lemma LinkDir(c: Bytes, at: map<Bytes, nat>, j: nat, de: Bytes)
    requires Dir(c, at) && j <= Entries(c) && (j < Entries(c) ==> Inum(c, j) == 0)
    requires |de| == DIRENT && Inum(de, 0) != 0 && Key(Field(de, 0)) !in at
    ensures DIRENT * j <= |c|
    ensures var d, k := Overlay(c, DIRENT * j, de), Key(Field(de, 0));
            Dir(d, at[k := j]) && Meaning(d, at[k := j]) == Meaning(c, at)[k := Inum(de, 0)]
  {
    WrittenSize(c, j, de);
    var d, key := Overlay(c, DIRENT * j, de), Key(Field(de, 0));
    EntryWritten(c, j, de);
    assert forall k :: !Live(c, j, k);
    hide Key, Overlay, Entries, Inum, Live;
    forall i: nat, k: Bytes
      ensures Live(d, i, k) == if i == j then k == key else Live(c, i, k)
    {
      if i == j {
        LiveWritten(c, j, de, k);
      } else {
        LiveKept(c, j, de, i, k);
      }
    }
    DirGains(c, d, at, j, key);
    forall k | k in at && k != key
      ensures at[k] < Entries(d) && at[k] < Entries(c) && Inum(d, at[k]) == Inum(c, at[k])
    {
      assert Live(c, at[k], k);
      NameKept(c, at, j, de, k);
    }
    hide Dir, Meaning;
    MeaningGains(c, d, at, j, key);
  }

  /** Clearing the entry of a name takes it out of the map. */
  lemma UnlinkDir(c: Bytes, at: map<Bytes, nat>, key: Bytes, de: Bytes)
    requires Dir(c, at) && key in at && |de| == DIRENT && Inum(de, 0) == 0
    ensures at[key] < Entries(c) && DIRENT * at[key] <= |c|
    ensures var d := Overlay(c, DIRENT * at[key], de);
            Dir(d, at - {key}) && Meaning(d, at - {key}) == Meaning(c, at) - {key}
  {
    assert Live(c, at[key], key);
    var j := at[key];
    WrittenSize(c, j, de);
    var d := Overlay(c, DIRENT * j, de);
    hide Key, Overlay, Entries, Inum, Live, Dir;
    forall i: nat, k: Bytes
      ensures Live(d, i, k) == (i != j && Live(c, i, k))
    {
      if i == j {
        LiveWritten(c, j, de, k);
      } else {
        LiveKept(c, j, de, i, k);
      }
    }
    DirLoses(c, d, at, key);
    forall k | k in at && k != key
      ensures at[k] < Entries(d) && at[k] < Entries(c) && Inum(d, at[k]) == Inum(c, at[k])
    {
      OneName(c, at, k, key);
      NameKept(c, at, j, de, k);
    }
    hide Dir, Meaning;
    MeaningLoses(c, d, at, key);
  }

  datatype Found = Found(inum: nat, off: nat)

  // Inode dp is a directory, and its names are where at says.
  ghost predicate IsDir(fs: Fs, dp: nat, at: map<Bytes, nat>)
    reads fs
  {
    && fs.Settled() && dp < |fs.inodes| && fs.inodes[dp].typ == T_DIR
    && fs.inodes[dp].size <= MAXBYTES && Dir(Content(fs.vol, dp), at)
  }

  // Reads entry j of a directory.
  method ReadEntry(fs: Fs, dp: nat, j: nat, ghost at: map<Bytes, nat>) returns (de: Bytes)
    requires IsDir(fs, dp, at) && DIRENT * j < fs.inodes[dp].size
    modifies fs
    ensures IsDir(fs, dp, at) && fs.Unmoved(old(fs.vol), old(fs.logged), old(fs.within))
    ensures |de| == DIRENT && j < Entries(Content(fs.vol, dp))
    ensures Inum(de, 0) == Inum(Content(fs.vol, dp), j) && Field(de, 0) == Field(Content(fs.vol, dp), j)
  {
    ghost var c := Content(fs.vol, dp);
    assert |c| == DIRENT * Entries(c);
    EntryRead(c, j);
    hide Content, Inum, Entries, Key;
    var r := fs.ReadI(dp, DIRENT * j, DIRENT);
    de := r.value;
  }

  /** dirlookup(): the inode number and the place of a name, if the map has it. */
  method DirLookup(fs: Fs, dp: nat, name: Bytes, ghost at: map<Bytes, nat>) returns (r: Option<Found>)
    requires IsDir(fs, dp, at) && Name(name)
    modifies fs
    ensures IsDir(fs, dp, at) && fs.Unmoved(old(fs.vol), old(fs.logged), old(fs.within))
    ensures r.Some? <==> Key(name) in Meaning(Content(fs.vol, dp), at)
    ensures r.Some? ==> r.value.inum == Meaning(Content(fs.vol, dp), at)[Key(name)] && r.value.off == DIRENT * at[Key(name)]
  {
    ghost var c, k := Content(fs.vol, dp), Key(name);
    assert |c| == DIRENT * Entries(c);
    AtIsMeant(c, at, k);
    hide Content, Inum, Entries, Key, Dir, Name, Consistent, Owned;
    var j := 0;
    while DIRENT * j < fs.inodes[dp].size
      invariant j <= Entries(c) && IsDir(fs, dp, at) && fs.Unmoved(old(fs.vol), old(fs.logged), old(fs.within))
      invariant k in at ==> at[k] >= j
      decreases Entries(c) - j
    {
      var de := ReadEntry(fs, dp, j, at);
      if Inum(de, 0) != 0 {
        FieldIsName(Field(de, 0));
        var d := Namecmp(name, Field(de, 0));
        if d == 0 {
          LiveIsAt(c, at, j, k);
          return Some(Found(Inum(de, 0), DIRENT * j));
        }
      }
      j := j + 1;
    }
    return None;
  }

  lemma FieldIsName(f: Bytes)
    requires |f| == DIRSIZ
    ensures Name(f)
  {
  }

  lemma LiveIsAt(c: Bytes, at: map<Bytes, nat>, j: nat, k: Bytes)
    requires Dir(c, at) && Live(c, j, k)
    ensures k in at && at[k] == j
  {
  }

  // The first n entries are in use.
  ghost predicate AllUsed(c: Bytes, n: nat) {
    n <= Entries(c) && forall i: nat :: i < n ==> Inum(c, i) != 0
  }

  lemma AllUsedNext(c: Bytes, n: nat)
    requires AllUsed(c, n) && n < Entries(c) && Inum(c, n) != 0
    ensures AllUsed(c, n + 1)
  {
    hide Inum;
  }

  // The second loop of dirlink(): the first unused entry, or the end of the directory.
  method FindEmpty(fs: Fs, dp: nat, ghost at: map<Bytes, nat>) returns (j: nat)
    requires IsDir(fs, dp, at)
    modifies fs
    ensures IsDir(fs, dp, at) && fs.Unmoved(old(fs.vol), old(fs.logged), old(fs.within))
    ensures var c := Content(fs.vol, dp);
            AllUsed(c, j) && j <= Entries(c) && (if j < Entries(c) then Inum(c, j) == 0 else DIRENT * j == |c|)
  {
    ghost var c := Content(fs.vol, dp);
    assert |c| == DIRENT * Entries(c);
    assert AllUsed(c, 0);
    hide Content, Inum, Entries, Key, Dir, Consistent, Owned, AllUsed;
    j := 0;
    while DIRENT * j < fs.inodes[dp].size
      invariant j <= Entries(c) && AllUsed(c, j) && IsDir(fs, dp, at) && fs.Unmoved(old(fs.vol), old(fs.logged), old(fs.within))
      decreases Entries(c) - j
    {
      var de := ReadEntry(fs, dp, j, at);
      if Inum(de, 0) == 0 {
        break;
      }
      AllUsedNext(c, j);
      j := j + 1;
    }
  }

  // The file became the old one with entry j written.
  ghost predicate Put(fs: Fs, v: Volume, dp: nat, j: nat, de: Bytes)
    reads fs
  {
    && fs.Settled() && dp < |v.inodes| == |fs.inodes| && v.inodes[dp].size <= MAXBYTES && fs.inodes[dp].size <= MAXBYTES
    && fs.inodes[dp].typ == v.inodes[dp].typ && DIRENT * j <= v.inodes[dp].size
    && Content(fs.vol, dp) == Overlay(Content(v, dp), DIRENT * j, de) && OthersSame(v, fs.vol, dp)
  }

  method PutEntry(fs: Fs, dp: nat, j: nat, de: Bytes) returns (r: Outcome<()>)
    requires fs.Settled() && dp < |fs.inodes| && fs.inodes[dp].typ == T_DIR
    requires |de| == DIRENT && DIRENT * j <= fs.inodes[dp].size <= MAXBYTES
    modifies fs
    ensures r.Panic? ==> fs.Full() || (fs.Settled() && fs.vol == old(fs.vol) && DIRENT * (j + 1) > MAXBYTES)
    ensures r.Done? ==> Put(fs, old(fs.vol), dp, j, de)
  {
    hide Content, Overlay, OthersSame, Cost, Consistent, Owned;
    var w := fs.WriteI(dp, de, DIRENT * j);
    if w.Panic? {
      return Panic(w.message);
    }
    if w.value.None? {
      return Panic("dirlink");
    }
    return Done(());
  }

  /**
    dirlink(): false for a name the map has; else the map gains it, in the first
    unused entry, and no other file changes.  The directory grows, or has no room,
    only if all its entries are in use.
   */
  method DirLink(fs: Fs, dp: nat, name: Bytes, inum: nat, ghost at: map<Bytes, nat>)
    returns (r: Outcome<bool>, ghost at': map<Bytes, nat>)
    requires IsDir(fs, dp, at) && Name(name) && 0 < inum < INUM_LIMIT
    modifies fs
    ensures r.Panic? ==> fs.Full() || (fs.Settled() && fs.vol == old(fs.vol) && fs.inodes[dp].size == MAXBYTES
                                       && AllUsed(Content(fs.vol, dp), Entries(Content(fs.vol, dp))))
    ensures r.Done? ==> IsDir(fs, dp, at') && r.value == (Key(name) !in Meaning(Content(old(fs.vol), dp), at))
    ensures r == Done(false) ==> fs.vol == old(fs.vol) && at' == at
    ensures r == Done(true) ==>
              var c := Content(old(fs.vol), dp);
              Key(name) in at' && AllUsed(c, at'[Key(name)])
              && fs.inodes[dp].size == if at'[Key(name)] < Entries(c) then |c| else |c| + DIRENT
    ensures r == Done(true) ==> OthersSame(old(fs.vol), fs.vol, dp)
    ensures r == Done(true) ==>
              Meaning(Content(fs.vol, dp), at') == Meaning(Content(old(fs.vol), dp), at)[Key(name) := inum]
  {
    hide Content, Inum, Key, Dir, Overlay, OthersSame, Dirent, Meaning, Consistent, Owned, AllUsed;
    ghost var c := Content(fs.vol, dp);
    at' := at;
    var found := DirLookup(fs, dp, name, at);
    if found.Some? {
      return Done(false), at;
    }
    var j := FindEmpty(fs, dp, at);
    assert DIRENT * j < |c| || DIRENT * j == |c|;
    AtIsMeant(c, at, Key(name));
    var field := Strncpy(name);
    var de := Dirent(inum, field);
    DirentSays(inum, field);
    LinkDir(c, at, j, de);
    var w := PutEntry(fs, dp, j, de);
    if w.Panic? {
      return Panic(w.message), at;
    }
    return Done(true), at[Key(name) := j];
  }

  lemma AtIsMeant(c: Bytes, at: map<Bytes, nat>, k: Bytes)
    requires Dir(c, at)
    ensures k in at <==> k in Meaning(c, at)
  {
    hide Key, Inum;
    if k in at {
      assert Live(c, at[k], k);
    }
  }

  /** The end of sys_unlink(): the entry of a name is cleared, and the map loses it. */
  method ClearEntry(fs: Fs, dp: nat, name: Bytes, found: Found, ghost at: map<Bytes, nat>)
    returns (r: Outcome<()>, ghost at': map<Bytes, nat>)
    requires IsDir(fs, dp, at) && Key(name) in at && found.off == DIRENT * at[Key(name)]
    modifies fs
    ensures r.Panic? ==> fs.Full()
    ensures r.Done? ==> IsDir(fs, dp, at') && OthersSame(old(fs.vol), fs.vol, dp)
    ensures r.Done? ==>
              Meaning(Content(fs.vol, dp), at') == Meaning(Content(old(fs.vol), dp), at) - {Key(name)}
  {
    hide Content, Inum, Key, Dir, Overlay, OthersSame, Meaning, Consistent, Owned;
    ghost var c := Content(fs.vol, dp);
    at' := at - {Key(name)};
    var de: Bytes := seq(DIRENT, i => 0);
    NoInum(de);
    UnlinkDir(c, at, Key(name), de);
    assert found.off + DIRENT <= |c|;
    r := PutEntry(fs, dp, found.off / DIRENT, de);
  }

  lemma NoInum(de: Bytes)
    requires |de| == DIRENT && forall e :: 0 <= e < DIRENT ==> de[e] == 0
    ensures Inum(de, 0) == 0
  {
  }
}
