/** The byte-by-byte copy of a file into a container's own file (sys_open in sysfile.c). */
module FileCopy {
  import opened FsBytes
  import opened FsContent
  import opened FsVolume
  import opened FsWrite
  import opened File
  import opened FileSystem
  import opened Results

  // The private file can be told from the original, and the original can be read.
  predicate Apart(f: Handle, g: Handle) {
    f.ip != g.ip && f.readable
  }

  // No file but that of inode i has changed, nor has its type.
  ghost predicate OnlyData(v: Volume, w: Volume, i: nat) {
    i < |v.inodes| && OthersSame(v, w, i) && w.inodes[i].typ == v.inodes[i].typ && w.inodes[i].size <= MAXBYTES
  }

  // The first k bytes of the file of f have been laid over that of g.
  ghost predicate Copying(fs: Fs, f: Handle, g: Handle, v: Volume, k: nat)
    reads fs, f, g
  {
    && fs.Settled() && f.ip < |v.inodes| && g.ip < |v.inodes| == |fs.inodes| && f != g && g.writable
    && v.inodes[f.ip].typ != T_DEV && v.inodes[g.ip].typ != T_DEV
    && f.off == k && g.off == k && k <= fs.inodes[f.ip].size <= MAXBYTES && k <= fs.inodes[g.ip].size
    && OnlyData(v, fs.vol, g.ip)
    && (Apart(f, g) ==> v.inodes[f.ip].size <= MAXBYTES && k <= v.inodes[f.ip].size
                        && Laid(v, fs.vol, g.ip, 0, Content(v, f.ip)[..k]))
  }

  lemma CopyingTypes(fs: Fs, f: Handle, g: Handle, v: Volume, k: nat)
    requires Copying(fs, f, g, v, k)
    ensures fs.inodes[f.ip].typ != T_DEV && fs.inodes[g.ip].typ != T_DEV
    ensures f.ip != g.ip ==> SameFile(v, fs.vol, f.ip)
  {
    hide Content, Overlay, Laid;
    if f.ip != g.ip {
      assert SameFile(v, fs.vol, f.ip);
    }
  }

  lemma StartCopying(fs: Fs, f: Handle, g: Handle)
    requires fs.Settled() && f.ip < |fs.inodes| && g.ip < |fs.inodes| && f != g && g.writable
    requires fs.inodes[f.ip].typ != T_DEV && fs.inodes[g.ip].typ != T_DEV && f.off == 0 && g.off == 0
    ensures Copying(fs, f, g, fs.vol, 0)
  {
    StartWrote(fs, f, []);
    StartWrote(fs, g, []);
    hide Content, Overlay;
    assert Content(fs.vol, f.ip)[..0] == [];
  }

  lemma LaidOnly(v: Volume, u: Volume, w: Volume, i: nat, off: nat, s: Bytes)
    requires OnlyData(v, u, i) && Laid(u, w, i, off, s)
    ensures OnlyData(v, w, i)
  {
    hide Content, Overlay, OthersSame;
    OthersSameTrans(v, u, w, i);
  }

  lemma CopyNext(v: Volume, u: Volume, w: Volume, i: nat, j: nat, k: nat, b: Byte)
    requires i < |v.inodes| == |u.inodes| == |w.inodes| && j < |v.inodes|
    requires v.inodes[j].size <= MAXBYTES && k < v.inodes[j].size && b == Content(v, j)[k]
    requires Laid(v, u, i, 0, Content(v, j)[..k]) && k <= u.inodes[i].size && Laid(u, w, i, k, [b])
    ensures Laid(v, w, i, 0, Content(v, j)[..k + 1])
  {
    hide Content, Overlay, OthersSame;
    var c := Content(v, j);
    assert c[..k] + [b] == c[..k + 1];
    LaidNext(v, u, w, i, 0, c[..k], [b]);
  }

  method ReadByte(fs: Fs, f: Handle) returns (c: Option<Byte>)
    requires fs.Settled() && f.ip < |fs.inodes| && fs.inodes[f.ip].typ != T_DEV && f.off <= fs.inodes[f.ip].size <= MAXBYTES
    modifies fs, f`off
    ensures fs.Settled() && fs.vol == old(fs.vol)
    ensures c.Some? <==> f.readable && old(f.off) < fs.inodes[f.ip].size
    ensures c.Some? ==> c.value == Content(fs.vol, f.ip)[old(f.off)]
    ensures f.off == old(f.off) + if c.Some? then 1 else 0
  {
    hide Content, Consistent, Owned;
    var s := FileRead(fs, f, 1);
    c := if s.None? || s.value == [] then None else Some(s.value[0]);
  }

  method PutByte(fs: Fs, g: Handle, b: Byte) returns (r: Outcome<()>)
    requires fs.Settled() && g.ip < |fs.inodes| && g.writable && fs.inodes[g.ip].typ != T_DEV
    requires g.off <= fs.inodes[g.ip].size && g.off < MAXBYTES
    modifies fs, g`off
    ensures r.Panic? ==> fs.Full()
    ensures r.Done? ==> fs.Settled() && Laid(old(fs.vol), fs.vol, g.ip, old(g.off), [b]) && g.off == old(g.off) + 1
  {
    hide Content, Overlay, OthersSame, Laid, Consistent, Owned;
    var w := FileWrite(fs, g, [b]);
    assert [b][..1] == [b];
    r := if w.Panic? then Panic(w.message) else Done(());
  }

  lemma LaidSizes(u: Volume, w: Volume, i: nat, k: nat, b: Byte, x: nat)
    requires Laid(u, w, i, k, [b]) && x < |u.inodes| && k <= u.inodes[x].size <= MAXBYTES && (x != i ==> k < u.inodes[x].size)
    ensures k + 1 <= w.inodes[x].size <= MAXBYTES
  {
    if x != i {
      assert SameFile(u, w, x);
    }
  }

  // One turn of the loop: fileread() of a byte and filewrite() of it.
  method CopyByte(fs: Fs, f: Handle, g: Handle, ghost v: Volume, ghost k: nat) returns (r: Outcome<bool>)
    requires Copying(fs, f, g, v, k)
    modifies fs, f`off, g`off
    ensures r.Panic? ==> fs.Full()
    ensures r.Done? ==> Copying(fs, f, g, v, if r.value then k + 1 else k) && (r.value ==> k < MAXBYTES)
    ensures r.Done? && !r.value && Apart(f, g) ==> k == v.inodes[f.ip].size
    ensures if r == Done(false) then fs.vol == old(fs.vol) else f.readable && k < old(fs.inodes[f.ip].size)
  {
    ghost var u := fs.vol;
    CopyingTypes(fs, f, g, v, k);
    hide Content, Overlay, OthersSame, Laid, Consistent, Owned, OnlyData;
    var c := ReadByte(fs, f);
    if c.None? {
      return Done(false);
    }
    var w := PutByte(fs, g, c.value);
    if w.Panic? {
      return Panic(w.message);
    }
    LaidSizes(u, fs.vol, g.ip, k, c.value, f.ip);
    LaidSizes(u, fs.vol, g.ip, k, c.value, g.ip);
    LaidOnly(v, u, fs.vol, g.ip, k, [c.value]);
    if Apart(f, g) {
      CopyNext(v, u, fs.vol, g.ip, f.ip, k, c.value);
    }
    return Done(true);
  }

  /**
    The copy loop of sys_open(): the bytes of f are laid over the file of g, and
    no other file changes.  It panics only if there is a byte to copy.
   */
  method CopyFile(fs: Fs, f: Handle, g: Handle) returns (r: Outcome<()>)
    requires fs.Settled() && f.ip < |fs.inodes| && g.ip < |fs.inodes| && f != g && g.writable
    requires fs.inodes[f.ip].typ != T_DEV && fs.inodes[g.ip].typ != T_DEV && f.off == 0 && g.off == 0
    modifies fs, f`off, g`off
    ensures r.Panic? ==> fs.Full() && f.readable && old(fs.inodes[f.ip].size) > 0
    ensures r.Done? ==> fs.Settled() && OnlyData(old(fs.vol), fs.vol, g.ip)
    ensures r.Done? && Apart(f, g) ==>
              old(fs.inodes[f.ip].size) <= MAXBYTES && Laid(old(fs.vol), fs.vol, g.ip, 0, Content(old(fs.vol), f.ip))
  {
    StartCopying(fs, f, g);
    ghost var v := fs.vol;
    hide Copying, Content, Laid, Consistent, Owned, OnlyData;
    ghost var k := 0;
    var more := true;
    while more
      invariant k <= MAXBYTES && Copying(fs, f, g, v, k) && (!more && Apart(f, g) ==> k == v.inodes[f.ip].size)
      invariant if k == 0 then fs.vol == v && fs.vol.inodes == fs.inodes else f.readable && v.inodes[f.ip].size > 0
      decreases more, MAXBYTES - k
    {
      var w := CopyByte(fs, f, g, v, k);
      if w.Panic? {
        return Panic(w.message);
      }
      more := w.value;
      k := if more then k + 1 else k;
    }
    CopyingDone(fs, f, g, v, k);
    return Done(());
  }

  lemma CopyingDone(fs: Fs, f: Handle, g: Handle, v: Volume, k: nat)
    requires f.ip < |v.inodes| && Copying(fs, f, g, v, k) && (Apart(f, g) ==> k == v.inodes[f.ip].size)
    ensures fs.Settled() && OnlyData(v, fs.vol, g.ip)
    ensures Apart(f, g) ==> v.inodes[f.ip].size <= MAXBYTES && Laid(v, fs.vol, g.ip, 0, Content(v, f.ip))
  {
    if Apart(f, g) {
      assert Content(v, f.ip)[..k] == Content(v, f.ip);
    }
  }
}
