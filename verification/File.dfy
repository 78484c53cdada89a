/** Open files on inodes, and the cutting of a write into log transactions (file.c). */
module File {
  import Log
  import opened FsBytes
  import opened FsContent
  import opened FsVolume
  import opened FsWrite
  import opened FileSystem
  import opened Results

  // The bytes filewrite() puts into one transaction: (MAXOPBLOCKS - 1 - 1 - 2) / 2 blocks.
  const CHUNK := 1536

  class Handle {
    const readable: bool
    const writable: bool
    const ip: nat       // the inode
    var off: nat

    constructor (readable: bool, writable: bool, ip: nat)
      ensures this.readable == readable && this.writable == writable && this.ip == ip && off == 0
    {
      this.readable, this.writable, this.ip, off := readable, writable, ip, 0;
    }
  }

  /** A chunk logs at most MAXOPBLOCKS blocks, wherever it starts. */
  lemma ChunkCost(off: nat, n: nat)
    requires n <= CHUNK
    ensures Cost(off, n) <= Log.MAXOPBLOCKS
  {
    var q, r := off / BSIZE, off % BSIZE;
    assert off == BSIZE * q + r;
    assert Blocks(off) == if r == 0 then q else q + 1;
    assert Blocks(off + n) <= if r == 0 then q + 3 else q + 4;
  }

  // How many of n bytes at off get written to a file of size bytes: all of them,
  // or the whole chunks that fit into the largest file.
  function Accepted(size: nat, off: nat, n: nat): (m: nat)
    ensures m <= n
  {
    if off > size || off > MAXBYTES then 0
    else if off + n <= MAXBYTES then n
    else (MAXBYTES - off) / CHUNK * CHUNK
  }

  lemma OthersSameTrans(v: Volume, u: Volume, w: Volume, i: nat)
    requires OthersSame(v, u, i) && OthersSame(u, w, i)
    ensures OthersSame(v, w, i)
  {
    hide Content;
    forall x: nat | x < |v.inodes| && x != i
      ensures SameFile(v, w, x)
    {
      assert SameFile(v, u, x) && SameFile(u, w, x);
    }
  }

  // The file of inode i is the one of v with s laid over it at off.
  ghost predicate Laid(v: Volume, w: Volume, i: nat, off: nat, s: Bytes) {
    && i < |v.inodes| == |w.inodes| && v.inodes[i].size <= MAXBYTES && w.inodes[i].size <= MAXBYTES && OthersSame(v, w, i)
    && w.inodes[i].typ == v.inodes[i].typ
    && if s == [] then w.inodes[i] == v.inodes[i] && Content(w, i) == Content(v, i)
       else off <= v.inodes[i].size && Content(w, i) == Overlay(Content(v, i), off, s)
  }

  lemma LaidNext(v: Volume, u: Volume, w: Volume, i: nat, off: nat, s: Bytes, t: Bytes)
    requires Laid(v, u, i, off, s) && |w.inodes| == |v.inodes| && OthersSame(u, w, i) && w.inodes[i].size <= MAXBYTES
    requires w.inodes[i].typ == u.inodes[i].typ && off <= v.inodes[i].size && off + |s| <= u.inodes[i].size
    requires Content(w, i) == Overlay(Content(u, i), off + |s|, t)
    requires t != []
    ensures Laid(v, w, i, off, s + t) && off + |s + t| <= w.inodes[i].size
  {
    hide Overlay, OthersSame;
    OthersSameTrans(v, u, w, i);
    var c := Content(v, i);
    if s == [] {
      assert s + t == t;
    } else {
      OverlayTwice(c, off, s, t);
    }
  }

  // i of n bytes at off have been accepted by a file of size bytes, in whole chunks.
  predicate Progress(size: nat, off: nat, n: nat, i: nat) {
    i <= n && (i % CHUNK == 0 || i == n) && (i > 0 ==> off <= size && off + i <= MAXBYTES)
  }

  lemma ProgressNext(size: nat, off: nat, n: nat, i: nat)
    requires Progress(size, off, n, i) && i < n && off <= size && off + i + Min(n - i, CHUNK) <= MAXBYTES
    ensures Progress(size, off, n, i + Min(n - i, CHUNK))
  {
  }

  lemma ProgressStuck(size: nat, off: nat, n: nat, i: nat)
    requires Progress(size, off, n, i) && i < n && size <= MAXBYTES
    requires off > size || off + i + Min(n - i, CHUNK) > MAXBYTES
    ensures Accepted(size, off, n) == i
  {
    if off <= size {
      ChunkQuotient(MAXBYTES - off, i / CHUNK);
    }
  }

  lemma ChunkQuotient(a: nat, q: nat)
    requires q * CHUNK <= a < q * CHUNK + CHUNK
    ensures a / CHUNK == q
  {
  }

  // filewrite() on v at off has written the first i of the bytes s.
  ghost predicate Wrote(fs: Fs, f: Handle, v: Volume, off: nat, s: Bytes, i: nat)
    reads fs, f
  {
    && fs.Settled() && f.ip < |v.inodes| && v.inodes[f.ip].typ != T_DEV && i <= |s| && f.off == off + i
    && Laid(v, fs.vol, f.ip, off, s[..i])
    && (i > 0 ==> off <= v.inodes[f.ip].size && off + i <= fs.inodes[f.ip].size)
  }

  // One transaction of filewrite().
  method WriteChunk(fs: Fs, f: Handle, s: Bytes, i: nat, n: nat, ghost v: Volume, ghost off: nat) returns (r: Outcome<bool>)
    requires Wrote(fs, f, v, off, s, i) && 0 < n <= CHUNK && i + n <= |s| && off + |s| < WORD_LIMIT
    modifies fs, f`off
    ensures r.Panic? ==> fs.Full()
    ensures r.Done? ==> Wrote(fs, f, v, off, s, if r.value then i + n else i) && (old(fs.within) ==> fs.within)
    ensures r.Done? && r.value ==> off <= v.inodes[f.ip].size && off + i + n <= MAXBYTES
    ensures r.Done? && !r.value ==> off > v.inodes[f.ip].size || off + i + n > MAXBYTES
  {
    hide Content, Overlay, OthersSame, Cost;
    ghost var u := fs.vol;
    fs.BeginOp();
    ChunkCost(f.off, n);
    var w := fs.WriteI(f.ip, s[i..i + n], f.off);
    if w.Panic? {
      return Panic(w.message);
    }
    if w.value.None? {
      return Done(false);
    }
    LaidNext(v, u, fs.vol, f.ip, off, s[..i], s[i..i + n]);
    assert s[..i] + s[i..i + n] == s[..i + n];
    f.off := f.off + n;
    return Done(true);
  }

  /**
    filewrite() on an inode: the accepted bytes are laid over the file at the
    offset, which moves behind them; no other file changes, and no chunk logs
    more blocks than an operation may.
   */
  method FileWrite(fs: Fs, f: Handle, s: Bytes) returns (r: Outcome<int>)
    requires fs.Settled() && f.ip < |fs.inodes| && fs.inodes[f.ip].typ != T_DEV && f.off + |s| < WORD_LIMIT
    modifies fs, f`off
    ensures r.Panic? ==> fs.Full()
    ensures !f.writable ==> r == Done(-1) && fs.vol == old(fs.vol) && f.off == old(f.off) && fs.Settled()
    ensures f.writable && r.Done? ==>
              var n := Accepted(old(fs.inodes[f.ip].size), old(f.off), |s|);
              && Wrote(fs, f, old(fs.vol), old(f.off), s, n)
              && r.value == if n == |s| then n else -1
    ensures r.Done? && old(fs.within) ==> fs.within && forall k :: 0 <= k < |fs.ops| ==> Log.Thrifty(fs.ops[k])
  {
    if !f.writable {
      return Done(-1);
    }
    assert CHUNK == (Log.MAXOPBLOCKS - 1 - 1 - 2) / 2 * BSIZE;
    StartWrote(fs, f, s);
    r := WriteChunks(fs, f, s, fs.vol, f.off);
  }

  // The loop of filewrite().
  method WriteChunks(fs: Fs, f: Handle, s: Bytes, ghost v: Volume, ghost off: nat) returns (r: Outcome<int>)
    requires f.ip < |v.inodes| && v.inodes[f.ip].size <= MAXBYTES && off + |s| < WORD_LIMIT && Wrote(fs, f, v, off, s, 0)
    modifies fs, f`off
    ensures r.Panic? ==> fs.Full()
    ensures r.Done? ==> var n := Accepted(v.inodes[f.ip].size, off, |s|);
                        Wrote(fs, f, v, off, s, n) && r.value == if n == |s| then n else -1
    ensures r.Done? && old(fs.within) ==> fs.within
  {
    hide Wrote, Progress, Accepted;
    ghost var size := v.inodes[f.ip].size;
    assert Progress(size, off, |s|, 0) by {
      StartProgress(size, off, |s|);
    }
    var i := 0;
    while i < |s|
      invariant i <= |s| && Wrote(fs, f, v, off, s, i) && Progress(size, off, |s|, i)
      invariant old(fs.within) ==> fs.within
    {
      var n := Min(|s| - i, CHUNK);
      var done := WriteChunk(fs, f, s, i, n, v, off);
      if done.Panic? {
        return Panic(done.message);
      }
      if !done.value {
        ProgressStuck(size, off, |s|, i);
        return Done(-1);
      }
      ProgressNext(size, off, |s|, i);
      i := i + n;
    }
    ProgressDone(size, off, |s|);
    return Done(|s|);
  }

  lemma StartProgress(size: nat, off: nat, n: nat)
    ensures Progress(size, off, n, 0)
  {
  }

  lemma ProgressDone(size: nat, off: nat, n: nat)
    requires Progress(size, off, n, n) && size <= MAXBYTES
    ensures Accepted(size, off, n) == n
  {
  }

  lemma StartWrote(fs: Fs, f: Handle, s: Bytes)
    requires fs.Settled() && f.ip < |fs.inodes| && fs.inodes[f.ip].typ != T_DEV
    ensures Wrote(fs, f, fs.vol, f.off, s, 0) && fs.inodes[f.ip].size <= MAXBYTES
  {
    hide Content;
    assert s[..0] == [] && Complete(fs.vol, f.ip);
    forall x: nat | x < |fs.vol.inodes|
      ensures SameFile(fs.vol, fs.vol, x)
    {
      assert Complete(fs.vol, x);
    }
  }

  /** fileread() on an inode: the bytes at the offset, which moves behind them. */
  method FileRead(fs: Fs, f: Handle, n: nat) returns (r: Option<Bytes>)
    requires fs.Settled() && f.ip < |fs.inodes| && fs.inodes[f.ip].typ != T_DEV && f.off < WORD_LIMIT && n < WORD_LIMIT
    modifies fs, f`off
    ensures fs.Settled() && fs.vol == old(fs.vol) && fs.inodes[f.ip].size <= MAXBYTES
    ensures r.None? <==> !f.readable || old(f.off) > fs.inodes[f.ip].size || old(f.off) + n >= WORD_LIMIT
    ensures r.Some? ==> r.value == Content(fs.vol, f.ip)[old(f.off)..Min(old(f.off) + n, fs.inodes[f.ip].size)]
    ensures f.off == old(f.off) + if r.Some? then |r.value| else 0
    ensures fs.logged == old(fs.logged) && (old(fs.within) && |fs.logged| < Log.MAXOPBLOCKS ==> fs.within)
  {
    hide Content, Consistent;
    if !f.readable {
      assert Complete(fs.vol, f.ip) by {
        SettledComplete(fs, f.ip);
      }
      return None;
    }
    r := fs.ReadI(f.ip, f.off, n);
    if r.Some? {
      f.off := f.off + |r.value|;
    }
  }

  lemma SettledComplete(fs: Fs, i: nat)
    requires fs.Settled() && i < |fs.inodes|
    ensures Complete(fs.vol, i)
  {
  }
}
