/**
  The buffer cache of bio.c over the synchronous disk of memide.c: a doubly
  linked list of NBUF buffers, most recently released first, that pins dirty
  buffers and recycles the least recently released clean one.
 */
module BufferCache {
  import opened Disk
  import opened Results


  const NBUF: nat := 30
  const HEAD: nat := NBUF    // bcache.head, as an index next to the buffers
  const ROOTDEV: nat := 1

  datatype Buf = Buf(dev: nat, blockno: nat, valid: bool, dirty: bool, refcnt: nat, data: Block)

  // The list.

  /**
    ring is the cycle of next links from its first node on, and of prev links
    backwards; pos tells where in it a node is, -1 for a node not on the list.
   */
  ghost predicate Ring(next: seq<int>, prev: seq<int>, ring: seq<int>, pos: seq<int>) {
    && |next| == |prev| == |pos| == HEAD + 1 && |ring| > 0
    && (forall i :: 0 <= i < |ring| ==> 0 <= ring[i] <= HEAD && pos[ring[i]] == i)
    && (forall b :: 0 <= b <= HEAD && pos[b] != -1 ==> 0 <= pos[b] < |ring| && ring[pos[b]] == b)
    && (forall i :: 0 <= i < |ring| ==> next[ring[i]] == ring[Succ(i, |ring|)] && prev[ring[i]] == ring[Pred(i, |ring|)])
  }

  function Succ(i: nat, n: nat): nat {
    if i + 1 < n then i + 1 else 0
  }

  function Pred(i: nat, n: nat): nat {
    if i > 0 then i - 1 else if n > 0 then n - 1 else 0
  }

  /** Unlinking ring[k]. */
  function Without(ring: seq<int>, k: nat): (r: seq<int>)
    requires k < |ring|
  {
    seq(|ring| - 1, i requires 0 <= i < |ring| - 1 => if i < k then ring[i] else ring[i + 1])
  }

  function PosWithout(pos: seq<int>, k: nat): (p: seq<int>) {
    seq(|pos|, b requires 0 <= b < |pos| => if pos[b] == k then -1 else if pos[b] > k then pos[b] - 1 else pos[b])
  }

  lemma RemoveLink(next: seq<int>, prev: seq<int>, ring: seq<int>, pos: seq<int>, k: nat, i: nat)
    requires Ring(next, prev, ring, pos) && 1 <= k < |ring| && i < |ring| - 1
    ensures var b, r := ring[k], Without(ring, k);
            && next[prev[b] := next[b]][r[i]] == r[Succ(i, |r|)]
            && prev[next[b] := prev[b]][r[i]] == r[Pred(i, |r|)]
  {
    var b, j := ring[k], if i < k then i else i + 1;
    assert prev[b] == ring[Pred(k, |ring|)] && next[b] == ring[Succ(k, |ring|)];
    assert pos[ring[j]] == j && pos[prev[b]] == Pred(k, |ring|) && pos[next[b]] == Succ(k, |ring|);
    assert next[ring[j]] == ring[Succ(j, |ring|)] && prev[ring[j]] == ring[Pred(j, |ring|)];
  }

  lemma RingRemove(next: seq<int>, prev: seq<int>, ring: seq<int>, pos: seq<int>, k: nat)
    requires Ring(next, prev, ring, pos) && 1 <= k < |ring|
    ensures var b := ring[k];
            Ring(next[prev[b] := next[b]], prev[next[b] := prev[b]], Without(ring, k), PosWithout(pos, k))
  {
    var b, r := ring[k], Without(ring, k);
    forall i | 0 <= i < |r|
      ensures next[prev[b] := next[b]][r[i]] == r[Succ(i, |r|)] && prev[next[b] := prev[b]][r[i]] == r[Pred(i, |r|)]
    {
      RemoveLink(next, prev, ring, pos, k, i);
    }
  }

  /** Linking b in behind the first node. */
  function Behind(ring: seq<int>, b: int): (r: seq<int>)
    requires |ring| > 0
  {
    seq(|ring| + 1, i requires 0 <= i < |ring| + 1 => if i == 0 then ring[0] else if i == 1 then b else ring[i - 1])
  }

  function PosBehind(pos: seq<int>, b: int): (p: seq<int>) {
    seq(|pos|, c requires 0 <= c < |pos| => if c == b then 1 else if pos[c] > 0 then pos[c] + 1 else pos[c])
  }

  lemma RingInsert(next: seq<int>, prev: seq<int>, ring: seq<int>, pos: seq<int>, b: nat)
    requires Ring(next, prev, ring, pos) && b <= HEAD && pos[b] == -1
    ensures var h := ring[0];
            Ring(next[b := next[h]][h := b], prev[b := h][next[h] := b], Behind(ring, b), PosBehind(pos, b))
  {
    assert next[ring[0]] == ring[Succ(0, |ring|)];
  }

  // What the cache holds.

  predicate Holds(bufs: seq<Buf>, i: int, dev: nat, blockno: nat) {
    0 <= i < |bufs| && bufs[i].dev == dev && bufs[i].blockno == blockno
  }

  predicate Caches(bufs: seq<Buf>, i: int, b: nat) {
    Holds(bufs, i, ROOTDEV, b) && bufs[i].valid
  }

  /** The logical content of block b: the cached copy if there is one, else the disk's. */
  ghost function View(bufs: seq<Buf>, disk: Image, b: nat): (data: Block)
    requires b < |disk|
  {
    if exists i :: Caches(bufs, i, b) then
      var i :| Caches(bufs, i, b);
      bufs[i].data
    else disk[b]
  }

  /** At most one buffer holds a given block of a real device. */
  ghost predicate Unique(bufs: seq<Buf>) {
    forall i, j, dev, b :: Holds(bufs, i, dev, b) && Holds(bufs, j, dev, b) && dev != 0 ==> i == j
  }

  /** A clean valid buffer agrees with the disk; a dirty one has contents. */
  ghost predicate Faithful(buf: Buf, disk: Image) {
    && (buf.valid ==> buf.dev == ROOTDEV && buf.blockno < |disk|)
    && (buf.valid && !buf.dirty ==> buf.data == disk[buf.blockno])
    && (buf.dirty ==> buf.valid)
  }

  ghost predicate Coherent(bufs: seq<Buf>, disk: Image) {
    Unique(bufs) && forall i :: 0 <= i < |bufs| ==> Faithful(bufs[i], disk)
  }

  lemma ViewCached(bufs: seq<Buf>, disk: Image, i: nat, b: nat)
    requires Unique(bufs) && b < |disk| && Caches(bufs, i, b)
    ensures View(bufs, disk, b) == bufs[i].data
  {
  }

  /** A buffer that is free and clean. */
  predicate Idle(buf: Buf) {
    buf.refcnt == 0 && !buf.dirty
  }

  /** A buffer that has just been taken over for its block hides nothing. */
  lemma NotCached(bufs: seq<Buf>, disk: Image, i: nat)
    requires Unique(bufs) && i < |bufs| && !bufs[i].valid && bufs[i].dev == ROOTDEV && bufs[i].blockno < |disk|
    ensures View(bufs, disk, bufs[i].blockno) == disk[bufs[i].blockno]
  {
    assert Holds(bufs, i, ROOTDEV, bufs[i].blockno);
  }

  lemma RecycleCoherent(bufs: seq<Buf>, disk: Image, v: nat, dev: nat, blockno: nat)
    requires Coherent(bufs, disk) && v < |bufs|
    requires forall i :: !Holds(bufs, i, dev, blockno)
    ensures Coherent(bufs[v := Buf(dev, blockno, false, false, 1, bufs[v].data)], disk)
  {
    var bufs' := bufs[v := Buf(dev, blockno, false, false, 1, bufs[v].data)];
    forall i, j, d, c | Holds(bufs', i, d, c) && Holds(bufs', j, d, c) && d != 0
      ensures i == j
    {
      assert i != v ==> Holds(bufs, i, d, c);
      assert j != v ==> Holds(bufs, j, d, c);
    }
  }

  /** Recycling an idle buffer for a block nobody holds changes no logical content. */
  lemma RecycleView(bufs: seq<Buf>, disk: Image, v: nat, dev: nat, blockno: nat, b: nat)
    requires Coherent(bufs, disk) && v < |bufs| && Idle(bufs[v]) && b < |disk|
    requires forall i :: !Holds(bufs, i, dev, blockno)
    ensures View(bufs[v := Buf(dev, blockno, false, false, 1, bufs[v].data)], disk, b) == View(bufs, disk, b)
  {
    var bufs' := bufs[v := Buf(dev, blockno, false, false, 1, bufs[v].data)];
    RecycleCoherent(bufs, disk, v, dev, blockno);
    if i :| Caches(bufs', i, b) {
      ViewCached(bufs', disk, i, b);
      ViewCached(bufs, disk, i, b);
    } else if i :| Caches(bufs, i, b) {
      assert i == v by { assert i != v ==> Caches(bufs', i, b); }
      ViewCached(bufs, disk, i, b);
      assert Faithful(bufs[v], disk);
    }
  }

  lemma Recycled(bufs: seq<Buf>, disk: Image, v: nat, dev: nat, blockno: nat)
    requires Coherent(bufs, disk) && v < |bufs| && Idle(bufs[v])
    requires forall i :: !Holds(bufs, i, dev, blockno)
    ensures var bufs' := bufs[v := Buf(dev, blockno, false, false, 1, bufs[v].data)];
            Coherent(bufs', disk) && forall b :: 0 <= b < |disk| ==> View(bufs', disk, b) == View(bufs, disk, b)
  {
    RecycleCoherent(bufs, disk, v, dev, blockno);
    forall b | 0 <= b < |disk|
      ensures View(bufs[v := Buf(dev, blockno, false, false, 1, bufs[v].data)], disk, b) == View(bufs, disk, b)
    {
      RecycleView(bufs, disk, v, dev, blockno, b);
    }
  }

  /** buf may replace buffer i, together with the disk disk'. */
  ghost predicate Replaces(bufs: seq<Buf>, disk: Image, i: nat, buf: Buf, disk': Image) {
    && Coherent(bufs, disk) && i < |bufs| && buf.dev == bufs[i].dev && buf.blockno == bufs[i].blockno
    && (bufs[i].valid ==> buf.valid)
    && |disk'| == |disk| && Faithful(buf, disk')
    && forall c :: 0 <= c < |disk| && disk'[c] != disk[c] ==> c == buf.blockno && buf.valid
  }

  lemma UpdateCoherent(bufs: seq<Buf>, disk: Image, i: nat, buf: Buf, disk': Image)
    requires Replaces(bufs, disk, i, buf, disk')
    ensures Coherent(bufs[i := buf], disk')
  {
    var bufs' := bufs[i := buf];
    assert forall k, d, c :: Holds(bufs', k, d, c) <==> Holds(bufs, k, d, c);
    forall k | 0 <= k < |bufs'|
      ensures Faithful(bufs'[k], disk')
    {
      assert Holds(bufs, k, bufs[k].dev, bufs[k].blockno) && Holds(bufs, i, buf.dev, buf.blockno);
    }
  }

  lemma UpdateView(bufs: seq<Buf>, disk: Image, i: nat, buf: Buf, disk': Image, b: nat)
    requires Replaces(bufs, disk, i, buf, disk') && b < |disk|
    ensures var bufs' := bufs[i := buf];
            View(bufs', disk', b) == if Caches(bufs', i, b) then buf.data else View(bufs, disk, b)
  {
    var bufs' := bufs[i := buf];
    UpdateCoherent(bufs, disk, i, buf, disk');
    if Caches(bufs', i, b) {
      ViewCached(bufs', disk', i, b);
    } else if k :| Caches(bufs', k, b) {
      assert Caches(bufs, k, b);
      ViewCached(bufs', disk', k, b);
      ViewCached(bufs, disk, k, b);
    } else {
      assert forall k :: Caches(bufs, k, b) ==> Caches(bufs', k, b);
    }
  }

  /** From one cache and disk to the next, only the content of buf's block changes, to buf's data. */
  ghost predicate Becomes(bufs: seq<Buf>, disk: Image, bufs': seq<Buf>, disk': Image, buf: Buf) {
    && |disk'| == |disk|
    && forall b: nat :: b < |disk| ==>
         View(bufs', disk', b)
         == if b == buf.blockno && buf.dev == ROOTDEV && buf.valid then buf.data else View(bufs, disk, b)
  }

  /** Replacing a buffer changes the logical content of its own block at most. */
  lemma Updated(bufs: seq<Buf>, disk: Image, i: nat, buf: Buf, disk': Image)
    requires Replaces(bufs, disk, i, buf, disk')
    ensures Coherent(bufs[i := buf], disk') && Becomes(bufs, disk, bufs[i := buf], disk', buf)
  {
    UpdateCoherent(bufs, disk, i, buf, disk');
    var bufs' := bufs[i := buf];
    forall b: nat | b < |disk|
      ensures View(bufs', disk', b)
              == if b == buf.blockno && buf.dev == ROOTDEV && buf.valid then buf.data else View(bufs, disk, b)
    {
      UpdateView(bufs, disk, i, buf, disk', b);
    }
  }

  /** A replacement with the same contents changes no logical content at all. */
  lemma Touched(bufs: seq<Buf>, disk: Image, i: nat, buf: Buf)
    requires Replaces(bufs, disk, i, buf, disk) && buf.valid == bufs[i].valid && buf.data == bufs[i].data
    ensures Coherent(bufs[i := buf], disk)
    ensures forall b :: 0 <= b < |disk| ==> View(bufs[i := buf], disk, b) == View(bufs, disk, b)
  {
    Updated(bufs, disk, i, buf, disk);
    if buf.valid && buf.dev == ROOTDEV {
      ViewCached(bufs, disk, i, buf.blockno);
    }
  }

  /** The list holds every buffer, the one released last in front. */
  ghost predicate InOrder(next: seq<int>, prev: seq<int>, ring: seq<int>, pos: seq<int>) {
    && Ring(next, prev, ring, pos) && ring[0] == HEAD
    && forall b :: 0 <= b <= HEAD ==> pos[b] != -1
  }

  ghost predicate ByRelease(pos: seq<int>, stamp: seq<nat>, clock: nat) {
    && |pos| == HEAD + 1 && |stamp| == NBUF
    && (forall b :: 0 <= b < NBUF ==> stamp[b] < clock)
    && (forall b, c :: 0 <= b < NBUF && 0 <= c < NBUF && pos[b] < pos[c] ==> stamp[b] > stamp[c])
  }

  /** Unlinking b and linking it in behind the head. */
  lemma RingMove(next: seq<int>, prev: seq<int>, ring: seq<int>, pos: seq<int>, b: nat)
    requires InOrder(next, prev, ring, pos) && b < NBUF
    ensures 0 <= next[b] <= HEAD && 0 <= prev[b] <= HEAD && 1 <= pos[b] < |ring|
    ensures var n1, p1 := next[prev[b] := next[b]], prev[next[b] := prev[b]];
            && 0 <= n1[HEAD] <= HEAD
            && InOrder(n1[b := n1[HEAD]][HEAD := b], p1[b := HEAD][n1[HEAD] := b],
                       Behind(Without(ring, pos[b]), b), PosBehind(PosWithout(pos, pos[b]), b))
  {
    assert pos[ring[0]] == 0;
    RingRemove(next, prev, ring, pos, pos[b]);
    RingInsert(next[prev[b] := next[b]], prev[next[b] := prev[b]], Without(ring, pos[b]), PosWithout(pos, pos[b]), b);
  }

  lemma Placed(next: seq<int>, prev: seq<int>, ring: seq<int>, pos: seq<int>, b: nat)
    requires InOrder(next, prev, ring, pos) && b < NBUF
    ensures forall c :: 0 <= c < NBUF && c != b ==> pos[c] >= 1 && pos[c] != pos[b]
  {
    assert pos[ring[0]] == 0;
    assert ring[pos[b]] == b;
  }

  lemma Released(pos: seq<int>, stamp: seq<nat>, clock: nat, b: nat)
    requires ByRelease(pos, stamp, clock) && b < NBUF && pos[b] >= 1
    requires forall c :: 0 <= c < NBUF && c != b ==> pos[c] >= 1 && pos[c] != pos[b]
    ensures ByRelease(PosBehind(PosWithout(pos, pos[b]), b), stamp[b := clock], clock + 1)
  {
    var p, st := PosBehind(PosWithout(pos, pos[b]), b), stamp[b := clock];
    forall c | 0 <= c < NBUF && c != b
      ensures p[c] == if pos[c] > pos[b] then pos[c] else pos[c] + 1
    {
      assert PosWithout(pos, pos[b])[c] == if pos[c] > pos[b] then pos[c] - 1 else pos[c];
    }
    forall c, d | 0 <= c < NBUF && 0 <= d < NBUF && p[c] < p[d]
      ensures st[c] > st[d]
    {
      assert p[b] == 1;
    }
  }

  /** The loop of binit(): buffer after buffer is linked in behind the head. */
  method LinkAll() returns (next: seq<int>, prev: seq<int>, ghost ring: seq<int>, ghost pos: seq<int>)
    ensures InOrder(next, prev, ring, pos)
    ensures forall b :: 0 <= b < NBUF ==> pos[b] == NBUF - b
  {
    next, prev, ring := seq(HEAD + 1, i => HEAD), seq(HEAD + 1, i => HEAD), [HEAD];
    pos := seq(HEAD + 1, i => if i == HEAD then 0 else -1);
    var b := 0;
    while b < NBUF
      invariant 0 <= b <= NBUF
      invariant Ring(next, prev, ring, pos) && ring[0] == HEAD
      invariant forall c :: 0 <= c < NBUF ==> pos[c] == if c < b then b - c else -1
    {
      RingInsert(next, prev, ring, pos, b);
      assert 0 <= next[HEAD] <= HEAD by { assert next[ring[0]] == ring[Succ(0, |ring|)]; }
      prev, next := prev[b := HEAD][next[HEAD] := b], next[b := next[HEAD]][HEAD := b];
      ring, pos := Behind(ring, b), PosBehind(pos, b);
      b := b + 1;
    }
    assert pos[ring[0]] == 0;
  }

  class Cache {
    var bufs: seq<Buf>
    var next: seq<int>
    var prev: seq<int>
    var disk: Image
    ghost var ring: seq<int>    // HEAD, then the buffers, the one released last first
    ghost var pos: seq<int>     // where each of them is in ring
    ghost var stamp: seq<nat>   // when each buffer was last released
    ghost var clock: nat

    ghost predicate Listed()
      reads this
    {
      |bufs| == NBUF && InOrder(next, prev, ring, pos) && ByRelease(pos, stamp, clock)
    }

    ghost predicate Valid()
      reads this
    {
      Listed() && Coherent(bufs, disk)
    }

    /** binit(), with the buffers as the loader leaves them: all zero. */
    constructor (image: Image)
      ensures Valid() && disk == image
      ensures forall i :: 0 <= i < NBUF ==> bufs[i].refcnt == 0 && !bufs[i].valid
      ensures forall b :: 0 <= b < |disk| ==> View(bufs, disk, b) == image[b]
    {
      var zero := Block(seq(WORDS, i => 0));
      bufs := seq(NBUF, i => Buf(0, 0, false, false, 0, zero));
      disk := image;
      stamp := seq(NBUF, i => i);
      clock := NBUF;
      var nx, pv;
      ghost var r, p;
      nx, pv, r, p := LinkAll();
      next, prev, ring, pos := nx, pv, r, p;
    }

    // The first loop of bget(): along next, most recently released first.
    method FindBlock(dev: nat, blockno: nat) returns (r: Option<nat>)
      requires Listed()
      ensures r.Some? ==> r.value < NBUF && Holds(bufs, r.value, dev, blockno)
      ensures r.None? ==> forall i :: !Holds(bufs, i, dev, blockno)
    {
      var b := next[HEAD];
      ghost var k := 0;
      assert b == ring[Succ(k, |ring|)];
      while b != HEAD
        invariant 0 <= k < |ring| && b == ring[Succ(k, |ring|)]
        invariant forall i :: 1 <= i <= k ==> !Holds(bufs, ring[i], dev, blockno)
        decreases |ring| - k
      {
        k := k + 1;
        if bufs[b].dev == dev && bufs[b].blockno == blockno {
          return Some(b);
        }
        b := next[b];
      }
      forall i | 0 <= i < NBUF
        ensures !Holds(bufs, i, dev, blockno)
      {
        assert ring[pos[i]] == i;
      }
      return None;
    }

    // The second loop of bget(): along prev, least recently released first.
    method FindIdle() returns (r: Option<nat>)
      requires Listed()
      ensures r.Some? ==> r.value < NBUF && Idle(bufs[r.value])
      ensures r.Some? ==> forall i :: 0 <= i < NBUF && Idle(bufs[i]) ==> stamp[r.value] <= stamp[i]
      ensures r.None? ==> forall i :: 0 <= i < NBUF ==> !Idle(bufs[i])
    {
      var b := prev[HEAD];
      ghost var k := |ring| - 1;
      assert b == ring[k];
      while b != HEAD
        invariant 0 <= k < |ring| && b == ring[k]
        invariant forall i :: k < i < |ring| ==> !Idle(bufs[ring[i]])
        decreases k
      {
        if bufs[b].refcnt == 0 && !bufs[b].dirty {
          forall i | 0 <= i < NBUF && Idle(bufs[i])
            ensures stamp[b] <= stamp[i]
          {
            assert ring[pos[i]] == i && ring[pos[b]] == b;
          }
          return Some(b);
        }
        b := prev[b];
        k := k - 1;
      }
      forall i | 0 <= i < NBUF
        ensures !Idle(bufs[i])
      {
        assert ring[pos[i]] == i;
      }
      return None;
    }

    /**
      bget(): the buffer that holds the block if there is one, else the idle
      buffer released longest ago, taken over for it.  None is the panic.
     */
    method Bget(dev: nat, blockno: nat) returns (r: Option<nat>)
      requires Valid()
      modifies this`bufs
      ensures Valid()
      ensures r.None? ==> bufs == old(bufs) && forall i :: 0 <= i < NBUF ==> !Idle(bufs[i])
      ensures r.Some? ==> r.value < NBUF && Holds(bufs, r.value, dev, blockno)
      ensures r.Some? && Holds(old(bufs), r.value, dev, blockno) ==>
                bufs == old(bufs)[r.value := old(bufs)[r.value].(refcnt := old(bufs)[r.value].refcnt + 1)]
      ensures r.Some? && !Holds(old(bufs), r.value, dev, blockno) ==>
                && (forall i :: !Holds(old(bufs), i, dev, blockno)) && Idle(old(bufs)[r.value])
                && (forall i :: 0 <= i < NBUF && Idle(old(bufs)[i]) ==> stamp[r.value] <= stamp[i])
                && bufs == old(bufs)[r.value := Buf(dev, blockno, false, false, 1, old(bufs)[r.value].data)]
      ensures forall b :: 0 <= b < |disk| ==> View(bufs, disk, b) == View(old(bufs), disk, b)
    {
      r := FindBlock(dev, blockno);
      if r.Some? {
        var buf := bufs[r.value].(refcnt := bufs[r.value].refcnt + 1);
        assert Faithful(bufs[r.value], disk);
        Touched(bufs, disk, r.value, buf);
        bufs := bufs[r.value := buf];
        return;
      }
      r := FindIdle();
      if r.Some? {
        Recycled(bufs, disk, r.value, dev, blockno);
        bufs := bufs[r.value := Buf(dev, blockno, false, false, 1, bufs[r.value].data)];
      }
    }

    /**
      bread(): a buffer with the logical content of the block.  None is a panic:
      no buffer to recycle, or a block that iderw() has to refuse.
     */
    method Bread(dev: nat, blockno: nat) returns (r: Option<nat>)
      requires Valid()
      modifies this`bufs
      ensures Valid()
      ensures r.None? ==> dev != ROOTDEV || blockno >= |disk| || forall i :: 0 <= i < NBUF ==> !Idle(old(bufs)[i])
      ensures r.Some? ==> dev == ROOTDEV && blockno < |disk|
      ensures r.Some? ==> r.value < NBUF && Caches(bufs, r.value, blockno) && bufs[r.value].refcnt >= 1
      ensures r.Some? ==> bufs[r.value].data == View(old(bufs), disk, blockno)
      ensures forall b :: 0 <= b < |disk| ==> View(bufs, disk, b) == View(old(bufs), disk, b)
    {
      r := Bget(dev, blockno);
      if r.Some? {
        var i := r.value;
        if !bufs[i].valid {
          if dev != ROOTDEV || blockno >= |disk| {
            return None;
          }
          NotCached(bufs, disk, i);
          var buf := bufs[i].(valid := true, data := disk[blockno]);
          Updated(bufs, disk, i, buf, disk);
          bufs := bufs[i := buf];
        }
        ViewCached(bufs, disk, i, blockno);
      }
    }

    /** bwrite() of new contents: the disk has them now, and so does every later bread. */
    method Bwrite(i: nat, data: Block)
      requires Valid() && i < NBUF && bufs[i].valid
      modifies this`bufs, this`disk
      ensures Valid() && |disk| == |old(disk)|
      ensures bufs == old(bufs)[i := old(bufs)[i].(data := data, dirty := false)]
      ensures disk == old(disk)[bufs[i].blockno := data]
      ensures forall b :: 0 <= b < |disk| ==>
                View(bufs, disk, b) == if b == bufs[i].blockno then data else View(old(bufs), old(disk), b)
    {
      assert Faithful(bufs[i], disk);
      var buf := bufs[i].(data := data, dirty := false);
      var disk' := disk[buf.blockno := data];
      Updated(bufs, disk, i, buf, disk');
      bufs, disk := bufs[i := buf], disk';
    }

    /** New contents recorded by log_write(): pinned in the cache, not on disk yet. */
    method Pin(i: nat, data: Block)
      requires Valid() && i < NBUF && bufs[i].valid
      modifies this`bufs
      ensures Valid() && bufs == old(bufs)[i := old(bufs)[i].(data := data, dirty := true)]
      ensures forall b :: 0 <= b < |disk| ==>
                View(bufs, disk, b) == if b == bufs[i].blockno then data else View(old(bufs), disk, b)
    {
      assert Faithful(bufs[i], disk);
      var buf := bufs[i].(data := data, dirty := true);
      Updated(bufs, disk, i, buf, disk);
      bufs := bufs[i := buf];
    }

    // Unlink b and link it in again behind the head.
    method MoveToFront(b: nat)
      requires Listed() && b < NBUF
      modifies this`next, this`prev, this`ring, this`pos, this`stamp, this`clock
      ensures Listed() && stamp == old(stamp)[b := old(clock)]
      ensures pos[b] == 1
    {
      RingMove(next, prev, ring, pos, b);
      Placed(next, prev, ring, pos, b);
      Released(pos, stamp, clock, b);
      var n1, p1 := next[prev[b] := next[b]], prev[next[b] := prev[b]];
      next, prev := n1[b := n1[HEAD]][HEAD := b], p1[b := HEAD][n1[HEAD] := b];
      ring, pos := Behind(Without(ring, pos[b]), b), PosBehind(PosWithout(pos, pos[b]), b);
      stamp := stamp[b := clock];
      clock := clock + 1;
    }

    /** brelse(): at the last reference the buffer moves to the front of the list. */
    method Brelse(b: nat)
      requires Valid() && b < NBUF && bufs[b].refcnt >= 1
      modifies this`bufs, this`next, this`prev, this`ring, this`pos, this`stamp, this`clock
      ensures Valid() && bufs == old(bufs)[b := old(bufs)[b].(refcnt := old(bufs)[b].refcnt - 1)]
      ensures bufs[b].refcnt > 0 ==> pos == old(pos) && stamp == old(stamp)
      ensures bufs[b].refcnt == 0 ==> pos[b] == 1 && stamp == old(stamp)[b := old(clock)]
      ensures forall c :: 0 <= c < |disk| ==> View(bufs, disk, c) == View(old(bufs), disk, c)
    {
      var buf := bufs[b].(refcnt := bufs[b].refcnt - 1);
      assert Faithful(bufs[b], disk);
      Touched(bufs, disk, b, buf);
      bufs := bufs[b := buf];
      if buf.refcnt == 0 {
        MoveToFront(b);
      }
    }
  }
}
