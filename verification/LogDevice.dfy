/**
  commit() and recover_from_log() of log.c as they run: loops that read and
  write blocks through the buffer cache.  Each is proved to issue exactly the
  block writes that module Log reasons about.
 */
module LogDevice {
  import opened Disk
  import opened Log
  import opened LogMachine

  type Cache = map<int, Block>

  /** What bread(b) hands out: the cached copy if there is one, else the disk's. */
  function Logical(disk: Image, cache: Cache, b: int): (data: Block)
    requires 0 <= b < |disk|
  {
    if b in cache then cache[b] else disk[b]
  }

  function Mem(disk: Image, cache: Cache): (mem: Image) {
    seq(|disk|, b requires 0 <= b < |disk| => Logical(disk, cache, b))
  }

  predicate OnDisk(disk: Image, blocks: seq<int>) {
    forall i :: 0 <= i < |blocks| ==> 0 <= blocks[i] < |disk|
  }

  /** The recorded blocks read as mem has them. */
  ghost predicate Pending(disk: Image, cache: Cache, blocks: seq<int>, mem: Image) {
    && OnDisk(disk, blocks) && |mem| == |disk|
    && forall i :: 0 <= i < |blocks| ==> Logical(disk, cache, blocks[i]) == mem[blocks[i]]
  }

  /** Only the listed blocks may differ between cache and disk. */
  ghost predicate Coherent(disk: Image, cache: Cache, blocks: seq<int>) {
    forall b :: b in cache && 0 <= b < |disk| && b !in blocks ==> cache[b] == disk[b]
  }

  /** Reading a block changes no logical content. */
  lemma AfterRead(disk: Image, cache: Cache, blocks: seq<int>, mem: Image, b: int)
    requires 0 <= b < |disk|
    ensures var c := cache[b := Logical(disk, cache, b)];
            && (Pending(disk, cache, blocks, mem) ==> Pending(disk, c, blocks, mem))
            && (Coherent(disk, cache, blocks) ==> Coherent(disk, c, blocks))
  {
  }

  /** Writing through to an unlisted block leaves the pending transaction alone. */
  lemma AfterWrite(disk: Image, cache: Cache, blocks: seq<int>, mem: Image, b: int, data: Block)
    requires 0 <= b < |disk| && b !in blocks
    ensures Pending(disk, cache, blocks, mem) ==> Pending(disk[b := data], cache[b := data], blocks, mem)
    ensures Coherent(disk, cache, blocks) ==> Coherent(disk[b := data], cache[b := data], blocks)
  {
  }

  /** Writing through to the first listed block settles it. */
  lemma AfterSettle(disk: Image, cache: Cache, blocks: seq<int>, data: Block)
    requires blocks != [] && 0 <= blocks[0] < |disk| && Coherent(disk, cache, blocks)
    ensures Coherent(disk[blocks[0] := data], cache[blocks[0] := data], blocks[1..])
  {
    assert blocks == [blocks[0]] + blocks[1..];
  }

  lemma MemUpdate(disk: Image, cache: Cache, b: nat, data: Block)
    requires b < |disk|
    ensures Mem(disk, cache[b := data]) == Mem(disk, cache)[b := data]
  {
  }

  lemma TraceNext(t: seq<Write>, ws: seq<Write>, k: nat)
    requires k < |ws|
    ensures t + ws[..k] + [ws[k]] == t + ws[..k + 1]
  {
  }

  // A log slot still holds its block when the blocks before it have been installed.
  lemma InstallSource(r: Region, d: Image, blocks: seq<int>, tail: nat)
    requires Fits(r, d) && Loggable(r, d, blocks) && tail < |blocks|
    ensures var slot, ws := r.start + tail + 1, InstallWrites(r, d, blocks);
            && 0 <= slot < |d| && slot !in blocks && OnDisk(d, blocks) && |ws| == |blocks| && InRange(d, ws[..tail])
            && ws[tail] == Write(blocks[tail], d[slot]) && Apply(d, ws[..tail])[slot] == d[slot]
  {
    var slot, ws := r.start + tail + 1, InstallWrites(r, d, blocks);
    assert r.Holds(slot) && slot !in blocks;
    ApplyFrame(d, ws[..tail], slot);
  }

  lemma CommitTrace(r: Region, d: Image, blocks: seq<int>, mem: Image, t: seq<Write>)
    requires Fits(r, d) && Loggable(r, d, blocks) && |mem| == |d| && blocks != []
    ensures HeadOk(r, Committed(r, d, blocks, mem))
    ensures t + (LogWrites(r, blocks, mem) + [HeadWrite(r, d, blocks)]) + RecoverWrites(r, Committed(r, d, blocks, mem))
            == t + CommitWrites(r, d, blocks, mem)
    ensures |Apply(d, CommitWrites(r, d, blocks, mem))| == |d|
  {
    CommitAll(r, d, blocks, mem);
    CommitFront(r, d, blocks, mem);
    hide LogWrites, HeadWrite, RecoverWrites, Committed;
  }

  lemma SettledMem(disk: Image, cache: Cache)
    requires Coherent(disk, cache, [])
    ensures Mem(disk, cache) == disk
  {
  }

  // The run of the machine that commits from s, and what it leaves.
  lemma CommitRun(r: Region, init: Image, s: State, p: nat, mem: Image)
    returns (states: seq<State>, steps: seq<Step>, t: State)
    requires DiskInv(r, init, s) && s.job.Commit? && s.job.done == 0 && p < |s.procs| && s.procs[p].Committer?
    requires HomeEq(r, s.mem, mem)
    ensures Chain(r, states, steps) && states[0] == s && |steps| == |s.job.writes| + 1 && states[|steps|] == t
    ensures (forall i :: 0 <= i < |s.job.writes| ==> steps[i] == CommitWrite) && steps[|s.job.writes|] == CommitDone(p)
    ensures |mem| == |s.disk| && s.job.writes == CommitWrites(r, s.disk, s.lh, mem)
    ensures t.disk == Apply(s.disk, s.job.writes) && HomeEq(r, t.mem, t.disk)
    ensures t.lh == [] && t.outstanding == s.outstanding && !t.committing
  {
    var n := |s.job.writes|;
    CommitStart(r, init, s, mem);
    assert 0 <= n - s.job.done;
    states, steps := Drain(r, init, s, n);
    CommitEnd(r, init, s, states[n], p);
    t := After(r, states[n], CommitDone(p));
    hide DiskInv, Enabled, After, HomeEq, Committing;
    ChainMore(r, states, steps, CommitDone(p));
    states, steps := states + [t], steps + [CommitDone(p)];
  }

  lemma CommitStart(r: Region, init: Image, s: State, mem: Image)
    requires DiskInv(r, init, s) && s.job.Commit? && s.job.done == 0 && HomeEq(r, s.mem, mem)
    ensures |mem| == |s.disk| && Fits(r, s.disk) && Loggable(r, s.disk, s.lh)
    ensures s.disk == s.job.base && s.job.writes == CommitWrites(r, s.disk, s.lh, mem)
  {
    assert CommitInv(r, init, s) && s.job.writes[..0] == [];
    hide Shows, Replay, Untouched, Cleared, CommitWrites;
    HomeEqTrans(r, s.job.from, s.mem, mem);
    SameCommit(r, s.disk, s.lh, s.job.from, mem);
  }

  lemma CommitEnd(r: Region, init: Image, s: State, u: State, p: nat)
    requires DiskInv(r, init, u) && Committing(s, u) && u.job.done == |u.job.writes|
    requires p < |s.procs| && s.procs[p].Committer?
    ensures Enabled(r, u, CommitDone(p))
    ensures var t := After(r, u, CommitDone(p));
            && |s.job.base| == |u.disk| && InRange(s.job.base, s.job.writes) && t.disk == Apply(s.job.base, s.job.writes)
            && HomeEq(r, t.mem, t.disk) && t.lh == [] && t.outstanding == s.outstanding && !t.committing
  {
    assert u.job.writes[..|u.job.writes|] == u.job.writes;
    KeepCommitDone(r, init, u, p);
    var t := After(r, u, CommitDone(p));
    assert Untouched(r, t.mem, t.disk, []);
    hide Shows, Replay, CommitWrites, CommitInv, Cleared, Apply;
  }

  class Device {
    const region: Region
    var disk: Image
    var cache: Cache             // buffers now held by the cache
    var lh: seq<int>             // log.lh: the blocks log_write has recorded
    var outstanding: int
    var committing: bool
    ghost var trace: seq<Write>  // every write the disk has received

    ghost predicate Valid()
      reads this
    {
      Fits(region, disk) && Loggable(region, disk, lh) && Coherent(disk, cache, lh)
    }

    method Bread(b: int) returns (data: Block)
      requires 0 <= b < |disk|
      modifies this`cache
      ensures data == Logical(disk, old(cache), b)
      ensures cache == old(cache)[b := data]
    {
      if b !in cache {
        cache := cache[b := disk[b]];
      }
      data := cache[b];
    }

    method Bwrite(b: int, data: Block)
      requires 0 <= b < |disk|
      modifies this`disk, this`cache, this`trace
      ensures disk == old(disk)[b := data] && cache == old(cache)[b := data]
      ensures trace == old(trace) + [Write(b, data)]
    {
      disk := disk[b := data];
      cache := cache[b := data];
      trace := trace + [Write(b, data)];
    }

    // One iteration of write_log: copy a cached block to its log slot.
    method LogBlock(tail: nat, slot: int, ghost mem: Image)
      requires tail < |lh| && Pending(disk, cache, lh, mem) && Coherent(disk, cache, lh)
      requires 0 <= slot < |disk| && slot !in lh
      modifies this`disk, this`cache, this`trace
      ensures disk == old(disk)[slot := mem[lh[tail]]]
      ensures trace == old(trace) + [Write(slot, mem[lh[tail]])]
      ensures Pending(disk, cache, lh, mem) && Coherent(disk, cache, lh)
    {
      AfterRead(disk, cache, lh, mem, lh[tail]);
      var from := Bread(lh[tail]);
      AfterWrite(disk, cache, lh, mem, slot, from);
      Bwrite(slot, from);
    }

    // write_log has saved the first tail blocks of the transaction that mem shows.
    ghost predicate Saving(d: Image, t: seq<Write>, ws: seq<Write>, mem: Image, tail: nat)
      reads this
    {
      && tail <= |ws| && InRange(d, ws) && Coherent(disk, cache, lh) && Pending(disk, cache, lh, mem)
      && disk == Apply(d, ws[..tail]) && trace == t + ws[..tail]
    }

    method SaveNext(tail: nat, ghost d: Image, ghost t: seq<Write>, ghost ws: seq<Write>, ghost mem: Image)
      requires tail < |lh| == |ws| && Fits(region, disk) && Loggable(region, disk, lh) && Saving(d, t, ws, mem, tail)
      requires |d| == |disk| && ws[tail] == Write(region.start + tail + 1, mem[lh[tail]])
      modifies this`disk, this`cache, this`trace
      ensures |disk| == |old(disk)| && Saving(d, t, ws, mem, tail + 1)
    {
      var slot := region.start + tail + 1;
      assert region.Holds(slot) && slot !in lh;
      hide Apply, Pending, Coherent, Fits, Loggable;
      TraceNext(t, ws, tail);
      LogBlock(tail, slot, mem);
      ApplyNext(d, ws, tail);
    }

    // Every recorded block, as the cache has it, is in its log slot; nothing else moved.
    method WriteLog()
      requires Valid()
      modifies this`disk, this`cache, this`trace
      ensures Valid()
      ensures var ws := LogWrites(region, lh, Mem(old(disk), old(cache)));
              disk == Apply(old(disk), ws) && trace == old(trace) + ws
    {
      ghost var mem := Mem(disk, cache);
      ghost var ws, d, t := LogWrites(region, lh, mem), disk, trace;
      assert Saving(d, t, ws, mem, 0);
      hide Saving, Apply;
      var tail := 0;
      while tail < |lh|
        invariant 0 <= tail <= |lh| && |disk| == |d| && Saving(d, t, ws, mem, tail)
      {
        SaveNext(tail, d, t, ws, mem);
        tail := tail + 1;
      }
      Saved(d, t, ws, mem);
    }

    lemma Saved(d: Image, t: seq<Write>, ws: seq<Write>, mem: Image)
      requires Saving(d, t, ws, mem, |ws|)
      ensures Coherent(disk, cache, lh) && disk == Apply(d, ws) && trace == t + ws
    {
      assert ws[..|ws|] == ws;
    }

    // The header block lists exactly these blocks, and the rest of it is as it was.
    method WriteHead(blocks: seq<int>)
      requires Valid() && |blocks| <= LOGSIZE
      modifies this`disk, this`cache, this`trace
      ensures Valid()
      ensures var w := HeadWrite(region, old(disk), blocks);
              && disk == old(disk)[w.blockno := w.data] && trace == old(trace) + [w]
              && cache == old(cache)[w.blockno := w.data]
    {
      assert region.start !in lh by { assert region.Holds(region.start); }
      var buf := Bread(region.start);
      var words := [|blocks|];
      for i := 0 to |blocks|
        invariant words == [|blocks|] + blocks[..i]
      {
        words := words + [blocks[i]];
      }
      assert blocks[..|blocks|] == blocks;
      Bwrite(region.start, Block(words + buf.words[|words|..]));
    }

    // One iteration of install_trans: copy a log slot to its home block.
    method InstallBlock(tail: nat, slot: int)
      requires tail < |lh| && OnDisk(disk, lh)
      requires 0 <= slot < |disk| && slot !in lh && Coherent(disk, cache, lh[tail..])
      modifies this`disk, this`cache, this`trace
      ensures disk == old(disk)[lh[tail] := old(disk)[slot]]
      ensures trace == old(trace) + [Write(lh[tail], old(disk)[slot])]
      ensures Coherent(disk, cache, lh[tail + 1..])
    {
      AfterRead(disk, cache, lh[tail..], disk, slot);
      var lbuf := Bread(slot);
      AfterSettle(disk, cache, lh[tail..], lbuf);
      Bwrite(lh[tail], lbuf);
    }

    // install_trans has settled the first tail blocks of the list.
    ghost predicate Installing(d: Image, t: seq<Write>, ws: seq<Write>, tail: nat)
      reads this
    {
      && tail <= |ws| == |lh| && InRange(d, ws) && Coherent(disk, cache, lh[tail..])
      && disk == Apply(d, ws[..tail]) && trace == t + ws[..tail]
    }

    method InstallNext(tail: nat, ghost d: Image, ghost t: seq<Write>, ghost ws: seq<Write>)
      requires Fits(region, d) && Loggable(region, d, lh) && tail < |lh| && |disk| == |d| && Installing(d, t, ws, tail)
      requires ws == InstallWrites(region, d, lh)
      modifies this`disk, this`cache, this`trace
      ensures |disk| == |old(disk)| && Installing(d, t, ws, tail + 1)
    {
      hide Apply, Coherent, Fits, Loggable, InstallWrites;
      InstallSource(region, d, lh, tail);
      TraceNext(t, ws, tail);
      InstallBlock(tail, region.start + tail + 1);
      ApplyNext(d, ws, tail);
    }

    // Every home block on the list reads what its log slot holds, and no buffer is ahead of the disk.
    method InstallTrans()
      requires Valid()
      modifies this`disk, this`cache, this`trace
      ensures Valid() && Coherent(disk, cache, [])
      ensures var ws := InstallWrites(region, old(disk), lh);
              disk == Apply(old(disk), ws) && trace == old(trace) + ws
    {
      ghost var ws, d, t := InstallWrites(region, disk, lh), disk, trace;
      assert lh[0..] == lh;
      assert Installing(d, t, ws, 0);
      hide Installing, Apply;
      var tail := 0;
      while tail < |lh|
        invariant 0 <= tail <= |lh| && |disk| == |d| && Installing(d, t, ws, tail)
      {
        InstallNext(tail, d, t, ws);
        tail := tail + 1;
      }
      Installed(d, t, ws);
    }

    lemma Installed(d: Image, t: seq<Write>, ws: seq<Write>)
      requires |lh| == |ws| && Installing(d, t, ws, |ws|)
      ensures Coherent(disk, cache, []) && disk == Apply(d, ws) && trace == t + ws
    {
      assert ws[..|ws|] == ws && lh[|ws|..] == [];
    }

    // The blocks listed by the header on disk.
    method ReadHead() returns (blocks: seq<int>)
      requires Valid() && HeadOk(region, disk)
      modifies this`cache
      ensures Valid() && blocks == Head(disk[region.start])
    {
      assert region.start !in lh by { assert region.Holds(region.start); }
      var buf := Bread(region.start);
      blocks := [];
      for i := 0 to buf.words[0]
        invariant blocks == Head(buf)[..i]
      {
        blocks := blocks + [buf.words[1 + i]];
      }
    }

    // The tail that commit() and recover_from_log() share.
    method InstallAndClear()
      requires Valid() && HeadOk(region, disk) && Head(disk[region.start]) == lh
      modifies this`disk, this`cache, this`trace, this`lh
      ensures Valid() && lh == []
      ensures disk == Recover(region, old(disk)) && trace == old(trace) + RecoverWrites(region, old(disk))
    {
      RecoverSplit(region, disk);
      InstallTrans();
      lh := [];
      WriteHead([]);
    }

    // The first half of commit(), up to and including the commit point.
    method LogAndHead()
      requires Valid()
      modifies this`disk, this`cache, this`trace
      ensures Valid() && disk == Committed(region, old(disk), lh, Mem(old(disk), old(cache)))
      ensures trace == old(trace)
                       + (LogWrites(region, lh, Mem(old(disk), old(cache))) + [HeadWrite(region, old(disk), lh)])
    {
      CommitFront(region, disk, lh, Mem(disk, cache));
      WriteLog();
      WriteHead(lh);
    }

    /** commit(): the disk receives exactly CommitWrites, and the log is empty again. */
    method Commit()
      requires Valid()
      modifies this`disk, this`cache, this`trace, this`lh
      ensures Valid() && lh == []
      ensures trace == old(trace) + CommitWrites(region, old(disk), old(lh), Mem(old(disk), old(cache)))
      ensures |disk| == |old(disk)| && disk == Apply(old(disk), CommitWrites(region, old(disk), old(lh), Mem(old(disk), old(cache))))
    {
      if |lh| > 0 {
        ghost var mem := Mem(disk, cache);
        CommitAll(region, disk, lh, mem);
        CommitTrace(region, disk, lh, mem, trace);
        hide *;
        LogAndHead();
        InstallAndClear();
      }
    }

    // The parts of the calls of a file-system operation, each of them atomic,
    // are steps of LogMachine.

    // The device is what state s of the machine says, as far as the log region
    // is concerned on disk only.
    ghost predicate Is(s: State)
      reads this
    {
      && s.disk == disk && HomeEq(region, s.mem, Mem(disk, cache)) && s.lh == lh
      && s.outstanding == outstanding && s.committing == committing
    }

    /** The loop body of begin_op: take a reservation, or report that the caller must sleep. */
    method TryBegin(ghost s: State, ghost p: nat) returns (admitted: bool)
      requires Is(s) && Enabled(region, s, Begin(p))
      modifies this`outstanding
      ensures Is(After(region, s, Begin(p)))
      ensures After(region, s, Begin(p)).procs[p] == if admitted then InOp(s.nextOp, {}, false) else Asleep
      ensures admitted <==> !committing && |lh| + (old(outstanding) + 1) * MAXOPBLOCKS <= LOGSIZE
    {
      if committing {
        admitted := false;
      } else if |lh| + (outstanding + 1) * MAXOPBLOCKS > LOGSIZE {
        admitted := false;
      } else {
        outstanding := outstanding + 1;
        admitted := true;
      }
    }

    /**
      log_write by process p before it takes log.lock: the two tests.  panicked
      tells that one of them failed, which is exactly when the machine has no such step.
     */
    method LogTest(ghost s: State, ghost p: nat) returns (panicked: bool)
      requires Is(s) && LayoutOk(region, s) && p < |s.procs| && s.procs[p].InOp? && !s.procs[p].passed
      ensures panicked <==> !Enabled(region, s, Test(p))
      ensures Is(if panicked then s else After(region, s, Test(p)))
    {
      panicked := |lh| >= LOGSIZE || |lh| >= region.size - 1 || outstanding < 1;
    }

    /**
      log_write from there on, by a process whose tests have passed: record the
      block once and pin the buffer, whose new contents are data.  Nothing tests
      again whether there is room.
     */
    method LogAppend(b: nat, data: Block, ghost s: State, ghost p: nat)
      requires Valid() && Is(s) && Enabled(region, s, Append(p, b, data))
      modifies this`lh, this`cache
      ensures Is(After(region, s, Append(p, b, data)))
      ensures Inside(region, After(region, s, Append(p, b, data))) ==> Valid()
    {
      Record(b);
      MemUpdate(disk, cache, b, data);
      cache := cache[b := data];
    }

    // The search of log_write, and the entry it makes or repeats.
    method Record(b: nat)
      modifies this`lh
      ensures lh == if b in old(lh) then old(lh) else old(lh) + [b]
    {
      var i := 0;
      while i < |lh| && lh[i] != b
        invariant 0 <= i <= |lh| && b !in lh[..i]
      {
        i := i + 1;
      }
      if i == |lh| {
        assert lh[..i] == lh;
        lh := lh + [b];
      } else {
        lh := lh[i := b];
        assert lh == old(lh);
      }
    }

    /**
      end_op up to the release of log.lock: doCommit tells that this caller must
      commit.  It panics exactly when a commit is under way.
     */
    method EndOp(ghost s: State, ghost p: nat) returns (panicked: bool, doCommit: bool)
      requires Is(s) && LayoutOk(region, s) && p < |s.procs| && s.procs[p].InOp? && !s.procs[p].passed
      modifies this`outstanding, this`committing
      ensures panicked <==> !Enabled(region, s, End(p))
      ensures !panicked ==> Is(After(region, s, End(p))) && (doCommit <==> After(region, s, End(p)).procs[p].Committer?)
    {
      outstanding := outstanding - 1;
      panicked, doCommit := committing, false;
      if !panicked && outstanding == 0 {
        doCommit := true;
        committing := true;
      }
    }

    /** The rest of end_op for the caller that must commit: the writes of the machine's commit, then its end. */
    method EndCommit(ghost init: Image, ghost s: State, ghost p: nat) returns (ghost states: seq<State>, ghost steps: seq<Step>)
      requires Valid() && Is(s) && DiskInv(region, init, s) && s.job.Commit? && s.job.done == 0
      requires p < |s.procs| && s.procs[p].Committer?
      modifies this`disk, this`cache, this`trace, this`lh, this`committing
      ensures Chain(region, states, steps) && states[0] == s && |steps| == |s.job.writes| + 1
      ensures (forall i :: 0 <= i < |s.job.writes| ==> steps[i] == CommitWrite) && steps[|s.job.writes|] == CommitDone(p)
      ensures Valid() && Is(states[|steps|]) && trace == old(trace) + s.job.writes
    {
      ghost var t;
      states, steps, t := CommitRun(region, init, s, p, Mem(disk, cache));
      hide DiskInv, Chain, After;
      Commit();
      committing := false;
      SettledMem(disk, cache);
    }

    /** recover_from_log(), run at boot with an empty cache. */
    method RecoverFromLog()
      requires Fits(region, disk) && HeadOk(region, disk) && cache == map[] && lh == []
      modifies this`disk, this`cache, this`trace, this`lh
      ensures Valid() && lh == []
      ensures disk == Recover(region, old(disk)) && trace == old(trace) + RecoverWrites(region, old(disk))
    {
      lh := ReadHead();
      InstallAndClear();
    }
  }
}
