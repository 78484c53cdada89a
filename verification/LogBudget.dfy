/**
  Log space.  begin_op reserves MAXOPBLOCKS blocks per operation; log_write
  panics when it finds the log full.  For operations that call log_write only
  while they have an unspent block, that panic is unreachable exactly when the
  log region has at least LOGSIZE + 1 blocks (mkfs.c makes it LOGSIZE).  On a
  smaller region the panic does not even protect the disk: log_write tests
  before it takes log.lock, so two processes can pass the test for one slot.
  The weaker promise "at most MAXOPBLOCKS different blocks" is not enough for
  any region, because the test for a full log precedes the search for a block
  that is already there.
 */
module LogBudget {
  import opened Disk
  import opened Log
  import opened LogMachine
  import opened LogRuns
  import Mkfs

  /** p can call log_write with part of its reservation unspent. */
  predicate Spare(s: State, p: nat) {
    p < |s.procs| && s.procs[p].InOp? && |s.procs[p].wrote| < MAXOPBLOCKS
  }

  /** p calls log_write on b without exceeding MAXOPBLOCKS different blocks. */
  predicate Within(r: Region, s: State, p: nat, b: nat) {
    && p < |s.procs| && s.procs[p].InOp? && Home(r, s.disk, b)
    && |s.procs[p].wrote + {b}| <= MAXOPBLOCKS
  }

  /** A run all of whose log_writes are called with a block to spare. */
  predicate Frugal(r: Region, states: seq<State>, steps: seq<Step>) {
    && Run(r, states, steps)
    && forall i :: 0 <= i < |steps| && steps[i].Test? ==> Spare(states[i], steps[i].p)
  }

  /** Blocks in the log plus blocks still reserved never exceed LOGSIZE. */
  ghost predicate Reserved(s: State) {
    && |s.lh| + Sum(s.procs, Unspent) <= LOGSIZE
    && forall p :: 0 <= p < |s.procs| && s.procs[p].InOp? ==>
         |s.procs[p].wrote| <= MAXOPBLOCKS && (s.procs[p].passed ==> |s.procs[p].wrote| < MAXOPBLOCKS)
  }

  lemma KeepReservedBegin(r: Region, s: State, p: nat)
    requires Enabled(r, s, Begin(p)) && OpsInv(s) && Reserved(s)
    ensures Reserved(After(r, s, Begin(p)))
  {
    var t := After(r, s, Begin(p));
    SumRunning(s.procs);
    SumUpdate(s.procs, Unspent, p, t.procs[p]);
  }

  lemma KeepReservedLogWrite(r: Region, s: State, step: Step)
    requires Enabled(r, s, step) && OpsInv(s) && Reserved(s) && (step.Test? || step.Append?)
    requires step.Test? ==> Spare(s, step.p)
    ensures Reserved(After(r, s, step))
  {
    var t, p := After(r, s, step), step.p;
    SumUpdate(s.procs, Unspent, p, t.procs[p]);
    if step.Append? {
      assert step.b in s.procs[p].wrote ==> step.b in s.lh;
    }
  }

  lemma KeepReservedWake(r: Region, s: State, p: nat, q: Proc)
    requires Reserved(s) && p < |s.procs| && !q.InOp? && Unspent(s.procs[p]) >= 0
    ensures Reserved(s.(procs := s.procs[p := q])) && Reserved(s.(procs := WakeAll(s.procs[p := q])))
  {
    SumUpdate(s.procs, Unspent, p, q);
    SumSame(s.procs[p := q], WakeAll(s.procs[p := q]), Unspent);
  }

  lemma KeepReserved(r: Region, s: State, step: Step)
    requires Enabled(r, s, step) && OpsInv(s) && Reserved(s)
    requires step.Test? ==> Spare(s, step.p)
    ensures Reserved(After(r, s, step))
  {
    match step
    case Begin(p) => KeepReservedBegin(r, s, p);
    case Test(p) => KeepReservedLogWrite(r, s, step);
    case Append(p, b, data) => KeepReservedLogWrite(r, s, step);
    case End(p) =>
      KeepReservedWake(r, s, p, Outside);
      KeepReservedWake(r, s, p, Committer);
    case CommitWrite =>
    case CommitDone(p) => KeepReservedWake(r, s, p, Outside);
    case Crash => SumOutside(After(r, s, step).procs);
    case RecoverWrite =>
    case RecoverDone =>
  }

  lemma {:induction false} RunReserved(r: Region, states: seq<State>, steps: seq<Step>, i: nat)
    requires Frugal(r, states, steps) && i < |states|
    ensures Reserved(states[i])
  {
    if i == 0 {
      SumOutside(states[0].procs);
    } else {
      RunReserved(r, states, steps, i - 1);
      RunOps(r, states, steps, i - 1);
      KeepReserved(r, states[i - 1], steps[i - 1]);
    }
  }

  lemma {:induction false} UnspentOne(procs: seq<Proc>, p: nat)
    requires p < |procs|
    requires forall q :: 0 <= q < |procs| && procs[q].InOp? ==> |procs[q].wrote| <= MAXOPBLOCKS
    ensures 0 <= Unspent(procs[p]) <= Sum(procs, Unspent)
  {
    var n := |procs| - 1;
    if p < n {
      UnspentOne(procs[..n], p);
    } else if n > 0 {
      UnspentOne(procs[..n], 0);
    }
  }

  lemma RoomToSpare(r: Region, states: seq<State>, steps: seq<Step>, i: nat, p: nat)
    requires Frugal(r, states, steps) && i < |states| && Spare(states[i], p)
    ensures |states[i].lh| < LOGSIZE
  {
    RunReserved(r, states, steps, i);
    UnspentOne(states[i].procs, p);
  }

  lemma {:induction false} UnspentSum(procs: seq<Proc>)
    requires forall q :: 0 <= q < |procs| && procs[q].InOp? ==> |procs[q].wrote| <= MAXOPBLOCKS
    ensures Sum(procs, Unspent) >= 0
  {
    if procs != [] {
      UnspentOne(procs, 0);
    }
  }

  /** In a frugal run block[] is never overrun, whatever the region. */
  lemma ListFits(r: Region, states: seq<State>, steps: seq<Step>, i: nat)
    requires Frugal(r, states, steps) && i < |states|
    ensures |states[i].lh| <= LOGSIZE
  {
    RunReserved(r, states, steps, i);
    UnspentSum(states[i].procs);
  }

  // Runs that fill the log.

  function Zero(): (b: Block)
    ensures b.words[0] == 0
  {
    Block(seq(WORDS, i => 0))
  }

  function One(): (b: Block)
    ensures b.words[0] == 1
  {
    Block(seq(WORDS, i => 1))
  }

  /** The blocks these runs log: the k-th one, with a block between them and the log region. */
  function Far(r: Region, k: nat): (b: nat) {
    r.start + r.size + 1 + k
  }

  function Blank(r: Region): (disk: Image)
    ensures |disk| == r.start + r.size + 1 + LOGSIZE && forall b :: 0 <= b < |disk| ==> disk[b] == Zero()
  {
    seq(r.start + r.size + 1 + LOGSIZE, b => Zero())
  }

  /** How many of the first k blocks process j has logged when three take turns. */
  function Share(k: nat, j: nat): (n: nat)
    requires j < 3
  {
    (k + 2 - j) / 3
  }

  /** Three operations are running and have logged k blocks in turn; those in ready are in log_write, behind its tests. */
  ghost predicate Filled(r: Region, s: State, k: nat, ready: set<nat>) {
    && k <= LOGSIZE && r.size >= 1 && s.disk == Blank(r) && |s.mem| == |s.disk|
    && s.job.Idle? && !s.committing && s.outstanding == 3 && |s.procs| == 3 && s.durable == 0
    && |s.lh| == k && (forall i :: 0 <= i < k ==> s.lh[i] == Far(r, i) && s.mem[Far(r, i)] == One())
    && (forall i :: 0 <= i < |s.events| ==> s.events[i].blockno > r.start + r.size)
    && forall j: nat :: j < 3 ==> Turn(r, s.procs[j], k, j, j in ready)
  }

  ghost predicate Turn(r: Region, q: Proc, k: nat, j: nat, ready: bool)
    requires j < 3
  {
    && q.InOp? && q.passed == ready && |q.wrote| == Share(k, j)
    && forall b :: b in q.wrote ==> b < Far(r, k)
  }

  lemma FilledLayout(r: Region, s: State, k: nat, ready: set<nat>)
    requires Filled(r, s, k, ready)
    ensures LayoutOk(r, s) && (Inside(r, s) <==> k <= r.size - 1)
  {
    assert Head(s.disk[r.start]) == [];
  }

  lemma Extend(r: Region, states: seq<State>, steps: seq<Step>, step: Step) returns (states': seq<State>, steps': seq<Step>)
    requires Frugal(r, states, steps) && Enabled(r, states[|states| - 1], step)
    requires step.Test? ==> Spare(states[|states| - 1], step.p)
    ensures Frugal(r, states', steps') && |states'| == |states| + 1 && states'[0] == states[0]
    ensures states'[|states|] == After(r, states[|states| - 1], step)
  {
    states', steps' := states + [After(r, states[|states| - 1], step)], steps + [step];
    hide After, Enabled, Spare, Init;
    forall i | 0 <= i < |steps'|
      ensures Enabled(r, states'[i], steps'[i]) && states'[i + 1] == After(r, states'[i], steps'[i])
      ensures steps'[i].Test? ==> Spare(states'[i], steps'[i].p)
    {
      assert states'[i] == states[i];
      if i < |steps| {
        assert steps'[i] == steps[i] && states'[i + 1] == states[i + 1];
      }
    }
  }

  lemma ThreeBegin(r: Region) returns (states: seq<State>, steps: seq<Step>)
    requires r.size >= 1
    ensures Frugal(r, states, steps) && states[0].disk == Blank(r) && Filled(r, states[|states| - 1], 0, {})
  {
    var disk := Blank(r);
    var s0 := State(disk, disk, [], 0, false, Idle, [Outside, Outside, Outside], 0, [], 0);
    var s1 := After(r, s0, Begin(0));
    var s2 := After(r, s1, Begin(1));
    var s3 := After(r, s2, Begin(2));
    states, steps := [s0, s1, s2, s3], [Begin(0), Begin(1), Begin(2)];
  }

  lemma FillTest(r: Region, s: State, k: nat, ready: set<nat>, p: nat)
    requires Filled(r, s, k, ready) && p < 3 && p !in ready && k < LOGSIZE && k < r.size - 1 && Share(k, p) < MAXOPBLOCKS
    ensures Enabled(r, s, Test(p)) && Spare(s, p) && Filled(r, After(r, s, Test(p)), k, ready + {p})
  {
    FilledLayout(r, s, k, ready);
    assert Turn(r, s.procs[p], k, p, false);
  }

  lemma NextTurn(r: Region, q: Proc, k: nat, j: nat, ready: bool)
    requires j < 3 && Turn(r, q, k, j, ready) && k % 3 != j
    ensures Turn(r, q, k + 1, j, ready)
  {
  }

  lemma FillAppend(r: Region, s: State, k: nat, ready: set<nat>, p: nat)
    requires Filled(r, s, k, ready) && k < LOGSIZE && p == k % 3 && p in ready
    ensures Enabled(r, s, Append(p, Far(r, k), One())) && Filled(r, After(r, s, Append(p, Far(r, k), One())), k + 1, ready - {p})
  {
    FilledLayout(r, s, k, ready);
    var t := After(r, s, Append(p, Far(r, k), One()));
    assert Turn(r, s.procs[p], k, p, true);
    assert Far(r, k) !in s.lh && Far(r, k) !in s.procs[p].wrote;
    forall j: nat | j < 3
      ensures Turn(r, t.procs[j], k + 1, j, j in ready - {p})
    {
      if j != p {
        NextTurn(r, s.procs[j], k, j, j in ready);
      }
    }
  }

  /** A frugal run on the blank disk has come to log k blocks. */
  ghost predicate Filling(r: Region, states: seq<State>, steps: seq<Step>, k: nat, ready: set<nat>) {
    |states| > 0 && Frugal(r, states, steps) && states[0].disk == Blank(r) && Filled(r, states[|states| - 1], k, ready)
  }

  lemma RunTest(r: Region, states: seq<State>, steps: seq<Step>, k: nat, ready: set<nat>, p: nat)
    returns (states': seq<State>, steps': seq<Step>)
    requires Filling(r, states, steps, k, ready) && p < 3 && p !in ready && k < LOGSIZE && k < r.size - 1 && Share(k, p) < MAXOPBLOCKS
    ensures Filling(r, states', steps', k, ready + {p})
  {
    hide Filled, Frugal, After, Enabled, Spare;
    FillTest(r, states[|states| - 1], k, ready, p);
    states', steps' := Extend(r, states, steps, Test(p));
  }

  lemma RunAppend(r: Region, states: seq<State>, steps: seq<Step>, k: nat, ready: set<nat>, p: nat)
    returns (states': seq<State>, steps': seq<Step>)
    requires Filling(r, states, steps, k, ready) && k < LOGSIZE && p == k % 3 && p in ready
    ensures Filling(r, states', steps', k + 1, ready - {p})
  {
    hide Filled, Frugal, After, Enabled;
    FillAppend(r, states[|states| - 1], k, ready, p);
    states', steps' := Extend(r, states, steps, Append(p, Far(r, k), One()));
  }

  /** The log can be filled with k blocks, as far as log_write lets it. */
  lemma {:induction false} Fill(r: Region, k: nat) returns (states: seq<State>, steps: seq<Step>)
    requires r.size >= 1 && k <= LOGSIZE && k <= r.size - 1
    ensures Filling(r, states, steps, k, {})
  {
    if k == 0 {
      states, steps := ThreeBegin(r);
    } else {
      states, steps := Fill(r, k - 1);
      var p := (k - 1) % 3;
      hide Filling;
      states, steps := RunTest(r, states, steps, k - 1, {}, p);
      states, steps := RunAppend(r, states, steps, k - 1, {} + {p}, p);
      assert {} + {p} - {p} == {};
    }
  }

  /** No frugal run reaches a log_write that panics. */
  ghost predicate NeverPanics(r: Region) {
    forall states: seq<State>, steps: seq<Step>, i: nat, p: nat ::
      Frugal(r, states, steps) && i < |states| && Spare(states[i], p) ==> !TooBig(r, states[i])
  }

  lemma SmallRegionPanics(r: Region)
    requires 1 <= r.size <= LOGSIZE
    ensures !NeverPanics(r)
  {
    var k := r.size - 1;
    var states, steps := Fill(r, k);
    var s := states[|states| - 1];
    assert Turn(r, s.procs[k % 3], k, k % 3, false);
    assert Spare(s, k % 3) && TooBig(r, s);
  }

  /** "too big a transaction" is unreachable if and only if the region has LOGSIZE + 1 blocks. */
  lemma NeverPanicsIff(r: Region)
    requires r.size >= 1
    ensures NeverPanics(r) <==> r.size >= LOGSIZE + 1
  {
    if r.size <= LOGSIZE {
      SmallRegionPanics(r);
    } else {
      forall states: seq<State>, steps: seq<Step>, i: nat, p: nat | Frugal(r, states, steps) && i < |states| && Spare(states[i], p)
        ensures !TooBig(r, states[i])
      {
        RoomToSpare(r, states, steps, i, p);
      }
    }
  }

  /** The region mkfs.c lays out is one of those that panic. */
  lemma MkfsRegionPanics(start: nat)
    ensures !NeverPanics(Region(start, LOGSIZE))
  {
    SmallRegionPanics(Region(start, LOGSIZE));
  }

  // With all reservations spent, the first operation has logged a block that it may log again.
  lemma FilledBlock(r: Region, s: State) returns (b: nat)
    requires r.size >= LOGSIZE + 1 && Filled(r, s, LOGSIZE, {}) && OpsInv(s)
    ensures Within(r, s, 0, b) && TooBig(r, s) && b in s.lh
  {
    FilledLayout(r, s, LOGSIZE, {});
    assert Turn(r, s.procs[0], LOGSIZE, 0, false);
    assert |s.procs[0].wrote| == MAXOPBLOCKS;
    b :| b in s.procs[0].wrote;
    assert s.procs[0].wrote + {b} == s.procs[0].wrote;
  }

  /**
    Counting different blocks is not enough: whatever the region, a run within
    MAXOPBLOCKS different blocks per operation reaches a log_write that panics,
    and in a large enough region it is one on a block already in the log.
   */
  lemma AbsorptionPanics(r: Region) returns (states: seq<State>, steps: seq<Step>, p: nat, b: nat)
    requires r.size >= 1
    ensures Frugal(r, states, steps)
    ensures var s := states[|states| - 1]; Within(r, s, p, b) && TooBig(r, s)
    ensures r.size >= LOGSIZE + 1 ==> b in states[|states| - 1].lh
  {
    var k := if r.size <= LOGSIZE then r.size - 1 else LOGSIZE;
    states, steps := Fill(r, k);
    var s := states[|states| - 1];
    if r.size <= LOGSIZE {
      p, b := k % 3, Far(r, k);
      assert Turn(r, s.procs[p], k, p, false);
    } else {
      RunOps(r, states, steps, |states| - 1);
      hide Frugal;
      p := 0;
      b := FilledBlock(r, s);
    }
  }

  // Two log_writes that pass the test for one slot.

  /** The last slot but one is free; two operations pass the test, then both append. */
  lemma Race(r: Region) returns (states: seq<State>, steps: seq<Step>)
    requires 2 <= r.size <= LOGSIZE
    ensures Filling(r, states, steps, r.size, {})
  {
    hide Filling;
    var k := r.size - 2;
    var p, q := k % 3, (k + 1) % 3;
    assert p != q && Share(k, p) < MAXOPBLOCKS && Share(k, q) < MAXOPBLOCKS;
    hide Share;
    states, steps := Fill(r, k);
    states, steps := RunTest(r, states, steps, k, {}, p);
    states, steps := RunTest(r, states, steps, k, {} + {p}, q);
    states, steps := RunAppend(r, states, steps, k, {} + {p} + {q}, p);
    states, steps := RunAppend(r, states, steps, k + 1, {} + {p} + {q} - {p}, q);
    assert {} + {p} + {q} - {p} - {q} == {};
  }

  /** write_log has written j of the n blocks, the n-th of which goes behind the region. */
  ghost predicate Spilling(r: Region, s: State, j: nat) {
    && LayoutOk(r, s) && r.size >= 1 && j <= r.size == |s.lh| && |s.disk| == |Blank(r)| && s.disk[r.start] == Zero()
    && s.job.Commit? && s.job.done == j && |s.job.writes| == r.size
    && (forall i :: 0 <= i < r.size ==> s.job.writes[i] == Write(r.start + 1 + i, One()))
    && (j == r.size ==> s.disk[r.start + r.size] == One() == s.mem[r.start + r.size])
    && s.durable == 0 && forall i :: 0 <= i < |s.events| ==> s.events[i].blockno > r.start + r.size
  }

  lemma {:induction false} OverrunSlots(r: Region, blocks: seq<int>, mem: Image, i: nat)
    requires AllHome(r, mem, blocks) && i <= |blocks| && r.start + |blocks| < |mem|
    requires forall k :: 0 <= k < |blocks| ==> blocks[k] > r.start + |blocks| && mem[blocks[k]] == One()
    ensures var ws := Overrun(r, blocks, mem, i);
            |ws| == |blocks| - i && forall k :: 0 <= k < |ws| ==> ws[k] == Write(r.start + 1 + i + k, One())
    decreases |blocks| - i
  {
    if i < |blocks| {
      OverrunSlots(r, blocks, mem[r.start + 1 + i := mem[blocks[i]]], i + 1);
    }
  }

  lemma EndAll(r: Region, states: seq<State>, steps: seq<Step>) returns (states': seq<State>, steps': seq<Step>)
    requires 2 <= r.size <= LOGSIZE && Filling(r, states, steps, r.size, {})
    ensures Frugal(r, states', steps') && states'[0] == states[0] && Spilling(r, states'[|states'| - 1], 0)
  {
    var s := states[|states| - 1];
    FilledLayout(r, s, r.size, {});
    assert Turn(r, s.procs[0], r.size, 0, false) && Turn(r, s.procs[1], r.size, 1, false) && Turn(r, s.procs[2], r.size, 2, false);
    OverrunSlots(r, s.lh, s.mem, 0);
    hide Frugal, Overrun;
    states', steps' := Extend(r, states, steps, End(0));
    states', steps' := Extend(r, states', steps', End(1));
    states', steps' := Extend(r, states', steps', End(2));
  }

  lemma {:induction false} Spill(r: Region, states: seq<State>, steps: seq<Step>, j: nat)
    returns (states': seq<State>, steps': seq<Step>)
    requires Frugal(r, states, steps) && Spilling(r, states[|states| - 1], 0) && j <= r.size
    ensures Frugal(r, states', steps') && states'[0] == states[0] && Spilling(r, states'[|states'| - 1], j)
  {
    if j == 0 {
      states', steps' := states, steps;
    } else {
      states', steps' := Spill(r, states, steps, j - 1);
      SpillOne(r, states'[|states'| - 1], j - 1);
      hide Frugal, Spilling, After, Enabled;
      states', steps' := Extend(r, states', steps', CommitWrite);
    }
  }

  lemma SpillOne(r: Region, s: State, j: nat)
    requires Spilling(r, s, j) && j < r.size
    ensures Enabled(r, s, CommitWrite) && Spilling(r, After(r, s, CommitWrite), j + 1)
  {
    var t := After(r, s, CommitWrite);
    assert Head(t.disk[r.start]) == [];
  }

  lemma {:induction false} ReplayElsewhere(init: Image, events: seq<Event>, b: nat)
    requires b < |init| && forall i :: 0 <= i < |events| ==> events[i].blockno != b
    ensures Replay(init, events)[b] == init[b]
  {
    if events != [] {
      ReplayElsewhere(init, events[..|events| - 1], b);
    }
  }

  /**
    On a region of 2 to LOGSIZE blocks a run that keeps to its reservations
    writes log data over the block behind the region, which nobody logged.
   */
  lemma Trespass(r: Region) returns (states: seq<State>, steps: seq<Step>)
    requires 2 <= r.size <= LOGSIZE
    ensures Frugal(r, states, steps) && states[0].disk == Blank(r)
    ensures var s := states[|states| - 1];
            && !Inside(r, s) && s.job.Commit? && |s.disk| == |s.mem| == |states[0].disk| && s.durable == 0
            && s.disk[r.start] == Zero() && s.disk[r.start + r.size] == One() == s.mem[r.start + r.size]
            && forall i :: 0 <= i < |s.events| ==> s.events[i].blockno != r.start + r.size
  {
    states, steps := Race(r);
    states, steps := EndAll(r, states, steps);
    states, steps := Spill(r, states, steps, r.size);
    assert Spilling(r, states[|states| - 1], r.size);
    hide Frugal;
  }

  // Which regions are large enough.

  /** Frugal runs keep the log in its region. */
  ghost predicate StaysInside(r: Region) {
    forall states: seq<State>, steps: seq<Step>, i: nat :: Frugal(r, states, steps) && i < |states| ==> Inside(r, states[i])
  }

  ghost predicate Restores(r: Region, init: Image, s: State, last: Image) {
    s.durable <= |s.events| && Fits(r, last) && HeadOk(r, last) && HomeEq(r, Recover(r, last), CommittedHome(init, s))
  }

  /** After a crash anywhere in a frugal run, recovery brings back the committed operations. */
  ghost predicate CrashSafe(r: Region) {
    forall states: seq<State>, steps: seq<Step>, i: nat, ds: seq<Image> ::
      Frugal(r, states, steps) && i < |states| && CrashedRecoveries(r, ds) && ds[0] == states[i].disk ==>
        Restores(r, states[0].disk, states[i], ds[|ds| - 1])
  }

  /** In a frugal run reads see every log_write, except while recovering. */
  ghost predicate ReadsSafe(r: Region) {
    forall states: seq<State>, steps: seq<Step>, i: nat :: Frugal(r, states, steps) && i < |states| && !states[i].job.Recovery? ==>
      HomeEq(r, states[i].mem, Replay(states[0].disk, states[i].events))
  }

  /** Room for all reservations and the header, or for nothing at all, where every log_write panics. */
  predicate Enough(r: Region) {
    r.size == 1 || r.size >= LOGSIZE + 1
  }

  lemma {:induction false} TinyRegion(r: Region, states: seq<State>, steps: seq<Step>, i: nat)
    requires Run(r, states, steps) && i < |states| && r.size == 1
    ensures states[i].lh == [] && forall p :: 0 <= p < |states[i].procs| && states[i].procs[p].InOp? ==> !states[i].procs[p].passed
  {
    if i > 0 {
      TinyRegion(r, states, steps, i - 1);
    }
  }

  lemma EnoughInside(r: Region, states: seq<State>, steps: seq<Step>, i: nat)
    requires Enough(r) && Frugal(r, states, steps) && i < |states|
    ensures Contained(r, states, i)
  {
    forall j | 0 <= j <= i
      ensures Inside(r, states[j])
    {
      if r.size == 1 {
        TinyRegion(r, states, steps, j);
      } else {
        ListFits(r, states, steps, j);
      }
    }
  }

  /** Crash safety, for every run that keeps to its reservations on a region large enough. */
  lemma EnoughSafe(r: Region)
    requires Enough(r)
    ensures StaysInside(r) && CrashSafe(r) && ReadsSafe(r)
  {
    forall states: seq<State>, steps: seq<Step>, i: nat | Frugal(r, states, steps) && i < |states|
      ensures Inside(r, states[i])
    {
      EnoughInside(r, states, steps, i);
    }
    forall states: seq<State>, steps: seq<Step>, i: nat, ds: seq<Image> |
       Frugal(r, states, steps) && i < |states| && CrashedRecoveries(r, ds) && ds[0] == states[i].disk
      ensures Restores(r, states[0].disk, states[i], ds[|ds| - 1])
    {
      EnoughInside(r, states, steps, i);
      CrashSafety(r, states, steps, i, ds);
    }
    forall states: seq<State>, steps: seq<Step>, i: nat | Frugal(r, states, steps) && i < |states| && !states[i].job.Recovery?
      ensures HomeEq(r, states[i].mem, Replay(states[0].disk, states[i].events))
    {
      EnoughInside(r, states, steps, i);
      ReadsSeeWrites(r, states, steps, i);
    }
  }

  lemma TooSmallUnsafe(r: Region)
    requires 2 <= r.size <= LOGSIZE
    ensures !StaysInside(r) && !CrashSafe(r) && !ReadsSafe(r)
  {
    var states, steps := Trespass(r);
    var i, s, b := |states| - 1, states[|states| - 1], r.start + r.size;
    assert Home(r, s.disk, b);
    ReplayElsewhere(states[0].disk, s.events, b);
    assert !HomeEq(r, s.mem, Replay(states[0].disk, s.events));
    var ds := [s.disk];
    LostBlock(r, states[0].disk, s);
    hide Frugal, Restores;
    assert CrashedRecoveries(r, ds) && ds[0] == states[i].disk && ds[|ds| - 1] == s.disk;
  }

  lemma LostBlock(r: Region, init: Image, s: State)
    requires Fits(r, init) && init == Blank(r) && |s.disk| == |init| && s.durable == 0
    requires s.disk[r.start] == Zero() && s.disk[r.start + r.size] == One()
    ensures !Restores(r, init, s, s.disk)
  {
    assert Head(s.disk[r.start]) == [] && s.events[..0] == [];
    RecoverSplit(r, s.disk);
    assert InstallWrites(r, s.disk, []) == [];
    assert Recover(r, s.disk)[r.start + r.size] == s.disk[r.start + r.size];
    assert Home(r, s.disk, r.start + r.size);
  }

  /**
    The log stays in its region, a crash loses nothing and reads see every
    log_write, for all runs that keep to their reservations, if and only if the
    region has LOGSIZE + 1 blocks (or only a header, where every log_write panics).
   */
  lemma SafeIff(r: Region)
    requires r.size >= 1
    ensures StaysInside(r) <==> Enough(r)
    ensures CrashSafe(r) <==> Enough(r)
    ensures ReadsSafe(r) <==> Enough(r)
  {
    if Enough(r) {
      EnoughSafe(r);
    } else {
      TooSmallUnsafe(r);
    }
  }

  // Operations given by the lists of their log_write() calls.

  /** Process p is in the operation that makes these calls, and has made some of them, not all. */
  ghost predicate Between(s: State, p: nat, calls: map<nat, seq<nat>>, n: nat) {
    && p < |s.procs| && s.procs[p].InOp? && s.procs[p].op in calls
    && n < |calls[s.procs[p].op]| && s.procs[p].wrote == Elements(calls[s.procs[p].op][..n])
  }

  /** Every log_write of the run is a call on the list of its operation. */
  ghost predicate Makes(states: seq<State>, steps: seq<Step>, calls: map<nat, seq<nat>>) {
    && |states| == |steps| + 1
    && forall i :: 0 <= i < |steps| && steps[i].Test? ==> exists n: nat :: Between(states[i], steps[i].p, calls, n)
  }

  /** What the file system promises of its operations is what the log needs: they never panic on a region large enough. */
  lemma ThriftySafe(r: Region, states: seq<State>, steps: seq<Step>, calls: map<nat, seq<nat>>)
    requires Run(r, states, steps) && Makes(states, steps, calls) && forall op :: op in calls ==> Thrifty(calls[op])
    ensures Frugal(r, states, steps)
    ensures r.size >= LOGSIZE + 1 ==>
              forall i, p: nat, n: nat :: 0 <= i < |states| && Between(states[i], p, calls, n) ==> !TooBig(r, states[i])
  {
    hide Run;
    forall i | 0 <= i < |steps| && steps[i].Test?
      ensures Spare(states[i], steps[i].p)
    {
      var n: nat :| Between(states[i], steps[i].p, calls, n);
      ThriftySpare(states[i], steps[i].p, calls, n);
    }
    if r.size >= LOGSIZE + 1 {
      forall i, p: nat, n: nat | 0 <= i < |states| && Between(states[i], p, calls, n)
        ensures !TooBig(r, states[i])
      {
        ThriftySpare(states[i], p, calls, n);
        RoomToSpare(r, states, steps, i, p);
      }
    }
  }

  lemma ThriftySpare(s: State, p: nat, calls: map<nat, seq<nat>>, n: nat)
    requires Between(s, p, calls, n) && Thrifty(calls[s.procs[p].op])
    ensures Spare(s, p)
  {
  }

  /** On the disk that mkfs lays out the block written over is the first inode block. */
  lemma MkfsTrespass() returns (states: seq<State>, steps: seq<Step>)
    ensures var r, b := Region(2, Mkfs.NLOG), Mkfs.Superblock().inodestart;
            && Frugal(r, states, steps)
            && var s := states[|states| - 1];
            && b < |s.disk| == |states[0].disk| && s.disk[b] != states[0].disk[b]
            && forall i :: 0 <= i < |s.events| ==> s.events[i].blockno != b
  {
    states, steps := Trespass(Region(2, Mkfs.NLOG));
    hide Frugal;
  }
}
