/**
  What holds over every run of the logging layer: each operation lands in one
  commit and nobody oversleeps; and, as long as the log stays in its region,
  recovery after any crash gives exactly the committed history.
 */
module LogRuns {
  import opened Disk
  import opened Log
  import opened LogMachine

  // Counting over the process table.

  function Sum(procs: seq<Proc>, f: Proc -> int): (n: int) {
    if procs == [] then 0 else Sum(procs[..|procs| - 1], f) + f(procs[|procs| - 1])
  }

  lemma {:induction false} SumUpdate(procs: seq<Proc>, f: Proc -> int, p: nat, q: Proc)
    requires p < |procs|
    ensures Sum(procs[p := q], f) == Sum(procs, f) - f(procs[p]) + f(q)
  {
    var n := |procs| - 1;
    if p == n {
      assert procs[p := q][..n] == procs[..n];
    } else {
      SumUpdate(procs[..n], f, p, q);
      assert procs[p := q][..n] == procs[..n][p := q];
    }
  }

  lemma {:induction false} SumSame(procs: seq<Proc>, qs: seq<Proc>, f: Proc -> int)
    requires |procs| == |qs| && forall i :: 0 <= i < |procs| ==> f(procs[i]) == f(qs[i])
    ensures Sum(procs, f) == Sum(qs, f)
  {
    if procs != [] {
      SumSame(procs[..|procs| - 1], qs[..|qs| - 1], f);
    }
  }

  /** 1 for a process inside an operation. */
  function Running(p: Proc): int {
    if p.InOp? then 1 else 0
  }

  /** The part of its MAXOPBLOCKS reservation that an operation has not used yet. */
  function Unspent(p: Proc): int {
    if p.InOp? then MAXOPBLOCKS - |p.wrote| else 0
  }

  lemma {:induction false} SumRunning(procs: seq<Proc>)
    ensures 0 <= Sum(procs, Running)
    ensures Sum(procs, Unspent) <= MAXOPBLOCKS * Sum(procs, Running)
    ensures forall i :: 0 <= i < |procs| && procs[i].InOp? ==> 1 <= Sum(procs, Running)
  {
    if procs != [] {
      SumRunning(procs[..|procs| - 1]);
    }
  }

  // What every step keeps: the operations.

  ghost predicate OpsInv(s: State) {
    && s.outstanding == Sum(s.procs, Running)
    && (!s.job.Idle? ==> s.outstanding == 0)
    && (s.committing <==> s.job.Commit?)
    && (!s.job.Commit? && s.outstanding == 0 ==> s.lh == [])
    && (forall p :: 0 <= p < |s.procs| && s.procs[p].Asleep? ==> s.committing || Full(s))
    && (forall p :: 0 <= p < |s.procs| && s.procs[p].InOp? ==> forall b :: b in s.procs[p].wrote ==> b in s.lh)
    && Distinct(s.lh)
  }

  /** log.lh.block[] has no duplicates: log absorption. */
  predicate Distinct(blocks: seq<int>) {
    forall i, j :: 0 <= i < j < |blocks| ==> blocks[i] != blocks[j]
  }

  lemma KeepOpsBegin(r: Region, s: State, p: nat)
    requires Enabled(r, s, Begin(p)) && OpsInv(s)
    ensures OpsInv(After(r, s, Begin(p)))
  {
    SumRunning(s.procs);
    SumUpdate(s.procs, Running, p, After(r, s, Begin(p)).procs[p]);
  }

  lemma KeepOpsTest(r: Region, s: State, p: nat)
    requires Enabled(r, s, Test(p)) && OpsInv(s)
    ensures OpsInv(After(r, s, Test(p)))
  {
    SumUpdate(s.procs, Running, p, After(r, s, Test(p)).procs[p]);
  }

  lemma KeepOpsAppend(r: Region, s: State, p: nat, b: nat, data: Block)
    requires Enabled(r, s, Append(p, b, data)) && OpsInv(s)
    ensures OpsInv(After(r, s, Append(p, b, data)))
  {
    var t := After(r, s, Append(p, b, data));
    SumRunning(s.procs);
    SumUpdate(s.procs, Running, p, t.procs[p]);
    assert forall c :: c in s.lh || c == b ==> c in t.lh;
  }

  lemma KeepOpsEnd(r: Region, s: State, p: nat)
    requires Enabled(r, s, End(p)) && OpsInv(s)
    ensures OpsInv(After(r, s, End(p)))
  {
    SumRunning(s.procs);
    SumUpdate(s.procs, Running, p, Outside);
    SumUpdate(s.procs, Running, p, Committer);
    SumSame(s.procs[p := Outside], WakeAll(s.procs[p := Outside]), Running);
  }

  lemma KeepOps(r: Region, s: State, step: Step)
    requires Enabled(r, s, step) && OpsInv(s)
    ensures OpsInv(After(r, s, step))
  {
    match step
    case Begin(p) => KeepOpsBegin(r, s, p);
    case Test(p) => KeepOpsTest(r, s, p);
    case Append(p, b, data) => KeepOpsAppend(r, s, p, b, data);
    case End(p) => KeepOpsEnd(r, s, p);
    case CommitWrite =>
    case CommitDone(p) =>
      SumUpdate(s.procs, Running, p, Outside);
      SumSame(s.procs[p := Outside], After(r, s, step).procs, Running);
      SumRunning(After(r, s, step).procs);
    case Crash => SumOutside(After(r, s, step).procs);
    case RecoverWrite =>
    case RecoverDone =>
  }

  lemma {:induction false} SumOutside(procs: seq<Proc>)
    requires forall i :: 0 <= i < |procs| ==> procs[i].Outside?
    ensures Sum(procs, Running) == 0 && Sum(procs, Unspent) == 0
  {
    if procs != [] {
      SumOutside(procs[..|procs| - 1]);
    }
  }

  // Who wrote what: an operation's log_writes stay on one side of every commit point.

  ghost predicate OneCommit(s: State) {
    && s.durable <= |s.events|
    && (forall i :: 0 <= i < |s.events| ==> s.events[i].op < s.nextOp)
    && (forall p :: 0 <= p < |s.procs| && s.procs[p].InOp? ==> s.procs[p].op < s.nextOp && Pending(s, s.procs[p].op))
    && (forall i, j :: 0 <= i < s.durable <= j < |s.events| ==> s.events[i].op != s.events[j].op)
  }

  /** No log_write of op is covered by a commit point yet. */
  ghost predicate Pending(s: State, op: nat)
    requires s.durable <= |s.events|
  {
    forall i :: 0 <= i < s.durable ==> s.events[i].op != op
  }

  lemma OneCommitAppend(r: Region, s: State, p: nat, b: nat, data: Block)
    requires Enabled(r, s, Append(p, b, data)) && OneCommit(s)
    ensures OneCommit(After(r, s, Append(p, b, data)))
  {
    var t := After(r, s, Append(p, b, data));
    assert forall i :: 0 <= i < |s.events| ==> t.events[i] == s.events[i];
    assert Pending(s, s.procs[p].op);
  }

  lemma KeepOneCommit(r: Region, s: State, step: Step)
    requires Enabled(r, s, step) && OpsInv(s) && OneCommit(s)
    ensures OneCommit(After(r, s, step))
  {
    SumRunning(s.procs);
    if step.Append? {
      OneCommitAppend(r, s, step.p, step.b, step.data);
    }
  }

  lemma KeepDisk(r: Region, init: Image, s: State, step: Step)
    requires Enabled(r, s, step) && DiskInv(r, init, s) && OpsInv(s) && Inside(r, After(r, s, step))
    ensures DiskInv(r, init, After(r, s, step))
  {
    SumRunning(s.procs);
    match step
    case Begin(p) => KeepProcs(r, init, s, After(r, s, step));
    case Test(p) => KeepProcs(r, init, s, After(r, s, step));
    case Append(p, b, data) => KeepAppend(r, init, s, step);
    case End(p) => KeepEnd(r, init, s, p);
    case CommitWrite => KeepCommitWrite(r, init, s);
    case CommitDone(p) => KeepCommitDone(r, init, s, p);
    case Crash => KeepCrash(r, init, s);
    case RecoverWrite => KeepRecoverWrite(r, init, s);
    case RecoverDone => KeepRecoverDone(r, init, s);
  }

  lemma InitInv(r: Region, s: State)
    requires Init(r, s)
    ensures DiskInv(r, s.disk, s) && OpsInv(s) && OneCommit(s)
  {
    SumOutside(s.procs);
    assert s.events[..0] == [];
    ShowsCleared(r, s.disk, s.disk);
  }

  lemma {:induction false} RunOps(r: Region, states: seq<State>, steps: seq<Step>, i: nat)
    requires Run(r, states, steps) && i < |states|
    ensures OpsInv(states[i]) && OneCommit(states[i])
  {
    if i == 0 {
      InitInv(r, states[0]);
    } else {
      RunOps(r, states, steps, i - 1);
      KeepOps(r, states[i - 1], steps[i - 1]);
      KeepOneCommit(r, states[i - 1], steps[i - 1]);
    }
  }

  /** The log is in its region, in state n and before. */
  ghost predicate Contained(r: Region, states: seq<State>, n: nat)
    requires n < |states|
  {
    forall j :: 0 <= j <= n ==> Inside(r, states[j])
  }

  lemma {:induction false} RunDisk(r: Region, states: seq<State>, steps: seq<Step>, i: nat)
    requires Run(r, states, steps) && i < |states| && Contained(r, states, i)
    ensures DiskInv(r, states[0].disk, states[i])
  {
    hide DiskInv, OpsInv, OneCommit, Enabled, After, Inside, Init;
    if i == 0 {
      InitInv(r, states[0]);
    } else {
      RunDisk(r, states, steps, i - 1);
      RunOps(r, states, steps, i - 1);
      assert Inside(r, states[i]);
      KeepDisk(r, states[0].disk, states[i - 1], steps[i - 1]);
    }
  }

  // Theorems about every state of every run.

  /** The home blocks that the committed operations, and no others, have made. */
  ghost function CommittedHome(init: Image, s: State): Image
    requires s.durable <= |s.events|
  {
    Replay(init, s.events[..s.durable])
  }

  /**
    Crash safety. At any moment of any run in which the log has stayed in its
    region, a crash followed by any number of crashed recoveries and one complete
    recovery brings back exactly the log_writes before the last commit point, and
    that point never divides an operation.
   */
  lemma CrashSafety(r: Region, states: seq<State>, steps: seq<Step>, i: nat, ds: seq<Image>)
    requires Run(r, states, steps) && i < |states| && Contained(r, states, i)
    requires CrashedRecoveries(r, ds) && ds[0] == states[i].disk
    ensures var s := states[i];
            var last := ds[|ds| - 1];
            && s.durable <= |s.events|
            && Fits(r, last) && HeadOk(r, last)
            && Cleared(r, Recover(r, last))
            && HomeEq(r, Recover(r, last), CommittedHome(states[0].disk, s))
            && (forall j, k :: 0 <= j < s.durable <= k < |s.events| ==> s.events[j].op != s.events[k].op)
  {
    RunOps(r, states, steps, i);
    RunDisk(r, states, steps, i);
    RecoveryIdempotent(r, ds, CommittedHome(states[0].disk, states[i]));
  }

  /** When the log is idle every finished operation is durable. */
  lemma IdleIsDurable(r: Region, states: seq<State>, steps: seq<Step>, i: nat)
    requires Run(r, states, steps) && i < |states| && Contained(r, states, i)
    requires states[i].job.Idle? && states[i].outstanding == 0
    ensures states[i].lh == [] && states[i].durable == |states[i].events|
  {
    RunOps(r, states, steps, i);
    RunDisk(r, states, steps, i);
  }

  /** What is durable stays durable, in the same order, through crashes and later commits. */
  lemma {:induction false} DurableForever(r: Region, states: seq<State>, steps: seq<Step>, i: nat, j: nat)
    requires Run(r, states, steps) && i <= j < |states|
    ensures states[i].durable <= |states[i].events| && states[j].durable <= |states[j].events|
    ensures states[i].events[..states[i].durable] <= states[j].events[..states[j].durable]
    decreases j - i
  {
    RunOps(r, states, steps, i);
    if i < j {
      DurableForever(r, states, steps, i + 1, j);
      var s, t := states[i], After(r, states[i], steps[i]);
      assert s.events[..s.durable] <= t.events[..t.durable];
    }
  }

  /** Between crashes, and as long as the log has stayed in its region, reads see every log_write so far. */
  lemma ReadsSeeWrites(r: Region, states: seq<State>, steps: seq<Step>, i: nat)
    requires Run(r, states, steps) && i < |states| && Contained(r, states, i) && !states[i].job.Recovery?
    ensures HomeEq(r, states[i].mem, Replay(states[0].disk, states[i].events))
  {
    RunDisk(r, states, steps, i);
  }

  /**
    Group commit. Commit runs only with no operation outstanding, so the panics
    of end_op and log_write about that cannot happen, and lh never repeats a block.
   */
  lemma GroupCommit(r: Region, states: seq<State>, steps: seq<Step>, i: nat, p: nat)
    requires Run(r, states, steps) && i < |states| && p < |states[i].procs|
    ensures var s := states[i];
            && (s.committing ==> s.outstanding == 0)
            && (s.procs[p].InOp? ==> !s.committing && s.outstanding >= 1)
            && Distinct(s.lh)
  {
    RunOps(r, states, steps, i);
    SumRunning(states[i].procs);
  }

  /** Nobody sleeps in begin_op unless a commit is running or the log is reserved full. */
  lemma NoOversleep(r: Region, states: seq<State>, steps: seq<Step>, i: nat, p: nat)
    requires Run(r, states, steps) && i < |states|
    requires p < |states[i].procs| && states[i].procs[p].Asleep?
    ensures states[i].committing || (Full(states[i]) && states[i].outstanding >= 1)
  {
    RunOps(r, states, steps, i);
    SumRunning(states[i].procs);
  }
}
