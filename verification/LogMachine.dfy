/**
  Whole runs of the logging layer of log.c: any number of processes interleave
  begin_op, log_write and end_op, the committing process writes one disk block
  at a time, and the machine may crash and recover at any point, also while
  recovering.  log_write makes its tests before it takes log.lock, so it is two
  steps, Test and Append, and other processes may append in between.  A panic
  halts the machine, so a call that panics is not a step; which panics can be
  reached, and whether the log stays in its region, is settled in module LogBudget.
 */
module LogMachine {
  import opened Disk
  import opened Log

  /** Where a process is, as far as the log is concerned. */
  datatype Proc =
    | Outside
    | Asleep                           // sleeping on &log in begin_op
    | InOp(op: nat, wrote: set<nat>, passed: bool)   // between begin_op and end_op; passed: in log_write, behind its tests
    | Committer                        // in commit(), called from end_op

  /** The disk work in progress: the device (and memory) it started from, its writes, and how many are done. */
  datatype Job =
    | Idle
    | Commit(base: Image, from: Image, writes: seq<Write>, done: nat)
    | Recovery(base: Image, writes: seq<Write>, done: nat)

  /** One log_write. */
  datatype Event = Event(op: nat, blockno: nat, data: Block)

  datatype State = State(
    disk: Image,            // all that survives a crash
    mem: Image,             // logical contents: the cached copy if any, else the disk's
    lh: seq<int>,           // log.lh
    outstanding: int,
    committing: bool,
    job: Job,
    procs: seq<Proc>,
    nextOp: nat,
    events: seq<Event>,     // every log_write so far, less those a crash has undone
    durable: nat)           // how many of them the last commit point covers

  datatype Step =
    | Begin(p: nat)
    | Test(p: nat)                         // log_write before the acquire of log.lock
    | Append(p: nat, b: nat, data: Block)  // log_write from there on
    | End(p: nat)
    | CommitWrite
    | CommitDone(p: nat)
    | Crash
    | RecoverWrite
    | RecoverDone

  /** The abstract meaning of a history: its writes applied in order. */
  function Replay(init: Image, events: seq<Event>): (d: Image)
    ensures |d| == |init|
  {
    if events == [] then init else
      var e := events[|events| - 1];
      var d := Replay(init, events[..|events| - 1]);
      if e.blockno < |d| then d[e.blockno := e.data] else d
  }

  /**
    Sizes and ranges; as long as the log stays in its region every reachable
    state has them, so they block no step.  Behind block[LOGSIZE] the model ends.
   */
  predicate LayoutOk(r: Region, s: State) {
    && Fits(r, s.disk) && HeadOk(r, s.disk) && |s.mem| == |s.disk|
    && |s.lh| <= LOGSIZE && AllHome(r, s.disk, s.lh) && s.durable <= |s.events|
    && JobOk(s.job, s.disk)
  }

  predicate AllHome(r: Region, d: Image, blocks: seq<int>) {
    forall i :: 0 <= i < |blocks| ==> Home(r, d, blocks[i])
  }

  predicate JobOk(job: Job, disk: Image) {
    job.Idle? || (|job.base| == |disk| && InRange(disk, job.writes) && job.done <= |job.writes|)
  }

  /** The blocks in log.lh have slots in the log region and entries in block[]. */
  predicate Inside(r: Region, s: State) {
    |s.lh| <= LOGSIZE && |s.lh| <= r.size - 1
  }

  /**
    write_log with more blocks than the region has slots: it goes on behind the
    region, through the cache, until it meets the end of the device.
   */
  function Overrun(r: Region, blocks: seq<int>, mem: Image, i: nat): (ws: seq<Write>)
    requires AllHome(r, mem, blocks) && i <= |blocks|
    ensures InRange(mem, ws) && |ws| <= |blocks| - i
    decreases |blocks| - i
  {
    var slot := r.start + 1 + i;
    if i == |blocks| || slot >= |mem| then []
    else [Write(slot, mem[blocks[i]])] + Overrun(r, blocks, mem[slot := mem[blocks[i]]], i + 1)
  }

  /** The writes of commit; if the log has left its region they are followed no further than write_log. */
  function CommitJob(r: Region, s: State): (job: Job)
    requires LayoutOk(r, s)
  {
    Commit(s.disk, s.mem, if Inside(r, s) then CommitWrites(r, s.disk, s.lh, s.mem) else Overrun(r, s.lh, s.mem, 0), 0)
  }

  function Wake(p: Proc): Proc {
    if p.Asleep? then Outside else p
  }

  /** wakeup(&log): every sleeper goes back to try begin_op again. */
  function WakeAll(procs: seq<Proc>): (qs: seq<Proc>)
    ensures |qs| == |procs| && forall i :: 0 <= i < |qs| ==> qs[i] == Wake(procs[i])
  {
    seq(|procs|, i requires 0 <= i < |procs| => Wake(procs[i]))
  }

  /** The test that makes log_write panic. */
  predicate TooBig(r: Region, s: State) {
    |s.lh| >= LOGSIZE || |s.lh| >= r.size - 1
  }

  predicate Full(s: State) {
    |s.lh| + (s.outstanding + 1) * MAXOPBLOCKS > LOGSIZE
  }

  predicate Enabled(r: Region, s: State, step: Step) {
    && LayoutOk(r, s)
    && match step
       case Begin(p) => p < |s.procs| && s.procs[p].Outside? && !s.job.Recovery?
       case Test(p) => p < |s.procs| && s.procs[p].InOp? && !s.procs[p].passed && !TooBig(r, s) && s.outstanding >= 1
       case Append(p, b, _) => p < |s.procs| && s.procs[p].InOp? && s.procs[p].passed && Home(r, s.disk, b)
       case End(p) => p < |s.procs| && s.procs[p].InOp? && !s.procs[p].passed && !s.committing
       case CommitWrite => s.job.Commit? && s.job.done < |s.job.writes|
       case CommitDone(p) =>
         p < |s.procs| && s.procs[p].Committer? && s.job.Commit? && s.job.done == |s.job.writes| && Inside(r, s)
       case Crash => true
       case RecoverWrite => s.job.Recovery? && s.job.done < |s.job.writes|
       case RecoverDone => s.job.Recovery? && s.job.done == |s.job.writes|
  }

  function After(r: Region, s: State, step: Step): (t: State)
    requires Enabled(r, s, step)
  {
    match step
    case Begin(p) =>
      if s.committing || Full(s) then
        s.(procs := s.procs[p := Asleep])
      else
        s.(outstanding := s.outstanding + 1, nextOp := s.nextOp + 1,
           procs := s.procs[p := InOp(s.nextOp, {}, false)])
    case Test(p) => s.(procs := s.procs[p := s.procs[p].(passed := true)])
    case Append(p, b, data) =>
      s.(mem := s.mem[b := data],
         lh := if b in s.lh then s.lh else s.lh + [b],
         procs := s.procs[p := InOp(s.procs[p].op, s.procs[p].wrote + {b}, false)],
         events := s.events + [Event(s.procs[p].op, b, data)])
    case End(p) =>
      if s.outstanding == 1 then
        s.(outstanding := 0, committing := true, job := CommitJob(r, s),
           procs := s.procs[p := Committer])
      else
        s.(outstanding := s.outstanding - 1, procs := WakeAll(s.procs[p := Outside]))
    case CommitWrite =>
      var w := s.job.writes[s.job.done];
      s.(disk := s.disk[w.blockno := w.data], mem := s.mem[w.blockno := w.data],
         job := Commit(s.job.base, s.job.from, s.job.writes, s.job.done + 1),
         durable := if s.job.done == |s.lh| then |s.events| else s.durable)
    case CommitDone(p) =>
      s.(lh := [], committing := false, job := Idle, procs := WakeAll(s.procs[p := Outside]))
    case Crash =>
      s.(lh := [], outstanding := 0, committing := false, mem := s.disk,
         job := Recovery(s.disk, RecoverWrites(r, s.disk), 0),
         procs := seq(|s.procs|, i => Outside), events := s.events[..s.durable])
    case RecoverWrite =>
      var w := s.job.writes[s.job.done];
      s.(disk := s.disk[w.blockno := w.data], job := Recovery(s.job.base, s.job.writes, s.job.done + 1))
    case RecoverDone =>
      s.(mem := s.disk, job := Idle)
  }

  predicate Init(r: Region, s: State) {
    && Fits(r, s.disk) && s.disk[r.start].words[0] == 0
    && s.mem == s.disk && s.lh == [] && s.outstanding == 0 && !s.committing && s.job == Idle
    && (forall i :: 0 <= i < |s.procs| ==> s.procs[i] == Outside)
    && s.events == [] && s.durable == 0
  }

  /** The steps lead from state to state. */
  predicate Chain(r: Region, states: seq<State>, steps: seq<Step>) {
    && |states| == |steps| + 1
    && forall i :: 0 <= i < |steps| ==> Enabled(r, states[i], steps[i]) && states[i + 1] == After(r, states[i], steps[i])
  }

  /** states[0], steps[0], states[1], ... is a run of the machine. */
  predicate Run(r: Region, states: seq<State>, steps: seq<Step>) {
    Chain(r, states, steps) && Init(r, states[0])
  }

  // What every step keeps: the disk.

  ghost predicate DiskInv(r: Region, init: Image, s: State) {
    && LayoutOk(r, s) && Inside(r, s) && |init| == |s.disk|
    && Shows(r, s.disk, Replay(init, s.events[..s.durable]))
    && (s.committing <==> s.job.Commit?)
    && (!s.job.Recovery? ==> HomeEq(r, s.mem, Replay(init, s.events)))
    && (s.lh == [] ==> s.durable == |s.events|)
    && (s.job.Idle? ==> Cleared(r, s.disk) && Untouched(r, s.mem, s.disk, s.lh))
    && (!s.job.Idle? ==> s.disk == Apply(s.job.base, s.job.writes[..s.job.done]))
    && (s.job.Commit? ==> CommitInv(r, init, s))
    && (s.job.Recovery? ==> RecoveryInv(r, init, s))
  }

  ghost predicate CommitInv(r: Region, init: Image, s: State)
    requires LayoutOk(r, s) && s.job.Commit? && |init| == |s.disk|
  {
    var base, from, done := s.job.base, s.job.from, s.job.done;
    && HomeEq(r, from, s.mem) && Inside(r, s) && s.job.writes == CommitWrites(r, base, s.lh, from)
    && Cleared(r, base) && Untouched(r, from, base, s.lh)
    && (done <= |s.lh| ==> HomeEq(r, base, Replay(init, s.events[..s.durable])))
    && (done > |s.lh| ==> s.durable == |s.events|)
  }

  ghost predicate RecoveryInv(r: Region, init: Image, s: State)
    requires LayoutOk(r, s) && s.job.Recovery? && |init| == |s.disk|
  {
    && Shows(r, s.job.base, Replay(init, s.events)) && s.durable == |s.events| && s.lh == []
    && s.job.writes == RecoverWrites(r, s.job.base)
  }

  /** Home blocks outside lh have the same contents in memory and on disk. */
  ghost predicate Untouched(r: Region, mem: Image, d: Image, lh: seq<int>) {
    |mem| == |d| && forall b :: Home(r, d, b) && b !in lh ==> mem[b] == d[b]
  }

  lemma ShowsTarget(r: Region, d: Image, t: Image, u: Image)
    requires Shows(r, d, t) && HomeEq(r, t, u)
    ensures Shows(r, d, u)
  {
  }

  /** Nothing about the disk depends on the processes. */
  lemma KeepProcs(r: Region, init: Image, s: State, t: State)
    requires DiskInv(r, init, s)
    requires t == s.(procs := t.procs, outstanding := t.outstanding, nextOp := t.nextOp)
    ensures DiskInv(r, init, t)
  {
  }

  lemma KeepEnd(r: Region, init: Image, s: State, p: nat)
    requires Enabled(r, s, End(p)) && DiskInv(r, init, s) && s.job.Idle?
    ensures DiskInv(r, init, After(r, s, End(p)))
  {
    var t := After(r, s, End(p));
    if s.outstanding == 1 {
      ShowsCleared(r, s.disk, Replay(init, s.events[..s.durable]));
      assert t.job.writes[..0] == [];
    } else {
      KeepProcs(r, init, s, t);
    }
  }

  lemma KeepAppend(r: Region, init: Image, s: State, step: Step)
    requires Enabled(r, s, step) && DiskInv(r, init, s) && step.Append? && s.job.Idle? && Inside(r, After(r, s, step))
    ensures DiskInv(r, init, After(r, s, step))
  {
    var t := After(r, s, step);
    assert t.events[..|t.events| - 1] == s.events;
    assert t.events[..t.durable] == s.events[..s.durable];
  }

  lemma CommittedShows(r: Region, d: Image, base: Image, mem: Image, lh: seq<int>, target: Image)
    requires Untouched(r, mem, base, lh) && Shows(r, d, Merge(base, lh, mem)) && HomeEq(r, mem, target)
    ensures Shows(r, d, target)
  {
    ShowsTarget(r, d, Merge(base, lh, mem), target);
  }

  /** Every prefix of the commit's writes shows the old history or the new one. */
  lemma PrefixShows(r: Region, base: Image, lh: seq<int>, mem: Image, before: Image, after: Image, done: nat)
    requires Cleared(r, base) && Loggable(r, base, lh) && Untouched(r, mem, base, lh)
    requires done <= |CommitWrites(r, base, lh, mem)|
    requires done <= |lh| ==> HomeEq(r, base, before)
    requires HomeEq(r, mem, after)
    ensures Shows(r, Apply(base, CommitWrites(r, base, lh, mem)[..done]), if done <= |lh| then before else after)
  {
    var d := Apply(base, CommitWrites(r, base, lh, mem)[..done]);
    CommitPrefix(r, base, lh, mem, done);
    if done <= |lh| {
      ShowsTarget(r, d, base, before);
    } else {
      CommittedShows(r, d, base, mem, lh, after);
    }
  }

  /** Writing the next block of the job in progress. */
  function Advance(s: State, durable: nat, mem: Image): State
    requires !s.job.Idle? && s.job.done < |s.job.writes| && InRange(s.disk, s.job.writes)
  {
    var w := s.job.writes[s.job.done];
    s.(disk := s.disk[w.blockno := w.data], mem := mem, job := s.job.(done := s.job.done + 1), durable := durable)
  }

  lemma AdvanceDisk(s: State, durable: nat, mem: Image)
    requires !s.job.Idle? && s.job.done < |s.job.writes| && InRange(s.disk, s.job.writes)
    requires |s.job.base| == |s.disk| && s.disk == Apply(s.job.base, s.job.writes[..s.job.done])
    ensures Advance(s, durable, mem).disk == Apply(s.job.base, s.job.writes[..s.job.done + 1])
  {
    ApplyNext(s.job.base, s.job.writes, s.job.done);
  }

  /** The header write, number |lh|, moves durable over every log_write so far. */
  lemma NextShows(r: Region, init: Image, base: Image, lh: seq<int>, mem: Image, events: seq<Event>, durable: nat, done: nat)
    requires Cleared(r, base) && Loggable(r, base, lh) && Untouched(r, mem, base, lh) && |init| == |base|
    requires done < |CommitWrites(r, base, lh, mem)| && durable <= |events|
    requires done <= |lh| ==> HomeEq(r, base, Replay(init, events[..durable]))
    requires done > |lh| ==> durable == |events|
    requires HomeEq(r, mem, Replay(init, events))
    ensures Shows(r, Apply(base, CommitWrites(r, base, lh, mem)[..done + 1]),
                  Replay(init, events[..if done == |lh| then |events| else durable]))
  {
    assert events[..|events|] == events;
    var before, after := Replay(init, events[..durable]), Replay(init, events);
    PrefixShows(r, base, lh, mem, before, after, done + 1);
    assert Replay(init, events[..if done == |lh| then |events| else durable])
        == if done + 1 <= |lh| then before else after;
  }

  lemma CommitShows(r: Region, init: Image, s: State)
    requires DiskInv(r, init, s) && s.job.Commit? && s.job.done < |s.job.writes|
    ensures var durable := if s.job.done == |s.lh| then |s.events| else s.durable;
            Shows(r, Apply(s.job.base, s.job.writes[..s.job.done + 1]), Replay(init, s.events[..durable]))
  {
    assert CommitInv(r, init, s);
    NextShows(r, init, s.job.base, s.lh, s.job.from, s.events, s.durable, s.job.done);
  }

  /** The write goes to the log region, or to a home block with what memory has for it. */
  predicate Carries(r: Region, mem: Image, w: Write) {
    0 <= w.blockno < |mem| && (!r.Holds(w.blockno) ==> w.data == mem[w.blockno])
  }

  lemma RecoverCarries(r: Region, base: Image, lh: seq<int>, from: Image, k: nat)
    requires Fits(r, base) && Loggable(r, base, lh) && |from| == |base|
    requires HeadOk(r, Committed(r, base, lh, from)) && k < |RecoverWrites(r, Committed(r, base, lh, from))|
    ensures Carries(r, from, RecoverWrites(r, Committed(r, base, lh, from))[k])
  {
    var e := Committed(r, base, lh, from);
    AtHead(r, base, lh, from);
    hide Shows, Committed;
    InstallsToward(r, e, Merge(base, lh, from));
    var ws := InstallWrites(r, e, lh);
    assert k < |ws| ==> ws[k].blockno == lh[k];
  }

  lemma FrontInRegion(r: Region, base: Image, lh: seq<int>, from: Image)
    requires Fits(r, base) && Loggable(r, base, lh) && |from| == |base|
    ensures var front := LogWrites(r, lh, from) + [HeadWrite(r, base, lh)];
            forall i :: 0 <= i < |front| ==> r.Holds(front[i].blockno)
  {
  }

  /** So do all writes of commit. */
  lemma CommitCarries(r: Region, base: Image, lh: seq<int>, from: Image, k: nat)
    requires Fits(r, base) && Loggable(r, base, lh) && |from| == |base| && k < |CommitWrites(r, base, lh, from)|
    ensures Carries(r, from, CommitWrites(r, base, lh, from)[k])
  {
    var front := LogWrites(r, lh, from) + [HeadWrite(r, base, lh)];
    FrontInRegion(r, base, lh, from);
    CommitAll(r, base, lh, from);
    hide LogWrites, HeadWrite, RecoverWrites, Committed, Apply, HeadOk;
    if k >= |front| {
      RecoverCarries(r, base, lh, from, k - |front|);
    }
  }

  lemma CommitMemory(r: Region, init: Image, s: State)
    requires DiskInv(r, init, s) && s.job.Commit? && s.job.done < |s.job.writes|
    ensures var w := s.job.writes[s.job.done]; 0 <= w.blockno < |s.mem| && HomeEq(r, s.mem[w.blockno := w.data], s.mem)
  {
    assert CommitInv(r, init, s);
    hide Shows, Replay, CommitWrites, Cleared, Untouched;
    CommitCarries(r, s.job.base, s.lh, s.job.from, s.job.done);
  }

  lemma KeepCommitWrite(r: Region, init: Image, s: State)
    requires Enabled(r, s, CommitWrite) && DiskInv(r, init, s)
    ensures DiskInv(r, init, After(r, s, CommitWrite))
  {
    var durable := if s.job.done == |s.lh| then |s.events| else s.durable;
    var w := s.job.writes[s.job.done];
    CommitMemory(r, init, s);
    var mem := s.mem[w.blockno := w.data];
    CommitShows(r, init, s);
    AdvanceDisk(s, durable, mem);
    assert After(r, s, CommitWrite) == Advance(s, durable, mem);
    hide DiskInv, Shows, Replay, HomeEq, After, Advance;
    CommitAdvance(r, init, s, durable, mem);
  }

  lemma HomeEqTrans(r: Region, d: Image, e: Image, f: Image)
    requires HomeEq(r, d, e) && (HomeEq(r, e, f) || HomeEq(r, f, e))
    ensures HomeEq(r, d, f) && HomeEq(r, f, d) && |d| == |e| == |f|
  {
  }

  lemma ShowsHead(r: Region, d: Image, target: Image)
    requires Shows(r, d, target)
    ensures Fits(r, d) && HeadOk(r, d) && |target| == |d|
  {
  }

  lemma SameHome(r: Region, d: Image, e: Image, blocks: seq<int>, ws: seq<Write>)
    requires |d| == |e|
    ensures AllHome(r, d, blocks) == AllHome(r, e, blocks) && InRange(d, ws) == InRange(e, ws)
  {
  }

  lemma CommitAdvance(r: Region, init: Image, s: State, durable: nat, mem: Image)
    requires DiskInv(r, init, s) && s.job.Commit? && s.job.done < |s.job.writes|
    requires durable == if s.job.done == |s.lh| then |s.events| else s.durable
    requires HomeEq(r, mem, s.mem)
    requires Shows(r, Advance(s, durable, mem).disk, Replay(init, s.events[..durable]))
    requires Advance(s, durable, mem).disk == Apply(s.job.base, s.job.writes[..s.job.done + 1])
    ensures DiskInv(r, init, Advance(s, durable, mem))
  {
    hide HomeEq, Shows, Replay, Untouched, CommitWrites, Apply, Cleared, HeadOk, Fits, AllHome, InRange;
    var t := Advance(s, durable, mem);
    ShowsHead(r, t.disk, Replay(init, s.events[..durable]));
    HomeEqTrans(r, mem, s.mem, Replay(init, s.events));
    HomeEqTrans(r, mem, s.mem, s.job.from);
    SameHome(r, s.disk, t.disk, s.lh, s.job.writes);
  }

  lemma ChainMore(r: Region, states: seq<State>, steps: seq<Step>, step: Step)
    requires Chain(r, states, steps) && Enabled(r, states[|steps|], step)
    ensures Chain(r, states + [After(r, states[|steps|], step)], steps + [step])
  {
    var states', steps' := states + [After(r, states[|steps|], step)], steps + [step];
    hide After, Enabled;
    forall i | 0 <= i < |steps'|
      ensures Enabled(r, states'[i], steps'[i]) && states'[i + 1] == After(r, states'[i], steps'[i])
    {
      assert states'[i] == states[i];
      if i < |steps| {
        assert steps'[i] == steps[i] && states'[i + 1] == states[i + 1];
      }
    }
  }

  /** t is s but for what commit's writes change. */
  predicate Committing(s: State, t: State) {
    && s.job.Commit? && t.job.Commit? && t.job.writes == s.job.writes && t.job.base == s.job.base
    && t == s.(disk := t.disk, mem := t.mem, job := t.job, durable := t.durable)
  }

  /** commit goes on to its last write. */
  lemma {:induction false} Drain(r: Region, init: Image, s: State, n: nat) returns (states: seq<State>, steps: seq<Step>)
    requires DiskInv(r, init, s) && s.job.Commit? && n <= |s.job.writes| - s.job.done
    ensures Chain(r, states, steps) && |steps| == n && states[0] == s && forall i :: 0 <= i < n ==> steps[i] == CommitWrite
    ensures DiskInv(r, init, states[n]) && Committing(s, states[n]) && states[n].job.done == s.job.done + n
  {
    hide DiskInv, After, Enabled;
    if n == 0 {
      states, steps := [s], [];
    } else {
      states, steps := Drain(r, init, s, n - 1);
      var t := states[n - 1];
      DrainOne(r, init, s, t);
      hide Committing;
      ChainMore(r, states, steps, CommitWrite);
      states, steps := states + [After(r, t, CommitWrite)], steps + [CommitWrite];
    }
  }

  lemma DrainOne(r: Region, init: Image, s: State, t: State)
    requires DiskInv(r, init, t) && Committing(s, t) && t.job.done < |t.job.writes|
    ensures Enabled(r, t, CommitWrite) && DiskInv(r, init, After(r, t, CommitWrite)) && Committing(s, After(r, t, CommitWrite))
    ensures After(r, t, CommitWrite).job.done == t.job.done + 1
  {
    hide Shows, Replay, HomeEq, Untouched, CommitInv, Cleared, CommitWrites;
    KeepCommitWrite(r, init, t);
  }

  /** What commit writes depends on the home blocks in memory only. */
  lemma SameCommit(r: Region, d: Image, blocks: seq<int>, mem: Image, mem': Image)
    requires Fits(r, d) && Loggable(r, d, blocks) && |mem| == |d| && HomeEq(r, mem, mem')
    ensures CommitWrites(r, d, blocks, mem) == CommitWrites(r, d, blocks, mem')
  {
    assert LogWrites(r, blocks, mem) == LogWrites(r, blocks, mem');
  }

  lemma CommitDurable(r: Region, init: Image, s: State)
    requires DiskInv(r, init, s) && s.job.Commit? && s.job.done == |s.job.writes|
    ensures s.durable == |s.events|
  {
    assert CommitInv(r, init, s);
    hide Shows, Replay, Apply, Untouched, HomeEq, Cleared;
    assert |s.job.writes| == if s.lh == [] then 0 else 2 * |s.lh| + 2;
  }

  lemma CommitSettled(r: Region, init: Image, s: State)
    requires DiskInv(r, init, s) && s.job.Commit? && s.job.done == |s.job.writes|
    ensures s.durable == |s.events| && Cleared(r, s.disk) && Untouched(r, s.mem, s.disk, [])
  {
    CommitDurable(r, init, s);
    assert CommitInv(r, init, s) && s.events[..|s.events|] == s.events;
    hide CommitWrites, Apply, Replay, HeadOk;
    CommitPrefix(r, s.job.base, s.lh, s.job.from, s.job.done);
    ShowsCleared(r, s.disk, Replay(init, s.events));
    HomeEqTrans(r, s.mem, Replay(init, s.events), s.disk);
  }

  lemma NoneHome(r: Region, d: Image)
    ensures AllHome(r, d, [])
  {
  }

  lemma KeepCommitDone(r: Region, init: Image, s: State, p: nat)
    requires Enabled(r, s, CommitDone(p)) && DiskInv(r, init, s)
    ensures DiskInv(r, init, After(r, s, CommitDone(p)))
  {
    hide CommitWrites, Apply, Replay, HeadOk, WakeAll, Shows, HomeEq, Cleared, Untouched, CommitInv, InRange, AllHome;
    CommitSettled(r, init, s);
    assert AllHome(r, s.disk, []) by {
      NoneHome(r, s.disk);
    }
  }

  lemma KeepCrash(r: Region, init: Image, s: State)
    requires Enabled(r, s, Crash) && DiskInv(r, init, s)
    ensures DiskInv(r, init, After(r, s, Crash))
  {
    var t := After(r, s, Crash);
    assert t.events[..t.durable] == t.events;
    assert t.job.writes[..0] == [];
  }

  lemma RecoverAdvance(r: Region, init: Image, s: State)
    requires DiskInv(r, init, s) && s.job.Recovery? && s.job.done < |s.job.writes|
    requires Shows(r, Advance(s, s.durable, s.mem).disk, Replay(init, s.events[..s.durable]))
    requires Advance(s, s.durable, s.mem).disk == Apply(s.job.base, s.job.writes[..s.job.done + 1])
    ensures DiskInv(r, init, Advance(s, s.durable, s.mem))
  {
    var t := Advance(s, s.durable, s.mem);
    assert LayoutOk(r, t);
    assert RecoveryInv(r, init, t);
  }

  lemma KeepRecoverWrite(r: Region, init: Image, s: State)
    requires Enabled(r, s, RecoverWrite) && DiskInv(r, init, s)
    ensures DiskInv(r, init, After(r, s, RecoverWrite))
  {
    assert RecoveryInv(r, init, s);
    assert s.events[..s.durable] == s.events;
    AdvanceDisk(s, s.durable, s.mem);
    RecoveryPrefix(r, s.job.base, Replay(init, s.events), s.job.done + 1);
    RecoverAdvance(r, init, s);
  }

  lemma KeepRecoverDone(r: Region, init: Image, s: State)
    requires Enabled(r, s, RecoverDone) && DiskInv(r, init, s)
    ensures DiskInv(r, init, After(r, s, RecoverDone))
  {
    assert s.events[..s.durable] == s.events;
    RecoveryPrefix(r, s.job.base, Replay(init, s.events), s.job.done);
    ShowsCleared(r, s.disk, Replay(init, s.events));
  }
}
