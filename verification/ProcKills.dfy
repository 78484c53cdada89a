/**
  Who is killed, over all runs of the process table (proc.c): kill() goes by the
  pid of an entry, whether it is in use or not, and allocproc() does not clear
  the mark, so a process can be born killed.
 */
module ProcKills {
  import opened ProcTable
  import opened ProcRuns

  // A wait() gives entry q back, blank.
  predicate Blanks(step: Step, q: nat) {
    step.WaitReaps? && step.q == q
  }

  // Before step i, a kill() has hit entry q since it was last blanked.
  ghost predicate Marked(steps: seq<Step>, i: nat, q: nat)
    requires i <= |steps|
  {
    exists j :: 0 <= j < i && steps[j].Kill? && steps[j].q == q && forall k :: j < k < i ==> !Blanks(steps[k], q)
  }

  lemma KilledNext(s: State, step: Step, q: nat)
    requires Enabled(s, step) && TableInv(s) && q < |s.procs|
    ensures |After(s, step).procs| == |s.procs|
    ensures After(s, step).procs[q].killed
            <==> (step.Kill? && step.q == q) || (s.procs[q].killed && !Blanks(step, q))
  {
    assert Sound(s.procs, step.p);
    if step.Exit? {
      ExitedAt(s.procs, step.p, s.init, q);
      hide Exited;
    }
  }

  lemma {:induction false} SameLength(states: seq<State>, steps: seq<Step>, i: nat)
    requires Run(states, steps) && i < |states|
    ensures |states[i].procs| == |states[0].procs|
  {
    if i > 0 {
      SameLength(states, steps, i - 1);
      RunInv(states, steps, i - 1);
      RunInv(states, steps, i);
      KilledNext(states[i - 1], steps[i - 1], states[i - 1].init);
    }
  }

  lemma MarkedNext(steps: seq<Step>, i: nat, q: nat)
    requires i < |steps|
    ensures Marked(steps, i + 1, q) <==> (steps[i].Kill? && steps[i].q == q) || (Marked(steps, i, q) && !Blanks(steps[i], q))
  {
    if Marked(steps, i, q) && !Blanks(steps[i], q) {
      var j :| 0 <= j < i && steps[j].Kill? && steps[j].q == q && forall k :: j < k < i ==> !Blanks(steps[k], q);
      assert steps[j].Kill?;
    }
    if steps[i].Kill? && steps[i].q == q {
      assert Marked(steps, i + 1, q);
    }
  }

  lemma Unmarked(states: seq<State>, steps: seq<Step>, q: nat)
    requires Run(states, steps) && q < |states[0].procs|
    ensures !states[0].procs[q].killed && !Marked(steps, 0, q)
  {
  }

  /** An entry is marked exactly if a kill() has hit it since it was last blanked. */
  lemma {:induction false} KilledIff(states: seq<State>, steps: seq<Step>, i: nat, q: nat)
    requires Run(states, steps) && i < |states| && q < |states[0].procs|
    ensures q < |states[i].procs| && (states[i].procs[q].killed <==> Marked(steps, i, q))
  {
    hide TableInv, WaitInv, PidInv, After, Enabled, Marked, Blanks, Init;
    if i == 0 {
      Unmarked(states, steps, q);
    } else {
      SameLength(states, steps, i);
      KilledIff(states, steps, i - 1, q);
      RunInv(states, steps, i - 1);
      KilledNext(states[i - 1], steps[i - 1], q);
      MarkedNext(steps, i - 1, q);
    }
  }

  /**
    A process is born killed exactly if a kill() has hit its entry since a wait()
    last gave the entry back: allocproc() leaves the mark.
   */
  lemma BornKilled(states: seq<State>, steps: seq<Step>, i: nat)
    requires Run(states, steps) && i < |steps| && steps[i].Alloc?
    ensures var q := steps[i].q;
            && q < |states[i + 1].procs| && states[i + 1].procs[q].status == Embryo
            && (states[i + 1].procs[q].killed <==> Marked(steps, i, q))
  {
    SameLength(states, steps, i);
    KilledIff(states, steps, i, steps[i].q);
    hide Marked;
    assert Enabled(states[i], steps[i]) && states[i + 1] == After(states[i], steps[i]);
  }

  /**
    kill() wakes: the entry it hits is marked and does not sleep; it can be picked
    by the scheduler exactly if it slept or could be picked before; every other
    entry stays as it is.
   */
  lemma KillWakes(states: seq<State>, steps: seq<Step>, i: nat)
    requires Run(states, steps) && i < |steps| && steps[i].Kill?
    ensures var q, before, after := steps[i].q, states[i].procs, states[i + 1].procs;
            && q < |before| == |after| && after[q].killed && after[q].status != Sleeping
            && (after[q].status == Runnable <==> before[q].status == Sleeping || before[q].status == Runnable)
            && (before[q].status != Sleeping ==> after[q].status == before[q].status)
            && after[q].pid == before[q].pid && after[q].parent == before[q].parent
            && forall j :: 0 <= j < |before| && j != q ==> after[j] == before[j]
  {
    assert Enabled(states[i], steps[i]) && states[i + 1] == After(states[i], steps[i]);
  }

  // Entry p does not sleep in wait() with the mark of a kill().
  ghost predicate Attentive(t: Table, p: nat)
    requires p < |t|
  {
    SleepsOn(t[p], OnProc(p)) ==> !t[p].killed
  }

  lemma KeepAttentive(s: State, step: Step, q: nat)
    requires Enabled(s, step) && q < |s.procs| && Attentive(s.procs, q)
    ensures |After(s, step).procs| == |s.procs| && Attentive(After(s, step).procs, q)
  {
    if step.Exit? {
      ExitedAt(s.procs, step.p, s.init, q);
      hide Exited;
    }
  }

  /** Nobody sleeps in wait() while marked killed. */
  lemma {:induction false} NoKilledWaiter(states: seq<State>, steps: seq<Step>, i: nat, p: nat)
    requires Run(states, steps) && i < |states| && p < |states[0].procs|
    ensures p < |states[i].procs| && (SleepsOn(states[i].procs[p], OnProc(p)) ==> !states[i].procs[p].killed)
  {
    if i > 0 {
      NoKilledWaiter(states, steps, i - 1, p);
      hide After, Enabled, Init;
      KeepAttentive(states[i - 1], steps[i - 1], p);
    }
  }

  // Pids of entries that are not in use.

  // step is the failing fork() that gives entry q back.
  predicate Leaves(s: State, step: Step, q: nat) {
    step.ForkFails? && step.p < |s.procs| && s.procs[step.p].phase == Forking(q)
  }

  // Before step i, entry q was given back by a failing fork() and has not been taken since.
  ghost predicate Stale(states: seq<State>, steps: seq<Step>, i: nat, q: nat)
    requires i <= |steps| < |states|
  {
    exists j :: 0 <= j < i && Leaves(states[j], steps[j], q) && forall k :: j < k < i ==> !Takes(steps[k], q)
  }

  predicate Takes(step: Step, q: nat) {
    step.Alloc? && step.q == q
  }

  lemma StaleNext(states: seq<State>, steps: seq<Step>, i: nat, q: nat)
    requires i < |steps| < |states|
    ensures Stale(states, steps, i + 1, q)
            <==> Leaves(states[i], steps[i], q) || (Stale(states, steps, i, q) && !Takes(steps[i], q))
  {
    if Stale(states, steps, i, q) && !Takes(steps[i], q) {
      var j :| 0 <= j < i && Leaves(states[j], steps[j], q) && forall k :: j < k < i ==> !Takes(steps[k], q);
      assert Leaves(states[j], steps[j], q);
    }
    if Leaves(states[i], steps[i], q) {
      assert Stale(states, steps, i + 1, q);
    }
  }

  // Pids start at 1, and entry q, if it is not in use, has a pid only if it is stale.
  ghost predicate Pidded(s: State, q: nat, stale: bool)
    requires q < |s.procs|
  {
    && s.nextpid >= 2 && (s.procs[q].status != Unused ==> s.procs[q].pid >= 1)
    && (stale <==> s.procs[q].status == Unused && s.procs[q].pid != 0)
  }

  lemma PiddedNext(s: State, step: Step, q: nat, stale: bool)
    requires Enabled(s, step) && TableInv(s) && q < |s.procs| && Pidded(s, q, stale)
    ensures |After(s, step).procs| == |s.procs|
    ensures Pidded(After(s, step), q, Leaves(s, step, q) || (stale && !Takes(step, q)))
  {
    assert Sound(s.procs, step.p) && Sound(s.procs, q);
    if step.Exit? {
      ExitedAt(s.procs, step.p, s.init, q);
      hide Exited;
    }
  }

  lemma FirstPids(states: seq<State>, steps: seq<Step>, q: nat)
    requires Run(states, steps) && q < |states[0].procs|
    ensures Pidded(states[0], q, Stale(states, steps, 0, q))
  {
  }

  lemma {:induction false} PidsOfUnused(states: seq<State>, steps: seq<Step>, i: nat, q: nat)
    requires Run(states, steps) && i < |states| && q < |states[0].procs|
    ensures q < |states[i].procs| && Pidded(states[i], q, Stale(states, steps, i, q))
  {
    hide TableInv, WaitInv, PidInv, After, Enabled, Stale, Leaves, Takes, Init, Pidded;
    if i == 0 {
      FirstPids(states, steps, q);
    } else {
      SameLength(states, steps, i);
      PidsOfUnused(states, steps, i - 1, q);
      RunInv(states, steps, i - 1);
      PiddedNext(states[i - 1], steps[i - 1], q, Stale(states, steps, i - 1, q));
      StaleNext(states, steps, i - 1, q);
    }
  }

  /**
    kill() hits an entry that is not in use exactly for pid 0, or for the pid of a
    fork() that failed and whose entry has not been taken since.
   */
  lemma KillUnused(states: seq<State>, steps: seq<Step>, i: nat)
    requires Run(states, steps) && i < |steps| && steps[i].Kill?
    ensures var q := steps[i].q;
            && q < |states[i].procs|
            && (states[i].procs[q].status == Unused <==> states[i].procs[q].pid == 0 || Stale(states, steps, i, q))
  {
    SameLength(states, steps, i);
    assert Enabled(states[i], steps[i]);
    PidsOfUnused(states, steps, i, steps[i].q);
    hide Stale;
  }

  // The runs on which it happens, in a table of two entries.

  lemma RunMore(states: seq<State>, steps: seq<Step>, step: Step) returns (states': seq<State>, steps': seq<Step>)
    requires Run(states, steps) && Enabled(states[|steps|], step)
    ensures Run(states', steps') && |steps'| == |steps| + 1 == |states'| - 1 && states <= states' && steps' == steps + [step]
    ensures states'[|steps'|] == After(states[|steps|], step)
  {
    states', steps' := states + [After(states[|steps|], step)], steps + [step];
    hide Enabled, After, Init;
    forall i | 0 <= i < |steps'|
      ensures Enabled(states'[i], steps'[i]) && states'[i + 1] == After(states'[i], steps'[i])
    {
      assert states'[i] == states[i];
      if i < |steps| {
        assert steps'[i] == steps[i] && states'[i + 1] == states[i + 1];
      }
    }
  }

  // init runs, and is doing nothing else; the other entry is e.
  ghost predicate Two(states: seq<State>, steps: seq<Step>, e: Entry, nextpid: nat) {
    && |states| == |steps| + 1 && Run(states, steps)
    && var s := states[|steps|];
    && s.init == 0 && s.nextpid == nextpid && s.procs == [Blank().(status := Running, pid := 1), e]
  }

  lemma Started() returns (states: seq<State>, steps: seq<Step>)
    ensures Two(states, steps, Blank(), 2) && |steps| == 1
  {
    var s := State([Blank().(status := Runnable, pid := 1), Blank()], 0, 2, map[1 := 0], {}, {});
    assert Init(s) && Run([s], []);
    states, steps := RunMore([s], [], Schedule(0));
  }

  lemma Fork(states: seq<State>, steps: seq<Step>, e: Entry, n: nat) returns (states': seq<State>, steps': seq<Step>)
    requires Two(states, steps, e, n) && e.status == Unused && e.parent == NOBODY
    ensures Two(states', steps', e.(status := Runnable, pid := n, parent := 0, maker := 0), n + 1)
    ensures states <= states' && steps <= steps'
  {
    hide Run;
    states', steps' := RunMore(states, steps, Alloc(0, 1));
    states', steps' := RunMore(states', steps', SetParent(0));
    states', steps' := RunMore(states', steps', ForkEnds(0));
  }

  lemma FailedFork(states: seq<State>, steps: seq<Step>, e: Entry, n: nat) returns (states': seq<State>, steps': seq<Step>)
    requires Two(states, steps, e, n) && e.status == Unused && e.parent == NOBODY
    ensures Two(states', steps', e.(pid := n, maker := NOBODY), n + 1) && |steps'| == |steps| + 2 && steps'[|steps| + 1] == ForkFails(0)
    ensures states <= states' && steps <= steps'
  {
    hide Run;
    states', steps' := RunMore(states, steps, Alloc(0, 1));
    states', steps' := RunMore(states', steps', ForkFails(0));
  }

  lemma KillOther(states: seq<State>, steps: seq<Step>, e: Entry, n: nat) returns (states': seq<State>, steps': seq<Step>)
    requires Two(states, steps, e, n) && e.status == Unused && e.pid != 1
    ensures Two(states', steps', e.(killed := true), n) && |steps'| == |steps| + 1 && steps'[|steps|] == Kill(0, 1)
    ensures states <= states' && steps <= steps'
  {
    hide Run;
    states', steps' := RunMore(states, steps, Kill(0, 1));
  }

  /** kill(0), then fork(): the child is runnable and killed. */
  lemma KillZero() returns (states: seq<State>, steps: seq<Step>, e: Entry)
    ensures Two(states, steps, e, 3) && e.status == Runnable && e.killed && e.pid == 2
    ensures |steps| > 1 && steps[1] == Kill(0, 1) && |states[1].procs| == 2 && states[1].procs[1].pid == 0
  {
    states, steps := Started();
    ghost var one := states;
    states, steps := KillOther(states, steps, Blank(), 2);
    e := Blank().(killed := true);
    ghost var two := steps;
    states, steps := Fork(states, steps, e, 2);
    e := e.(status := Runnable, pid := 2, parent := 0, maker := 0);
    assert states[1] == one[1] && steps[1] == two[1];
  }

  /** A fork() that fails, a kill() of its pid, and the next child in the entry is runnable and killed. */
  lemma KillStale() returns (states: seq<State>, steps: seq<Step>, e: Entry)
    ensures Two(states, steps, e, 4) && e.status == Runnable && e.killed && e.pid == 3
    ensures |steps| > 3 && steps[2] == ForkFails(0) && steps[3] == Kill(0, 1)
    ensures |states[3].procs| == 2 && states[3].procs[1].status == Unused && states[3].procs[1].pid == 2
  {
    states, steps := Started();
    states, steps := FailedFork(states, steps, Blank(), 2);
    e := Blank().(pid := 2);
    ghost var three := states;
    states, steps := KillOther(states, steps, e, 3);
    e := e.(killed := true);
    ghost var four := steps;
    states, steps := Fork(states, steps, e, 3);
    e := e.(status := Runnable, pid := 3, parent := 0, maker := 0);
    assert states[3] == three[3] && steps[3] == four[3] && steps[2] == four[2];
  }
}
