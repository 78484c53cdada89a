/**
  All runs of the process table: no process has a dead parent, no zombie child
  is missed by a sleeping waiter, and nobody is reaped twice (proc.c).
 */
module ProcRuns {
  import opened ProcTable

  // slot: where each pid in use is; exited, reaped: what has happened so far.
  datatype State = State(procs: Table, init: nat, nextpid: nat, slot: map<nat, nat>, exited: set<nat>, reaped: set<nat>)

  datatype Step =
    | Alloc(p: nat, q: nat)      // allocproc() in the fork() of p
    | ForkFails(p: nat)          // fork() gives the embryo back
    | SetParent(p: nat)          // np->parent = curproc, outside ptable.lock
    | ForkEnds(p: nat)           // the child becomes runnable
    | Exit(p: nat)
    | WaitReaps(p: nat, q: nat)  // a pass of wait() that finds a zombie
    | WaitGivesUp(p: nat)
    | WaitSleeps(p: nat)
    | Sleep(p: nat, n: nat)      // sleep() outside wait()
    | Wakeup(p: nat, n: nat)
    | Kill(p: nat, q: nat)       // kill() of the pid of entry q, the first entry with that pid
    | Schedule(p: nat)           // scheduler() picks p
    | Yield(p: nat)

  predicate Alive(e: Entry) {
    e.status == Sleeping || e.status == Runnable || e.status == Running
  }

  ghost predicate Enabled(s: State, step: Step) {
    && step.p < |s.procs|
    && var e := s.procs[step.p];
       match step
       case Alloc(p, q) => e.status == Running && e.phase == Free && q < |s.procs| && s.procs[q].status == Unused
       case ForkFails(p) => e.phase.Forking? && Alive(e) && e.phase.child < |s.procs| && s.procs[e.phase.child].parent != p
       case SetParent(p) => e.phase.Forking? && Alive(e) && e.phase.child < |s.procs|
       case ForkEnds(p) => e.phase.Forking? && Alive(e) && e.phase.child < |s.procs| && s.procs[e.phase.child].parent == p
       case Exit(p) => e.status == Running && e.phase == Free && p != s.init
       case WaitReaps(p, q) => e.status == Running && !e.phase.Forking? && ZombieAt(s.procs, p, q)
       case WaitGivesUp(p) =>
         e.status == Running && !e.phase.Forking? && !ZombieChild(s.procs, p) && (!HasChild(s.procs, p) || e.killed)
       case WaitSleeps(p) =>
         e.status == Running && !e.phase.Forking? && !ZombieChild(s.procs, p) && HasChild(s.procs, p) && !e.killed
       case Sleep(p, n) => e.status == Running && e.phase != Waiting
       case Wakeup(p, n) => e.status == Running
       case Kill(p, q) => e.status == Running && FirstWith(s.procs, q)
       case Schedule(p) => e.status == Runnable
       case Yield(p) => e.status == Running && e.phase != Waiting
  }

  function After(s: State, step: Step): (t: State)
    requires Enabled(s, step)
  {
    var p := step.p;
    var e := s.procs[p];
    match step
    case Alloc(_, q) =>
      s.(procs := Alloced(s.procs, p, q, s.nextpid), nextpid := s.nextpid + 1, slot := s.slot[s.nextpid := q])
    case ForkFails(_) => s.(procs := Abandoned(s.procs, p, e.phase.child))
    case SetParent(_) => s.(procs := s.procs[e.phase.child := s.procs[e.phase.child].(parent := p)])
    case ForkEnds(_) =>
      s.(procs := s.procs[e.phase.child := s.procs[e.phase.child].(status := Runnable)][p := e.(phase := Free)])
    case Exit(_) => s.(procs := Exited(s.procs, p, s.init), exited := s.exited + {e.pid})
    case WaitReaps(_, q) => s.(procs := Reap(s.procs, p, q), reaped := s.reaped + {s.procs[q].pid})
    case WaitGivesUp(_) => s.(procs := GiveUp(s.procs, p))
    case WaitSleeps(_) => s.(procs := WaitAsleep(s.procs, p))
    case Sleep(_, n) => s.(procs := s.procs[p := e.(status := Sleeping, chan := Other(n))])
    case Wakeup(_, n) => s.(procs := WokenOn(s.procs, Other(n)))
    case Kill(_, q) => s.(procs := Killed(s.procs, q))
    case Schedule(_) => s.(procs := s.procs[p := e.(status := Running, chan := NoChan)])
    case Yield(_) => s.(procs := s.procs[p := e.(status := Runnable)])
  }

  // Only init runs at first.
  ghost predicate Init(s: State) {
    && s.init < |s.procs| && s.procs[s.init] == Blank().(status := Runnable, pid := 1)
    && (forall i :: 0 <= i < |s.procs| && i != s.init ==> s.procs[i] == Blank())
    && s.nextpid == 2 && s.slot == map[1 := s.init] && s.exited == {} && s.reaped == {}
  }

  ghost predicate Run(states: seq<State>, steps: seq<Step>) {
    && |states| == |steps| + 1 && Init(states[0])
    && forall i :: 0 <= i < |steps| ==> Enabled(states[i], steps[i]) && states[i + 1] == After(states[i], steps[i])
  }

  // Entry i of a table with n entries by itself.
  ghost predicate Sound(t: Table, i: nat)
    requires i < |t|
  {
    var e := t[i];
    && (e.status == Unused ==> e.parent == NOBODY)
    && (!Alive(e) ==> e.phase == Free)
    && (e.phase.Forking? ==> e.phase.child < |t| && t[e.phase.child].status == Embryo && t[e.phase.child].maker == i)
    && (e.status == Embryo ==> 0 <= e.maker < |t| && t[e.maker].phase == Forking(i) && (e.parent == NOBODY || e.parent == e.maker))
    && (e.status == Sleeping && e.chan.OnProc? ==> e.chan.p == i && e.phase == Waiting)
  }

  // The parent of entry i is alive.
  ghost predicate Parented(t: Table, i: nat)
    requires i < |t|
  {
    t[i].parent == NOBODY || (0 <= t[i].parent < |t| && t[i].parent != i && Alive(t[t[i].parent]))
  }

  // If entry i is asleep in wait(), it has no zombie child.
  ghost predicate Attended(t: Table, i: nat)
    requires i < |t|
  {
    SleepsOn(t[i], OnProc(i)) ==> !ZombieChild(t, i)
  }

  ghost predicate TableInv(s: State) {
    && s.init < |s.procs| && Alive(s.procs[s.init]) && s.procs[s.init].parent == NOBODY
    && forall i: nat :: i < |s.procs| ==> Sound(s.procs, i) && Parented(s.procs, i)
  }

  ghost predicate WaitInv(s: State) {
    forall i: nat :: i < |s.procs| ==> Attended(s.procs, i)
  }

  ghost predicate Numbered(s: State, i: nat)
    requires i < |s.procs|
  {
    var e := s.procs[i];
    && (e.status != Unused ==> e.pid < s.nextpid && e.pid in s.slot && s.slot[e.pid] == i && e.pid !in s.reaped)
    && (e.status == Zombie ==> e.pid in s.exited)
  }

  ghost predicate PidInv(s: State) {
    && (forall i: nat :: i < |s.procs| ==> Numbered(s, i))
    && (forall pid :: pid in s.reaped ==> pid < s.nextpid && pid in s.exited)
  }

  /** Entry i behind exit() of c: exactly the sleeping parent, and init for an inherited zombie, are woken. */
  lemma ExitedAt(t: Table, c: nat, init: nat, i: nat)
    requires c < |t| && i < |t|
    ensures var e, r := t[i], Exited(t, c, init)[i];
            && r == e.(status := r.status, parent := r.parent)
            && r.parent == (if e.parent == c then init else e.parent)
            && (i == c ==> r.status == Zombie)
            && (i != c ==> r.status == if SleepsOn(e, ChanOf(t[c].parent)) || (ZombieChild(t, c) && SleepsOn(e, OnProc(init)))
                                       then Runnable else e.status)
  {
    var woken := WokenOn(t, ChanOf(t[c].parent));
    if ZombieChild(t, c) {
      var z :| 0 <= z < |t| && ZombieAt(t, c, z);
      assert ZombieAt(woken, c, z);
    } else if ZombieChild(woken, c) {
      var z :| 0 <= z < |t| && ZombieAt(woken, c, z);
      assert ZombieAt(t, c, z);
    }
  }

  lemma ExitSound(s: State, c: nat, i: nat)
    requires Enabled(s, Exit(c)) && TableInv(s) && i < |s.procs|
    ensures Sound(Exited(s.procs, c, s.init), i) && Parented(Exited(s.procs, c, s.init), i)
  {
    hide Exited;
    var t := s.procs;
    ExitedAt(t, c, s.init, i);
    ExitedAt(t, c, s.init, c);
    ExitedAt(t, c, s.init, s.init);
    assert Sound(t, i) && Parented(t, i) && Sound(t, c);
    if t[i].phase.Forking? {
      ExitedAt(t, c, s.init, t[i].phase.child);
    }
    if t[i].status == Embryo {
      ExitedAt(t, c, s.init, t[i].maker);
    }
    if t[i].parent != NOBODY {
      ExitedAt(t, c, s.init, t[i].parent);
    }
  }

  predicate ForkStep(step: Step) {
    step.Alloc? || step.ForkFails? || step.SetParent? || step.ForkEnds?
  }

  lemma KeepSoundAlloc(s: State, step: Step, i: nat)
    requires Enabled(s, step) && step.Alloc? && TableInv(s) && i < |s.procs|
    ensures |After(s, step).procs| == |s.procs| && Sound(After(s, step).procs, i)
  {
    var t, p := s.procs, step.p;
    assert Sound(t, i) && Sound(t, p) && Sound(t, step.q);
    if t[i].status == Embryo {
      assert Sound(t, t[i].maker);
    }
  }

  lemma KeepSoundFails(s: State, step: Step, i: nat)
    requires Enabled(s, step) && step.ForkFails? && TableInv(s) && i < |s.procs|
    ensures |After(s, step).procs| == |s.procs| && Sound(After(s, step).procs, i)
  {
    var t, p := s.procs, step.p;
    assert Sound(t, i) && Sound(t, p) && Sound(t, t[p].phase.child);
    if t[i].status == Embryo {
      assert Sound(t, t[i].maker);
    }
  }

  lemma KeepSoundSet(s: State, step: Step, i: nat)
    requires Enabled(s, step) && (step.SetParent? || step.ForkEnds?) && TableInv(s) && i < |s.procs|
    ensures |After(s, step).procs| == |s.procs| && Sound(After(s, step).procs, i)
  {
    var t, p := s.procs, step.p;
    assert Sound(t, i) && Sound(t, p) && Sound(t, t[p].phase.child);
    if t[i].status == Embryo {
      assert Sound(t, t[i].maker);
    }
  }

  lemma KeepSoundFork(s: State, step: Step, i: nat)
    requires Enabled(s, step) && ForkStep(step) && TableInv(s) && i < |s.procs|
    ensures |After(s, step).procs| == |s.procs| && Sound(After(s, step).procs, i)
  {
    hide After, Enabled, TableInv, Sound;
    if step.Alloc? {
      KeepSoundAlloc(s, step, i);
    } else if step.ForkFails? {
      KeepSoundFails(s, step, i);
    } else {
      KeepSoundSet(s, step, i);
    }
  }

  predicate WaitStep(step: Step) {
    step.WaitReaps? || step.WaitGivesUp? || step.WaitSleeps?
  }

  lemma KeepSoundWait(s: State, step: Step, i: nat)
    requires Enabled(s, step) && WaitStep(step) && TableInv(s) && i < |s.procs|
    ensures |After(s, step).procs| == |s.procs| && Sound(After(s, step).procs, i)
  {
    var t, p := s.procs, step.p;
    assert Sound(t, i) && Sound(t, p);
    if step.WaitReaps? {
      assert Sound(t, step.q);
    }
  }

  lemma KeepSoundRest(s: State, step: Step, i: nat)
    requires Enabled(s, step) && !ForkStep(step) && !WaitStep(step) && !step.Exit? && TableInv(s) && i < |s.procs|
    ensures |After(s, step).procs| == |s.procs| && Sound(After(s, step).procs, i)
  {
    assert Sound(s.procs, i) && Sound(s.procs, step.p);
  }

  lemma KeepSoundOther(s: State, step: Step, i: nat)
    requires Enabled(s, step) && !ForkStep(step) && !step.Exit? && TableInv(s) && i < |s.procs|
    ensures |After(s, step).procs| == |s.procs| && Sound(After(s, step).procs, i)
  {
    hide After, Enabled, TableInv, Sound;
    if WaitStep(step) {
      KeepSoundWait(s, step, i);
    } else {
      KeepSoundRest(s, step, i);
    }
  }

  lemma KeepParented(s: State, step: Step, i: nat)
    requires Enabled(s, step) && !step.Exit? && TableInv(s) && i < |s.procs|
    ensures |After(s, step).procs| == |s.procs| && Parented(After(s, step).procs, i)
  {
    var t, p := s.procs, step.p;
    assert Parented(t, i) && Sound(t, p) && Parented(t, p);
  }

  lemma KeepTable(s: State, step: Step)
    requires Enabled(s, step) && TableInv(s)
    ensures TableInv(After(s, step))
  {
    var t := After(s, step);
    assert Alive(t.procs[t.init]) && t.procs[t.init].parent == NOBODY by {
      assert Sound(s.procs, s.init) && Sound(s.procs, step.p);
      if step.Exit? {
        ExitedAt(s.procs, step.p, s.init, s.init);
      }
    }
    forall i: nat | i < |t.procs|
      ensures Sound(t.procs, i) && Parented(t.procs, i)
    {
      if step.Exit? {
        ExitSound(s, step.p, i);
      } else {
        if ForkStep(step) {
          KeepSoundFork(s, step, i);
        } else {
          KeepSoundOther(s, step, i);
        }
        KeepParented(s, step, i);
      }
    }
  }

  // Only exit() makes zombies.
  lemma NoNewZombie(s: State, step: Step, c: nat, z: nat)
    requires Enabled(s, step) && !step.Exit? && TableInv(s) && z < |s.procs| && ZombieAt(After(s, step).procs, c, z)
    ensures ZombieAt(s.procs, c, z)
  {
    assert Sound(s.procs, step.p) && Sound(s.procs, z);
  }

  // Nobody but the process itself goes to sleep in wait().
  lemma AsleepBefore(s: State, step: Step, i: nat)
    requires Enabled(s, step) && !step.Exit? && TableInv(s) && i < |s.procs| && !(step.WaitSleeps? && step.p == i)
    requires |After(s, step).procs| == |s.procs| && SleepsOn(After(s, step).procs[i], OnProc(i))
    ensures SleepsOn(s.procs[i], OnProc(i))
  {
    assert Sound(s.procs, step.p);
  }

  lemma KeepAttended(s: State, step: Step, i: nat)
    requires Enabled(s, step) && !step.Exit? && TableInv(s) && WaitInv(s) && i < |s.procs|
    ensures |After(s, step).procs| == |s.procs| && Attended(After(s, step).procs, i)
  {
    KeepParented(s, step, i);
    assert Attended(s.procs, i);
    hide After, Enabled, TableInv;
    var t := After(s, step).procs;
    if SleepsOn(t[i], OnProc(i)) && ZombieChild(t, i) {
      var z :| 0 <= z < |t| && ZombieAt(t, i, z);
      NoNewZombie(s, step, i, z);
      assert ZombieChild(s.procs, i);
      if step.WaitSleeps? && step.p == i {
        AsksFirst(s, step);
      } else {
        AsleepBefore(s, step, i);
      }
    }
  }

  lemma AsksFirst(s: State, step: Step)
    requires Enabled(s, step) && step.WaitSleeps?
    ensures !ZombieChild(s.procs, step.p)
  {
  }

  // A zombie child of i behind exit() of c: c itself, one that c left to init, or an old one.
  lemma ZombieOrigin(t: Table, c: nat, init: nat, i: nat, z: nat)
    requires c < |t| && z < |t| && ZombieAt(Exited(t, c, init), i, z)
    ensures if z == c then i == (if t[c].parent == c then init else t[c].parent)
            else if t[z].parent == c then i == init && ZombieChild(t, c)
            else ZombieChild(t, i)
  {
    ExitedAt(t, c, init, z);
    hide Exited;
    if z != c {
      assert ZombieAt(t, t[z].parent, z);
    }
  }

  // exit() wakes everybody who waits for the new zombie or inherits an old one.
  lemma ExitAttended(s: State, c: nat, i: nat)
    requires Enabled(s, Exit(c)) && TableInv(s) && WaitInv(s) && i < |s.procs|
    ensures Attended(Exited(s.procs, c, s.init), i)
  {
    hide Exited;
    var t, r := s.procs, Exited(s.procs, c, s.init);
    ExitedAt(t, c, s.init, i);
    assert Attended(t, i) && Parented(t, c);
    if SleepsOn(r[i], OnProc(i)) && ZombieChild(r, i) {
      var z :| 0 <= z < |r| && ZombieAt(r, i, z);
      ZombieOrigin(t, c, s.init, i, z);
    }
  }

  lemma KeepWait(s: State, step: Step)
    requires Enabled(s, step) && TableInv(s) && WaitInv(s)
    ensures WaitInv(After(s, step))
  {
    var t := After(s, step);
    hide TableInv, Attended;
    forall i: nat | i < |t.procs|
      ensures Attended(t.procs, i)
    {
      if step.Exit? {
        ExitAttended(s, step.p, i);
      } else {
        KeepAttended(s, step, step.p);
        KeepAttended(s, step, i);
      }
    }
  }

  lemma KeepNumbered(s: State, step: Step, i: nat)
    requires Enabled(s, step) && TableInv(s) && PidInv(s) && i < |s.procs|
    ensures |After(s, step).procs| == |s.procs| && Numbered(After(s, step), i)
  {
    var p := step.p;
    assert Numbered(s, i) && Numbered(s, p) && Sound(s.procs, p);
    if step.Exit? {
      ExitedAt(s.procs, p, s.init, i);
      ExitedAt(s.procs, p, s.init, p);
      hide Exited;
    }
    if step.WaitReaps? {
      assert Numbered(s, step.q);
    }
    if s.procs[p].phase.Forking? {
      assert Numbered(s, s.procs[p].phase.child);
    }
  }

  lemma KeepReaped(s: State, step: Step, pid: nat)
    requires Enabled(s, step) && PidInv(s) && pid in After(s, step).reaped
    ensures pid < After(s, step).nextpid && pid in After(s, step).exited
  {
    if step.WaitReaps? {
      assert Numbered(s, step.q);
    }
  }

  lemma KeepPids(s: State, step: Step)
    requires Enabled(s, step) && TableInv(s) && PidInv(s)
    ensures PidInv(After(s, step))
  {
    var t := After(s, step);
    hide TableInv, After, Enabled, Numbered;
    forall i: nat | i < |t.procs|
      ensures Numbered(t, i)
    {
      KeepNumbered(s, step, step.p);
      KeepNumbered(s, step, i);
    }
    forall pid | pid in t.reaped
      ensures pid < t.nextpid && pid in t.exited
    {
      KeepReaped(s, step, pid);
    }
  }

  ghost predicate Inv(s: State) {
    TableInv(s) && WaitInv(s) && PidInv(s)
  }

  lemma {:induction false} RunInv(states: seq<State>, steps: seq<Step>, i: nat)
    requires Run(states, steps) && i < |states|
    ensures Inv(states[i])
  {
    if i > 0 {
      RunInv(states, steps, i - 1);
      hide TableInv, WaitInv, PidInv, After, Enabled;
      KeepTable(states[i - 1], steps[i - 1]);
      KeepWait(states[i - 1], steps[i - 1]);
      KeepPids(states[i - 1], steps[i - 1]);
    }
  }

  /** Every parent is alive: neither unused, nor an embryo, nor a zombie. */
  lemma NoDeadParent(states: seq<State>, steps: seq<Step>, i: nat, p: nat)
    requires Run(states, steps) && i < |states| && p < |states[i].procs| && states[i].procs[p].parent != NOBODY
    ensures var t := states[i].procs; 0 <= t[p].parent < |t| && Alive(t[t[p].parent])
  {
    RunInv(states, steps, i);
    assert Parented(states[i].procs, p);
  }

  /** A process that sleeps in wait() has no zombie child. */
  lemma NoMissedZombie(states: seq<State>, steps: seq<Step>, i: nat, p: nat)
    requires Run(states, steps) && i < |states| && p < |states[i].procs| && SleepsOn(states[i].procs[p], OnProc(p))
    ensures !ZombieChild(states[i].procs, p)
  {
    RunInv(states, steps, i);
    assert Attended(states[i].procs, p);
  }

  lemma {:induction false} ReapedGrows(states: seq<State>, steps: seq<Step>, i: nat, j: nat)
    requires Run(states, steps) && i <= j < |states|
    ensures states[i].reaped <= states[j].reaped
  {
    if i < j {
      ReapedGrows(states, steps, i, j - 1);
      assert states[j] == After(states[j - 1], steps[j - 1]);
    }
  }

  /** Whoever is reaped has exited, and no two passes of wait() reap the same process. */
  lemma ReapedOnce(states: seq<State>, steps: seq<Step>, i: nat, j: nat)
    requires Run(states, steps) && i < j < |steps| && steps[i].WaitReaps? && steps[j].WaitReaps?
    ensures steps[i].q < |states[i].procs| && steps[j].q < |states[j].procs|
    ensures states[i].procs[steps[i].q].pid != states[j].procs[steps[j].q].pid
    ensures states[j].procs[steps[j].q].pid in states[j].exited
  {
    RunInv(states, steps, i);
    RunInv(states, steps, j);
    hide TableInv, WaitInv;
    assert Enabled(states[i], steps[i]) && Enabled(states[j], steps[j]);
    assert states[i + 1] == After(states[i], steps[i]);
    ReapedGrows(states, steps, i + 1, j);
    assert Numbered(states[j], steps[j].q);
  }
}
