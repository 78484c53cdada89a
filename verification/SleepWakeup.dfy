/**
  sleep() and wakeup() step by step, for any number of processes, channels and
  interleavings (proc.c).

  One spin lock, lk, protects the conditions the channels stand for.  A
  process calls sleep(c, lk) when it holds lk and has seen the condition of c
  fail; a process that makes a condition true holds lk and calls wakeup(c)
  before it lets go of lk.  ptable.lock protects the states of the processes.
 */
module SleepWakeup {
  // Where a process is.
  datatype Pc =
    | Out                    // holds neither lock
    | In(dirty: set<nat>)    // holds lk; dirty: channels it has to wake
    | Waking(dirty: set<nat>, chan: nat) // in wakeup(chan), holds both locks
    | Dozing(chan: nat)      // in sleep(chan), holds lk, wants ptable.lock
    | Dropping(chan: nat)    // in sleep(chan), holds both locks
    | Marking(chan: nat)     // in sleep(chan), holds ptable.lock
    | Switching(chan: nat)   // SLEEPING, but still holds ptable.lock until sched() is done
    | Asleep(chan: nat)      // SLEEPING on chan
    | Woken                  // RUNNABLE, wants ptable.lock back
    | Tidying                // runs again, holds ptable.lock
    | Returning              // at the end of sleep(), wants lk
    | Killing                // in kill(), holds ptable.lock

  // cond[c]: what sleepers on c wait for.
  datatype State = State(pc: seq<Pc>, cond: seq<bool>, lk: int, pt: int)

  const FREE := -1

  datatype Step =
    | Acquire(p: nat)                      // lk, by a process that is outside or returns from sleep()
    | Change(p: nat, cond: seq<bool>)      // the holder of lk changes what lk protects
    | Sleep(p: nat, c: nat)                // sleep(c, lk) is called, the condition has just failed
    | GetTable(p: nat)                     // acquire(&ptable.lock) in sleep()
    | Drop(p: nat)                         // release(lk) in sleep()
    | Mark(p: nat)                         // chan and SLEEPING are set
    | Switch(p: nat)                       // sched() is done, ptable.lock is let go
    | Wake(p: nat, c: nat)                 // acquire(&ptable.lock) in wakeup(c)
    | WakeAll(p: nat)                      // wakeup1(c) and the release behind it
    | Resume(p: nat)                       // the scheduler runs a woken process
    | Tidy(p: nat)                         // release(&ptable.lock) at the end of sleep()
    | Release(p: nat)                      // lk, once every due wakeup() has been called
    | Kill(p: nat)                         // acquire(&ptable.lock) in kill()
    | KillOne(p: nat, q: nat)              // kill() of q, and the release behind it

  function Set(s: State, p: nat, pc: Pc): (t: State)
    requires p < |s.pc|
  {
    s.(pc := s.pc[p := pc])
  }

  // wakeup1(c)
  function AllWoken(pc: seq<Pc>, c: nat): (r: seq<Pc>)
    ensures |r| == |pc|
  {
    seq(|pc|, q requires 0 <= q < |pc| => if pc[q] == Asleep(c) then Woken else pc[q])
  }

  ghost predicate Enabled(s: State, step: Step) {
    && step.p < |s.pc|
    && match step
       case Acquire(p) => s.lk == FREE && (s.pc[p].Out? || s.pc[p].Returning?)
       case Change(p, cond) => s.pc[p].In? && |cond| == |s.cond|
       case Sleep(p, c) => s.pc[p] == In({}) && c < |s.cond| && !s.cond[c]
       case GetTable(p) => s.pc[p].Dozing? && s.pt == FREE
       case Drop(p) => s.pc[p].Dropping?
       case Mark(p) => s.pc[p].Marking?
       case Switch(p) => s.pc[p].Switching?
       case Wake(p, c) => s.pc[p].In? && s.pt == FREE
       case WakeAll(p) => s.pc[p].Waking?
       case Resume(p) => s.pc[p].Woken? && s.pt == FREE
       case Tidy(p) => s.pc[p].Tidying?
       case Release(p) => s.pc[p] == In({})
       case Kill(p) => s.pc[p].Out? && s.pt == FREE
       case KillOne(p, q) => s.pc[p].Killing? && q < |s.pc|
  }

  function Risen(before: seq<bool>, after: seq<bool>): (r: set<nat>)
    requires |before| == |after|
  {
    set c: nat | c < |before| && !before[c] && after[c]
  }

  function After(s: State, step: Step): (t: State)
    requires Enabled(s, step)
  {
    var p := step.p;
    match step
    case Acquire(_) => Set(s, p, In({})).(lk := p)
    case Change(_, cond) => Set(s, p, In(s.pc[p].dirty + Risen(s.cond, cond))).(cond := cond)
    case Sleep(_, c) => Set(s, p, Dozing(c))
    case GetTable(_) => Set(s, p, Dropping(s.pc[p].chan)).(pt := p)
    case Drop(_) => Set(s, p, Marking(s.pc[p].chan)).(lk := FREE)
    case Mark(_) => Set(s, p, Switching(s.pc[p].chan))
    case Switch(_) => Set(s, p, Asleep(s.pc[p].chan)).(pt := FREE)
    case Wake(_, c) => Set(s, p, Waking(s.pc[p].dirty, c)).(pt := p)
    case WakeAll(_) =>
      var c := s.pc[p].chan;
      s.(pc := AllWoken(s.pc, c)[p := In(s.pc[p].dirty - {c})], pt := FREE)
    case Resume(_) => Set(s, p, Tidying).(pt := p)
    case Tidy(_) => Set(s, p, Returning).(pt := FREE)
    case Release(_) => Set(s, p, Out).(lk := FREE)
    case Kill(_) => Set(s, p, Killing).(pt := p)
    case KillOne(_, q) =>
      s.(pc := (if s.pc[q].Asleep? then s.pc[q := Woken] else s.pc)[p := Out], pt := FREE)
  }

  ghost predicate Init(s: State) {
    s.lk == FREE && s.pt == FREE && forall p :: 0 <= p < |s.pc| ==> s.pc[p] == Out
  }

  ghost predicate Run(states: seq<State>, steps: seq<Step>) {
    && |states| == |steps| + 1 && Init(states[0])
    && forall i :: 0 <= i < |steps| ==> Enabled(states[i], steps[i]) && states[i + 1] == After(states[i], steps[i])
  }

  predicate HasLk(pc: Pc) {
    pc.In? || pc.Waking? || pc.Dozing? || pc.Dropping?
  }

  predicate HasTable(pc: Pc) {
    pc.Waking? || pc.Dropping? || pc.Marking? || pc.Switching? || pc.Tidying? || pc.Killing?
  }

  // The process has decided to sleep on the channel, or sleeps on it.
  predicate Bound(pc: Pc) {
    pc.Dozing? || pc.Dropping? || pc.Marking? || pc.Switching? || pc.Asleep?
  }

  // The process owes channel c a wakeup().
  predicate Owes(pc: Pc, c: nat) {
    (pc.In? || pc.Waking?) && c in pc.dirty
  }

  ghost predicate Locks(s: State) {
    forall p :: 0 <= p < |s.pc| ==> (HasLk(s.pc[p]) <==> s.lk == p) && (HasTable(s.pc[p]) <==> s.pt == p)
  }

  // A process bound to a channel whose condition holds is owed a wakeup by the holder of lk.
  ghost predicate Heard(s: State) {
    forall p :: 0 <= p < |s.pc| && Bound(s.pc[p]) ==>
      s.pc[p].chan < |s.cond| && (s.cond[s.pc[p].chan] ==> 0 <= s.lk < |s.pc| && Owes(s.pc[s.lk], s.pc[p].chan))
  }

  lemma KeepLk(s: State, step: Step, p: nat)
    requires Enabled(s, step) && Locks(s) && p < |s.pc|
    ensures |After(s, step).pc| == |s.pc| && (HasLk(After(s, step).pc[p]) <==> After(s, step).lk == p)
  {
    hide HasTable;
    assert HasLk(s.pc[p]) <==> s.lk == p;
    assert HasLk(s.pc[step.p]) <==> s.lk == step.p;
  }

  lemma KeepTable(s: State, step: Step, p: nat)
    requires Enabled(s, step) && Locks(s) && p < |s.pc|
    ensures |After(s, step).pc| == |s.pc| && (HasTable(After(s, step).pc[p]) <==> After(s, step).pt == p)
  {
    hide HasLk;
    assert HasTable(s.pc[p]) <==> s.pt == p;
    assert HasTable(s.pc[step.p]) <==> s.pt == step.p;
  }

  lemma KeepLocks(s: State, step: Step)
    requires Enabled(s, step) && Locks(s)
    ensures Locks(After(s, step))
  {
    var t := After(s, step);
    hide After, Enabled, HasLk, HasTable;
    forall p: nat | p < |t.pc|
      ensures (HasLk(t.pc[p]) <==> t.lk == p) && (HasTable(t.pc[p]) <==> t.pt == p)
    {
      KeepLk(s, step, step.p);
      KeepLk(s, step, p);
      KeepTable(s, step, p);
    }
  }

  lemma KeepHeard(s: State, step: Step)
    requires Enabled(s, step) && Locks(s) && Heard(s)
    ensures Heard(After(s, step))
  {
    var t := After(s, step);
    forall p | 0 <= p < |t.pc| && Bound(t.pc[p])
      ensures t.pc[p].chan < |t.cond|
      ensures t.cond[t.pc[p].chan] ==> 0 <= t.lk < |t.pc| && Owes(t.pc[t.lk], t.pc[p].chan)
    {
    }
  }

  lemma {:induction false} RunInv(states: seq<State>, steps: seq<Step>, i: nat)
    requires Run(states, steps) && i < |states|
    ensures Locks(states[i]) && Heard(states[i])
  {
    if i > 0 {
      RunInv(states, steps, i - 1);
      hide After, Enabled, Locks, Heard;
      KeepLocks(states[i - 1], steps[i - 1]);
      KeepHeard(states[i - 1], steps[i - 1]);
    }
  }

  /**
    No lost wakeup: when lk is free, nobody sleeps on a channel whose condition
    holds, nor is anybody on the way to sleep there.
   */
  lemma NoLostWakeup(states: seq<State>, steps: seq<Step>, i: nat, p: nat)
    requires Run(states, steps) && i < |states| && p < |states[i].pc|
    requires states[i].lk == FREE && Bound(states[i].pc[p])
    ensures states[i].pc[p].chan < |states[i].cond| && !states[i].cond[states[i].pc[p].chan]
  {
    RunInv(states, steps, i);
  }

  /** Spin locks exclude: at most one process is between acquire and release of lk, or of ptable.lock. */
  lemma MutualExclusion(states: seq<State>, steps: seq<Step>, i: nat, p: nat, q: nat)
    requires Run(states, steps) && i < |states| && p < |states[i].pc| && q < |states[i].pc| && p != q
    ensures !(HasLk(states[i].pc[p]) && HasLk(states[i].pc[q]))
    ensures !(HasTable(states[i].pc[p]) && HasTable(states[i].pc[q]))
  {
    RunInv(states, steps, i);
  }
}
