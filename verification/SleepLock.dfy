/**
  The sleep lock (sleeplock.c): acquiresleep() and releasesleep() as a client of
  sleep() and wakeup().  Its one condition, channel 0, is "not locked".
 */
module SleepLock {
  import opened SleepWakeup

  // has: the processes between acquiresleep() and releasesleep().
  datatype LockState = LockState(base: State, has: set<nat>)

  datatype LockStep =
    | Inner(step: Step)  // a step of the locks, of sleep() or of wakeup()
    | Take(p: nat)       // locked = 1, by a process that holds lk and finds it 0
    | Give(p: nat)       // locked = 0, by the process that has the lock

  ghost predicate LockEnabled(s: LockState, step: LockStep) {
    match step
    case Inner(inner) => Enabled(s.base, inner) && !inner.Change?
    case Take(p) => Enabled(s.base, Change(p, [false])) && s.base.cond[0]
    case Give(p) => Enabled(s.base, Change(p, [true])) && p in s.has
  }

  // The step of the locks and channels underneath.
  function Under(step: LockStep): (u: Step) {
    match step
    case Inner(inner) => inner
    case Take(p) => Change(p, [false])
    case Give(p) => Change(p, [true])
  }

  function LockAfter(s: LockState, step: LockStep): (t: LockState)
    requires LockEnabled(s, step)
  {
    LockState(After(s.base, Under(step)),
              match step
              case Inner(_) => s.has
              case Take(p) => s.has + {p}
              case Give(p) => s.has - {p})
  }

  ghost predicate LockRun(states: seq<LockState>, steps: seq<LockStep>) {
    && |states| == |steps| + 1 && Init(states[0].base) && states[0].base.cond == [true] && states[0].has == {}
    && forall i :: 0 <= i < |steps| ==> LockEnabled(states[i], steps[i]) && states[i + 1] == LockAfter(states[i], steps[i])
  }

  ghost predicate LockInv(s: LockState) {
    && Locks(s.base) && Heard(s.base) && |s.base.cond| == 1
    && (if s.base.cond[0] then s.has == {} else exists p :: s.has == {p})
  }

  lemma CondKept(s: State, step: Step)
    requires Enabled(s, step) && !step.Change?
    ensures After(s, step).cond == s.cond
  {
  }

  lemma CondChanged(s: State, p: nat, cond: seq<bool>)
    requires Enabled(s, Change(p, cond))
    ensures After(s, Change(p, cond)).cond == cond
  {
  }

  lemma KeepLock(s: LockState, step: LockStep)
    requires LockEnabled(s, step) && LockInv(s)
    ensures LockInv(LockAfter(s, step))
  {
    var t := LockAfter(s, step);
    KeepLocks(s.base, Under(step));
    KeepHeard(s.base, Under(step));
    match step {
      case Inner(inner) =>
        CondKept(s.base, inner);
      case Take(p) =>
        CondChanged(s.base, p, [false]);
        assert t.has == {p};
      case Give(p) =>
        CondChanged(s.base, p, [true]);
        assert t.has == {};
    }
  }

  lemma {:induction false} LockRunInv(states: seq<LockState>, steps: seq<LockStep>, i: nat)
    requires LockRun(states, steps) && i < |states|
    ensures LockInv(states[i])
  {
    if i > 0 {
      LockRunInv(states, steps, i - 1);
      KeepLock(states[i - 1], steps[i - 1]);
    }
  }

  /** At most one process has the lock. */
  lemma OneHolder(states: seq<LockState>, steps: seq<LockStep>, i: nat, p: nat, q: nat)
    requires LockRun(states, steps) && i < |states| && p in states[i].has && q in states[i].has
    ensures p == q && states[i].base.cond == [false]
  {
    LockRunInv(states, steps, i);
  }

  /** A process that sleeps in acquiresleep() while the spin lock is free has somebody to wait for. */
  lemma SleeperImpliesLocked(states: seq<LockState>, steps: seq<LockStep>, i: nat, p: nat)
    requires LockRun(states, steps) && i < |states| && p < |states[i].base.pc|
    requires states[i].base.lk == FREE && states[i].base.pc[p].Asleep?
    ensures exists q :: states[i].has == {q}
  {
    LockRunInv(states, steps, i);
  }
}
