/**
  The process table (proc.c): fork, exit, wait, kill, sleep and wakeup.  A piece
  of code that runs under ptable.lock is one step; what fork() does outside the
  lock are steps of their own.
 */
module ProcTable {
  datatype Status = Unused | Embryo | Sleeping | Runnable | Running | Zombie

  // What a process sleeps on: its own table entry, in wait(), or something else.
  datatype Chan = NoChan | OnProc(p: nat) | Other(n: nat)

  // What a process is in the middle of.
  datatype Phase = Free | Forking(child: nat) | Waiting

  // maker: the process whose fork() is setting up an embryo.
  datatype Entry = Entry(status: Status, pid: nat, parent: int, chan: Chan, killed: bool, phase: Phase, maker: int)

  const NOBODY := -1

  type Table = seq<Entry>

  predicate SleepsOn(e: Entry, chan: Chan) {
    e.status == Sleeping && e.chan == chan
  }

  function Wake(e: Entry, chan: Chan): (r: Entry) {
    if SleepsOn(e, chan) then e.(status := Runnable) else e
  }

  // wakeup1()
  function WokenOn(t: Table, chan: Chan): (r: Table)
    ensures |r| == |t|
  {
    seq(|t|, i requires 0 <= i < |t| => Wake(t[i], chan))
  }

  function ChanOf(p: int): (c: Chan) {
    if p < 0 then NoChan else OnProc(p)
  }

  // Some child of c is a zombie.
  predicate ZombieChild(t: Table, c: nat) {
    exists i :: 0 <= i < |t| && ZombieAt(t, c, i)
  }

  predicate ZombieAt(t: Table, c: nat, i: int) {
    0 <= i < |t| && t[i].parent == c && t[i].status == Zombie
  }

  predicate HasChild(t: Table, c: nat) {
    exists i :: 0 <= i < |t| && t[i].parent == c
  }

  function Adopt(e: Entry, c: nat, init: nat): (r: Entry) {
    if e.parent == c then e.(parent := init) else e
  }

  // exit(): the parent is woken, the children go to init, which is woken if one
  // of them is a zombie, and the process becomes a zombie.
  function Exited(t: Table, c: nat, init: nat): (r: Table)
    requires c < |t|
    ensures |r| == |t|
  {
    var woken := WokenOn(t, ChanOf(t[c].parent));
    var heirs := seq(|t|, i requires 0 <= i < |t| => Adopt(woken[i], c, init));
    var roused := if ZombieChild(woken, c) then WokenOn(heirs, OnProc(init)) else heirs;
    roused[c := roused[c].(status := Zombie)]
  }

  function Blank(): (e: Entry) {
    Entry(Unused, 0, NOBODY, NoChan, false, Free, NOBODY)
  }

  function Alloced(t: Table, p: nat, q: nat, pid: nat): (r: Table)
    requires p < |t| && q < |t|
  {
    t[q := t[q].(status := Embryo, pid := pid, maker := p)][p := t[p].(phase := Forking(q))]
  }

  // A fork() that fails: the pid and the killed flag stay behind in the free entry.
  function Abandoned(t: Table, p: nat, q: nat): (r: Table)
    requires p < |t| && q < |t|
  {
    t[q := t[q].(status := Unused, maker := NOBODY)][p := t[p].(phase := Free)]
  }

  function Reap(t: Table, p: nat, q: nat): (r: Table)
    requires p < |t| && q < |t|
  {
    t[q := Blank()][p := t[p].(phase := Free)]
  }

  function GiveUp(t: Table, p: nat): (r: Table)
    requires p < |t|
  {
    t[p := t[p].(phase := Free)]
  }

  function WaitAsleep(t: Table, p: nat): (r: Table)
    requires p < |t|
  {
    t[p := t[p].(status := Sleeping, chan := OnProc(p), phase := Waiting)]
  }

  function Killed(t: Table, q: nat): (r: Table)
    requires q < |t|
  {
    t[q := t[q].(killed := true, status := if t[q].status == Sleeping then Runnable else t[q].status)]
  }

  // No entry before q has the pid of q.
  predicate FirstWith(t: Table, q: nat) {
    q < |t| && forall i :: 0 <= i < q ==> t[i].pid != t[q].pid
  }

  datatype WaitResult = Reaped(q: nat) | GaveUp | Slept

  class Ptable {
    var procs: array<Entry>
    const init: nat

    constructor (n: nat, init: nat)
      ensures fresh(procs) && procs.Length == n && this.init == init
      ensures forall i :: 0 <= i < n ==> procs[i] == Blank()
    {
      procs := new Entry[n](i => Blank());
      this.init := init;
    }

    method Wakeup1(chan: Chan)
      modifies procs
      ensures procs[..] == WokenOn(old(procs[..]), chan)
      ensures forall i :: 0 <= i < procs.Length ==>
                if old(procs[i]).status == Sleeping && old(procs[i]).chan == chan
                then procs[i] == old(procs[i]).(status := Runnable) else procs[i] == old(procs[i])
    {
      var p := 0;
      while p < procs.Length
        invariant 0 <= p <= procs.Length
        invariant forall i :: 0 <= i < p ==> procs[i] == Wake(old(procs[i]), chan)
        invariant forall i :: p <= i < procs.Length ==> procs[i] == old(procs[i])
      {
        if procs[p].status == Sleeping && procs[p].chan == chan {
          procs[p] := procs[p].(status := Runnable);
        }
        p := p + 1;
      }
    }

    // Entry i while the loop of exit() is at p: roused says whether init has been woken.
    static function Passed(e: Entry, i: nat, p: nat, c: nat, init: nat, roused: bool): (r: Entry) {
      var heir := if i < p then Adopt(e, c, init) else e;
      if roused then Wake(heir, OnProc(init)) else heir
    }

    // The loop of exit() over the children.
    method PassChildren(c: nat)
      modifies procs
      ensures procs.Length == |old(procs[..])|
      ensures var t := old(procs[..]);
              forall i :: 0 <= i < procs.Length ==> procs[i] == Passed(t[i], i, |t|, c, init, ZombieChild(t, c))
    {
      ghost var t := procs[..];
      var p := 0;
      ghost var roused := false;
      while p < procs.Length
        invariant 0 <= p <= procs.Length
        invariant roused == exists i :: 0 <= i < p && ZombieAt(t, c, i)
        invariant forall i :: 0 <= i < procs.Length ==> procs[i] == Passed(t[i], i, p, c, init, roused)
      {
        assert ZombieAt(t, c, p) == (procs[p].parent == c && procs[p].status == Zombie);
        if procs[p].parent == c {
          var zombie := procs[p].status == Zombie;
          procs[p] := procs[p].(parent := init);
          if zombie {
            Wakeup1(OnProc(init));
            roused := true;
          }
        }
        p := p + 1;
      }
    }

    /** exit(), from the acquire of ptable.lock on. */
    method Exit(c: nat)
      requires c < procs.Length
      modifies procs
      ensures procs[..] == Exited(old(procs[..]), c, init)
    {
      Wakeup1(ChanOf(procs[c].parent));
      PassChildren(c);
      procs[c] := procs[c].(status := Zombie);
    }

    /** allocproc(): an unused entry becomes an embryo; false only if there is none. */
    method AllocProc(p: nat, pid: nat) returns (found: bool, q: nat)
      requires p < procs.Length && procs[p].status == Running
      modifies procs
      ensures found <==> exists i :: 0 <= i < procs.Length && old(procs[i]).status == Unused
      ensures !found ==> procs[..] == old(procs[..])
      ensures found ==> forall i :: 0 <= i < q < procs.Length ==> old(procs[i]).status != Unused
      ensures found ==> q < procs.Length && old(procs[q]).status == Unused && procs[..] == Alloced(old(procs[..]), p, q, pid)
    {
      found, q := false, 0;
      while q < procs.Length
        invariant 0 <= q <= procs.Length && !found && procs[..] == old(procs[..])
        invariant forall i :: 0 <= i < q ==> procs[i].status != Unused
      {
        if procs[q].status == Unused {
          procs[q] := procs[q].(status := Embryo, pid := pid, maker := p);
          procs[p] := procs[p].(phase := Forking(q));
          return true, q;
        }
        q := q + 1;
      }
    }

    /**
      One pass of wait() under ptable.lock: it reaps a zombie child, else gives up
      without children or when killed, else goes to sleep on its own entry.
     */
    method WaitPass(p: nat) returns (r: WaitResult)
      requires p < procs.Length && procs[p].status == Running
      modifies procs
      ensures var t := old(procs[..]);
              match r
              case Reaped(q) => q < |t| && ZombieAt(t, p, q) && procs[..] == Reap(t, p, q)
              case GaveUp => !ZombieChild(t, p) && (!HasChild(t, p) || t[p].killed) && procs[..] == GiveUp(t, p)
              case Slept => !ZombieChild(t, p) && HasChild(t, p) && !t[p].killed && procs[..] == WaitAsleep(t, p)
    {
      ghost var t := procs[..];
      var havekids := false;
      var q := 0;
      while q < procs.Length
        invariant 0 <= q <= procs.Length && procs[..] == t
        invariant havekids == exists i :: 0 <= i < q && t[i].parent == p
        invariant forall i :: 0 <= i < q ==> !ZombieAt(t, p, i)
      {
        if procs[q].parent == p {
          havekids := true;
          if procs[q].status == Zombie {
            procs[q] := Blank();
            procs[p] := procs[p].(phase := Free);
            return Reaped(q);
          }
        }
        q := q + 1;
      }
      if !havekids || procs[p].killed {
        procs[p] := procs[p].(phase := Free);
        return GaveUp;
      }
      procs[p] := procs[p].(status := Sleeping, chan := OnProc(p), phase := Waiting);
      return Slept;
    }

    /**
      kill(): the first entry with the pid, q, is marked, in use or not, and if it
      sleeps it is woken; no other entry changes.  False if there is none.
     */
    method Kill(pid: nat) returns (found: bool, ghost q: nat)
      modifies procs
      ensures found <==> exists i :: 0 <= i < procs.Length && old(procs[i]).pid == pid
      ensures !found ==> procs[..] == old(procs[..])
      ensures found ==> FirstWith(old(procs[..]), q) && old(procs[..])[q].pid == pid && procs[..] == Killed(old(procs[..]), q)
      ensures found ==> procs[q].killed && procs[q].status != Sleeping
      ensures forall i :: 0 <= i < procs.Length && !(found && i == q) ==> procs[i] == old(procs[i])
    {
      var p := 0;
      while p < procs.Length
        invariant 0 <= p <= procs.Length && procs[..] == old(procs[..])
        invariant forall i :: 0 <= i < p ==> procs[i].pid != pid
      {
        if procs[p].pid == pid {
          procs[p] := procs[p].(killed := true);
          if procs[p].status == Sleeping {
            procs[p] := procs[p].(status := Runnable);
          }
          assert procs[..] == Killed(old(procs[..]), p);
          return true, p;
        }
        p := p + 1;
      }
      return false, 0;
    }
  }
}
