/** The process table of proc.c and the loops over it that run under ptable.lock. */
module ProcTable {
  datatype PState = UNUSED | EMBRYO | SLEEPING | RUNNABLE | RUNNING | ZOMBIE

  /** A sleep channel: the address of a sleep lock or of a process. */
  datatype Chan = NoChan | OnLock(l: nat) | OnProc(p: nat)

  /** parent is -1 for none. */
  datatype Proc = Proc(state: PState, chan: Chan, parent: int, killed: bool, pid: int)

  predicate Asleep(p: Proc, ch: Chan) {
    p.state == SLEEPING && p.chan == ch
  }

  function WakeOne(p: Proc, ch: Chan): Proc {
    if Asleep(p, ch) then p.(state := RUNNABLE) else p
  }

  /** All sleepers on ch are runnable, nothing else has changed. */
  function Woken(ps: seq<Proc>, ch: Chan): seq<Proc> {
    seq(|ps|, i requires 0 <= i < |ps| => WakeOne(ps[i], ch))
  }

  predicate ZombieChild(p: Proc, me: int) {
    p.parent == me && p.state == ZOMBIE
  }

  ghost predicate HasZombie(ps: seq<Proc>, me: int, n: nat) {
    exists k: nat :: k < n && k < |ps| && ZombieChild(ps[k], me)
  }

  /** exit()'s loop over the first n entries: children of me go to init, and a zombie among
      them wakes init. */
  ghost function Orphaned(ps: seq<Proc>, me: int, init: nat, n: nat): seq<Proc> {
    seq(|ps|, i requires 0 <= i < |ps| =>
      var q := if i < n && ps[i].parent == me then ps[i].(parent := init) else ps[i];
      if HasZombie(ps, me, n) then WakeOne(q, OnProc(init)) else q)
  }

  function Reaped(p: Proc): Proc {
    p.(pid := 0, parent := -1, killed := false, state := UNUSED)
  }

  class Table {
    var proc: seq<Proc>

    constructor (proc: seq<Proc>)
      ensures this.proc == proc
    {
      this.proc := proc;
    }

    /** wakeup1() */
    method Wakeup1(ch: Chan)
      modifies this
      ensures proc == Woken(old(proc), ch)
    {
      for i := 0 to |proc|
        invariant |proc| == |old(proc)|
        invariant forall j :: 0 <= j < |proc| ==> proc[j] == if j < i then WakeOne(old(proc)[j], ch) else old(proc)[j]
      {
        if proc[i].state == SLEEPING && proc[i].chan == ch {
          proc := proc[i := proc[i].(state := RUNNABLE)];
        }
      }
    }

    /** The loop of exit() that passes abandoned children to init. */
    method Abandon(me: int, init: nat)
      requires me != init
      modifies this
      ensures proc == Orphaned(old(proc), me, init, |old(proc)|)
    {
      for i := 0 to |proc|
        invariant proc == Orphaned(old(proc), me, init, i)
      {
        ghost var ps := proc;
        if proc[i].parent == me {
          proc := proc[i := proc[i].(parent := init)];
          if proc[i].state == ZOMBIE {
            Wakeup1(OnProc(init));
          }
        }
        OrphanStep(old(proc), me, init, i, ps, proc);
      }
    }

    /** kill(): the first entry with this pid. */
    method Kill(pid: int) returns (r: int, ghost q: nat)
      modifies this
      ensures q <= |old(proc)| && forall j :: 0 <= j < q ==> old(proc)[j].pid != pid
      ensures r == -1 <==> q == |old(proc)|
      ensures r == -1 ==> proc == old(proc)
      ensures r != -1 ==> r == 0 && old(proc)[q].pid == pid && proc == old(proc)[q := Killed(old(proc)[q])]
    {
      for i := 0 to |proc|
        invariant proc == old(proc) && forall j :: 0 <= j < i ==> proc[j].pid != pid
      {
        if proc[i].pid == pid {
          proc := proc[i := proc[i].(killed := true)];
          if proc[i].state == SLEEPING {
            proc := proc[i := proc[i].(state := RUNNABLE)];
          }
          return 0, i;
        }
      }
      return -1, |proc|;
    }

    /** The scan of wait(): reaps the first zombie child, or tells whether there are children. */
    method WaitScan(me: int) returns (pid: int, havekids: bool, ghost q: nat)
      modifies this
      ensures q <= |old(proc)| && forall j :: 0 <= j < q ==> !ZombieChild(old(proc)[j], me)
      ensures q < |old(proc)| ==> ZombieChild(old(proc)[q], me) && pid == old(proc)[q].pid
                                  && proc == old(proc)[q := Reaped(old(proc)[q])]
      ensures q == |old(proc)| ==> proc == old(proc) && pid == -1
                                   && (havekids <==> exists j :: 0 <= j < |proc| && proc[j].parent == me)
    {
      havekids := false;
      for i := 0 to |proc|
        invariant proc == old(proc) && forall j :: 0 <= j < i ==> !ZombieChild(proc[j], me)
        invariant havekids <==> exists j :: 0 <= j < i && proc[j].parent == me
      {
        if proc[i].parent == me {
          havekids := true;
          if proc[i].state == ZOMBIE {
            pid := proc[i].pid;
            proc := proc[i := proc[i].(pid := 0, parent := -1, killed := false, state := UNUSED)];
            return pid, havekids, i;
          }
        }
      }
      return -1, havekids, |proc|;
    }

    /** The scheduler's search for the next runnable process from entry i on. */
    method NextRunnable(i: nat) returns (p: int)
      ensures -1 <= p < |proc|
      ensures p >= 0 ==> i <= p && proc[p].state == RUNNABLE && forall j :: i <= j < p ==> proc[j].state != RUNNABLE
      ensures p < 0 ==> forall j :: i <= j < |proc| ==> proc[j].state != RUNNABLE
    {
      p := i;
      while p < |proc|
        invariant i <= p && forall j :: i <= j < p && j < |proc| ==> proc[j].state != RUNNABLE
      {
        if proc[p].state == RUNNABLE {
          return;
        }
        p := p + 1;
      }
      p := -1;
    }
  }

  function Killed(p: Proc): Proc {
    p.(killed := true, state := if p.state == SLEEPING then RUNNABLE else p.state)
  }

  /** One pass of exit()'s loop. */
  lemma OrphanStep(ps: seq<Proc>, me: int, init: nat, i: nat, cur: seq<Proc>, cur': seq<Proc>)
    requires i < |ps| && me != init && cur == Orphaned(ps, me, init, i)
    requires cur' == if cur[i].parent != me then cur
                     else if cur[i].state != ZOMBIE then cur[i := cur[i].(parent := init)]
                     else Woken(cur[i := cur[i].(parent := init)], OnProc(init))
    ensures cur' == Orphaned(ps, me, init, i + 1)
  {
    assert cur[i].state == ZOMBIE <==> ps[i].state == ZOMBIE;
    assert HasZombie(ps, me, i + 1) <==> HasZombie(ps, me, i) || ZombieChild(ps[i], me);
  }
}
