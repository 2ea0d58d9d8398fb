/** log.c's code is the protocol: each call of the class Log is the step of the machine in
    GroupCommit it should be, or the run of steps, and is refused exactly where the step is not
    enabled. */
module LogRefinement {
  import opened Common
  import opened Blocks
  import opened RedoLog
  import opened Log
  import opened GroupCommit

  /** The object, between calls, is in this state of the machine. */
  ghost predicate Shows(log: Log, g: Geometry, s: State)
    reads log, log.block
  {
    && log.g == g && log.Valid() && !log.committing && s.phase.Running?
    && log.disk == s.disk && log.dirty == s.dirty && log.block[..log.n] == s.bs && log.outstanding == |s.spent|
  }

  // ----- recovery -----

  /** The machine's recovery, k writes in. */
  lemma {:induction false} RecoverTo(g: Geometry, d: Disk, k: nat) returns (steps: seq<Step>, s: State)
    requires LogOk(g, d) && k <= HeaderCount(d[g.start]) + 1
    ensures Reaches(g, d, steps, s) && s.phase == Recovering(k, d) && s.spent == map[]
  {
    hide LogOk, Reaches, RecoverDisk;
    if k == 0 {
      steps, s := [], Boot(g, d);
      BootReached(g, d);
    } else {
      steps, s := RecoverTo(g, d, k - 1);
      RecoveringAt(g, d, steps, s);
      s := ExtendBy(g, d, steps, s, RecoverWrite);
      steps := steps + [RecoverWrite];
    }
  }

  lemma RecoveringAt(g: Geometry, d: Disk, steps: seq<Step>, s: State)
    requires LogOk(g, d) && Reaches(g, d, steps, s) && s.phase.Recovering?
    ensures LogOk(g, s.phase.start) && s.bs == HeaderBlocks(s.phase.start[g.start]) && s.dirty == map[]
    ensures s.phase.k <= |s.bs| + 1
    ensures s.disk == RecoveryState(g, s.phase.start, s.phase.k)
  {
    hide SpaceInv, GroupInv, TraceInv, CrashConsistent, Reaches, RecoveryState, HeaderBlocks;
    Safety(g, d, steps, s);
  }

  /** initlog(): the machine's recovery from its first to its last step. */
  method Initlog(g: Geometry, d: Disk) returns (log: Log, ghost steps: seq<Step>, ghost s: State)
    requires LogOk(g, d)
    ensures fresh(log) && fresh(log.block) && Reaches(g, d, steps, s) && Shows(log, g, s) && s.spent == map[]
  {
    hide LogOk, Reaches, Recovered;
    log := new Log(g, d);
    ghost var n: int := HeaderCount(d[g.start]);
    steps, s := RecoverTo(g, d, n + 1);
    RecoveringAt(g, d, steps, s);
    RecoveredIs(g, d);
    s := ExtendBy(g, d, steps, s, RecoverDone);
    steps := steps + [RecoverDone];
  }

  lemma RecoveredIs(g: Geometry, d: Disk)
    requires LogOk(g, d)
    ensures RecoveryState(g, d, HeaderCount(d[g.start]) + 1) == Recovered(g, d)
  {
  }

  // ----- operations -----

  /** One test of begin_op() succeeds exactly where the Begin step is enabled. */
  method BeginOp(log: Log, op: Op, ghost g: Geometry, ghost d: Disk, ghost steps: seq<Step>, ghost s: State)
    returns (admitted: bool, ghost s': State)
    requires LogOk(g, d) && Reaches(g, d, steps, s) && Shows(log, g, s) && op !in s.used
    modifies log`outstanding
    ensures admitted <==> Enabled(g, s, Begin(op))
    ensures admitted ==> s' == Next(g, s, Begin(op)) && Reaches(g, d, steps + [Begin(op)], s') && Shows(log, g, s')
    ensures !admitted ==> Shows(log, g, s)
  {
    hide LogOk, Reaches, Defined, Absorb, Overlay, CommitDisk, RecoverDisk;
    admitted := log.TryBeginOp();
    s' := s;
    if admitted {
      UsedCoversSpent(g, d, steps, s, op);
      s' := ExtendBy(g, d, steps, s, Begin(op));
      OneMoreKey(s.spent, op, {});
    }
  }

  lemma OneMoreKey<K, V>(m: map<K, V>, k: K, v: V)
    requires k !in m
    ensures |m[k := v]| == |m| + 1
  {
    assert m[k := v].Keys == m.Keys + {k};
  }

  lemma UsedCoversSpent(g: Geometry, d: Disk, steps: seq<Step>, s: State, op: Op)
    requires LogOk(g, d) && Reaches(g, d, steps, s) && op !in s.used
    ensures op !in s.spent
  {
    hide LogOk, SpaceInv, TraceInv, DiskInv, CrashConsistent, Reaches;
    Safety(g, d, steps, s);
  }

  /** log_write() of an operation within its allowance panics exactly where the guard says so, and
      otherwise is the LogWrite step. */
  method LogWriteOp(log: Log, op: Op, b: uint32, data: Block, ghost g: Geometry, ghost d: Disk, ghost steps: seq<Step>,
                    ghost s: State)
    returns (ok: bool, ghost s': State)
    requires LogOk(g, d) && Reaches(g, d, steps, s) && Shows(log, g, s)
    requires op in s.spent && |s.spent[op] + {b}| <= MAXOPBLOCKS && b < |s.disk| && IsHome(g, b)
    modifies log`dirty, log`n, log.block
    ensures ok <==> !Panics(g, s)
    ensures ok ==> Enabled(g, s, LogWrite(op, b, data)) && s' == Next(g, s, LogWrite(op, b, data))
    ensures ok ==> Reaches(g, d, steps + [LogWrite(op, b, data)], s') && Shows(log, g, s')
  {
    hide LogOk, Reaches, Absorb, Overlay;
    assert |s.spent| >= 1 by { MapMinusOne(s.spent, op); }
    ok := log.LogWrite(b, data);
    s' := s;
    if ok {
      s' := ExtendBy(g, d, steps, s, LogWrite(op, b, data));
      assert s'.spent.Keys == s.spent.Keys;
    }
  }

  /** The machine's commit, k writes in. */
  lemma {:induction false} CommitTo(g: Geometry, d: Disk, steps: seq<Step>, s: State, k: nat)
    returns (more: seq<Step>, t: State)
    requires LogOk(g, d) && Reaches(g, d, steps, s) && s.phase.Committing? && s.phase.k == 0
    requires k <= CommitLength(|s.bs|)
    ensures OnlyCommits(more) && |more| == k && Reaches(g, d, steps + more, t)
    ensures t.phase == Committing(k, s.phase.start, s.phase.view) && t.bs == s.bs && t.spent == s.spent
  {
    hide LogOk, Reaches, CommitDisk, CommitDirty;
    if k == 0 {
      more, t := [], s;
      assert steps + more == steps;
    } else {
      more, t := CommitTo(g, d, steps, s, k - 1);
      t := ExtendBy(g, d, steps + more, t, CommitWrite);
      assert steps + more + [CommitWrite] == steps + (more + [CommitWrite]);
      more := more + [CommitWrite];
    }
  }

  lemma CommittingAt(g: Geometry, d: Disk, steps: seq<Step>, s: State)
    requires LogOk(g, d) && Reaches(g, d, steps, s) && s.phase.Committing?
    ensures s.phase.k <= CommitLength(|s.bs|) && Transaction(g, s.phase.start, s.bs, s.phase.view)
    ensures s.disk == CommitState(g, s.phase.start, s.bs, s.phase.view, s.phase.k)
  {
    hide SpaceInv, GroupInv, TraceInv, CrashConsistent, Reaches, CommitState, Committed, Replay;
    Safety(g, d, steps, s);
  }

  /** The disk states recorded since position base are those of the machine after each of its
      commit writes. */
  ghost predicate SameWrites(g: Geometry, d: Disk, steps: seq<Step>, h: seq<Disk>, base: nat)
    requires LogOk(g, d)
  {
    forall i :: base <= i < |h| ==>
      exists more, t ::
        OnlyCommits(more) && |more| == i - base + 1 && Reaches(g, d, steps + more, t) && t.disk == h[i]
  }

  lemma WritesAreSteps(g: Geometry, d: Disk, steps: seq<Step>, s: State, h: seq<Disk>, h': seq<Disk>, d': Disk)
    requires LogOk(g, d) && Reaches(g, d, steps, s) && s.phase.Committing? && s.phase.k == 0
    requires CommitTrace(g, s.phase.start, s.bs, s.phase.view, h, h', d')
    ensures SameWrites(g, d, steps, h', |h|)
  {
    hide LogOk, Reaches, CommitState, OnlyCommits, Transaction;
    forall i | |h| <= i < |h'|
      ensures exists more, t ::
                OnlyCommits(more) && |more| == i - |h| + 1 && Reaches(g, d, steps + more, t) && t.disk == h'[i]
    {
      var k := i - |h| + 1;
      var more, t := CommitTo(g, d, steps, s, k);
      CommittingAt(g, d, steps + more, t);
      assert h'[i] == CommitStates(g, s.phase.start, s.bs, s.phase.view)[k];
    }
  }

  /** end_op(): the End step, and for the last operation the whole commit behind it, disk write by
      disk write; afterwards the machine has nothing left to commit. */
  method EndOp(log: Log, op: Op, ghost g: Geometry, ghost d: Disk, ghost steps: seq<Step>, ghost s: State)
    returns (committed: bool, ghost more: seq<Step>, ghost s': State)
    requires LogOk(g, d) && Reaches(g, d, steps, s) && Shows(log, g, s) && op in s.spent
    modifies log`disk, log`dirty, log`history, log`n, log`outstanding, log`committing
    ensures committed <==> s.spent.Keys == {op}
    ensures Reaches(g, d, steps + [End(op)] + more, s') && Shows(log, g, s')
    ensures !committed ==> more == [] && s' == Next(g, s, End(op)) && log.history == old(log.history)
    ensures committed ==> OnlyCommits(more) && s'.spent == map[]
    ensures committed ==> SameWrites(g, d, steps + [End(op)], log.history, |old(log.history)|)
  {
    hide LogOk, Reaches, Inv, CrashConsistent, CommitTrace, SameWrites, OnlyCommits, Replay;
    ghost var n := |s.spent|;
    assert |s.spent - {op}| == n - 1 by { MapMinusOne(s.spent, op); }
    Safety(g, d, steps, s);
    LastEndCommits(g, s, op);
    KeysSize(s.spent, op);
    ghost var h := log.history;
    committed := log.EndOp();
    s' := ExtendBy(g, d, steps, s, End(op));
    more := [];
    assert steps + [End(op)] + [] == steps + [End(op)];
    if committed {
      WritesAreSteps(g, d, steps + [End(op)], s', h, log.history, log.disk);
      more, s' := CommitAll(g, d, steps + [End(op)], s', h, log.history, log.disk);
    }
  }

  lemma KeysSize(spent: map<Op, set<uint32>>, op: Op)
    requires op in spent
    ensures |spent| == 1 <==> spent.Keys == {op}
  {
    if |spent| == 1 {
      assert {op} <= spent.Keys;
      if spent.Keys != {op} {
        ProperSmaller({op}, spent.Keys);
      }
    }
  }

  lemma CommitAll(g: Geometry, d: Disk, steps: seq<Step>, s: State, h: seq<Disk>, h': seq<Disk>, d': Disk)
    returns (more: seq<Step>, t: State)
    requires LogOk(g, d) && Reaches(g, d, steps, s) && s.phase.Committing? && s.phase.k == 0 && s.spent == map[]
    requires CommitTrace(g, s.phase.start, s.bs, s.phase.view, h, h', d')
    ensures OnlyCommits(more) && Reaches(g, d, steps + more, t)
    ensures t.phase.Running? && t.spent == map[] && t.bs == [] && t.dirty == map[] && t.disk == d'
  {
    hide LogOk, Reaches, CommitState;
    var n := CommitLength(|s.bs|);
    more, t := CommitTo(g, d, steps, s, n);
    CommittingAt(g, d, steps + more, t);
    if s.bs == [] {
      CommitStateStart(g, s.phase.start, s.bs, s.phase.view);
    }
    t := ExtendBy(g, d, steps + more, t, CommitDone);
    assert steps + more + [CommitDone] == steps + (more + [CommitDone]);
    more := more + [CommitDone];
    AlwaysSettled(g, d, steps + more, t);
  }
}
