/** What the kernel calls of proc.c and sleeplock.c have done by the time they return, over all
    runs of the machine in Sched. A history follows each process from the start of a call to its
    return, without looking at where in the call it is. */
module KernelCalls {
  import opened Common
  import opened ProcTable
  import opened Sched

  /** call is what each process has called and not returned from, or Idle; did, whether the call has
      done its work; inside has the pairs of a process that has returned from acquiresleep(l) and
      not yet called releasesleep(l), and l. */
  datatype System = System(s: State, call: seq<Pc>, did: seq<bool>, inside: set<(nat, nat)>)

  /** The step from s to s' by process p on CPU c does the work of the call: wait() reaps a child,
      or looks at a table without a zombie child and finds no child or that p is killed; fork()
      makes a child runnable; kill() marks the process and leaves it awake. */
  ghost predicate Does(call: Pc, s: State, s': State, c: nat, p: nat)
    requires p < |s.proc| == |s'.proc|
  {
    match call
    case WaitPt =>
      || (exists q: nat :: q < |s.proc| && ZombieChild(s.proc[q], p) && s'.proc[q].state == UNUSED)
      || (s.pt == c && NoZombie(s.proc, p) && (s.proc[p].killed || NoKids(s.proc, p)))
    case ForkAlloc =>
      exists q: nat ::
        q < |s.proc| && s.proc[q].state == EMBRYO && s'.proc[q].state == RUNNABLE && s'.proc[q].parent == p
    case KillPt(q) => q < |s'.proc| && s'.proc[q].killed && s'.proc[q].state != SLEEPING
    case _ => false
  }

  ghost predicate Returns(s: State, s': State, p: nat)
    requires p < |s.thr| && p < |s'.thr|
  {
    !s.thr[p].pc.Idle? && s'.thr[p].pc.Idle?
  }

  ghost predicate Shaped(y: System) {
    Shape(y.s) && |y.call| == |y.did| == |y.s.thr|
  }

  lemma SameSize(s: State, step: Step)
    requires Enabled(s, step)
    ensures var s' := Apply(s, step);
            |s'.proc| == |s.proc| && |s'.thr| == |s.thr| && |s'.lock| == |s.lock| && s'.init == s.init
  {
  }

  ghost function Track(y: System, step: Step): System
    requires Enabled(y.s, step) && Shaped(y)
  {
    SameSize(y.s, step);
    var s' := Apply(y.s, step);
    if !step.ProcStep? then y.(s := s')
    else
      var c, op, p := step.c, step.op, y.s.cpu[step.c].proc;
      if op.Begin? then
        System(s', y.call[p := op.pc], y.did[p := false],
               if op.pc.RelLk? then y.inside - {(p, op.pc.l)} else y.inside)
      else
        var call := if op.Reap? then y.call[op.q := Idle] else y.call;
        System(s', if Returns(y.s, s', p) then call[p := Idle] else call,
               y.did[p := y.did[p] || Does(y.call[p], y.s, s', c, p)],
               if Returns(y.s, s', p) && y.call[p].AcqLk? then y.inside + {(p, y.call[p].l)} else y.inside)
  }

  lemma TrackShape(y: System, c: nat, p: nat, op: Op)
    requires Shaped(y) && c < |y.s.cpu| && y.s.cpu[c] == Cpu(Run, p) && p < |y.s.proc| && OpEnabled(y.s, c, p, op)
    ensures Enabled(y.s, ProcStep(c, op))
    ensures var z := Track(y, ProcStep(c, op));
            && z.s == OpApply(y.s, c, p, op) && |z.call| == |y.call| && |z.did| == |y.did| && |z.s.thr| == |y.s.thr|
            && |z.s.proc| == |y.s.proc| && z.s.init == y.s.init
            && (forall q: nat :: q < |y.call| && q != p ==>
                  z.did[q] == y.did[q] && z.call[q] == if op.Reap? && op.q == q then Idle else y.call[q])
  {
    hide OpApply, Does;
    SameSize(y.s, ProcStep(c, op));
  }

  // ----- calls -----

  /** The call that a location belongs to; PtDone is the common end of three. */
  function CallOf(pc: Pc): Pc {
    match pc
    case AcqTest(l) => AcqLk(l)
    case SleepPt(l) => AcqLk(l)
    case SleepUnlk(l) => AcqLk(l)
    case SleepSet(l) => AcqLk(l)
    case SleepSwtch(l) => AcqLk(l)
    case SleepWoken(l) => AcqLk(l)
    case SleepUnPt(l) => AcqLk(l)
    case RelClear(l) => RelLk(l)
    case RelPt(l) => RelLk(l)
    case RelWake(l) => RelLk(l)
    case RelUnPt(l) => RelLk(l)
    case RelUnlk(l) => RelLk(l)
    case ExitWake => ExitPt
    case ExitOrphans => ExitPt
    case ExitZombie => ExitPt
    case ExitSwtch => ExitPt
    case Dead => ExitPt
    case WaitScan => WaitPt
    case WaitSwtch => WaitPt
    case WaitWoken => WaitPt
    case ForkParent(q) => ForkAlloc
    case ForkPt(q) => ForkAlloc
    case ForkRun(q) => ForkAlloc
    case KillMark(q) => KillPt(q)
    case _ => pc
  }

  /** A process is in the call it made; at PtDone that call has done its work. */
  ghost predicate CallOk(call: Pc, pc: Pc, did: bool) {
    || pc.Idle?
    || (pc.PtDone? && (call == Idle || ((call == WaitPt || call == ForkAlloc || call.KillPt?) && did)))
    || (!pc.PtDone? && call == CallOf(pc))
  }

  ghost predicate CallsOk(y: System) {
    Shaped(y) && forall p: nat :: p < |y.s.thr| ==> CallOk(y.call[p], y.s.thr[p].pc, y.did[p])
  }

  /** A process is an EMBRYO only while another is making it. */
  ghost predicate EmbryoAt(s: State, q: nat)
    requires q < |s.proc| == |s.thr|
  {
    s.proc[q].state == EMBRYO ==> 0 <= s.thr[q].maker < |s.thr| && Role(s, s.thr[q].maker) == Making(q)
  }

  predicate HasParent(pc: Pc) {
    pc.ForkPt? || pc.ForkRun?
  }

  /** Once fork() has set it, the maker is the parent. */
  ghost predicate ParentAt(s: State, p: nat)
    requires p < |s.proc| == |s.thr|
  {
    HasParent(s.thr[p].pc) ==> s.thr[p].pc.q < |s.proc| && s.proc[s.thr[p].pc.q].parent == p
  }

  ghost predicate EmbryosOk(s: State) {
    && Shape(s)
    && (forall q: nat :: q < |s.proc| ==> EmbryoAt(s, q))
    && (forall p: nat :: p < |s.proc| ==> ParentAt(s, p))
  }

  // ----- what a step leaves alone -----

  lemma OthersStay(s: State, c: nat, p: nat, op: Op, q: nat)
    requires c < |s.cpu| && p < |s.proc| == |s.thr| && OpEnabled(s, c, p, op) && q < |s.thr| && q != p
    ensures OpApply(s, c, p, op).thr[q].pc == if op.Reap? && op.q == q then PtDone else s.thr[q].pc
  {
  }

  lemma CpuStepStays(s: State, step: Step)
    requires Enabled(s, step) && !step.ProcStep?
    ensures var s' := Apply(s, step);
            && s'.lock == s.lock
            && (forall q: nat :: q < |s.thr| ==> s'.thr[q].pc == s.thr[q].pc && s'.thr[q].maker == s.thr[q].maker)
            && (forall q: nat :: q < |s.proc| && q < |s'.proc| ==>
                  s'.proc[q].parent == s.proc[q].parent && (s'.proc[q].state == EMBRYO ==> s.proc[q].state == EMBRYO))
  {
  }

  predicate EndsCall(op: Op) {
    op.Mark? || op.Reap? || op.WaitFails? || op.MakeRunnable?
  }

  /** Stays in the call or returns from it. */
  predicate InCall(pc: Pc, pc': Pc) {
    pc' == Idle || pc' == pc || (pc' != PtDone && CallOf(pc') == CallOf(pc))
  }

  lemma TableLockInCall(s: State, c: nat, p: nat, op: Op)
    requires c < |s.cpu| && p < |s.proc| == |s.thr| && OpEnabled(s, c, p, op)
    requires op.Preempt? || op.TakePt? || op.DropPt?
    ensures InCall(s.thr[p].pc, OpApply(s, c, p, op).thr[p].pc)
  {
  }

  lemma SleepLockInCall(s: State, c: nat, p: nat, op: Op)
    requires c < |s.cpu| && p < |s.proc| == |s.thr| && OpEnabled(s, c, p, op)
    requires op.TakeLk? || op.Test? || op.Unlk? || op.Clear?
    ensures InCall(s.thr[p].pc, OpApply(s, c, p, op).thr[p].pc)
  {
  }

  lemma SwitchInCall(s: State, c: nat, p: nat, op: Op)
    requires c < |s.cpu| && p < |s.proc| == |s.thr| && OpEnabled(s, c, p, op)
    requires op.Set? || op.Swtch? || op.Tidy? || op.Wake? || op.Abandon?
    ensures InCall(s.thr[p].pc, OpApply(s, c, p, op).thr[p].pc)
  {
    hide Woken, Orphaned;
  }

  lemma ForkInCall(s: State, c: nat, p: nat, op: Op)
    requires c < |s.cpu| && p < |s.proc| == |s.thr| && OpEnabled(s, c, p, op)
    requires op.WaitSleeps? || op.Alloc? || op.AllocFails? || op.SetParent? || op.ForkFails?
    requires s.proc[p].state != UNUSED
    ensures InCall(s.thr[p].pc, OpApply(s, c, p, op).thr[p].pc)
  {
  }

  /** Every operation but those that start or end a call. */
  lemma StaysInCall(s: State, c: nat, p: nat, op: Op)
    requires c < |s.cpu| && p < |s.proc| == |s.thr| && OpEnabled(s, c, p, op) && !op.Begin? && !EndsCall(op)
    requires s.proc[p].state != UNUSED
    ensures InCall(s.thr[p].pc, OpApply(s, c, p, op).thr[p].pc)
  {
    hide OpApply, OpEnabled, InCall;
    match op
    case Preempt => TableLockInCall(s, c, p, op);
    case TakePt => TableLockInCall(s, c, p, op);
    case DropPt => TableLockInCall(s, c, p, op);
    case TakeLk => SleepLockInCall(s, c, p, op);
    case Test => SleepLockInCall(s, c, p, op);
    case Unlk => SleepLockInCall(s, c, p, op);
    case Clear => SleepLockInCall(s, c, p, op);
    case Set => SwitchInCall(s, c, p, op);
    case Swtch => SwitchInCall(s, c, p, op);
    case Tidy => SwitchInCall(s, c, p, op);
    case Wake => SwitchInCall(s, c, p, op);
    case Abandon => SwitchInCall(s, c, p, op);
    case _ => ForkInCall(s, c, p, op);
  }

  // ----- every step keeps what the calls mean -----

  lemma ReapsChild(s: State, c: nat, p: nat, q: nat)
    requires c < |s.cpu| && p < |s.proc| == |s.thr| && OpEnabled(s, c, p, Reap(q))
    ensures var s' := OpApply(s, c, p, Reap(q));
            && |s'.proc| == |s.proc| && p < |s'.thr| && s'.thr[p].pc in {PtDone} && Does(WaitPt, s, s', c, p)
            && CallOf(s.thr[p].pc) == WaitPt && !s.thr[p].pc.PtDone? && !s.thr[p].pc.Idle?
  {
    var s' := OpApply(s, c, p, Reap(q));
    assert ZombieChild(s.proc[q], p) && s'.proc[q].state == UNUSED;
  }

  lemma FindsNone(s: State, c: nat, p: nat)
    requires RunOk(s) && c < |s.cpu| && p < |s.proc| && s.cpu[c] == Cpu(Run, p) && OpEnabled(s, c, p, WaitFails)
    ensures var s' := OpApply(s, c, p, WaitFails);
            && |s'.proc| == |s.proc| && p < |s'.thr| && s'.thr[p].pc == PtDone && Does(WaitPt, s, s', c, p)
            && CallOf(s.thr[p].pc) == WaitPt && !s.thr[p].pc.PtDone? && !s.thr[p].pc.Idle?
  {
    assert CpuOk(s, c);
  }

  /** What the three steps at the end of fork() change. */
  lemma ForkEnds(s: State, c: nat, p: nat, op: Op)
    requires c < |s.cpu| && p < |s.proc| == |s.thr| && OpEnabled(s, c, p, op) && Shape(s)
    requires op.SetParent? || op.ForkFails? || op.MakeRunnable?
    ensures s.thr[p].pc.ForkParent? || s.thr[p].pc.ForkRun?
    ensures var q, s' := s.thr[p].pc.q, OpApply(s, c, p, op);
            && Shape(s') && q < |s.proc| == |s'.proc| && Role(s, p) == Making(q)
            && (forall r: nat :: r < |s.thr| ==>
                 s'.thr[r].maker == s.thr[r].maker && (r != p ==> s'.thr[r].pc == s.thr[r].pc))
            && (forall r: nat :: r < |s.proc| && r != q ==> s'.proc[r] == s.proc[r])
            && (s'.proc[q].state == EMBRYO ==> s'.proc[q].state == s.proc[q].state)
            && (if op.SetParent? then Role(s', p) == Making(q) else s'.proc[q].state != EMBRYO)
            && (op.MakeRunnable? ==> s'.proc[q].state == RUNNABLE && s'.thr[p].pc == PtDone && s.thr[p].pc.ForkRun?)
            && (s'.proc[q].parent == if op.SetParent? then p else s.proc[q].parent) && ParentAt(s', p)
  {
  }

  lemma MakesChild(s: State, c: nat, p: nat)
    requires ForksOk(s) && EmbryosOk(s) && c < |s.cpu| && p < |s.proc| && OpEnabled(s, c, p, MakeRunnable)
    ensures var s' := OpApply(s, c, p, MakeRunnable);
            && |s'.proc| == |s.proc| && p < |s'.thr| && s'.thr[p].pc == PtDone && Does(ForkAlloc, s, s', c, p)
            && CallOf(s.thr[p].pc) == ForkAlloc && !s.thr[p].pc.PtDone? && !s.thr[p].pc.Idle?
  {
    hide OpApply, OpEnabled, EmbryoAt;
    ForkEnds(s, c, p, MakeRunnable);
    assert ParentAt(s, p);
  }

  lemma MarksProcess(s: State, c: nat, p: nat)
    requires c < |s.cpu| && p < |s.proc| == |s.thr| && OpEnabled(s, c, p, Mark)
    ensures var s' := OpApply(s, c, p, Mark);
            && |s'.proc| == |s.proc| && p < |s'.thr| && s'.thr[p].pc == PtDone && Does(CallOf(s.thr[p].pc), s, s', c, p)
            && CallOf(s.thr[p].pc).KillPt? && !s.thr[p].pc.PtDone? && !s.thr[p].pc.Idle?
  {
  }

  lemma CallAt(y: System, p: nat)
    requires CallsOk(y) && p < |y.s.proc|
    ensures |y.call| == |y.did| == |y.s.thr| == |y.s.proc| && CallOk(y.call[p], y.s.thr[p].pc, y.did[p])
  {
  }

  lemma CallsShape(y: System)
    requires CallsOk(y)
    ensures Shaped(y)
  {
  }

  lemma RunsCalls(s: State, c: nat, p: nat)
    requires Inv(s) && c < |s.cpu| && s.cpu[c] == Cpu(Run, p) && p < |s.proc|
    ensures RunOk(s) && ForksOk(s) && |s.proc| == |s.thr| && s.proc[p].state != UNUSED
  {
    assert CpuOk(s, c);
  }

  /** The operations that end a call have done its work. */
  lemma WorkDone(y: System, c: nat, p: nat, op: Op)
    requires Inv(y.s) && CallsOk(y) && EmbryosOk(y.s) && EndsCall(op)
    requires c < |y.s.cpu| && y.s.cpu[c] == Cpu(Run, p) && p < |y.s.proc| && OpEnabled(y.s, c, p, op)
    ensures var s' := OpApply(y.s, c, p, op);
            && |s'.proc| == |y.s.proc| && p < |s'.thr| && s'.thr[p].pc == PtDone && Does(y.call[p], y.s, s', c, p)
            && (y.call[p] == WaitPt || y.call[p] == ForkAlloc || y.call[p].KillPt?)
  {
    hide Inv, EmbryosOk, CallsOk, OpApply, OpEnabled, Does, RunOk, ForksOk, CallOf;
    CallAt(y, p);
    RunsCalls(y.s, c, p);
    match op
    case Mark => MarksProcess(y.s, c, p);
    case Reap(q) => ReapsChild(y.s, c, p, q);
    case WaitFails => FindsNone(y.s, c, p);
    case MakeRunnable => MakesChild(y.s, c, p);
  }

  lemma OwnCall(y: System, c: nat, p: nat, op: Op)
    requires Inv(y.s) && CallsOk(y) && EmbryosOk(y.s)
    requires c < |y.s.cpu| && y.s.cpu[c] == Cpu(Run, p) && p < |y.s.proc| && OpEnabled(y.s, c, p, op) && !op.Begin?
    ensures Enabled(y.s, ProcStep(c, op))
    ensures var z := Track(y, ProcStep(c, op));
            p < |z.s.thr| && p < |z.call| && p < |z.did| && CallOk(z.call[p], z.s.thr[p].pc, z.did[p])
  {
    hide Inv, EmbryosOk, CallsOk, Does, RunOk, ForksOk, OpApply, OpEnabled;
    CallAt(y, p);
    RunsCalls(y.s, c, p);
    assert Shaped(y) by { CallsShape(y); }
    TrackShape(y, c, p, op);
    if EndsCall(op) {
      WorkDone(y, c, p, op);
    } else {
      StaysInCall(y.s, c, p, op);
    }
  }

  lemma OwnStart(y: System, c: nat, p: nat, pc: Pc)
    requires Shaped(y) && c < |y.s.cpu| && y.s.cpu[c] == Cpu(Run, p) && p < |y.s.proc|
    requires OpEnabled(y.s, c, p, Begin(pc))
    ensures Enabled(y.s, ProcStep(c, Begin(pc)))
    ensures var z := Track(y, ProcStep(c, Begin(pc)));
            p < |z.s.thr| && p < |z.call| && p < |z.did| && CallOk(z.call[p], z.s.thr[p].pc, z.did[p])
  {
  }

  lemma CallsStep(y: System, step: Step)
    requires Inv(y.s) && CallsOk(y) && EmbryosOk(y.s) && Enabled(y.s, step)
    ensures CallsOk(Track(y, step))
  {
    hide OpEnabled, OpApply, Inv, EmbryosOk, CallOk, Does;
    SameSize(y.s, step);
    if step.ProcStep? {
      ProcCalls(y, step.c, y.s.cpu[step.c].proc, step.op);
    } else {
      CpuStepStays(y.s, step);
    }
  }

  lemma ProcCalls(y: System, c: nat, p: nat, op: Op)
    requires Inv(y.s) && CallsOk(y) && EmbryosOk(y.s)
    requires c < |y.s.cpu| && y.s.cpu[c] == Cpu(Run, p) && p < |y.s.proc| && OpEnabled(y.s, c, p, op)
    ensures Enabled(y.s, ProcStep(c, op)) && CallsOk(Track(y, ProcStep(c, op)))
  {
    hide OpEnabled, OpApply, Inv, EmbryosOk, CallOk, Does, Track;
    TrackShape(y, c, p, op);
    StillShaped(y, c, op);
    var z := Track(y, ProcStep(c, op));
    forall q: nat | q < |y.s.thr|
      ensures q < |z.call| && q < |z.did| && CallOk(z.call[q], z.s.thr[q].pc, z.did[q])
    {
      if q == p && op.Begin? {
        OwnStart(y, c, p, op.pc);
      } else if q == p {
        OwnCall(y, c, p, op);
      } else {
        OthersStay(y.s, c, p, op, q);
        StartedAlone();
      }
    }
  }

  lemma StillShaped(y: System, c: nat, op: Op)
    requires Shaped(y) && Enabled(y.s, ProcStep(c, op)) && Inv(y.s)
    ensures Shape(Apply(y.s, ProcStep(c, op)))
  {
    hide Apply, Enabled;
    StepKeeps(y.s, ProcStep(c, op));
  }

  lemma StartedAlone()
    ensures forall did :: CallOk(Idle, PtDone, did)
  {
  }

  // ----- processes under construction -----

  /** q is an embryo only if it was, with the same maker, who still makes it. */
  lemma EmbryoKept(s: State, s': State, p: nat, q: nat)
    requires Shape(s) && Shape(s') && |s'.proc| == |s.proc| && q < |s.proc| && p < |s.proc| && EmbryoAt(s, q)
    requires s'.proc[q].state == EMBRYO ==> s.proc[q].state == EMBRYO && s'.thr[q].maker == s.thr[q].maker
    requires forall r: nat :: r < |s.thr| && r != p ==>
               s'.thr[r].pc == s.thr[r].pc || (Role(s, r) == Plain && s'.thr[r].pc == PtDone)
    requires s'.proc[q].state == EMBRYO && Role(s, p) == Making(q) ==> Role(s', p) == Making(q)
    ensures EmbryoAt(s', q)
  {
  }

  lemma ParentKept(s: State, s': State, p: nat, r: nat)
    requires Shape(s) && Shape(s') && |s'.proc| == |s.proc| && r < |s.proc| && r != p && ParentAt(s, r)
    requires s'.thr[r].pc == s.thr[r].pc || s'.thr[r].pc == PtDone
    requires forall q: nat :: q < |s.proc| ==> s'.proc[q].parent == s.proc[q].parent || s.proc[q].parent == p
    ensures ParentAt(s', r)
  {
  }

  lemma EmbryosCpu(s: State, step: Step)
    requires EmbryosOk(s) && Enabled(s, step) && !step.ProcStep? && Shape(Apply(s, step))
    ensures EmbryosOk(Apply(s, step))
  {
    hide Apply, EmbryoAt, ParentAt;
    SameSize(s, step);
    CpuStepStays(s, step);
    var s' := Apply(s, step);
    forall q: nat | q < |s.proc|
      ensures EmbryoAt(s', q) && ParentAt(s', q)
    {
      CpuEmbryo(s, s', q);
    }
  }

  lemma CpuEmbryo(s: State, s': State, q: nat)
    requires Shape(s) && Shape(s') && |s'.proc| == |s.proc| && q < |s.proc| && EmbryoAt(s, q) && ParentAt(s, q)
    requires forall r: nat :: r < |s.thr| ==> s'.thr[r].pc == s.thr[r].pc && s'.thr[r].maker == s.thr[r].maker
    requires forall r: nat :: r < |s.proc| ==>
               s'.proc[r].parent == s.proc[r].parent && (s'.proc[r].state == EMBRYO ==> s.proc[r].state == EMBRYO)
    ensures EmbryoAt(s', q) && ParentAt(s', q)
  {
  }

  predicate ForkOp(op: Op) {
    op.Alloc? || op.SetParent? || op.ForkFails? || op.MakeRunnable?
  }

  /** An operation that is not fork()'s leaves makers, embryos and, but for p's own children,
      parents alone. */
  lemma NotForking(s: State, c: nat, p: nat, op: Op, q: nat)
    requires c < |s.cpu| && p < |s.proc| == |s.thr| && OpEnabled(s, c, p, op) && !ForkOp(op) && q < |s.proc|
    ensures var s' := OpApply(s, c, p, op);
            && |s'.proc| == |s.proc| && |s'.thr| == |s.thr|
            && (s'.proc[q].state == EMBRYO ==> s.proc[q].state == EMBRYO && s'.thr[q].maker == s.thr[q].maker)
            && (s'.proc[q].parent == s.proc[q].parent || s.proc[q].parent == p)
  {
  }

  /** It also stays out of fork(), or goes on in it. */
  lemma MakingStays(s: State, c: nat, p: nat, op: Op)
    requires c < |s.cpu| && p < |s.proc| == |s.thr| && OpEnabled(s, c, p, op) && !ForkOp(op) && p < |s.thr|
    ensures var pc, pc' := s.thr[p].pc, OpApply(s, c, p, op).thr[p].pc;
            && (RoleOf(pc).Making? ==> RoleOf(pc') == RoleOf(pc))
            && (pc'.ForkPt? || pc'.ForkRun? ==> (pc.ForkPt? || pc.ForkRun?) && pc.q == pc'.q)
  {
    hide Woken, Orphaned;
  }

  lemma ZombieGone(s: State, q: nat)
    requires RunOk(s) && q < |s.proc| && s.proc[q].state == ZOMBIE
    ensures s.thr[q].pc == ExitSwtch || s.thr[q].pc == Dead
  {
    OnCpu(s, q);
  }

  lemma EmbryosOther(s: State, c: nat, p: nat, op: Op)
    requires Inv(s) && EmbryosOk(s) && c < |s.cpu| && s.cpu[c] == Cpu(Run, p) && p < |s.proc| && OpEnabled(s, c, p, op)
    requires !ForkOp(op) && Shape(OpApply(s, c, p, op))
    ensures EmbryosOk(OpApply(s, c, p, op))
  {
    hide OpApply, RunOk, LksOk, WakesOk, WaitsOk, ForksOk, EmbryoAt, ParentAt;
    var s' := OpApply(s, c, p, op);
    forall q: nat | q < |s.proc|
      ensures |s'.proc| == |s.proc| && |s'.thr| == |s.thr|
      ensures s'.proc[q].state == EMBRYO ==> s.proc[q].state == EMBRYO && s'.thr[q].maker == s.thr[q].maker
      ensures s'.proc[q].parent == s.proc[q].parent || s.proc[q].parent == p
    {
      NotForking(s, c, p, op, q);
    }
    assert |s'.proc| == |s.proc| by { NotForking(s, c, p, op, p); }
    forall r: nat | r < |s.thr| && r != p
      ensures s'.thr[r].pc == s.thr[r].pc || (Role(s, r) == Plain && s'.thr[r].pc == PtDone)
    {
      OthersStay(s, c, p, op, r);
      if op.Reap? && op.q == r {
        ZombieGone(s, r);
      }
    }
    MakingStays(s, c, p, op);
    forall q: nat | q < |s.proc|
      ensures EmbryoAt(s', q) && ParentAt(s', q)
    {
      EmbryoKept(s, s', p, q);
      if q == p {
        StillParent(s, c, p, op);
      } else {
        ParentKept(s, s', p, q);
      }
    }
  }

  lemma StillParent(s: State, c: nat, p: nat, op: Op)
    requires c < |s.cpu| && p < |s.proc| == |s.thr| && OpEnabled(s, c, p, op) && !ForkOp(op) && ParentAt(s, p)
    requires |OpApply(s, c, p, op).proc| == |OpApply(s, c, p, op).thr| == |s.proc|
    ensures ParentAt(OpApply(s, c, p, op), p)
  {
    hide Woken, Orphaned;
  }

  lemma EmbryosFork(s: State, c: nat, p: nat, op: Op)
    requires Inv(s) && EmbryosOk(s) && c < |s.cpu| && s.cpu[c] == Cpu(Run, p) && p < |s.proc| && OpEnabled(s, c, p, op)
    requires op.SetParent? || op.ForkFails? || op.MakeRunnable?
    ensures EmbryosOk(OpApply(s, c, p, op))
  {
    hide OpApply, OpEnabled, RunOk, LksOk, WakesOk, WaitsOk, EmbryoAt, ParentAt, Role;
    ForkEnds(s, c, p, op);
    var s' := OpApply(s, c, p, op);
    forall x: nat | x < |s.proc|
      ensures EmbryoAt(s', x) && ParentAt(s', x)
    {
      EmbryoKept(s, s', p, x);
      if x != p {
        ForkParentKept(s, s', p, s.thr[p].pc.q, x);
      }
    }
  }

  /** A process has one maker, so p's change of q matters to no other. */
  lemma ForkParentKept(s: State, s': State, p: nat, q: nat, r: nat)
    requires ForksOk(s) && Shape(s') && |s'.proc| == |s.proc| && r < |s.proc| && p < |s.proc| && q < |s.proc| && r != p
    requires |s.thr| == |s.proc| && ParentAt(s, r) && Role(s, p) == Making(q) && s'.thr[r].pc == s.thr[r].pc
    requires forall x: nat :: x < |s.proc| && x != q ==> s'.proc[x] == s.proc[x]
    ensures ParentAt(s', r)
  {
    hide ForksOk;
    if HasParent(s.thr[r].pc) && s.thr[r].pc.q == q {
      OneMaker(s, p, r, q);
      assert false;
    }
  }

  lemma OneMaker(s: State, p: nat, r: nat, q: nat)
    requires ForksOk(s) && p < |s.proc| && r < |s.proc| && q < |s.proc|
    requires Role(s, p) == Making(q) && Role(s, r) == Making(q)
    ensures p == r
  {
  }

  lemma EmbryosAlloc(s: State, c: nat, p: nat, q: nat)
    requires Inv(s) && EmbryosOk(s) && c < |s.cpu| && s.cpu[c] == Cpu(Run, p) && p < |s.proc|
    requires OpEnabled(s, c, p, Alloc(q))
    ensures EmbryosOk(OpApply(s, c, p, Alloc(q)))
  {
    hide RunOk, LksOk, WakesOk, WaitsOk, ForksOk, EmbryoAt, ParentAt;
    RunsCalls(s, c, p);
    var s' := OpApply(s, c, p, Alloc(q));
    forall x: nat | x < |s.proc|
      ensures EmbryoAt(s', x) && ParentAt(s', x)
    {
      AllocAt(s, s', p, q, x);
    }
  }

  lemma AllocAt(s: State, s': State, p: nat, q: nat, x: nat)
    requires Shape(s) && Shape(s') && |s'.proc| == |s.proc| && x < |s.proc| && p < |s.proc| && q < |s.proc| && q != p
    requires EmbryoAt(s, x) && ParentAt(s, x) && s.thr[p].pc.ForkAlloc? && s'.thr[p].pc == ForkParent(q)
    requires s'.proc == s.proc[q := s.proc[q].(state := EMBRYO)] && s'.thr[q] == s.thr[q].(maker := p)
    requires forall r: nat :: r < |s.thr| ==>
               (r != p && r != q ==> s'.thr[r] == s.thr[r]) && (r != q ==> s'.thr[r].maker == s.thr[r].maker)
    ensures EmbryoAt(s', x) && ParentAt(s', x)
  {
  }

  lemma EmbryosStep(s: State, step: Step)
    requires Inv(s) && EmbryosOk(s) && Enabled(s, step)
    ensures EmbryosOk(Apply(s, step))
  {
    hide OpEnabled, OpApply, EmbryosOk, RunOk, LksOk, WakesOk, WaitsOk, ForksOk;
    assert Shape(Apply(s, step)) by { ShapeKept(s, step); }
    match step
    case ProcStep(c, op) =>
      var p := s.cpu[c].proc;
      if op.Alloc? {
        EmbryosAlloc(s, c, p, op.q);
      } else if ForkOp(op) {
        EmbryosFork(s, c, p, op);
      } else {
        EmbryosOther(s, c, p, op);
      }
    case _ => EmbryosCpu(s, step);
  }

  lemma ShapeKept(s: State, step: Step)
    requires Inv(s) && Enabled(s, step)
    ensures Shape(Apply(s, step))
  {
    hide Apply, Enabled;
    StepKeeps(s, step);
  }

  // ----- processes that have exited -----

  /** exit() ends in sched(), which a zombie does not come back from. */
  ghost predicate DeadOk(s: State) {
    Shape(s) && forall p: nat :: p < |s.proc| && s.thr[p].pc == Dead ==> s.proc[p].state == ZOMBIE
  }

  /** An operation leaves a zombie a zombie, or reaps it. */
  lemma ZombieStays(s: State, c: nat, p: nat, op: Op, q: nat)
    requires c < |s.cpu| && p < |s.proc| == |s.thr| && OpEnabled(s, c, p, op) && q < |s.proc| && q != p
    requires s.proc[q].state == ZOMBIE && (ForkOp(op) && !op.Alloc? ==> s.thr[p].pc.ForkParent? || s.thr[p].pc.ForkRun?)
    requires (s.thr[p].pc.ForkParent? || s.thr[p].pc.ForkRun?) ==> s.thr[p].pc.q != q
    ensures var s' := OpApply(s, c, p, op); q < |s'.proc| && (s'.proc[q].state == ZOMBIE || (op.Reap? && op.q == q))
  {
  }

  lemma DiesAsZombie(s: State, c: nat, p: nat, op: Op)
    requires RunOk(s) && c < |s.cpu| && s.cpu[c] == Cpu(Run, p) && p < |s.proc| && OpEnabled(s, c, p, op)
    requires s.thr[p].pc == Dead ==> s.proc[p].state == ZOMBIE
    ensures var s' := OpApply(s, c, p, op);
            p < |s'.thr| && p < |s'.proc| && (s'.thr[p].pc == Dead ==> s'.proc[p].state == ZOMBIE)
  {
    assert CpuOk(s, c);
  }

  lemma DeadOp(s: State, c: nat, p: nat, op: Op)
    requires Inv(s) && DeadOk(s) && c < |s.cpu| && s.cpu[c] == Cpu(Run, p) && p < |s.proc| && OpEnabled(s, c, p, op)
    requires Shape(OpApply(s, c, p, op)) && |OpApply(s, c, p, op).proc| == |s.proc|
    ensures DeadOk(OpApply(s, c, p, op))
  {
    hide OpApply, OpEnabled, LksOk, WakesOk, WaitsOk, RunOk;
    var s' := OpApply(s, c, p, op);
    forall q: nat | q < |s.proc| && s'.thr[q].pc == Dead
      ensures s'.proc[q].state == ZOMBIE
    {
      if q == p {
        DiesAsZombie(s, c, p, op);
      } else {
        OthersStay(s, c, p, op, q);
        NotMaking(s, p, q);
        ForkPcs(s, c, p, op);
        ZombieStays(s, c, p, op, q);
      }
    }
  }

  lemma ForkPcs(s: State, c: nat, p: nat, op: Op)
    requires c < |s.cpu| && p < |s.proc| == |s.thr| && OpEnabled(s, c, p, op)
    ensures ForkOp(op) && !op.Alloc? ==> s.thr[p].pc.ForkParent? || s.thr[p].pc.ForkRun?
  {
  }

  lemma NotMaking(s: State, p: nat, q: nat)
    requires ForksOk(s) && RunOk(s) && p < |s.proc| && q < |s.proc| && s.proc[q].state == ZOMBIE
    ensures s.thr[p].pc.ForkParent? || s.thr[p].pc.ForkRun? ==> s.thr[p].pc.q != q
  {
    assert ProcOk(s, p);
    if s.thr[p].pc.ForkParent? || s.thr[p].pc.ForkRun? {
      assert Role(s, p) == Making(s.thr[p].pc.q);
    }
  }

  lemma DeadStep(s: State, step: Step)
    requires Inv(s) && DeadOk(s) && Enabled(s, step)
    ensures DeadOk(Apply(s, step))
  {
    hide OpApply, OpEnabled, RunOk, LksOk, WakesOk, WaitsOk, ForksOk, DeadOk;
    assert Shape(Apply(s, step)) by { ShapeKept(s, step); }
    SameSize(s, step);
    match step
    case ProcStep(c, op) => DeadOp(s, c, s.cpu[c].proc, op);
    case _ => DeadCpu(s, step);
  }

  lemma DeadCpu(s: State, step: Step)
    requires RunOk(s) && DeadOk(s) && Enabled(s, step) && !step.ProcStep? && Shape(Apply(s, step))
    ensures DeadOk(Apply(s, step))
  {
    if step.CpuSwitch? {
      assert CpuOk(s, step.c);
    }
  }

  // ----- sleep channels -----

  /** What a process at pc sleeps on, or has been woken from. */
  function ChanFor(pc: Pc, p: nat): Chan {
    match pc
    case SleepSwtch(l) => OnLock(l)
    case SleepWoken(l) => OnLock(l)
    case WaitSwtch => OnProc(p)
    case WaitWoken => OnProc(p)
    case _ => NoChan
  }

  /** p->chan is set exactly while p is in sleep(). */
  ghost predicate ChansOk(s: State) {
    Shape(s) && forall p: nat :: p < |s.proc| ==> s.proc[p].chan == ChanFor(s.thr[p].pc, p)
  }

  lemma OwnChan(s: State, c: nat, p: nat, op: Op)
    requires c < |s.cpu| && p < |s.proc| == |s.thr| && OpEnabled(s, c, p, op)
    requires s.proc[p].chan == ChanFor(s.thr[p].pc, p) && (op.Reap? ==> op.q != p)
    ensures var s' := OpApply(s, c, p, op);
            p < |s'.thr| && p < |s'.proc| && s'.proc[p].chan == ChanFor(s'.thr[p].pc, p)
  {
  }

  lemma OthersChan(s: State, c: nat, p: nat, op: Op, q: nat)
    requires c < |s.cpu| && p < |s.proc| == |s.thr| && OpEnabled(s, c, p, op) && q < |s.proc| && q != p
    ensures q < |OpApply(s, c, p, op).proc| && OpApply(s, c, p, op).proc[q].chan == s.proc[q].chan
  {
  }

  lemma NotReapingItself(s: State, c: nat, p: nat, op: Op)
    requires RunOk(s) && c < |s.cpu| && s.cpu[c] == Cpu(Run, p) && p < |s.proc| && OpEnabled(s, c, p, op)
    ensures op.Reap? ==> op.q != p
  {
    assert CpuOk(s, c);
  }

  lemma ChansOp(s: State, c: nat, p: nat, op: Op)
    requires RunOk(s) && ChansOk(s) && c < |s.cpu| && s.cpu[c] == Cpu(Run, p) && p < |s.proc| && OpEnabled(s, c, p, op)
    requires Shape(OpApply(s, c, p, op)) && |OpApply(s, c, p, op).proc| == |s.proc|
    ensures ChansOk(OpApply(s, c, p, op))
  {
    hide OpApply, OpEnabled, RunOk;
    var s' := OpApply(s, c, p, op);
    NotReapingItself(s, c, p, op);
    forall q: nat | q < |s.proc|
      ensures s'.proc[q].chan == ChanFor(s'.thr[q].pc, q)
    {
      if q == p {
        OwnChan(s, c, p, op);
      } else {
        OthersStay(s, c, p, op, q);
        OthersChan(s, c, p, op, q);
        if op.Reap? && op.q == q {
          ReapsZombie(s, c, p, op);
          ZombieGone(s, q);
        }
      }
    }
  }

  lemma ReapsZombie(s: State, c: nat, p: nat, op: Op)
    requires c < |s.cpu| && p < |s.proc| == |s.thr| && OpEnabled(s, c, p, op) && op.Reap?
    ensures op.q < |s.proc| && s.proc[op.q].state == ZOMBIE
  {
  }

  lemma ChansStep(s: State, step: Step)
    requires Inv(s) && ChansOk(s) && Enabled(s, step)
    ensures ChansOk(Apply(s, step))
  {
    hide OpApply, OpEnabled, RunOk, LksOk, WakesOk, WaitsOk, ForksOk, ChansOk;
    assert Shape(Apply(s, step)) by { ShapeKept(s, step); }
    SameSize(s, step);
    match step
    case ProcStep(c, op) => ChansOp(s, c, s.cpu[c].proc, op);
    case _ => ChansCpu(s, step);
  }

  lemma ChansCpu(s: State, step: Step)
    requires ChansOk(s) && Enabled(s, step) && !step.ProcStep? && Shape(Apply(s, step))
    ensures ChansOk(Apply(s, step))
  {
  }

  // ----- sleep locks -----

  predicate Releasing(pc: Pc, l: nat) {
    pc == RelLk(l) || pc == RelClear(l)
  }

  /** p has l: it is inside, or in releasesleep() before lk->locked is cleared. */
  ghost predicate Has(y: System, p: nat, l: nat)
    requires p < |y.s.thr|
  {
    (p, l) in y.inside || Releasing(y.s.thr[p].pc, l)
  }

  ghost predicate LocksOk(y: System) {
    && Shaped(y)
    && (forall x :: x in y.inside ==> x.0 < |y.s.thr| && x.1 < |y.s.lock| && !Releasing(y.s.thr[x.0].pc, x.1))
    && (forall p: nat, q: nat, l: nat :: p < |y.s.thr| && q < |y.s.thr| && Has(y, p, l) && Has(y, q, l) ==> p == q)
    && (forall p: nat, l: nat :: p < |y.s.thr| && l < |y.s.lock| && Has(y, p, l) ==> y.s.lock[l].locked)
    && (forall l: nat :: l < |y.s.lock| && y.s.lock[l].locked ==> exists p: nat :: p < |y.s.thr| && Has(y, p, l))
  }

  /** releasesleep() is called only by a process that is inside, as its callers must see to. */
  ghost predicate Rightful(y: System, step: Step)
    requires Enabled(y.s, step)
  {
    step.ProcStep? && step.op.Begin? && step.op.pc.RelLk? ==> (y.s.cpu[step.c].proc as int, step.op.pc.l) in y.inside
  }

  /** Nobody gets or gives up a lock. */
  lemma LocksSame(y: System, z: System)
    requires LocksOk(y) && Shaped(z) && |z.s.thr| == |y.s.thr| && |z.s.lock| == |y.s.lock|
    requires forall x :: x in z.inside ==> x in y.inside
    requires forall p: nat, l: nat :: p < |y.s.thr| ==> (Has(z, p, l) <==> Has(y, p, l))
    requires forall x :: x in z.inside && x.0 < |z.s.thr| ==> !Releasing(z.s.thr[x.0].pc, x.1)
    requires forall l: nat :: l < |y.s.lock| ==> z.s.lock[l].locked == y.s.lock[l].locked
    ensures LocksOk(z)
  {
    hide Has, Releasing;
    forall l: nat | l < |z.s.lock| && z.s.lock[l].locked
      ensures exists p: nat :: p < |z.s.thr| && Has(z, p, l)
    {
      assert y.s.lock[l].locked;
      var p: nat :| p < |y.s.thr| && Has(y, p, l);
      assert Has(z, p, l);
    }
  }

  /** acquiresleep() returns. */
  lemma LockTaken(y: System, z: System, p: nat, l: nat)
    requires LocksOk(y) && Shaped(z) && |z.s.thr| == |y.s.thr| && |z.s.lock| == |y.s.lock| && p < |y.s.thr|
    requires l < |y.s.lock| && !y.s.lock[l].locked && z.s.lock[l].locked && z.inside == y.inside + {(p, l)}
    requires z.s.thr[p].pc == Idle && !y.s.thr[p].pc.RelLk? && !y.s.thr[p].pc.RelClear?
    requires forall q: nat :: q < |y.s.thr| && q != p ==> z.s.thr[q].pc == y.s.thr[q].pc
    requires forall k: nat :: k < |y.s.lock| && k != l ==> z.s.lock[k].locked == y.s.lock[k].locked
    ensures LocksOk(z)
  {
    forall q: nat, k: nat | q < |y.s.thr|
      ensures Has(z, q, k) <==> Has(y, q, k) || (q == p && k == l)
    {
    }
    hide Has;
    forall k: nat | k < |z.s.lock| && z.s.lock[k].locked
      ensures exists q: nat :: q < |z.s.thr| && Has(z, q, k)
    {
      if k == l {
        assert Has(z, p, l);
      } else {
        var q: nat :| q < |y.s.thr| && Has(y, q, k);
        assert Has(z, q, k);
      }
    }
  }

  /** releasesleep() clears lk->locked. */
  lemma LockFreed(y: System, z: System, p: nat, l: nat)
    requires LocksOk(y) && Shaped(z) && |z.s.thr| == |y.s.thr| && |z.s.lock| == |y.s.lock| && p < |y.s.thr|
    requires l < |y.s.lock| && !z.s.lock[l].locked && z.inside == y.inside
    requires y.s.thr[p].pc == RelClear(l) && z.s.thr[p].pc == RelPt(l)
    requires forall q: nat :: q < |y.s.thr| && q != p ==> z.s.thr[q].pc == y.s.thr[q].pc
    requires forall k: nat :: k < |y.s.lock| && k != l ==> z.s.lock[k].locked == y.s.lock[k].locked
    ensures LocksOk(z)
  {
    assert Has(y, p, l) && (p, l) !in y.inside;
    forall q: nat, k: nat | q < |y.s.thr|
      ensures Has(z, q, k) <==> Has(y, q, k) && !(q == p && k == l)
    {
    }
    hide Has;
    forall k: nat | k < |z.s.lock| && z.s.lock[k].locked
      ensures exists q: nat :: q < |z.s.thr| && Has(z, q, k)
    {
      var q: nat :| q < |y.s.thr| && Has(y, q, k);
      assert Has(z, q, k);
    }
  }

  predicate LockOp(op: Op) {
    op.Begin? || op.TakeLk? || op.Test? || op.Clear?
  }

  /** Only the four lock operations touch lk->locked or move a process in or out of the places
      where it has the lock, and acquiresleep() returns by Test only. */
  lemma NotLocking(s: State, c: nat, p: nat, op: Op)
    requires c < |s.cpu| && p < |s.proc| == |s.thr| && OpEnabled(s, c, p, op) && !LockOp(op)
    ensures var s' := OpApply(s, c, p, op);
            && |s'.lock| == |s.lock| && |s'.thr| == |s.thr|
            && (forall l: nat :: l < |s.lock| ==> s'.lock[l].locked == s.lock[l].locked)
            && (forall l: nat :: Releasing(s'.thr[p].pc, l) <==> Releasing(s.thr[p].pc, l))
            && (CallOf(s.thr[p].pc).AcqLk? ==> !s'.thr[p].pc.Idle?)
  {
    hide Woken, Orphaned;
  }

  lemma LocksOther(y: System, c: nat, p: nat, op: Op)
    requires Inv(y.s) && CallsOk(y) && EmbryosOk(y.s) && LocksOk(y) && !LockOp(op)
    requires c < |y.s.cpu| && y.s.cpu[c] == Cpu(Run, p) && p < |y.s.proc| && OpEnabled(y.s, c, p, op)
    ensures Enabled(y.s, ProcStep(c, op)) && LocksOk(Track(y, ProcStep(c, op)))
  {
    hide OpEnabled, OpApply, Inv, EmbryosOk, CallsOk, Does, Releasing;
    TrackShape(y, c, p, op);
    NotLocking(y.s, c, p, op);
    CallAt(y, p);
    StillShaped(y, c, op);
    var z := Track(y, ProcStep(c, op));
    assert z.inside == y.inside;
    forall q: nat, l: nat | q < |y.s.thr|
      ensures Releasing(z.s.thr[q].pc, l) <==> Releasing(y.s.thr[q].pc, l)
    {
      if q != p {
        RunsCalls(y.s, c, p);
        OthersRelease(y.s, c, p, op, q, l);
      }
    }
    LocksSame(y, z);
  }

  lemma OthersRelease(s: State, c: nat, p: nat, op: Op, q: nat, l: nat)
    requires RunOk(s) && c < |s.cpu| && p < |s.proc| == |s.thr| && OpEnabled(s, c, p, op) && q < |s.thr| && q != p
    ensures q < |OpApply(s, c, p, op).thr|
    ensures Releasing(OpApply(s, c, p, op).thr[q].pc, l) <==> Releasing(s.thr[q].pc, l)
  {
    OthersStay(s, c, p, op, q);
    if op.Reap? && op.q == q {
      ZombieGone(s, q);
    }
    hide OpApply, RunOk;
  }

  lemma LocksBegin(y: System, c: nat, p: nat, pc: Pc)
    requires Inv(y.s) && LocksOk(y)
    requires c < |y.s.cpu| && y.s.cpu[c] == Cpu(Run, p) && p < |y.s.proc| && OpEnabled(y.s, c, p, Begin(pc))
    requires pc.RelLk? ==> (p, pc.l) in y.inside
    ensures Enabled(y.s, ProcStep(c, Begin(pc))) && LocksOk(Track(y, ProcStep(c, Begin(pc))))
  {
    hide Inv, LocksOk;
    assert Shaped(y) by { LocksShape(y); }
    TrackShape(y, c, p, Begin(pc));
    StillShaped(y, c, Begin(pc));
    var z := Track(y, ProcStep(c, Begin(pc)));
    forall q: nat, l: nat | q < |y.s.thr|
      ensures Has(z, q, l) <==> Has(y, q, l)
    {
    }
    LocksNotReleasing(y);
    LocksSame(y, z);
  }

  lemma LocksShape(y: System)
    requires LocksOk(y)
    ensures Shaped(y)
  {
  }

  lemma LocksNotReleasing(y: System)
    requires LocksOk(y)
    ensures forall x :: x in y.inside ==> x.0 < |y.s.thr| && x.1 < |y.s.lock| && !Releasing(y.s.thr[x.0].pc, x.1)
  {
  }

  /** The effect of the lock operations but Begin on the places and on lk->locked. */
  lemma Locking(s: State, c: nat, p: nat, op: Op)
    requires c < |s.cpu| && p < |s.proc| == |s.thr| && OpEnabled(s, c, p, op) && LockOp(op) && !op.Begin?
    ensures var s', pc := OpApply(s, c, p, op), s.thr[p].pc;
            && |s'.lock| == |s.lock| && |s'.thr| == |s.thr| && !pc.Idle?
            && (forall q: nat :: q < |s.thr| && q != p ==> s'.thr[q].pc == s.thr[q].pc)
            && (op.TakeLk? ==>
                 !s'.thr[p].pc.Idle? && (forall l: nat :: Releasing(s'.thr[p].pc, l) <==> Releasing(pc, l)))
            && (op.TakeLk? ==> forall l: nat :: l < |s.lock| ==> s'.lock[l].locked == s.lock[l].locked)
            && (op.Test? ==> pc.AcqTest? && pc.l < |s.lock|)
            && (op.Test? && s.lock[pc.l].locked ==> s'.lock == s.lock && s'.thr[p].pc == SleepPt(pc.l))
            && (op.Test? && !s.lock[pc.l].locked ==> s'.lock[pc.l].locked && s'.thr[p].pc == Idle)
            && (op.Clear? ==> pc.RelClear? && pc.l < |s.lock| && !s'.lock[pc.l].locked && s'.thr[p].pc == RelPt(pc.l))
            && (op.Test? || op.Clear? ==>
                  forall l: nat :: l < |s.lock| && l != pc.l ==> s'.lock[l].locked == s.lock[l].locked)
  {
  }

  lemma LocksLocking(y: System, c: nat, p: nat, op: Op)
    requires Inv(y.s) && CallsOk(y) && LocksOk(y) && LockOp(op) && !op.Begin?
    requires c < |y.s.cpu| && y.s.cpu[c] == Cpu(Run, p) && p < |y.s.proc| && OpEnabled(y.s, c, p, op)
    ensures Enabled(y.s, ProcStep(c, op)) && LocksOk(Track(y, ProcStep(c, op)))
  {
    hide OpEnabled, OpApply, Inv, CallsOk, Does, LocksOk;
    assert Shaped(y) by { LocksShape(y); }
    TrackShape(y, c, p, op);
    Locking(y.s, c, p, op);
    CallAt(y, p);
    StillShaped(y, c, op);
    LocksNotReleasing(y);
    var z, pc := Track(y, ProcStep(c, op)), y.s.thr[p].pc;
    if op.Test? && !y.s.lock[pc.l].locked {
      LockTaken(y, z, p, pc.l);
    } else if op.Clear? {
      LockFreed(y, z, p, pc.l);
    } else {
      forall q: nat, l: nat | q < |y.s.thr|
        ensures Has(z, q, l) <==> Has(y, q, l)
      {
      }
      LocksSame(y, z);
    }
  }

  lemma LocksStep(y: System, step: Step)
    requires Inv(y.s) && CallsOk(y) && EmbryosOk(y.s) && LocksOk(y) && Enabled(y.s, step) && Rightful(y, step)
    ensures LocksOk(Track(y, step))
  {
    hide OpEnabled, OpApply, Inv, CallsOk, EmbryosOk, LocksOk, Track;
    match step
    case ProcStep(c, op) =>
      var p := y.s.cpu[c].proc;
      if op.Begin? {
        LocksBegin(y, c, p, op.pc);
      } else if LockOp(op) {
        LocksLocking(y, c, p, op);
      } else {
        LocksOther(y, c, p, op);
      }
    case _ => LocksCpu(y, step);
  }

  lemma LocksCpu(y: System, step: Step)
    requires Inv(y.s) && LocksOk(y) && Enabled(y.s, step) && !step.ProcStep?
    ensures LocksOk(Track(y, step))
  {
    hide Inv, LocksOk, Apply;
    assert Shaped(y) by { LocksShape(y); }
    SameSize(y.s, step);
    CpuStepStays(y.s, step);
    ShapeKept(y.s, step);
    LocksNotReleasing(y);
    LocksSame(y, Track(y, step));
  }

  // ----- whole runs -----

  ghost predicate Boots(y: System) {
    && Boot(y.s) && |y.call| == |y.did| == |y.s.thr| && y.inside == {}
    && forall p: nat :: p < |y.call| ==> y.call[p] == Idle
  }

  /** A run of the machine with its history. */
  ghost predicate IsTracked(ys: seq<System>, steps: seq<Step>) {
    && |ys| == |steps| + 1 && Boots(ys[0])
    && forall i :: 0 <= i < |steps| ==> Takes(ys[i], steps[i], ys[i + 1])
  }

  ghost predicate Takes(y: System, step: Step, z: System) {
    Shaped(y) && Enabled(y.s, step) && z == Track(y, step)
  }

  ghost predicate AllRightful(ys: seq<System>, steps: seq<Step>, n: nat) {
    n <= |steps| && n < |ys| && forall i :: 0 <= i < n ==> Enabled(ys[i].s, steps[i]) && Rightful(ys[i], steps[i])
  }

  lemma BootsOk(y: System)
    requires Boots(y)
    ensures Inv(y.s) && CallsOk(y) && EmbryosOk(y.s) && DeadOk(y.s) && ChansOk(y.s) && LocksOk(y)
  {
    BootInv(y.s);
    hide Inv;
  }

  lemma TrackApplies(y: System, step: Step)
    requires Shaped(y) && Enabled(y.s, step)
    ensures Track(y, step).s == Apply(y.s, step)
  {
    hide Apply, Does;
    SameSize(y.s, step);
  }

  lemma {:induction false} AlwaysInCalls(ys: seq<System>, steps: seq<Step>, i: nat)
    requires IsTracked(ys, steps) && i < |ys|
    ensures Inv(ys[i].s) && CallsOk(ys[i]) && EmbryosOk(ys[i].s) && DeadOk(ys[i].s) && ChansOk(ys[i].s)
  {
    hide Boots, Track, Inv, CallsOk, EmbryosOk, DeadOk, ChansOk, Enabled, Apply;
    if i == 0 {
      BootsOk(ys[0]);
    } else {
      AlwaysInCalls(ys, steps, i - 1);
      assert Takes(ys[i - 1], steps[i - 1], ys[i]);
      TrackApplies(ys[i - 1], steps[i - 1]);
      StepKeeps(ys[i - 1].s, steps[i - 1]);
      CallsStep(ys[i - 1], steps[i - 1]);
      EmbryosStep(ys[i - 1].s, steps[i - 1]);
      DeadStep(ys[i - 1].s, steps[i - 1]);
      ChansStep(ys[i - 1].s, steps[i - 1]);
    }
  }

  lemma {:induction false} LocksAlwaysOk(ys: seq<System>, steps: seq<Step>, i: nat)
    requires IsTracked(ys, steps) && AllRightful(ys, steps, i)
    ensures LocksOk(ys[i])
  {
    hide Boots, Track, Inv, CallsOk, EmbryosOk, DeadOk, ChansOk, Enabled, LocksOk, Rightful;
    if i == 0 {
      BootsOk(ys[0]);
    } else {
      LocksAlwaysOk(ys, steps, i - 1);
      AlwaysInCalls(ys, steps, i - 1);
      assert Takes(ys[i - 1], steps[i - 1], ys[i]);
      LocksStep(ys[i - 1], steps[i - 1]);
    }
  }

  /** Sleep locks exclude: in every run in which only a process that is inside calls
      releasesleep(), at most one process at a time has returned from acquiresleep(l) and not yet
      called releasesleep(l), and lk->locked is set while one has. */
  lemma SleepLocksExclude(ys: seq<System>, steps: seq<Step>, i: nat, p: nat, q: nat, l: nat)
    requires IsTracked(ys, steps) && AllRightful(ys, steps, i) && (p, l) in ys[i].inside
    ensures l < |ys[i].s.lock| && ys[i].s.lock[l].locked
    ensures (q, l) in ys[i].inside ==> q == p
  {
    hide IsTracked, Rightful, Enabled;
    LocksAlwaysOk(ys, steps, i);
    assert Has(ys[i], p, l);
    if (q, l) in ys[i].inside {
      assert Has(ys[i], q, l);
    }
  }

  /** And it is set only then, or while the last one inside is about to clear it. */
  lemma LockedOnlyByOne(ys: seq<System>, steps: seq<Step>, i: nat, l: nat) returns (p: nat)
    requires IsTracked(ys, steps) && AllRightful(ys, steps, i) && l < |ys[i].s.lock| && ys[i].s.lock[l].locked
    ensures p < |ys[i].s.thr| && ((p, l) in ys[i].inside || Releasing(ys[i].s.thr[p].pc, l))
  {
    hide IsTracked, Rightful, Enabled;
    LocksAlwaysOk(ys, steps, i);
    p :| p < |ys[i].s.thr| && Has(ys[i], p, l);
  }

  /** No process is left half-made by p. */
  ghost predicate NoneHalfMade(s: State, p: nat) {
    forall q: nat :: q < |s.proc| && q < |s.thr| && s.proc[q].state == EMBRYO ==> s.thr[q].maker != p
  }

  /** What holds of process p when its call returns. */
  ghost predicate WorkIsDone(call: Pc, did: bool, s': State, p: nat) {
    && !call.ExitPt?
    && (call.WaitPt? || call.KillPt? ==> did)
    && (call.ForkAlloc? ==> did || NoneHalfMade(s', p))
  }

  /** Calls do their work: when wait(), fork() or kill() returns, it has done what Does says, or it
      is a fork() that failed and left nothing half-made; exit() does not return. */
  lemma CallsDoTheirWork(ys: seq<System>, steps: seq<Step>, i: nat, c: nat, op: Op, p: nat)
    requires IsTracked(ys, steps) && i < |steps| && steps[i] == ProcStep(c, op) && !op.Begin?
    requires c < |ys[i].s.cpu| && ys[i].s.cpu[c].proc == p && p < |ys[i].s.thr| && p < |ys[i + 1].s.thr|
    requires p < |ys[i].call| && p < |ys[i].did| && Returns(ys[i].s, ys[i + 1].s, p)
    ensures WorkIsDone(ys[i].call[p], ys[i].did[p], ys[i + 1].s, p)
  {
    hide IsTracked, Inv, CallsOk, EmbryosOk, DeadOk, ChansOk, NoneHalfMade, OpApply, OpEnabled;
    TakesAt(ys, steps, i);
    AlwaysInCalls(ys, steps, i);
    AlwaysInCalls(ys, steps, i + 1);
    CallAtReturn(ys[i], c, p, op);
    IdleMakesNone(ys[i + 1].s, p);
  }

  lemma IdleMakesNone(s: State, p: nat)
    requires EmbryosOk(s) && p < |s.thr| && s.thr[p].pc.Idle?
    ensures NoneHalfMade(s, p)
  {
    forall q: nat | q < |s.proc| && q < |s.thr| && s.proc[q].state == EMBRYO
      ensures s.thr[q].maker != p
    {
      assert EmbryoAt(s, q);
    }
  }

  lemma TakesAt(ys: seq<System>, steps: seq<Step>, i: nat)
    requires IsTracked(ys, steps) && i < |steps|
    ensures |ys| == |steps| + 1 && Takes(ys[i], steps[i], ys[i + 1])
  {
  }

  /** A process returns from wait() and kill() at PtDone, and from exit() never. */
  lemma CallAtReturn(y: System, c: nat, p: nat, op: Op)
    requires Inv(y.s) && CallsOk(y) && c < |y.s.cpu| && y.s.cpu[c] == Cpu(Run, p) && p < |y.s.proc|
    requires |y.s.proc| == |y.s.thr| && OpEnabled(y.s, c, p, op) && !op.Begin?
    requires p < |OpApply(y.s, c, p, op).thr| && Returns(y.s, OpApply(y.s, c, p, op), p)
    ensures p < |y.call| && p < |y.did| && !y.call[p].ExitPt?
    ensures y.call[p].WaitPt? || y.call[p].KillPt? ==> y.did[p]
  {
    hide Inv, CallsOk, OpApply, OpEnabled;
    CallAt(y, p);
    LeavesFrom(y.s, c, p, op);
  }

  lemma LeavesFrom(s: State, c: nat, p: nat, op: Op)
    requires c < |s.cpu| && p < |s.proc| == |s.thr| && OpEnabled(s, c, p, op) && !op.Begin?
    requires p < |OpApply(s, c, p, op).thr| && Returns(s, OpApply(s, c, p, op), p)
    ensures var pc := s.thr[p].pc; pc.AcqTest? || pc.RelUnlk? || pc.ForkAlloc? || pc.ForkParent? || pc.PtDone?
  {
    hide Woken, Orphaned;
  }

  // ----- spin locks never deadlock -----

  /** CPU c can take a step of its own. */
  ghost predicate CanMove(s: State, c: nat) {
    || Enabled(s, CpuUnlock(c)) || Enabled(s, CpuSwitch(c)) || Enabled(s, CpuBack(c))
    || exists op :: Enabled(s, ProcStep(c, op))
  }

  lemma Moves(s: State, c: nat, op: Op)
    requires Enabled(s, ProcStep(c, op))
    ensures CanMove(s, c)
  {
  }

  /** The operation at each location but the scan of wait(). */
  function Following(t: Thread): Op {
    match t.yielding
    case YieldPt => TakePt
    case YieldSet => Set
    case YieldSwtch => Swtch
    case YieldUnPt => DropPt
    case NoYield =>
      match t.pc
      case Idle => Begin(WaitPt)
      case AcqLk(_) => TakeLk
      case AcqTest(_) => Test
      case SleepUnlk(_) => Unlk
      case SleepSet(_) => Set
      case SleepSwtch(_) => Swtch
      case SleepWoken(_) => Tidy
      case SleepUnPt(_) => DropPt
      case RelLk(_) => TakeLk
      case RelClear(_) => Clear
      case RelWake(_) => Wake
      case RelUnPt(_) => DropPt
      case RelUnlk(_) => Unlk
      case ExitWake => Wake
      case ExitOrphans => Abandon
      case ExitZombie => Set
      case ExitSwtch => Swtch
      case WaitSwtch => Swtch
      case WaitWoken => Tidy
      case ForkAlloc => AllocFails
      case ForkParent(_) => SetParent
      case ForkRun(_) => MakeRunnable
      case KillMark(_) => Mark
      case PtDone => DropPt
      case _ => TakePt
  }

  /** p waits for a spin lock that is taken. */
  predicate Waits(s: State, t: Thread) {
    || (WantsPt(t) && s.pt != -1)
    || (t.yielding == NoYield && (t.pc.AcqLk? || t.pc.RelLk?) && t.pc.l < |s.lock| && s.lock[t.pc.l].holder != -1)
  }

  lemma ScanMoves(s: State, c: nat, p: nat)
    requires c < |s.cpu| && p < |s.proc| == |s.thr| && s.thr[p].yielding == NoYield && s.thr[p].pc.WaitScan?
    ensures exists op :: OpEnabled(s, c, p, op)
  {
    if !NoZombie(s.proc, p) {
      var q: nat :| q < |s.proc| && ZombieChild(s.proc[q], p);
      assert OpEnabled(s, c, p, Reap(q));
    } else if s.proc[p].killed || NoKids(s.proc, p) {
      assert OpEnabled(s, c, p, WaitFails);
    } else {
      assert OpEnabled(s, c, p, WaitSleeps);
    }
  }

  /** A running process that does not wait for a taken spin lock can go on. */
  lemma RunnerMoves(s: State, c: nat, p: nat)
    requires RunOk(s) && DeadOk(s) && c < |s.cpu| && s.cpu[c] == Cpu(Run, p) && p < |s.proc| && !Waits(s, s.thr[p])
    ensures exists op :: OpEnabled(s, c, p, op)
  {
    var t := s.thr[p];
    assert ProcOk(s, p) && CpuOk(s, c);
    if t.yielding == NoYield && t.pc.WaitScan? {
      ScanMoves(s, c, p);
    } else {
      assert OpEnabled(s, c, p, Following(t));
    }
  }

  lemma HolderWaitsNot(t: Thread)
    requires HoldsPt(t) && (t.yielding != NoYield ==> NoLocks(t.pc))
    ensures !WantsPt(t) && (t.yielding == NoYield ==> !t.pc.AcqLk? && !t.pc.RelLk?)
  {
  }

  /** Whoever has ptable.lock can go on. */
  lemma TableLockMoves(s: State, c: nat)
    requires RunOk(s) && DeadOk(s) && s.pt == c
    ensures CanMove(s, c)
  {
    assert CpuOk(s, c);
    if s.cpu[c].at == Run {
      var p := s.cpu[c].proc;
      assert ProcOk(s, p);
      HolderWaitsNot(s.thr[p]);
      RunningMoves(s, c);
    }
  }

  lemma RunningMoves(s: State, c: nat)
    requires RunOk(s) && DeadOk(s) && c < |s.cpu| && s.cpu[c].at == Run
    ensures 0 <= s.cpu[c].proc < |s.thr| && (Waits(s, s.thr[s.cpu[c].proc]) || CanMove(s, c))
  {
    hide OpEnabled, DeadOk, Waits;
    assert CpuOk(s, c);
    var p := s.cpu[c].proc;
    if !Waits(s, s.thr[p]) {
      RunnerMoves(s, c, p);
      var op :| OpEnabled(s, c, p, op);
      Moves(s, c, op);
    }
  }

  /** The holder of a sleep lock's spin lock is running. */
  lemma SpinHolderRuns(s: State, l: nat)
    requires RunOk(s) && LksOk(s) && l < |s.lock| && s.lock[l].holder >= 0
    ensures var p := s.lock[l].holder;
            && 0 <= p < |s.thr| && 0 <= s.thr[p].cpu < |s.cpu| && s.cpu[s.thr[p].cpu] == Cpu(Run, p)
            && !(s.thr[p].yielding == NoYield && (s.thr[p].pc.AcqLk? || s.thr[p].pc.RelLk?))
  {
    var p := s.lock[l].holder;
    OnCpu(s, p);
  }

  /** No deadlock among the spin locks: in every reachable state, if ptable.lock is taken, the CPU
      that has it can take a step; if a sleep lock's spin lock is taken, its holder is running, and
      it or the CPU that has ptable.lock can take a step; and any other running process can take
      one unless it waits for a taken spin lock. */
  lemma SpinLocksMove(ys: seq<System>, steps: seq<Step>, i: nat, l: nat, c: nat)
    requires IsTracked(ys, steps) && i < |ys|
    ensures ys[i].s.pt >= 0 ==> CanMove(ys[i].s, ys[i].s.pt)
    ensures l < |ys[i].s.lock| && ys[i].s.lock[l].holder >= 0 ==>
              exists d: nat :: CanMove(ys[i].s, d) && (d == ys[i].s.pt || HolderOn(ys[i].s, l, d))
    ensures var s := ys[i].s;
            c < |s.cpu| && s.cpu[c].at == Run ==>
              0 <= s.cpu[c].proc < |s.thr| && (Waits(s, s.thr[s.cpu[c].proc]) || CanMove(s, c))
  {
    hide IsTracked, RunOk, LksOk, WakesOk, WaitsOk, ForksOk, DeadOk, ChansOk, CanMove;
    AlwaysInCalls(ys, steps, i);
    var s := ys[i].s;
    if s.pt >= 0 {
      TableLockMoves(s, s.pt);
    } else if l < |s.lock| && s.lock[l].holder >= 0 {
      assert s.pt == -1 by { PtIsNone(s); }
      SpinHolderRuns(s, l);
      var d := s.thr[s.lock[l].holder].cpu;
      assert HolderOn(s, l, d);
      RunningMoves(s, d);
    }
    if c < |s.cpu| && s.cpu[c].at == Run {
      RunningMoves(s, c);
    }
  }

  /** Whenever ptable.lock is free, a CPU without a process can have any runnable process running
      three steps later. */
  lemma RunnableCanRun(ys: seq<System>, steps: seq<Step>, i: nat, c: nat, p: nat)
    requires IsTracked(ys, steps) && i < |ys| && ys[i].s.pt == -1
    requires c < |ys[i].s.cpu| && ys[i].s.cpu[c].at != Run && p < |ys[i].s.proc| && ys[i].s.proc[p].state == RUNNABLE
    ensures Enabled(ys[i].s, CpuLock(c))
    ensures var s1 := Apply(ys[i].s, CpuLock(c));
            && Enabled(s1, CpuChoose(c, p)) && Enabled(Apply(s1, CpuChoose(c, p)), CpuSwitch(c))
            && var s3 := Apply(Apply(s1, CpuChoose(c, p)), CpuSwitch(c));
               s3.cpu[c] == Cpu(Run, p) && s3.proc[p].state == RUNNING
  {
    hide IsTracked, LksOk, WakesOk, WaitsOk, ForksOk, CallsOk, EmbryosOk, DeadOk, ChansOk;
    AlwaysInCalls(ys, steps, i);
    assert CpuOk(ys[i].s, c);
  }

  /** The locations a call starts at. */
  predicate IsCall(pc: Pc) {
    CallOf(pc) == pc && pc != Idle && pc != PtDone
  }

  /** Nothing else is ruled out: a process in user space can start any call, and one that holds no
      spin lock can be preempted anywhere. */
  lemma AnythingCanHappen(s: State, c: nat, p: nat, pc: Pc)
    requires c < |s.cpu| && s.cpu[c] == Cpu(Run, p) && p < |s.proc| == |s.thr| && s.thr[p].yielding == NoYield
    ensures s.thr[p].pc == Idle && IsCall(pc) && InRange(pc, |s.lock|, |s.proc|) && (pc.ExitPt? ==> p != s.init) ==>
              Enabled(s, ProcStep(c, Begin(pc)))
    ensures !HoldsPt(s.thr[p]) && !(exists l: nat :: HoldsLk(RoleOf(s.thr[p].pc), l)) && s.thr[p].pc != Dead ==>
              Enabled(s, ProcStep(c, Preempt))
  {
    var at := s.thr[p].pc;
    assert at.SleepPt? || at.RelPt? || at.AcqTest? || at.RelClear? || at.RelUnlk? ==> HoldsLk(RoleOf(at), at.l);
  }

  lemma PtIsNone(s: State)
    requires RunOk(s) && s.pt < 0
    ensures s.pt == -1
  {
  }

  ghost predicate HolderOn(s: State, l: nat, c: nat) {
    l < |s.lock| && c < |s.cpu| && s.cpu[c] == Cpu(Run, s.lock[l].holder)
  }
}
