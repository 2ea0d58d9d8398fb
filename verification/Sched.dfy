/** proc.c's scheduling protocol with sleeplock.c as its client, as steps of any number of CPUs
    and processes: one step per lock operation, per change of the process table and per
    swtch(). ptable.lock belongs to a CPU and is handed across swtch(). */
module Sched {
  import opened ProcTable

  /** Where a process is in the kernel. l is the sleep lock, q the process operated on. */
  datatype Pc =
    | Idle
    // acquiresleep
    | AcqLk(l: nat)       // about to acquire lk->lk
    | AcqTest(l: nat)     // at the while test, holding it
    // sleep, called by acquiresleep
    | SleepPt(l: nat)     // about to acquire ptable.lock
    | SleepUnlk(l: nat)   // about to release lk->lk
    | SleepSet(l: nat)    // about to set chan and state
    | SleepSwtch(l: nat)
    | SleepWoken(l: nat)  // back from sched
    | SleepUnPt(l: nat)   // about to release ptable.lock
    // releasesleep
    | RelLk(l: nat) | RelClear(l: nat)
    | RelPt(l: nat)       // locked is 0, about to acquire ptable.lock
    | RelWake(l: nat) | RelUnPt(l: nat) | RelUnlk(l: nat)
    // exit
    | ExitPt | ExitWake | ExitOrphans | ExitZombie | ExitSwtch | Dead
    // wait
    | WaitPt | WaitScan | WaitSwtch | WaitWoken
    // fork, from allocproc on
    | ForkAlloc | ForkParent(q: nat) | ForkPt(q: nat) | ForkRun(q: nat)
    // kill
    | KillPt(q: nat) | KillMark(q: nat)
    // about to release ptable.lock and leave; a new process starts here, in forkret
    | PtDone

  /** yield(), which a timer interrupt can start wherever no spin lock is held. */
  datatype Yield = NoYield | YieldPt | YieldSet | YieldSwtch | YieldUnPt

  /** cpu is the CPU whose c->proc this is, or -1; maker is the process that forks it. */
  datatype Thread = Thread(pc: Pc, yielding: Yield, cpu: int, maker: int)

  datatype At = Out | Scan | Chosen | Run | Back

  /** A CPU: in scheduler() without or with ptable.lock, about to switch, running its process,
      or just back from it. */
  datatype Cpu = Cpu(at: At, proc: int)

  datatype Lk = Lk(holder: int, locked: bool)

  datatype State = State(cpu: seq<Cpu>, proc: seq<Proc>, thr: seq<Thread>, lock: seq<Lk>, pt: int, init: nat)

  // ----- what a location means -----

  predicate NoLocks(pc: Pc) {
    pc.Idle? || pc.AcqLk? || pc.RelLk? || pc.ExitPt? || pc.WaitPt? || pc.ForkAlloc? || pc.ForkParent? || pc.ForkPt?
        || pc.KillPt?
  }

  predicate HoldsPt(t: Thread) {
    || t.yielding == YieldSet || t.yielding == YieldSwtch || t.yielding == YieldUnPt
    || t.pc.SleepUnlk? || t.pc.SleepSet? || t.pc.SleepSwtch? || t.pc.SleepWoken? || t.pc.SleepUnPt?
    || t.pc.RelWake? || t.pc.RelUnPt?
    || t.pc.ExitWake? || t.pc.ExitOrphans? || t.pc.ExitZombie? || t.pc.ExitSwtch?
    || t.pc.WaitScan? || t.pc.WaitSwtch? || t.pc.WaitWoken?
    || t.pc.ForkRun? || t.pc.KillMark? || t.pc.PtDone?
  }

  /** What a location means to the others: Tested has seen the sleep lock taken, Setting will
      sleep on it, Waking has freed it and will wake the sleepers; these and Holding,
      but not Setting, hold its spin lock. Leaving has woken its parent, Making builds process q. */
  datatype Part = Plain | Tested(l: nat) | Setting(l: nat) | Waking(l: nat) | Holding(l: nat) | Leaving | Making(q: nat)

  function RoleOf(pc: Pc): Part {
    match pc
    case SleepPt(l) => Tested(l)
    case SleepUnlk(l) => Tested(l)
    case SleepSet(l) => Setting(l)
    case RelPt(l) => Waking(l)
    case RelWake(l) => Waking(l)
    case AcqTest(l) => Holding(l)
    case RelClear(l) => Holding(l)
    case RelUnPt(l) => Holding(l)
    case RelUnlk(l) => Holding(l)
    case ExitOrphans => Leaving
    case ExitZombie => Leaving
    case ForkParent(q) => Making(q)
    case ForkPt(q) => Making(q)
    case ForkRun(q) => Making(q)
    case _ => Plain
  }

  predicate HoldsLk(r: Part, l: nat) {
    r == Tested(l) || r == Waking(l) || r == Holding(l)
  }

  predicate AtSwtch(t: Thread) {
    t.yielding == YieldSwtch || t.pc.SleepSwtch? || t.pc.WaitSwtch? || t.pc.ExitSwtch?
  }

  /** The state a process has while a CPU runs it. */
  function StateFor(t: Thread): PState {
    if t.yielding == YieldSwtch then RUNNABLE
    else if t.pc.SleepSwtch? || t.pc.WaitSwtch? then SLEEPING
    else if t.pc.ExitSwtch? then ZOMBIE
    else RUNNING
  }

  predicate Resumes(t: Thread) {
    || t.yielding == YieldUnPt
    || (t.yielding == NoYield && (t.pc.SleepWoken? || t.pc.WaitWoken? || t.pc.PtDone?))
  }

  /** What a process that is off its CPU looks like. */
  predicate Parked(p: Proc, t: Thread, i: nat) {
    match p.state
    case UNUSED => t.pc == PtDone && t.yielding == NoYield
    case EMBRYO => t.pc == PtDone && t.yielding == NoYield
    case SLEEPING => t.yielding == NoYield
        && ((t.pc.SleepWoken? && p.chan == OnLock(t.pc.l)) || (t.pc.WaitWoken? && p.chan == OnProc(i)))
    case RUNNABLE => Resumes(t)
    case RUNNING => false
    case ZOMBIE => t.pc == Dead && t.yielding == NoYield
  }

  predicate InRange(pc: Pc, locks: nat, procs: nat) {
    match pc
    case AcqLk(l) => l < locks
    case AcqTest(l) => l < locks
    case SleepPt(l) => l < locks
    case SleepUnlk(l) => l < locks
    case SleepSet(l) => l < locks
    case SleepSwtch(l) => l < locks
    case SleepWoken(l) => l < locks
    case SleepUnPt(l) => l < locks
    case RelLk(l) => l < locks
    case RelClear(l) => l < locks
    case RelPt(l) => l < locks
    case RelWake(l) => l < locks
    case RelUnPt(l) => l < locks
    case RelUnlk(l) => l < locks
    case ForkParent(q) => q < procs
    case ForkPt(q) => q < procs
    case ForkRun(q) => q < procs
    case KillPt(q) => q < procs
    case KillMark(q) => q < procs
    case _ => true
  }

  // ----- the steps -----

  datatype Op =
    | Begin(pc: Pc)  // a system call or kernel routine starts
    | Preempt        // a timer interrupt calls yield
    | TakePt | DropPt | TakeLk
    | Test           // the while test of acquiresleep
    | Unlk           // releases lk->lk in sleep or releasesleep
    | Clear          // lk->locked = 0
    | Set            // sets chan and state before sched
    | Swtch          // to the CPU's scheduler
    | Tidy           // chan = 0 after sched
    | Wake           // wakeup1 in releasesleep and exit
    | Abandon | Mark
    | Reap(q: nat) | WaitFails | WaitSleeps
    | Alloc(q: nat) | AllocFails | SetParent | ForkFails | MakeRunnable

  datatype Step =
    | CpuLock(c: nat) | CpuUnlock(c: nat) | CpuChoose(c: nat, p: nat) | CpuSwitch(c: nat) | CpuBack(c: nat)
    | ProcStep(c: nat, op: Op)

  predicate Starts(pc: Pc, s: State, p: nat) {
    && (pc.AcqLk? || pc.RelLk? || (pc.ExitPt? && p != s.init) || pc.WaitPt? || pc.ForkAlloc? || pc.KillPt?)
    && InRange(pc, |s.lock|, |s.proc|)
  }

  predicate WantsPt(t: Thread) {
    t.yielding == YieldPt || (t.yielding == NoYield
        && (t.pc.SleepPt? || t.pc.RelPt? || t.pc.ExitPt? || t.pc.WaitPt? || t.pc.ForkPt? || t.pc.KillPt?))
  }

  function PtTaken(t: Thread): Thread
    requires WantsPt(t)
  {
    if t.yielding == YieldPt then t.(yielding := YieldSet)
    else
      t.(pc := match t.pc
         case SleepPt(l) => SleepUnlk(l)
         case RelPt(l) => RelWake(l)
         case ExitPt => ExitWake
         case WaitPt => WaitScan
         case ForkPt(q) => ForkRun(q)
         case KillPt(q) => KillMark(q)
         case _ => t.pc)
  }

  predicate DropsPt(t: Thread) {
    t.yielding == YieldUnPt || (t.yielding == NoYield && (t.pc.SleepUnPt? || t.pc.RelUnPt? || t.pc.PtDone?))
  }

  function PtDropped(t: Thread): Thread
    requires DropsPt(t)
  {
    if t.yielding == YieldUnPt then t.(yielding := NoYield)
    else
      t.(pc := match t.pc
         case SleepUnPt(l) => AcqLk(l)  // about to reacquire lk->lk, then the test again
         case RelUnPt(l) => RelUnlk(l)
         case _ => Idle)
  }

  function Switched(t: Thread): Thread
    requires AtSwtch(t)
  {
    if t.yielding == YieldSwtch then t.(yielding := YieldUnPt)
    else
      t.(pc := match t.pc
         case SleepSwtch(l) => SleepWoken(l)
         case WaitSwtch => WaitWoken
         case _ => Dead)
  }

  predicate NoZombie(ps: seq<Proc>, me: nat) {
    forall q :: 0 <= q < |ps| ==> !ZombieChild(ps[q], me)
  }

  predicate NoKids(ps: seq<Proc>, me: nat) {
    forall q :: 0 <= q < |ps| ==> ps[q].parent != me
  }

  predicate OpEnabled(s: State, c: nat, p: nat, op: Op)
    requires c < |s.cpu| && p < |s.proc| == |s.thr|
  {
    var t := s.thr[p];
    match op
    case Begin(pc) => t.yielding == NoYield && t.pc.Idle? && Starts(pc, s, p)
    case Preempt => t.yielding == NoYield && NoLocks(t.pc)
    case TakePt => WantsPt(t) && s.pt == -1
    case DropPt => DropsPt(t)
    case TakeLk =>
      t.yielding == NoYield && (t.pc.AcqLk? || t.pc.RelLk?) && t.pc.l < |s.lock| && s.lock[t.pc.l].holder == -1
    case Test => t.yielding == NoYield && t.pc.AcqTest? && t.pc.l < |s.lock|
    case Unlk => t.yielding == NoYield && (t.pc.SleepUnlk? || t.pc.RelUnlk?) && t.pc.l < |s.lock|
    case Clear => t.yielding == NoYield && t.pc.RelClear? && t.pc.l < |s.lock|
    case Set => t.yielding == YieldSet || (t.yielding == NoYield && (t.pc.SleepSet? || t.pc.ExitZombie?))
    case Swtch => AtSwtch(t)
    case Tidy => t.yielding == NoYield && (t.pc.SleepWoken? || t.pc.WaitWoken?)
    case Wake => t.yielding == NoYield && (t.pc.RelWake? || t.pc.ExitWake?)
    case Abandon => t.yielding == NoYield && t.pc.ExitOrphans?
    case Mark => t.yielding == NoYield && t.pc.KillMark? && t.pc.q < |s.proc|
    case Reap(q) => t.yielding == NoYield && t.pc.WaitScan? && q < |s.proc| && ZombieChild(s.proc[q], p)
    case WaitFails =>
      t.yielding == NoYield && t.pc.WaitScan? && NoZombie(s.proc, p) && (s.proc[p].killed || NoKids(s.proc, p))
    case WaitSleeps =>
      t.yielding == NoYield && t.pc.WaitScan? && NoZombie(s.proc, p) && !(s.proc[p].killed || NoKids(s.proc, p))
    case Alloc(q) => t.yielding == NoYield && t.pc.ForkAlloc? && s.pt == -1 && q < |s.proc| && s.proc[q].state == UNUSED
    case AllocFails => t.yielding == NoYield && t.pc.ForkAlloc?
    case SetParent => t.yielding == NoYield && t.pc.ForkParent? && t.pc.q < |s.proc|
    case ForkFails => t.yielding == NoYield && t.pc.ForkParent? && t.pc.q < |s.proc|
    case MakeRunnable => t.yielding == NoYield && t.pc.ForkRun? && t.pc.q < |s.proc|
  }

  function WithThread(s: State, p: nat, t: Thread): State
    requires p < |s.thr|
  {
    s.(thr := s.thr[p := t])
  }

  function WithPc(s: State, p: nat, pc: Pc): State
    requires p < |s.thr|
  {
    WithThread(s, p, s.thr[p].(pc := pc))
  }

  function WithState(s: State, p: nat, state: PState, chan: Chan): State
    requires p < |s.proc|
  {
    s.(proc := s.proc[p := s.proc[p].(state := state, chan := chan)])
  }

  ghost function OpApply(s: State, c: nat, p: nat, op: Op): State
    requires c < |s.cpu| && p < |s.proc| == |s.thr| && OpEnabled(s, c, p, op)
  {
    var t := s.thr[p];
    match op
    case Begin(pc) => WithPc(s, p, pc)
    case Preempt => WithThread(s, p, t.(yielding := YieldPt))
    case TakePt => WithThread(s, p, PtTaken(t)).(pt := c)
    case DropPt => WithThread(s, p, PtDropped(t)).(pt := -1)
    case TakeLk =>
      WithPc(s, p, if t.pc.AcqLk? then AcqTest(t.pc.l) else RelClear(t.pc.l))
        .(lock := s.lock[t.pc.l := s.lock[t.pc.l].(holder := p)])
    case Test =>
      if s.lock[t.pc.l].locked then WithPc(s, p, SleepPt(t.pc.l))
      else WithPc(s, p, Idle).(lock := s.lock[t.pc.l := Lk(-1, true)])
    case Unlk =>
      WithPc(s, p, if t.pc.SleepUnlk? then SleepSet(t.pc.l) else Idle)
        .(lock := s.lock[t.pc.l := s.lock[t.pc.l].(holder := -1)])
    case Clear => WithPc(s, p, RelPt(t.pc.l)).(lock := s.lock[t.pc.l := s.lock[t.pc.l].(locked := false)])
    case Set =>
      if t.yielding == YieldSet then WithState(WithThread(s, p, t.(yielding := YieldSwtch)), p, RUNNABLE,
          s.proc[p].chan)
      else if t.pc.SleepSet? then WithState(WithPc(s, p, SleepSwtch(t.pc.l)), p, SLEEPING, OnLock(t.pc.l))
      else WithState(WithPc(s, p, ExitSwtch), p, ZOMBIE, s.proc[p].chan)
    case Swtch => WithThread(s, p, Switched(t)).(cpu := s.cpu[c := Cpu(Back, p)])
    case Tidy =>
      WithState(WithPc(s, p, if t.pc.SleepWoken? then SleepUnPt(t.pc.l) else WaitScan), p, s.proc[p].state, NoChan)
    case Wake =>
      if t.pc.RelWake? then WithPc(s, p, RelUnPt(t.pc.l)).(proc := Woken(s.proc, OnLock(t.pc.l)))
      else WithPc(s, p, ExitOrphans).(proc := if s.proc[p].parent < 0 then s.proc
          else Woken(s.proc, OnProc(s.proc[p].parent)))
    case Abandon => WithPc(s, p, ExitZombie).(proc := Orphaned(s.proc, p, s.init, |s.proc|))
    case Mark => WithPc(s, p, PtDone).(proc := s.proc[t.pc.q := Killed(s.proc[t.pc.q])])
    case Reap(q) =>
      WithPc(s, p, PtDone).(proc := s.proc[q := Reaped(s.proc[q])],
                            thr := s.thr[p := t.(pc := PtDone)][q := Thread(PtDone, NoYield, -1, -1)])
    case WaitFails => WithPc(s, p, PtDone)
    case WaitSleeps => WithState(WithPc(s, p, WaitSwtch), p, SLEEPING, OnProc(p))
    case Alloc(q) =>
      WithPc(s, p, ForkParent(q)).(proc := s.proc[q := s.proc[q].(state := EMBRYO)],
                                   thr := s.thr[p := t.(pc := ForkParent(q))][q := s.thr[q].(maker := p)])
    case AllocFails => WithPc(s, p, Idle)
    case SetParent => WithPc(s, p, ForkPt(t.pc.q)).(proc := s.proc[t.pc.q := s.proc[t.pc.q].(parent := p)])
    case ForkFails => WithPc(s, p, Idle).(proc := s.proc[t.pc.q := s.proc[t.pc.q].(state := UNUSED)])
    case MakeRunnable => WithPc(s, p, PtDone).(proc := s.proc[t.pc.q := s.proc[t.pc.q].(state := RUNNABLE)])
  }

  predicate Enabled(s: State, step: Step) {
    match step
    case CpuLock(c) => c < |s.cpu| && s.cpu[c].at == Out && s.pt == -1
    case CpuUnlock(c) => c < |s.cpu| && s.cpu[c].at == Scan
    case CpuChoose(c, p) =>
      c < |s.cpu| && s.cpu[c].at == Scan && p < |s.proc| && s.proc[p].state == RUNNABLE && p < |s.thr|
    case CpuSwitch(c) => c < |s.cpu| && s.cpu[c].at == Chosen && 0 <= s.cpu[c].proc < |s.proc|
    case CpuBack(c) => c < |s.cpu| && s.cpu[c].at == Back && 0 <= s.cpu[c].proc < |s.thr|
    case ProcStep(c, op) =>
      c < |s.cpu| && s.cpu[c].at == Run && 0 <= s.cpu[c].proc < |s.proc| == |s.thr|
          && OpEnabled(s, c, s.cpu[c].proc, op)
  }

  ghost function Apply(s: State, step: Step): State
    requires Enabled(s, step)
  {
    match step
    case CpuLock(c) => s.(cpu := s.cpu[c := Cpu(Scan, -1)], pt := c)
    case CpuUnlock(c) => s.(cpu := s.cpu[c := Cpu(Out, -1)], pt := -1)
    case CpuChoose(c, p) => s.(cpu := s.cpu[c := Cpu(Chosen, p)], thr := s.thr[p := s.thr[p].(cpu := c)])
    case CpuSwitch(c) =>
      var p := s.cpu[c].proc;
      s.(cpu := s.cpu[c := Cpu(Run, p)], proc := s.proc[p := s.proc[p].(state := RUNNING)])
    case CpuBack(c) =>
      var p := s.cpu[c].proc;
      s.(cpu := s.cpu[c := Cpu(Scan, -1)], thr := s.thr[p := s.thr[p].(cpu := -1)])
    case ProcStep(c, op) => OpApply(s, c, s.cpu[c].proc, op)
  }

  // ----- the invariant -----

  ghost predicate CpuOk(s: State, c: nat)
    requires c < |s.cpu| && |s.proc| == |s.thr|
  {
    var x := s.cpu[c];
    && -1 <= x.proc < |s.proc|
    && (x.proc == -1 <==> x.at == Out || x.at == Scan)
    && (x.at == Out ==> s.pt != c) && (x.at == Scan || x.at == Chosen || x.at == Back ==> s.pt == c)
    && (x.proc >= 0 ==> s.thr[x.proc].cpu == c)
    && (x.at == Run ==> (s.pt == c <==> HoldsPt(s.thr[x.proc])) && s.proc[x.proc].state == StateFor(s.thr[x.proc]))
    && (x.at == Chosen ==> s.proc[x.proc].state == RUNNABLE && Resumes(s.thr[x.proc]))
    && (x.at == Back ==> Parked(s.proc[x.proc], s.thr[x.proc], x.proc)
                         && s.proc[x.proc].state != UNUSED && s.proc[x.proc].state != EMBRYO)
  }

  ghost predicate ProcOk(s: State, p: nat)
    requires p < |s.proc| == |s.thr|
  {
    var t := s.thr[p];
    && -1 <= t.cpu < |s.cpu| && (t.cpu >= 0 ==> s.cpu[t.cpu].proc == p)
    && (t.cpu == -1 ==> Parked(s.proc[p], t, p))
    && (t.yielding != NoYield ==> NoLocks(t.pc)) && InRange(t.pc, |s.lock|, |s.proc|)
    && (t.pc.SleepSwtch? ==> s.proc[p].chan == OnLock(t.pc.l)) && (t.pc.WaitSwtch? ==> s.proc[p].chan == OnProc(p))
  }

  ghost predicate Shape(s: State) {
    |s.proc| == |s.thr| && -1 <= s.pt < |s.cpu| && s.init < |s.proc|
  }

  /** Every CPU and every process is where the scheduling protocol allows. */
  ghost predicate RunOk(s: State) {
    && Shape(s)
    && (forall c: nat :: c < |s.cpu| ==> CpuOk(s, c))
    && (forall p: nat :: p < |s.proc| ==> ProcOk(s, p))
  }

  ghost function Role(s: State, p: nat): Part
    requires p < |s.thr|
  {
    RoleOf(s.thr[p].pc)
  }

  /** The spin lock of a sleep lock is held exactly by the process whose location says so. */
  ghost predicate LksOk(s: State) {
    && Shape(s)
    && (forall l: nat :: l < |s.lock| ==>
         -1 <= s.lock[l].holder < |s.proc| && (s.lock[l].holder >= 0 ==> HoldsLk(Role(s, s.lock[l].holder), l)))
    && (forall p: nat, l: nat :: p < |s.thr| && l < |s.lock| && HoldsLk(Role(s, p), l) ==> s.lock[l].holder == p)
  }

  /** Process p sleeps on sleep lock l, or has decided to. */
  ghost predicate Sleepy(s: State, p: nat, l: nat)
    requires p < |s.proc| == |s.thr|
  {
    Role(s, p) == Setting(l) || Asleep(s.proc[p], OnLock(l))
  }

  /** Somebody has freed l and still has to call wakeup. */
  ghost predicate PendingWake(s: State, l: nat)
    requires l < |s.lock|
  {
    0 <= s.lock[l].holder < |s.thr| && Role(s, s.lock[l].holder) == Waking(l)
  }

  /** A sleeper's lock is taken, or its wakeup is on the way. */
  ghost predicate WakesOk(s: State) {
    && Shape(s)
    && (forall p: nat, l: nat :: p < |s.proc| && l < |s.lock| && Sleepy(s, p, l) ==>
        s.lock[l].locked || PendingWake(s, l))
    && (forall p: nat, l: nat :: p < |s.proc| && l < |s.lock| && Role(s, p) == Tested(l) ==> s.lock[l].locked)
  }

  /** A process that sleeps in wait has no zombie child. */
  ghost predicate WaitsOk(s: State) {
    && Shape(s)
    && (forall p: nat, q: nat :: p < |s.proc| && q < |s.proc| && Asleep(s.proc[p], OnProc(p)) ==>
        !ZombieChild(s.proc[q], p))
    && (forall p: nat, q: nat :: p < |s.proc| && q < |s.proc| && Role(s, p) == Leaving && s.proc[p].parent == q ==>
         !Asleep(s.proc[q], OnProc(q)))
  }

  /** A process under construction belongs to the process that makes it. */
  ghost predicate ForksOk(s: State) {
    && Shape(s)
    && (forall p: nat, q: nat :: p < |s.proc| && q < |s.proc| && Role(s, p) == Making(q) ==>
         s.proc[q].state == EMBRYO && s.thr[q].maker == p)
    && (forall q: nat :: q < |s.proc| ==> s.proc[q].parent != q)
    && s.proc[s.init].parent == -1 && s.proc[s.init].state != UNUSED && s.proc[s.init].state != EMBRYO
  }

  ghost predicate Inv(s: State) {
    RunOk(s) && LksOk(s) && WakesOk(s) && WaitsOk(s) && ForksOk(s)
  }

  // ----- every step keeps it -----

  /** A change of a process that makes no sleeper and no zombie. */
  ghost predicate Calm(p: Proc, p': Proc) {
    && p'.parent == p.parent
    && (p'.state == SLEEPING ==> p.state == SLEEPING && p'.chan == p.chan)
    && (p'.state == ZOMBIE ==> p.state == ZOMBIE)
    && (p'.state == EMBRYO <==> p.state == EMBRYO) && (p'.state == UNUSED <==> p.state == UNUSED)
  }

  /** A step that matters to nobody else. */
  ghost predicate Quiet(s: State, s': State) {
    && |s'.proc| == |s.proc| == |s.thr| == |s'.thr| && s'.lock == s.lock && s'.init == s.init
    && (forall p: nat :: p < |s.proc| ==> Calm(s.proc[p], s'.proc[p]))
    && (forall p: nat :: p < |s.thr| ==> Role(s', p) == Role(s, p) && s'.thr[p].maker == s.thr[p].maker)
  }

  lemma QuietKeeps(s: State, s': State)
    requires LksOk(s) && WakesOk(s) && WaitsOk(s) && ForksOk(s) && Shape(s') && Quiet(s, s')
    ensures LksOk(s') && WakesOk(s') && WaitsOk(s') && ForksOk(s')
  {
    hide Role, LksOk, WakesOk, WaitsOk, ForksOk;
    QuietLks(s, s');
    QuietWakes(s, s');
    QuietWaits(s, s');
    QuietForks(s, s');
  }

  lemma QuietLks(s: State, s': State)
    requires LksOk(s) && Shape(s') && Quiet(s, s')
    ensures LksOk(s')
  {
    hide Role;
  }

  lemma QuietWakes(s: State, s': State)
    requires WakesOk(s) && Shape(s') && Quiet(s, s')
    ensures WakesOk(s')
  {
    hide Role;
    forall p: nat, l: nat | p < |s.proc| && l < |s.lock| && Sleepy(s', p, l)
      ensures s'.lock[l].locked || PendingWake(s', l)
    {
      assert Calm(s.proc[p], s'.proc[p]);
      assert Sleepy(s, p, l);
    }
  }

  lemma QuietWaits(s: State, s': State)
    requires WaitsOk(s) && Shape(s') && Quiet(s, s')
    ensures WaitsOk(s')
  {
    hide Role;
  }

  lemma QuietForks(s: State, s': State)
    requires ForksOk(s) && Shape(s') && Quiet(s, s')
    ensures ForksOk(s')
  {
    hide Role;
  }

  /** Nothing the scheduling invariant says about q changes, or q is off its CPU and stays
      parked. */
  ghost predicate Aside(s: State, s': State, q: nat)
    requires q < |s.proc| == |s.thr| == |s'.proc| == |s'.thr|
  {
    || (s'.proc[q].state == s.proc[q].state && s'.proc[q].chan == s.proc[q].chan
        && s'.thr[q].(maker := -1) == s.thr[q].(maker := -1))
    || (s.thr[q].cpu == s'.thr[q].cpu == -1 && Parked(s'.proc[q], s'.thr[q], q)
        && s'.thr[q].yielding == s.thr[q].yielding && s'.thr[q].pc == s.thr[q].pc)
    || (s.thr[q].cpu == s'.thr[q].cpu == -1 && Parked(s'.proc[q], s'.thr[q], q) && s'.thr[q].yielding == NoYield
        && s'.thr[q].pc == PtDone)
  }

  /** Only CPU c, process p and processes off their CPUs have changed. */
  ghost predicate OnlyHere(s: State, s': State, c: nat, p: nat) {
    && Shape(s) && Shape(s') && |s'.proc| == |s.proc| && |s'.cpu| == |s.cpu| && |s'.lock| == |s.lock| && c < |s.cpu|
        && p < |s.proc|
    && (forall d: nat :: d < |s.cpu| && d != c ==> s'.cpu[d] == s.cpu[d])
    && (s'.pt == s.pt || (s'.pt == -1 && s.pt == c) || (s'.pt == c && s.pt == -1))
    && (s.cpu[c].proc == p || s.cpu[c].proc == -1) && (s'.cpu[c].proc == p || s'.cpu[c].proc == -1)
    && (s.thr[p].cpu == c || s.thr[p].cpu == -1)
    && (forall q: nat :: q < |s.proc| && q != p ==> Aside(s, s', q))
  }

  lemma RunKept(s: State, s': State, c: nat, p: nat)
    requires RunOk(s) && OnlyHere(s, s', c, p) && CpuOk(s', c) && ProcOk(s', p)
    ensures RunOk(s')
  {
    forall d: nat | d < |s.cpu| && d != c
      ensures CpuOk(s', d)
    {
      OtherCpu(s, s', c, p, d);
    }
    forall q: nat | q < |s.proc| && q != p
      ensures ProcOk(s', q)
    {
      OtherProc(s, s', c, p, q);
    }
  }

  lemma OnCpu(s: State, q: nat)
    requires RunOk(s) && q < |s.proc|
    ensures ProcOk(s, q) && (s.thr[q].cpu >= 0 ==> s.thr[q].cpu < |s.cpu| && CpuOk(s, s.thr[q].cpu))
  {
  }

  lemma OtherCpu(s: State, s': State, c: nat, p: nat, d: nat)
    requires RunOk(s) && OnlyHere(s, s', c, p) && d < |s.cpu| && d != c
    ensures CpuOk(s', d)
  {
    hide Parked, HoldsPt, StateFor, Resumes, InRange, NoLocks;
    assert CpuOk(s, d);
    var q := s.cpu[d].proc;
    if q >= 0 {
      assert q != p;
      assert Aside(s, s', q);
      AsideSame(s, s', q);
    }
  }

  lemma AsideSame(s: State, s': State, q: nat)
    requires q < |s.proc| == |s.thr| == |s'.proc| == |s'.thr| && Aside(s, s', q) && s.thr[q].cpu >= 0
    ensures s'.thr[q].cpu == s.thr[q].cpu && HoldsPt(s'.thr[q]) == HoldsPt(s.thr[q])
    ensures StateFor(s'.thr[q]) == StateFor(s.thr[q])
    ensures Resumes(s'.thr[q]) == Resumes(s.thr[q])
    ensures Parked(s'.proc[q], s'.thr[q], q) == Parked(s.proc[q], s.thr[q], q)
    ensures s'.proc[q].state == s.proc[q].state
  {
  }

  lemma OtherProc(s: State, s': State, c: nat, p: nat, q: nat)
    requires RunOk(s) && OnlyHere(s, s', c, p) && q < |s.proc| && q != p
    ensures ProcOk(s', q)
  {
    assert Aside(s, s', q);
    OnCpu(s, q);
  }

  /** acquire and release of ptable.lock in scheduler(). */
  lemma CpuLocksKeep(s: State, c: nat, step: Step)
    requires Inv(s) && (step == CpuLock(c) || step == CpuUnlock(c)) && Enabled(s, step)
    ensures Inv(Apply(s, step))
  {
    hide WaitsOk, WakesOk, LksOk, ForksOk, Parked, HoldsPt, StateFor, RoleOf, Resumes, InRange, NoLocks;
    var s' := Apply(s, step);
    QuietKeeps(s, s');
    assert CpuOk(s, c);
    forall q: nat | q < |s.proc|
      ensures ProcOk(s', q)
    {
      assert ProcOk(s, q);
    }
    forall d: nat | d < |s.cpu|
      ensures CpuOk(s', d)
    {
      assert CpuOk(s, d);
    }
  }

  lemma CpuChooseKeeps(s: State, c: nat, p: nat)
    requires Inv(s) && Enabled(s, CpuChoose(c, p))
    ensures Inv(Apply(s, CpuChoose(c, p)))
  {
    hide WaitsOk, WakesOk, LksOk, ForksOk, InRange, NoLocks;
    var s' := Apply(s, CpuChoose(c, p));
    QuietKeeps(s, s');
    assert CpuOk(s, c);
    OnCpu(s, p);
    RunKept(s, s', c, p);
  }

  lemma CpuSwitchKeeps(s: State, c: nat)
    requires Inv(s) && Enabled(s, CpuSwitch(c))
    ensures Inv(Apply(s, CpuSwitch(c)))
  {
    hide WaitsOk, WakesOk, LksOk, ForksOk, InRange, RoleOf;
    var p := s.cpu[c].proc;
    var s' := Apply(s, CpuSwitch(c));
    assert CpuOk(s, c) && ProcOk(s, p);
    QuietKeeps(s, s');
    RunKept(s, s', c, p);
  }

  lemma CpuBackKeeps(s: State, c: nat)
    requires Inv(s) && Enabled(s, CpuBack(c))
    ensures Inv(Apply(s, CpuBack(c)))
  {
    hide WaitsOk, WakesOk, LksOk, ForksOk, InRange, NoLocks;
    var p := s.cpu[c].proc;
    var s' := Apply(s, CpuBack(c));
    assert CpuOk(s, c) && ProcOk(s, p);
    QuietKeeps(s, s');
    RunKept(s, s', c, p);
  }

  /** Process p takes a step on CPU c. */
  ghost predicate Acts(s: State, c: nat, p: nat, op: Op) {
    && Shape(s) && c < |s.cpu| && p < |s.proc| && CpuOk(s, c) && ProcOk(s, p)
    && s.cpu[c].at == Run && s.cpu[c].proc == p && OpEnabled(s, c, p, op)
  }

  predicate QuietOp(s: State, p: nat, op: Op)
    requires p < |s.thr|
  {
    op.Begin? || op.Preempt? || op.AllocFails? || op.WaitFails? || op.TakePt? || op.DropPt? || op.Swtch? || op.Tidy?
    || (op.Set? && s.thr[p].yielding == YieldSet)
  }

  lemma QuietPt(s: State, c: nat, p: nat, op: Op)
    requires Acts(s, c, p, op) && (op.TakePt? || op.DropPt? || op.Swtch?)
    ensures Quiet(s, OpApply(s, c, p, op)) && Shape(OpApply(s, c, p, op))
  {
    hide InRange, Parked, Resumes;
  }

  lemma QuietRest(s: State, c: nat, p: nat, op: Op)
    requires Acts(s, c, p, op) && QuietOp(s, p, op) && !(op.TakePt? || op.DropPt? || op.Swtch?)
    ensures Quiet(s, OpApply(s, c, p, op)) && Shape(OpApply(s, c, p, op))
  {
    hide InRange, Parked, Resumes;
  }

  /** These steps leave every other CPU and process alone. */
  predicate LocalOp(op: Op) {
    op.Begin? || op.Preempt? || op.AllocFails? || op.WaitFails? || op.TakePt? || op.DropPt? || op.Swtch? || op.Tidy?
    || op.Set? || op.TakeLk? || op.Test? || op.Unlk? || op.Clear? || op.WaitSleeps?
  }

  lemma LocalRun(s: State, c: nat, p: nat, op: Op)
    requires RunOk(s) && Acts(s, c, p, op) && LocalOp(op)
    ensures RunOk(OpApply(s, c, p, op))
  {
    hide CpuOk, ProcOk, OpEnabled, OpApply;
    if op.TakePt? || op.DropPt? || op.Swtch? {
      LocalCpuPt(s, c, p, op);
    } else {
      LocalCpu(s, c, p, op);
    }
    LocalProc(s, c, p, op);
    LocalHere(s, c, p, op);
    RunKept(s, OpApply(s, c, p, op), c, p);
  }

  lemma LocalHere(s: State, c: nat, p: nat, op: Op)
    requires Acts(s, c, p, op) && LocalOp(op)
    ensures OnlyHere(s, OpApply(s, c, p, op), c, p)
  {
    hide Parked, InRange, Resumes, StateFor;
  }

  lemma LocalCpuPt(s: State, c: nat, p: nat, op: Op)
    requires Acts(s, c, p, op) && (op.TakePt? || op.DropPt? || op.Swtch?)
    ensures |OpApply(s, c, p, op).proc| == |OpApply(s, c, p, op).thr| && c < |OpApply(s, c, p, op).cpu|
    ensures CpuOk(OpApply(s, c, p, op), c)
  {
    hide InRange;
  }

  lemma LocalCpu(s: State, c: nat, p: nat, op: Op)
    requires Acts(s, c, p, op) && LocalOp(op) && !(op.TakePt? || op.DropPt? || op.Swtch?)
    ensures |OpApply(s, c, p, op).proc| == |OpApply(s, c, p, op).thr| && c < |OpApply(s, c, p, op).cpu|
    ensures CpuOk(OpApply(s, c, p, op), c)
  {
    hide InRange, Parked, Resumes;
  }

  lemma LocalProc(s: State, c: nat, p: nat, op: Op)
    requires Acts(s, c, p, op) && LocalOp(op)
    ensures p < |OpApply(s, c, p, op).proc| == |OpApply(s, c, p, op).thr|
    ensures ProcOk(OpApply(s, c, p, op), p)
  {
    hide HoldsPt, StateFor, Parked;
  }

  // ----- the steps on sleep locks -----

  /** Only the role of p has changed, and only to one without duties in wait or fork. */
  lemma WaitsAndForksSame(s: State, s': State, p: nat)
    requires WaitsOk(s) && ForksOk(s) && Shape(s') && p < |s.proc| && s'.proc == s.proc && s'.init == s.init
    requires forall q: nat :: q < |s.proc| ==>
               s'.thr[q].maker == s.thr[q].maker && (q != p ==> Role(s', q) == Role(s, q))
    requires Role(s', p) != Leaving && !Role(s', p).Making?
    ensures WaitsOk(s') && ForksOk(s')
  {
    hide Role;
  }

  ghost predicate LockOp(op: Op) {
    op.TakeLk? || op.Test? || op.Unlk? || op.Clear?
  }

  lemma LockOpShape(s: State, c: nat, p: nat, op: Op) returns (l: nat)
    requires Acts(s, c, p, op) && LockOp(op)
    ensures var s' := OpApply(s, c, p, op);
            && Shape(s') && s'.proc == s.proc && s'.init == s.init && l < |s.lock| == |s'.lock|
            && (forall q: nat :: q < |s.proc| ==>
                s'.thr[q].maker == s.thr[q].maker && (q != p ==> Role(s', q) == Role(s, q)))
            && (forall k: nat :: k < |s.lock| && k != l ==> s'.lock[k] == s.lock[k])
            && (op.TakeLk? ==> Role(s, p) == Plain && Role(s', p) == Holding(l) && s.lock[l].holder == -1
                               && s'.lock[l] == Lk(p, s.lock[l].locked))
            && (op.Test? && s.lock[l].locked ==>
                Role(s, p) == Holding(l) && Role(s', p) == Tested(l) && s'.lock[l] == s.lock[l])
            && (op.Test? && !s.lock[l].locked ==>
                Role(s, p) == Holding(l) && Role(s', p) == Plain && s'.lock[l] == Lk(-1, true))
            && (op.Unlk? ==> s'.lock[l] == Lk(-1, s.lock[l].locked)
                             && ((Role(s, p) == Tested(l) && Role(s', p) == Setting(l))
                                 || (Role(s, p) == Holding(l) && Role(s', p) == Plain)))
            && (op.Clear? ==>
                  Role(s, p) == Holding(l) && Role(s', p) == Waking(l) && s'.lock[l] == Lk(s.lock[l].holder, false))
  {
    hide InRange, Parked, Resumes, HoldsPt, StateFor;
    l := s.thr[p].pc.l;
  }

  lemma LockOpLks(s: State, c: nat, p: nat, op: Op)
    requires LksOk(s) && Acts(s, c, p, op) && LockOp(op)
    ensures LksOk(OpApply(s, c, p, op))
  {
    hide CpuOk, ProcOk, OpEnabled, OpApply, Role;
    var l := LockOpShape(s, c, p, op);
    var s' := OpApply(s, c, p, op);
    forall q: nat, k: nat | q < |s'.thr| && k < |s'.lock| && HoldsLk(Role(s', q), k)
      ensures s'.lock[k].holder == q
    {
      if q != p {
        assert HoldsLk(Role(s, q), k);
      }
    }
  }

  lemma LockOpWakes(s: State, c: nat, p: nat, op: Op)
    requires LksOk(s) && WakesOk(s) && Acts(s, c, p, op) && LockOp(op)
    ensures WakesOk(OpApply(s, c, p, op))
  {
    hide CpuOk, ProcOk, OpEnabled, OpApply, Role;
    var l := LockOpShape(s, c, p, op);
    var s' := OpApply(s, c, p, op);
    forall q: nat, k: nat | q < |s'.proc| && k < |s'.lock| && Sleepy(s', q, k)
      ensures s'.lock[k].locked || PendingWake(s', k)
    {
      assert Sleepy(s, q, k) || (q == p && k == l && Role(s, p) == Tested(l));
    }
    forall q: nat, k: nat | q < |s'.proc| && k < |s'.lock| && Role(s', q) == Tested(k)
      ensures s'.lock[k].locked
    {
      if q != p {
        assert HoldsLk(Role(s, q), k);
      }
    }
  }

  lemma LockOpKeeps(s: State, c: nat, p: nat, op: Op)
    requires Inv(s) && Acts(s, c, p, op) && LockOp(op)
    ensures Inv(OpApply(s, c, p, op))
  {
    hide CpuOk, ProcOk, OpEnabled, OpApply, Role, RunOk, LksOk, WakesOk, WaitsOk, ForksOk;
    LocalRun(s, c, p, op);
    LockOpLks(s, c, p, op);
    LockOpWakes(s, c, p, op);
    var l := LockOpShape(s, c, p, op);
    WaitsAndForksSame(s, OpApply(s, c, p, op), p);
  }

  lemma QuietOpKeeps(s: State, c: nat, p: nat, op: Op)
    requires Inv(s) && Acts(s, c, p, op) && QuietOp(s, p, op)
    ensures Inv(OpApply(s, c, p, op))
  {
    hide CpuOk, ProcOk, OpEnabled, OpApply, Role, RunOk, LksOk, WakesOk, WaitsOk, ForksOk, Quiet;
    LocalRun(s, c, p, op);
    if op.TakePt? || op.DropPt? || op.Swtch? {
      QuietPt(s, c, p, op);
    } else {
      QuietRest(s, c, p, op);
    }
    QuietKeeps(s, OpApply(s, c, p, op));
  }

  // ----- going to sleep and becoming a zombie -----

  lemma LksSame(s: State, s': State)
    requires LksOk(s) && Shape(s') && |s'.proc| == |s.proc| && s'.lock == s.lock
    requires forall q: nat, l: nat :: q < |s.thr| ==> HoldsLk(Role(s', q), l) == HoldsLk(Role(s, q), l)
    ensures LksOk(s')
  {
    hide Role, HoldsLk;
  }

  lemma WakesSame(s: State, s': State)
    requires WakesOk(s) && Shape(s') && |s'.proc| == |s.proc| && s'.lock == s.lock
    requires forall q: nat, l: nat :: q < |s.proc| && Sleepy(s', q, l) ==> Sleepy(s, q, l)
    requires forall q: nat, l: nat :: q < |s.proc| && Role(s', q) == Tested(l) ==> Role(s, q) == Tested(l)
    requires forall q: nat, l: nat :: q < |s.proc| && Role(s, q) == Waking(l) ==> Role(s', q) == Waking(l)
    ensures WakesOk(s')
  {
    hide Role, Sleepy;
  }

  lemma WaitsSame(s: State, s': State)
    requires WaitsOk(s) && Shape(s') && |s'.proc| == |s.proc|
    requires forall q: nat :: q < |s.proc| && Asleep(s'.proc[q], OnProc(q)) ==> Asleep(s.proc[q], OnProc(q))
    requires forall q: nat, r: int :: q < |s.proc| && ZombieChild(s'.proc[q], r) ==> ZombieChild(s.proc[q], r) || r < 0
    requires forall q: nat :: q < |s.proc| && Role(s', q) == Leaving ==>
               Role(s, q) == Leaving && s'.proc[q].parent == s.proc[q].parent
    ensures WaitsOk(s')
  {
    hide Role, Asleep, ZombieChild;
  }

  /** A process is in the middle of a change of the table only while it has ptable.lock, so
      only one is. */
  lemma AloneInTable(s: State, c: nat, p: nat, q: nat)
    requires RunOk(s) && c < |s.cpu| && s.cpu[c].at == Run && s.cpu[c].proc == p && s.pt == c && q < |s.proc|
    requires Role(s, q) == Leaving || Role(s, q).Setting?
    ensures q == p
  {
    OnCpu(s, q);
  }

  /** With ptable.lock, a process that is not RUNNING is off its CPU. */
  lemma OffCpu(s: State, c: nat, p: nat, q: nat)
    requires RunOk(s) && c < |s.cpu| && s.cpu[c].proc == p && s.pt == c && q < |s.proc| && q != p
    requires s.proc[q].state != RUNNING
    ensures s.thr[q].cpu == -1 && Parked(s.proc[q], s.thr[q], q)
  {
    OnCpu(s, q);
  }

  /** Process p goes to location pc and becomes x; nothing else changes. */
  ghost function Moved(s: State, p: nat, pc: Pc, x: Proc): State
    requires p < |s.proc| == |s.thr|
  {
    s.(thr := s.thr[p := s.thr[p].(pc := pc)], proc := s.proc[p := x])
  }

  lemma MovedRoles(s: State, p: nat, pc: Pc, x: Proc)
    requires Shape(s) && p < |s.proc|
    ensures Shape(Moved(s, p, pc, x))
    ensures forall q: nat :: q < |s.proc| ==> Role(Moved(s, p, pc, x), q) == if q == p then RoleOf(pc) else Role(s, q)
  {
  }

  lemma SetSteps(s: State, c: nat, p: nat, op: Op)
    requires Acts(s, c, p, op)
    ensures s.proc[p].state == StateFor(s.thr[p])
    ensures op.Set? && s.thr[p].yielding == NoYield && s.thr[p].pc.SleepSet? ==>
              OpApply(s, c, p, op) == Moved(s, p, SleepSwtch(s.thr[p].pc.l),
                  s.proc[p].(state := SLEEPING, chan := OnLock(s.thr[p].pc.l)))
    ensures op.Set? && s.thr[p].yielding == NoYield && s.thr[p].pc.ExitZombie? ==>
              OpApply(s, c, p, op) == Moved(s, p, ExitSwtch, s.proc[p].(state := ZOMBIE))
    ensures op.WaitSleeps? ==>
              OpApply(s, c, p, op) == Moved(s, p, WaitSwtch, s.proc[p].(state := SLEEPING, chan := OnProc(p)))
  {
    hide ProcOk, HoldsPt, Parked, Resumes, StateFor;
  }

  lemma SleepKeeps(s: State, c: nat, p: nat)
    requires Inv(s) && Acts(s, c, p, Set) && s.thr[p].yielding == NoYield && s.thr[p].pc.SleepSet?
    ensures Inv(OpApply(s, c, p, Set))
  {
    hide RunOk, LksOk, WakesOk, WaitsOk, ForksOk, CpuOk, ProcOk, OpApply, Role;
    var l := s.thr[p].pc.l;
    var x := s.proc[p].(state := SLEEPING, chan := OnLock(l));
    assert Role(s, p) == Setting(l) && s.proc[p].state == RUNNING by { SetSteps(s, c, p, Set); SettingRole(s, p); }
    MovedRoles(s, p, SleepSwtch(l), x);
    SetSteps(s, c, p, Set);
    LocalRun(s, c, p, Set);
    var s' := Moved(s, p, SleepSwtch(l), x);
    LksSame(s, s');
    WakesSame(s, s');
    WaitsSame(s, s');
    ForksSame(s, s');
  }

  lemma SettingRole(s: State, p: nat)
    requires p < |s.thr| && s.thr[p].pc.SleepSet? && s.thr[p].yielding == NoYield
    ensures Role(s, p) == Setting(s.thr[p].pc.l) && StateFor(s.thr[p]) == RUNNING
  {
  }

  lemma ZombieKeeps(s: State, c: nat, p: nat)
    requires Inv(s) && Acts(s, c, p, Set) && s.thr[p].yielding == NoYield && s.thr[p].pc.ExitZombie?
    ensures Inv(OpApply(s, c, p, Set))
  {
    hide RunOk, LksOk, WakesOk, ForksOk, CpuOk, ProcOk, OpApply, Role;
    var x := s.proc[p].(state := ZOMBIE);
    assert Role(s, p) == Leaving && StateFor(s.thr[p]) == RUNNING by { LeavingRole(s, p); }
    MovedRoles(s, p, ExitSwtch, x);
    SetSteps(s, c, p, Set);
    LocalRun(s, c, p, Set);
    var s' := Moved(s, p, ExitSwtch, x);
    LksSame(s, s');
    WakesSame(s, s');
    ForksSame(s, s');
  }

  lemma LeavingRole(s: State, p: nat)
    requires p < |s.thr| && s.thr[p].pc.ExitZombie? && s.thr[p].yielding == NoYield
    ensures Role(s, p) == Leaving && StateFor(s.thr[p]) == RUNNING
  {
  }

  lemma WaitSleepsKeeps(s: State, c: nat, p: nat)
    requires Inv(s) && Acts(s, c, p, WaitSleeps)
    ensures Inv(OpApply(s, c, p, WaitSleeps))
  {
    hide RunOk, LksOk, WakesOk, ForksOk, CpuOk, ProcOk, OpApply, Role;
    var x := s.proc[p].(state := SLEEPING, chan := OnProc(p));
    WaitRole(s, c, p, WaitSleeps);
    MovedRoles(s, p, WaitSwtch, x);
    SetSteps(s, c, p, WaitSleeps);
    LocalRun(s, c, p, WaitSleeps);
    var s' := Moved(s, p, WaitSwtch, x);
    LksSame(s, s');
    WakesSame(s, s');
    ForksSame(s, s');
    forall q: nat | q < |s.proc| && q != p
      ensures Role(s, q) != Leaving
    {
      if Role(s, q) == Leaving {
        AloneInTable(s, c, p, q);
      }
    }
  }

  lemma WaitRole(s: State, c: nat, p: nat, op: Op)
    requires Acts(s, c, p, op) && s.thr[p].pc.WaitScan? && s.thr[p].yielding == NoYield
    ensures Role(s, p) == Plain && StateFor(s.thr[p]) == RUNNING && s.pt == c
  {
  }

  lemma ForksSame(s: State, s': State)
    requires ForksOk(s) && Shape(s') && |s'.proc| == |s.proc| && s'.init == s.init
    requires forall q: nat, r: nat :: q < |s.proc| && Role(s', q) == Making(r) ==> Role(s, q) == Making(r)
    requires forall q: nat :: q < |s.proc| && s.proc[q].state == EMBRYO ==>
               s'.proc[q].state == EMBRYO && s'.thr[q].maker == s.thr[q].maker
    requires forall q: nat :: q < |s.proc| ==>
               s'.proc[q].parent == s.proc[q].parent || (s'.proc[q].parent != q && q != s.init)
    requires s'.proc[s.init].state == UNUSED || s'.proc[s.init].state == EMBRYO ==>
               s.proc[s.init].state == UNUSED || s.proc[s.init].state == EMBRYO
    ensures ForksOk(s')
  {
    hide Role;
  }

  // ----- the steps that change other processes' entries -----

  /** p goes to pc, still RUNNING, and the table becomes ps. */
  ghost function Edited(s: State, p: nat, pc: Pc, ps: seq<Proc>): State
    requires p < |s.thr|
  {
    s.(thr := s.thr[p := s.thr[p].(pc := pc)], proc := ps)
  }

  lemma EditedRoles(s: State, p: nat, pc: Pc, ps: seq<Proc>)
    requires Shape(s) && p < |s.proc| == |ps|
    ensures Shape(Edited(s, p, pc, ps))
    ensures forall q: nat :: q < |s.proc| ==> Role(Edited(s, p, pc, ps), q) == if q == p then RoleOf(pc) else Role(s, q)
    ensures forall q: nat :: q < |s.proc| ==> Edited(s, p, pc, ps).thr[q].maker == s.thr[q].maker
  {
  }

  lemma EditedRun(s: State, c: nat, p: nat, pc: Pc, ps: seq<Proc>)
    requires RunOk(s) && c < |s.cpu| && p < |s.proc| == |ps| && s.cpu[c] == Cpu(Run, p) && s.thr[p].yielding == NoYield
    requires HoldsPt(s.thr[p]) == HoldsPt(s.thr[p].(pc := pc)) && !AtSwtch(s.thr[p].(pc := pc))
    requires InRange(pc, |s.lock|, |s.proc|)
    requires ps[p].state == RUNNING
    requires forall q: nat :: q < |s.proc| && q != p ==>
               || (ps[q].state == s.proc[q].state && ps[q].chan == s.proc[q].chan)
               || (s.thr[q].cpu == -1 && Parked(ps[q], s.thr[q], q))
    ensures RunOk(Edited(s, p, pc, ps))
  {
    hide HoldsPt, Parked, InRange, NoLocks, Resumes;
    assert CpuOk(s, c) && ProcOk(s, p);
    RunKept(s, Edited(s, p, pc, ps), c, p);
  }

  lemma WokenRun(s: State, c: nat, p: nat, pc: Pc, ch: Chan)
    requires RunOk(s) && Shape(s) && c < |s.cpu| && p < |s.proc| && s.cpu[c] == Cpu(Run, p)
    requires s.thr[p].yielding == NoYield && s.pt == c
    requires HoldsPt(s.thr[p]) == HoldsPt(s.thr[p].(pc := pc)) && !AtSwtch(s.thr[p].(pc := pc))
    requires InRange(pc, |s.lock|, |s.proc|)
    requires s.proc[p].state == RUNNING
    ensures RunOk(Edited(s, p, pc, Woken(s.proc, ch)))
  {
    hide HoldsPt, InRange, NoLocks, RunOk;
    forall q: nat | q < |s.proc| && q != p && Asleep(s.proc[q], ch)
      ensures s.thr[q].cpu == -1 && Parked(WakeOne(s.proc[q], ch), s.thr[q], q)
    {
      OffCpu(s, c, p, q);
    }
    EditedRun(s, c, p, pc, Woken(s.proc, ch));
  }

  /** The steps that change the table, as edits of it. */
  lemma EditSteps(s: State, c: nat, p: nat, op: Op)
    requires Acts(s, c, p, op)
    ensures op.Wake? && s.thr[p].pc.RelWake? ==>
              OpApply(s, c, p, op) == Edited(s, p, RelUnPt(s.thr[p].pc.l), Woken(s.proc, OnLock(s.thr[p].pc.l)))
    ensures op.Wake? && s.thr[p].pc.ExitWake? ==>
              OpApply(s, c, p, op) == Edited(s, p, ExitOrphans, if s.proc[p].parent < 0 then s.proc
                  else Woken(s.proc, OnProc(s.proc[p].parent)))
    ensures op.Abandon? ==> OpApply(s, c, p, op) == Edited(s, p, ExitZombie, Orphaned(s.proc, p, s.init, |s.proc|))
    ensures op.Mark? ==>
              OpApply(s, c, p, op) == Edited(s, p, PtDone, s.proc[s.thr[p].pc.q := Killed(s.proc[s.thr[p].pc.q])])
    ensures op.SetParent? ==>
              OpApply(s, c, p, op) ==
              Edited(s, p, ForkPt(s.thr[p].pc.q), s.proc[s.thr[p].pc.q := s.proc[s.thr[p].pc.q].(parent := p)])
    ensures op.ForkFails? ==>
              OpApply(s, c, p, op) ==
              Edited(s, p, Idle, s.proc[s.thr[p].pc.q := s.proc[s.thr[p].pc.q].(state := UNUSED)])
    ensures op.MakeRunnable? ==>
              OpApply(s, c, p, op) == Edited(s, p, PtDone,
                  s.proc[s.thr[p].pc.q := s.proc[s.thr[p].pc.q].(state := RUNNABLE)])
  {
    hide CpuOk, ProcOk, Woken, Orphaned;
  }

  /** What holds of a process about to change the table. */
  lemma Editing(s: State, c: nat, p: nat, op: Op)
    requires Acts(s, c, p, op) && s.thr[p].yielding == NoYield && !AtSwtch(s.thr[p])
    ensures s.proc[p].state == RUNNING && s.cpu[c] == Cpu(Run, p) && (HoldsPt(s.thr[p]) ==> s.pt == c)
    ensures InRange(s.thr[p].pc, |s.lock|, |s.proc|)
  {
    hide HoldsPt, InRange, Parked, Resumes;
  }

  lemma RelWakeKeeps(s: State, c: nat, p: nat)
    requires Inv(s) && Acts(s, c, p, Wake) && s.thr[p].pc.RelWake?
    ensures Inv(OpApply(s, c, p, Wake))
  {
    hide OpApply, RunOk, LksOk, WaitsOk, ForksOk, CpuOk, ProcOk, Role;
    var l := s.thr[p].pc.l;
    var ps := Woken(s.proc, OnLock(l));
    var s' := Edited(s, p, RelUnPt(l), ps);
    EditSteps(s, c, p, Wake);
    Editing(s, c, p, Wake);
    EditedRoles(s, p, RelUnPt(l), ps);
    assert Role(s, p) == Waking(l) by { WakingRole(s, p); }
    WokenRun(s, c, p, RelUnPt(l), OnLock(l));
    LksSame(s, s');
    WaitsSame(s, s');
    ForksSame(s, s');
    RelWakeWakes(s, c, p, l);
  }

  lemma WakingRole(s: State, p: nat)
    requires p < |s.thr| && s.thr[p].pc.RelWake?
    ensures Role(s, p) == Waking(s.thr[p].pc.l)
  {
  }

  /** After the wakeup nobody sleeps on l: the ones asleep are woken, and nobody can be on the
      way to sleep, which takes ptable.lock. */
  lemma RelWakeWakes(s: State, c: nat, p: nat, l: nat)
    requires RunOk(s) && WakesOk(s) && LksOk(s) && c < |s.cpu| && s.cpu[c] == Cpu(Run, p) && s.pt == c && p < |s.proc|
    requires Role(s, p) == Waking(l) && l < |s.lock|
    ensures WakesOk(Edited(s, p, RelUnPt(l), Woken(s.proc, OnLock(l))))
  {
    hide RunOk, CpuOk, ProcOk, Role;
    var ps := Woken(s.proc, OnLock(l));
    var s' := Edited(s, p, RelUnPt(l), ps);
    EditedRoles(s, p, RelUnPt(l), ps);
    forall q: nat, k: nat | q < |s.proc| && k < |s.lock| && Sleepy(s', q, k)
      ensures s'.lock[k].locked || PendingWake(s', k)
    {
      assert Sleepy(s, q, k);
      if k == l {
        AloneInTable(s, c, p, q);
      }
    }
  }

  lemma ExitWakeKeeps(s: State, c: nat, p: nat)
    requires Inv(s) && Acts(s, c, p, Wake) && s.thr[p].pc.ExitWake?
    ensures Inv(OpApply(s, c, p, Wake))
  {
    hide OpApply, RunOk, LksOk, WakesOk, ForksOk, CpuOk, ProcOk, Role;
    var parent := s.proc[p].parent;
    var ps := if parent < 0 then s.proc else Woken(s.proc, OnProc(parent));
    var s' := Edited(s, p, ExitOrphans, ps);
    EditSteps(s, c, p, Wake);
    Editing(s, c, p, Wake);
    EditedRoles(s, p, ExitOrphans, ps);
    PlainRole(s, p);
    if parent < 0 {
      EditedRun(s, c, p, ExitOrphans, ps);
    } else {
      WokenRun(s, c, p, ExitOrphans, OnProc(parent));
    }
    LksSame(s, s');
    WakesSame(s, s');
    ForksSame(s, s');
  }

  lemma PlainRole(s: State, p: nat)
    requires p < |s.thr|
    requires (s.thr[p].pc.ExitWake? || s.thr[p].pc.KillMark? || s.thr[p].pc.WaitScan? || s.thr[p].pc.ForkAlloc?)
    ensures Role(s, p) == Plain
  {
  }

  lemma AbandonKeeps(s: State, c: nat, p: nat)
    requires Inv(s) && Acts(s, c, p, Abandon)
    ensures Inv(OpApply(s, c, p, Abandon))
  {
    hide OpApply, RunOk, LksOk, WakesOk, WaitsOk, ForksOk, CpuOk, ProcOk, Role, Orphaned;
    var ps := Orphaned(s.proc, p, s.init, |s.proc|);
    var s' := Edited(s, p, ExitZombie, ps);
    EditSteps(s, c, p, Abandon);
    Editing(s, c, p, Abandon);
    OrphanedEach(s.proc, p, s.init);
    EditedRoles(s, p, ExitZombie, ps);
    assert Role(s, p) == Leaving by { OrphansRole(s, p); }
    AbandonRun(s, c, p);
    LksSame(s, s');
    WakesSame(s, s');
    AbandonWaits(s, c, p);
    AbandonForks(s, p);
  }

  lemma OrphansRole(s: State, p: nat)
    requires p < |s.thr| && s.thr[p].pc.ExitOrphans?
    ensures Role(s, p) == Leaving
  {
  }

  lemma OrphanedEach(ps: seq<Proc>, me: int, init: nat)
    ensures var r := Orphaned(ps, me, init, |ps|);
            && |r| == |ps|
            && (forall q: nat :: q < |ps| ==>
                 && r[q].parent == (if ps[q].parent == me then init else ps[q].parent) && r[q].chan == ps[q].chan
                 && r[q].state == (if HasZombie(ps, me, |ps|) && Asleep(ps[q], OnProc(init)) then RUNNABLE
                     else ps[q].state))
            && (HasZombie(ps, me, |ps|) <==> exists q: nat :: q < |ps| && ZombieChild(ps[q], me))
  {
  }

  lemma AbandonRun(s: State, c: nat, p: nat)
    requires RunOk(s) && Acts(s, c, p, Abandon)
    ensures RunOk(Edited(s, p, ExitZombie, Orphaned(s.proc, p, s.init, |s.proc|)))
  {
    hide RunOk, CpuOk, ProcOk, Orphaned, InRange;
    var ps := Orphaned(s.proc, p, s.init, |s.proc|);
    Editing(s, c, p, Abandon);
    OrphanedEach(s.proc, p, s.init);
    forall q: nat | q < |s.proc| && q != p && ps[q].state != s.proc[q].state
      ensures s.thr[q].cpu == -1 && Parked(ps[q], s.thr[q], q)
    {
      OffCpu(s, c, p, q);
    }
    ZombieRange(s);
    EditedRun(s, c, p, ExitZombie, ps);
  }

  lemma ZombieRange(s: State)
    ensures InRange(ExitZombie, |s.lock|, |s.proc|) && InRange(PtDone, |s.lock|, |s.proc|)
  {
  }

  lemma AbandonWaits(s: State, c: nat, p: nat)
    requires RunOk(s) && WaitsOk(s) && ForksOk(s) && p < |s.proc| && c < |s.cpu| && s.cpu[c] == Cpu(Run, p) && s.pt == c
    requires Role(s, p) == Leaving
    ensures WaitsOk(Edited(s, p, ExitZombie, Orphaned(s.proc, p, s.init, |s.proc|)))
  {
    hide RunOk, Role, Orphaned;
    var ps := Orphaned(s.proc, p, s.init, |s.proc|);
    OrphanedEach(s.proc, p, s.init);
    EditedRoles(s, p, ExitZombie, ps);
    forall x: nat, q: nat | x < |s.proc| && q < |s.proc| && Asleep(ps[x], OnProc(x))
      ensures !ZombieChild(ps[q], x)
    {
      assert Asleep(s.proc[x], OnProc(x));
      assert !ZombieChild(s.proc[q], x);
      if ps[q].state == ZOMBIE && s.proc[q].parent == p {
        assert ZombieChild(s.proc[q], p);
      }
    }
    forall x: nat | x < |s.proc| && Role(s, x) == Leaving
      ensures x == p
    {
      AloneInTable(s, c, p, x);
    }
  }

  lemma AbandonForks(s: State, p: nat)
    requires ForksOk(s) && p < |s.proc| && Role(s, p) == Leaving
    ensures ForksOk(Edited(s, p, ExitZombie, Orphaned(s.proc, p, s.init, |s.proc|)))
  {
    hide Role, Orphaned;
    var ps := Orphaned(s.proc, p, s.init, |s.proc|);
    OrphanedEach(s.proc, p, s.init);
    EditedRoles(s, p, ExitZombie, ps);
  }

  lemma MarkKeeps(s: State, c: nat, p: nat)
    requires Inv(s) && Acts(s, c, p, Mark)
    ensures Inv(OpApply(s, c, p, Mark))
  {
    hide OpApply, RunOk, LksOk, WakesOk, WaitsOk, ForksOk, CpuOk, ProcOk, Role;
    var q := s.thr[p].pc.q;
    var ps := s.proc[q := Killed(s.proc[q])];
    var s' := Edited(s, p, PtDone, ps);
    EditSteps(s, c, p, Mark);
    Editing(s, c, p, Mark);
    EditedRoles(s, p, PtDone, ps);
    PlainRole(s, p);
    if q != p && s.proc[q].state == SLEEPING {
      OffCpu(s, c, p, q);
    }
    EditedRun(s, c, p, PtDone, ps);
    QuietKeeps(s, s');
  }

  // ----- fork -----

  lemma MakingRole(s: State, p: nat)
    requires p < |s.thr| && (s.thr[p].pc.ForkParent? || s.thr[p].pc.ForkPt? || s.thr[p].pc.ForkRun?)
    ensures Role(s, p) == Making(s.thr[p].pc.q)
  {
  }

  /** A process under construction is at its starting point and on no CPU. */
  lemma EmbryoParked(s: State, q: nat)
    requires RunOk(s) && q < |s.proc| && s.proc[q].state == EMBRYO
    ensures Shape(s) && s.thr[q].cpu == -1 && s.thr[q].pc == PtDone && s.thr[q].yielding == NoYield
    ensures Role(s, q) == Plain
  {
    OnCpu(s, q);
  }

  /** An edit of one entry that is no sleeper and no zombie afterwards. */
  lemma EditedOne(s: State, p: nat, pc: Pc, q: nat, x: Proc)
    requires Shape(s) && LksOk(s) && WakesOk(s) && WaitsOk(s) && p < |s.proc| && q < |s.proc| && p != q
    requires (Role(s, p) == Plain || Role(s, p).Making?) && (RoleOf(pc) == Plain || RoleOf(pc).Making?)
    requires Role(s, q) == Plain
    requires x.state != SLEEPING && x.state != ZOMBIE
    ensures var s' := Edited(s, p, pc, s.proc[q := x]); LksOk(s') && WakesOk(s') && WaitsOk(s')
  {
    hide Role, RoleOf, LksOk, WakesOk, WaitsOk;
    var ps := s.proc[q := x];
    EditedRoles(s, p, pc, ps);
    LksSame(s, Edited(s, p, pc, ps));
    WakesSame(s, Edited(s, p, pc, ps));
    WaitsSame(s, Edited(s, p, pc, ps));
  }

  lemma SetParentKeeps(s: State, c: nat, p: nat)
    requires Inv(s) && Acts(s, c, p, SetParent)
    ensures Inv(OpApply(s, c, p, SetParent))
  {
    hide OpApply, RunOk, LksOk, WakesOk, WaitsOk, CpuOk, ProcOk, Role, Parked;
    var q := s.thr[p].pc.q;
    var x := s.proc[q].(parent := p);
    EditSteps(s, c, p, SetParent);
    Editing(s, c, p, SetParent);
    MakingRole(s, p);
    EmbryoParked(s, q);
    EditedRun(s, c, p, ForkPt(q), s.proc[q := x]);
    EditedOne(s, p, ForkPt(q), q, x);
    EditedRoles(s, p, ForkPt(q), s.proc[q := x]);
  }

  lemma ForkFailsKeeps(s: State, c: nat, p: nat)
    requires Inv(s) && Acts(s, c, p, ForkFails)
    ensures Inv(OpApply(s, c, p, ForkFails))
  {
    hide OpApply, RunOk, LksOk, WakesOk, WaitsOk, CpuOk, ProcOk, Role;
    var q := s.thr[p].pc.q;
    var x := s.proc[q].(state := UNUSED);
    EditSteps(s, c, p, ForkFails);
    Editing(s, c, p, ForkFails);
    MakingRole(s, p);
    EmbryoParked(s, q);
    EditedRun(s, c, p, Idle, s.proc[q := x]);
    EditedOne(s, p, Idle, q, x);
    EditedRoles(s, p, Idle, s.proc[q := x]);
  }

  lemma MakeRunnableKeeps(s: State, c: nat, p: nat)
    requires Inv(s) && Acts(s, c, p, MakeRunnable)
    ensures Inv(OpApply(s, c, p, MakeRunnable))
  {
    hide OpApply, RunOk, LksOk, WakesOk, WaitsOk, CpuOk, ProcOk, Role;
    var q := s.thr[p].pc.q;
    var x := s.proc[q].(state := RUNNABLE);
    EditSteps(s, c, p, MakeRunnable);
    Editing(s, c, p, MakeRunnable);
    MakingRole(s, p);
    EmbryoParked(s, q);
    EditedRun(s, c, p, PtDone, s.proc[q := x]);
    EditedOne(s, p, PtDone, q, x);
    EditedRoles(s, p, PtDone, s.proc[q := x]);
  }

  /** As Edited, and process q off its CPU is (re)made. */
  ghost function Remade(s: State, p: nat, pc: Pc, q: nat, x: Proc, t: Thread): State
    requires p < |s.thr| == |s.proc| && q < |s.proc|
  {
    s.(thr := s.thr[p := s.thr[p].(pc := pc)][q := t], proc := s.proc[q := x])
  }

  lemma RemadeSteps(s: State, c: nat, p: nat, op: Op)
    requires Acts(s, c, p, op)
    ensures op.Alloc? ==>
              OpApply(s, c, p, op) == Remade(s, p, ForkParent(op.q), op.q, s.proc[op.q].(state := EMBRYO),
                  s.thr[op.q].(maker := p))
    ensures op.Reap? ==>
              OpApply(s, c, p, op) == Remade(s, p, PtDone, op.q, Reaped(s.proc[op.q]), Thread(PtDone, NoYield, -1, -1))
  {
    hide CpuOk, ProcOk;
  }

  lemma RemadeRoles(s: State, p: nat, pc: Pc, q: nat, x: Proc, t: Thread)
    requires Shape(s) && p < |s.proc| && q < |s.proc| && p != q && RoleOf(t.pc) == Plain
    ensures Shape(Remade(s, p, pc, q, x, t))
    ensures forall r: nat :: r < |s.proc| ==>
              Role(Remade(s, p, pc, q, x, t), r) == if r == p then RoleOf(pc) else if r == q then Plain else Role(s, r)
  {
  }

  lemma RemadeRun(s: State, c: nat, p: nat, pc: Pc, q: nat, x: Proc, t: Thread)
    requires RunOk(s) && c < |s.cpu| && p < |s.proc| && q < |s.proc| && p != q && s.cpu[c] == Cpu(Run, p)
    requires s.thr[p].yielding == NoYield
    requires HoldsPt(s.thr[p]) == HoldsPt(s.thr[p].(pc := pc)) && !AtSwtch(s.thr[p].(pc := pc))
    requires InRange(pc, |s.lock|, |s.proc|)
    requires s.proc[p].state == RUNNING
    requires s.thr[q].cpu == t.cpu == -1 && Parked(x, t, q) && t.yielding == NoYield && t.pc == PtDone
    ensures RunOk(Remade(s, p, pc, q, x, t))
  {
    hide HoldsPt, Parked, InRange, NoLocks, Resumes;
    assert CpuOk(s, c) && ProcOk(s, p);
    RunKept(s, Remade(s, p, pc, q, x, t), c, p);
  }

  lemma UnusedParked(s: State, q: nat)
    requires RunOk(s) && q < |s.proc| && s.proc[q].state == UNUSED
    ensures Shape(s) && s.thr[q].cpu == -1 && s.thr[q].pc == PtDone && s.thr[q].yielding == NoYield
    ensures Role(s, q) == Plain
  {
    OnCpu(s, q);
  }

  lemma RemadeOne(s: State, p: nat, pc: Pc, q: nat, x: Proc, t: Thread)
    requires Shape(s) && LksOk(s) && WakesOk(s) && WaitsOk(s) && p < |s.proc| && q < |s.proc| && p != q
    requires RoleOf(t.pc) == Plain
    requires Role(s, p) == Plain && (RoleOf(pc) == Plain || RoleOf(pc).Making?) && Role(s, q) == Plain
    requires x.state != SLEEPING && x.state != ZOMBIE
    ensures var s' := Remade(s, p, pc, q, x, t); LksOk(s') && WakesOk(s') && WaitsOk(s')
  {
    hide Role, RoleOf, LksOk, WakesOk, WaitsOk;
    RemadeRoles(s, p, pc, q, x, t);
    LksSame(s, Remade(s, p, pc, q, x, t));
    WakesSame(s, Remade(s, p, pc, q, x, t));
    WaitsSame(s, Remade(s, p, pc, q, x, t));
  }

  lemma RemadeForks(s: State, p: nat, pc: Pc, q: nat, x: Proc, t: Thread)
    requires ForksOk(s) && p < |s.proc| && q < |s.proc| && p != q && RoleOf(t.pc) == Plain
    requires s.proc[q].state != EMBRYO && q != s.init && x.parent != q
    requires RoleOf(pc) == Plain || (RoleOf(pc) == Making(q) && x.state == EMBRYO && t.maker == p)
    ensures ForksOk(Remade(s, p, pc, q, x, t))
  {
    hide Role, RoleOf;
    RemadeRoles(s, p, pc, q, x, t);
  }

  lemma AllocKeeps(s: State, c: nat, p: nat, q: nat)
    requires Inv(s) && Acts(s, c, p, Alloc(q))
    ensures Inv(OpApply(s, c, p, Alloc(q)))
  {
    hide OpApply, RunOk, LksOk, WakesOk, WaitsOk, CpuOk, ProcOk, Role;
    var x, t := s.proc[q].(state := EMBRYO), s.thr[q].(maker := p);
    RemadeSteps(s, c, p, Alloc(q));
    Editing(s, c, p, Alloc(q));
    UnusedParked(s, q);
    PlainRole(s, p);
    RemadeRun(s, c, p, ForkParent(q), q, x, t);
    RemadeOne(s, p, ForkParent(q), q, x, t);
    RemadeForks(s, p, ForkParent(q), q, x, t);
  }

  lemma ReapKeeps(s: State, c: nat, p: nat, q: nat)
    requires Inv(s) && Acts(s, c, p, Reap(q))
    ensures Inv(OpApply(s, c, p, Reap(q)))
  {
    hide OpApply, RunOk, LksOk, WakesOk, WaitsOk, CpuOk, ProcOk, Role;
    var x, t := Reaped(s.proc[q]), Thread(PtDone, NoYield, -1, -1);
    RemadeSteps(s, c, p, Reap(q));
    Editing(s, c, p, Reap(q));
    OffCpu(s, c, p, q);
    DeadRole(s, q);
    PlainRole(s, p);
    RemadeRun(s, c, p, PtDone, q, x, t);
    RemadeOne(s, p, PtDone, q, x, t);
    RemadeForks(s, p, PtDone, q, x, t);
  }

  lemma DeadRole(s: State, q: nat)
    requires q < |s.thr| && s.thr[q].pc == Dead
    ensures Role(s, q) == Plain
  {
  }

  lemma ProcStepKeeps(s: State, c: nat, p: nat, op: Op)
    requires Inv(s) && Acts(s, c, p, op)
    ensures Inv(OpApply(s, c, p, op))
  {
    hide OpApply, RunOk, LksOk, WakesOk, WaitsOk, ForksOk, CpuOk, ProcOk;
    match op
    case TakeLk => LockOpKeeps(s, c, p, op);
    case Test => LockOpKeeps(s, c, p, op);
    case Unlk => LockOpKeeps(s, c, p, op);
    case Clear => LockOpKeeps(s, c, p, op);
    case Set =>
      if s.thr[p].yielding == YieldSet {
        QuietOpKeeps(s, c, p, op);
      } else if s.thr[p].pc.SleepSet? {
        SleepKeeps(s, c, p);
      } else {
        ZombieKeeps(s, c, p);
      }
    case Wake => if s.thr[p].pc.RelWake? { RelWakeKeeps(s, c, p); } else { ExitWakeKeeps(s, c, p); }
    case Abandon => AbandonKeeps(s, c, p);
    case Mark => MarkKeeps(s, c, p);
    case Reap(q) => ReapKeeps(s, c, p, q);
    case WaitSleeps => WaitSleepsKeeps(s, c, p);
    case Alloc(q) => AllocKeeps(s, c, p, q);
    case SetParent => SetParentKeeps(s, c, p);
    case ForkFails => ForkFailsKeeps(s, c, p);
    case MakeRunnable => MakeRunnableKeeps(s, c, p);
    case _ => QuietOpKeeps(s, c, p, op);
  }

  lemma StepKeeps(s: State, step: Step)
    requires Inv(s) && Enabled(s, step)
    ensures Inv(Apply(s, step))
  {
    hide OpApply, LksOk, WakesOk, WaitsOk, ForksOk, OpEnabled;
    match step
    case CpuLock(c) => CpuLocksKeep(s, c, step);
    case CpuUnlock(c) => CpuLocksKeep(s, c, step);
    case CpuChoose(c, p) => CpuChooseKeeps(s, c, p);
    case CpuSwitch(c) => CpuSwitchKeeps(s, c);
    case CpuBack(c) => CpuBackKeeps(s, c);
    case ProcStep(c, op) => ProcStepKeeps(s, c, s.cpu[c].proc, op);
  }

  // ----- whole runs -----

  /** One runnable process, the rest unused; the CPUs enter scheduler(). */
  ghost predicate Boot(s: State) {
    && |s.proc| == |s.thr| && s.pt == -1 && s.init < |s.proc|
    && (forall c: nat :: c < |s.cpu| ==> s.cpu[c] == Cpu(Out, -1))
    && (forall l: nat :: l < |s.lock| ==> s.lock[l] == Lk(-1, false))
    && (forall p: nat :: p < |s.proc| ==> s.thr[p] == Thread(PtDone, NoYield, -1, -1) && s.proc[p].parent == -1
                                          && s.proc[p].chan == NoChan
                                          && s.proc[p].state == if p == s.init then RUNNABLE else UNUSED)
  }

  ghost predicate Next(s: State, s': State) {
    exists step :: Enabled(s, step) && s' == Apply(s, step)
  }

  /** A sequence of states the machine can go through, in any interleaving. */
  ghost predicate IsRun(tr: seq<State>) {
    && |tr| > 0 && Boot(tr[0])
    && forall i {:trigger tr[i]} :: 0 < i < |tr| ==> Next(tr[i - 1], tr[i])
  }

  lemma BootInv(s: State)
    requires Boot(s)
    ensures Inv(s)
  {
  }

  lemma {:induction false} Safety(tr: seq<State>, i: nat)
    requires IsRun(tr) && i < |tr|
    ensures Inv(tr[i])
  {
    hide Inv, Enabled, Apply, Boot;
    if i == 0 {
      BootInv(tr[0]);
    } else {
      Safety(tr, i - 1);
      assert Next(tr[i - 1], tr[i]);
      var step :| Enabled(tr[i - 1], step) && tr[i] == Apply(tr[i - 1], step);
      StepKeeps(tr[i - 1], step);
    }
  }

  /** Whenever ptable.lock is free, a process is RUNNING exactly when a CPU has it as its
      process, and no two CPUs have the same. */
  lemma RunningIffOnCpu(tr: seq<State>, i: nat, p: nat)
    requires IsRun(tr) && i < |tr| && p < |tr[i].proc| && tr[i].pt == -1
    ensures tr[i].proc[p].state == RUNNING <==> exists c: nat :: c < |tr[i].cpu| && tr[i].cpu[c].proc == p
    ensures forall c: nat, d: nat ::
              c < |tr[i].cpu| && d < |tr[i].cpu| && tr[i].cpu[c].proc == p == tr[i].cpu[d].proc ==> c == d
  {
    hide IsRun;
    Safety(tr, i);
    var s := tr[i];
    OnCpu(s, p);
    forall c: nat | c < |s.cpu| && s.cpu[c].proc == p
      ensures s.thr[p].cpu == c && s.proc[p].state == RUNNING
    {
      assert CpuOk(s, c);
    }
  }

  /** No wakeup is lost: a process asleep on a sleep lock that is free will still be woken by
      the process that freed it, which holds the spin lock until it has done so. */
  lemma NoLostWakeup(tr: seq<State>, i: nat, p: nat, l: nat)
    requires IsRun(tr) && i < |tr| && p < |tr[i].proc| && l < |tr[i].lock|
    requires Asleep(tr[i].proc[p], OnLock(l)) && !tr[i].lock[l].locked
    ensures var h := tr[i].lock[l].holder;
            0 <= h < |tr[i].thr| && (tr[i].thr[h].pc == RelPt(l) || tr[i].thr[h].pc == RelWake(l))
  {
    hide IsRun, RunOk, LksOk, WaitsOk, ForksOk;
    Safety(tr, i);
    assert Sleepy(tr[i], p, l);
  }

  /** A process asleep in wait has no child left to collect. */
  lemma NoWaiterWithZombie(tr: seq<State>, i: nat, p: nat, q: nat)
    requires IsRun(tr) && i < |tr| && p < |tr[i].proc| && q < |tr[i].proc| && Asleep(tr[i].proc[p], OnProc(p))
    ensures !(tr[i].proc[q].parent == p && tr[i].proc[q].state == ZOMBIE)
  {
    hide IsRun, RunOk, LksOk, WakesOk, ForksOk;
    Safety(tr, i);
    assert !ZombieChild(tr[i].proc[q], p);
  }
}
