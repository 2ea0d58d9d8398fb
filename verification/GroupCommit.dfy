/** The logging protocol of log.c over all interleavings: any number of operations
    between begin_op() and end_op(), the group commit one block write at a time, and
    crashes with recovery at any point. The machine's steps do to memory and disk what
    the code does; three history variables remember what was logged by whom. */
module GroupCommit {
  import opened Common
  import opened Blocks
  import opened RedoLog
  import opened Log

  type Op = nat

  /** One log_write() call. */
  datatype Update = Update(op: Op, b: uint32, data: Block)

  /** The operations that one commit made durable together, and their updates in order. */
  datatype Group = Group(ops: set<Op>, updates: seq<Update>)

  /** k counts the disk writes done so far; start and view are the disk and the cached
      image at the moment the commit or the recovery began. */
  datatype Phase =
    | Running
    | Committing(k: nat, start: Disk, view: Disk)
    | Recovering(k: nat, start: Disk)

  datatype State = State(
    disk: Disk,
    bs: seq<uint32>,              // lh.block[0..lh.n]
    dirty: map<nat, Block>,       // pinned buffers
    spent: map<Op, set<uint32>>,  // outstanding operations, with the blocks each has logged
    ended: set<Op>,               // operations of the current group that have ended
    phase: Phase,
    // history
    used: set<Op>,
    pending: seq<Update>,
    groups: seq<Group>,
    trace: seq<Update>)

  datatype Step =
    | Begin(op: Op)
    | LogWrite(op: Op, b: uint32, data: Block)
    | End(op: Op)
    | CommitWrite
    | CommitDone
    | Crash
    | RecoverWrite
    | RecoverDone

  // ----- the steps -----

  function CommitLength(n: nat): nat {
    if n == 0 then 0 else 2 * n + 2
  }

  /** log_write() tests its guard before it takes log.lock, so the answer may be old when the
      log is updated. For a log region of more than LOGSIZE blocks the update does not depend on
      the guard at all; for a smaller one test and update are a single step here, and StaleGuard
      shows what happens otherwise. */
  predicate Enabled(g: Geometry, s: State, step: Step) {
    match step
    case Begin(op) =>
      s.phase.Running? && op !in s.used && |s.bs| + (|s.spent| + 1) * MAXOPBLOCKS <= LOGSIZE
    case LogWrite(op, b, data) =>
      && s.phase.Running? && op in s.spent && |s.spent[op] + {b}| <= MAXOPBLOCKS
      && b < |s.disk| && IsHome(g, b)
      && (g.size > LOGSIZE || !Panics(g, s))
    case End(op) => s.phase.Running? && op in s.spent
    case CommitWrite => s.phase.Committing? && s.phase.k < CommitLength(|s.bs|)
    case CommitDone => s.phase.Committing? && s.phase.k == CommitLength(|s.bs|)
    case Crash => true
    case RecoverWrite => s.phase.Recovering? && s.phase.k <= |s.bs|
    case RecoverDone => s.phase.Recovering? && s.phase.k == |s.bs| + 1
  }

  /** The guard in log_write() that panics with "too big a transaction". */
  predicate Panics(g: Geometry, s: State) {
    |s.bs| >= LOGSIZE || |s.bs| >= g.size - 1
  }

  /** The block write number k of commit(), as the code computes it. */
  function CommitDisk(g: Geometry, s: State, k: nat): (d: Disk)
    requires Fits(g, s.disk) && HomeList(g, |s.disk|, s.bs)
    requires k < CommitLength(|s.bs|)
    requires k < |s.bs| ==> s.bs[k] in s.dirty
    ensures |d| == |s.disk|
  {
    var n := |s.bs|;
    if k < n then s.disk[g.start + 1 + k := s.dirty[s.bs[k]]]
    else if k == n then s.disk[g.start := PutHeader(s.disk[g.start], s.bs)]
    else if k <= 2 * n then s.disk[s.bs[k - n - 1] := s.disk[g.start + k - n]]
    else s.disk[g.start := PutHeader(s.disk[g.start], [])]
  }

  function RecoverDisk(g: Geometry, s: State, k: nat): Disk
    requires Fits(g, s.disk) && HomeList(g, |s.disk|, s.bs) && k <= |s.bs|
  {
    if k < |s.bs| then s.disk[s.bs[k] := s.disk[g.start + 1 + k]]
    else s.disk[g.start := PutHeader(s.disk[g.start], [])]
  }

  /** The pinned buffers after block write number k: install_trans() unpins. */
  function CommitDirty(s: State, k: nat): map<nat, Block> {
    if |s.bs| < k <= 2 * |s.bs| then s.dirty - {s.bs[k - |s.bs| - 1]} else s.dirty
  }

  /** The step reads and writes only blocks and buffers that exist. Every enabled step
      of every reachable state is of this kind: see Safety. */
  predicate Defined(g: Geometry, s: State, step: Step) {
    match step
    case CommitWrite =>
      && Fits(g, s.disk) && HomeList(g, |s.disk|, s.bs)
      && (s.phase.Committing? && s.phase.k < |s.bs| ==> s.bs[s.phase.k] in s.dirty)
    case RecoverWrite => Fits(g, s.disk) && HomeList(g, |s.disk|, s.bs)
    case Crash => Fits(g, s.disk) && HeaderCount(s.disk[g.start]) <= LOGSIZE
    case _ => true
  }

  ghost function Next(g: Geometry, s: State, step: Step): State
    requires Enabled(g, s, step) && Defined(g, s, step)
  {
    match step
    case Begin(op) => s.(spent := s.spent[op := {}], used := s.used + {op})
    case LogWrite(op, b, data) =>
      var u := Update(op, b, data);
      s.(bs := Absorb(s.bs, b), dirty := s.dirty[b := data], spent := s.spent[op := s.spent[op] + {b}],
         pending := s.pending + [u], trace := s.trace + [u])
    case End(op) =>
      var spent := s.spent - {op};
      s.(spent := spent, ended := s.ended + {op},
         phase := if spent == map[] then Committing(0, s.disk, Overlay(s.disk, s.dirty)) else Running)
    case CommitWrite =>
      var k := s.phase.k;
      var t := s.(disk := CommitDisk(g, s, k), dirty := CommitDirty(s, k),
                  phase := Committing(k + 1, s.phase.start, s.phase.view));
      if k == |s.bs| then CloseGroup(t) else t
    case CommitDone =>
      var t := s.(bs := [], phase := Running);
      if s.bs == [] then CloseGroup(t) else t
    case Crash =>
      s.(bs := HeaderBlocks(s.disk[g.start]), dirty := map[], spent := map[], ended := {}, pending := [],
         phase := Recovering(0, s.disk))
    case RecoverWrite =>
      s.(disk := RecoverDisk(g, s, s.phase.k), phase := Recovering(s.phase.k + 1, s.phase.start))
    case RecoverDone =>
      s.(bs := [], phase := Running)
  }

  /** History: the group that has just become durable. */
  function CloseGroup(s: State): State {
    s.(groups := s.groups + [Group(s.ended, s.pending)], ended := {}, pending := [])
  }

  /** Power-on with an arbitrary recoverable disk. */
  function Boot(g: Geometry, d: Disk): State
    requires LogOk(g, d)
  {
    State(d, HeaderBlocks(d[g.start]), map[], map[], {}, Recovering(0, d), {}, [], [], [])
  }

  // ----- what the history says -----

  /** The disk after the updates us, in order. */
  ghost function Replay(d: Disk, us: seq<Update>): (r: Disk)
    ensures |r| == |d|
  {
    if us == [] then d
    else
      var r, u := Replay(d, us[..|us| - 1]), us[|us| - 1];
      if u.b < |r| then r[u.b := u.data] else r
  }

  /** The disk that the committed groups amount to. */
  ghost function Durable(d: Disk, groups: seq<Group>): (r: Disk)
    ensures |r| == |d|
  {
    if groups == [] then d
    else Replay(Durable(d, groups[..|groups| - 1]), groups[|groups| - 1].updates)
  }

  /** The updates of one operation, in order. */
  ghost function By(us: seq<Update>, op: Op): seq<Update> {
    if us == [] then []
    else By(us[..|us| - 1], op) + if us[|us| - 1].op == op then [us[|us| - 1]] else []
  }

  lemma BySnoc(us: seq<Update>, u: Update, op: Op)
    ensures By(us + [u], op) == By(us, op) + if u.op == op then [u] else []
  {
    assert (us + [u])[..|us|] == us;
  }

  lemma {:induction false} ByAbsent(us: seq<Update>, op: Op)
    requires forall i :: 0 <= i < |us| ==> us[i].op != op
    ensures By(us, op) == []
  {
    if us == [] {
    } else {
      ByAbsent(us[..|us| - 1], op);
    }
  }

  lemma ReplaySnoc(d: Disk, us: seq<Update>, u: Update)
    requires u.b < |d|
    ensures Replay(d, us + [u]) == Replay(d, us)[u.b := u.data]
  {
    assert (us + [u])[..|us|] == us;
  }

  lemma {:induction false} ReplaySameHomes(g: Geometry, d: Disk, e: Disk, us: seq<Update>)
    requires SameHomes(g, d, e)
    ensures SameHomes(g, Replay(d, us), Replay(e, us))
  {
    if us == [] {
    } else {
      ReplaySameHomes(g, d, e, us[..|us| - 1]);
    }
  }

  lemma DurableSnoc(d: Disk, groups: seq<Group>, group: Group)
    ensures Durable(d, groups + [group]) == Replay(Durable(d, groups), group.updates)
  {
    assert (groups + [group])[..|groups|] == groups;
  }

  // ----- log space -----

  /** Log slots promised to the outstanding operations and not yet used by them. */
  ghost function Unspent(spent: map<Op, set<uint32>>): (r: int)
    decreases |spent|
  {
    if spent == map[] then 0
    else
      var op :| op in spent;
      assert |spent - {op}| < |spent| by { MapMinusOne(spent, op); }
      MAXOPBLOCKS - |spent[op]| + Unspent(spent - {op})
  }

  lemma {:induction false} UnspentRemove(spent: map<Op, set<uint32>>, op: Op)
    requires op in spent
    ensures Unspent(spent) == MAXOPBLOCKS - |spent[op]| + Unspent(spent - {op})
    decreases |spent|
  {
    var x :| x in spent && Unspent(spent) == MAXOPBLOCKS - |spent[x]| + Unspent(spent - {x});
    MapMinusOne(spent, x);
    if x == op {
    } else {
      UnspentRemove(spent - {x}, op);
      UnspentRemove2(spent, x, op);
    }
  }

  lemma {:induction false} UnspentRemove2(spent: map<Op, set<uint32>>, x: Op, op: Op)
    requires x in spent && op in spent && x != op
    ensures Unspent(spent - {op}) == MAXOPBLOCKS - |spent[x]| + Unspent(spent - {x} - {op})
    decreases |spent|, 0
  {
    MapMinusOne(spent, op);
    assert spent - {op} - {x} == spent - {x} - {op};
    UnspentRemove(spent - {op}, x);
  }

  lemma UnspentUpdate(spent: map<Op, set<uint32>>, op: Op, blocks: set<uint32>)
    ensures Unspent(spent[op := blocks]) == MAXOPBLOCKS - |blocks| + Unspent(spent - {op})
  {
    UnspentRemove(spent[op := blocks], op);
    assert spent[op := blocks] - {op} == spent - {op};
  }

  lemma {:induction false} UnspentBounds(spent: map<Op, set<uint32>>)
    requires forall op :: op in spent ==> |spent[op]| <= MAXOPBLOCKS
    ensures 0 <= Unspent(spent) <= MAXOPBLOCKS * |spent|
    decreases |spent|
  {
    if spent == map[] {
    } else {
      var op :| op in spent;
      UnspentRemove(spent, op);
      MapMinusOne(spent, op);
      UnspentBounds(spent - {op});
    }
  }

  // ----- the invariant -----

  /** Log space: slots in use plus slots promised never exceed the log. */
  ghost predicate SpaceInv(g: Geometry, s: State) {
    && (forall op :: op in s.spent ==> |s.spent[op]| <= MAXOPBLOCKS)
    && (forall op, b :: op in s.spent && b in s.spent[op] ==> b in s.bs)
    && |s.bs| + Unspent(s.spent) <= LOGSIZE
    && HomeList(g, |s.disk|, s.bs)
  }

  /** Operations are outstanding, ended, or in exactly one committed group. */
  ghost predicate GroupInv(s: State) {
    && s.spent.Keys !! s.ended
    && s.spent.Keys + s.ended <= s.used
    && (!s.phase.Running? ==> s.spent == map[])
    && (forall i :: 0 <= i < |s.pending| ==> s.pending[i].op in s.spent || s.pending[i].op in s.ended)
    && (forall i :: 0 <= i < |s.groups| ==> s.groups[i].ops <= s.used)
    && (forall i, op :: 0 <= i < |s.groups| && op in s.groups[i].ops ==> op !in s.spent && op !in s.ended)
    && (forall i, j :: 0 <= i < j < |s.groups| ==> s.groups[i].ops !! s.groups[j].ops)
    && (forall i, j :: 0 <= i < |s.groups| && 0 <= j < |s.groups[i].updates| ==>
          s.groups[i].updates[j].op in s.groups[i].ops)
  }

  /** No operation's updates are split: its group, or the group being built, has them all. */
  ghost predicate TraceInv(s: State) {
    && (forall i :: 0 <= i < |s.trace| ==> s.trace[i].op in s.used)
    && (forall op :: op in s.spent || op in s.ended ==> By(s.trace, op) == By(s.pending, op))
    && (forall i, op :: 0 <= i < |s.groups| && op in s.groups[i].ops ==>
          By(s.trace, op) == By(s.groups[i].updates, op))
  }

  ghost predicate DiskInv(g: Geometry, s: State) {
    DiskAgrees(g, s.disk, s.bs, s.dirty, s.ended, s.pending, s.phase)
  }

  /** What is on the disk and in the cache, in each phase. */
  ghost predicate DiskAgrees(g: Geometry, disk: Disk, bs: seq<uint32>, dirty: map<nat, Block>,
                             ended: set<Op>, pending: seq<Update>, phase: Phase) {
    match phase
    case Running =>
      && LogOk(g, disk) && HeaderCount(disk[g.start]) == 0
      && (forall a :: a in dirty <==> a in bs)
      && Overlay(disk, dirty) == Replay(disk, pending)
    case Committing(k, d, v) =>
      && LogOk(g, d) && HeaderCount(d[g.start]) == 0 && |disk| == |d|
      && k <= CommitLength(|bs|)
      && Transaction(g, d, bs, v)
      && disk == CommitState(g, d, bs, v, k)
      && (k <= |bs| ==> v == Replay(d, pending) && Committed(d, bs, v) == v)
      && (k <= |bs| ==> forall a :: a in dirty <==> a in bs)
      && (k <= |bs| ==> forall a :: a in dirty ==> a < |v| && v[a] == dirty[a])
      && (k > |bs| ==> pending == [] && ended == {})
      && (k > |bs| ==> forall a :: a in dirty ==>
            a in bs[if k - |bs| - 1 <= |bs| then k - |bs| - 1 else |bs|..])
    case Recovering(k, d) =>
      && LogOk(g, d) && bs == HeaderBlocks(d[g.start]) && k <= |bs| + 1
      && disk == RecoveryState(g, d, k)
      && pending == [] && ended == {} && dirty == map[]
  }

  ghost predicate Inv(g: Geometry, s: State) {
    LogOk(g, s.disk) && SpaceInv(g, s) && GroupInv(s) && TraceInv(s) && DiskInv(g, s)
  }

  /** The property everything is for: crash now, recover, and exactly the committed
      groups are there, each complete, on top of the disk e found at boot. */
  ghost predicate CrashConsistent(g: Geometry, e: Disk, s: State) {
    LogOk(g, s.disk) && SameHomes(g, Recovered(g, s.disk), Durable(e, s.groups))
  }

  // ----- every step keeps it -----

  /** begin_op()'s admission test reserves a full allowance for the newcomer. */
  lemma AdmissionReserves(spent: map<Op, set<uint32>>, op: Op, n: nat)
    requires op !in spent && forall o :: o in spent ==> |spent[o]| <= MAXOPBLOCKS
    requires n + (|spent| + 1) * MAXOPBLOCKS <= LOGSIZE
    ensures n + Unspent(spent[op := {}]) <= LOGSIZE
  {
    assert spent - {op} == spent;
    UnspentUpdate(spent, op, {});
    UnspentBounds(spent);
  }

  lemma BeginTrace(g: Geometry, s: State, op: Op)
    requires Inv(g, s) && Enabled(g, s, Begin(op))
    ensures TraceInv(Next(g, s, Begin(op)))
  {
    hide LogOk, DiskInv, SpaceInv;
    ByAbsent(s.trace, op);
    ByAbsent(s.pending, op);
    hide By;
  }

  lemma BeginSpace(g: Geometry, s: State, op: Op)
    requires Inv(g, s) && Enabled(g, s, Begin(op))
    ensures SpaceInv(g, Next(g, s, Begin(op)))
  {
    hide LogOk, DiskInv, Unspent, TraceInv, HomeList;
    AdmissionReserves(s.spent, op, |s.bs|);
  }

  lemma BeginGroup(g: Geometry, s: State, op: Op)
    requires Inv(g, s) && Enabled(g, s, Begin(op))
    ensures GroupInv(Next(g, s, Begin(op)))
  {
    hide LogOk, DiskInv, SpaceInv, TraceInv;
  }

  lemma BeginKeeps(g: Geometry, s: State, op: Op)
    requires Inv(g, s) && Enabled(g, s, Begin(op))
    ensures Inv(g, Next(g, s, Begin(op)))
  {
    hide LogOk, DiskAgrees, SpaceInv, GroupInv, TraceInv;
    BeginSpace(g, s, op);
    BeginGroup(g, s, op);
    BeginTrace(g, s, op);
  }

  lemma LogWriteSpace(g: Geometry, s: State, op: Op, b: uint32, data: Block)
    requires Inv(g, s) && Enabled(g, s, LogWrite(op, b, data))
    ensures SpaceInv(g, Next(g, s, LogWrite(op, b, data)))
  {
    hide LogOk, Overlay, Replay, By, TraceInv, GroupInv, DiskInv;
    var mine := s.spent[op];
    UnspentRemove(s.spent, op);
    UnspentUpdate(s.spent, op, mine + {b});
    assert b !in s.bs ==> b !in mine;
    OneMore(mine, b);
    UnspentBounds(s.spent[op := mine + {b}]);
  }

  lemma LogWriteTrace(g: Geometry, s: State, op: Op, b: uint32, data: Block)
    requires Inv(g, s) && Enabled(g, s, LogWrite(op, b, data))
    ensures TraceInv(Next(g, s, LogWrite(op, b, data)))
  {
    hide LogOk, Overlay, Replay, Unspent, DiskInv, SpaceInv;
    var u := Update(op, b, data);
    forall o
      ensures By(s.trace + [u], o) == By(s.trace, o) + if op == o then [u] else []
      ensures By(s.pending + [u], o) == By(s.pending, o) + if op == o then [u] else []
    {
      BySnoc(s.trace, u, o);
      BySnoc(s.pending, u, o);
    }
  }

  lemma LogWriteKeeps(g: Geometry, s: State, op: Op, b: uint32, data: Block)
    requires Inv(g, s) && Enabled(g, s, LogWrite(op, b, data))
    ensures Inv(g, Next(g, s, LogWrite(op, b, data)))
  {
    hide Unspent, By, SpaceInv, TraceInv;
    LogWriteSpace(g, s, op, b, data);
    LogWriteTrace(g, s, op, b, data);
    OverlayUpdate(s.disk, s.dirty, b, data);
    ReplaySnoc(s.disk, s.pending, Update(op, b, data));
    hide LogOk, Overlay, Replay;
  }

  lemma EndSpace(g: Geometry, s: State, op: Op)
    requires Inv(g, s) && Enabled(g, s, End(op))
    ensures SpaceInv(g, Next(g, s, End(op)))
  {
    hide LogOk, GroupInv, TraceInv, DiskInv;
    UnspentRemove(s.spent, op);
  }

  lemma EndKeeps(g: Geometry, s: State, op: Op)
    requires Inv(g, s) && Enabled(g, s, End(op))
    ensures Inv(g, Next(g, s, End(op)))
  {
    hide By, Unspent, CommitState, Committed, Overlay, Replay, LogOk;
    EndSpace(g, s, op);
    if Next(g, s, End(op)).phase.Committing? {
      EndStartsCommit(g, s);
    }
    hide SpaceInv;
  }

  lemma EndStartsCommit(g: Geometry, s: State)
    requires Inv(g, s) && s.phase.Running?
    ensures var v := Overlay(s.disk, s.dirty);
            && Transaction(g, s.disk, s.bs, v) && s.disk == CommitState(g, s.disk, s.bs, v, 0)
            && v == Replay(s.disk, s.pending) && Committed(s.disk, s.bs, v) == v
            && (forall a :: a in s.dirty ==> a < |v| && v[a] == s.dirty[a])
  {
    hide GroupInv, TraceInv, Replay, Unspent;
    CommitStateStart(g, s.disk, s.bs, Overlay(s.disk, s.dirty));
    hide CommitState;
  }

  /** The committed image is what the pending updates make of the durable one. */
  lemma GroupBecomesDurable(g: Geometry, e: Disk, groups: seq<Group>, group: Group, d: Disk)
    requires SameHomes(g, d, Durable(e, groups))
    ensures SameHomes(g, Replay(d, group.updates), Durable(e, groups + [group]))
  {
    ReplaySameHomes(g, d, Durable(e, groups), group.updates);
    DurableSnoc(e, groups, group);
  }

  /** The next disk of a commit as computed from memory and disk is the next CommitState. */
  lemma CommitDiskIsCommitState(g: Geometry, s: State)
    requires Inv(g, s) && Enabled(g, s, CommitWrite)
    ensures Defined(g, s, CommitWrite)
    ensures CommitDisk(g, s, s.phase.k) == CommitState(g, s.phase.start, s.bs, s.phase.view, s.phase.k + 1)
  {
    hide CommitState, LogOk, Overlay, Replay, Committed, TraceInv, GroupInv, PutHeader;
    var k, n, d, v := s.phase.k, |s.bs|, s.phase.start, s.phase.view;
    if k < n {
      CommitStateLog(g, d, s.bs, v, k);
    } else if k == n {
      CommitStateHead(g, d, s.bs, v);
    } else if k <= 2 * n {
      CommitStateInstall(g, d, s.bs, v, k - n - 1);
    } else {
      CommitStateErase(g, d, s.bs, v);
    }
  }

  lemma UnpinStep(bs: seq<uint32>, i: nat, dirty: map<nat, Block>)
    requires i < |bs| && forall a :: a in dirty ==> a in bs[i..]
    ensures forall a :: a in dirty - {bs[i]} ==> a in bs[i + 1..]
  {
    assert bs[i..] == [bs[i]] + bs[i + 1..];
  }

  lemma CommitWriteDisk(g: Geometry, s: State)
    requires Inv(g, s) && Enabled(g, s, CommitWrite) && Defined(g, s, CommitWrite)
    ensures DiskInv(g, Next(g, s, CommitWrite))
  {
    hide CommitState, LogOk, Overlay, Replay, Committed, TraceInv, GroupInv, SpaceInv, CommitDisk;
    CommitDiskIsCommitState(g, s);
    var k, n := s.phase.k, |s.bs|;
    if k == n {
      assert s.bs[0..] == s.bs;
    } else if n < k <= 2 * n {
      UnpinStep(s.bs, k - n - 1, s.dirty);
    }
  }

  /** Closing the group moves its operations from pending to durable as a whole. */
  lemma CloseGroupKeeps(s: State)
    requires GroupInv(s) && TraceInv(s) && s.spent == map[]
    ensures GroupInv(CloseGroup(s)) && TraceInv(CloseGroup(s))
  {
    hide By;
  }

  lemma CommitWriteCrash(g: Geometry, e: Disk, s: State)
    requires Inv(g, s) && Enabled(g, s, CommitWrite) && CrashConsistent(g, e, s)
    requires Defined(g, s, CommitWrite)
    ensures CrashConsistent(g, e, Next(g, s, CommitWrite))
  {
    hide CommitState, Overlay, Committed, CommitDisk, SpaceInv, GroupInv, TraceInv, LogOk, Recovered, Replay;
    var k, n, d, v := s.phase.k, |s.bs|, s.phase.start, s.phase.view;
    CommitDiskIsCommitState(g, s);
    CrashAtomicity(g, d, s.bs, v, k, []);
    CrashAtomicity(g, d, s.bs, v, k + 1, []);
    if k == n {
      GroupBecomesDurable(g, e, s.groups, Group(s.ended, s.pending), d);
    }
    hide Durable, DiskAgrees;
  }

  lemma CommitWriteKeeps(g: Geometry, e: Disk, s: State)
    requires Inv(g, s) && Enabled(g, s, CommitWrite) && CrashConsistent(g, e, s)
    ensures Defined(g, s, CommitWrite)
    ensures Inv(g, Next(g, s, CommitWrite)) && CrashConsistent(g, e, Next(g, s, CommitWrite))
  {
    hide DiskAgrees, LogOk, Recovered, Durable, SameHomes, CommitDisk, CommitDirty, Unspent, By;
    CommitDiskIsCommitState(g, s);
    CommitWriteDisk(g, s);
    CommitWriteCrash(g, e, s);
    CloseGroupKeeps(s);
  }

  lemma EmptyCommitDisk(g: Geometry, e: Disk, s: State)
    requires Inv(g, s) && Enabled(g, s, CommitDone) && CrashConsistent(g, e, s) && s.bs == []
    ensures DiskInv(g, Next(g, s, CommitDone)) && CrashConsistent(g, e, Next(g, s, CommitDone))
  {
    hide CommitState, SpaceInv, GroupInv, TraceInv, Recovered, Durable, LogOk;
    var d, v := s.phase.start, s.phase.view;
    assert v == d;
    CommitStateStart(g, d, s.bs, v);
    RecoveryOfClean(g, d);
    GroupBecomesDurable(g, e, s.groups, Group(s.ended, s.pending), d);
    assert Overlay(d, s.dirty) == d;
    hide Overlay, Replay;
  }

  lemma FullCommitDisk(g: Geometry, e: Disk, s: State)
    requires Inv(g, s) && Enabled(g, s, CommitDone) && CrashConsistent(g, e, s) && s.bs != []
    ensures DiskInv(g, Next(g, s, CommitDone)) && CrashConsistent(g, e, Next(g, s, CommitDone))
  {
    hide CommitState, SpaceInv, GroupInv, TraceInv, Recovered, Durable, LogOk, Committed;
    CommitFinal(g, s.phase.start, s.bs, s.phase.view);
    assert Overlay(s.disk, s.dirty) == s.disk;
  }

  lemma CommitDoneKeeps(g: Geometry, e: Disk, s: State)
    requires Inv(g, s) && Enabled(g, s, CommitDone) && CrashConsistent(g, e, s)
    ensures Inv(g, Next(g, s, CommitDone)) && CrashConsistent(g, e, Next(g, s, CommitDone))
  {
    hide DiskAgrees, LogOk, Recovered, Durable, SameHomes, By, Unspent;
    if s.bs == [] {
      EmptyCommitDisk(g, e, s);
    } else {
      FullCommitDisk(g, e, s);
    }
    CloseGroupKeeps(s);
  }

  lemma CrashKeeps(g: Geometry, e: Disk, s: State)
    requires Inv(g, s) && CrashConsistent(g, e, s)
    ensures Defined(g, s, Crash)
    ensures Inv(g, Next(g, s, Crash)) && CrashConsistent(g, e, Next(g, s, Crash))
  {
    hide By, Recovered, Durable, HeaderBlocks;
    InstalledNone(g, s.disk, HeaderBlocks(s.disk[g.start]));
    hide Installed;
    var t := Next(g, s, Crash);
    assert DiskInv(g, t);
    hide DiskAgrees;
  }

  lemma RecoverWriteKeeps(g: Geometry, e: Disk, s: State)
    requires Inv(g, s) && Enabled(g, s, RecoverWrite) && CrashConsistent(g, e, s)
    ensures Defined(g, s, RecoverWrite)
    ensures Inv(g, Next(g, s, RecoverWrite)) && CrashConsistent(g, e, Next(g, s, RecoverWrite))
  {
    hide By, Unspent, Durable, Installed, PutHeader;
    var k, d := s.phase.k, s.phase.start;
    RecoveryRestartable(g, d, k);
    RecoveryRestartable(g, d, k + 1);
    if k < |s.bs| {
      InstalledStep(g, d, s.bs, k);
    } else {
      InstalledKeepsHeader(g, d, s.bs);
    }
  }

  lemma RecoverDoneKeeps(g: Geometry, e: Disk, s: State)
    requires Inv(g, s) && Enabled(g, s, RecoverDone) && CrashConsistent(g, e, s)
    ensures Inv(g, Next(g, s, RecoverDone)) && CrashConsistent(g, e, Next(g, s, RecoverDone))
  {
    hide By, Unspent, Durable, Recovered;
    RecoveredIsClean(g, s.phase.start);
  }

  lemma StepKeeps(g: Geometry, e: Disk, s: State, step: Step)
    requires Inv(g, s) && Enabled(g, s, step) && CrashConsistent(g, e, s)
    ensures Defined(g, s, step)
    ensures Inv(g, Next(g, s, step)) && CrashConsistent(g, e, Next(g, s, step))
  {
    hide Inv, Durable, Recovered, LogOk, SameHomes;
    match step
    case Begin(op) => BeginKeeps(g, s, op);
    case LogWrite(op, b, data) => LogWriteKeeps(g, s, op, b, data);
    case End(op) => EndKeeps(g, s, op);
    case CommitWrite => CommitWriteKeeps(g, e, s);
    case CommitDone => CommitDoneKeeps(g, e, s);
    case Crash => CrashKeeps(g, e, s);
    case RecoverWrite => RecoverWriteKeeps(g, e, s);
    case RecoverDone => RecoverDoneKeeps(g, e, s);
  }

  // ----- whole runs -----

  ghost predicate Reaches(g: Geometry, d: Disk, steps: seq<Step>, s: State)
    requires LogOk(g, d)
    decreases |steps|
  {
    if steps == [] then s == Boot(g, d)
    else
      var last := steps[|steps| - 1];
      exists t :: Reaches(g, d, steps[..|steps| - 1], t) && IsNext(g, t, last, s)
  }

  ghost predicate IsNext(g: Geometry, s: State, step: Step, t: State) {
    Enabled(g, s, step) && Defined(g, s, step) && t == Next(g, s, step)
  }

  lemma BootInv(g: Geometry, d: Disk)
    requires LogOk(g, d)
    ensures Inv(g, Boot(g, d)) && CrashConsistent(g, Recovered(g, d), Boot(g, d))
  {
    InstalledNone(g, d, HeaderBlocks(d[g.start]));
    hide Installed, Recovered, HeaderBlocks;
  }

  /** In every state of every run, from any recoverable disk and through any number of
      crashes: recovery would yield exactly the committed groups in commit order, the log
      never overruns its space, and no step reads or writes outside what exists. */
  lemma {:induction false} Safety(g: Geometry, d: Disk, steps: seq<Step>, s: State)
    requires LogOk(g, d) && Reaches(g, d, steps, s)
    ensures Inv(g, s) && CrashConsistent(g, Recovered(g, d), s)
    ensures forall step :: Enabled(g, s, step) ==> Defined(g, s, step)
    decreases |steps|
  {
    hide Inv, CrashConsistent, Recovered, Enabled, Defined, Next;
    if steps == [] {
      BootInv(g, d);
    } else {
      var t :| Reaches(g, d, steps[..|steps| - 1], t) && IsNext(g, t, steps[|steps| - 1], s);
      Safety(g, d, steps[..|steps| - 1], t);
      StepKeeps(g, Recovered(g, d), t, steps[|steps| - 1]);
    }
    forall step | Enabled(g, s, step)
      ensures Defined(g, s, step)
    {
      StepKeeps(g, Recovered(g, d), s, step);
    }
  }

  /** A crash comes at any time, and is a new power-on with the disk as it is. */
  lemma CrashIsBoot(g: Geometry, d: Disk, steps: seq<Step>, s: State)
    requires LogOk(g, d) && Reaches(g, d, steps, s)
    ensures Enabled(g, s, Crash) && Defined(g, s, Crash) && LogOk(g, s.disk)
    ensures Next(g, s, Crash) == Boot(g, s.disk).(used := s.used, groups := s.groups, trace := s.trace)
  {
    hide SpaceInv, GroupInv, TraceInv, DiskInv, CrashConsistent, Reaches;
    Safety(g, d, steps, s);
  }

  /** No operation is split across commits: if a commit contains an operation, it
      contains everything that operation ever logged, the operation had ended, and no
      other commit contains any update of it. */
  lemma OperationsAreAtomic(g: Geometry, d: Disk, steps: seq<Step>, s: State, i: nat, op: Op)
    requires LogOk(g, d) && Reaches(g, d, steps, s)
    requires i < |s.groups| && op in s.groups[i].ops
    ensures By(s.groups[i].updates, op) == By(s.trace, op)
    ensures op !in s.spent && By(s.pending, op) == []
    ensures forall j :: 0 <= j < |s.groups| && j != i ==> By(s.groups[j].updates, op) == []
  {
    hide LogOk, SpaceInv, DiskInv, CrashConsistent, Reaches;
    Safety(g, d, steps, s);
    ByAbsent(s.pending, op);
    forall j | 0 <= j < |s.groups| && j != i
      ensures By(s.groups[j].updates, op) == []
    {
      assert op !in s.groups[j].ops;
      ByAbsent(s.groups[j].updates, op);
    }
  }

  lemma {:induction false} RunIsDeterministic(g: Geometry, d: Disk, steps: seq<Step>, s: State, t: State)
    requires LogOk(g, d) && Reaches(g, d, steps, s) && Reaches(g, d, steps, t)
    ensures s == t
    decreases |steps|
  {
    hide LogOk, Enabled, Defined, Next;
    if steps == [] {
    } else {
      var last := steps[|steps| - 1];
      var s' :| Reaches(g, d, steps[..|steps| - 1], s') && IsNext(g, s', last, s);
      var t' :| Reaches(g, d, steps[..|steps| - 1], t') && IsNext(g, t', last, t);
      RunIsDeterministic(g, d, steps[..|steps| - 1], s', t');
    }
  }

  lemma GroupsOnlyGrow(g: Geometry, s: State, step: Step)
    requires Enabled(g, s, step) && Defined(g, s, step)
    ensures s.groups <= Next(g, s, step).groups
  {
  }

  /** Durability: what a run has committed stays committed however it continues. */
  lemma {:induction false} Durability(g: Geometry, d: Disk, steps: seq<Step>, s: State, more: seq<Step>, t: State)
    requires LogOk(g, d) && Reaches(g, d, steps, s) && Reaches(g, d, steps + more, t)
    ensures s.groups <= t.groups
    decreases |more|
  {
    hide LogOk, Enabled, Defined, Next;
    var all := steps + more;
    if more == [] {
      assert all == steps;
      RunIsDeterministic(g, d, steps, s, t);
    } else {
      var t' :| Reaches(g, d, all[..|all| - 1], t') && IsNext(g, t', all[|all| - 1], t);
      assert all[..|all| - 1] == steps + more[..|more| - 1];
      Durability(g, d, steps, s, more[..|more| - 1], t');
      GroupsOnlyGrow(g, t', all[|all| - 1]);
    }
  }

  /** Log space, in every interleaving: used plus promised slots fit, and the last slot
      in use, block start + lh.n, lies inside the log region on disk. */
  lemma LogSpace(g: Geometry, d: Disk, steps: seq<Step>, s: State)
    requires LogOk(g, d) && Reaches(g, d, steps, s)
    ensures |s.bs| + Unspent(s.spent) <= LOGSIZE && 0 <= Unspent(s.spent)
    ensures g.start + |s.bs| < g.start + g.size
  {
    hide LogOk, DiskInv, GroupInv, TraceInv, CrashConsistent, Reaches;
    Safety(g, d, steps, s);
    UnspentBounds(s.spent);
  }

  // ----- end_op()'s duty to commit -----

  /** With no operation outstanding and no commit running, nothing is waiting to be committed. */
  ghost predicate Settled(s: State) {
    s.phase.Running? && s.spent == map[] ==> s.bs == [] && s.dirty == map[] && s.pending == [] && s.ended == {}
  }

  lemma SettledStep(g: Geometry, s: State, step: Step)
    requires Inv(g, s) && Settled(s) && Enabled(g, s, step) && Defined(g, s, step)
    ensures Settled(Next(g, s, step))
  {
    hide LogOk, SpaceInv, GroupInv, TraceInv, CommitState, Committed, Overlay, Replay, RecoveryState, CommitDisk,
         RecoverDisk, CommitDirty;
    if step.Begin? || step.LogWrite? {
      assert step.op in Next(g, s, step).spent;
    } else if step.CommitDone? {
      CommitEmpties(g, s);
    }
  }

  /** The last write of a commit leaves no dirty buffer. */
  lemma CommitEmpties(g: Geometry, s: State)
    requires DiskInv(g, s) && Enabled(g, s, CommitDone)
    ensures s.dirty == map[] && (s.bs != [] ==> s.pending == [] && s.ended == {})
  {
    hide LogOk, CommitState, Committed, Overlay, Replay, RecoveryState;
    assert s.bs[|s.bs|..] == [];
    assert forall a :: a !in s.dirty;
  }

  lemma {:induction false} AlwaysSettled(g: Geometry, d: Disk, steps: seq<Step>, s: State)
    requires LogOk(g, d) && Reaches(g, d, steps, s)
    ensures Settled(s)
    decreases |steps|
  {
    hide LogOk, Inv, CrashConsistent, Recovered, Enabled, Defined, Next, Settled;
    if steps == [] {
      BootSettled(g, d);
    } else {
      var t :| Reaches(g, d, steps[..|steps| - 1], t) && IsNext(g, t, steps[|steps| - 1], s);
      AlwaysSettled(g, d, steps[..|steps| - 1], t);
      Safety(g, d, steps[..|steps| - 1], t);
      SettledStep(g, t, steps[|steps| - 1]);
    }
  }

  lemma BootSettled(g: Geometry, d: Disk)
    requires LogOk(g, d)
    ensures Settled(Boot(g, d))
  {
  }

  ghost predicate InGroup(groups: seq<Group>, op: Op) {
    exists i :: 0 <= i < |groups| && op in groups[i].ops
  }

  /** Operation op ended in step number i and no crash came since. */
  ghost predicate EndedIn(steps: seq<Step>, i: nat, op: Op) {
    i < |steps| && steps[i] == End(op) && forall k :: i < k < |steps| ==> !steps[k].Crash?
  }

  lemma EndedStep(g: Geometry, s: State, step: Step, op: Op)
    requires Enabled(g, s, step) && Defined(g, s, step) && !step.Crash?
    requires op in s.ended || InGroup(s.groups, op) || step == End(op)
    ensures op in Next(g, s, step).ended || InGroup(Next(g, s, step).groups, op)
  {
    hide CommitDisk, RecoverDisk, CommitDirty;
    var t := Next(g, s, step);
    if op in s.ended {
      assert t.groups != s.groups ==> t.groups[|s.groups|].ops == s.ended;
    } else if InGroup(s.groups, op) {
      var i :| 0 <= i < |s.groups| && op in s.groups[i].ops;
      assert t.groups[i] == s.groups[i];
    }
  }

  /** An ended operation that no crash has hit waits for its commit or is committed. */
  lemma {:induction false} EndedStays(g: Geometry, d: Disk, steps: seq<Step>, s: State, i: nat, op: Op)
    requires LogOk(g, d) && Reaches(g, d, steps, s) && EndedIn(steps, i, op)
    ensures op in s.ended || InGroup(s.groups, op)
    decreases |steps|
  {
    hide LogOk, Enabled, Defined, Next, InGroup;
    var before, last := steps[..|steps| - 1], steps[|steps| - 1];
    var t :| Reaches(g, d, before, t) && IsNext(g, t, last, s);
    if i < |before| {
      assert EndedIn(before, i, op);
      EndedStays(g, d, before, t, i, op);
    }
    EndedStep(g, t, last, op);
  }

  /** end_op() commits: once no operation is outstanding and no commit is running, every operation
      that ended since the last crash is in a committed group. */
  lemma EndedAreCommitted(g: Geometry, d: Disk, steps: seq<Step>, s: State, i: nat, op: Op)
    requires LogOk(g, d) && Reaches(g, d, steps, s) && s.phase.Running? && s.spent == map[]
    requires EndedIn(steps, i, op)
    ensures InGroup(s.groups, op)
  {
    hide LogOk, Reaches, InGroup;
    AlwaysSettled(g, d, steps, s);
    EndedStays(g, d, steps, s, i, op);
  }

  /** The end of the last outstanding operation, and of no other, starts the commit of what the
      whole group has logged. */
  lemma LastEndCommits(g: Geometry, s: State, op: Op)
    requires Inv(g, s) && Enabled(g, s, End(op))
    ensures var t := Next(g, s, End(op));
            && (t.phase.Committing? <==> s.spent.Keys == {op})
            && (t.phase.Committing? ==>
                  && t.phase == Committing(0, s.disk, Replay(s.disk, s.pending))
                  && t.bs == s.bs && t.pending == s.pending && t.ended == s.ended + {op})
  {
    EndStartsCommit(g, s);
    hide Inv, Replay, Overlay;
    if s.spent.Keys == {op} {
      assert s.spent - {op} == map[];
    } else {
      assert (s.spent - {op}).Keys == s.spent.Keys - {op};
      assert s.spent.Keys - {op} != {};
    }
  }

  predicate OnlyCommits(steps: seq<Step>) {
    forall k :: 0 <= k < |steps| ==> steps[k].CommitWrite? || steps[k].CommitDone?
  }

  /** A commit that has started can always go on to its end, and then the whole group is
      committed. */
  lemma {:induction false} CommitReturns(g: Geometry, d: Disk, steps: seq<Step>, s: State)
    returns (more: seq<Step>, t: State)
    requires LogOk(g, d) && Reaches(g, d, steps, s) && s.phase.Committing?
    ensures OnlyCommits(more) && Reaches(g, d, steps + more, t) && t.phase.Running? && t.spent == map[]
    ensures forall op :: op in s.ended ==> InGroup(t.groups, op)
    ensures s.groups <= t.groups
    decreases CommitLength(|s.bs|) - s.phase.k
  {
    hide LogOk, Reaches, InGroup, CommitDisk, CommitDirty;
    CommitPhase(g, d, steps, s);
    var step := if s.phase.k < CommitLength(|s.bs|) then CommitWrite else CommitDone;
    var u := ExtendBy(g, d, steps, s, step);
    GroupsOnlyGrow(g, s, step);
    forall op | op in s.ended
      ensures op in u.ended || InGroup(u.groups, op)
    {
      EndedStep(g, s, step, op);
    }
    if step.CommitDone? {
      more, t := [step], u;
      AlwaysSettled(g, d, steps + more, t);
    } else {
      var rest;
      rest, t := CommitReturns(g, d, steps + [step], u);
      more := [step] + rest;
      assert steps + more == steps + [step] + rest;
      forall op | op in s.ended
        ensures InGroup(t.groups, op)
      {
        if op !in u.ended {
          InGroupGrows(u.groups, t.groups, op);
        }
      }
    }
  }

  lemma InGroupGrows(groups: seq<Group>, groups': seq<Group>, op: Op)
    requires groups <= groups' && InGroup(groups, op)
    ensures InGroup(groups', op)
  {
    var i :| 0 <= i < |groups| && op in groups[i].ops;
    assert groups'[i] == groups[i];
  }

  lemma CommitPhase(g: Geometry, d: Disk, steps: seq<Step>, s: State)
    requires LogOk(g, d) && Reaches(g, d, steps, s) && s.phase.Committing?
    ensures s.phase.k <= CommitLength(|s.bs|) && s.spent == map[]
  {
    hide LogOk, SpaceInv, TraceInv, CrashConsistent, Reaches, CommitState, Committed, Replay;
    Safety(g, d, steps, s);
  }

  lemma ExtendBy(g: Geometry, d: Disk, steps: seq<Step>, s: State, step: Step) returns (t: State)
    requires LogOk(g, d) && Reaches(g, d, steps, s) && Enabled(g, s, step)
    ensures Defined(g, s, step) && t == Next(g, s, step) && Reaches(g, d, steps + [step], t)
  {
    hide LogOk, Enabled, Defined, Next, Inv, CrashConsistent;
    Safety(g, d, steps, s);
    t := Next(g, s, step);
    var all := steps + [step];
    assert all[..|all| - 1] == steps && all[|all| - 1] == step;
    assert IsNext(g, s, step, t);
  }

  // ----- the panic in log_write() -----

  /** An operation that has logged k blocks calls log_write(), for whatever block, logged
      before or not, and the call panics. */
  ghost predicate PanicsAt(g: Geometry, d: Disk, steps: seq<Step>, s: State, op: Op, k: nat)
    requires LogOk(g, d)
  {
    && Reaches(g, d, steps, s) && s.phase.Running? && Panics(g, s)
    && op in s.spent && |s.spent[op]| == k
  }

  lemma PanicNeeds(g: Geometry, s: State, op: Op)
    requires Inv(g, s) && Panics(g, s) && op in s.spent
    ensures |s.spent[op]| <= Capacity(g) <= LOGSIZE - MAXOPBLOCKS + |s.spent[op]|
  {
    hide LogOk, DiskInv, GroupInv, TraceInv;
    UnspentRemove(s.spent, op);
    UnspentBounds(s.spent - {op});
    ElementsFit(s.spent[op], s.bs);
  }

  /** With a log region of more than LOGSIZE blocks, no log_write() of an operation that
      has logged fewer than MAXOPBLOCKS blocks panics, in any interleaving. */
  lemma LargeLogNeverPanics(g: Geometry, d: Disk, steps: seq<Step>, s: State, op: Op)
    requires LogOk(g, d) && g.size > LOGSIZE && Reaches(g, d, steps, s)
    requires op in s.spent && |s.spent[op]| < MAXOPBLOCKS
    ensures !Panics(g, s)
  {
    hide LogOk, Inv, CrashConsistent, Reaches;
    Safety(g, d, steps, s);
    if Panics(g, s) {
      PanicNeeds(g, s, op);
      assert false;
    }
  }

  lemma Extend(g: Geometry, d: Disk, steps: seq<Step>, s: State, step: Step) returns (steps': seq<Step>, t: State)
    requires LogOk(g, d) && Reaches(g, d, steps, s) && Enabled(g, s, step)
    ensures Defined(g, s, step) && t == Next(g, s, step) && Reaches(g, d, steps', t)
  {
    hide LogOk, Enabled, Defined, Next, Reaches;
    steps' := steps + [step];
    t := ExtendBy(g, d, steps, s, step);
  }

  /** Enough distinct home blocks to fill the log. */
  ghost predicate Distinct30(g: Geometry, d: Disk, hs: seq<uint32>) {
    && |hs| == LOGSIZE
    && (forall i :: 0 <= i < |hs| ==> hs[i] < |d| && IsHome(g, hs[i]))
    && (forall i, j :: 0 <= i < j < |hs| ==> hs[i] != hs[j])
  }

  function Clamp(i: int, max: nat): nat {
    if i < 0 then 0 else if i > max then max else i
  }

  /** Three operations have logged the blocks hs[..j]: operation 0 the first k of them,
      operation 1 the next ten, operation 2 the others. */
  ghost predicate Filled(s: State, hs: seq<uint32>, k: nat, j: nat)
    requires |hs| == LOGSIZE && j <= LOGSIZE
  {
    && s.phase.Running? && s.bs == hs[..j] && s.spent.Keys == {0, 1, 2}
    && |s.spent[0]| == Clamp(j, k)
    && |s.spent[1]| == Clamp(j - k, MAXOPBLOCKS)
    && |s.spent[2]| == Clamp(j - k - MAXOPBLOCKS, MAXOPBLOCKS)
  }

  lemma FirstBoot(g: Geometry, d: Disk) returns (steps: seq<Step>, s: State)
    requires LogOk(g, d) && HeaderCount(d[g.start]) == 0
    ensures Reaches(g, d, steps, s) && |s.disk| == |d|
    ensures s.phase.Running? && s.bs == [] && s.spent == map[] && s.used == {}
  {
    hide Reaches, LogOk;
    steps, s := [], Boot(g, d);
    assert Reaches(g, d, steps, s) by { BootReached(g, d); }
    steps, s := Extend(g, d, steps, s, RecoverWrite);
    steps, s := Extend(g, d, steps, s, RecoverDone);
  }

  lemma ThreeBegin(g: Geometry, d: Disk, hs: seq<uint32>, k: nat) returns (steps: seq<Step>, s: State)
    requires LogOk(g, d) && HeaderCount(d[g.start]) == 0 && |hs| == LOGSIZE
    ensures Reaches(g, d, steps, s) && Filled(s, hs, k, 0) && |s.disk| == |d|
  {
    hide Reaches, LogOk;
    steps, s := FirstBoot(g, d);
    steps, s := Extend(g, d, steps, s, Begin(0));
    steps, s := Extend(g, d, steps, s, Begin(1));
    steps, s := Extend(g, d, steps, s, Begin(2));
    assert s.spent == map[0 := {}, 1 := {}, 2 := {}];
  }

  lemma BootReached(g: Geometry, d: Disk)
    requires LogOk(g, d)
    ensures Reaches(g, d, [], Boot(g, d))
  {
  }

  /** What an operation has logged is in the log. */
  lemma SpentIsLogged(g: Geometry, d: Disk, steps: seq<Step>, s: State, op: Op, b: uint32)
    requires LogOk(g, d) && Reaches(g, d, steps, s) && op in s.spent && b in s.spent[op]
    ensures b in s.bs
  {
    hide LogOk, DiskInv, GroupInv, TraceInv, CrashConsistent, Reaches;
    Safety(g, d, steps, s);
  }

  lemma {:induction false} FillLog(g: Geometry, d: Disk, hs: seq<uint32>, k: nat, j: nat)
    returns (steps: seq<Step>, s: State)
    requires LogOk(g, d) && HeaderCount(d[g.start]) == 0 && Distinct30(g, d, hs)
    requires k <= MAXOPBLOCKS && j <= Capacity(g) && j <= k + 2 * MAXOPBLOCKS
    ensures Reaches(g, d, steps, s) && Filled(s, hs, k, j) && |s.disk| == |d|
    decreases j
  {
    hide Reaches, LogOk;
    if j == 0 {
      steps, s := ThreeBegin(g, d, hs, k);
    } else {
      steps, s := FillLog(g, d, hs, k, j - 1);
      var op: Op := if j - 1 < k then 0 else if j - 1 < k + MAXOPBLOCKS then 1 else 2;
      var b := hs[j - 1];
      assert b !in hs[..j - 1];
      if b in s.spent[op] {
        SpentIsLogged(g, d, steps, s, op, b);
        assert false;
      }
      OneMore(s.spent[op], b);
      steps, s := Extend(g, d, steps, s, LogWrite(op, b, ZeroBlock()));
      assert hs[..j] == hs[..j - 1] + [b];
    }
  }

  /** The exact condition, for every allowance k and every log size: with room on the disk
      to fill a log, some run makes log_write() panic for an operation that has logged k
      blocks if and only if the log holds at least k blocks and at most k more than the
      other operations can fill. */
  lemma PanicIff(g: Geometry, d: Disk, hs: seq<uint32>, k: nat)
    requires LogOk(g, d) && HeaderCount(d[g.start]) == 0 && Distinct30(g, d, hs) && k <= MAXOPBLOCKS
    ensures (exists steps, s, op :: PanicsAt(g, d, steps, s, op, k))
            <==> k <= Capacity(g) <= LOGSIZE - MAXOPBLOCKS + k
  {
    assert g.size > 0;
    hide Reaches, LogOk;
    if k <= Capacity(g) <= LOGSIZE - MAXOPBLOCKS + k {
      var steps, s := FillLog(g, d, hs, k, Capacity(g));
      assert PanicsAt(g, d, steps, s, 0, k);
    }
    forall steps, s, op | PanicsAt(g, d, steps, s, op, k)
      ensures k <= Capacity(g) <= LOGSIZE - MAXOPBLOCKS + k
    {
      hide Inv, CrashConsistent;
      Safety(g, d, steps, s);
      PanicNeeds(g, s, op);
    }
  }

  /** So an operation within its allowance can be made to panic if and only if the
      superblock gives the log no more than LOGSIZE blocks, as mkfs does. */
  lemma PanicIffSmallLog(g: Geometry, d: Disk, hs: seq<uint32>)
    requires LogOk(g, d) && HeaderCount(d[g.start]) == 0 && Distinct30(g, d, hs)
    ensures (exists steps, s, op, k: nat :: k < MAXOPBLOCKS && PanicsAt(g, d, steps, s, op, k)) <==> g.size <= LOGSIZE
  {
    assert g.size > 0;
    hide Reaches, LogOk, Inv, CrashConsistent;
    if g.size <= LOGSIZE {
      var k := Clamp(Capacity(g) - (LOGSIZE - MAXOPBLOCKS), MAXOPBLOCKS);
      PanicIff(g, d, hs, k);
      var steps, s, op :| PanicsAt(g, d, steps, s, op, k);
    }
    forall steps, s, op, k: nat | k < MAXOPBLOCKS && PanicsAt(g, d, steps, s, op, k)
      ensures g.size <= LOGSIZE
    {
      Safety(g, d, steps, s);
      PanicNeeds(g, s, op);
    }
  }

  /** Absorption does not help: the guard runs first. In a log of more than LOGSIZE blocks
      an operation that logs again a block it already logged can panic if and only if it
      has used its whole allowance. */
  lemma RewriteCanPanic(g: Geometry, d: Disk, hs: seq<uint32>, k: nat)
    requires LogOk(g, d) && HeaderCount(d[g.start]) == 0 && Distinct30(g, d, hs)
    requires g.size > LOGSIZE && k <= MAXOPBLOCKS
    ensures (exists steps, s, op, b :: PanicsAt(g, d, steps, s, op, k) && b in s.spent[op]) <==> k == MAXOPBLOCKS
  {
    hide Reaches, LogOk;
    PanicIff(g, d, hs, k);
    if k == MAXOPBLOCKS {
      var steps, s, op :| PanicsAt(g, d, steps, s, op, k);
      assert s.spent[op] != {};
      var b :| b in s.spent[op];
      assert PanicsAt(g, d, steps, s, op, k) && b in s.spent[op];
    }
  }

  /** In a log region of at most LOGSIZE blocks the stale guard does harm: two operations
      within their allowances pass it for the last slot, and once both have updated the log,
      its last entry belongs in slot start + size, behind the region. */
  lemma StaleGuard(g: Geometry, d: Disk, hs: seq<uint32>)
    returns (steps: seq<Step>, s: State, p: Op, q: Op, b: uint32, c: uint32)
    requires LogOk(g, d) && HeaderCount(d[g.start]) == 0 && Distinct30(g, d, hs)
    requires 1 < g.size <= LOGSIZE
    ensures Reaches(g, d, steps, s) && s.phase.Running? && !Panics(g, s)
    ensures p != q && p in s.spent && |s.spent[p]| < MAXOPBLOCKS && q in s.spent && |s.spent[q]| < MAXOPBLOCKS
    ensures Enabled(g, s, LogWrite(p, b, ZeroBlock())) && Enabled(g, s, LogWrite(q, c, ZeroBlock()))
    ensures |Absorb(Absorb(s.bs, b), c)| == g.size
  {
    hide Reaches, LogOk;
    var j := g.size - 2;
    steps, s := FillLog(g, d, hs, MAXOPBLOCKS - 1, j);
    p, q, b, c := 0, 2, hs[j], hs[j + 1];
    OneMore(s.spent[p], b);
    OneMore(s.spent[q], c);
    assert b !in hs[..j] && c !in hs[..j];
  }
}
