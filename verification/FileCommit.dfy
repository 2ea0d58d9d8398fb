/** The file system over group commit. Operations of the file system, as FileSystem proves
    them, run inside the transactions of log.c: any number may be outstanding, they are committed
    in groups, one disk write at a time, and crashes and recoveries come at any point. */
module FileCommit {
  import opened Common
  import opened Blocks
  import opened RedoLog
  import opened Log
  import opened GroupCommit
  import opened Inodes
  import opened DiskLayout
  import opened FileContent
  import opened FileSystem
  import opened CrashSafety
  import Writes

  /** Operation op of the logging protocol ran act. */
  datatype Entry = Entry(op: Op, act: FsOp)

  /** The protocol's state, and the history of file system operations: recent has those since
      the last commit or crash. */
  datatype System = System(s: State, older: seq<Entry>, recent: seq<Entry>)

  /** A file system operation with all its log_write() calls, or another step of the protocol. */
  datatype Event = Run(op: Op, act: FsOp) | Protocol(step: Step)

  // ----- the events -----

  /** The disk as the buffer cache shows it. */
  ghost function View(s: State): (v: Disk)
    ensures |v| == |s.disk|
  {
    Overlay(s.disk, s.dirty)
  }

  ghost predicate CanWrite(g: Geometry, s: State, op: Op, ws: seq<Writes.Write>)
    decreases |ws|, 0
  {
    ws == [] ||
    var w := ws[|ws| - 1];
    CanWrite(g, s, op, ws[..|ws| - 1]) && Enabled(g, Wrote(g, s, op, ws[..|ws| - 1]), LogWrite(op, w.b, w.data))
  }

  /** The protocol's state after the log_write() calls ws of op. */
  ghost function Wrote(g: Geometry, s: State, op: Op, ws: seq<Writes.Write>): State
    requires CanWrite(g, s, op, ws)
    decreases |ws|, 1
  {
    if ws == [] then s
    else
      var w := ws[|ws| - 1];
      Next(g, Wrote(g, s, op, ws[..|ws| - 1]), LogWrite(op, w.b, w.data))
  }

  /** The entries whose operations have been committed. */
  ghost function Kept(es: seq<Entry>, groups: seq<Group>): (ks: seq<Entry>)
    ensures forall e :: e in ks <==> e in es && InGroup(groups, e.op)
  {
    if es == [] then []
    else
      var rest, e := Kept(es[..|es| - 1], groups), es[|es| - 1];
      assert es == es[..|es| - 1] + [e];
      if InGroup(groups, e.op) then rest + [e] else rest
  }

  /** The file system after the operations es, one after the other, from t. */
  ghost function Final(t: Tree, es: seq<Entry>): Tree {
    if es == [] then t else es[|es| - 1].act.after
  }

  /** Each of es is an operation that begins where the one before it ended. */
  ghost predicate Chain(sb: Superblock, t: Tree, es: seq<Entry>) {
    es == [] ||
    var rest, e := es[..|es| - 1], es[|es| - 1];
    Chain(sb, t, rest) && IsFsOp(sb, e.act) && e.act.before == Final(t, rest)
  }

  /** What the file system operations so far, committed or not, have made of boot. */
  ghost function Current(boot: Tree, y: System): Tree {
    Final(boot, Kept(y.older, y.s.groups) + y.recent)
  }

  /** Operation act of the file system may run: it starts from the current state and sees the
      current disk image. */
  ghost predicate Ready(g: Geometry, sb: Superblock, boot: Tree, y: System, op: Op, act: FsOp) {
    && y.s.phase.Running? && op in y.s.spent && IsFsOp(sb, act)
    && act.before == Current(boot, y) && Agrees(sb, View(y.s), act.snap)
  }

  ghost predicate Possible(g: Geometry, sb: Superblock, boot: Tree, y: System, event: Event) {
    match event
    case Run(op, act) => Ready(g, sb, boot, y, op, act) && CanWrite(g, y.s, op, act.writes)
    case Protocol(step) => !step.LogWrite? && Enabled(g, y.s, step) && Defined(g, y.s, step)
  }

  ghost function Moved(g: Geometry, y: System, t: State, step: Step): System {
    if step.Crash? || t.groups != y.s.groups then System(t, y.older + y.recent, []) else y.(s := t)
  }

  ghost function EventNext(g: Geometry, sb: Superblock, boot: Tree, y: System, event: Event): System
    requires Possible(g, sb, boot, y, event)
  {
    match event
    case Run(op, act) => y.(s := Wrote(g, y.s, op, act.writes), recent := y.recent + [Entry(op, act)])
    case Protocol(step) => Moved(g, y, Next(g, y.s, step), step)
  }

  /** Power-on with a recoverable disk that represents the state boot. */
  ghost predicate BootOk(g: Geometry, sb: Superblock, d: Disk, boot: Tree) {
    LogOk(g, d) && Sound(sb, boot) && Rep(sb, Recovered(g, d), boot) && g.start + g.size <= sb.inodestart
  }

  ghost predicate Arrives(g: Geometry, sb: Superblock, d: Disk, boot: Tree, events: seq<Event>, y: System)
    requires BootOk(g, sb, d, boot)
    decreases |events|
  {
    if events == [] then y == System(Boot(g, d), [], [])
    else
      var last := events[|events| - 1];
      exists x :: Arrives(g, sb, d, boot, events[..|events| - 1], x) && Leads(g, sb, boot, x, last, y)
  }

  ghost predicate Leads(g: Geometry, sb: Superblock, boot: Tree, x: System, event: Event, y: System) {
    Possible(g, sb, boot, x, event) && y == EventNext(g, sb, boot, x, event)
  }

  // ----- the invariant -----

  ghost predicate Owners(y: System) {
    && (forall x :: 0 <= x < |y.older| ==>
          y.older[x].op in y.s.used && y.older[x].op !in y.s.spent && y.older[x].op !in y.s.ended)
    && (forall x :: 0 <= x < |y.recent| ==> y.recent[x].op in y.s.spent || y.recent[x].op in y.s.ended)
  }

  /** Where the current state is: in the cache, in the image being committed, or on disk. */
  ghost predicate Shown(sb: Superblock, cur: Tree, y: System) {
    match y.s.phase
    case Running => Rep(sb, View(y.s), cur)
    case Committing(k, _, view) => if k <= |y.s.bs| then Rep(sb, view, cur) else y.recent == []
    case Recovering(_, _) => y.recent == []
  }

  ghost predicate Histories(g: Geometry, sb: Superblock, e: Disk, boot: Tree, y: System) {
    && Chain(sb, boot, Kept(y.older, y.s.groups) + y.recent)
    && Rep(sb, Durable(e, y.s.groups), Final(boot, Kept(y.older, y.s.groups)))
    && Owners(y) && Shown(sb, Current(boot, y), y)
  }

  ghost predicate Coupled(g: Geometry, sb: Superblock, e: Disk, boot: Tree, y: System) {
    && Inv(g, y.s) && CrashConsistent(g, e, y.s) && Sound(sb, boot) && g.start + g.size <= sb.inodestart
    && Histories(g, sb, e, boot, y)
  }

  // ----- histories -----

  lemma {:induction false} KeptSame(es: seq<Entry>, groups: seq<Group>, groups': seq<Group>)
    requires forall x :: 0 <= x < |es| ==> (InGroup(groups, es[x].op) <==> InGroup(groups', es[x].op))
    ensures Kept(es, groups) == Kept(es, groups')
  {
    hide InGroup;
    if es == [] {
    } else {
      assert InGroup(groups, es[|es| - 1].op) <==> InGroup(groups', es[|es| - 1].op);
      KeptSame(es[..|es| - 1], groups, groups');
    }
  }

  lemma {:induction false} KeptAppend(es: seq<Entry>, fs: seq<Entry>, groups: seq<Group>)
    ensures Kept(es + fs, groups) == Kept(es, groups) + Kept(fs, groups)
  {
    hide InGroup;
    if fs == [] {
      assert es + fs == es;
    } else {
      assert (es + fs)[..|es + fs| - 1] == es + fs[..|fs| - 1];
      KeptAppend(es, fs[..|fs| - 1], groups);
    }
  }

  lemma {:induction false} KeptAll(es: seq<Entry>, groups: seq<Group>)
    requires forall x :: 0 <= x < |es| ==> InGroup(groups, es[x].op)
    ensures Kept(es, groups) == es
  {
    hide InGroup;
    if es == [] {
    } else {
      KeptAll(es[..|es| - 1], groups);
      assert InGroup(groups, es[|es| - 1].op);
      assert es == es[..|es| - 1] + [es[|es| - 1]];
    }
  }

  lemma {:induction false} KeptNone(es: seq<Entry>, groups: seq<Group>)
    requires forall x :: 0 <= x < |es| ==> !InGroup(groups, es[x].op)
    ensures Kept(es, groups) == []
  {
    hide InGroup;
    if es == [] {
    } else {
      assert !InGroup(groups, es[|es| - 1].op);
      KeptNone(es[..|es| - 1], groups);
    }
  }

  /** A crash keeps none of the recent operations. */
  lemma KeptByCrash(y: System)
    requires Owners(y) && GroupInv(y.s)
    ensures Kept(y.older + y.recent, y.s.groups) == Kept(y.older, y.s.groups)
  {
    hide Kept;
    KeptAppend(y.older, y.recent, y.s.groups);
    KeptNone(y.recent, y.s.groups);
  }

  lemma InGroupSnoc(groups: seq<Group>, group: Group, op: Op)
    ensures InGroup(groups + [group], op) <==> InGroup(groups, op) || op in group.ops
  {
    if InGroup(groups, op) {
      var i :| 0 <= i < |groups| && op in groups[i].ops;
      assert (groups + [group])[i] == groups[i];
    }
    if op in group.ops {
      assert (groups + [group])[|groups|] == group;
    }
  }

  /** A commit keeps all of them. */
  lemma KeptByCommit(y: System, groups': seq<Group>)
    requires Owners(y) && y.s.spent == map[]
    requires groups' == y.s.groups + [Group(y.s.ended, y.s.pending)]
    ensures Kept(y.older + y.recent, groups') == Kept(y.older, y.s.groups) + y.recent
  {
    hide Kept, InGroup;
    KeptAppend(y.older, y.recent, groups');
    forall x | 0 <= x < |y.older|
      ensures InGroup(y.s.groups, y.older[x].op) <==> InGroup(groups', y.older[x].op)
    {
      InGroupSnoc(y.s.groups, Group(y.s.ended, y.s.pending), y.older[x].op);
    }
    KeptSame(y.older, y.s.groups, groups');
    forall x | 0 <= x < |y.recent|
      ensures InGroup(groups', y.recent[x].op)
    {
      InGroupSnoc(y.s.groups, Group(y.s.ended, y.s.pending), y.recent[x].op);
    }
    KeptAll(y.recent, groups');
  }

  lemma ChainSnoc(sb: Superblock, t: Tree, es: seq<Entry>, e: Entry)
    requires Chain(sb, t, es) && IsFsOp(sb, e.act) && e.act.before == Final(t, es)
    ensures Chain(sb, t, es + [e]) && Final(t, es + [e]) == e.act.after
  {
    hide IsFsOp;
    assert (es + [e])[..|es|] == es;
  }

  lemma {:induction false} ChainPrefix(sb: Superblock, t: Tree, es: seq<Entry>, fs: seq<Entry>)
    requires Chain(sb, t, es + fs)
    ensures Chain(sb, t, es)
    decreases |fs|
  {
    hide IsFsOp;
    if fs == [] {
      assert es + fs == es;
    } else {
      assert (es + fs)[..|es + fs| - 1] == es + fs[..|fs| - 1];
      ChainPrefix(sb, t, es, fs[..|fs| - 1]);
    }
  }

  lemma {:induction false} ChainSound(sb: Superblock, t: Tree, es: seq<Entry>)
    requires Sound(sb, t) && Chain(sb, t, es)
    ensures Sound(sb, Final(t, es)) && |Final(t, es).inode| == |t.inode|
  {
    hide Sound, Represents;
    if es == [] {
    } else {
      ChainSound(sb, t, es[..|es| - 1]);
    }
  }

  // ----- disks -----

  lemma HomesAgree(g: Geometry, sb: Superblock, d: Disk, e: Disk, st: Tree)
    requires SameHomes(g, d, e) && g.start + g.size <= sb.inodestart && Rep(sb, d, st)
    ensures Rep(sb, e, st)
  {
    InImage(sb, d, st.used, st.block, st.inode);
    hide Represents;
    assert forall a :: sb.inodestart <= a < sb.size ==> IsHome(g, a);
    RepSame(sb, d, e, st);
  }

  /** The image being committed is what will be durable. */
  lemma CommittingView(g: Geometry, e: Disk, s: State)
    requires Inv(g, s) && CrashConsistent(g, e, s) && s.phase.Committing? && s.phase.k <= |s.bs|
    ensures SameHomes(g, s.phase.view, Durable(e, s.groups + [Group(s.ended, s.pending)]))
  {
    hide SpaceInv, GroupInv, TraceInv, Recovered, Durable, LogOk, Committed, Replay, CommitState, Overlay;
    RecoverBeforeHeader(g, s.phase.start, s.bs, s.phase.view, s.phase.k);
    GroupBecomesDurable(g, e, s.groups, Group(s.ended, s.pending), s.phase.start);
  }

  /** With an empty log the cache shows what is durable. */
  lemma CleanView(g: Geometry, e: Disk, s: State)
    requires Inv(g, s) && CrashConsistent(g, e, s) && s.phase.Running? && s.bs == []
    ensures SameHomes(g, View(s), Durable(e, s.groups))
  {
    hide SpaceInv, GroupInv, TraceInv, Recovered, Durable, LogOk, Replay;
    RecoveryOfClean(g, s.disk);
    assert View(s) == s.disk;
  }

  // ----- every event keeps the invariant -----

  /** The log_write() calls of one operation change the cached image and the log, not the disk
      or the groups. */
  lemma {:induction false} WroteFacts(g: Geometry, e: Disk, s: State, op: Op, ws: seq<Writes.Write>)
    requires Inv(g, s) && CrashConsistent(g, e, s) && s.phase.Running? && op in s.spent && CanWrite(g, s, op, ws)
    ensures var t := Wrote(g, s, op, ws);
            && Inv(g, t) && CrashConsistent(g, e, t) && t.phase.Running? && op in t.spent
            && t.disk == s.disk && t.groups == s.groups && t.used == s.used && t.ended == s.ended
                && t.spent.Keys == s.spent.Keys
            && t.spent[op] == s.spent[op] + Writes.Logged(ws)
            && View(t) == Writes.After(View(s), ws)
    decreases |ws|
  {
    hide Inv, CrashConsistent;
    if ws == [] {
    } else {
      var ws0, w := ws[..|ws| - 1], ws[|ws| - 1];
      WroteFacts(g, e, s, op, ws0);
      assert ws == ws0 + [w];
      Writes.Snoc(View(s), ws0, w);
      var t := Wrote(g, s, op, ws0);
      StepKeeps(g, e, t, LogWrite(op, w.b, w.data));
      OverlayUpdate(t.disk, t.dirty, w.b, w.data);
    }
  }

  lemma RunKeeps(g: Geometry, sb: Superblock, e: Disk, boot: Tree, y: System, op: Op, act: FsOp)
    requires Coupled(g, sb, e, boot, y) && Possible(g, sb, boot, y, Run(op, act))
    ensures Coupled(g, sb, e, boot, EventNext(g, sb, boot, y, Run(op, act)))
  {
    hide Inv, CrashConsistent, Sound, Wrote, CanWrite, Kept, Chain, Final, Represents;
    WroteFacts(g, e, y.s, op, act.writes);
    var kept, entry := Kept(y.older, y.s.groups), Entry(op, act);
    ChainSnoc(sb, boot, kept + y.recent, entry);
    assert kept + (y.recent + [entry]) == kept + y.recent + [entry];
    AgreesAfter(sb, View(y.s), act.snap, act.writes);
    RepSame(sb, Writes.After(act.snap, act.writes), Writes.After(View(y.s), act.writes), act.after);
  }

  lemma BeginEndKeep(g: Geometry, sb: Superblock, e: Disk, boot: Tree, y: System, step: Step)
    requires Coupled(g, sb, e, boot, y) && Enabled(g, y.s, step) && (step.Begin? || step.End?)
    ensures Histories(g, sb, e, boot, Moved(g, y, Next(g, y.s, step), step))
  {
    hide LogOk, SpaceInv, TraceInv, DiskInv, CrashConsistent, Sound, Kept, Chain, Final, Durable, Represents, Rep;
  }

  lemma CloseKeeps(g: Geometry, sb: Superblock, e: Disk, boot: Tree, y: System, t: State)
    requires Coupled(g, sb, e, boot, y) && y.s.phase.Committing? && y.s.phase.k <= |y.s.bs|
    requires t.groups == y.s.groups + [Group(y.s.ended, y.s.pending)]
    requires t.spent == map[] && t.ended == {} && t.used == y.s.used
    ensures var z := System(t, y.older + y.recent, []);
            && Chain(sb, boot, Kept(z.older, z.s.groups) + z.recent) && Owners(z)
            && Rep(sb, Durable(e, z.s.groups), Final(boot, Kept(z.older, z.s.groups)))
            && Kept(z.older, z.s.groups) == Kept(y.older, y.s.groups) + y.recent
  {
    hide LogOk, SpaceInv, TraceInv, DiskInv, CrashConsistent, Sound, Kept, Chain, Final, Durable, Represents, Rep;
    KeptByCommit(y, t.groups);
    CommittingView(g, e, y.s);
    HomesAgree(g, sb, y.s.phase.view, Durable(e, t.groups), Current(boot, y));
    var kept := Kept(y.older, y.s.groups) + y.recent;
    assert kept + [] == kept;
  }

  lemma CommitWriteMoves(g: Geometry, sb: Superblock, e: Disk, boot: Tree, y: System)
    requires Coupled(g, sb, e, boot, y) && Enabled(g, y.s, CommitWrite) && Defined(g, y.s, CommitWrite)
    ensures Histories(g, sb, e, boot, Moved(g, y, Next(g, y.s, CommitWrite), CommitWrite))
  {
    hide LogOk, SpaceInv, TraceInv, DiskInv, CrashConsistent, Sound, Kept, Chain, Final, Durable, Represents, Rep,
         CommitDisk, CommitDirty;
    if y.s.phase.k == |y.s.bs| {
      CloseKeeps(g, sb, e, boot, y, Next(g, y.s, CommitWrite));
    }
  }

  lemma CommitDoneMoves(g: Geometry, sb: Superblock, e: Disk, boot: Tree, y: System)
    requires Coupled(g, sb, e, boot, y) && Enabled(g, y.s, CommitDone)
    ensures Histories(g, sb, e, boot, Moved(g, y, Next(g, y.s, CommitDone), CommitDone))
  {
    hide LogOk, SpaceInv, TraceInv, DiskInv, CrashConsistent, Sound, Kept, Chain, Final, Durable, Represents, Rep;
    var t := Next(g, y.s, CommitDone);
    StepKeeps(g, e, y.s, CommitDone);
    CleanView(g, e, t);
    if y.s.bs == [] {
      CloseKeeps(g, sb, e, boot, y, t);
    }
    var z := Moved(g, y, t, CommitDone);
    var kept := Kept(z.older, z.s.groups);
    assert kept + [] == kept;
    SameHomesBack(g, View(t), Durable(e, t.groups));
    HomesAgree(g, sb, Durable(e, t.groups), View(t), Final(boot, kept));
  }

  lemma SameHomesBack(g: Geometry, d: Disk, e: Disk)
    requires SameHomes(g, d, e)
    ensures SameHomes(g, e, d)
  {
  }

  lemma CrashMoves(g: Geometry, sb: Superblock, e: Disk, boot: Tree, y: System)
    requires Coupled(g, sb, e, boot, y) && Defined(g, y.s, Crash)
    ensures Histories(g, sb, e, boot, Moved(g, y, Next(g, y.s, Crash), Crash))
  {
    hide LogOk, SpaceInv, TraceInv, DiskInv, CrashConsistent, Sound, Kept, Chain, Final, Durable, Represents, Rep;
    KeptByCrash(y);
    var kept := Kept(y.older, y.s.groups);
    assert kept + [] == kept;
    ChainPrefix(sb, boot, kept, y.recent);
  }

  lemma RecoveryMoves(g: Geometry, sb: Superblock, e: Disk, boot: Tree, y: System, step: Step)
    requires Coupled(g, sb, e, boot, y) && Enabled(g, y.s, step) && Defined(g, y.s, step)
    requires step.RecoverWrite? || step.RecoverDone?
    ensures Histories(g, sb, e, boot, Moved(g, y, Next(g, y.s, step), step))
  {
    hide LogOk, SpaceInv, TraceInv, DiskInv, CrashConsistent, Sound, Kept, Chain, Final, Durable, Represents, Rep,
         RecoverDisk;
    var t := Next(g, y.s, step);
    if step.RecoverDone? {
      StepKeeps(g, e, y.s, step);
      CleanView(g, e, t);
      SameHomesBack(g, View(t), Durable(e, t.groups));
      var kept := Kept(y.older, y.s.groups);
      assert kept + [] == kept;
      HomesAgree(g, sb, Durable(e, t.groups), View(t), Final(boot, kept));
    }
  }

  lemma EventKeeps(g: Geometry, sb: Superblock, e: Disk, boot: Tree, y: System, event: Event)
    requires Coupled(g, sb, e, boot, y) && Possible(g, sb, boot, y, event)
    ensures Coupled(g, sb, e, boot, EventNext(g, sb, boot, y, event))
  {
    hide Inv, CrashConsistent, Sound, Histories, Enabled, Defined, Next, Wrote, CanWrite;
    match event
    case Run(op, act) => RunKeeps(g, sb, e, boot, y, op, act);
    case Protocol(step) =>
      StepKeeps(g, e, y.s, step);
      match step
      case Begin(_) => BeginEndKeep(g, sb, e, boot, y, step);
      case End(_) => BeginEndKeep(g, sb, e, boot, y, step);
      case CommitWrite => CommitWriteMoves(g, sb, e, boot, y);
      case CommitDone => CommitDoneMoves(g, sb, e, boot, y);
      case Crash => CrashMoves(g, sb, e, boot, y);
      case RecoverWrite => RecoveryMoves(g, sb, e, boot, y, step);
      case RecoverDone => RecoveryMoves(g, sb, e, boot, y, step);
  }

  lemma BootCoupled(g: Geometry, sb: Superblock, d: Disk, boot: Tree)
    requires BootOk(g, sb, d, boot)
    ensures Coupled(g, sb, Recovered(g, d), boot, System(Boot(g, d), [], []))
  {
    hide Inv, CrashConsistent, Sound, Represents, Recovered, LogOk;
    BootInv(g, d);
  }

  lemma {:induction false} AlwaysCoupled(g: Geometry, sb: Superblock, d: Disk, boot: Tree, events: seq<Event>,
                                         y: System)
    requires BootOk(g, sb, d, boot) && Arrives(g, sb, d, boot, events, y)
    ensures Coupled(g, sb, Recovered(g, d), boot, y)
    decreases |events|
  {
    hide Coupled, Possible, EventNext;
    if events == [] {
      BootCoupled(g, sb, d, boot);
    } else {
      var x :| Arrives(g, sb, d, boot, events[..|events| - 1], x) && Leads(g, sb, boot, x, events[|events| - 1], y);
      AlwaysCoupled(g, sb, d, boot, events[..|events| - 1], x);
      EventKeeps(g, sb, Recovered(g, d), boot, x, events[|events| - 1]);
    }
  }

  // ----- the results -----

  /** Whenever the power fails, in any run, recovery leaves exactly the files that the committed
      operations, in the order they ran, have made of the files at boot; the disk can be mounted
      again, in the state those operations left. */
  lemma FilesSurvive(g: Geometry, sb: Superblock, d: Disk, boot: Tree, events: seq<Event>, y: System)
    requires BootOk(g, sb, d, boot) && Arrives(g, sb, d, boot, events, y)
    ensures var kept := Kept(y.older + y.recent, y.s.groups);
            && LogOk(g, y.s.disk) && Chain(sb, boot, kept)
            && Sound(sb, Final(boot, kept)) && Rep(sb, Recovered(g, y.s.disk), Final(boot, kept))
            && (forall i :: 0 <= i < |boot.inode| ==> i < |Final(boot, kept).inode| && HasFile(Final(boot, kept), i))
            && |Final(boot, kept).inode| == |boot.inode|
            && FilesAre(sb, Recovered(g, y.s.disk), Files(Final(boot, kept)))
  {
    hide Arrives, LogOk, Chain, SpaceInv, TraceInv, DiskInv, Sound, Kept, Final, Durable, Represents, Rep, Files,
         FilesAre, HasFile, Recovered;
    AlwaysCoupled(g, sb, d, boot, events, y);
    KeptByCrash(y);
    var kept := Kept(y.older, y.s.groups);
    ChainPrefix(sb, boot, kept, y.recent);
    ChainSound(sb, boot, kept);
    SoundFiles(sb, Final(boot, kept));
    SameHomesBack(g, Recovered(g, y.s.disk), Durable(Recovered(g, d), y.s.groups));
    HomesAgree(g, sb, Durable(Recovered(g, d), y.s.groups), Recovered(g, y.s.disk), Final(boot, kept));
    ReadBack(sb, Recovered(g, y.s.disk), Final(boot, kept));
  }

  lemma KeptGrows(g: Geometry, sb: Superblock, e: Disk, boot: Tree, y: System, event: Event)
    requires Coupled(g, sb, e, boot, y) && Possible(g, sb, boot, y, event)
    ensures var z := EventNext(g, sb, boot, y, event); Kept(y.older, y.s.groups) <= Kept(z.older, z.s.groups)
  {
    hide LogOk, SpaceInv, TraceInv, DiskInv, CrashConsistent, Sound, Kept, Chain, Final, Durable, Represents, Rep,
         Shown, Wrote, CanWrite;
    match event
    case Run(op, act) => WroteFacts(g, e, y.s, op, act.writes);
    case Protocol(step) =>
      var t := Next(g, y.s, step);
      if step.Crash? {
        KeptByCrash(y);
      } else if t.groups != y.s.groups {
        KeptByCommit(y, t.groups);
      }
  }

  lemma {:induction false} OneOutcome(g: Geometry, sb: Superblock, d: Disk, boot: Tree, events: seq<Event>, y: System,
                                      z: System)
    requires BootOk(g, sb, d, boot) && Arrives(g, sb, d, boot, events, y) && Arrives(g, sb, d, boot, events, z)
    ensures y == z
    decreases |events|
  {
    hide BootOk, Possible, EventNext;
    if events == [] {
    } else {
      var last := events[|events| - 1];
      var y' :| Arrives(g, sb, d, boot, events[..|events| - 1], y') && Leads(g, sb, boot, y', last, y);
      var z' :| Arrives(g, sb, d, boot, events[..|events| - 1], z') && Leads(g, sb, boot, z', last, z);
      OneOutcome(g, sb, d, boot, events[..|events| - 1], y', z');
    }
  }

  /** What has been committed stays: however a run goes on, the operations that survive a crash
      later are those that survive one now, and then perhaps more. */
  lemma {:induction false} CommittedStay(g: Geometry, sb: Superblock, d: Disk, boot: Tree,
                                         events: seq<Event>, y: System, more: seq<Event>, z: System)
    requires BootOk(g, sb, d, boot) && Arrives(g, sb, d, boot, events, y) && Arrives(g, sb, d, boot, events + more, z)
    ensures Kept(y.older, y.s.groups) <= Kept(z.older, z.s.groups)
    decreases |more|
  {
    hide BootOk, Possible, EventNext, Coupled, Kept;
    var all := events + more;
    if more == [] {
      assert all == events;
      OneOutcome(g, sb, d, boot, events, y, z);
    } else {
      var last := all[|all| - 1];
      var z' :| Arrives(g, sb, d, boot, all[..|all| - 1], z') && Leads(g, sb, boot, z', last, z);
      assert all[..|all| - 1] == events + more[..|more| - 1];
      CommittedStay(g, sb, d, boot, events, y, more[..|more| - 1], z');
      assert LogOk(g, d) by { BootLogOk(g, sb, d, boot); }
      AlwaysCoupled(g, sb, d, boot, all[..|all| - 1], z');
      KeptGrows(g, sb, Recovered(g, d), boot, z', last);
    }
  }

  lemma BootLogOk(g: Geometry, sb: Superblock, d: Disk, boot: Tree)
    requires BootOk(g, sb, d, boot)
    ensures LogOk(g, d)
  {
  }

  // ----- nothing ended is lost -----

  lemma EventSettled(g: Geometry, sb: Superblock, e: Disk, boot: Tree, y: System, event: Event)
    requires Coupled(g, sb, e, boot, y) && Settled(y.s) && Possible(g, sb, boot, y, event)
    ensures Settled(EventNext(g, sb, boot, y, event).s)
  {
    hide Inv, CrashConsistent, Sound, Histories, Enabled, Defined, Next, Wrote, CanWrite, Represents;
    match event
    case Run(op, act) =>
      WroteFacts(g, e, y.s, op, act.writes);
      assert op in Wrote(g, y.s, op, act.writes).spent;
    case Protocol(step) => SettledStep(g, y.s, step);
  }

  /** The file system operations run since the last crash. */
  ghost function Ran(events: seq<Event>): seq<Entry> {
    if events == [] then []
    else
      var rest, last := Ran(events[..|events| - 1]), events[|events| - 1];
      match last
      case Run(op, act) => rest + [Entry(op, act)]
      case Protocol(step) => if step.Crash? then [] else rest
  }

  ghost predicate EndsWith<T>(a: seq<T>, b: seq<T>) {
    |b| <= |a| && a[|a| - |b|..] == b
  }

  lemma EndsWithSnoc<T>(a: seq<T>, b: seq<T>, x: T)
    requires EndsWith(a, b)
    ensures EndsWith(a + [x], b + [x])
  {
  }

  lemma RanStep(g: Geometry, sb: Superblock, e: Disk, boot: Tree, y: System, event: Event, ran: seq<Entry>)
    requires Coupled(g, sb, e, boot, y) && Possible(g, sb, boot, y, event)
    requires EndsWith(Kept(y.older, y.s.groups) + y.recent, ran)
    ensures var z := EventNext(g, sb, boot, y, event);
            var ran' := match event
                        case Run(op, act) => ran + [Entry(op, act)]
                        case Protocol(step) => if step.Crash? then [] else ran;
            EndsWith(Kept(z.older, z.s.groups) + z.recent, ran')
  {
    hide LogOk, SpaceInv, TraceInv, DiskInv, CrashConsistent, Sound, Kept, Chain, Final, Durable, Represents,
         Rep, Shown, Wrote, CanWrite;
    match event
    case Run(op, act) =>
      WroteFacts(g, e, y.s, op, act.writes);
      var kept := Kept(y.older, y.s.groups);
      EndsWithSnoc(kept + y.recent, ran, Entry(op, act));
      assert kept + (y.recent + [Entry(op, act)]) == kept + y.recent + [Entry(op, act)];
    case Protocol(step) =>
      var t := Next(g, y.s, step);
      if !step.Crash? && t.groups != y.s.groups {
        KeptByCommit(y, t.groups);
        var kept := Kept(y.older, y.s.groups) + y.recent;
        assert kept + [] == kept;
      }
  }

  lemma {:induction false} SettledRun(g: Geometry, sb: Superblock, d: Disk, boot: Tree, events: seq<Event>, y: System)
    requires BootOk(g, sb, d, boot) && Arrives(g, sb, d, boot, events, y)
    ensures Settled(y.s) && EndsWith(Kept(y.older, y.s.groups) + y.recent, Ran(events))
    decreases |events|
  {
    hide Coupled, Possible, EventNext, Settled, Kept;
    if events == [] {
      assert LogOk(g, d) by { BootLogOk(g, sb, d, boot); }
      BootSettled(g, d);
    } else {
      var before, last := events[..|events| - 1], events[|events| - 1];
      var x :| Arrives(g, sb, d, boot, before, x) && Leads(g, sb, boot, x, last, y);
      SettledRun(g, sb, d, boot, before, x);
      AlwaysCoupled(g, sb, d, boot, before, x);
      assert LogOk(g, d) by { BootLogOk(g, sb, d, boot); }
      EventSettled(g, sb, Recovered(g, d), boot, x, last);
      RanStep(g, sb, Recovered(g, d), boot, x, last, Ran(before));
    }
  }

  lemma RecentOwners(y: System, es: seq<Entry>)
    requires Owners(y) && es == y.recent
    ensures es == [] || es[0].op in y.s.spent || es[0].op in y.s.ended
  {
  }

  lemma NoneRecent(y: System)
    requires Owners(y) && Settled(y.s) && y.s.phase.Running? && y.s.spent == map[]
    ensures y.recent == []
  {
    RecentOwners(y, y.recent);
  }

  /** Once no operation is outstanding and no commit is running, a crash loses nothing: it leaves
      the files as they are now, with every operation since the last crash, in the order they
      ran. */
  lemma NothingLost(g: Geometry, sb: Superblock, d: Disk, boot: Tree, events: seq<Event>, y: System)
    requires BootOk(g, sb, d, boot) && Arrives(g, sb, d, boot, events, y)
    requires y.s.phase.Running? && y.s.spent == map[]
    ensures EndsWith(Kept(y.older + y.recent, y.s.groups), Ran(events))
    ensures Current(boot, y) == Final(boot, Kept(y.older + y.recent, y.s.groups))
    ensures forall i :: 0 <= i < |Current(boot, y).inode| ==> HasFile(Current(boot, y), i)
    ensures LogOk(g, y.s.disk) && FilesAre(sb, Recovered(g, y.s.disk), Files(Current(boot, y)))
  {
    hide Arrives, BootOk, LogOk, Inv, CrashConsistent, Chain, Sound, Kept, Final, Represents, Rep, Files,
         FilesAre, HasFile, Recovered, Settled, Ran;
    assert LogOk(g, d) by { BootLogOk(g, sb, d, boot); }
    AlwaysCoupled(g, sb, d, boot, events, y);
    SettledRun(g, sb, d, boot, events, y);
    NoneRecent(y);
    FilesSurvive(g, sb, d, boot, events, y);
    var kept := Kept(y.older, y.s.groups);
    assert kept + [] == kept;
    assert y.older + [] == y.older;
  }

  /** The guard of log_write() lets each of the calls through. */
  ghost predicate Unpanicked(g: Geometry, s: State, op: Op, ws: seq<Writes.Write>) {
    forall k :: 0 <= k < |ws| ==> CanWrite(g, s, op, ws[..k]) && !Panics(g, Wrote(g, s, op, ws[..k]))
  }

  /** With a log region of more than LOGSIZE blocks, an operation that stays within its allowance
      can always run to its end, and none of its log_write() calls panics. */
  lemma OperationsComplete(g: Geometry, sb: Superblock, d: Disk, boot: Tree, events: seq<Event>, y: System, op: Op,
                           act: FsOp)
    requires BootOk(g, sb, d, boot) && Arrives(g, sb, d, boot, events, y) && g.size > LOGSIZE
    requires Ready(g, sb, boot, y, op, act) && y.s.spent[op] == {} && Allowed(act.writes, MAXOPBLOCKS)
    ensures Possible(g, sb, boot, y, Run(op, act)) && Unpanicked(g, y.s, op, act.writes)
  {
    hide Arrives, Inv, CrashConsistent, Sound, Histories, Represents, Allowed, Unpanicked;
    AlwaysCoupled(g, sb, d, boot, events, y);
    CallsComplete(g, sb, Recovered(g, d), y.s, op, act.writes);
  }

  lemma AllowedPrefix(ws: seq<Writes.Write>, n: nat)
    requires ws != [] && Allowed(ws, n)
    ensures var ws0 := ws[..|ws| - 1]; Allowed(ws0, n) && |Writes.Logged(ws0)| < n
  {
    var ws0 := ws[..|ws| - 1];
    assert forall k :: 0 <= k < |ws0| ==> ws0[..k] == ws[..k];
  }

  lemma {:induction false} CallsComplete(g: Geometry, sb: Superblock, e: Disk, s: State, op: Op, ws: seq<Writes.Write>)
    requires Inv(g, s) && CrashConsistent(g, e, s) && s.phase.Running? && op in s.spent && s.spent[op] == {}
    requires g.size > LOGSIZE && g.start + g.size <= sb.inodestart && sb.size <= |s.disk|
    requires Inside(sb, Writes.Logged(ws)) && Allowed(ws, MAXOPBLOCKS)
    ensures CanWrite(g, s, op, ws) && Unpanicked(g, s, op, ws)
    decreases |ws|
  {
    hide Inv, CrashConsistent, Allowed, Wrote;
    if ws == [] {
    } else {
      var ws0, w := ws[..|ws| - 1], ws[|ws| - 1];
      AllowedPrefix(ws, MAXOPBLOCKS);
      assert ws == ws0 + [w];
      Writes.Snoc(s.disk, ws0, w);
      CallsComplete(g, sb, e, s, op, ws0);
      WroteFacts(g, e, s, op, ws0);
      LastCompletes(g, sb, e, Wrote(g, s, op, ws0), op, ws0, w);
      assert forall k :: 0 <= k < |ws0| ==> ws0[..k] == ws[..k];
    }
  }

  lemma LastCompletes(g: Geometry, sb: Superblock, e: Disk, t: State, op: Op, ws: seq<Writes.Write>, w: Writes.Write)
    requires Inv(g, t) && t.phase.Running? && op in t.spent && t.spent[op] == Writes.Logged(ws)
    requires g.size > LOGSIZE && g.start + g.size <= sb.inodestart && sb.inodestart <= w.b < sb.size <= |t.disk|
    requires |Writes.Logged(ws)| < MAXOPBLOCKS && |Writes.Logged(ws) + {w.b}| <= MAXOPBLOCKS
    ensures !Panics(g, t) && Enabled(g, t, LogWrite(op, w.b, w.data))
  {
    hide Inv;
    if Panics(g, t) {
      PanicNeeds(g, t, op);
      assert false;
    }
  }

  // ----- the code in the protocol -----

  /** The file system object is in the current state, over the current disk image. */
  ghost predicate Synced(sb: Superblock, boot: Tree, y: System, fs: FileSys)
    reads fs
  {
    fs.Valid() && fs.sb == sb && fs.tree == Current(boot, y) && Agrees(sb, View(y.s), fs.Image())
  }

  lemma RunSyncs(g: Geometry, sb: Superblock, d: Disk, boot: Tree, events: seq<Event>, y: System, op: Op, act: FsOp)
    returns (events': seq<Event>, y': System)
    requires BootOk(g, sb, d, boot) && Arrives(g, sb, d, boot, events, y) && Possible(g, sb, boot, y, Run(op, act))
    ensures events' == events + [Run(op, act)] && Arrives(g, sb, d, boot, events', y')
    ensures Current(boot, y') == act.after && Agrees(sb, View(y'.s), Writes.After(act.snap, act.writes))
    ensures y'.s.phase.Running? && y'.s.spent.Keys == y.s.spent.Keys && y'.s.groups == y.s.groups
  {
    hide BootOk, Inv, CrashConsistent, Sound, Histories, Represents, IsFsOp, Wrote, CanWrite, Kept, Agrees;
    events', y' := events + [Run(op, act)], EventNext(g, sb, boot, y, Run(op, act));
    assert events'[..|events'| - 1] == events && events'[|events'| - 1] == Run(op, act);
    assert Leads(g, sb, boot, y, Run(op, act), y');
    assert LogOk(g, d) by { BootLogOk(g, sb, d, boot); }
    AlwaysCoupled(g, sb, d, boot, events, y);
    WroteFacts(g, Recovered(g, d), y.s, op, act.writes);
    AgreesAfter(sb, View(y.s), act.snap, act.writes);
    var kept := Kept(y.older, y.s.groups);
    assert (kept + (y.recent + [Entry(op, act)]))[|kept| + |y.recent|] == Entry(op, act);
  }

  /** A chunk of filewrite() inside a transaction of the protocol, whatever other operations are
      outstanding: if writei() succeeds, its calls of log_write() are a step of the protocol, and
      the object stays in the protocol's current state. */
  method WriteInGroup(fs: FileSys, i: nat, src: seq<byte>, off: uint32, ghost g: Geometry, ghost d: Disk,
                      ghost boot: Tree, ghost events: seq<Event>, ghost y: System, ghost op: Op)
    returns (r: Outcome<nat>, ghost events': seq<Event>, ghost y': System)
    requires BootOk(g, fs.sb, d, boot) && Arrives(g, fs.sb, d, boot, events, y) && g.size > LOGSIZE
    requires Synced(fs.sb, boot, y, fs) && i < |fs.tree.inode| && |src| <= 1536
    requires y.s.phase.Running? && op in y.s.spent && y.s.spent[op] == {}
    modifies fs
    ensures r.Done? ==> Spliced(fs.sb, old(fs.tree), fs.tree, i, off, src)
    ensures r.Done? ==> Arrives(g, fs.sb, d, boot, events', y') && Synced(fs.sb, boot, y', fs)
    ensures r.Done? ==> y'.s.phase.Running? && y'.s.spent.Keys == y.s.spent.Keys && y'.s.groups == y.s.groups
  {
    hide BootOk, Arrives, Sound, Represents, Inside, Splice, Files, HasFile, Allowed, Agrees, Current, Possible,
         Spliced;
    ghost var st := fs.tree;
    events', y' := events, y;
    fs.BeginOp();
    r := fs.Writei(i, src, off);
    if r.Done? {
      ghost var act := FsOp(fs.snap, st, fs.writes, fs.tree);
      OperationsComplete(g, fs.sb, d, boot, events, y, op, act);
      events', y' := RunSyncs(g, fs.sb, d, boot, events, y, op, act);
    }
  }
}
