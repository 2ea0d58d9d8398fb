/** log.c as it runs: the in-memory header, the pinned dirty buffers and the disk,
    updated in place. A ghost history records every state the disk goes through, so
    that the crash guarantees of module RedoLog are stated about the very states
    commit() and recover_from_log() leave on the disk. */
module Log {
  import opened Blocks
  import opened RedoLog

  /** log absorption: a block already in the header keeps its slot. */
  function Absorb(bs: seq<uint32>, b: uint32): (r: seq<uint32>)
    ensures |r| == if b in bs then |bs| else |bs| + 1
    ensures forall x :: x in r <==> x in bs || x == b
  {
    if b in bs then bs else bs + [b]
  }

  /** The block contents a reader sees: pinned cached blocks overlay the disk. */
  ghost function Overlay(disk: Disk, dirty: map<nat, Block>): (v: Disk)
    ensures |v| == |disk|
    ensures forall a :: 0 <= a < |disk| ==> v[a] == if a in dirty then dirty[a] else disk[a]
  {
    seq(|disk|, a requires 0 <= a < |disk| => if a in dirty then dirty[a] else disk[a])
  }

  lemma OverlayUpdate(disk: Disk, dirty: map<nat, Block>, b: nat, data: Block)
    requires b < |disk|
    ensures Overlay(disk, dirty[b := data]) == Overlay(disk, dirty)[b := data]
  {
  }

  /** Whatever further crashes hit recovery, it finally turns c into e. */
  ghost predicate RecoversTo(g: Geometry, c: Disk, e: Disk) {
    LogOk(g, c) && forall ks :: SameHomes(g, Recovered(g, Crashes(g, c, ks)), e)
  }

  lemma CommitStateRecovers(g: Geometry, d: Disk, bs: seq<uint32>, v: Disk, k: nat)
    requires LogOk(g, d) && HeaderCount(d[g.start]) == 0
    requires Transaction(g, d, bs, v) && k <= 2 * |bs| + 2
    ensures RecoversTo(g, CommitState(g, d, bs, v, k), if k <= |bs| then d else Committed(d, bs, v))
  {
    forall ks {
      CrashAtomicity(g, d, bs, v, k, ks);
    }
    CrashAtomicity(g, d, bs, v, k, []);
  }

  // ----- disk histories -----

  /** The disk states recorded since position base are cs[1], ..., cs[m]. */
  ghost predicate Follows(h: seq<Disk>, base: nat, cs: seq<Disk>, m: nat) {
    && m < |cs| && |h| == base + m
    && forall k {:trigger cs[k]} :: 1 <= k <= m ==> h[base + k - 1] == cs[k]
  }

  /** write_log() takes state off + i to state off + i + 1 by filling log slot i. */
  ghost predicate LogSteps(g: Geometry, cs: seq<Disk>, bs: seq<uint32>, v: Disk) {
    && |bs| < |cs|
    && forall i {:trigger bs[i]} :: 0 <= i < |bs| ==>
         && bs[i] < |v| && g.start + 1 + i < |cs[i]|
         && cs[i + 1] == cs[i][g.start + 1 + i := v[bs[i]]]
  }

  /** install_trans() takes state off + i to state off + i + 1 by copying slot i home. */
  ghost predicate InstallSteps(g: Geometry, cs: seq<Disk>, off: nat, bs: seq<uint32>) {
    && off + |bs| < |cs|
    && forall i {:trigger bs[i]} :: 0 <= i < |bs| ==>
         && g.start + 1 + i < |cs[off + i]| && bs[i] < |cs[off + i]|
         && cs[off + i + 1] == cs[off + i][bs[i] := cs[off + i][g.start + 1 + i]]
  }

  lemma LogStep(g: Geometry, cs: seq<Disk>, bs: seq<uint32>, v: Disk, i: nat)
    requires LogSteps(g, cs, bs, v) && i < |bs|
    ensures i + 1 < |cs| && bs[i] < |v| && g.start + 1 + i < |cs[i]|
    ensures cs[i + 1] == cs[i][g.start + 1 + i := v[bs[i]]]
  {
  }

  lemma InstallStep(g: Geometry, cs: seq<Disk>, off: nat, bs: seq<uint32>, i: nat)
    requires InstallSteps(g, cs, off, bs) && i < |bs|
    ensures off + i + 1 < |cs| && g.start + 1 + i < |cs[off + i]| && bs[i] < |cs[off + i]|
    ensures cs[off + i + 1] == cs[off + i][bs[i] := cs[off + i][g.start + 1 + i]]
  {
    assert bs[i] < |cs[off + i]|;
  }

  lemma LogLength(g: Geometry, cs: seq<Disk>, bs: seq<uint32>, v: Disk, h: seq<Disk>)
    requires LogSteps(g, cs, bs, v)
    ensures |bs| < |cs| && Follows(h, |h|, cs, 0)
  {
  }

  lemma InstallLength(g: Geometry, cs: seq<Disk>, off: nat, bs: seq<uint32>)
    requires InstallSteps(g, cs, off, bs)
    ensures off + |bs| < |cs|
  {
  }

  lemma FollowsNext(h: seq<Disk>, base: nat, cs: seq<Disk>, m: nat)
    requires Follows(h, base, cs, m) && m + 1 < |cs|
    ensures Follows(h + [cs[m + 1]], base, cs, m + 1)
  {
  }

  /** write_head() takes state k to state k + 1. */
  ghost predicate HeadStep(g: Geometry, cs: seq<Disk>, k: nat, bs: seq<uint32>) {
    && k + 1 < |cs| && g.start < |cs[k]| && |bs| <= LOGSIZE
    && cs[k + 1] == cs[k][g.start := PutHeader(cs[k][g.start], bs)]
  }

  /** All states of a commit, and of a recovery. */
  ghost function CommitStates(g: Geometry, d: Disk, bs: seq<uint32>, v: Disk): seq<Disk>
    requires Transaction(g, d, bs, v)
  {
    seq(2 * |bs| + 3, k requires 0 <= k < 2 * |bs| + 3 => CommitState(g, d, bs, v, k))
  }

  ghost function RecoveryStates(g: Geometry, d: Disk): seq<Disk>
    requires LogOk(g, d)
  {
    var n := HeaderCount(d[g.start]);
    seq(n + 2, k requires 0 <= k < n + 2 => RecoveryState(g, d, k))
  }

  lemma CommitStatesSteps(g: Geometry, d: Disk, bs: seq<uint32>, v: Disk)
    requires Transaction(g, d, bs, v)
    ensures var cs := CommitStates(g, d, bs, v);
            && cs[0] == d && LogSteps(g, cs, bs, v) && HeadStep(g, cs, |bs|, bs)
            && InstallSteps(g, cs, |bs| + 1, bs) && HeadStep(g, cs, 2 * |bs| + 1, [])
  {
    hide CommitState, PutHeader, LogSteps, InstallSteps;
    CommitStateStart(g, d, bs, v);
    CommitStatesLog(g, d, bs, v);
    CommitStatesInstall(g, d, bs, v);
    CommitStateHead(g, d, bs, v);
    CommitStateErase(g, d, bs, v);
  }

  lemma CommitStatesLog(g: Geometry, d: Disk, bs: seq<uint32>, v: Disk)
    requires Transaction(g, d, bs, v)
    ensures LogSteps(g, CommitStates(g, d, bs, v), bs, v)
  {
    hide CommitState;
    forall i | 0 <= i < |bs|
      ensures CommitState(g, d, bs, v, i + 1) == CommitState(g, d, bs, v, i)[g.start + 1 + i := v[bs[i]]]
    {
      CommitStateLog(g, d, bs, v, i);
    }
  }

  lemma CommitStatesInstall(g: Geometry, d: Disk, bs: seq<uint32>, v: Disk)
    requires Transaction(g, d, bs, v)
    ensures InstallSteps(g, CommitStates(g, d, bs, v), |bs| + 1, bs)
  {
    hide CommitState;
    forall i | 0 <= i < |bs|
      ensures CommitState(g, d, bs, v, |bs| + 1 + i)[g.start + 1 + i] == v[bs[i]]
      ensures CommitState(g, d, bs, v, |bs| + 2 + i) == CommitState(g, d, bs, v, |bs| + 1 + i)[bs[i] := v[bs[i]]]
    {
      CommitStateInstall(g, d, bs, v, i);
    }
  }

  lemma RecoveryStatesSteps(g: Geometry, d: Disk)
    requires LogOk(g, d)
    ensures var cs, bs := RecoveryStates(g, d), HeaderBlocks(d[g.start]);
            cs[0] == d && InstallSteps(g, cs, 0, bs) && HeadStep(g, cs, |bs|, [])
  {
    hide Installed, PutHeader;
    var bs := HeaderBlocks(d[g.start]);
    InstalledNone(g, d, bs);
    forall i | 0 <= i < |bs|
      ensures Installed(g, d, bs, i + 1) == Installed(g, d, bs, i)[bs[i] := d[g.start + 1 + i]]
      ensures Installed(g, d, bs, i)[g.start + 1 + i] == d[g.start + 1 + i]
    {
      InstalledStep(g, d, bs, i);
    }
    InstalledKeepsHeader(g, d, bs);
  }

  /** Every state recorded since position base recovers to d or to e: to d as long as
      at most n writes were made, to e afterwards. */
  ghost predicate AllOrNothing(g: Geometry, h: seq<Disk>, base: nat, n: nat, d: Disk, e: Disk) {
    forall i :: base <= i < |h| ==> RecoversTo(g, h[i], if i - base < n then d else e)
  }

  lemma CommitAllOrNothing(h: seq<Disk>, base: nat, g: Geometry, d: Disk, bs: seq<uint32>, v: Disk)
    requires LogOk(g, d) && HeaderCount(d[g.start]) == 0 && Transaction(g, d, bs, v)
    requires Follows(h, base, CommitStates(g, d, bs, v), 2 * |bs| + 2)
    ensures AllOrNothing(g, h, base, |bs|, d, Committed(d, bs, v))
  {
    hide CommitState, Committed, RecoversTo;
    var cs := CommitStates(g, d, bs, v);
    forall i | base <= i < |h|
      ensures RecoversTo(g, h[i], if i - base < |bs| then d else Committed(d, bs, v))
    {
      assert h[i] == cs[i - base + 1];
      CommitStateRecovers(g, d, bs, v, i - base + 1);
    }
  }

  lemma RecoveryAllTheSame(h: seq<Disk>, base: nat, g: Geometry, d: Disk)
    requires LogOk(g, d) && Follows(h, base, RecoveryStates(g, d), HeaderCount(d[g.start]) + 1)
    ensures AllOrNothing(g, h, base, 0, d, Recovered(g, d))
  {
    var cs := RecoveryStates(g, d);
    forall i | base <= i < |h|
      ensures RecoversTo(g, h[i], Recovered(g, d))
    {
      assert h[i] == cs[i - base + 1];
      RecoveryRestartable(g, d, i - base + 1);
    }
  }

  /** A commit of bs was written, block by block, and left disk d'. */
  ghost predicate CommitTrace(g: Geometry, d: Disk, bs: seq<uint32>, v: Disk, h: seq<Disk>, h': seq<Disk>, d': Disk) {
    && Transaction(g, d, bs, v)
    && if bs == [] then h' == h && d' == d
       else Follows(h', |h|, CommitStates(g, d, bs, v), 2 * |bs| + 2) && d' == CommitState(g, d, bs, v, 2 * |bs| + 2)
  }

  // ----- the log -----

  class Log {
    const g: Geometry
    var disk: Disk
    var dirty: map<nat, Block>   // cached contents of buffers pinned by B_DIRTY
    var n: nat                   // lh.n
    var block: array<uint32>     // lh.block
    var outstanding: nat
    var committing: bool
    ghost var history: seq<Disk>

    /** initlog(): the geometry comes from the superblock; a committed transaction
        found on the disk is replayed before anything else happens. */
    constructor (geometry: Geometry, image: Disk)
      requires LogOk(geometry, image)
      ensures Valid() && n == 0 && dirty == map[] && outstanding == 0 && !committing
      ensures g == geometry && disk == Recovered(geometry, image) && fresh(block)
    {
      g, disk := geometry, image;
      dirty, n, outstanding, committing := map[], 0, 0, false;
      block := new uint32[LOGSIZE];
      history := [];
      new;
      RecoverFromLog();
    }

    ghost predicate Shape()
      reads this, block
    {
      && Fits(g, disk)
      && block.Length == LOGSIZE
      && n <= Capacity(g)
      && forall i :: 0 <= i < n ==> block[i] < |disk| && IsHome(g, block[i])
    }

    /** The state between transactions and while one is being built. */
    ghost predicate Valid()
      reads this, block
    {
      && Shape()
      && HeaderCount(disk[g.start]) == 0
      && (forall a :: a in dirty <==> a in block[..n])
    }

    ghost function View(): Disk
      reads this
    {
      Overlay(disk, dirty)
    }

    method Bread(a: nat) returns (b: Block)
      requires a < |disk|
      ensures b == View()[a]
    {
      b := if a in dirty then dirty[a] else disk[a];
    }

    method Bwrite(a: nat, b: Block)
      requires a < |disk|
      modifies this`disk, this`dirty, this`history
      ensures disk == old(disk)[a := b] && history == old(history) + [disk]
      ensures dirty == old(dirty) - {a}
    {
      disk := disk[a := b];
      dirty := dirty - {a};
      history := history + [disk];
    }

    /** Copies the in-memory header over the front of the header block. */
    method WriteHead()
      requires Shape() && g.start !in dirty
      modifies this`disk, this`dirty, this`history
      ensures disk == old(disk)[g.start := PutHeader(old(disk)[g.start], block[..n])]
      ensures history == old(history) + [disk] && dirty == old(dirty)
    {
      var hb := Bread(g.start);
      ghost var h0 := PutWord(hb, 0, n);
      hb := PutWord(hb, 0, n);
      for i := 0 to n
        invariant hb == PutWords(h0, 1, block[..i])
      {
        assert block[..i + 1][..i] == block[..i];
        hb := PutWord(hb, i + 1, block[i]);
      }
      Bwrite(g.start, hb);
    }

    method ReadHead()
      requires LogOk(g, disk) && block.Length == LOGSIZE && g.start !in dirty
      modifies this`n, block
      ensures Shape()
      ensures block[..n] == HeaderBlocks(disk[g.start])
    {
      var h := Bread(g.start);
      n := Word(h, 0);
      for i := 0 to n
        invariant n == Word(h, 0) <= LOGSIZE == block.Length
        invariant forall j :: 0 <= j < i ==> block[j] == Word(h, j + 1)
      {
        block[i] := Word(h, i + 1);
      }
      ghost var bs := HeaderBlocks(disk[g.start]);
      assert forall j :: 0 <= j < n ==> block[j] == bs[j];
    }

    /** Copies log blocks to their homes, which stay pinned only until then. */
    method InstallTrans(ghost cs: seq<Disk>, ghost off: nat, ghost base: nat)
      requires Shape() && InstallSteps(g, cs, off, block[..n]) && disk == cs[off]
      requires Follows(history, base, cs, off)
      requires forall a :: a in dirty ==> a in block[..n]
      modifies this`disk, this`dirty, this`history
      ensures disk == cs[off + n] && dirty == map[]
      ensures Follows(history, base, cs, off + n) && old(history) <= history
    {
      hide InstallSteps, Follows, Overlay;
      ghost var bs := block[..n];
      assert off + n < |cs| by { InstallLength(g, cs, off, bs); }
      for tail := 0 to n
        invariant |disk| == |old(disk)| && disk == cs[off + tail]
        invariant forall a :: a in dirty ==> IsHome(g, a)
        invariant forall a :: a in dirty ==> a in bs[tail..]
        invariant Follows(history, base, cs, off + tail) && old(history) <= history
      {
        assert block[tail] == bs[tail] && bs[tail..] == [bs[tail]] + bs[tail + 1..];
        InstallStep(g, cs, off, bs, tail);
        FollowsNext(history, base, cs, off + tail);
        var lbuf := Bread(g.start + tail + 1);
        Bwrite(block[tail], lbuf);
      }
    }

    /** Boot: replays a committed transaction, if any, and clears the log. Every disk
        state on the way recovers to the same result. */
    method RecoverFromLog()
      requires LogOk(g, disk) && block.Length == LOGSIZE && dirty == map[]
      modifies this`disk, this`dirty, this`history, this`n, block
      ensures disk == Recovered(g, old(disk))
      ensures Valid() && n == 0 && dirty == map[]
      ensures old(history) <= history
      ensures |history| == |old(history)| + HeaderCount(old(disk)[g.start]) + 1
      ensures AllOrNothing(g, history, |old(history)|, 0, old(disk), Recovered(g, old(disk)))
    {
      hide Recovered, Installed, RecoversTo, InstallSteps, PutHeader;
      ghost var d0, base := disk, |history|;
      ReadHead();
      RecoveryStatesSteps(g, d0);
      InstallTrans(RecoveryStates(g, d0), 0, base);
      n := 0;
      assert block[..0] == [];
      WriteHead();
      RecoveredIsClean(g, d0);
      RecoveryAllTheSame(history, base, g, d0);
    }

    /** Copies modified blocks from the cache to the log. */
    method WriteLog(ghost cs: seq<Disk>, ghost v: Disk)
      requires Shape() && v == View() && LogSteps(g, cs, block[..n], v) && disk == cs[0]
      requires forall a :: a in dirty <==> a in block[..n]
      modifies this`disk, this`dirty, this`history
      ensures disk == cs[n] && dirty == old(dirty)
      ensures Follows(history, |old(history)|, cs, n) && old(history) <= history
    {
      hide LogSteps, Follows, Overlay;
      ghost var bs := block[..n];
      assert n < |cs| && Follows(history, |history|, cs, 0) by { LogLength(g, cs, bs, v, history); }
      for tail := 0 to n
        invariant |disk| == |old(disk)| && disk == cs[tail] && dirty == old(dirty)
        invariant Follows(history, |old(history)|, cs, tail) && old(history) <= history
      {
        assert block[tail] == bs[tail] && bs[tail] in dirty;
        LogStep(g, cs, bs, v, tail);
        FollowsNext(history, |old(history)|, cs, tail);
        var from := Bread(block[tail]);
        Bwrite(g.start + tail + 1, from);
        assert dirty == old(dirty);
      }
    }

    /** write_head() as the step from state k to state k + 1. */
    method HeadTo(ghost cs: seq<Disk>, ghost k: nat, ghost base: nat)
      requires Shape() && g.start !in dirty && HeadStep(g, cs, k, block[..n]) && disk == cs[k]
      requires Follows(history, base, cs, k)
      modifies this`disk, this`dirty, this`history
      ensures disk == cs[k + 1] && dirty == old(dirty) && Follows(history, base, cs, k + 1) && old(history) <= history
    {
      hide PutHeader;
      WriteHead();
    }

    /** The body of commit() for a non-empty transaction. */
    method CommitBlocks(ghost cs: seq<Disk>, ghost bs: seq<uint32>, ghost v: Disk)
      requires Shape() && v == View() && bs == block[..n] && |cs| == 2 * n + 3 && disk == cs[0]
      requires forall k {:trigger cs[k]} :: 0 <= k < |cs| ==> |cs[k]| == |disk|
      requires forall a :: a in dirty <==> a in bs
      requires LogSteps(g, cs, bs, v) && HeadStep(g, cs, n, bs)
      requires InstallSteps(g, cs, n + 1, bs) && HeadStep(g, cs, 2 * n + 1, [])
      modifies this`disk, this`dirty, this`history, this`n
      ensures n == 0 && dirty == map[] && disk == cs[2 * |bs| + 2]
      ensures Follows(history, |old(history)|, cs, 2 * |bs| + 2) && old(history) <= history
    {
      hide PutHeader, LogSteps, InstallSteps, HeadStep, Follows;
      ghost var base := |history|;
      WriteLog(cs, v);
      assert g.start !in dirty;
      HeadTo(cs, n, base);
      InstallTrans(cs, n + 1, base);
      n := 0;
      assert block[..0] == [];
      HeadTo(cs, 2 * |bs| + 1, base);
    }

    /** The whole commit: afterwards the disk holds the cached view, nothing is pinned,
        and every disk state in between recovers to all of the old or all of the new. */
    method Commit()
      requires Valid()
      modifies this`disk, this`dirty, this`history, this`n
      ensures Valid() && n == 0 && dirty == map[]
      ensures SameHomes(g, disk, old(View()))
      ensures old(history) <= history
      ensures |history| == |old(history)| + if old(n) == 0 then 0 else 2 * old(n) + 2
      ensures CommitTrace(g, old(disk), old(block[..n]), old(View()), old(history), history, disk)
      ensures AllOrNothing(g, history, |old(history)|, old(n), old(disk), old(View()))
    {
      hide CommitState, RecoversTo, LogSteps, InstallSteps, HeadStep;
      ghost var d0, bs, v := disk, block[..n], View();
      if n > 0 {
        CommitStatesSteps(g, d0, bs, v);
        CommitBlocks(CommitStates(g, d0, bs, v), bs, v);
        CommitFinal(g, d0, bs, v);
        CommitAllOrNothing(history, |old(history)|, g, d0, bs, v);
        assert Committed(d0, bs, v) == v;
      } else {
        assert bs == [];
      }
    }

    /** The caller has changed block b to data and logs it. False models panic(). */
    method LogWrite(b: uint32, data: Block) returns (ok: bool)
      requires Valid() && b < |disk| && IsHome(g, b)
      modifies this`dirty, this`n, block
      ensures ok <==> old(n) < Capacity(g) && outstanding >= 1
      ensures Valid()
      ensures ok ==> block[..n] == Absorb(old(block[..n]), b)
      ensures ok ==> dirty == old(dirty)[b := data] && View() == old(View())[b := data]
      ensures !ok ==> block[..n] == old(block[..n]) && dirty == old(dirty)
    {
      hide Overlay;
      if n >= LOGSIZE || n >= g.size - 1 || outstanding < 1 {
        return false;
      }
      ghost var bs := block[..n];
      var i := FindSlot(b);
      block[i] := b;
      if i == n {
        n := n + 1;
      }
      OverlayUpdate(disk, dirty, b, data);
      dirty := dirty[b := data];
      assert block[..n] == if b in bs then bs else bs + [b];
      return true;
    }

    method FindSlot(b: uint32) returns (i: nat)
      requires n <= block.Length
      ensures i <= n && (i < n <==> b in block[..n])
      ensures i < n ==> block[i] == b
    {
      i := 0;
      while i < n && block[i] != b
        invariant i <= n
        invariant forall j :: 0 <= j < i ==> block[j] != b
      {
        i := i + 1;
      }
    }

    /** One pass of begin_op()'s loop; false means the caller sleeps on the log. */
    method TryBeginOp() returns (admitted: bool)
      modifies this`outstanding
      ensures admitted <==> !committing && n + (old(outstanding) + 1) * MAXOPBLOCKS <= LOGSIZE
      ensures outstanding == old(outstanding) + if admitted then 1 else 0
    {
      if committing || n + (outstanding + 1) * MAXOPBLOCKS > LOGSIZE {
        return false;
      }
      outstanding := outstanding + 1;
      return true;
    }

    /** end_op(): the last outstanding operation commits for the whole group. */
    method EndOp() returns (committed: bool)
      requires Valid() && outstanding >= 1 && !committing
      modifies this`disk, this`dirty, this`history, this`n, this`outstanding, this`committing
      ensures Valid() && !committing && outstanding == old(outstanding) - 1
      ensures committed <==> outstanding == 0
      ensures !committed ==> disk == old(disk) && dirty == old(dirty) && n == old(n)
      ensures committed ==> n == 0 && dirty == map[] && SameHomes(g, disk, old(View()))
      ensures if committed then CommitTrace(g, old(disk), old(block[..n]), old(View()), old(history), history, disk)
              else history == old(history)
      ensures AllOrNothing(g, history, |old(history)|, old(n), old(disk), old(View()))
    {
      outstanding := outstanding - 1;
      committed := outstanding == 0;
      if committed {
        committing := true;
        Commit();
        committing := false;
      }
    }
  }
}
