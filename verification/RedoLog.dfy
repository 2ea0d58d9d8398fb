/** The physical redo log of log.c as pure data: every disk state that commit() and
    recover_from_log() pass through (one per atomic block write), and what recovery
    makes of each of them after a crash. */
module RedoLog {
  import opened Common
  import opened Blocks

  const MAXOPBLOCKS: nat := 10
  const LOGSIZE: nat := 30

  type Disk = seq<Block>

  /** The log occupies blocks start .. start + size - 1; the first is the header. */
  datatype Geometry = Geometry(start: nat, size: nat)

  // ----- the header block -----

  /** write_head() overwrites the count and the first n entries only. */
  function PutHeader(h: Block, bs: seq<uint32>): Block
    requires |bs| <= LOGSIZE
  {
    PutWords(PutWord(h, 0, |bs|), 1, bs)
  }

  function HeaderCount(h: Block): uint32 {
    Word(h, 0)
  }

  /** read_head(): the block numbers recorded in a header block. */
  function HeaderBlocks(h: Block): (bs: seq<uint32>)
    requires HeaderCount(h) <= LOGSIZE
  {
    seq(HeaderCount(h), i requires 0 <= i < HeaderCount(h) => Word(h, i + 1))
  }

  lemma HeaderRoundTrip(h: Block, bs: seq<uint32>)
    requires |bs| <= LOGSIZE
    ensures HeaderCount(PutHeader(h, bs)) == |bs|
    ensures HeaderBlocks(PutHeader(h, bs)) == bs
  {
    var h0 := PutWord(h, 0, |bs|);
    WordPutWord(h, 0, |bs|, 0);
    WordPutWords(h0, 1, bs, 0);
    forall i | 0 <= i < |bs|
      ensures Word(PutHeader(h, bs), i + 1) == bs[i]
    {
      WordPutWords(h0, 1, bs, i + 1);
    }
  }

  lemma ClearHeaderTwice(h: Block)
    ensures HeaderCount(h) == 0 ==> PutHeader(h, []) == h
  {
    if HeaderCount(h) == 0 {
      assert PutWord(h, 0, 0) == h;
    }
  }

  // ----- regions -----

  /** Data slots usable by one transaction: bounded by lh.block[] and by the region. */
  function Capacity(g: Geometry): int {
    if g.size - 1 < LOGSIZE then g.size - 1 else LOGSIZE
  }

  predicate IsHome(g: Geometry, a: int) {
    0 <= a && !(g.start <= a < g.start + g.size)
  }

  predicate HomeList(g: Geometry, size: nat, bs: seq<uint32>) {
    && |bs| <= Capacity(g)
    && forall i :: 0 <= i < |bs| ==> bs[i] < size && IsHome(g, bs[i])
  }

  predicate Fits(g: Geometry, d: Disk) {
    g.size > 0 && g.start + g.size <= |d| <= TWO32
  }

  /** A disk whose log region recovery can interpret. */
  predicate LogOk(g: Geometry, d: Disk) {
    && Fits(g, d)
    && HeaderCount(d[g.start]) <= Capacity(g)
    && HomeList(g, |d|, HeaderBlocks(d[g.start]))
  }

  ghost predicate SameHomes(g: Geometry, d: Disk, e: Disk) {
    |d| == |e| && forall a :: 0 <= a < |d| && IsHome(g, a) ==> d[a] == e[a]
  }

  // ----- recovery -----

  /** Position of the last entry for block a, or -1. */
  function LastIndex(bs: seq<uint32>, a: int): (i: int)
    ensures -1 <= i < |bs|
    ensures i >= 0 ==> bs[i] == a
    ensures i < 0 <==> a !in bs
  {
    if bs == [] then -1
    else if bs[|bs| - 1] == a then |bs| - 1
    else LastIndex(bs[..|bs| - 1], a)
  }

  /** install_trans() after its first k block copies: home bs[i] holds log block i. */
  function Installed(g: Geometry, d: Disk, bs: seq<uint32>, k: nat): (r: Disk)
    requires Fits(g, d) && |bs| <= Capacity(g) && k <= |bs|
    ensures |r| == |d|
  {
    seq(|d|, a requires 0 <= a < |d| =>
      var i := LastIndex(bs[..k], a);
      if i >= 0 then d[g.start + 1 + i] else d[a])
  }

  /** What a complete recover_from_log() makes of disk d. */
  function Recovered(g: Geometry, d: Disk): (r: Disk)
    requires LogOk(g, d)
    ensures |r| == |d|
  {
    var bs := HeaderBlocks(d[g.start]);
    Installed(g, d, bs, |bs|)[g.start := PutHeader(d[g.start], [])]
  }

  /** The disk k writes into recovery; the last write clears the header. */
  function RecoveryState(g: Geometry, d: Disk, k: nat): (r: Disk)
    requires LogOk(g, d) && k <= HeaderCount(d[g.start]) + 1
    ensures |r| == |d|
  {
    if k <= HeaderCount(d[g.start]) then Installed(g, d, HeaderBlocks(d[g.start]), k) else Recovered(g, d)
  }

  lemma InstalledStep(g: Geometry, d: Disk, bs: seq<uint32>, k: nat)
    requires Fits(g, d) && HomeList(g, |d|, bs) && k < |bs|
    ensures Installed(g, d, bs, k + 1) == Installed(g, d, bs, k)[bs[k] := d[g.start + 1 + k]]
    ensures Installed(g, d, bs, k)[g.start + 1 + k] == d[g.start + 1 + k]
  {
    assert bs[..k + 1][..k] == bs[..k];
  }

  lemma InstalledNone(g: Geometry, d: Disk, bs: seq<uint32>)
    requires Fits(g, d) && HomeList(g, |d|, bs)
    ensures Installed(g, d, bs, 0) == d
  {
  }

  lemma InstalledKeepsHeader(g: Geometry, d: Disk, bs: seq<uint32>)
    requires Fits(g, d) && HomeList(g, |d|, bs)
    ensures Installed(g, d, bs, |bs|)[g.start] == d[g.start]
  {
  }

  lemma RecoveryOfClean(g: Geometry, d: Disk)
    requires LogOk(g, d) && HeaderCount(d[g.start]) == 0
    ensures Recovered(g, d) == d
  {
    ClearHeaderTwice(d[g.start]);
  }

  lemma RecoveredIsClean(g: Geometry, d: Disk)
    requires LogOk(g, d)
    ensures LogOk(g, Recovered(g, d)) && HeaderCount(Recovered(g, d)[g.start]) == 0
  {
    HeaderRoundTrip(d[g.start], []);
  }

  lemma RecoveredAt(g: Geometry, d: Disk, a: nat)
    requires LogOk(g, d) && a < |d| && IsHome(g, a)
    ensures var bs := HeaderBlocks(d[g.start]);
            Recovered(g, d)[a] == if a in bs then d[g.start + 1 + LastIndex(bs, a)] else d[a]
  {
    var bs := HeaderBlocks(d[g.start]);
    assert bs[..|bs|] == bs;
  }

  /** Redo: recovery does not look at the home blocks it is going to overwrite. */
  lemma RedoIgnoresTargets(g: Geometry, d: Disk, c: Disk)
    requires LogOk(g, d) && |c| == |d|
    requires forall a :: 0 <= a < |d| && (!IsHome(g, a) || a !in HeaderBlocks(d[g.start])) ==> c[a] == d[a]
    ensures LogOk(g, c) && Recovered(g, c) == Recovered(g, d)
  {
    var bs := HeaderBlocks(d[g.start]);
    assert c[g.start] == d[g.start];
    forall a | 0 <= a < |d|
      ensures Recovered(g, c)[a] == Recovered(g, d)[a]
    {
      if IsHome(g, a) {
        RecoveredAt(g, c, a);
        RecoveredAt(g, d, a);
      }
    }
  }

  /** A crash after any number of recovery's own writes is harmless: recovering
      from what is left gives the very same disk. */
  lemma RecoveryRestartable(g: Geometry, d: Disk, k: nat)
    requires LogOk(g, d) && k <= HeaderCount(d[g.start]) + 1
    ensures LogOk(g, RecoveryState(g, d, k))
    ensures Recovered(g, RecoveryState(g, d, k)) == Recovered(g, d)
  {
    if k <= HeaderCount(d[g.start]) {
      var bs := HeaderBlocks(d[g.start]);
      assert forall a :: a in bs[..k] ==> a in bs;
      RedoIgnoresTargets(g, d, RecoveryState(g, d, k));
    } else {
      RecoveredIsClean(g, d);
      RecoveryOfClean(g, Recovered(g, d));
    }
  }

  /** The disk left by a machine that crashes |ks| times in a row during recovery,
      the i-th time after at most ks[i] of that attempt's writes. */
  ghost function Crashes(g: Geometry, d: Disk, ks: seq<nat>): (c: Disk)
    requires LogOk(g, d)
    ensures LogOk(g, c) && |c| == |d| && Recovered(g, c) == Recovered(g, d)
    decreases |ks|
  {
    if ks == [] then d
    else
      var n := HeaderCount(d[g.start]);
      var k := if ks[0] <= n + 1 then ks[0] else n + 1;
      RecoveryRestartable(g, d, k);
      Crashes(g, RecoveryState(g, d, k), ks[1..])
  }

  // ----- commit -----

  /** The disk with the whole transaction applied. */
  ghost function Committed(d: Disk, bs: seq<uint32>, v: Disk): (r: Disk)
    requires |v| == |d|
    ensures |r| == |d|
  {
    seq(|d|, a requires 0 <= a < |d| => if a in bs then v[a] else d[a])
  }

  ghost predicate Transaction(g: Geometry, d: Disk, bs: seq<uint32>, v: Disk) {
    Fits(g, d) && HomeList(g, |d|, bs) && |v| == |d|
  }

  ghost function CommitHeader(h: Block, bs: seq<uint32>, k: nat): Block
    requires |bs| <= LOGSIZE
  {
    if k <= |bs| then h
    else if k <= 2 * |bs| + 1 then PutHeader(h, bs)
    else PutHeader(PutHeader(h, bs), [])
  }

  /** The disk k writes into commit(): write_log() fills the log slots with the cached
      contents v of the blocks bs, write_head() commits, install_trans() copies home,
      a second write_head() erases the transaction. */
  ghost function CommitState(g: Geometry, d: Disk, bs: seq<uint32>, v: Disk, k: nat): (c: Disk)
    requires Transaction(g, d, bs, v) && k <= 2 * |bs| + 2
    ensures |c| == |d|
  {
    var n := |bs|;
    seq(|d|, a requires 0 <= a < |d| =>
      if a == g.start then CommitHeader(d[a], bs, k)
      else if g.start < a <= g.start + n && a - g.start <= k then v[bs[a - g.start - 1]]
      else if IsHome(g, a) && k > n && a in bs[..if k - n - 1 <= n then k - n - 1 else n] then v[a]
      else d[a])
  }

  lemma CommitStateStart(g: Geometry, d: Disk, bs: seq<uint32>, v: Disk)
    requires Transaction(g, d, bs, v)
    ensures CommitState(g, d, bs, v, 0) == d
  {
  }

  lemma CommitStateLog(g: Geometry, d: Disk, bs: seq<uint32>, v: Disk, k: nat)
    requires Transaction(g, d, bs, v) && k < |bs|
    ensures CommitState(g, d, bs, v, k + 1) == CommitState(g, d, bs, v, k)[g.start + 1 + k := v[bs[k]]]
  {
  }

  lemma CommitStateHead(g: Geometry, d: Disk, bs: seq<uint32>, v: Disk)
    requires Transaction(g, d, bs, v)
    ensures CommitState(g, d, bs, v, |bs| + 1)
         == CommitState(g, d, bs, v, |bs|)[g.start := PutHeader(d[g.start], bs)]
    ensures CommitState(g, d, bs, v, |bs|)[g.start] == d[g.start]
  {
  }

  lemma CommitStateInstall(g: Geometry, d: Disk, bs: seq<uint32>, v: Disk, i: nat)
    requires Transaction(g, d, bs, v) && i < |bs|
    ensures CommitState(g, d, bs, v, |bs| + 1 + i)[g.start + 1 + i] == v[bs[i]]
    ensures CommitState(g, d, bs, v, |bs| + 2 + i)
         == CommitState(g, d, bs, v, |bs| + 1 + i)[bs[i] := v[bs[i]]]
  {
    assert bs[..i + 1] == bs[..i] + [bs[i]];
  }

  lemma CommitStateErase(g: Geometry, d: Disk, bs: seq<uint32>, v: Disk)
    requires Transaction(g, d, bs, v)
    ensures CommitState(g, d, bs, v, 2 * |bs| + 1)[g.start] == PutHeader(d[g.start], bs)
    ensures CommitState(g, d, bs, v, 2 * |bs| + 2)
         == CommitState(g, d, bs, v, 2 * |bs| + 1)[g.start := PutHeader(PutHeader(d[g.start], bs), [])]
  {
  }

  lemma RecoverBeforeHeader(g: Geometry, d: Disk, bs: seq<uint32>, v: Disk, k: nat)
    requires LogOk(g, d) && HeaderCount(d[g.start]) == 0
    requires Transaction(g, d, bs, v) && k <= |bs|
    ensures var c := CommitState(g, d, bs, v, k); LogOk(g, c) && SameHomes(g, Recovered(g, c), d)
  {
    RecoveryOfClean(g, CommitState(g, d, bs, v, k));
  }

  /** After the commit point the log supplies every block the transaction names. */
  lemma CommitStateAt(g: Geometry, d: Disk, bs: seq<uint32>, v: Disk, k: nat, a: nat)
    requires Transaction(g, d, bs, v) && |bs| < k <= 2 * |bs| + 1 && a < |d| && IsHome(g, a)
    ensures var c := CommitState(g, d, bs, v, k);
            if a in bs then c[g.start + 1 + LastIndex(bs, a)] == v[a] else c[a] == d[a]
  {
  }

  lemma CommitHeaderNames(g: Geometry, d: Disk, bs: seq<uint32>, v: Disk, k: nat)
    requires LogOk(g, d) && Transaction(g, d, bs, v) && |bs| < k <= 2 * |bs| + 1
    ensures var c := CommitState(g, d, bs, v, k); LogOk(g, c) && HeaderBlocks(c[g.start]) == bs
  {
    HeaderRoundTrip(d[g.start], bs);
  }

  lemma RecoverAfterHeader(g: Geometry, d: Disk, bs: seq<uint32>, v: Disk, k: nat)
    requires LogOk(g, d) && Transaction(g, d, bs, v) && |bs| < k <= 2 * |bs| + 1
    ensures var c := CommitState(g, d, bs, v, k);
            LogOk(g, c) && SameHomes(g, Recovered(g, c), Committed(d, bs, v))
  {
    var c := CommitState(g, d, bs, v, k);
    CommitHeaderNames(g, d, bs, v, k);
    forall a | 0 <= a < |d| && IsHome(g, a)
      ensures Recovered(g, c)[a] == Committed(d, bs, v)[a]
    {
      RecoveredAt(g, c, a);
      CommitStateAt(g, d, bs, v, k, a);
    }
  }

  lemma CommitFinal(g: Geometry, d: Disk, bs: seq<uint32>, v: Disk)
    requires LogOk(g, d) && Transaction(g, d, bs, v)
    ensures var c := CommitState(g, d, bs, v, 2 * |bs| + 2);
            && LogOk(g, c) && HeaderCount(c[g.start]) == 0
            && SameHomes(g, c, Committed(d, bs, v)) && Recovered(g, c) == c
  {
    HeaderRoundTrip(PutHeader(d[g.start], bs), []);
    assert bs[..|bs|] == bs;
    RecoveryOfClean(g, CommitState(g, d, bs, v, 2 * |bs| + 2));
  }

  /** Crash atomicity (log.c): crash commit() after any k of its writes, then crash
      recovery any number of times at any points; the recovery that completes leaves
      the home blocks all old (header not yet written) or all new. */
  lemma CrashAtomicity(g: Geometry, d: Disk, bs: seq<uint32>, v: Disk, k: nat, ks: seq<nat>)
    requires LogOk(g, d) && HeaderCount(d[g.start]) == 0
    requires Transaction(g, d, bs, v) && k <= 2 * |bs| + 2
    ensures var c := CommitState(g, d, bs, v, k);
            && LogOk(g, c)
            && SameHomes(g, Recovered(g, Crashes(g, c, ks)), if k <= |bs| then d else Committed(d, bs, v))
  {
    hide CommitState;
    if k <= |bs| {
      RecoverBeforeHeader(g, d, bs, v, k);
    } else if k <= 2 * |bs| + 1 {
      RecoverAfterHeader(g, d, bs, v, k);
    } else {
      CommitFinal(g, d, bs, v);
    }
  }
}
