/** The file system on top of the log: what a file system transaction does to the files is done
    completely or not at all by a crash. */
module CrashSafety {
  import opened Common
  import opened Blocks
  import opened Inodes
  import opened DiskLayout
  import opened FileContent
  import opened FileSystem
  import opened RedoLog
  import opened Truncate
  import opened Space
  import Directory
  import Writes
  import Names

  // ----- what a reboot reads -----

  /** The file system as ilock() and bmap() find it on disk d. */
  function Mounted(sb: Superblock, n: nat, d: Disk): Tree
    requires Layout(sb, n) && sb.size <= |d|
  {
    Places(sb, n);
    Tree(seq(sb.size, b requires 0 <= b < sb.size => BitOf(d[BBlock(sb, b)], b % BPB)), d[..sb.size],
         seq(n, i requires 0 <= i < n => DinodeOf(d[IBlock(sb, i)], i % IPB)), map[])
  }

  /** The files on disk d, read through its own inodes and index blocks. */
  ghost predicate FilesAre(sb: Superblock, d: Disk, files: seq<seq<byte>>) {
    && Layout(sb, |files|) && sb.size <= |d|
    && forall i :: 0 <= i < |files| ==> FileIs(Mounted(sb, |files|, d), i, files[i])
  }

  ghost predicate FileIs(st: Tree, i: nat, file: seq<byte>) {
    HasFile(st, i) && Content(st, i) == file
  }

  /** Trees with the same inodes and the same data blocks have the same files. */
  lemma SameFile(sb: Superblock, st: Tree, m: Tree, i: nat)
    requires Owned(sb, st) && i < |st.inode| && FileOk(st, i) && m.inode == st.inode && |m.block| == |st.block|
    requires forall a :: sb.datastart <= a < sb.size ==> m.block[a] == st.block[a]
    ensures HasFile(st, i) && FileIs(m, i, Content(st, i))
  {
    hide Owned;
    OwnedInRange(sb, st, i);
    forall s | 0 <= s < NSLOTS
      ensures Ptr(m, i, s) == Ptr(st, i, s)
    {
      SamePtr(sb, st, m, i, s);
    }
    forall k | 0 <= k < st.inode[i].size
      ensures ByteAt(m, i, k) == ByteAt(st, i, k)
    {
      MappedBelowSize(st, i, k);
      PtrIsData(sb, st, i, Slot(k / BSIZE));
    }
  }

  lemma SamePtr(sb: Superblock, st: Tree, m: Tree, i: nat, s: nat)
    requires Owned(sb, st) && i < |st.inode| && s < NSLOTS && m.inode == st.inode && |m.block| == |st.block|
    requires forall a :: sb.datastart <= a < sb.size ==> m.block[a] == st.block[a]
    ensures Ptr(m, i, s) == Ptr(st, i, s)
  {
    assert HasInode(st, i);
    if s > NDIRECT && Ptr(st, i, NDIRECT) != 0 {
      PtrIsData(sb, st, i, NDIRECT);
    }
  }

  ghost predicate Rep(sb: Superblock, d: Disk, st: Tree) {
    Represents(sb, d, st.used, st.block, st.inode)
  }

  /** What the disk represents is what a reboot reads. */
  lemma ReadBack(sb: Superblock, d: Disk, st: Tree)
    requires Rep(sb, d, st) && Sound(sb, st)
    ensures forall i :: 0 <= i < |st.inode| ==> HasFile(st, i)
    ensures FilesAre(sb, d, Files(st))
  {
    hide Owned, FileOk, BitOf, DinodeOf, PtrsInRange, Content;
    var m := Mounted(sb, |st.inode|, d);
    assert m.inode == st.inode;
    forall i | 0 <= i < |st.inode|
      ensures HasFile(st, i) && FileIs(m, i, Content(st, i))
    {
      assert FileOk(st, i);
      SameFile(sb, st, m, i);
    }
  }

  // ----- crashes -----

  /** The disks have the same inode, bitmap and data blocks. */
  ghost predicate Agrees(sb: Superblock, d: Disk, e: Disk) {
    |d| == |e| && sb.size <= |d| && forall a :: sb.inodestart <= a < sb.size ==> d[a] == e[a]
  }

  /** Only those matter. */
  lemma RepSame(sb: Superblock, d: Disk, e: Disk, st: Tree)
    requires Rep(sb, d, st) && Agrees(sb, e, d)
    ensures Rep(sb, e, st)
  {
    hide BitOf, DinodeOf;
    Places(sb, |st.inode|);
  }

  lemma AgreesAfter(sb: Superblock, d: Disk, e: Disk, ws: seq<Writes.Write>)
    requires Agrees(sb, d, e)
    ensures Agrees(sb, Writes.After(d, ws), Writes.After(e, ws))
  {
    forall a: nat | sb.inodestart <= a < sb.size
      ensures Writes.After(d, ws)[a] == Writes.After(e, ws)[a]
    {
      Writes.AfterSame(d, e, ws, a);
    }
  }

  /** The commit writes every block of the log. */
  predicate Lists(bs: seq<uint32>, log: set<int>) {
    forall a :: a in log ==> a in bs
  }

  /** The disk has an empty log in front of the inodes. */
  ghost predicate Quiet(g: Geometry, sb: Superblock, d: Disk) {
    LogOk(g, d) && HeaderCount(d[g.start]) == 0 && g.start + g.size <= sb.inodestart
  }

  /** The disk after a crash k writes into the commit of bs, any number of crashes during
      recovery, and a recovery that runs to its end. */
  ghost function AfterCrash(g: Geometry, d: Disk, bs: seq<uint32>, v: Disk, k: nat, ks: seq<nat>): (r: Disk)
    requires LogOk(g, d) && HeaderCount(d[g.start]) == 0 && Transaction(g, d, bs, v) && k <= 2 * |bs| + 2
    ensures SameHomes(g, r, if k <= |bs| then d else Committed(d, bs, v))
  {
    CrashAtomicity(g, d, bs, v, k, ks);
    Recovered(g, Crashes(g, CommitState(g, d, bs, v, k), ks))
  }

  /** A commit of the operation alone, on a disk as the operation found it: bs lists what it
      logged, and the crash comes after k writes. */
  ghost predicate CommitAlone(g: Geometry, sb: Superblock, op: FsOp, d: Disk, bs: seq<uint32>, k: nat) {
    && Quiet(g, sb, d) && Agrees(sb, d, op.snap)
    && Transaction(g, d, bs, Writes.After(d, op.writes)) && Lists(bs, Writes.Logged(op.writes)) && k <= 2 * |bs| + 2
  }

  /** The disk that the crash, later crashes and recovery leave. */
  ghost function CrashDisk(g: Geometry, sb: Superblock, op: FsOp, d: Disk, bs: seq<uint32>, k: nat, ks: seq<nat>): Disk
    requires CommitAlone(g, sb, op, d, bs, k)
  {
    AfterCrash(g, d, bs, Writes.After(d, op.writes), k, ks)
  }

  /** A block is as before the commit, or as after it. */
  lemma CrashBlock(g: Geometry, sb: Superblock, op: FsOp, d: Disk, bs: seq<uint32>, k: nat, ks: seq<nat>, a: nat)
    requires CommitAlone(g, sb, op, d, bs, k) && sb.inodestart <= a < sb.size
    ensures a < |d| == |CrashDisk(g, sb, op, d, bs, k, ks)|
    ensures CrashDisk(g, sb, op, d, bs, k, ks)[a] == (if k <= |bs| then d else Writes.After(d, op.writes))[a]
  {
    hide AfterCrash, LogOk;
    assert IsHome(g, a);
    if a !in Writes.Logged(op.writes) {
      Writes.AfterOutside(d, op.writes, a);
    }
  }

  /** A crash leaves all of the old state or all of the new one. */
  lemma CrashLeaves(g: Geometry, sb: Superblock, op: FsOp, d: Disk, bs: seq<uint32>, k: nat, ks: seq<nat>)
    requires IsFsOp(sb, op) && CommitAlone(g, sb, op, d, bs, k)
    ensures Rep(sb, CrashDisk(g, sb, op, d, bs, k, ks), if k <= |bs| then op.before else op.after)
  {
    var v := Writes.After(d, op.writes);
    var r := CrashDisk(g, sb, op, d, bs, k, ks);
    hide Represents, AfterCrash, LogOk, Transaction, Sound;
    AgreesAfter(sb, d, op.snap, op.writes);
    forall a | sb.inodestart <= a < sb.size
      ensures r[a] == (if k <= |bs| then d else v)[a]
    {
      CrashBlock(g, sb, op, d, bs, k, ks, a);
    }
    if k <= |bs| {
      RepSame(sb, op.snap, r, op.before);
    } else {
      RepSame(sb, Writes.After(op.snap, op.writes), r, op.after);
    }
  }

  /** Whatever list of the logged blocks is committed, and wherever the crashes come, a reboot
      reads all of the old files or all of the new ones. */
  ghost predicate CrashAtomic(g: Geometry, sb: Superblock, op: FsOp, before: seq<seq<byte>>, after: seq<seq<byte>>) {
    forall d, bs, k: nat, ks :: CommitAlone(g, sb, op, d, bs, k) ==>
      FilesAre(sb, CrashDisk(g, sb, op, d, bs, k, ks), if k <= |bs| then before else after)
  }

  lemma TransactionIsAtomic(g: Geometry, sb: Superblock, op: FsOp)
    requires IsFsOp(sb, op)
    ensures (forall i :: 0 <= i < |op.before.inode| ==> HasFile(op.before, i))
            && (forall i :: 0 <= i < |op.after.inode| ==> HasFile(op.after, i))
    ensures CrashAtomic(g, sb, op, Files(op.before), Files(op.after))
  {
    hide Represents, CrashDisk, CommitAlone, Sound, HasFile, FilesAre, Files;
    SoundFiles(sb, op.before);
    SoundFiles(sb, op.after);
    forall d, bs, k: nat, ks | CommitAlone(g, sb, op, d, bs, k)
      ensures FilesAre(sb, CrashDisk(g, sb, op, d, bs, k, ks), if k <= |bs| then Files(op.before) else Files(op.after))
    {
      CrashLeaves(g, sb, op, d, bs, k, ks);
      ReadBack(sb, CrashDisk(g, sb, op, d, bs, k, ks), if k <= |bs| then op.before else op.after);
    }
  }

  /** The operation alone can be committed if and only if what it logged fits in the log. */
  lemma CanCommit(g: Geometry, sb: Superblock, op: FsOp, d: Disk)
    requires IsFsOp(sb, op) && Quiet(g, sb, d) && Agrees(sb, d, op.snap)
    ensures (exists bs :: CommitAlone(g, sb, op, d, bs, 0)) <==> |Writes.Logged(op.writes)| <= Capacity(g)
  {
    hide Represents, Sound;
    var log := Writes.Logged(op.writes);
    if |log| <= Capacity(g) {
      var blocks: set<nat> := set a: nat | a in log;
      assert blocks == log;
      InImage(sb, op.snap, op.before.used, op.before.block, op.before.inode);
      var bs := Listing(sb, blocks);
      assert CommitAlone(g, sb, op, d, bs, 0);
    }
    forall bs: seq<uint32> | CommitAlone(g, sb, op, d, bs, 0)
      ensures |log| <= Capacity(g)
    {
      ElementsFit(log, bs);
    }
  }

  lemma {:induction false} Listing(sb: Superblock, log: set<nat>) returns (bs: seq<uint32>)
    requires sb.size <= TWO32 && forall a :: a in log ==> a < sb.size
    ensures |bs| == |log| && (forall a :: a in log ==> a in bs) && forall i :: 0 <= i < |bs| ==> bs[i] in log
    decreases |log|
  {
    if log == {} {
      bs := [];
    } else {
      var a :| a in log;
      var rest := Listing(sb, log - {a});
      bs := rest + [a];
    }
  }

  // ----- transactions of the file system -----

  /** What holds of every operation that runs as one transaction: a crash is atomic, the commit
      is possible exactly if the logged blocks fit, and within the allowance they do fit. */
  ghost predicate Transactional(g: Geometry, sb: Superblock, op: FsOp, before: seq<seq<byte>>, after: seq<seq<byte>>) {
    && IsFsOp(sb, op) && CrashAtomic(g, sb, op, before, after)
    && forall d :: Quiet(g, sb, d) && Agrees(sb, d, op.snap) ==>
         ((exists bs :: CommitAlone(g, sb, op, d, bs, 0)) <==> |Writes.Logged(op.writes)| <= Capacity(g))
  }

  lemma IsTransactional(g: Geometry, sb: Superblock, op: FsOp)
    requires IsFsOp(sb, op)
    ensures (forall i :: 0 <= i < |op.before.inode| ==> HasFile(op.before, i))
            && (forall i :: 0 <= i < |op.after.inode| ==> HasFile(op.after, i))
    ensures Transactional(g, sb, op, Files(op.before), Files(op.after))
  {
    hide IsFsOp, CrashAtomic, CommitAlone, HasFile, Files, Quiet, Agrees;
    TransactionIsAtomic(g, sb, op);
    forall d | Quiet(g, sb, d) && Agrees(sb, d, op.snap)
      ensures (exists bs :: CommitAlone(g, sb, op, d, bs, 0)) <==> |Writes.Logged(op.writes)| <= Capacity(g)
    {
      CanCommit(g, sb, op, d);
    }
  }

  ghost function FilesOf(fs: FileSys): seq<seq<byte>>
    requires fs.Valid()
    reads fs
  {
    SoundFiles(fs.sb, fs.tree);
    Files(fs.tree)
  }

  lemma FileSize(sb: Superblock, st: Tree, i: nat)
    requires Sound(sb, st) && i < |st.inode|
    ensures forall j :: 0 <= j < |st.inode| ==> HasFile(st, j)
    ensures |Files(st)[i]| == st.inode[i].size
  {
    SoundFiles(sb, st);
    hide Sound, PtrsInRange;
  }

  /** A write that is its own transaction: a crash leaves every file as before, or this one
      spliced and the others as before. A chunk of filewrite() stays within the allowance. */
  method WriteTransaction(fs: FileSys, i: nat, src: seq<byte>, off: uint32, ghost g: Geometry)
    returns (r: Outcome<nat>, ghost op: FsOp)
    requires fs.Valid() && i < |fs.tree.inode| && |src| < TWO32
    modifies fs
    ensures r.Done? ==> fs.Valid() && op == FsOp(old(fs.Image()), old(fs.tree), fs.writes, fs.tree)
    ensures r.Failed? <==> off > |old(FilesOf(fs))[i]| || off + |src| > MAXBYTES
    ensures r.Panic? <==> !r.Failed? && |Lacks(old(fs.tree), i, off, |src|)| > |Free(old(fs.tree).used)|
    ensures r.Done? ==> off <= |old(FilesOf(fs))[i]|
    ensures r.Done? ==> FilesOf(fs) == old(FilesOf(fs))[i := Splice(old(FilesOf(fs))[i], off, src)]
    ensures r.Done? ==> Transactional(g, fs.sb, op, old(FilesOf(fs)), FilesOf(fs))
    ensures r.Done? && |src| <= 1536 ==> Allowed(op.writes, MAXOPBLOCKS)
  {
    hide Sound, Represents, Inside, Splice, Transactional, Files, HasFile, Lacks, Free;
    ghost var st := fs.tree;
    FileSize(fs.sb, st, i);
    fs.BeginOp();
    r := fs.Writei(i, src, off);
    op := FsOp(fs.snap, st, fs.writes, fs.tree);
    if r.Done? {
      IsTransactional(g, fs.sb, op);
    }
  }

  /** Truncation as its own transaction. It logs the bitmap blocks that show the file's blocks
      and the inode's block, so in a log of n blocks its log_write() calls pass the guard if and
      only if the file is spread over fewer than n bitmap blocks. That is within the allowance on
      every disk with no more than nine bitmap blocks. */
  method TruncTransaction(fs: FileSys, i: nat, ghost g: Geometry) returns (ghost op: FsOp)
    requires fs.Valid() && i < |fs.tree.inode|
    modifies fs
    ensures fs.Valid() && op == FsOp(old(fs.Image()), old(fs.tree), fs.writes, fs.tree)
    ensures FilesOf(fs) == old(FilesOf(fs))[i := []]
    ensures Transactional(g, fs.sb, op, old(FilesOf(fs)), FilesOf(fs))
    ensures |Writes.Logged(op.writes)| == |OwnBits(fs.sb, old(fs.tree), i)| + 1
    ensures forall n: nat :: Writes.Within(op.writes, n) <==> |OwnBits(fs.sb, old(fs.tree), i)| < n
    ensures fs.sb.size <= 9 * BPB ==> Allowed(op.writes, MAXOPBLOCKS)
  {
    hide Sound, Represents, Inside, Transactional, HasFile, OwnBits, Content, Owns;
    ghost var st := fs.tree;
    fs.BeginOp();
    var ok := fs.Itrunc(i);
    op := FsOp(fs.snap, st, fs.writes, fs.tree);
    IsTransactional(g, fs.sb, op);
    InodeBlockApart(fs.sb, fs.Image(), fs.tree, st, i);
  }

  /** The block of an inode is not a bitmap block. */
  lemma InodeBlockApart(sb: Superblock, d: Disk, st: Tree, st0: Tree, i: nat)
    requires Represents(sb, d, st.used, st.block, st.inode) && i < |st.inode|
    ensures IBlock(sb, i) !in OwnBits(sb, st0, i)
  {
    hide Owns, BitOf, DinodeOf;
    Places(sb, |st.inode|);
  }

  /** A new directory entry as its own transaction: a crash leaves the directory's map with the
      name or without it, and nothing else. */
  method LinkTransaction(fs: FileSys, dp: nat, name: Directory.Name, inum: nat, ghost g: Geometry)
    returns (r: Outcome<nat>, ghost op: FsOp)
    requires fs.Valid() && dp < |fs.tree.inode| && Names.Readable(name, Names.DIRSIZ)
    modifies fs
    ensures r.Done? ==> fs.Valid() && |fs.tree.inode| == |old(fs.tree.inode)|
    ensures r.Done? ==> op == FsOp(old(fs.Image()), old(fs.tree), fs.writes, fs.tree)
    ensures r.Failed? <==> Names.Upto(name, Names.DIRSIZ) in Directory.DirMap(old(fs.File(dp)))
    ensures r.Panic? <==> !r.Failed? && Directory.LinkPanics(fs.sb, old(fs.tree), dp, old(fs.File(dp)))
    ensures r.Done? ==>
              Directory.DirMap(fs.File(dp)) == if inum % 65536 == 0 then Directory.DirMap(old(fs.File(dp)))
                else Directory.DirMap(old(fs.File(dp)))[Names.Upto(name, Names.DIRSIZ) := inum % 65536]
    ensures r.Done? ==> FilesOf(fs) == old(FilesOf(fs))[dp := fs.File(dp)]
    ensures r.Done? ==> Transactional(g, fs.sb, op, old(FilesOf(fs)), FilesOf(fs))
    ensures r.Done? ==> Allowed(op.writes, MAXOPBLOCKS)
  {
    hide Sound, Represents, Inside, Transactional, HasFile, Content, Directory.DirMap, Names.Upto,
         Directory.LinkPanics;
    ghost var st := fs.tree;
    fs.BeginOp();
    r := Directory.Dirlink(fs, dp, name, inum);
    op := FsOp(fs.snap, st, fs.writes, fs.tree);
    if r.Done? {
      IsTransactional(g, fs.sb, op);
    }
  }

  /** filewrite() under crashes: if the commit of its chunk number x is hit, the file has the
      bytes of the chunks before it, or of one chunk more, and the other files are as they were
      before the write. */
  lemma FilewriteCrash(g: Geometry, sb: Superblock, st0: Tree, ops: seq<FsOp>, i: nat, off: nat, addr: seq<byte>,
                       x: nat,
                       d: Disk, bs: seq<uint32>, k: nat, ks: seq<nat>)
    requires x < |ops| && ChunkOp(sb, st0, ops[x], i, off, addr, x) && CommitAlone(g, sb, ops[x], d, bs, k)
    ensures i < |st0.inode| && (forall j :: 0 <= j < |st0.inode| ==> HasFile(st0, j)) && off <= |Files(st0)[i]|
    ensures var end := ChunkStart(|addr|, if k <= |bs| then x else x + 1);
            FilesAre(sb, CrashDisk(g, sb, ops[x], d, bs, k, ks),
                Files(st0)[i := Splice(Files(st0)[i], off, addr[..end])])
  {
    hide IsFsOp, CommitAlone, HasFile, Files, Splice, FilesAre, CrashDisk, Sound, Allowed;
    TransactionIsAtomic(g, sb, ops[x]);
  }
}
