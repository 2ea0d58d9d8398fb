/** fs.c as it runs: balloc, bfree, bmap, itrunc, readi, writei and iupdate over a bitmap,
    block contents and inodes updated in place, and filewrite from file.c on top. */
module FileSystem {
  import opened Common
  import opened Blocks
  import opened Inodes
  import opened FileContent
  import opened Truncate
  import opened DiskLayout
  import opened Space
  import Writes

  /** Outcome of an inode operation: panic(), return -1, or success. */
  datatype Outcome<T> = Panic | Failed | Done(value: T)

  /** The log holds inode, bitmap and data blocks only. */
  ghost predicate Inside(sb: Superblock, log: set<int>) {
    forall a :: a in log ==> sb.inodestart <= a < sb.size
  }

  /** No block before the data blocks is free. */
  ghost predicate MetaUsed(sb: Superblock, used: seq<bool>) {
    sb.datastart <= |used| && forall b :: 0 <= b < sb.datastart ==> used[b]
  }

  /** Ownership holds and no file has holes. */
  ghost predicate Sound(sb: Superblock, st: Tree) {
    Owned(sb, st) && forall i :: 0 <= i < |st.inode| ==> FileOk(st, i)
  }

  lemma SoundFiles(sb: Superblock, st: Tree)
    requires Sound(sb, st)
    ensures forall i :: 0 <= i < |st.inode| ==> HasFile(st, i)
  {
    hide Owned, PtrsInRange;
    forall i | 0 <= i < |st.inode|
      ensures HasFile(st, i)
    {
      assert FileOk(st, i);
      OwnedInRange(sb, st, i);
    }
  }

  /** The files of st are those of st0, but for file i, which is c. */
  ghost predicate Replaced(sb: Superblock, st0: Tree, st: Tree, i: nat, c: seq<byte>) {
    && Sound(sb, st0) && Sound(sb, st) && i < |st0.inode| == |st.inode|
    && (forall j :: 0 <= j < |st0.inode| ==> HasFile(st0, j) && HasFile(st, j))
    && Files(st) == Files(st0)[i := c]
  }

  /** The files of st are those of st0, with src written at off of file i. */
  ghost predicate Spliced(sb: Superblock, st0: Tree, st: Tree, i: nat, off: nat, src: seq<byte>) {
    && Sound(sb, st0) && i < |st0.inode| && (forall j :: 0 <= j < |st0.inode| ==> HasFile(st0, j))
    && off <= |Files(st0)[i]| && Replaced(sb, st0, st, i, Splice(Files(st0)[i], off, src))
  }

  /** A completed operation: the disk image and the state it found, its log_write() calls and
      the state it left. */
  datatype FsOp = FsOp(snap: seq<Block>, before: Tree, writes: seq<Writes.Write>, after: Tree)

  ghost predicate IsFsOp(sb: Superblock, op: FsOp) {
    && Sound(sb, op.before) && Sound(sb, op.after) && |op.after.inode| == |op.before.inode|
    && Represents(sb, op.snap, op.before.used, op.before.block, op.before.inode)
    && Represents(sb, Writes.After(op.snap, op.writes), op.after.used, op.after.block, op.after.inode)
    && Inside(sb, Writes.Logged(op.writes))
  }

  /** The operation logs at most n blocks, and none of its log_write() calls comes when it has
      logged n already. */
  ghost predicate Allowed(writes: seq<Writes.Write>, n: nat) {
    |Writes.Logged(writes)| <= n && Writes.Within(writes, n)
  }

  /** Where chunk number x of a write of n bytes begins. */
  function ChunkStart(n: nat, x: nat): (k: nat)
    ensures k <= n
  {
    if x * 1536 < n then x * 1536 else n
  }

  /** The bytes filewrite() writes before it fails: all of them, or the whole chunks that fit in
      the largest file. */
  function Reach(size: nat, off: nat, n: nat): (k: nat)
    ensures k <= n
  {
    if off > size then 0 else if off + n <= MAXBYTES then n else if off > MAXBYTES then 0
    else (MAXBYTES - off) / 1536 * 1536
  }

  lemma ChunkZero(n: nat, size: nat, off: nat)
    ensures ChunkStart(n, 0) == 0 && (n == 0 ==> Reach(size, off, n) == 0)
  {
  }

  /** The chunk behind byte k fails exactly at the end of the reach. */
  lemma ReachStep(n: nat, x: nat, size: nat, off: nat, n1: nat)
    requires var k := ChunkStart(n, x); k < n && k + n1 == ChunkStart(n, x + 1) && k <= Reach(size, off, n)
    requires size <= MAXBYTES && (ChunkStart(n, x) > 0 ==> off <= size)
    ensures var k := ChunkStart(n, x);
            if (k == 0 && off > size) || off + k + n1 > MAXBYTES then Reach(size, off, n) == k
            else k + n1 <= Reach(size, off, n)
  {
    var k := ChunkStart(n, x);
    assert k == x * 1536;
    if off <= size && off + n > MAXBYTES {
      var y := (MAXBYTES - off) / 1536;
      if off + k + n1 > MAXBYTES {
        assert y <= x;
      } else {
        assert k + n1 == (x + 1) * 1536;
        assert x + 1 <= y;
      }
    }
  }

  lemma ChunkLacks(st0: Tree, st: Tree, i: nat, off: nat, k: nat, n: nat)
    requires Filled(st0, st, i, off, k)
    ensures |Lacks(st, i, off + k, n)| > |Free(st.used)| <==> |Lacks(st0, i, off, k + n)| > |Free(st0.used)|
  {
    LacksSum(st0, st, i, off, k, n);
    hide Lacks, Free, Ptr;
  }

  /** Chunk number x of filewrite(): one operation within its allowance, that takes the file from
      the splice of the chunks before it to the splice of one chunk more. */
  ghost predicate ChunkOp(sb: Superblock, st0: Tree, op: FsOp, i: nat, off: nat, addr: seq<byte>, x: nat) {
    && IsFsOp(sb, op) && Allowed(op.writes, 10)
    && Spliced(sb, st0, op.before, i, off, addr[..ChunkStart(|addr|, x)])
    && Spliced(sb, st0, op.after, i, off, addr[..ChunkStart(|addr|, x + 1)])
  }

  /** Each operation begins where the one before it ended. */
  ghost predicate Consecutive(ops: seq<FsOp>) {
    forall x :: 0 < x < |ops| ==>
      ops[x].before == ops[x - 1].after && ops[x].snap == Writes.After(ops[x - 1].snap, ops[x - 1].writes)
  }

  /** File by file is the same as all at once. */
  lemma FilesReplaced(sb: Superblock, st0: Tree, st: Tree, i: nat, c: seq<byte>)
    requires Sound(sb, st0) && Sound(sb, st) && i < |st0.inode| == |st.inode|
    requires HasFile(st, i) && Content(st, i) == c
    requires forall j :: 0 <= j < |st.inode| && j != i ==>
               HasFile(st0, j) && HasFile(st, j) && Content(st, j) == Content(st0, j)
    ensures Replaced(sb, st0, st, i, c)
  {
    hide Sound, HasFile, Content;
    SoundFiles(sb, st0);
  }

  /** Two splices, one behind the other, are one. */
  lemma SplicedMore(sb: Superblock, st0: Tree, st: Tree, st': Tree, i: nat, off: nat, addr: seq<byte>, k: nat, n: nat)
    requires k + n <= |addr| && Spliced(sb, st, st', i, off + k, addr[k..k + n])
    requires if k == 0 then st == st0 else Spliced(sb, st0, st, i, off, addr[..k])
    ensures Spliced(sb, st0, st, i, off, addr[..k]) && Spliced(sb, st0, st', i, off, addr[..k + n])
  {
    hide Sound, HasFile, Content, Splice;
    var c := Files(st0)[i];
    SpliceSplice(c, off, addr[..k], addr[k..k + n]);
    assert addr[..k] + addr[k..k + n] == addr[..k + n];
    if k == 0 {
      assert addr[..k] == [];
      SpliceNothing(c, off);
      assert Files(st0) == Files(st0)[i := c];
    }
  }

  lemma SplicedSize(sb: Superblock, st0: Tree, st: Tree, i: nat, off: nat, src: seq<byte>)
    requires Spliced(sb, st0, st, i, off, src)
    ensures off <= st0.inode[i].size && i < |st.inode| && st.inode[i].size == Max(st0.inode[i].size, off + |src|)
  {
    hide Sound, HasFile, Content, Splice;
    assert |Files(st)[i]| == |Splice(Files(st0)[i], off, src)|;
  }

  lemma SoundSize(sb: Superblock, st: Tree, i: nat)
    requires Sound(sb, st) && i < |st.inode|
    ensures st.inode[i].size <= MAXBYTES
  {
    assert FileOk(st, i);
  }

  lemma ConsecutiveNone()
    ensures Consecutive([])
  {
  }

  lemma ConsecutiveSnoc(ops: seq<FsOp>, op: FsOp)
    requires Consecutive(ops)
    requires |ops| > 0 ==>
               op.before == ops[|ops| - 1].after && op.snap == Writes.After(ops[|ops| - 1].snap, ops[|ops| - 1].writes)
    ensures Consecutive(ops + [op])
  {
  }

  lemma SpliceNothing<T>(c: seq<T>, off: nat)
    requires off <= |c|
    ensures Splice(c, off, []) == c
  {
  }

  class FileSys {
    const sb: Superblock
    var tree: Tree              // bitmap, block contents, in-memory inodes
    var dinode: seq<Inode>      // the inodes on disk
    ghost var snap: seq<Block>           // the disk, as the buffer cache shows it, when the transaction began
    ghost var writes: seq<Writes.Write>  // its log_write() calls so far

    /** The disk as the buffer cache shows it now. */
    ghost function Image(): (d: seq<Block>)
      reads this`snap, this`writes
      ensures |d| == |snap|
    {
      Writes.After(snap, writes)
    }

    /** The blocks handed to log_write() in this transaction. */
    ghost function Logged(): set<int>
      reads this`writes
    {
      Writes.Logged(writes)
    }

    /** The bytes on the disk, with what the transaction has logged, are those of this state. */
    ghost predicate LogCovers()
      reads this
    {
      Represents(sb, Image(), tree.used, tree.block, dinode) && Inside(sb, Logged())
    }

    /** begin_op(): what is on disk now is what a crash must restore. */
    method BeginOp()
      requires LogCovers()
      modifies this`writes, this`snap
      ensures writes == [] && snap == old(Image()) && LogCovers()
    {
      snap := Image();
      writes := [];
    }

    /** log_write() of block a with new contents x. */
    ghost method LogWrite(a: uint32, x: Block)
      requires sb.inodestart <= a < sb.size <= |snap| && Inside(sb, Logged())
      modifies this`writes
      ensures writes == old(writes) + [Writes.Write(a, x)]
      ensures Image() == old(Image())[a := x] && Logged() == old(Logged()) + {a} && Inside(sb, Logged())
    {
      Writes.Snoc(snap, writes, Writes.Write(a, x));
      writes := writes + [Writes.Write(a, x)];
    }

    /** The file system on any disk that represents a consistent state. */
    constructor (sb: Superblock, tree: Tree, ghost image: seq<Block>)
      requires Sound(sb, tree) && Represents(sb, image, tree.used, tree.block, tree.inode)
      ensures this.sb == sb && Valid() && this.tree == tree && writes == [] && snap == Image() == image
    {
      this.sb, this.tree, dinode, snap, writes := sb, tree, tree.inode, image, [];
    }

    /** The state is sound, the disk has every inode as in memory, and the log covers what the
        transaction has changed. */
    ghost predicate Valid()
      reads this
    {
      Sound(sb, tree) && dinode == tree.inode && LogCovers()
    }

    /** The bytes of file i. */
    ghost function File(i: nat): (c: seq<byte>)
      requires Valid() && i < |tree.inode|
      reads this
      ensures FileOk(tree, i) && PtrsInRange(tree, i) && c == Content(tree, i)
    {
      OwnedInRange(sb, tree, i);
      assert FileOk(tree, i);
      Content(tree, i)
    }

    ghost predicate Full()
      reads this
    {
      |tree.used| == sb.size && forall b :: 0 <= b < sb.size ==> tree.used[b]
    }

    /** First fit in the bitmap; None models panic("balloc: out of blocks"). */
    method Balloc() returns (r: Option<nat>)
      requires LogCovers() && |tree.used| == |tree.block| == sb.size && MetaUsed(sb, tree.used)
      modifies this`tree, this`writes
      ensures LogCovers()
      ensures r.None? <==> forall b :: 0 <= b < sb.size ==> old(tree).used[b]
      ensures r.None? ==> tree == old(tree) && writes == old(writes)
      ensures r.Some? ==> r.value < sb.size && !old(tree).used[r.value]
      ensures r.Some? ==> forall b :: 0 <= b < r.value ==> old(tree).used[b]
      ensures r.Some? ==> tree == old(tree).(used := old(tree).used[r.value := true],
                                             block := old(tree).block[r.value := ZeroBlock()])
      ensures r.Some? ==> Logged() == old(Logged()) + {BBlock(sb, r.value), r.value}
    {
      hide Represents, Inside;
      var b := 0;
      while b < sb.size
        invariant b % BPB == 0
        invariant tree == old(tree) && writes == old(writes)
        invariant forall x :: 0 <= x < b && x < sb.size ==> tree.used[x]
      {
        var bi := 0;
        while bi < BPB && b + bi < sb.size
          invariant 0 <= bi <= BPB
          invariant tree == old(tree) && writes == old(writes)
          invariant forall x :: 0 <= x < b + bi && x < sb.size ==> tree.used[x]
        {
          if !tree.used[b + bi] {
            assert (b + bi) / BPB == b / BPB;
            MarkUsed(b + bi);
            Bzero(b + bi);
            return Some(b + bi);
          }
          bi := bi + 1;
        }
        b := b + BPB;
      }
      return None;
    }

    /** Sets a bit and logs its bitmap block. */
    method MarkUsed(b: nat)
      requires LogCovers() && b < sb.size == |tree.used|
      modifies this`tree, this`writes
      ensures LogCovers() && tree == old(tree).(used := old(tree).used[b := true])
      ensures Logged() == old(Logged()) + {BBlock(sb, b)}
    {
      hide Represents;
      InImage(sb, Image(), tree.used, tree.block, dinode);
      BitChanged(sb, Image(), tree.used, tree.block, dinode, b, true);
      tree := tree.(used := tree.used[b := true]);
      LogWrite(BBlock(sb, b), SetBit(Image()[BBlock(sb, b)], b % BPB, true));
    }

    method Bzero(b: nat)
      requires LogCovers() && sb.datastart <= b < sb.size == |tree.block|
      modifies this`tree, this`writes
      ensures LogCovers() && tree == old(tree).(block := old(tree).block[b := ZeroBlock()])
      ensures Logged() == old(Logged()) + {b}
    {
      StoreBlock(b, ZeroBlock());
    }

    /** A changed data block is logged. */
    method StoreBlock(a: nat, x: Block)
      requires LogCovers() && sb.datastart <= a < sb.size == |tree.block|
      modifies this`tree, this`writes
      ensures LogCovers() && tree == old(tree).(block := old(tree).block[a := x]) && Logged() == old(Logged()) + {a}
    {
      hide Represents;
      InImage(sb, Image(), tree.used, tree.block, dinode);
      DataChanged(sb, Image(), tree.used, tree.block, dinode, a, x);
      tree := tree.(block := tree.block[a := x]);
      LogWrite(a, x);
    }

    /** False models panic("freeing free block"). */
    method Bfree(b: nat) returns (ok: bool)
      requires LogCovers() && b < sb.size == |tree.used|
      modifies this`tree, this`writes
      ensures LogCovers()
      ensures ok <==> old(tree).used[b]
      ensures ok ==>
                tree == old(tree).(used := old(tree).used[b := false]) && Logged() == old(Logged()) + {BBlock(sb, b)}
      ensures !ok ==> tree == old(tree) && writes == old(writes)
    {
      hide Represents;
      if !tree.used[b] {
        return false;
      }
      InImage(sb, Image(), tree.used, tree.block, dinode);
      BitChanged(sb, Image(), tree.used, tree.block, dinode, b, false);
      tree := tree.(used := tree.used[b := false]);
      LogWrite(BBlock(sb, b), SetBit(Image()[BBlock(sb, b)], b % BPB, false));
      return true;
    }

    /** Copies the in-memory inode to its disk block. */
    method Iupdate(i: nat)
      requires LogCovers() && i < |tree.inode| == |dinode|
      requires tree.inode[i].size < TWO32 && |tree.inode[i].addrs| == NDIRECT + 1
      modifies this`dinode, this`writes
      ensures LogCovers()
      ensures dinode == old(dinode)[i := tree.inode[i]] && Logged() == old(Logged()) + {IBlock(sb, i)}
      ensures old(writes) <= writes && |writes| == |old(writes)| + 1
    {
      hide Represents;
      InImage(sb, Image(), tree.used, tree.block, dinode);
      InodeChanged(sb, Image(), tree.used, tree.block, dinode, i, tree.inode[i]);
      dinode := dinode[i := tree.inode[i]];
      LogWrite(IBlock(sb, i), PutDinode(Image()[IBlock(sb, i)], i % IPB, tree.inode[i]));
    }

    /** The slot s <= NDIRECT of inode i, filled with a fresh block if it was empty. */
    method SlotOrAlloc(i: nat, s: nat) returns (r: Option<nat>)
      requires LogCovers()
      requires Owned(sb, tree) && i < |tree.inode| && s <= NDIRECT
      modifies this`tree, this`writes
      ensures LogCovers()
      ensures r.None? ==> Ptr(old(tree), i, s) == 0 && Full() && |Free(old(tree).used)| == 0
      ensures r.Some? ==> |Free(tree.used)| + (if Ptr(old(tree), i, s) == 0 then 1 else 0) == |Free(old(tree).used)|
      ensures r.Some? ==> Extends(sb, old(tree), tree, i)
      ensures r.Some? ==> r.value == Ptr(tree, i, s) != 0
      ensures r.Some? ==> forall t :: 0 <= t < NSLOTS && t != s ==> Ptr(tree, i, t) == Ptr(old(tree), i, t)
      ensures r.Some? && Ptr(old(tree), i, s) == 0 ==>
                Logged() == old(Logged()) + {BBlock(sb, r.value), r.value}
      ensures r.Some? && Ptr(old(tree), i, s) != 0 ==> tree == old(tree) && writes == old(writes)
    {
      hide Extends, Represents, Inside, Ptr, Owned, Free;
      ghost var st := tree;
      DirectFacts(sb, st, i, s);
      OwnedMeta(sb, st);
      var addr := tree.inode[i].addrs[s];
      if addr != 0 {
        ExtendsReflexive(sb, st, i);
        return Some(addr);
      }
      r := Balloc();
      if r.None? {
        NoneFree(st.used);
      } else {
        FreeTaken(st.used, r.value);
        DirectExtends(sb, st, i, s, r.value);
        tree := tree.(inode := tree.inode[i := tree.inode[i].(addrs := tree.inode[i].addrs[s := r.value])]);
        tree := tree.(owner := tree.owner[r.value := (i, s)]);
        assert tree == WithDirect(st, i, s, r.value);
        DataNotZero(sb, st, r.value);
      }
    }

    /** Entry k of inode i's indirect block, filled with a fresh block if it was empty. */
    method EntryOrAlloc(i: nat, k: nat) returns (r: Option<nat>)
      requires LogCovers()
      requires Owned(sb, tree) && i < |tree.inode| && k < NINDIRECT && Ptr(tree, i, NDIRECT) != 0
      modifies this`tree, this`writes
      ensures LogCovers()
      ensures r.None? ==> Ptr(old(tree), i, NDIRECT + 1 + k) == 0 && Full() && |Free(old(tree).used)| == 0
      ensures r.Some? ==>
                |Free(tree.used)| + (if Ptr(old(tree), i, NDIRECT + 1 + k) == 0 then 1 else 0) == |Free(old(tree).used)|
      ensures r.Some? ==> Extends(sb, old(tree), tree, i)
      ensures r.Some? ==> r.value == Ptr(tree, i, NDIRECT + 1 + k) != 0
      ensures r.Some? ==> forall t :: 0 <= t < NSLOTS && t != NDIRECT + 1 + k ==>
                Ptr(tree, i, t) == Ptr(old(tree), i, t)
      ensures r.Some? && Ptr(old(tree), i, NDIRECT + 1 + k) == 0 ==>
                Logged() == old(Logged()) + {BBlock(sb, r.value), r.value} + {Ptr(tree, i, NDIRECT)}
      ensures r.Some? && Ptr(old(tree), i, NDIRECT + 1 + k) != 0 ==> tree == old(tree) && writes == old(writes)
    {
      hide Extends, Represents, Inside, Ptr, Owned, Free;
      ghost var st := tree;
      IndirectFacts(sb, st, i, k);
      OwnedMeta(sb, st);
      var ind := tree.inode[i].addrs[NDIRECT];
      var addr := Word(tree.block[ind], k);
      if addr != 0 {
        ExtendsReflexive(sb, st, i);
        return Some(addr);
      }
      r := Balloc();
      if r.None? {
        NoneFree(st.used);
      } else {
        FreeTaken(st.used, r.value);
        IndirectExtends(sb, st, i, k, r.value);
        StoreBlock(ind, PutWord(tree.block[ind], k, r.value));
        tree := tree.(owner := tree.owner[r.value := (i, NDIRECT + 1 + k)]);
        assert tree == WithIndirect(st, i, k, r.value);
        DataNotZero(sb, st, r.value);
      }
    }

    /** bmap() beyond the direct blocks: entry k of the indirect block, which is itself
        allocated on first use. */
    method BmapIndirect(i: nat, k: nat) returns (r: Option<nat>, ghost bits: set<int>)
      requires LogCovers()
      requires Owned(sb, tree) && i < |tree.inode| && k < NINDIRECT
      modifies this`tree, this`writes
      ensures LogCovers()
      ensures r.None? ==> Full() && Ptr(old(tree), i, NDIRECT + 1 + k) == 0
      ensures r.None? ==> Missing(old(tree), i, NDIRECT + k) > |Free(old(tree).used)|
      ensures r.Some? ==> |Free(tree.used)| + Missing(old(tree), i, NDIRECT + k) == |Free(old(tree).used)|
      ensures r.Some? ==> Extends(sb, old(tree), tree, i) && Ptr(tree, i, NDIRECT) != 0
      ensures r.Some? ==> r.value == Ptr(tree, i, NDIRECT + 1 + k) != 0
      ensures r.Some? ==> forall t :: 0 <= t < NSLOTS && t != NDIRECT + 1 + k && t != NDIRECT ==>
                Ptr(tree, i, t) == Ptr(old(tree), i, t)
      ensures r.Some? && Ptr(old(tree), i, NDIRECT + 1 + k) != 0 ==> tree == old(tree) && writes == old(writes)
      ensures r.Some? ==>
                && |bits| <= (if Ptr(old(tree), i, NDIRECT + 1 + k) == 0 then 1 else 0)
                             + (if Ptr(old(tree), i, NDIRECT) == 0 then 1 else 0)
                && Logged() <= old(Logged()) + bits + {r.value} + {Ptr(tree, i, NDIRECT)}
    {
      hide Ptr, HasInode, Sizes, OwnerOk, Owned, Extends, Represents, Inside, Free;
      ghost var st0 := tree;
      EntryNeedsIndirect(sb, st0, i, k);
      bits := {};
      r := SlotOrAlloc(i, NDIRECT);
      if r.None? {
        return;
      }
      ghost var st1 := tree;
      bits := if Ptr(st0, i, NDIRECT) == 0 then {BBlock(sb, r.value)} else {};
      ExtendsOwned(sb, st0, st1, i);
      r := EntryOrAlloc(i, k);
      if r.Some? {
        ExtendsTransitive(sb, st0, st1, tree, i);
        if Ptr(st0, i, NDIRECT + 1 + k) == 0 {
          bits := bits + {BBlock(sb, r.value)};
        }
      }
    }

    /** The disk block of file block bn, allocated if necessary. None models a panic: bn
        out of range, or the disk full. bits is the set of bitmap blocks it logged. */
    method Bmap(i: nat, bn: nat) returns (r: Option<nat>, ghost bits: set<int>)
      requires LogCovers()
      requires Owned(sb, tree) && i < |tree.inode|
      modifies this`tree, this`writes
      ensures LogCovers()
      ensures r.None? ==> bn >= MAXFILE || (Full() && Ptr(old(tree), i, Slot(bn)) == 0)
      ensures r.None? <==> bn >= MAXFILE || Missing(old(tree), i, bn) > |Free(old(tree).used)|
      ensures r.Some? ==> |Free(tree.used)| + Missing(old(tree), i, bn) == |Free(old(tree).used)|
      ensures r.Some? ==> bn < MAXFILE && Extends(sb, old(tree), tree, i)
      ensures r.Some? ==> r.value == Ptr(tree, i, Slot(bn)) != 0
      ensures r.Some? && bn >= NDIRECT ==> Ptr(tree, i, NDIRECT) != 0
      ensures r.Some? ==> forall t :: 0 <= t < NSLOTS && t != Slot(bn) && !(t == NDIRECT <= bn) ==>
                Ptr(tree, i, t) == Ptr(old(tree), i, t)
      ensures r.Some? && Ptr(old(tree), i, Slot(bn)) != 0 ==> tree == old(tree) && writes == old(writes)
      ensures r.Some? ==>
                && |bits| <= (if Ptr(old(tree), i, Slot(bn)) == 0 then 1 else 0)
                             + (if bn >= NDIRECT && Ptr(old(tree), i, NDIRECT) == 0 then 1 else 0)
                && Logged() <= old(Logged()) + bits + {r.value} + (if bn >= NDIRECT then {Ptr(tree, i, NDIRECT)}
                    else {})
    {
      hide Ptr, Extends, Represents, Inside, Free;
      if bn < NDIRECT {
        ghost var st0 := tree;
        r := SlotOrAlloc(i, bn);
        bits := if r.Some? && Ptr(st0, i, bn) == 0 then {BBlock(sb, r.value)} else {};
      } else if bn - NDIRECT < NINDIRECT {
        r, bits := BmapIndirect(i, bn - NDIRECT);
      } else {
        r, bits := None, {};
      }
    }

    /** Reads n bytes at off, clamped to the file; off + n may wrap around 32 bits. With no
        holes below the size, nothing is allocated or logged. */
    method Readi(i: nat, off: uint32, n: uint32) returns (r: Outcome<seq<byte>>)
      requires Valid() && i < |tree.inode|
      modifies this`tree, this`writes
      ensures tree == old(tree) && writes == old(writes)
      ensures !r.Panic?
      ensures r.Failed? <==> off > tree.inode[i].size || off + n >= TWO32
      ensures r.Done? ==>
                off + |r.value| == (if off + n <= tree.inode[i].size then off + n else tree.inode[i].size)
                && r.value == old(File(i))[off..off + |r.value|]
    {
      hide Owned, Mapped, Content, Represents, Inside;
      assert FileOk(tree, i);
      var size := tree.inode[i].size;
      if off > size || (off + n) % TWO32 < off {
        return Failed;
      }
      OwnedInRange(sb, tree, i);
      var dst := ReadBlocks(i, off, if off + n > size then size - off else n);
      return Done(dst);
    }

    /** bmap() on a mapped block only looks it up. */
    method BmapMapped(i: nat, bn: nat) returns (a: nat)
      requires LogCovers()
      requires Owned(sb, tree) && i < |tree.inode| && PtrsInRange(tree, i)
      requires bn < MAXFILE && Ptr(tree, i, Slot(bn)) != 0
      modifies this`tree, this`writes
      ensures LogCovers()
      ensures tree == old(tree) && writes == old(writes)
      ensures a == Ptr(tree, i, Slot(bn)) < |tree.block|
    {
      hide Ptr, Extends, Owned, Represents, Inside;
      var r, _ := Bmap(i, bn);
      a := r.value;
    }

    /** readi()'s loop. */
    method ReadBlocks(i: nat, off: nat, n: nat) returns (dst: seq<byte>)
      requires LogCovers()
      requires Owned(sb, tree) && i < |tree.inode| && FileOk(tree, i) && PtrsInRange(tree, i)
      requires off + n <= tree.inode[i].size <= MAXBYTES
      modifies this`tree, this`writes
      ensures LogCovers()
      ensures tree == old(tree) && writes == old(writes)
      ensures dst == Content(tree, i)[off..off + n]
    {
      hide Ptr, Owned, Content, FileOk, PtrsInRange, HasInode, Represents, Inside;
      ghost var st := tree;
      ghost var c := Content(st, i);
      var tot := 0;
      dst := [];
      while tot < n
        invariant tot <= n && tree == st && writes == old(writes) && LogCovers()
        invariant dst == c[off..off + tot]
      {
        var chunk := ReadOne(i, off + tot, n - tot);
        SliceAppend(c, off, off + tot, off + tot + |chunk|);
        dst := dst + chunk;
        tot := tot + |chunk|;
      }
    }

    /** One pass of readi()'s loop: the bytes from pos to the end of its block, at most n. */
    method ReadOne(i: nat, pos: nat, n: nat) returns (chunk: seq<byte>)
      requires LogCovers()
      requires Owned(sb, tree) && i < |tree.inode| && FileOk(tree, i) && PtrsInRange(tree, i)
      requires 0 < n && pos + n <= tree.inode[i].size <= MAXBYTES
      modifies this`tree, this`writes
      ensures LogCovers()
      ensures tree == old(tree) && writes == old(writes)
      ensures 0 < |chunk| <= n
      ensures chunk == Content(tree, i)[pos..pos + |chunk|]
    {
      hide Ptr, Owned, Content, FileOk, PtrsInRange, HasInode, Represents, Inside;
      MappedBelowSize(tree, i, pos);
      var a := BmapMapped(i, pos / BSIZE);
      var m := if n < BSIZE - pos % BSIZE then n else BSIZE - pos % BSIZE;
      ContentChunk(tree, i, pos, m);
      chunk := tree.block[a].data[pos % BSIZE..pos % BSIZE + m];
    }

    /** Writes src at off; off + n may wrap around 32 bits. Success means the file is spliced,
        no other file changed, and whatever bmap() put into the in-memory inode is on disk. It
        runs out of blocks exactly if the range lacks more blocks than are free. */
    method Writei(i: nat, src: seq<byte>, off: uint32) returns (r: Outcome<nat>)
      requires Valid() && i < |tree.inode| && |src| < TWO32
      modifies this`tree, this`dinode, this`writes
      ensures r.Failed? <==> off > old(tree).inode[i].size || off + |src| > MAXBYTES
      ensures r.Failed? ==> tree == old(tree) && dinode == old(dinode) && writes == old(writes)
      ensures r.Panic? <==> !r.Failed? && |Lacks(old(tree), i, off, |src|)| > |Free(old(tree).used)|
      ensures r.Done? ==> Filled(old(tree), tree, i, off, |src|)
      ensures r.Panic? ==> Full()
      ensures r.Done? ==> r.value == |src| && Valid() && |tree.inode| == |old(tree).inode|
      ensures r.Done? ==> File(i) == Splice(old(File(i)), off, src)
      ensures r.Done? ==> forall j :: 0 <= j < |tree.inode| && j != i ==> File(j) == old(File(j))
      ensures r.Done? ==> Spliced(sb, old(tree), tree, i, off, src)
      ensures r.Done? && |src| <= 1536 && old(writes) == [] ==> Allowed(writes, 10)
    {
      hide Owned, Mapped, Written, LogBound, Content, Splice, Full, Represents, Inside, Filled, Lacks, Free;
      ghost var st0 := tree;
      var size, n := tree.inode[i].size, |src|;
      assert FileOk(st0, i);
      if off > size || (off + n) % TWO32 < off {
        return Failed;
      }
      if off + n > MAXBYTES {
        return Failed;
      }
      var ok; ghost var d, b;
      ok, d, b := WriteBlocks(i, off, src);
      if !ok {
        return Panic;
      }
      ghost var st := tree;
      FinishWrite(sb, st0, st, i, off, src);
      FilledFits(st0, st, i, off, n);
      if n <= 1536 && old(writes) == [] {
        ChunkLogs(st0, st, i, off, n, old(Logged()), Logged(), d, b);
      }
      ghost var before := writes;
      if n > 0 && off + n > size {
        tree := tree.(inode := tree.inode[i := tree.inode[i].(size := off + n)]);
        assert FileOk(tree, i);
        Iupdate(i);
      }
      assert tree == WithSize(st, i, Max(size, off + n));
      FinishSpliced(sb, st0, st, i, off, src);
      SizeKeepsFilled(st0, st, i, off, n, Max(size, off + n));
      if n <= 1536 && old(writes) == [] {
        Writes.LastCall(before, writes, 10);
      }
      return Done(n);
    }

    /** Discards the contents of inode i: exactly its own blocks are freed, no block is freed
        twice (false, modelling panic("freeing free block"), is impossible). */
    method Itrunc(i: nat) returns (ok: bool)
      requires Valid() && i < |tree.inode|
      modifies this`tree, this`dinode, this`writes
      ensures ok && Valid() && |tree.inode| == |old(tree).inode|
      ensures Replaced(sb, old(tree), tree, i, [])
      ensures |tree.used| == |old(tree).used| == sb.size
      ensures forall b :: 0 <= b < sb.size ==> (tree.used[b] <==> old(tree).used[b] && !Owns(old(tree), i, b))
      ensures Logged() == old(Logged()) + OwnBits(sb, old(tree), i) + {IBlock(sb, i)}
      ensures old(writes) == [] ==> forall n: nat :: Writes.Within(writes, n) <==> |OwnBits(sb, old(tree), i)| < n
      ensures sb.size <= 9 * BPB && old(writes) == [] ==> Allowed(writes, 10)
    {
      hide Owned, FileOk, Truncating, Ptr, Owns, Represents, Inside, FreedBits, OwnBits, Allowed, Replaced;
      ghost var st0, log0 := tree, Logged();
      NothingFreed(sb, st0, i);
      FreeDirect(st0, log0, i);
      FreeIndirect(st0, log0, i);
      FreedBitsAll(sb, st0, i);
      ghost var st := tree;
      TruncatingOwned(sb, st0, st, i, NSLOTS);
      EmptiedSound(sb, st0, st, i);
      tree := tree.(inode := tree.inode[i := tree.inode[i].(size := 0)],
                    owner := map b | b in tree.owner && tree.owner[b].0 != i :: tree.owner[b]);
      assert tree == Emptied(st, i);
      ghost var before := writes;
      Iupdate(i);
      if old(writes) == [] {
        TruncateLogs(sb, st0, i, before, writes);
      }
      ok := true;
    }

    /** file.c: a write is cut into chunks, each its own operation; ops collects them. Stops at
        the first chunk that does not fit, and runs out of blocks exactly if the bytes up to there
        lack more blocks than are free. */
    method Filewrite(i: nat, addr: seq<byte>, off: uint32) returns (r: Outcome<nat>, newOff: nat, ghost ops: seq<FsOp>)
      requires Valid() && i < |tree.inode| && |addr| < TWO32
      modifies this`tree, this`dinode, this`writes, this`snap
      ensures Consecutive(ops) && forall x :: 0 <= x < |ops| ==> ChunkOp(sb, old(tree), ops[x], i, off, addr, x)
      ensures |ops| > 0 ==> ops[0].before == old(tree) && ops[0].snap == old(Image())
      ensures !r.Panic? && |ops| > 0 ==> tree == ops[|ops| - 1].after
      ensures !r.Panic? ==> Valid() && newOff == off + ChunkStart(|addr|, |ops|)
      ensures !r.Panic? ==> (r.Done? <==> addr == [] || (off <= old(tree).inode[i].size && off + |addr| <= MAXBYTES))
      ensures r.Done? ==> r.value == |addr| == newOff - off
      ensures !r.Panic? && newOff == off ==> tree == old(tree)
      ensures !r.Panic? && newOff > off ==> Spliced(sb, old(tree), tree, i, off, addr[..newOff - off])
      ensures !r.Panic? ==> newOff == off + Reach(old(tree).inode[i].size, off, |addr|)
      ensures var n := Reach(old(tree).inode[i].size, off, |addr|);
              r.Panic? <==> |Lacks(old(tree), i, off, n)| > |Free(old(tree).used)|
      ensures r.Panic? ==> Full()
    {
      hide Owned, FileOk, Splice, Full, Represents, Inside, Spliced, IsFsOp, Allowed, Sound, Filled, Lacks,
           Free, Consecutive, ChunkOp, ChunkStart, Reach;
      ghost var size, reach := tree.inode[i].size, Reach(tree.inode[i].size, off, |addr|);
      ConsecutiveNone();
      SoundSize(sb, tree, i);
      ChunkZero(|addr|, size, off);
      FilledNothing(tree, i, off);
      var k := 0;
      newOff, ops := off, [];
      while k < |addr|
        invariant k == ChunkStart(|addr|, |ops|) && newOff == off + k
        invariant Valid() && |tree.inode| == |old(tree).inode|
        invariant k == 0 ==> ops == [] && tree == old(tree) && Image() == old(Image())
        invariant k > 0 ==> |ops| > 0 && newOff <= MAXBYTES && Spliced(sb, old(tree), tree, i, off, addr[..k])
        invariant |ops| > 0 ==>
                    tree == ops[|ops| - 1].after && Image() == Writes.After(ops[|ops| - 1].snap, ops[|ops| - 1].writes)
        invariant |ops| > 0 ==> ops[0].before == old(tree) && ops[0].snap == old(Image())
        invariant Consecutive(ops) && forall x :: 0 <= x < |ops| ==> ChunkOp(sb, old(tree), ops[x], i, off, addr, x)
        invariant Filled(old(tree), tree, i, off, k) && k <= reach <= |addr| && (k > 0 ==> off <= size)
      {
        if k > 0 {
          SplicedSize(sb, old(tree), tree, i, off, addr[..k]);
        }
        var w, n1; ghost var op;
        w, n1, op := WriteChunkAt(i, addr, off, k, old(tree), |ops|);
        ReachStep(|addr|, |ops|, size, off, n1);
        if !w.Done? {
          if w.Panic? {
            LacksGrows(old(tree), i, off, k + n1, reach);
          } else {
            FilledFits(old(tree), tree, i, off, k);
          }
          r := if w.Panic? then Panic else Failed;
          return;
        }
        ConsecutiveSnoc(ops, op);
        ops := ops + [op];
        newOff := newOff + n1;
        k := k + n1;
      }
      if k > 0 {
        SplicedSize(sb, old(tree), tree, i, off, addr[..k]);
      }
      FilledFits(old(tree), tree, i, off, k);
      r := Done(|addr|);
    }

    /** One pass of filewrite()'s loop: a transaction of at most 1536 bytes. */
    method WriteChunkAt(i: nat, addr: seq<byte>, off: uint32, k: nat, ghost st0: Tree, ghost x: nat)
      returns (w: Outcome<nat>, n1: nat, ghost op: FsOp)
      requires Valid() && i < |tree.inode| && k == ChunkStart(|addr|, x) < |addr| < TWO32
      requires k == 0 ==> tree == st0
      requires k > 0 ==> off + k <= MAXBYTES && Spliced(sb, st0, tree, i, off, addr[..k])
      requires Filled(st0, tree, i, off, k)
      modifies this`tree, this`dinode, this`writes, this`snap
      ensures k + n1 == ChunkStart(|addr|, x + 1) && n1 > 0
      ensures w.Failed? <==> off + k > old(tree).inode[i].size || off + k + n1 > MAXBYTES
      ensures w.Failed? ==> Valid() && tree == old(tree) && Image() == old(Image())
      ensures w.Panic? ==> Full()
      ensures w.Panic? <==> !w.Failed? && |Lacks(st0, i, off, k + n1)| > |Free(st0.used)|
      ensures w.Done? ==> Filled(st0, tree, i, off, k + n1) && Spliced(sb, st0, tree, i, off, addr[..k + n1])
      ensures w.Done? ==> Valid() && |tree.inode| == |old(tree).inode|
      ensures w.Done? ==> op == FsOp(old(Image()), old(tree), writes, tree) && Image() == Writes.After(op.snap, writes)
      ensures w.Done? ==> ChunkOp(sb, st0, op, i, off, addr, x)
    {
      hide Owned, FileOk, Splice, Full, Represents, Inside, Spliced, Allowed, Sound, Filled, Lacks, Free;
      n1 := if |addr| - k > 1536 then 1536 else |addr| - k;
      ghost var st := tree;
      BeginOp();
      w := Writei(i, addr[k..k + n1], off + k);
      op := FsOp(snap, st, writes, tree);
      ChunkLacks(st0, st, i, off, k, n1);
      if w.Done? {
        FilledSum(st0, st, tree, i, off, k, n1);
        SplicedMore(sb, st0, st, tree, i, off, addr, k, n1);
      }
    }

    /** Frees the block addr found in slot s, the next in order. */
    method FreeSlot(ghost st0: Tree, i: nat, ghost s: nat, addr: uint32)
      requires LogCovers()
      requires s < NSLOTS && Truncating(sb, st0, tree, i, Order(s)) && addr == Ptr(st0, i, s)
      modifies this`tree, this`writes
      ensures LogCovers()
      ensures Truncating(sb, st0, tree, i, Order(s) + 1) && tree.inode == old(tree).inode
      ensures Logged() == old(Logged()) + if addr == 0 then {} else {BBlock(sb, addr)}
    {
      hide Truncating, Ptr, Order, Represents, Inside;
      ghost var st := tree;
      TruncatingOwned(sb, st0, st, i, Order(s));
      if addr != 0 {
        NextIsUsed(sb, st0, st, i, s);
        var ok := Bfree(addr);
        assert ok;
      }
      FreeNext(sb, st0, st, i, s, tree);
    }

    /** itrunc()'s loop over the direct blocks. */
    method FreeDirect(ghost st0: Tree, ghost log0: set<int>, i: nat)
      requires LogCovers()
      requires Truncating(sb, st0, tree, i, 0) && tree == st0 && Logged() == log0
      modifies this`tree, this`writes
      ensures LogCovers()
      ensures Truncating(sb, st0, tree, i, NDIRECT) && |tree.inode| == |st0.inode|
      ensures Cleared(st0, tree, i, NDIRECT) && Logged() == log0 + FreedBits(sb, st0, i, NDIRECT)
    {
      hide Truncating, Ptr, Represents, Inside, FreedBits;
      TruncatingOwned(sb, st0, tree, i, 0);
      NothingFreed(sb, st0, i);
      DirectPtrIsAddr(sb, st0, i, 0);
      for s := 0 to NDIRECT
        invariant Truncating(sb, st0, tree, i, s) && |tree.inode| == |st0.inode| && LogCovers()
        invariant Cleared(st0, tree, i, s) && Logged() == log0 + FreedBits(sb, st0, i, s)
      {
        DirectPtrIsAddr(sb, st0, i, s);
        FreeSlot(st0, i, s, tree.inode[i].addrs[s]);
        FreedBitsNext(sb, st0, i, s);
        ghost var st := tree;
        tree := tree.(inode := tree.inode[i := tree.inode[i].(addrs := tree.inode[i].addrs[s := 0])]);
        AddrsDoNotMatter(sb, st0, st, tree, i, s + 1);
      }
    }

    /** itrunc()'s loop over the indirect block, then the indirect block itself. */
    method FreeIndirect(ghost st0: Tree, ghost log0: set<int>, i: nat)
      requires LogCovers()
      requires Truncating(sb, st0, tree, i, NDIRECT) && |tree.inode| == |st0.inode|
      requires Cleared(st0, tree, i, NDIRECT) && Logged() == log0 + FreedBits(sb, st0, i, NDIRECT)
      modifies this`tree, this`writes
      ensures LogCovers()
      ensures Truncating(sb, st0, tree, i, NSLOTS) && |tree.inode| == |st0.inode| && i < |tree.inode|
      ensures tree.inode[i].addrs == seq(NDIRECT + 1, _ => 0) && Logged() == log0 + FreedBits(sb, st0, i, NSLOTS)
    {
      hide Truncating, Ptr, Represents, Inside, FreedBits;
      TruncatingOwned(sb, st0, tree, i, NDIRECT);
      DirectPtrIsAddr(sb, st0, i, NDIRECT);
      var ind := tree.inode[i].addrs[NDIRECT];
      if ind == 0 {
        NoIndirect(sb, st0, tree, i);
        return;
      }
      IndirectInRange(sb, st0, i);
      for j := 0 to NINDIRECT
        invariant Truncating(sb, st0, tree, i, NDIRECT + j) && tree.inode == old(tree).inode && LogCovers()
        invariant Logged() == log0 + FreedBits(sb, st0, i, NDIRECT + j)
      {
        TruncatingOwned(sb, st0, tree, i, NDIRECT + j);
        EntryIsWord(st0, i, j);
        FreeSlot(st0, i, NDIRECT + 1 + j, Word(tree.block[ind], j));
        FreedBitsNext(sb, st0, i, NDIRECT + 1 + j);
      }
      FreeSlot(st0, i, NDIRECT, ind);
      FreedBitsNext(sb, st0, i, NDIRECT);
      ghost var st := tree;
      tree := tree.(inode := tree.inode[i := tree.inode[i].(addrs := tree.inode[i].addrs[NDIRECT := 0])]);
      AddrsDoNotMatter(sb, st0, st, tree, i, NSLOTS);
    }

    /** writei()'s loop; false models a panic inside bmap(). d collects the data blocks it
        logged and b the bitmap blocks. */
    method WriteBlocks(i: nat, off: nat, src: seq<byte>) returns (ok: bool, ghost d: set<int>, ghost b: set<int>)
      requires LogCovers()
      requires Owned(sb, tree) && i < |tree.inode| && FileOk(tree, i)
      requires off <= tree.inode[i].size && off + |src| <= MAXBYTES
      modifies this`tree, this`writes
      ensures LogCovers()
      ensures !ok ==> Full() && |Lacks(old(tree), i, off, |src|)| > |Free(old(tree).used)|
      ensures ok ==> InProgress(sb, old(tree), tree, i, off, |src|, src, old(Logged()), Logged(), d, b)
    {
      hide InProgress, Full, Lacks, Free, Owned, FileOk, Represents, Inside;
      ghost var st0, log0 := tree, Logged();
      d, b := {}, {};
      StartWrite(sb, st0, i, off, src, log0);
      var tot := 0;
      while tot < |src|
        invariant tot <= |src|
        invariant InProgress(sb, st0, tree, i, off, tot, src, log0, Logged(), d, b) && LogCovers()
      {
        var m;
        ok, m, d, b := WriteOne(st0, log0, i, off, tot, src, d, b);
        if !ok {
          return;
        }
        tot := tot + m;
      }
      ok := true;
    }

    /** One pass of writei()'s loop. */
    method WriteOne(ghost st0: Tree, ghost log0: set<int>, i: nat, off: nat, tot: nat, src: seq<byte>,
                    ghost d: set<int>, ghost b: set<int>)
      returns (ok: bool, m: nat, ghost d': set<int>, ghost b': set<int>)
      requires LogCovers()
      requires InProgress(sb, st0, tree, i, off, tot, src, log0, Logged(), d, b) && tot < |src|
      modifies this`tree, this`writes
      ensures LogCovers()
      ensures !ok ==> Full() && |Lacks(st0, i, off, |src|)| > |Free(st0.used)|
      ensures ok ==> 0 < m && tot + m <= |src|
      ensures ok ==> InProgress(sb, st0, tree, i, off, tot + m, src, log0, Logged(), d', b')
    {
      hide Written, LogBound, BmapLogs, Full, Represents, Inside, Filled, Free, Lacks, Missing;
      ghost var a, bits;
      ghost var st, log := tree, Logged();
      ok, m, a, bits := WriteThrough(st0, i, off, tot, src);
      d', b' := d + {a}, b + bits;
      if !ok {
        FilledShort(st0, st, i, off, tot, m, |src|);
      } else {
        LogBoundStep(sb, st0, st, tree, i, off, tot, src, m, log0, log, Logged(), d, b, a, bits);
      }
    }

    /** bmap(), copy as much of src as the block takes, log_write(). */
    method WriteThrough(ghost st0: Tree, i: nat, off: nat, tot: nat, src: seq<byte>)
      returns (ok: bool, m: nat, ghost a: nat, ghost bits: set<int>)
      requires LogCovers()
      requires Written(sb, st0, tree, i, off, tot, src) && tot < |src|
      modifies this`tree, this`writes
      ensures LogCovers()
      ensures 0 < m && tot + m <= |src| && (off + tot) % BSIZE + m <= BSIZE && (off + tot) / BSIZE < MAXFILE
      ensures !ok ==> Full() && Missing(old(tree), i, (off + tot) / BSIZE) > |Free(old(tree).used)|
      ensures ok && Filled(st0, old(tree), i, off, tot) && (tot == 0 || (off + tot) % BSIZE == 0) ==>
                Filled(st0, tree, i, off, tot + m)
      ensures ok ==> tot + m == |src| || (off + tot + m) % BSIZE == 0
      ensures ok ==> Written(sb, st0, tree, i, off, tot + m, src)
      ensures ok ==> BmapLogs(old(tree), tree, i, (off + tot) / BSIZE, old(Logged()), Logged(), a, bits)
    {
      hide Ptr, Extends, Owned, Written, Mapped, BmapLogs, Full, Patched, BlocksFor, Represents, Inside, Filled, Free,
           Missing;
      ghost var st := tree;
      WrittenReady(sb, st0, st, i, off, tot, src);
      var bn, at := (off + tot) / BSIZE, (off + tot) % BSIZE;
      var r;
      r, bits := Bmap(i, bn);
      m := if |src| - tot < BSIZE - at then |src| - tot else BSIZE - at;
      a := if r.Some? then r.value else 0;
      if r.None? {
        return false, m, a, bits;
      }
      WriteStep(sb, st0, st, tree, i, off, tot, src, m);
      StepLogs(sb, st, tree, i, bn, r.value, at, src[tot..tot + m], bits, old(Logged()), Logged());
      StepFills(sb, st0, st, tree, i, off, tot, src, m);
      StoreBytes(r.value, at, src[tot..tot + m]);
      ok := true;
    }

    /** memmove() into the buffer, then log_write(). */
    method StoreBytes(a: nat, at: nat, src: seq<byte>)
      requires LogCovers() && sb.datastart <= a < sb.size == |tree.block| && at + |src| <= BSIZE
      modifies this`tree, this`writes
      ensures LogCovers() && tree == Patched(old(tree), a, at, src) && Logged() == old(Logged()) + {a}
    {
      hide Represents;
      StoreBlock(a, Patch(tree.block[a], at, src));
    }
  }

  ghost function Patched(st: Tree, a: nat, at: nat, src: seq<byte>): Tree
    requires a < |st.block| && at + |src| <= BSIZE
  {
    st.(block := st.block[a := Patch(st.block[a], at, src)])
  }

  lemma ExtendsKeepsPtr(sb: Superblock, st: Tree, st1: Tree, i: nat, s: nat)
    requires Extends(sb, st, st1, i) && s < NSLOTS && Ptr(st, i, s) != 0
    ensures Ptr(st1, i, s) == Ptr(st, i, s)
  {
  }

  /** The values behind WriteOne: st1 is the tree after bmap() returned block a. */
  lemma WriteStep(sb: Superblock, st0: Tree, st: Tree, st1: Tree, i: nat, off: nat, tot: nat, src: seq<byte>, m: nat)
    requires Written(sb, st0, st, i, off, tot, src) && Extends(sb, st, st1, i)
    requires 0 < m && tot + m <= |src| && (off + tot) % BSIZE + m <= BSIZE && (off + tot) / BSIZE < MAXFILE
    requires Ptr(st1, i, Slot((off + tot) / BSIZE)) != 0
    requires (off + tot) / BSIZE >= NDIRECT ==> Ptr(st1, i, NDIRECT) != 0
    requires forall t :: 0 <= t < NSLOTS && t != Slot((off + tot) / BSIZE) && !(t == NDIRECT <= (off + tot) / BSIZE) ==>
               Ptr(st1, i, t) == Ptr(st, i, t)
    ensures var a := Ptr(st1, i, Slot((off + tot) / BSIZE));
            && sb.datastart <= a < sb.size == |st1.block|
            && Written(sb, st0, Patched(st1, a, (off + tot) % BSIZE, src[tot..tot + m]), i, off, tot + m, src)
  {
    hide Ptr, Extends, Owned, Written, Mapped, BlocksFor, PtrsInRange;
    var bn := (off + tot) / BSIZE;
    WrittenReady(sb, st0, st, i, off, tot, src);
    ExtendsOwned(sb, st, st1, i);
    MappedOneMore(st, st1, i, Max(BlocksFor(st0.inode[i].size), BlocksFor(off + tot)), bn);
    WriteChunk(sb, st0, st, st1, i, off, tot, src, m);
    PtrIsData(sb, st1, i, Slot(bn));
  }

  /** What it has logged: st1 is the tree after bmap() returned block a. */
  lemma StepLogs(sb: Superblock, st: Tree, st1: Tree, i: nat, bn: nat, a: nat, at: nat, src: seq<byte>,
                 bits: set<int>, log0: set<int>, log1: set<int>)
    requires Extends(sb, st, st1, i) && bn < MAXFILE && a < |st1.block| && at + |src| <= BSIZE
    requires bn >= NDIRECT ==> Ptr(st1, i, NDIRECT) != 0
    requires bn < NDIRECT ==> Ptr(st1, i, NDIRECT) == Ptr(st, i, NDIRECT)
    requires |bits| <= (if Ptr(st, i, Slot(bn)) == 0 then 1 else 0)
                       + (if bn >= NDIRECT && Ptr(st, i, NDIRECT) == 0 then 1 else 0)
    requires log1 <= log0 + bits + {a} + (if bn >= NDIRECT then {Ptr(st1, i, NDIRECT)} else {})
    ensures BmapLogs(st, Patched(st1, a, at, src), i, bn, log0, log1 + {a}, a, bits)
  {
    hide Ptr, Extends, Owned, Patch;
    ExtendsOwned(sb, st, st1, i);
    PatchedIndex(st1, a, at, src, i);
    if Ptr(st, i, NDIRECT) != 0 {
      ExtendsKeepsPtr(sb, st, st1, i, NDIRECT);
    }
  }

  /** Writing into a data block changes no pointer and no bit. */
  lemma PatchKeepsFilled(sb: Superblock, st0: Tree, st: Tree, i: nat, off: nat, n: nat, bn: nat, at: nat,
                         src: seq<byte>)
    requires Owned(sb, st) && i < |st.inode| && bn < MAXFILE && at + |src| <= BSIZE && Ptr(st, i, Slot(bn)) != 0
    requires Filled(st0, st, i, off, n)
    ensures Ptr(st, i, Slot(bn)) < |st.block|
    ensures Filled(st0, Patched(st, Ptr(st, i, Slot(bn)), at, src), i, off, n)
  {
    hide Ptr, Owned, Patch, Needed, Lacks, Free;
    PtrIsData(sb, st, i, Slot(bn));
    DataWriteKeepsOwned(sb, st, i, Slot(bn), Patch(st.block[Ptr(st, i, Slot(bn))], at, src));
  }

  /** bmap() and the copy fill the slots of this part of the range. */
  lemma StepFills(sb: Superblock, st0: Tree, st: Tree, st1: Tree, i: nat, off: nat, tot: nat, src: seq<byte>, m: nat)
    requires Extends(sb, st, st1, i) && i < |st.inode|
    requires 0 < m && tot + m <= |src| && (off + tot) % BSIZE + m <= BSIZE && (off + tot) / BSIZE < MAXFILE
    requires Ptr(st1, i, Slot((off + tot) / BSIZE)) != 0
    requires (off + tot) / BSIZE >= NDIRECT ==> Ptr(st1, i, NDIRECT) != 0
    requires forall t :: 0 <= t < NSLOTS && t != Slot((off + tot) / BSIZE) && !(t == NDIRECT <= (off + tot) / BSIZE) ==>
               Ptr(st1, i, t) == Ptr(st, i, t)
    requires |Free(st1.used)| + Missing(st, i, (off + tot) / BSIZE) == |Free(st.used)|
    ensures var a := Ptr(st1, i, Slot((off + tot) / BSIZE));
            && a < |st1.block|
            && (Filled(st0, st, i, off, tot) && (tot == 0 || (off + tot) % BSIZE == 0) ==>
                  Filled(st0, Patched(st1, a, (off + tot) % BSIZE, src[tot..tot + m]), i, off, tot + m))
  {
    hide Ptr, Extends, Owned, Filled, Free, Missing, Patched;
    ExtendsOwned(sb, st, st1, i);
    PtrIsData(sb, st1, i, Slot((off + tot) / BSIZE));
    if Filled(st0, st, i, off, tot) && (tot == 0 || (off + tot) % BSIZE == 0) {
      FilledNext(st0, st, st1, i, off, tot, m);
      PatchKeepsFilled(sb, st0, st1, i, off, tot + m, (off + tot) / BSIZE, (off + tot) % BSIZE, src[tot..tot + m]);
    }
  }

  lemma SizeKeepsFilled(st0: Tree, st: Tree, i: nat, off: nat, n: nat, size: nat)
    requires i < |st.inode| && Filled(st0, st, i, off, n)
    ensures Filled(st0, WithSize(st, i, size), i, off, n)
  {
    forall t: nat
      ensures Ptr(WithSize(st, i, size), i, t) == Ptr(st, i, t)
    {
    }
    hide Ptr, Lacks, Free;
  }

  lemma FilledFits(st0: Tree, st: Tree, i: nat, off: nat, n: nat)
    requires Filled(st0, st, i, off, n)
    ensures |Lacks(st0, i, off, n)| <= |Free(st0.used)|
  {
    hide Ptr, Lacks, Free;
  }

  /** Out of blocks in the middle means out of blocks for the whole. */
  lemma FilledShort(st0: Tree, st: Tree, i: nat, off: nat, tot: nat, m: nat, n: nat)
    requires 0 < m && (off + tot) % BSIZE + m <= BSIZE && (tot == 0 || (off + tot) % BSIZE == 0) && tot + m <= n
    requires (off + tot) / BSIZE < MAXFILE && Filled(st0, st, i, off, tot)
    requires Missing(st, i, (off + tot) / BSIZE) > |Free(st.used)|
    ensures |Lacks(st0, i, off, n)| > |Free(st0.used)|
  {
    hide Ptr, Lacks, Free, Missing;
    LacksNext(st0, st, i, off, tot, m);
    LacksGrows(st0, i, off, tot + m, n);
  }

  lemma PatchedIndex(st: Tree, a: nat, at: nat, src: seq<byte>, i: nat)
    requires a < |st.block| && at + |src| <= BSIZE
    ensures Ptr(Patched(st, a, at, src), i, NDIRECT) == Ptr(st, i, NDIRECT)
  {
  }

  /** The end of itrunc() at the level of values. */
  lemma EmptiedSound(sb: Superblock, st0: Tree, st: Tree, i: nat)
    requires Truncating(sb, st0, st, i, NSLOTS) && Sound(sb, st0)
    ensures i < |st.inode| && Replaced(sb, st0, Emptied(st, i), i, []) && Sound(sb, Emptied(st, i))
    ensures |st.used| == |st0.used| == sb.size
    ensures forall b :: 0 <= b < sb.size ==> (st.used[b] <==> st0.used[b] && !Owns(st0, i, b))
  {
    hide Owned, FileOk, Truncating, Owns, PtrsInRange, Content;
    TruncatingOwned(sb, st0, st, i, NSLOTS);
    EmptiedOwned(sb, st0, st, i);
    forall b | 0 <= b < sb.size
      ensures |st.used| == |st0.used| == sb.size
      ensures st.used[b] <==> st0.used[b] && !Owns(st0, i, b)
    {
      EmptiedFreesOwn(sb, st0, st, i, b);
    }
    SoundFiles(sb, st0);
    forall j | 0 <= j < |st0.inode|
      ensures FileOk(Emptied(st, i), j) && HasFile(Emptied(st, i), j) && HasFile(st0, j)
      ensures Content(Emptied(st, i), j) == if j == i then [] else Content(st0, j)
    {
      assert FileOk(st0, j);
      EmptiedFiles(sb, st0, st, i, j);
      EmptiedHasFile(sb, st0, st, i, j);
    }
    FilesReplaced(sb, st0, Emptied(st, i), i, []);
  }

  lemma EmptiedHasFile(sb: Superblock, st0: Tree, st: Tree, i: nat, j: nat)
    requires i < |st.inode| && FileOk(Emptied(st, i), j) && PtrsInRange(Emptied(st, i), j)
    ensures HasFile(Emptied(st, i), j)
  {
  }

  lemma TruncateLogs(sb: Superblock, st0: Tree, i: nat, before: seq<Writes.Write>, writes: seq<Writes.Write>)
    requires Writes.Logged(before) == OwnBits(sb, st0, i) && before <= writes && |writes| == |before| + 1
    ensures forall n: nat :: Writes.Within(writes, n) <==> |OwnBits(sb, st0, i)| < n
    ensures sb.size <= 9 * BPB ==> Allowed(writes, 10)
  {
    hide OwnBits;
    forall n: nat
      ensures Writes.Within(writes, n) <==> |OwnBits(sb, st0, i)| < n
    {
      Writes.LastCallIff(before, writes, n);
    }
    if sb.size <= 9 * BPB {
      OwnBitsBound(sb, st0, i, 9);
      Writes.LastCall(before, writes, 10);
    }
  }

  /** Inode i's first s direct pointers are cleared, the others are as they were. */
  ghost predicate Cleared(st0: Tree, st: Tree, i: nat, s: nat)
    requires s <= NDIRECT
  {
    && i < |st0.inode| && i < |st.inode|
    && |st0.inode[i].addrs| == NDIRECT + 1 == |st.inode[i].addrs|
    && forall x :: 0 <= x <= NDIRECT ==> st.inode[i].addrs[x] == if x < s then 0 else st0.inode[i].addrs[x]
  }

  lemma DirectPtrIsAddr(sb: Superblock, st: Tree, i: nat, s: nat)
    requires Owned(sb, st) && i < |st.inode| && s <= NDIRECT
    ensures |st.inode[i].addrs| == NDIRECT + 1 && Ptr(st, i, s) == st.inode[i].addrs[s]
  {
    assert HasInode(st, i);
  }

  lemma IndirectInRange(sb: Superblock, st: Tree, i: nat)
    requires Owned(sb, st) && i < |st.inode|
    ensures HasInode(st, i)
  {
  }

  lemma EntryIsWord(st: Tree, i: nat, j: nat)
    requires HasInode(st, i) && j < NINDIRECT && st.inode[i].addrs[NDIRECT] != 0
    ensures Ptr(st, i, NDIRECT + 1 + j) == Word(st.block[st.inode[i].addrs[NDIRECT]], j)
  {
  }

  lemma AddrsDoNotMatter(sb: Superblock, st0: Tree, st: Tree, st': Tree, i: nat, p: nat)
    requires Truncating(sb, st0, st, i, p)
    requires st'.used == st.used && st'.block == st.block && st'.owner == st.owner && |st'.inode| == |st.inode|
    requires |st'.inode[i].addrs| == NDIRECT + 1
    requires forall j :: 0 <= j < |st.inode| && j != i ==> st'.inode[j] == st.inode[j]
    ensures Truncating(sb, st0, st', i, p)
  {
    hide Ptr, Freed;
  }

  lemma SpliceSplice<T>(c: seq<T>, off: nat, x: seq<T>, y: seq<T>)
    requires off <= |c|
    ensures off + |x| <= |Splice(c, off, x)|
    ensures Splice(Splice(c, off, x), off + |x|, y) == Splice(c, off, x + y)
  {
  }

  /** What one bmap() followed by log_write() of the block it returned has logged. */
  ghost predicate BmapLogs(st: Tree, st1: Tree, i: nat, bn: nat, log0: set<int>, log1: set<int>, a: nat,
                           bits: set<int>) {
    && bn < MAXFILE
    && |bits| <= (if Ptr(st, i, Slot(bn)) == 0 then 1 else 0)
                 + (if bn >= NDIRECT && Ptr(st, i, NDIRECT) == 0 then 1 else 0)
    && log1 <= log0 + bits + {a} + (if bn >= NDIRECT then {Ptr(st1, i, NDIRECT)} else {})
    && (bn >= NDIRECT ==> Ptr(st1, i, NDIRECT) != 0)
    && (Ptr(st, i, NDIRECT) != 0 || bn < NDIRECT ==> Ptr(st1, i, NDIRECT) == Ptr(st, i, NDIRECT))
  }

  /** writei() after the first tot bytes of src. */
  ghost predicate InProgress(sb: Superblock, st0: Tree, st: Tree, i: nat, off: nat, tot: nat, src: seq<byte>,
                             log0: set<int>, log: set<int>, d: set<int>, b: set<int>)
  {
    && (tot == 0 || tot == |src| || (off + tot) % BSIZE == 0)
    && Written(sb, st0, st, i, off, tot, src) && Filled(st0, st, i, off, tot)
    && LogBound(st0, st, i, off, tot, log0, log, d, b)
  }

  lemma StartWrite(sb: Superblock, st: Tree, i: nat, off: nat, src: seq<byte>, log: set<int>)
    requires Owned(sb, st) && i < |st.inode| && FileOk(st, i)
    requires off <= st.inode[i].size && off + |src| <= MAXBYTES
    ensures InProgress(sb, st, st, i, off, 0, src, log, log, {}, {})
  {
    hide Owned, FileOk, Written, Ptr, Filled;
    WrittenNothing(sb, st, i, off, src);
    FilledNothing(st, i, off);
  }

  function Touched(off: nat, n: nat): int {
    if n == 0 then 0 else BlocksFor(off + n) - off / BSIZE
  }

  function Added(size: nat, end: nat): nat {
    if BlocksFor(end) > BlocksFor(size) then BlocksFor(end) - BlocksFor(size) else 0
  }

  /** Log accounting of a write in progress: data blocks d, bitmap blocks b, and the
      indirect block are all that has been logged. */
  ghost predicate LogBound(st0: Tree, st: Tree, i: nat, off: nat, tot: nat,
                           log0: set<int>, log: set<int>, d: set<int>, b: set<int>)
  {
    && i < |st0.inode|
    && log <= log0 + d + b + (if Ptr(st, i, NDIRECT) != 0 then {Ptr(st, i, NDIRECT)} else {})
    && |d| <= Touched(off, tot)
    && |b| <= Added(st0.inode[i].size, off + tot)
              + (if Ptr(st0, i, NDIRECT) == 0 && Ptr(st, i, NDIRECT) != 0 then 1 else 0)
  }

  /** What is logged is a data block, a bitmap block or the index block. */
  lemma LogNames(st0: Tree, st: Tree, st1: Tree, i: nat, off: nat, tot: nat,
                 log0: set<int>, log: set<int>, log1: set<int>, d: set<int>, b: set<int>, a: nat, bits: set<int>)
    requires LogBound(st0, st, i, off, tot, log0, log, d, b)
    requires BmapLogs(st, st1, i, (off + tot) / BSIZE, log, log1, a, bits)
    ensures log1 <= log0 + (d + {a}) + (b + bits) + (if Ptr(st1, i, NDIRECT) != 0 then {Ptr(st1, i, NDIRECT)} else {})
  {
    hide Ptr, Touched, Added;
  }

  lemma LogCounts(sb: Superblock, st0: Tree, st: Tree, st1: Tree, i: nat, off: nat, tot: nat, src: seq<byte>, m: nat,
                  log0: set<int>, log: set<int>, log1: set<int>, d: set<int>, b: set<int>, a: nat, bits: set<int>)
    requires Written(sb, st0, st, i, off, tot, src) && tot < |src|
    requires 0 < m && tot + m <= |src| && (off + tot) % BSIZE + m <= BSIZE
    requires tot == 0 || (off + tot) % BSIZE == 0
    requires LogBound(st0, st, i, off, tot, log0, log, d, b)
    requires BmapLogs(st, st1, i, (off + tot) / BSIZE, log, log1, a, bits)
    ensures |d + {a}| <= Touched(off, tot + m)
    ensures |b + bits| <= Added(st0.inode[i].size, off + tot + m)
                          + (if Ptr(st0, i, NDIRECT) == 0 && Ptr(st1, i, NDIRECT) != 0 then 1 else 0)
  {
    hide Ptr, Written, Mapped, Touched, Added, BlocksFor;
    var bn, size := (off + tot) / BSIZE, st0.inode[i].size;
    WrittenReady(sb, st0, st, i, off, tot, src);
    var added := if Ptr(st, i, Slot(bn)) == 0 then 1 else 0;
    FreshIffAtEnd(st, i, Max(BlocksFor(size), BlocksFor(off + tot)), bn);
    ChunkCounts(off, tot, m, size, added);
    UnionBound(d, {a});
    UnionBound(b, bits);
  }

  lemma LogBoundStep(sb: Superblock, st0: Tree, st: Tree, st1: Tree, i: nat, off: nat, tot: nat, src: seq<byte>, m: nat,
                     log0: set<int>, log: set<int>, log1: set<int>, d: set<int>, b: set<int>, a: nat, bits: set<int>)
    requires Written(sb, st0, st, i, off, tot, src) && tot < |src|
    requires 0 < m && tot + m <= |src| && (off + tot) % BSIZE + m <= BSIZE
    requires tot == 0 || (off + tot) % BSIZE == 0
    requires LogBound(st0, st, i, off, tot, log0, log, d, b)
    requires BmapLogs(st, st1, i, (off + tot) / BSIZE, log, log1, a, bits)
    ensures LogBound(st0, st1, i, off, tot + m, log0, log1, d + {a}, b + bits)
  {
    hide Ptr, Written, Mapped, Touched, Added, BlocksFor;
    LogCounts(sb, st0, st, st1, i, off, tot, src, m, log0, log, log1, d, b, a, bits);
    LogNames(st0, st, st1, i, off, tot, log0, log, log1, d, b, a, bits);
  }

  /** Passing over one more block adds one to the blocks touched, and one to those added
      if the block lies at or past the end of what is mapped. */
  lemma ChunkCounts(off: nat, tot: nat, m: nat, size: nat, added: int)
    requires off <= size && 0 < m && (off + tot) % BSIZE + m <= BSIZE
    requires tot == 0 || (off + tot) % BSIZE == 0
    requires added == if (off + tot) / BSIZE == Max(BlocksFor(size), BlocksFor(off + tot)) then 1 else 0
    ensures Touched(off, tot + m) == Touched(off, tot) + 1
    ensures Added(size, off + tot + m) == Added(size, off + tot) + added
  {
    DivBlock(off + tot, m);
    assert tot > 0 ==> BlocksFor(off + tot) == (off + tot) / BSIZE;
  }

  lemma FreshIffAtEnd(st: Tree, i: nat, m: nat, bn: nat)
    requires Mapped(st, i, m) && bn < MAXFILE && bn <= m
    ensures Ptr(st, i, Slot(bn)) == 0 <==> bn == m
  {
  }

  lemma UnionBound<T>(a: set<T>, b: set<T>)
    ensures |a + b| <= |a| + |b|
  {
    assert a + b == a + (b - a);
  }

  /** A chunk of at most 1536 bytes logs at most nine blocks before its inode block, so it stays
      within one operation's allowance of ten at every log_write(). */
  lemma ChunkLogs(st0: Tree, st: Tree, i: nat, off: nat, n: nat, log0: set<int>, log: set<int>, d: set<int>,
                  b: set<int>)
    requires LogBound(st0, st, i, off, n, log0, log, d, b)
    requires off <= st0.inode[i].size && n <= 1536 && log0 == {}
    ensures |log| <= 9
  {
    hide Ptr;
    var ind := if Ptr(st, i, NDIRECT) != 0 then {Ptr(st, i, NDIRECT)} else {};
    if n > 0 {
      ChunkArithmetic(off, n, st0.inode[i].size);
    }
    UnionBound(d, b);
    UnionBound(d + b, ind);
    SubsetSmaller(log, d + b + ind);
  }

  /** All of writei() at the level of values: the file is spliced, the others are kept. */
  lemma FinishWrite(sb: Superblock, st0: Tree, st: Tree, i: nat, off: nat, src: seq<byte>)
    requires Written(sb, st0, st, i, off, |src|, src)
    requires forall j :: 0 <= j < |st0.inode| ==> FileOk(st0, j)
    ensures i < |st.inode| == |st0.inode| && st.inode[i].size == st0.inode[i].size
    ensures var st' := WithSize(st, i, Max(st0.inode[i].size, off + |src|));
            && Owned(sb, st') && |st'.inode| == |st0.inode|
            && (forall j :: 0 <= j < |st'.inode| ==> FileOk(st', j) && PtrsInRange(st', j) && PtrsInRange(st0, j))
            && Content(st', i) == Splice(Content(st0, i), off, src)
            && (forall j :: 0 <= j < |st'.inode| && j != i ==>
                  Content(st', j) == Content(st0, j) && st'.inode[j] == st0.inode[j])
            && (off + |src| <= st0.inode[i].size ==> st'.inode == st0.inode)
  {
    var st' := WithSize(st, i, Max(st0.inode[i].size, off + |src|));
    WriteDone(sb, st0, st, i, off, src);
    if off + |src| <= st0.inode[i].size {
      NotGrownSameInode(sb, st0, st, i, off, src);
    }
    hide Ptr, Written;
    assert forall j :: 0 <= j < |st0.inode| && j != i ==> st.inode[j] == st0.inode[j]
        by { WrittenUndisturbed(sb, st0, st, i, off, src); }
    forall j | 0 <= j < |st0.inode| && j != i
      ensures FileOk(st', j) && PtrsInRange(st', j) && PtrsInRange(st0, j) && Content(st', j) == Content(st0, j)
    {
      WrittenUndisturbed(sb, st0, st, i, off, src);
      hide Undisturbed, FileOk;
      OtherFilesKept(sb, st0, st, i, j);
      SizeOfOther(st, i, Max(st0.inode[i].size, off + |src|), j);
    }
  }

  lemma FinishSpliced(sb: Superblock, st0: Tree, st: Tree, i: nat, off: nat, src: seq<byte>)
    requires Written(sb, st0, st, i, off, |src|, src) && Sound(sb, st0)
    ensures i < |st.inode| == |st0.inode| && off <= st0.inode[i].size
    ensures Spliced(sb, st0, WithSize(st, i, Max(st0.inode[i].size, off + |src|)), i, off, src)
  {
    hide Written, Owned, FileOk, PtrsInRange, Content, Splice;
    WrittenUndisturbed(sb, st0, st, i, off, src);
    FinishWrite(sb, st0, st, i, off, src);
    var st' := WithSize(st, i, Max(st0.inode[i].size, off + |src|));
    SoundFiles(sb, st0);
    SoundFiles(sb, st');
    assert HasFile(st0, i);
    FilesReplaced(sb, st0, st', i, Splice(Content(st0, i), off, src));
  }

  lemma WrittenUndisturbed(sb: Superblock, st0: Tree, st: Tree, i: nat, off: nat, src: seq<byte>)
    requires Written(sb, st0, st, i, off, |src|, src)
    ensures Undisturbed(sb, st0, st, i) && |st.inode| == |st0.inode| && i < |st.inode|
    ensures forall j :: 0 <= j < |st0.inode| && j != i ==> st.inode[j] == st0.inode[j]
    ensures FileOk(st0, i) && PtrsInRange(st0, i) && off <= st0.inode[i].size
  {
    hide Ptr;
  }

  lemma SizeOfOther(st: Tree, i: nat, size: nat, j: nat)
    requires i < |st.inode| && j != i && FileOk(st, j) && PtrsInRange(st, j)
    ensures var st' := WithSize(st, i, size); FileOk(st', j) && PtrsInRange(st', j) && Content(st', j) == Content(st, j)
  {
    var st' := WithSize(st, i, size);
    forall s
      ensures HasInode(st', j) && Ptr(st', j, s) == Ptr(st, j, s)
    {
    }
    hide Ptr;
  }

  lemma WrittenReady(sb: Superblock, st0: Tree, st: Tree, i: nat, off: nat, tot: nat, src: seq<byte>)
    requires Written(sb, st0, st, i, off, tot, src) && tot < |src|
    ensures Owned(sb, st) && i < |st.inode| && i < |st0.inode|
    ensures Mapped(st, i, Max(BlocksFor(st0.inode[i].size), BlocksFor(off + tot)))
    ensures (off + tot) / BSIZE < MAXFILE && off <= st0.inode[i].size
    ensures Ptr(st0, i, NDIRECT) != 0 ==> Ptr(st, i, NDIRECT) != 0
    ensures (off + tot) / BSIZE <= Max(BlocksFor(st0.inode[i].size), BlocksFor(off + tot))
  {
  }

  lemma SliceAppend<T>(c: seq<T>, i: nat, j: nat, k: nat)
    requires i <= j <= k <= |c|
    ensures c[i..k] == c[i..j] + c[j..k]
  {
  }

  lemma MappedBelowSize(st: Tree, i: nat, pos: nat)
    requires FileOk(st, i) && pos < st.inode[i].size
    ensures pos / BSIZE < MAXFILE && Ptr(st, i, Slot(pos / BSIZE)) != 0
  {
    assert pos / BSIZE < BlocksFor(st.inode[i].size);
  }

  /** A slice of the content inside one block is a slice of that block. */
  lemma ContentChunk(st: Tree, i: nat, pos: nat, m: nat)
    requires FileOk(st, i) && PtrsInRange(st, i)
    requires 0 < m && pos % BSIZE + m <= BSIZE && pos + m <= st.inode[i].size
    ensures Content(st, i)[pos..pos + m] ==
            st.block[Ptr(st, i, Slot(pos / BSIZE))].data[pos % BSIZE..pos % BSIZE + m]
  {
    hide Ptr;
    DivBlock(pos, m);
  }

  function NoFile(): Inode {
    Inode(0, seq(NDIRECT + 1, _ => 0))
  }

  /** A disk without files, whose blocks before datastart are in use, can be mounted. */
  lemma EmptyDisk(sb: Superblock, inodes: nat, image: seq<Block>)
    requires 0 < sb.datastart <= sb.size <= |image|
    requires sb.size <= TWO32
    ensures Sound(sb, Tree(seq(sb.size, b => b < sb.datastart), image[..sb.size], seq(inodes, _ => NoFile()), map[]))
  {
    var st := Tree(seq(sb.size, b => b < sb.datastart), image[..sb.size], seq(inodes, _ => NoFile()), map[]);
    forall i | 0 <= i < inodes
      ensures FileOk(st, i)
    {
      EmptyFile(st, i);
    }
  }

  lemma EmptyFile(st: Tree, i: nat)
    requires HasInode(st, i) && st.inode[i] == NoFile()
    ensures FileOk(st, i) && forall s :: 0 <= s < NSLOTS ==> Ptr(st, i, s) == 0
  {
  }

  lemma IndirectFacts(sb: Superblock, st: Tree, i: nat, k: nat)
    requires Owned(sb, st) && i < |st.inode| && k < NINDIRECT && Ptr(st, i, NDIRECT) != 0
    ensures HasInode(st, i) && |st.used| == |st.block| == sb.size <= TWO32
    ensures var ind := st.inode[i].addrs[NDIRECT];
            sb.datastart <= ind == Ptr(st, i, NDIRECT) < |st.block| && ind > 0
                && Ptr(st, i, NDIRECT + 1 + k) == Word(st.block[ind], k) && st.used[ind]
  {
    assert HasInode(st, i);
    assert OwnerOk(sb, st, Ptr(st, i, NDIRECT));
  }

  lemma EntryNeedsIndirect(sb: Superblock, st: Tree, i: nat, k: nat)
    requires Owned(sb, st) && i < |st.inode| && k < NINDIRECT
    ensures Ptr(st, i, NDIRECT) == 0 ==> Ptr(st, i, NDIRECT + 1 + k) == 0
  {
    assert HasInode(st, i);
  }

  lemma PtrIsData(sb: Superblock, st: Tree, i: nat, s: nat)
    requires Owned(sb, st) && i < |st.inode| && s < NSLOTS && Ptr(st, i, s) != 0
    ensures sb.datastart <= Ptr(st, i, s) < sb.size == |st.block|
  {
    assert OwnerOk(sb, st, Ptr(st, i, s));
  }

  lemma DirectFacts(sb: Superblock, st: Tree, i: nat, s: nat)
    requires Owned(sb, st) && i < |st.inode| && s <= NDIRECT
    ensures HasInode(st, i) && |st.used| == |st.block| == sb.size <= TWO32 && Ptr(st, i, s) == st.inode[i].addrs[s]
  {
    assert HasInode(st, i);
  }

  lemma OwnedMeta(sb: Superblock, st: Tree)
    requires Owned(sb, st)
    ensures |st.used| == |st.block| == sb.size && MetaUsed(sb, st.used)
  {
  }

  lemma InImage(sb: Superblock, image: seq<Block>, used: seq<bool>, block: seq<Block>, dinode: seq<Inode>)
    requires Represents(sb, image, used, block, dinode)
    ensures |used| == |block| == sb.size <= |image| && sb.size <= TWO32
    ensures sb.inodestart <= sb.bmapstart <= sb.datastart <= sb.size
    ensures forall b :: 0 <= b < sb.size ==> sb.bmapstart <= BBlock(sb, b) < sb.datastart
    ensures forall i :: 0 <= i < |dinode| ==> sb.inodestart <= IBlock(sb, i) < sb.bmapstart
  {
    Places(sb, |dinode|);
  }

  lemma DataNotZero(sb: Superblock, st: Tree, a: nat)
    requires Owned(sb, st) && a < sb.size && !st.used[a]
    ensures a >= sb.datastart > 0
  {
  }
}
