/** The bytes of a file: the block tree refines a plain byte string. */
module FileContent {
  import opened Blocks
  import opened Inodes

  function BlocksFor(size: nat): nat {
    (size + BSIZE - 1) / BSIZE
  }

  function Max(a: nat, b: nat): nat {
    if a >= b then a else b
  }

  /** Exactly the first m file blocks are allocated, the indirect block only if needed. */
  ghost predicate Mapped(st: Tree, i: nat, m: nat) {
    && HasInode(st, i)
    && (forall bn :: 0 <= bn < MAXFILE ==> (Ptr(st, i, Slot(bn)) != 0 <==> bn < m))
    && (Ptr(st, i, NDIRECT) != 0 <==> m > NDIRECT)
  }

  /** No holes, and nothing allocated beyond the end. */
  ghost predicate FileOk(st: Tree, i: nat) {
    && HasInode(st, i) && st.inode[i].size <= MAXBYTES
    && Mapped(st, i, BlocksFor(st.inode[i].size))
  }

  /** Every pointer leads to an existing block. */
  ghost predicate PtrsInRange(st: Tree, i: nat) {
    HasInode(st, i) && forall s :: 0 <= s < NSLOTS ==> Ptr(st, i, s) < |st.block|
  }

  lemma OwnedInRange(sb: Superblock, st: Tree, i: nat)
    requires Owned(sb, st) && i < |st.inode|
    ensures PtrsInRange(st, i)
  {
    hide Ptr;
    assert HasInode(st, i);
    forall s | 0 <= s < NSLOTS
      ensures Ptr(st, i, s) < |st.block|
    {
      if Ptr(st, i, s) != 0 {
        assert OwnerOk(sb, st, Ptr(st, i, s));
      }
    }
  }

  ghost function ByteAt(st: Tree, i: nat, k: nat): byte
    requires PtrsInRange(st, i) && k < MAXBYTES
  {
    st.block[Ptr(st, i, Slot(k / BSIZE))].data[k % BSIZE]
  }

  ghost function Content(st: Tree, i: nat): (c: seq<byte>)
    requires PtrsInRange(st, i) && st.inode[i].size <= MAXBYTES
    ensures |c| == st.inode[i].size
  {
    seq(st.inode[i].size, k requires 0 <= k < st.inode[i].size => ByteAt(st, i, k))
  }

  ghost predicate HasFile(st: Tree, i: nat) {
    PtrsInRange(st, i) && st.inode[i].size <= MAXBYTES
  }

  /** All files of the tree. */
  ghost function Files(st: Tree): (files: seq<seq<byte>>)
    requires forall i :: 0 <= i < |st.inode| ==> HasFile(st, i)
    ensures |files| == |st.inode|
  {
    seq(|st.inode|, i requires 0 <= i < |st.inode| && HasFile(st, i) => Content(st, i))
  }

  /** c with src written at off, growing at the end if necessary. */
  function Splice<T>(c: seq<T>, off: nat, src: seq<T>): (r: seq<T>)
    requires off <= |c|
    ensures |r| == Max(|c|, off + |src|)
    ensures forall k :: 0 <= k < |r| ==> r[k] == if off <= k < off + |src| then src[k - off] else c[k]
  {
    c[..off] + src + if off + |src| <= |c| then c[off + |src|..] else []
  }

  function Patch(b: Block, at: nat, src: seq<byte>): (r: Block)
    requires at + |src| <= BSIZE
    ensures forall k :: 0 <= k < BSIZE ==> r.data[k] == if at <= k < at + |src| then src[k - at] else b.data[k]
  {
    Block(b.data[..at] + src + b.data[at + |src|..])
  }

  // ----- a write in progress -----

  /** What the write to inode i may not disturb. */
  ghost predicate Undisturbed(sb: Superblock, st0: Tree, st: Tree, i: nat) {
    && Owned(sb, st0) && Owned(sb, st) && |st0.inode| == |st.inode| && i < |st.inode|
    && st.inode[i].size == st0.inode[i].size
    && (forall j :: 0 <= j < |st.inode| && j != i ==> st.inode[j] == st0.inode[j])
    && (forall b :: 0 <= b < sb.size && st0.used[b] ==> st.used[b])
    && (forall b :: 0 <= b < sb.size && st0.used[b] && !(b in st0.owner && st0.owner[b].0 == i) ==>
          st.block[b] == st0.block[b])
    && (forall b :: b in st0.owner ==> b in st.owner && st.owner[b] == st0.owner[b])
    && (forall b :: b in st.owner && b !in st0.owner ==> !st0.used[b] && st.owner[b].0 == i)
  }

  /** The first tot bytes of src have been written at off. */
  ghost predicate Written(sb: Superblock, st0: Tree, st: Tree, i: nat, off: nat, tot: nat, src: seq<byte>) {
    && Undisturbed(sb, st0, st, i)
    && FileOk(st0, i) && off <= st0.inode[i].size && off + |src| <= MAXBYTES && tot <= |src|
    && Mapped(st, i, Max(BlocksFor(st0.inode[i].size), BlocksFor(off + tot)))
    && PtrsInRange(st0, i) && PtrsInRange(st, i)
    && (forall k :: 0 <= k < MAXBYTES && (k < st0.inode[i].size || off <= k < off + tot) ==>
          ByteAt(st, i, k) == if off <= k < off + tot then src[k - off] else ByteAt(st0, i, k))
  }

  lemma WrittenNothing(sb: Superblock, st: Tree, i: nat, off: nat, src: seq<byte>)
    requires Owned(sb, st) && i < |st.inode| && FileOk(st, i)
    requires off <= st.inode[i].size && off + |src| <= MAXBYTES
    ensures Written(sb, st, st, i, off, 0, src)
  {
    OwnedInRange(sb, st, i);
  }

  /** A data block of inode i is no one's indirect block: writing it moves no pointer. */
  lemma DataWriteKeepsPtrs(sb: Superblock, st: Tree, i: nat, s: nat, b: Block, j: nat, t: nat)
    requires Owned(sb, st) && i < |st.inode| && j < |st.inode| && s < NSLOTS && s != NDIRECT && t < NSLOTS
    requires Ptr(st, i, s) != 0 && Ptr(st, i, s) < |st.block|
    ensures var st' := st.(block := st.block[Ptr(st, i, s) := b]);
            HasInode(st', j) && Ptr(st', j, t) == Ptr(st, j, t)
  {
    assert HasInode(st, j);
    if Ptr(st, j, NDIRECT) == Ptr(st, i, s) {
      NoSharing(sb, st, i, s, j, NDIRECT);
    }
    hide Word;
  }

  lemma DataWriteKeepsOwned(sb: Superblock, st: Tree, i: nat, s: nat, b: Block)
    requires Owned(sb, st) && i < |st.inode| && s < NSLOTS && s != NDIRECT
    requires Ptr(st, i, s) != 0 && Ptr(st, i, s) < |st.block|
    ensures var st' := st.(block := st.block[Ptr(st, i, s) := b]);
            && Owned(sb, st')
            && forall j, t :: 0 <= j < |st.inode| && 0 <= t < NSLOTS ==> Ptr(st', j, t) == Ptr(st, j, t)
  {
    var st' := st.(block := st.block[Ptr(st, i, s) := b]);
    forall j, t | 0 <= j < |st.inode| && 0 <= t < NSLOTS
      ensures HasInode(st', j) && Ptr(st', j, t) == Ptr(st, j, t)
    {
      DataWriteKeepsPtrs(sb, st, i, s, b, j, t);
    }
    forall j | 0 <= j < |st.inode|
      ensures HasInode(st', j)
    {
      DataWriteKeepsPtrs(sb, st, i, s, b, j, 0);
    }
    hide Ptr, HasInode;
    forall x | x in st'.owner
      ensures OwnerOk(sb, st', x)
    {
      var (j, t) := st'.owner[x];
      assert OwnerOk(sb, st, x);
      DataWriteKeepsPtrs(sb, st, i, s, b, j, t);
    }
  }

  /** Growing the tree disturbs no byte of any file. */
  lemma ExtendsKeepsBytes(sb: Superblock, st0: Tree, st1: Tree, i: nat, k: nat)
    requires Extends(sb, st0, st1, i) && k < MAXBYTES && Ptr(st0, i, Slot(k / BSIZE)) != 0
    ensures PtrsInRange(st0, i) && PtrsInRange(st1, i)
    ensures ByteAt(st1, i, k) == ByteAt(st0, i, k)
  {
    hide Ptr;
    OwnedInRange(sb, st0, i);
    OwnedInRange(sb, st1, i);
    var b := Ptr(st0, i, Slot(k / BSIZE));
    assert OwnerOk(sb, st0, b);
  }

  lemma UndisturbedAfterExtend(sb: Superblock, st0: Tree, st: Tree, st1: Tree, i: nat)
    requires Undisturbed(sb, st0, st, i) && Extends(sb, st, st1, i)
    ensures Undisturbed(sb, st0, st1, i)
  {
    hide Ptr;
    forall b | 0 <= b < sb.size && st0.used[b] && !(b in st0.owner && st0.owner[b].0 == i)
      ensures st1.block[b] == st0.block[b]
    {
      assert !(b in st.owner && st.owner[b] == (i, NDIRECT));
    }
    forall b | b in st1.owner && b !in st0.owner
      ensures !st0.used[b] && st1.owner[b].0 == i
    {
      assert OwnerOk(sb, st1, b);
    }
  }

  lemma UndisturbedAfterPatch(sb: Superblock, st0: Tree, st1: Tree, i: nat, s: nat, b: Block)
    requires Undisturbed(sb, st0, st1, i) && s < NSLOTS && s != NDIRECT
    requires Ptr(st1, i, s) != 0 && Ptr(st1, i, s) < |st1.block|
    ensures Undisturbed(sb, st0, st1.(block := st1.block[Ptr(st1, i, s) := b]), i)
  {
    hide Ptr;
    DataWriteKeepsOwned(sb, st1, i, s, b);
    var a := Ptr(st1, i, s);
    assert a in st1.owner && st1.owner[a] == (i, s);
  }

  lemma DivBlock(off: nat, m: nat)
    requires 0 < m && off % BSIZE + m <= BSIZE
    ensures BlocksFor(off + m) == off / BSIZE + 1
    ensures forall k :: off <= k < off + m ==> k / BSIZE == off / BSIZE && k % BSIZE == off % BSIZE + (k - off)
  {
    var q, r := off / BSIZE, off % BSIZE;
    assert off == BSIZE * q + r;
    forall k | off <= k < off + m
      ensures k / BSIZE == q && k % BSIZE == r + (k - off)
    {
      assert k == BSIZE * q + (r + (k - off));
    }
  }

  /** A byte below the mapped prefix lies in a mapped block. */
  lemma ByteIsMapped(st: Tree, i: nat, m: nat, k: nat)
    requires Mapped(st, i, m) && k < MAXBYTES && k / BSIZE < m
    ensures Ptr(st, i, Slot(k / BSIZE)) != 0
  {
  }

  /** The bytes after the data block of file block bn was patched. */
  lemma PatchedByte(sb: Superblock, st: Tree, i: nat, bn: nat, at: nat, src: seq<byte>, k: nat)
    requires Owned(sb, st) && i < |st.inode| && bn < MAXFILE && at + |src| <= BSIZE && k < MAXBYTES
    requires PtrsInRange(st, i) && Ptr(st, i, Slot(bn)) != 0 && Ptr(st, i, Slot(k / BSIZE)) != 0
    ensures var a := Ptr(st, i, Slot(bn));
            var st' := st.(block := st.block[a := Patch(st.block[a], at, src)]);
            && PtrsInRange(st', i)
            && ByteAt(st', i, k) == if k / BSIZE == bn && at <= k % BSIZE < at + |src| then src[k % BSIZE - at]
                                    else ByteAt(st, i, k)
  {
    hide Ptr;
    var a := Ptr(st, i, Slot(bn));
    var st' := st.(block := st.block[a := Patch(st.block[a], at, src)]);
    DataWriteKeepsOwned(sb, st, i, Slot(bn), Patch(st.block[a], at, src));
    OwnedInRange(sb, st', i);
    assert k / BSIZE != bn ==> Ptr(st, i, Slot(k / BSIZE)) != a;
  }

  /** One pass of writei()'s loop: st1 is the tree after bmap(), then m bytes of src are
      copied into the block it returned. */
  lemma WriteChunk(sb: Superblock, st0: Tree, st: Tree, st1: Tree, i: nat, off: nat, tot: nat, src: seq<byte>, m: nat)
    requires Written(sb, st0, st, i, off, tot, src) && Extends(sb, st, st1, i)
    requires 0 < m && tot + m <= |src| && (off + tot) % BSIZE + m <= BSIZE
    requires Mapped(st1, i, Max(Max(BlocksFor(st0.inode[i].size), BlocksFor(off + tot)), (off + tot) / BSIZE + 1))
    ensures var a := Ptr(st1, i, Slot((off + tot) / BSIZE));
            && 0 < a < |st1.block|
            && Written(sb, st0, st1.(block := st1.block[a := Patch(st1.block[a], (off + tot) % BSIZE,
                src[tot..tot + m])]),
                       i, off, tot + m, src)
  {
    hide Ptr, Extends, Owned, Undisturbed;
    var pos := off + tot;
    var bn, at := pos / BSIZE, pos % BSIZE;
    DivBlock(pos, m);
    UndisturbedOwned(sb, st0, st, i);
    ExtendsOwned(sb, st, st1, i);
    OwnedInRange(sb, st1, i);
    var a := Ptr(st1, i, Slot(bn));
    var b := Patch(st1.block[a], at, src[tot..tot + m]);
    var st2 := st1.(block := st1.block[a := b]);
    UndisturbedAfterExtend(sb, st0, st, st1, i);
    UndisturbedAfterPatch(sb, st0, st1, i, Slot(bn), b);
    DataWriteKeepsOwned(sb, st1, i, Slot(bn), b);
    OwnedInRange(sb, st2, i);
    var size0 := st0.inode[i].size;
    MappedSame(st1, st2, i, Max(BlocksFor(size0), BlocksFor(off + tot + m)));
    forall k | 0 <= k < MAXBYTES && (k < size0 || off <= k < pos + m)
      ensures ByteAt(st2, i, k) == if off <= k < pos + m then src[k - off] else ByteAt(st0, i, k)
    {
      WrittenByte(sb, st0, st, st1, i, off, tot, src, m, k);
    }
  }

  lemma MappedSame(st1: Tree, st2: Tree, i: nat, m: nat)
    requires Mapped(st1, i, m) && HasInode(st2, i)
    requires forall t :: 0 <= t < NSLOTS ==> Ptr(st2, i, t) == Ptr(st1, i, t)
    ensures Mapped(st2, i, m)
  {
    hide Ptr;
  }

  lemma ExtendsOwned(sb: Superblock, st: Tree, st1: Tree, i: nat)
    requires Extends(sb, st, st1, i)
    ensures Owned(sb, st) && Owned(sb, st1) && i < |st1.inode| && HasInode(st1, i)
  {
    hide Ptr;
  }

  lemma WrittenByte(sb: Superblock, st0: Tree, st: Tree, st1: Tree, i: nat, off: nat, tot: nat, src: seq<byte>, m: nat,
                    k: nat)
    requires Written(sb, st0, st, i, off, tot, src) && Extends(sb, st, st1, i)
    requires 0 < m && tot + m <= |src| && (off + tot) % BSIZE + m <= BSIZE
    requires Mapped(st1, i, Max(Max(BlocksFor(st0.inode[i].size), BlocksFor(off + tot)), (off + tot) / BSIZE + 1))
    requires k < MAXBYTES && (k < st0.inode[i].size || off <= k < off + tot + m)
    ensures var a := Ptr(st1, i, Slot((off + tot) / BSIZE));
            && a < |st1.block|
            && var st2 := st1.(block := st1.block[a := Patch(st1.block[a], (off + tot) % BSIZE, src[tot..tot + m])]);
            && PtrsInRange(st2, i)
            && ByteAt(st2, i, k) == if off <= k < off + tot + m then src[k - off] else ByteAt(st0, i, k)
  {
    hide Ptr, Extends, Undisturbed, Owned;
    var pos := off + tot;
    var bn, at := pos / BSIZE, pos % BSIZE;
    DivBlock(pos, m);
    ExtendsOwned(sb, st, st1, i);
    OwnedInRange(sb, st1, i);
    assert k / BSIZE < Max(Max(BlocksFor(st0.inode[i].size), BlocksFor(off + tot)), bn + 1);
    ByteIsMapped(st1, i, Max(Max(BlocksFor(st0.inode[i].size), BlocksFor(off + tot)), bn + 1), k);
    PatchedByte(sb, st1, i, bn, at, src[tot..tot + m], k);
    if !(pos <= k < pos + m) {
      ByteIsMapped(st, i, Max(BlocksFor(st0.inode[i].size), BlocksFor(off + tot)), k);
      ExtendsKeepsBytes(sb, st, st1, i, k);
    }
  }

  /** Another inode's pointers, and the blocks behind them, are what they were. */
  lemma OtherPtrsKept(sb: Superblock, st0: Tree, st: Tree, i: nat, j: nat, s: nat)
    requires Undisturbed(sb, st0, st, i) && j < |st.inode| && j != i && s < NSLOTS
    ensures HasInode(st, j) && HasInode(st0, j) && Ptr(st, j, s) == Ptr(st0, j, s) < |st.block|
    ensures Ptr(st, j, s) != 0 ==> st.block[Ptr(st, j, s)] == st0.block[Ptr(st, j, s)]
  {
    var ind := Ptr(st0, j, NDIRECT);
    if ind != 0 {
      assert OwnerOk(sb, st0, ind);
    }
    var b := Ptr(st0, j, s);
    if b != 0 {
      assert OwnerOk(sb, st0, b);
    }
    hide Word;
  }

  lemma OtherFilesKept(sb: Superblock, st0: Tree, st: Tree, i: nat, j: nat)
    requires Undisturbed(sb, st0, st, i) && j < |st.inode| && j != i && FileOk(st0, j)
    ensures FileOk(st, j) && PtrsInRange(st0, j) && PtrsInRange(st, j) && Content(st, j) == Content(st0, j)
  {
    hide Ptr;
    forall s | 0 <= s < NSLOTS
      ensures HasInode(st, j) && HasInode(st0, j) && Ptr(st, j, s) == Ptr(st0, j, s) < |st.block|
      ensures Ptr(st, j, s) != 0 ==> st.block[Ptr(st, j, s)] == st0.block[Ptr(st, j, s)]
    {
      OtherPtrsKept(sb, st0, st, i, j, s);
    }
    assert HasInode(st, j) && HasInode(st0, j) by { OtherPtrsKept(sb, st0, st, i, j, 0); }
    hide Undisturbed, HasInode;
    forall k | 0 <= k < st.inode[j].size
      ensures ByteAt(st, j, k) == ByteAt(st0, j, k)
    {
      assert k / BSIZE < BlocksFor(st0.inode[j].size);
    }
  }

  ghost function WithSize(st: Tree, i: nat, size: nat): Tree
    requires i < |st.inode|
  {
    st.(inode := st.inode[i := st.inode[i].(size := size)])
  }

  lemma WithSizeKeepsOwned(sb: Superblock, st: Tree, i: nat, size: nat)
    requires Owned(sb, st) && i < |st.inode|
    ensures Owned(sb, WithSize(st, i, size))
    ensures forall j, s :: 0 <= j < |st.inode| && 0 <= s < NSLOTS ==> Ptr(WithSize(st, i, size), j, s) == Ptr(st, j, s)
  {
    var st' := WithSize(st, i, size);
    forall j, s | 0 <= j < |st.inode| && 0 <= s < NSLOTS
      ensures HasInode(st', j) && Ptr(st', j, s) == Ptr(st, j, s)
    {
      assert HasInode(st, j);
    }
    forall j | 0 <= j < |st.inode|
      ensures HasInode(st', j)
    {
      assert HasInode(st, j);
    }
    hide Ptr, HasInode;
    forall b | b in st'.owner
      ensures OwnerOk(sb, st', b)
    {
      assert OwnerOk(sb, st, b);
      var (j, s) := st.owner[b];
      assert Ptr(st', j, s) == Ptr(st, j, s);
    }
  }

  /** The refinement: once all of src is written and the size set, the file holds the
      spliced bytes, it has no holes, and no other file has changed. */
  lemma WriteDone(sb: Superblock, st0: Tree, st: Tree, i: nat, off: nat, src: seq<byte>)
    requires Written(sb, st0, st, i, off, |src|, src)
    ensures var st' := WithSize(st, i, Max(st0.inode[i].size, off + |src|));
            && Owned(sb, st') && FileOk(st', i) && PtrsInRange(st', i)
            && Content(st', i) == Splice(Content(st0, i), off, src)
  {
    hide Ptr, Undisturbed;
    var size' := Max(st0.inode[i].size, off + |src|);
    var st' := WithSize(st, i, size');
    assert Owned(sb, st) by { UndisturbedOwned(sb, st0, st, i); }
    WithSizeKeepsOwned(sb, st, i, size');
    OwnedInRange(sb, st', i);
    hide Owned;
    assert BlocksFor(size') == Max(BlocksFor(st0.inode[i].size), BlocksFor(off + |src|));
    assert Mapped(st', i, BlocksFor(size'));
    forall k | 0 <= k < size'
      ensures ByteAt(st', i, k) == ByteAt(st, i, k)
    {
    }
  }

  lemma UndisturbedOwned(sb: Superblock, st0: Tree, st: Tree, i: nat)
    requires Undisturbed(sb, st0, st, i)
    ensures Owned(sb, st0) && Owned(sb, st) && i < |st.inode| == |st0.inode|
  {
  }

  /** A write inside the file leaves the in-memory inode as it was, so there is nothing
      for iupdate() to persist. */
  lemma NotGrownSameInode(sb: Superblock, st0: Tree, st: Tree, i: nat, off: nat, src: seq<byte>)
    requires Written(sb, st0, st, i, off, |src|, src) && off + |src| <= st0.inode[i].size
    ensures st.inode[i] == st0.inode[i]
  {
    forall t | 0 <= t <= NDIRECT
      ensures st.inode[i].addrs[t] == st0.inode[i].addrs[t]
    {
      var b := Ptr(st0, i, t);
      if b != 0 {
        assert OwnerOk(sb, st, b);
      } else if t < NDIRECT {
        assert Slot(t) == t;
      }
    }
  }

  /** The tree after bmap(): file block bn is mapped too. */
  lemma MappedOneMore(st0: Tree, st1: Tree, i: nat, m: nat, bn: nat)
    requires Mapped(st0, i, m) && HasInode(st1, i) && bn <= m && bn < MAXFILE
    requires Ptr(st1, i, Slot(bn)) != 0
    requires forall t :: 0 <= t < NSLOTS && t != Slot(bn) && !(t == NDIRECT <= bn) ==>
               Ptr(st1, i, t) == Ptr(st0, i, t)
    requires bn >= NDIRECT ==> Ptr(st1, i, NDIRECT) != 0
    ensures Mapped(st1, i, Max(m, bn + 1))
  {
    hide Ptr;
  }

  /** How many blocks one chunk of filewrite() can log: data blocks touched, bitmap blocks
      of the blocks allocated, the indirect block, the inode block. */
  lemma ChunkArithmetic(off: nat, n: nat, size: nat)
    requires off <= size && 0 < n <= 1536
    ensures var touched := BlocksFor(off + n) - off / BSIZE;
            var added := if BlocksFor(off + n) > BlocksFor(size) then BlocksFor(off + n) - BlocksFor(size) else 0;
            touched + (added + 1) + 1 + 1 <= 10
  {
    var q, r := off / BSIZE, off % BSIZE;
    assert off == BSIZE * q + r;
    assert r == 0 ==> BlocksFor(off + n) <= q + 3;
    assert r > 0 ==> BlocksFor(off + n) <= q + 4 && BlocksFor(size) >= q + 1;
  }
}
