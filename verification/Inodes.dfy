/** The block tree of fs.c as values: which blocks an inode's direct, indirect-block and
    indirect pointers name, who owns each block, and the file content they spell out. */
module Inodes {
  import opened Common
  import opened Blocks

  const NDIRECT: nat := 12
  const NINDIRECT: nat := 128
  const MAXFILE: nat := 140
  const MAXBYTES: nat := 71680   // MAXFILE * BSIZE
  const NSLOTS: nat := 141       // 12 direct, the indirect block, 128 indirect
  const BPB: nat := 4096
  const IPB: nat := 8

  datatype Superblock = Superblock(size: nat, inodestart: nat, bmapstart: nat, datastart: nat)

  function BBlock(sb: Superblock, b: nat): nat {
    b / BPB + sb.bmapstart
  }

  function IBlock(sb: Superblock, i: nat): nat {
    i / IPB + sb.inodestart
  }

  datatype Inode = Inode(size: nat, addrs: seq<uint32>)

  /** A block's owner: inode number and slot. */
  type Owners = map<nat, (nat, nat)>

  /** Bitmap, block contents, in-memory inodes, and the bookkeeping of who owns what. */
  datatype Tree = Tree(used: seq<bool>, block: seq<Block>, inode: seq<Inode>, ghost owner: Owners)

  /** The pointer slot of file block bn. Slot NDIRECT holds the indirect block itself. */
  function Slot(bn: nat): (s: nat)
    requires bn < MAXFILE
    ensures s < NSLOTS && s != NDIRECT
  {
    if bn < NDIRECT then bn else bn + 1
  }

  predicate InodeOk(n: Inode, size: nat) {
    |n.addrs| == NDIRECT + 1 && n.addrs[NDIRECT] < size
  }

  predicate HasInode(st: Tree, i: nat) {
    i < |st.inode| && InodeOk(st.inode[i], |st.block|)
  }

  /** The block number in slot s of inode i, 0 if there is none. */
  function Ptr(st: Tree, i: nat, s: nat): uint32 {
    if !HasInode(st, i) || s >= NSLOTS then 0
    else
      var n := st.inode[i];
      if s <= NDIRECT then n.addrs[s]
      else if n.addrs[NDIRECT] == 0 then 0
      else Word(st.block[n.addrs[NDIRECT]], s - NDIRECT - 1)
  }

  ghost predicate Sizes(sb: Superblock, st: Tree) {
    && |st.used| == |st.block| == sb.size <= TWO32
    && 0 < sb.datastart <= sb.size
    && forall i :: 0 <= i < |st.inode| ==> HasInode(st, i)
  }

  /** Every block reachable from an inode is a data block, marked used, and reachable
      along exactly one path. */
  ghost predicate Owned(sb: Superblock, st: Tree) {
    && Sizes(sb, st)
    && (forall b :: 0 <= b < sb.datastart ==> st.used[b])
    && (forall i, s :: 0 <= i < |st.inode| && 0 <= s < NSLOTS && Ptr(st, i, s) != 0 ==>
          Ptr(st, i, s) in st.owner && st.owner[Ptr(st, i, s)] == (i, s))
    && (forall b :: b in st.owner ==> OwnerOk(sb, st, b))
  }

  ghost predicate OwnerOk(sb: Superblock, st: Tree, b: nat)
    requires Sizes(sb, st) && b in st.owner
  {
    var (i, s) := st.owner[b];
    sb.datastart <= b < sb.size && st.used[b] && i < |st.inode| && s < NSLOTS && Ptr(st, i, s) == b
  }

  /** No block is reachable twice, in one inode or from two, and none is on the free list. */
  lemma NoSharing(sb: Superblock, st: Tree, i: nat, s: nat, j: nat, t: nat)
    requires Owned(sb, st) && i < |st.inode| && j < |st.inode| && s < NSLOTS && t < NSLOTS
    requires Ptr(st, i, s) != 0 && Ptr(st, i, s) == Ptr(st, j, t)
    ensures i == j && s == t && st.used[Ptr(st, i, s)]
  {
    assert OwnerOk(sb, st, Ptr(st, i, s));
  }

  // ----- allocation -----

  /** st after inode i's empty slot s <= NDIRECT received the fresh, zeroed block a. */
  ghost function WithDirect(st: Tree, i: nat, s: nat, a: nat): Tree
    requires HasInode(st, i) && s <= NDIRECT && a < |st.block| <= TWO32 && |st.used| == |st.block|
  {
    var n := st.inode[i];
    Tree(st.used[a := true], st.block[a := ZeroBlock()],
         st.inode[i := n.(addrs := n.addrs[s := a])], st.owner[a := (i, s)])
  }

  /** st after entry k of inode i's indirect block received the fresh, zeroed block a. */
  ghost function WithIndirect(st: Tree, i: nat, k: nat, a: nat): Tree
    requires HasInode(st, i) && k < NINDIRECT && a < |st.block| <= TWO32 && |st.used| == |st.block|
  {
    var ind := st.inode[i].addrs[NDIRECT];
    Tree(st.used[a := true], st.block[a := ZeroBlock()][ind := PutWord(st.block[ind], k, a)],
         st.inode, st.owner[a := (i, NDIRECT + 1 + k)])
  }

  /** st1 extends st0 by blocks newly allocated to inode i: nothing else moves. */
  ghost predicate Extends(sb: Superblock, st0: Tree, st1: Tree, i: nat) {
    && Owned(sb, st0) && Owned(sb, st1) && |st0.inode| == |st1.inode| && i < |st0.inode|
    && st1.inode[i].size == st0.inode[i].size
    && (forall j :: 0 <= j < |st0.inode| && j != i ==> st1.inode[j] == st0.inode[j])
    && (forall b :: 0 <= b < sb.size && st0.used[b] ==> st1.used[b])
    && (forall b :: 0 <= b < sb.size && st0.used[b] && !(b in st0.owner && st0.owner[b] == (i, NDIRECT)) ==>
          st1.block[b] == st0.block[b])
    && (forall b :: b in st0.owner ==> b in st1.owner && st1.owner[b] == st0.owner[b])
    && (forall b :: b in st1.owner && b !in st0.owner ==> !st0.used[b] && st1.owner[b].0 == i)
    && (forall t :: 0 <= t < NSLOTS && Ptr(st0, i, t) != 0 ==> Ptr(st1, i, t) == Ptr(st0, i, t))
  }

  lemma DirectPtr(sb: Superblock, st: Tree, i: nat, s: nat, a: nat, j: nat, t: nat)
    requires Owned(sb, st) && i < |st.inode| && j < |st.inode|
    requires s <= NDIRECT && t < NSLOTS && Ptr(st, i, s) == 0
    requires a < sb.size && !st.used[a]
    ensures HasInode(WithDirect(st, i, s, a), j)
    ensures Ptr(WithDirect(st, i, s, a), j, t) == if (j, t) == (i, s) then a else Ptr(st, j, t)
  {
    var ind := Ptr(st, j, NDIRECT);
    assert ind != 0 ==> OwnerOk(sb, st, ind);
    if t > NDIRECT && j == i && s == NDIRECT {
      WordZero(t - NDIRECT - 1);
    }
  }

  lemma DirectKeepsOwned(sb: Superblock, st: Tree, i: nat, s: nat, a: nat)
    requires Owned(sb, st) && i < |st.inode| && s <= NDIRECT && Ptr(st, i, s) == 0
    requires a < sb.size && !st.used[a]
    ensures Owned(sb, WithDirect(st, i, s, a))
    ensures forall j, t :: 0 <= j < |st.inode| && 0 <= t < NSLOTS ==>
              Ptr(WithDirect(st, i, s, a), j, t) == if (j, t) == (i, s) then a else Ptr(st, j, t)
  {
    var st' := WithDirect(st, i, s, a);
    forall j, t | 0 <= j < |st.inode| && 0 <= t < NSLOTS
      ensures HasInode(st', j)
      ensures Ptr(st', j, t) == if (j, t) == (i, s) then a else Ptr(st, j, t)
    {
      DirectPtr(sb, st, i, s, a, j, t);
    }
    hide Ptr;
    forall j | 0 <= j < |st.inode|
      ensures HasInode(st', j)
    {
      DirectPtr(sb, st, i, s, a, j, 0);
    }
    hide HasInode;
    forall b | b in st'.owner
      ensures OwnerOk(sb, st', b)
    {
      var (j, t) := st'.owner[b];
      assert b != a ==> OwnerOk(sb, st, b);
      DirectPtr(sb, st, i, s, a, j, t);
    }
  }

  lemma DirectExtends(sb: Superblock, st: Tree, i: nat, s: nat, a: nat)
    requires Owned(sb, st) && i < |st.inode| && s <= NDIRECT && Ptr(st, i, s) == 0
    requires a < sb.size && !st.used[a]
    ensures Extends(sb, st, WithDirect(st, i, s, a), i)
    ensures forall j, t :: 0 <= j < |st.inode| && 0 <= t < NSLOTS ==>
              Ptr(WithDirect(st, i, s, a), j, t) == if (j, t) == (i, s) then a else Ptr(st, j, t)
  {
    hide Ptr;
    DirectKeepsOwned(sb, st, i, s, a);
    assert a in st.owner ==> OwnerOk(sb, st, a);
  }

  lemma IndirectPtr(sb: Superblock, st: Tree, i: nat, k: nat, a: nat, j: nat, t: nat)
    requires Owned(sb, st) && i < |st.inode| && j < |st.inode| && k < NINDIRECT && t < NSLOTS
    requires Ptr(st, i, NDIRECT) != 0 && Ptr(st, i, NDIRECT + 1 + k) == 0
    requires a < sb.size && !st.used[a]
    ensures HasInode(WithIndirect(st, i, k, a), j)
    ensures Ptr(WithIndirect(st, i, k, a), j, t)
         == if (j, t) == (i, NDIRECT + 1 + k) then a else Ptr(st, j, t)
  {
    var indi, indj := Ptr(st, i, NDIRECT), Ptr(st, j, NDIRECT);
    assert OwnerOk(sb, st, indi);
    assert indj != 0 ==> OwnerOk(sb, st, indj);
    if t > NDIRECT && j == i {
      WordPutWord(st.block[indi], k, a, t - NDIRECT - 1);
    }
  }

  lemma IndirectKeepsOwned(sb: Superblock, st: Tree, i: nat, k: nat, a: nat)
    requires Owned(sb, st) && i < |st.inode| && k < NINDIRECT
    requires Ptr(st, i, NDIRECT) != 0 && Ptr(st, i, NDIRECT + 1 + k) == 0
    requires a < sb.size && !st.used[a]
    ensures Owned(sb, WithIndirect(st, i, k, a))
    ensures forall j, t :: 0 <= j < |st.inode| && 0 <= t < NSLOTS ==>
              Ptr(WithIndirect(st, i, k, a), j, t) == if (j, t) == (i, NDIRECT + 1 + k) then a else Ptr(st, j, t)
  {
    var st' := WithIndirect(st, i, k, a);
    forall j, t | 0 <= j < |st.inode| && 0 <= t < NSLOTS
      ensures HasInode(st', j)
      ensures Ptr(st', j, t) == if (j, t) == (i, NDIRECT + 1 + k) then a else Ptr(st, j, t)
    {
      IndirectPtr(sb, st, i, k, a, j, t);
    }
    hide Ptr;
    forall j | 0 <= j < |st.inode|
      ensures HasInode(st', j)
    {
      IndirectPtr(sb, st, i, k, a, j, 0);
    }
    hide HasInode;
    forall b | b in st'.owner
      ensures OwnerOk(sb, st', b)
    {
      var (j, t) := st'.owner[b];
      assert b != a ==> OwnerOk(sb, st, b);
      IndirectPtr(sb, st, i, k, a, j, t);
    }
  }

  lemma IndirectExtends(sb: Superblock, st: Tree, i: nat, k: nat, a: nat)
    requires Owned(sb, st) && i < |st.inode| && k < NINDIRECT
    requires Ptr(st, i, NDIRECT) != 0 && Ptr(st, i, NDIRECT + 1 + k) == 0
    requires a < sb.size && !st.used[a]
    ensures Extends(sb, st, WithIndirect(st, i, k, a), i)
    ensures forall j, t :: 0 <= j < |st.inode| && 0 <= t < NSLOTS ==>
              Ptr(WithIndirect(st, i, k, a), j, t) == if (j, t) == (i, NDIRECT + 1 + k) then a else Ptr(st, j, t)
  {
    hide Ptr;
    IndirectBlock(sb, st, i);
    IndirectKeepsOwned(sb, st, i, k, a);
    assert a in st.owner ==> OwnerOk(sb, st, a);
  }

  lemma IndirectBlock(sb: Superblock, st: Tree, i: nat)
    requires Owned(sb, st) && i < |st.inode| && Ptr(st, i, NDIRECT) != 0
    ensures var ind := Ptr(st, i, NDIRECT);
            && ind in st.owner && OwnerOk(sb, st, ind) && st.owner[ind] == (i, NDIRECT)
                && ind == st.inode[i].addrs[NDIRECT]
  {
  }

  lemma ExtendsReflexive(sb: Superblock, st: Tree, i: nat)
    requires Owned(sb, st) && i < |st.inode|
    ensures Extends(sb, st, st, i)
  {
  }

  lemma ExtendsTransitive(sb: Superblock, st0: Tree, st1: Tree, st2: Tree, i: nat)
    requires Extends(sb, st0, st1, i) && Extends(sb, st1, st2, i)
    ensures Extends(sb, st0, st2, i)
  {
    hide Ptr;
    forall b | 0 <= b < sb.size && st0.used[b] && !(b in st0.owner && st0.owner[b] == (i, NDIRECT))
      ensures st2.block[b] == st0.block[b]
    {
      assert !(b in st1.owner && st1.owner[b] == (i, NDIRECT));
    }
    forall b | b in st2.owner && b !in st0.owner
      ensures !st0.used[b] && st2.owner[b].0 == i
    {
      assert OwnerOk(sb, st2, b);
    }
  }
}
