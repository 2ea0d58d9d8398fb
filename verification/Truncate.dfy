/** itrunc() as values: the blocks of one inode go back to the bitmap one slot at a time. */
module Truncate {
  import opened Common
  import opened Blocks
  import opened Inodes
  import opened FileContent

  /** itrunc() frees the direct blocks, then the indirect entries, then the indirect block. */
  function Order(s: nat): nat
    requires s < NSLOTS
  {
    if s < NDIRECT then s else if s > NDIRECT then s - 1 else NSLOTS - 1
  }

  /** Block b was inode i's, in one of the first p slots of that order. */
  ghost predicate Freed(st: Tree, i: nat, p: nat, b: nat) {
    b in st.owner && st.owner[b].0 == i && st.owner[b].1 < NSLOTS && Order(st.owner[b].1) < p
  }

  /** Inode i owns block b. */
  ghost predicate Owns(st: Tree, i: nat, b: nat) {
    b != 0 && exists s :: 0 <= s < NSLOTS && Ptr(st, i, s) == b
  }

  /** Everything but the bitmap and inode i's own record is as in st0. */
  ghost predicate Truncating(sb: Superblock, st0: Tree, st: Tree, i: nat, p: nat) {
    && Owned(sb, st0) && i < |st0.inode|
    && st.block == st0.block && st.owner == st0.owner
    && |st.inode| == |st0.inode| && (forall j :: 0 <= j < |st.inode| && j != i ==> st.inode[j] == st0.inode[j])
    && |st.inode[i].addrs| == NDIRECT + 1
    && |st.used| == |st0.used|
    && (forall b :: 0 <= b < sb.size ==> (st.used[b] <==> st0.used[b] && !Freed(st0, i, p, b)))
  }

  lemma NothingFreed(sb: Superblock, st: Tree, i: nat)
    requires Owned(sb, st) && i < |st.inode|
    ensures Truncating(sb, st, st, i, 0) && FreedBits(sb, st, i, 0) == {}
  {
    hide Ptr;
    assert HasInode(st, i);
  }

  /** The block in slot s has not been freed yet: "freeing free block" is unreachable. */
  lemma NextIsUsed(sb: Superblock, st0: Tree, st: Tree, i: nat, s: nat)
    requires s < NSLOTS && Truncating(sb, st0, st, i, Order(s)) && Ptr(st0, i, s) != 0
    ensures Ptr(st0, i, s) < sb.size == |st.used| && st.used[Ptr(st0, i, s)]
  {
    hide Ptr;
    assert OwnerOk(sb, st0, Ptr(st0, i, s));
  }

  lemma FreedNext(sb: Superblock, st0: Tree, i: nat, s: nat, b: nat)
    requires s < NSLOTS && Owned(sb, st0) && i < |st0.inode|
    ensures Freed(st0, i, Order(s) + 1, b) <==> Freed(st0, i, Order(s), b) || b == Ptr(st0, i, s) != 0
  {
    hide Ptr;
    if b in st0.owner {
      assert OwnerOk(sb, st0, b);
    }
    if Ptr(st0, i, s) != 0 {
      assert OwnerOk(sb, st0, Ptr(st0, i, s));
    }
  }

  /** The bitmap blocks that show the blocks of the first p slots. */
  ghost function FreedBits(sb: Superblock, st: Tree, i: nat, p: nat): set<int> {
    set b | b in st.owner && Freed(st, i, p, b) :: BBlock(sb, b)
  }

  lemma FreedBitsNext(sb: Superblock, st0: Tree, i: nat, s: nat)
    requires s < NSLOTS && Owned(sb, st0) && i < |st0.inode|
    ensures FreedBits(sb, st0, i, Order(s) + 1)
            == FreedBits(sb, st0, i, Order(s)) + if Ptr(st0, i, s) == 0 then {} else {BBlock(sb, Ptr(st0, i, s))}
  {
    hide Owned, Ptr, Freed;
    forall b | b in st0.owner
      ensures Freed(st0, i, Order(s) + 1, b) <==> Freed(st0, i, Order(s), b) || b == Ptr(st0, i, s) != 0
    {
      FreedNext(sb, st0, i, s, b);
    }
    if Ptr(st0, i, s) != 0 {
      PtrIsOwned(sb, st0, i, s);
    }
  }

  lemma PtrIsOwned(sb: Superblock, st: Tree, i: nat, s: nat)
    requires s < NSLOTS && Owned(sb, st) && i < |st.inode| && Ptr(st, i, s) != 0
    ensures Ptr(st, i, s) in st.owner
  {
  }

  lemma FreeNext(sb: Superblock, st0: Tree, st: Tree, i: nat, s: nat, st': Tree)
    requires s < NSLOTS && Truncating(sb, st0, st, i, Order(s))
    requires |st'.used| == |st.used| && st'.block == st.block && st'.owner == st.owner
    requires |st'.inode| == |st.inode| && (forall j :: 0 <= j < |st.inode| && j != i ==> st'.inode[j] == st.inode[j])
    requires |st'.inode[i].addrs| == NDIRECT + 1
    requires st'.used == if Ptr(st0, i, s) == 0 then st.used else st.used[Ptr(st0, i, s) := false]
    ensures Truncating(sb, st0, st', i, Order(s) + 1)
  {
    hide Ptr, Freed;
    forall b | 0 <= b < sb.size
      ensures Freed(st0, i, Order(s) + 1, b) <==> Freed(st0, i, Order(s), b) || b == Ptr(st0, i, s) != 0
    {
      FreedNext(sb, st0, i, s, b);
    }
  }

  /** Without an indirect block there is nothing after the direct slots. */
  lemma NoIndirect(sb: Superblock, st0: Tree, st: Tree, i: nat)
    requires Truncating(sb, st0, st, i, NDIRECT) && Ptr(st0, i, NDIRECT) == 0
    ensures Truncating(sb, st0, st, i, NSLOTS) && FreedBits(sb, st0, i, NSLOTS) == FreedBits(sb, st0, i, NDIRECT)
  {
    forall b
      ensures Freed(st0, i, NSLOTS, b) <==> Freed(st0, i, NDIRECT, b)
    {
      if b in st0.owner {
        assert OwnerOk(sb, st0, b);
      }
    }
  }

  /** The tree once all slots are done: inode i is empty and owns nothing. */
  ghost function Emptied(st: Tree, i: nat): Tree
    requires i < |st.inode|
  {
    Tree(st.used, st.block, st.inode[i := Inode(0, seq(NDIRECT + 1, _ => 0))],
         map b | b in st.owner && st.owner[b].0 != i :: st.owner[b])
  }

  lemma EmptiedPtr(sb: Superblock, st0: Tree, st: Tree, i: nat, j: nat, s: nat)
    requires Truncating(sb, st0, st, i, NSLOTS) && j < |st.inode| && s < NSLOTS
    ensures HasInode(Emptied(st, i), j)
    ensures Ptr(Emptied(st, i), j, s) == if j == i then 0 else Ptr(st0, j, s)
  {
    assert HasInode(st0, j);
    hide Word;
  }

  lemma EmptiedOwned(sb: Superblock, st0: Tree, st: Tree, i: nat)
    requires Truncating(sb, st0, st, i, NSLOTS)
    ensures Owned(sb, Emptied(st, i))
    ensures forall j, s :: 0 <= j < |st.inode| && 0 <= s < NSLOTS ==>
              Ptr(Emptied(st, i), j, s) == if j == i then 0 else Ptr(st0, j, s)
  {
    hide Ptr, HasInode;
    var e := Emptied(st, i);
    forall j, s | 0 <= j < |st.inode| && 0 <= s < NSLOTS
      ensures HasInode(e, j) && Ptr(e, j, s) == if j == i then 0 else Ptr(st0, j, s)
    {
      EmptiedPtr(sb, st0, st, i, j, s);
    }
    forall j | 0 <= j < |st.inode|
      ensures HasInode(e, j)
    {
      EmptiedPtr(sb, st0, st, i, j, 0);
    }
    forall b | 0 <= b < sb.datastart
      ensures e.used[b]
    {
      assert b !in st0.owner;
    }
    forall b | b in e.owner
      ensures OwnerOk(sb, e, b)
    {
      assert OwnerOk(sb, st0, b);
      var (j, s) := st0.owner[b];
      EmptiedPtr(sb, st0, st, i, j, s);
    }
  }

  /** The bitmap loses exactly the inode's own blocks. */
  lemma EmptiedFreesOwn(sb: Superblock, st0: Tree, st: Tree, i: nat, b: nat)
    requires Truncating(sb, st0, st, i, NSLOTS) && b < sb.size
    ensures |st.used| == |st0.used| == sb.size
    ensures st.used[b] <==> st0.used[b] && !Owns(st0, i, b)
  {
    hide Ptr, Freed, Owns;
    FreedIffOwns(sb, st0, i, b);
  }

  lemma FreedIffOwns(sb: Superblock, st0: Tree, i: nat, b: nat)
    requires Owned(sb, st0) && i < |st0.inode|
    ensures Freed(st0, i, NSLOTS, b) <==> Owns(st0, i, b)
  {
    hide Ptr;
    if Freed(st0, i, NSLOTS, b) {
      assert OwnerOk(sb, st0, b);
    }
    if Owns(st0, i, b) {
      var s :| 0 <= s < NSLOTS && Ptr(st0, i, s) == b;
    }
  }

  /** The bitmap blocks that show inode i's own blocks. */
  ghost function OwnBits(sb: Superblock, st: Tree, i: nat): set<int> {
    set b | 0 <= b < sb.size && Owns(st, i, b) :: BBlock(sb, b)
  }

  lemma FreedBitsAll(sb: Superblock, st0: Tree, i: nat)
    requires Owned(sb, st0) && i < |st0.inode|
    ensures FreedBits(sb, st0, i, NSLOTS) == OwnBits(sb, st0, i)
  {
    hide Ptr, Freed, Owns;
    assert forall b :: b in st0.owner ==> OwnerOk(sb, st0, b);
    forall b: nat
      ensures Freed(st0, i, NSLOTS, b) <==> Owns(st0, i, b)
      ensures Owns(st0, i, b) ==> b in st0.owner
    {
      FreedIffOwns(sb, st0, i, b);
      FreedOwned(st0, i, NSLOTS, b);
    }
  }

  lemma FreedOwned(st: Tree, i: nat, p: nat, b: nat)
    ensures Freed(st, i, p, b) ==> b in st.owner
  {
  }

  /** There are no more bitmap blocks than the disk needs. */
  lemma OwnBitsBound(sb: Superblock, st: Tree, i: nat, n: nat)
    requires sb.size <= n * BPB
    ensures |OwnBits(sb, st, i)| <= n
  {
    hide Owns;
    forall b: nat | b < sb.size
      ensures sb.bmapstart <= BBlock(sb, b) < sb.bmapstart + n
    {
      assert b / BPB < n;
    }
    SubsetSmaller(OwnBits(sb, st, i), Span(sb.bmapstart, n));
  }

  lemma EmptiedFiles(sb: Superblock, st0: Tree, st: Tree, i: nat, j: nat)
    requires Truncating(sb, st0, st, i, NSLOTS) && j < |st0.inode| && FileOk(st0, j)
    ensures FileOk(Emptied(st, i), j) && PtrsInRange(Emptied(st, i), j) && PtrsInRange(st0, j)
    ensures Content(Emptied(st, i), j) == if j == i then [] else Content(st0, j)
  {
    hide Ptr, Truncating, Owned;
    TruncatingOwned(sb, st0, st, i, NSLOTS);
    var e := Emptied(st, i);
    EmptiedOwned(sb, st0, st, i);
    OwnedInRange(sb, e, j);
    OwnedInRange(sb, st0, j);
  }

  lemma TruncatingOwned(sb: Superblock, st0: Tree, st: Tree, i: nat, p: nat)
    requires Truncating(sb, st0, st, i, p)
    ensures Owned(sb, st0) && i < |st0.inode| == |st.inode| && st.block == st0.block
    ensures |st.inode[i].addrs| == NDIRECT + 1 && |st.used| == |st0.used| == sb.size
    ensures forall j :: 0 <= j < |st.inode| && j != i ==> st.inode[j] == st0.inode[j]
  {
    hide Ptr;
  }
}
