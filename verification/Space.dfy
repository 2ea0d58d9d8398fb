/** How many blocks a write needs: the slots of a byte range that have no block yet, against the
    free blocks of the bitmap. */
module Space {
  import opened Common
  import opened Blocks
  import opened Inodes
  import opened FileContent

  /** The blocks whose bit is clear. */
  ghost function Free(used: seq<bool>): set<nat> {
    set b: nat | b < |used| && !used[b]
  }

  lemma FreeTaken(used: seq<bool>, b: nat)
    requires b < |used| && !used[b]
    ensures |Free(used[b := true])| + 1 == |Free(used)|
  {
    assert Free(used) == Free(used[b := true]) + {b};
  }

  lemma NoneFree(used: seq<bool>)
    requires forall b :: 0 <= b < |used| ==> used[b]
    ensures |Free(used)| == 0
  {
    assert Free(used) == {};
  }

  /** Bytes off to off + n have a data block in slot t, or t is the indirect block and some of them
      lie behind the direct blocks. */
  predicate Needed(off: nat, n: nat, t: nat) {
    && n > 0
    && if t == NDIRECT then NDIRECT < BlocksFor(off + n)
       else off / BSIZE <= (if t < NDIRECT then t else t - 1) < BlocksFor(off + n)
  }

  /** The slots of the range that are empty. */
  ghost function Lacks(st: Tree, i: nat, off: nat, n: nat): set<nat> {
    set t: nat | t < NSLOTS && Needed(off, n, t) && Ptr(st, i, t) == 0
  }

  /** What bmap() has to allocate for file block bn. */
  ghost function Missing(st: Tree, i: nat, bn: nat): nat
    requires bn < MAXFILE
  {
    (if Ptr(st, i, Slot(bn)) == 0 then 1 else 0) + (if bn >= NDIRECT && Ptr(st, i, NDIRECT) == 0 then 1 else 0)
  }

  /** st has all slots of the range in addition to those of st0, and as many blocks less are
      free. */
  ghost predicate Filled(st0: Tree, st: Tree, i: nat, off: nat, n: nat) {
    && (forall t: nat :: t < NSLOTS ==> (Ptr(st, i, t) != 0 <==> Ptr(st0, i, t) != 0 || Needed(off, n, t)))
    && |Free(st.used)| + |Lacks(st0, i, off, n)| == |Free(st0.used)|
  }

  lemma FilledNothing(st: Tree, i: nat, off: nat)
    ensures Filled(st, st, i, off, 0)
  {
    hide Ptr;
    assert Lacks(st, i, off, 0) == {};
  }

  /** Pass over the part of file block bn behind byte off + tot. */
  lemma NeededNext(off: nat, tot: nat, m: nat, t: nat)
    requires 0 < m && (off + tot) % BSIZE + m <= BSIZE && (tot == 0 || (off + tot) % BSIZE == 0)
    requires (off + tot) / BSIZE < MAXFILE && t < NSLOTS
    ensures var bn := (off + tot) / BSIZE;
            && (Needed(off, tot + m, t) <==> Needed(off, tot, t) || t == Slot(bn) || (t == NDIRECT && bn >= NDIRECT))
            && !Needed(off, tot, Slot(bn))
  {
    DivBlock(off + tot, m);
    assert tot > 0 ==> BlocksFor(off + tot) == (off + tot) / BSIZE;
  }

  lemma LacksNext(st0: Tree, st: Tree, i: nat, off: nat, tot: nat, m: nat)
    requires 0 < m && (off + tot) % BSIZE + m <= BSIZE && (tot == 0 || (off + tot) % BSIZE == 0)
    requires (off + tot) / BSIZE < MAXFILE && Filled(st0, st, i, off, tot)
    ensures |Lacks(st0, i, off, tot + m)| == |Lacks(st0, i, off, tot)| + Missing(st, i, (off + tot) / BSIZE)
  {
    hide Ptr, Needed, Free, Slot, BlocksFor;
    var bn := (off + tot) / BSIZE;
    var a := if Ptr(st, i, Slot(bn)) == 0 then {Slot(bn)} else {};
    var b := if bn >= NDIRECT && Ptr(st, i, NDIRECT) == 0 then {NDIRECT} else {};
    NeededNext(off, tot, m, 0);
    forall t: nat | t < NSLOTS
      ensures t in Lacks(st0, i, off, tot + m) <==> t in Lacks(st0, i, off, tot) + (a + b)
    {
      NeededNext(off, tot, m, t);
    }
    assert Lacks(st0, i, off, tot + m) == Lacks(st0, i, off, tot) + (a + b);
    assert Lacks(st0, i, off, tot) !! a + b && a !! b;
  }

  /** One pass of writei()'s loop, after which file block bn is mapped. */
  lemma FilledNext(st0: Tree, st: Tree, st1: Tree, i: nat, off: nat, tot: nat, m: nat)
    requires 0 < m && (off + tot) % BSIZE + m <= BSIZE && (tot == 0 || (off + tot) % BSIZE == 0)
    requires (off + tot) / BSIZE < MAXFILE && Filled(st0, st, i, off, tot)
    requires Ptr(st1, i, Slot((off + tot) / BSIZE)) != 0
    requires (off + tot) / BSIZE >= NDIRECT ==> Ptr(st1, i, NDIRECT) != 0
    requires forall t :: 0 <= t < NSLOTS && t != Slot((off + tot) / BSIZE) && !(t == NDIRECT <= (off + tot) / BSIZE) ==>
               Ptr(st1, i, t) == Ptr(st, i, t)
    requires |Free(st1.used)| + Missing(st, i, (off + tot) / BSIZE) == |Free(st.used)|
    ensures Filled(st0, st1, i, off, tot + m)
  {
    LacksNext(st0, st, i, off, tot, m);
    hide Ptr, Needed, Free, Lacks, Missing;
    forall t: nat | t < NSLOTS
      ensures Ptr(st1, i, t) != 0 <==> Ptr(st0, i, t) != 0 || Needed(off, tot + m, t)
    {
      NeededNext(off, tot, m, t);
    }
  }

  lemma LacksGrows(st: Tree, i: nat, off: nat, n: nat, n': nat)
    requires n <= n'
    ensures |Lacks(st, i, off, n)| <= |Lacks(st, i, off, n')|
  {
    hide Ptr;
    forall t: nat | Needed(off, n, t)
      ensures Needed(off, n', t)
    {
      NeededGrows(off, n, n', t);
    }
    hide Needed;
    SubsetSmaller(Lacks(st, i, off, n), Lacks(st, i, off, n'));
  }

  lemma NeededGrows(off: nat, n: nat, n': nat, t: nat)
    requires n <= n' && Needed(off, n, t)
    ensures Needed(off, n', t)
  {
  }

  lemma NeededSum(off: nat, k: nat, n: nat, t: nat)
    ensures Needed(off, k + n, t) <==> Needed(off, k, t) || Needed(off + k, n, t)
  {
  }

  /** Two writes, one behind the other. */
  lemma LacksSum(st0: Tree, st: Tree, i: nat, off: nat, k: nat, n: nat)
    requires Filled(st0, st, i, off, k)
    ensures |Lacks(st0, i, off, k + n)| == |Lacks(st0, i, off, k)| + |Lacks(st, i, off + k, n)|
  {
    hide Ptr, Needed;
    forall t: nat
      ensures Needed(off, k + n, t) <==> Needed(off, k, t) || Needed(off + k, n, t)
    {
      NeededSum(off, k, n, t);
    }
    assert Lacks(st0, i, off, k + n) == Lacks(st0, i, off, k) + Lacks(st, i, off + k, n);
    assert Lacks(st0, i, off, k) !! Lacks(st, i, off + k, n);
  }

  lemma FilledSum(st0: Tree, st: Tree, st1: Tree, i: nat, off: nat, k: nat, n: nat)
    requires Filled(st0, st, i, off, k) && Filled(st, st1, i, off + k, n)
    ensures Filled(st0, st1, i, off, k + n)
  {
    LacksSum(st0, st, i, off, k, n);
    hide Ptr, Needed, Lacks, Free;
    forall t: nat | t < NSLOTS
      ensures Ptr(st1, i, t) != 0 <==> Ptr(st0, i, t) != 0 || Needed(off, k + n, t)
    {
      NeededSum(off, k, n, t);
    }
  }

  /** A write that needs no block finds them all mapped. */
  lemma NothingLacking(st: Tree, i: nat, off: nat, n: nat)
    requires forall t: nat :: t < NSLOTS && Needed(off, n, t) ==> Ptr(st, i, t) != 0
    ensures |Lacks(st, i, off, n)| == 0
  {
    hide Ptr, Needed;
    assert Lacks(st, i, off, n) == {};
  }

  /** Slot t is empty in a file of which exactly the first m blocks are mapped. */
  lemma EmptySlot(st: Tree, i: nat, m: nat, t: nat)
    requires Mapped(st, i, m) && t < NSLOTS
    ensures Ptr(st, i, t) == 0 <==> if t == NDIRECT then m <= NDIRECT else m <= (if t < NDIRECT then t else t - 1)
  {
    hide Ptr;
    if t != NDIRECT {
      assert t == Slot(if t < NDIRECT then t else t - 1);
    }
  }

  /** Without holes, the number of blocks a write needs follows from the sizes: one for each file
      block it adds, and the indirect block if it is the first to go behind the direct ones. */
  lemma LacksByCount(st: Tree, i: nat, off: nat, n: nat)
    requires FileOk(st, i) && off <= st.inode[i].size && n > 0 && off + n <= MAXBYTES
    ensures var a, b := BlocksFor(st.inode[i].size), BlocksFor(off + n);
            |Lacks(st, i, off, n)| == if b <= a then 0 else b - a + if a <= NDIRECT < b then 1 else 0
  {
    var a, b := BlocksFor(st.inode[i].size), BlocksFor(off + n);
    var slots := if b <= a then {} else if b <= NDIRECT then Span(a, b - a) else if a <= NDIRECT then Span(a, b - a + 1)
        else Span(a + 1, b - a);
    assert off / BSIZE <= a && b <= MAXFILE;
    hide Ptr, Mapped, BlocksFor;
    forall t: nat
      ensures t in Lacks(st, i, off, n) <==> t in slots
    {
      if t < NSLOTS {
        EmptySlot(st, i, a, t);
      }
    }
    SubsetSmaller(Lacks(st, i, off, n), slots);
    SubsetSmaller(slots, Lacks(st, i, off, n));
  }
}
