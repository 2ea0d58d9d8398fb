/** The free list of umalloc.c as values. Addresses count header-sized units. The ghost
    parts say what the links mean: the free blocks in address order, the blocks handed
    out, and how many units sbrk() has given. */
module FreeList {
  import opened Common

  datatype Heap = Heap(
    ptr: map<int, int>,          // s.ptr of every header
    size: map<int, int>,         // s.size of every header
    ghost blocks: seq<int>,      // free blocks by address; blocks[0] is the static base
    ghost live: map<nat, int>,   // allocated blocks and their sizes
    ghost brk: int,              // end of the memory obtained so far
    ghost granted: int)          // units obtained so far

  ghost function Size(h: Heap, a: int): int {
    if a in h.size then h.size[a] else 0
  }

  /** The link field of the k-th free block leads to the next one, around the circle. */
  ghost predicate Linked(h: Heap) {
    && |h.blocks| > 0
    && (forall k :: 0 <= k < |h.blocks| ==> h.blocks[k] in h.ptr && h.blocks[k] in h.size)
    && (forall k {:trigger h.ptr[h.blocks[k]]} :: 0 <= k < |h.blocks| ==> h.ptr[h.blocks[k]] == NextOf(h.blocks, k))
  }

  ghost function NextOf(bs: seq<int>, k: nat): int
    requires k < |bs|
  {
    if k + 1 < |bs| then bs[k + 1] else bs[0]
  }

  /** Address order, without overlap. */
  ghost predicate Ordered(h: Heap) {
    && |h.blocks| > 0 && Size(h, h.blocks[0]) == 0
    && (forall k :: 0 < k < |h.blocks| ==> Size(h, h.blocks[k]) > 0 && h.blocks[k] + Size(h, h.blocks[k]) <= h.brk)
    && (forall j, k :: 0 <= j < k < |h.blocks| ==>
          h.blocks[j] < h.blocks[k] && h.blocks[j] + Size(h, h.blocks[j]) <= h.blocks[k])
  }

  /** Neighbours do not touch: they would have been merged. */
  ghost predicate Apart(h: Heap, k: int) {
    0 <= k && k + 1 < |h.blocks| ==> h.blocks[k] + Size(h, h.blocks[k]) != h.blocks[k + 1]
  }

  ghost predicate Disjoint(a: int, m: int, b: int, n: int) {
    a + m <= b || b + n <= a
  }

  ghost predicate LiveOk(h: Heap) {
    && |h.blocks| > 0
    && (forall a :: a in h.live ==>
          Size(h, a) == h.live[a] > 0 && h.blocks[0] < a && a + h.live[a] <= h.brk)
    && (forall a, k :: a in h.live && 0 < k < |h.blocks| ==>
          Disjoint(a, h.live[a], h.blocks[k], Size(h, h.blocks[k])))
    && (forall a, b :: a in h.live && b in h.live && a != b ==> Disjoint(a, h.live[a], b, h.live[b]))
  }

  // ----- conservation -----

  ghost function FreeUnits(h: Heap, bs: seq<int>): int {
    if bs == [] then 0 else FreeUnits(h, bs[..|bs| - 1]) + Size(h, bs[|bs| - 1])
  }

  ghost function LiveUnits(live: map<nat, int>): int
    decreases |live|
  {
    if live.Keys == {} then 0
    else
      var a :| a in live.Keys;
      assert live.Keys == (live - {a}).Keys + {a};
      live[a] + LiveUnits(live - {a})
  }

  lemma {:induction false} LiveUnitsRemove(live: map<nat, int>, a: int)
    requires a in live
    ensures LiveUnits(live) == live[a] + LiveUnits(live - {a})
    decreases |live|
  {
    var x :| x in live && LiveUnits(live) == live[x] + LiveUnits(live - {x});
    MapMinusOne(live, x);
    MapMinusOne(live, a);
    if x == a {
    } else {
      LiveUnitsRemove(live - {x}, a);
      LiveUnitsRemove(live - {a}, x);
      assert live - {x} - {a} == live - {a} - {x};
    }
  }

  lemma LiveUnitsAdd(live: map<nat, int>, a: nat, n: int)
    requires a !in live
    ensures LiveUnits(live[a := n]) == LiveUnits(live) + n
  {
    LiveUnitsRemove(live[a := n], a);
    assert live[a := n] - {a} == live;
  }

  lemma {:induction false} FreeUnitsAppend(h: Heap, xs: seq<int>, ys: seq<int>)
    ensures FreeUnits(h, xs + ys) == FreeUnits(h, xs) + FreeUnits(h, ys)
  {
    if ys == [] {
      assert xs + ys == xs;
    } else {
      assert (xs + ys)[..|xs + ys| - 1] == xs + ys[..|ys| - 1];
      FreeUnitsAppend(h, xs, ys[..|ys| - 1]);
    }
  }

  lemma {:induction false} FreeUnitsSame(h: Heap, h': Heap, bs: seq<int>)
    requires forall k :: 0 <= k < |bs| ==> Size(h, bs[k]) == Size(h', bs[k])
    ensures FreeUnits(h, bs) == FreeUnits(h', bs)
  {
    if bs == [] {
    } else {
      FreeUnitsSame(h, h', bs[..|bs| - 1]);
    }
  }

  ghost predicate Conserved(h: Heap) {
    FreeUnits(h, h.blocks) + LiveUnits(h.live) == h.granted
  }

  /** All but the merging of neighbours. */
  ghost predicate Sound(h: Heap) {
    Linked(h) && Ordered(h) && LiveOk(h) && Conserved(h)
  }

  ghost predicate Valid(h: Heap) {
    Sound(h) && forall k :: 0 <= k < |h.blocks| - 1 ==> Apart(h, k)
  }

  // ----- insertion and merging -----

  /** The place for address a: above block k, below block k + 1 if there is one. */
  ghost predicate Place(h: Heap, k: int, a: int) {
    && 0 <= k < |h.blocks| && h.blocks[k] < a
    && (k + 1 < |h.blocks| ==> a < h.blocks[k + 1])
  }

  /** h' is h with the live block bp put behind free block k, unmerged. */
  ghost predicate InsertStep(h: Heap, h': Heap, k: nat, bp: int) {
    && Place(h, k, bp) && bp in h.live && h.blocks[k] in h.ptr
    && With(h.blocks, h'.blocks, k, bp)
    && h'.ptr == h.ptr[bp := h.ptr[h.blocks[k]]][h.blocks[k] := bp]
    && h'.size == h.size && h'.brk == h.brk && h'.granted == h.granted && h'.live == h.live - {bp}
  }

  /** Free blocks are distinct, and bp is none of them. */
  lemma DistinctBlocks(h: Heap, k: nat, bp: int, i: nat)
    requires Ordered(h) && Place(h, k, bp) && i < |h.blocks|
    ensures h.blocks[i] != bp && (i != k ==> h.blocks[i] != h.blocks[k])
  {
    if k + 1 < i {
      assert h.blocks[k + 1] < h.blocks[i];
    }
  }

  lemma InsertLink(h: Heap, h': Heap, k: nat, bp: int, j: nat)
    requires Linked(h) && Ordered(h) && InsertStep(h, h', k, bp) && bp in h.size && j <= |h.blocks|
    ensures h'.blocks[j] in h'.ptr && h'.blocks[j] in h'.size
    ensures h'.ptr[h'.blocks[j]] == NextOf(h'.blocks, j)
  {
    hide Ordered, Place;
    var i := if j <= k then j else j - 1;
    DistinctBlocks(h, k, bp, i);
    DistinctBlocks(h, k, bp, k);
    assert h.blocks[i] in h.ptr && h.ptr[h.blocks[i]] == NextOf(h.blocks, i);
    if j == k + 1 {
      assert h'.ptr[bp] == NextOf(h.blocks, k);
    } else if j != k {
      assert h'.ptr[h.blocks[i]] == h.ptr[h.blocks[i]];
    }
  }

  lemma InsertLinked(h: Heap, h': Heap, k: nat, bp: int)
    requires Linked(h) && Ordered(h) && InsertStep(h, h', k, bp) && bp in h.size
    ensures Linked(h')
  {
    forall j | 0 <= j < |h'.blocks|
      ensures h'.blocks[j] in h'.ptr && h'.blocks[j] in h'.size
      ensures h'.ptr[h'.blocks[j]] == NextOf(h'.blocks, j)
    {
      InsertLink(h, h', k, bp, j);
    }
  }

  /** A live block fits strictly between the free blocks around its place. */
  lemma FitsBetween(h: Heap, k: nat, bp: int, j: nat)
    requires Ordered(h) && LiveOk(h) && Place(h, k, bp) && bp in h.live && j < |h.blocks|
    ensures if j <= k then h.blocks[j] < bp && h.blocks[j] + Size(h, h.blocks[j]) <= bp
            else bp + Size(h, bp) <= h.blocks[j]
  {
    if j < k {
      assert h.blocks[j] + Size(h, h.blocks[j]) <= h.blocks[k];
    } else if j > k + 1 {
      assert h.blocks[k + 1] < h.blocks[j];
    }
    assert 0 < j ==> Disjoint(bp, h.live[bp], h.blocks[j], Size(h, h.blocks[j]));
  }

  lemma InsertPair(h: Heap, h': Heap, k: nat, bp: int, j: nat, m: nat)
    requires Ordered(h) && LiveOk(h) && InsertStep(h, h', k, bp) && j < m < |h'.blocks|
    ensures h'.blocks[j] < h'.blocks[m] && h'.blocks[j] + Size(h', h'.blocks[j]) <= h'.blocks[m]
  {
    hide Place, LiveOk;
    var i, l := if j <= k then j else j - 1, if m <= k then m else m - 1;
    FitsBetween(h, k, bp, i);
    FitsBetween(h, k, bp, l);
    LiveHasHeader(h, bp);
    assert h'.blocks[j] == if j == k + 1 then bp else h.blocks[i];
    assert h'.blocks[m] == if m == k + 1 then bp else h.blocks[l];
  }

  lemma InsertOrdered(h: Heap, h': Heap, k: nat, bp: int)
    requires Ordered(h) && LiveOk(h) && InsertStep(h, h', k, bp)
    ensures Ordered(h')
  {
    hide Place;
    forall j, m | 0 <= j < m < |h'.blocks|
      ensures h'.blocks[j] < h'.blocks[m] && h'.blocks[j] + Size(h', h'.blocks[j]) <= h'.blocks[m]
    {
      InsertPair(h, h', k, bp, j, m);
    }
    forall m | 0 < m < |h'.blocks|
      ensures Size(h', h'.blocks[m]) > 0 && h'.blocks[m] + Size(h', h'.blocks[m]) <= h'.brk
    {
      var l := if m <= k then m else m - 1;
      assert h'.blocks[m] == if m == k + 1 then bp else h.blocks[l];
    }
  }

  lemma InsertLive(h: Heap, h': Heap, k: nat, bp: int)
    requires LiveOk(h) && InsertStep(h, h', k, bp)
    ensures LiveOk(h')
  {
    forall a, j | a in h'.live && 0 < j < |h'.blocks|
      ensures Disjoint(a, h'.live[a], h'.blocks[j], Size(h', h'.blocks[j]))
    {
      if j == k + 1 {
        assert Disjoint(a, h.live[a], bp, h.live[bp]);
      } else {
        var i := if j <= k then j else j - 1;
        assert Disjoint(a, h.live[a], h.blocks[i], Size(h, h.blocks[i]));
      }
    }
  }

  lemma InsertedUnits(h: Heap, bs: seq<int>, bs': seq<int>, k: nat, a: int)
    requires With(bs, bs', k, a)
    ensures FreeUnits(h, bs') == FreeUnits(h, bs) + Size(h, a)
  {
    var xs, ys := bs[..k + 1], bs[k + 1..];
    assert bs == xs + ys;
    assert bs' == xs + [a] + ys;
    FreeUnitsAppend(h, xs, ys);
    FreeUnitsAppend(h, xs + [a], ys);
    FreeUnitsAppend(h, xs, [a]);
    assert FreeUnits(h, [a]) == Size(h, a) by { assert [a][..0] == []; }
  }

  lemma InsertKeeps(h: Heap, h': Heap, k: nat, bp: int)
    requires Sound(h) && InsertStep(h, h', k, bp)
    ensures Sound(h')
  {
    hide Linked, Ordered, FreeUnits, LiveUnits, With, Place;
    assert bp in h.size by { LiveHasHeader(h, bp); }
    InsertLinked(h, h', k, bp);
    InsertOrdered(h, h', k, bp);
    InsertLive(h, h', k, bp);
    InsertedUnits(h, h.blocks, h'.blocks, k, bp);
    FreeUnitsSame(h, h', h'.blocks);
    LiveUnitsRemove(h.live, bp);
  }

  lemma LiveHasHeader(h: Heap, a: int)
    requires LiveOk(h) && a in h.live
    ensures a in h.size && h.size[a] == h.live[a] > 0
  {
  }

  /** h' is h with the touching free blocks k and k + 1 made one. */
  ghost predicate MergeStep(h: Heap, h': Heap, k: nat) {
    && k + 1 < |h.blocks| && h.blocks[k + 1] in h.ptr
    && h.blocks[k] + Size(h, h.blocks[k]) == h.blocks[k + 1]
    && Without(h.blocks, h'.blocks, k + 1)
    && h'.ptr == h.ptr[h.blocks[k] := h.ptr[h.blocks[k + 1]]]
    && h'.size == h.size[h.blocks[k] := Size(h, h.blocks[k]) + Size(h, h.blocks[k + 1])]
    && h'.brk == h.brk && h'.granted == h.granted && h'.live == h.live
  }

  lemma MergeLink(h: Heap, h': Heap, k: nat, j: nat)
    requires Linked(h) && Ordered(h) && MergeStep(h, h', k) && j < |h'.blocks|
    ensures h'.blocks[j] in h'.ptr && h'.blocks[j] in h'.size
    ensures h'.ptr[h'.blocks[j]] == NextOf(h'.blocks, j)
  {
    var i := if j <= k then j else j + 1;
    assert h.blocks[i] in h.ptr && h.ptr[h.blocks[i]] == NextOf(h.blocks, i);
    assert h.ptr[h.blocks[k + 1]] == NextOf(h.blocks, k + 1);
  }

  /** What the sizes are after the merge. */
  lemma MergeSize(h: Heap, h': Heap, k: nat, j: nat)
    requires Ordered(h) && MergeStep(h, h', k) && j < |h'.blocks|
    ensures var i := if j <= k then j else j + 1;
            && h'.blocks[j] == h.blocks[i]
            && Size(h', h'.blocks[j]) == if j == k then Size(h, h.blocks[k]) + Size(h, h.blocks[k + 1])
                else Size(h, h.blocks[i])
    ensures k > 0
  {
  }

  lemma MergeOrdered(h: Heap, h': Heap, k: nat)
    requires Ordered(h) && MergeStep(h, h', k)
    ensures Ordered(h')
  {
    forall j, m | 0 <= j < m < |h'.blocks|
      ensures h'.blocks[j] < h'.blocks[m] && h'.blocks[j] + Size(h', h'.blocks[j]) <= h'.blocks[m]
    {
      MergeSize(h, h', k, j);
      MergeSize(h, h', k, m);
    }
    forall m | 0 <= m < |h'.blocks|
      ensures if m == 0 then Size(h', h'.blocks[m]) == 0
              else Size(h', h'.blocks[m]) > 0 && h'.blocks[m] + Size(h', h'.blocks[m]) <= h'.brk
    {
      MergeSize(h, h', k, m);
    }
  }

  lemma MergeLive(h: Heap, h': Heap, k: nat)
    requires Ordered(h) && LiveOk(h) && MergeStep(h, h', k)
    ensures LiveOk(h')
  {
    MergeSize(h, h', k, 0);
    forall a, j | a in h'.live && 0 < j < |h'.blocks|
      ensures Disjoint(a, h'.live[a], h'.blocks[j], Size(h', h'.blocks[j]))
    {
      MergeSize(h, h', k, j);
      var i := if j <= k then j else j + 1;
      assert Disjoint(a, h.live[a], h.blocks[i], Size(h, h.blocks[i]));
      assert Disjoint(a, h.live[a], h.blocks[k + 1], Size(h, h.blocks[k + 1]));
    }
    forall a | a in h'.live
      ensures Size(h', a) == h'.live[a]
    {
      assert Disjoint(a, h.live[a], h.blocks[k], Size(h, h.blocks[k]));
    }
  }

  lemma RemovedUnits(h: Heap, bs: seq<int>, bs': seq<int>, k: nat)
    requires Without(bs, bs', k)
    ensures FreeUnits(h, bs) == FreeUnits(h, bs') + Size(h, bs[k])
  {
    var xs, ys := bs[..k], bs[k + 1..];
    assert bs == xs + [bs[k]] + ys;
    assert bs' == xs + ys;
    FreeUnitsAppend(h, xs, ys);
    FreeUnitsAppend(h, xs + [bs[k]], ys);
    FreeUnitsAppend(h, xs, [bs[k]]);
    assert FreeUnits(h, [bs[k]]) == Size(h, bs[k]) by { assert [bs[k]][..0] == []; }
  }

  /** Changing the size of one block changes the total by as much. */
  lemma ResizedUnits(h: Heap, h': Heap, bs: seq<int>, k: nat)
    requires k < |bs| && forall j :: 0 <= j < |bs| && j != k ==> Size(h', bs[j]) == Size(h, bs[j])
    ensures FreeUnits(h', bs) == FreeUnits(h, bs) - Size(h, bs[k]) + Size(h', bs[k])
  {
    var bs' := bs[..k] + bs[k + 1..];
    WithoutConcat(bs, k);
    RemovedUnits(h, bs, bs', k);
    RemovedUnits(h', bs, bs', k);
    FreeUnitsSame(h, h', bs');
  }

  lemma MergeConserved(h: Heap, h': Heap, k: nat)
    requires Ordered(h) && Conserved(h) && MergeStep(h, h', k)
    ensures Conserved(h')
  {
    RemovedUnits(h, h.blocks, h'.blocks, k + 1);
    forall j | 0 <= j < |h'.blocks| && j != k
      ensures Size(h', h'.blocks[j]) == Size(h, h'.blocks[j])
    {
      MergeSize(h, h', k, j);
    }
    MergeSize(h, h', k, k);
    ResizedUnits(h, h', h'.blocks, k);
  }

  lemma MergeKeeps(h: Heap, h': Heap, k: nat)
    requires Sound(h) && MergeStep(h, h', k)
    ensures Sound(h')
  {
    forall j | 0 <= j < |h'.blocks|
      ensures h'.blocks[j] in h'.ptr && h'.blocks[j] in h'.size
      ensures h'.ptr[h'.blocks[j]] == NextOf(h'.blocks, j)
    {
      MergeLink(h, h', k, j);
    }
    MergeOrdered(h, h', k);
    MergeLive(h, h', k);
    MergeConserved(h, h', k);
  }

  // ----- free() as a whole -----

  ghost predicate Touch(h: Heap, k: nat) {
    k + 1 < |h.blocks| && h.blocks[k] + Size(h, h.blocks[k]) == h.blocks[k + 1]
  }

  /** No neighbours touch, except perhaps at x. */
  ghost predicate ApartBut(h: Heap, x: int) {
    forall j :: 0 <= j < |h.blocks| - 1 && j != x ==> Apart(h, j)
  }

  ghost function Insert(h: Heap, k: nat, bp: nat): Heap
    requires k < |h.blocks| && h.blocks[k] in h.ptr
  {
    h.(ptr := h.ptr[bp := h.ptr[h.blocks[k]]][h.blocks[k] := bp],
       blocks := h.blocks[..k + 1] + [bp] + h.blocks[k + 1..], live := h.live - {bp})
  }

  ghost function Merge(h: Heap, k: nat): Heap
    requires Touch(h, k) && h.blocks[k + 1] in h.ptr
  {
    h.(ptr := h.ptr[h.blocks[k] := h.ptr[h.blocks[k + 1]]],
       size := h.size[h.blocks[k] := Size(h, h.blocks[k]) + Size(h, h.blocks[k + 1])],
       blocks := h.blocks[..k + 1] + h.blocks[k + 2..])
  }

  /** The free list after free(): insert, merge upwards, merge downwards. */
  ghost function Freed(h: Heap, k: nat, bp: nat): Heap
    requires Valid(h) && bp in h.live && Place(h, k, bp)
  {
    FreeInsert(h, k, bp);
    var h1 := Insert(h, k, bp);
    var h2 := if Touch(h1, k + 1) then Merge(h1, k + 1) else h1;
    FreeMergeNext(h1, k);
    if Touch(h2, k) then Merge(h2, k) else h2
  }

  lemma FreeInsert(h: Heap, k: nat, bp: nat)
    requires Valid(h) && bp in h.live && Place(h, k, bp)
    ensures h.blocks[k] in h.ptr
    ensures var h1 := Insert(h, k, bp);
            && Sound(h1) && |h1.blocks| == |h.blocks| + 1 && h1.blocks[k] == h.blocks[k] && h1.blocks[k + 1] == bp
            && (k + 1 < |h.blocks| ==> h1.blocks[k + 2] == h.blocks[k + 1])
            && forall j :: 0 <= j < |h1.blocks| - 1 && j != k && j != k + 1 ==> Apart(h1, j)
  {
    hide Ordered, LiveOk, Conserved, Apart;
    var h1 := Insert(h, k, bp);
    WithConcat(h.blocks, k, bp);
    InsertKeeps(h, h1, k, bp);
    forall j | 0 <= j < |h1.blocks| - 1 && j != k && j != k + 1
      ensures Apart(h1, j)
    {
      InsertApart(h, h1, k, bp, j);
    }
  }

  lemma InsertApart(h: Heap, h': Heap, k: nat, bp: int, j: nat)
    requires Valid(h) && InsertStep(h, h', k, bp) && j + 1 < |h'.blocks| && j != k && j != k + 1
    ensures Apart(h', j)
  {
    hide Sound;
    assert Apart(h, if j < k then j else j - 1);
  }

  lemma MergeApart(h: Heap, h': Heap, k: nat, j: nat)
    requires Ordered(h) && MergeStep(h, h', k) && j + 1 < |h'.blocks|
    requires Apart(h, if j < k then j else j + 1)
    ensures Apart(h', j)
  {
    hide Ordered;
    MergeSize(h, h', k, j);
    MergeSize(h, h', k, j + 1);
  }

  lemma MergeSound(h: Heap, k: nat)
    requires Sound(h) && Touch(h, k)
    ensures h.blocks[k + 1] in h.ptr && Ordered(h) && Sound(Merge(h, k)) && MergeStep(h, Merge(h, k), k)
    ensures |Merge(h, k).blocks| == |h.blocks| - 1
  {
    WithoutConcat(h.blocks, k + 1);
    MergeKeeps(h, Merge(h, k), k);
  }

  lemma FreeMerges(h1: Heap, k: nat)
    requires Sound(h1) && Touch(h1, k + 1)
    requires forall j :: 0 <= j < |h1.blocks| - 1 && j != k && j != k + 1 ==> Apart(h1, j)
    ensures h1.blocks[k + 2] in h1.ptr
    ensures var h2 := Merge(h1, k + 1);
            && Sound(h2) && ApartBut(h2, k) && k + 1 < |h2.blocks|
            && h2.blocks[k] == h1.blocks[k] && h2.blocks[k + 1] == h1.blocks[k + 1]
            && Size(h2, h1.blocks[k + 1]) >= Size(h1, h1.blocks[k + 1])
  {
    hide Linked, LiveOk, Conserved, Apart, Ordered, FreeUnits, LiveUnits;
    MergeSound(h1, k + 1);
    var h2 := Merge(h1, k + 1);
    forall j | 0 <= j < |h2.blocks| - 1 && j != k
      ensures Apart(h2, j)
    {
      MergeApart(h1, h2, k + 1, j);
    }
    MergeSize(h1, h2, k + 1, k + 1);
  }

  lemma FreeMergeNext(h1: Heap, k: nat)
    requires Sound(h1) && k + 1 < |h1.blocks|
    requires forall j :: 0 <= j < |h1.blocks| - 1 && j != k && j != k + 1 ==> Apart(h1, j)
    ensures Touch(h1, k + 1) ==> h1.blocks[k + 2] in h1.ptr
    ensures var h2 := if Touch(h1, k + 1) then Merge(h1, k + 1) else h1;
            && Sound(h2) && ApartBut(h2, k) && k + 1 < |h2.blocks|
            && h2.blocks[k] == h1.blocks[k] && h2.blocks[k + 1] == h1.blocks[k + 1]
            && Size(h2, h1.blocks[k + 1]) >= Size(h1, h1.blocks[k + 1])
            && (Touch(h2, k) ==> h2.blocks[k + 1] in h2.ptr)
  {
    hide Sound, Apart, Merge;
    if Touch(h1, k + 1) {
      FreeMerges(h1, k);
      SoundLinks(Merge(h1, k + 1));
    } else {
      SoundLinks(h1);
      NotTouchApart(h1, k + 1);
    }
  }

  lemma NotTouchApart(h: Heap, k: nat)
    requires !Touch(h, k)
    ensures Apart(h, k)
  {
  }

  lemma SoundLinks(h: Heap)
    requires Sound(h)
    ensures |h.blocks| > 0 && forall j :: 0 <= j < |h.blocks| ==> h.blocks[j] in h.ptr && h.blocks[j] in h.size
  {
  }

  /** free() keeps the free list circular, address-ordered, disjoint and fully merged,
      loses no unit, and leaves the freed units in block k or in the one behind it. */
  lemma FreeCorrect(h: Heap, k: nat, bp: nat)
    requires Valid(h) && bp in h.live && Place(h, k, bp)
    ensures var h' := Freed(h, k, bp);
            && Valid(h') && h'.live == h.live - {bp} && h'.granted == h.granted && h'.brk == h.brk
            && k < |h'.blocks| && h'.blocks[k] == h.blocks[k] && h'.blocks[0] == h.blocks[0]
            && (Size(h', h'.blocks[k]) >= h.live[bp]
                || (k + 1 < |h'.blocks| && Size(h', h'.blocks[k + 1]) >= h.live[bp]))
  {
    hide LiveOk, Conserved, Linked, Ordered, Apart;
    FreeInsert(h, k, bp);
    var h1 := Insert(h, k, bp);
    FreeMergeNext(h1, k);
    var h2 := if Touch(h1, k + 1) then Merge(h1, k + 1) else h1;
    LiveSize(h, bp);
    FreeMergePrev(h2, k);
  }

  lemma LiveSize(h: Heap, a: nat)
    requires Sound(h) && a in h.live
    ensures Size(h, a) == h.live[a] > 0 && a in h.size
  {
  }

  lemma FreeMergePrev(h2: Heap, k: nat)
    requires Sound(h2) && ApartBut(h2, k) && k + 1 < |h2.blocks|
    ensures Touch(h2, k) ==> h2.blocks[k + 1] in h2.ptr
    ensures var h3 := if Touch(h2, k) then Merge(h2, k) else h2;
            && Valid(h3) && k < |h3.blocks| && h3.blocks[k] == h2.blocks[k] && h3.blocks[0] == h2.blocks[0]
            && (if Touch(h2, k) then Size(h3, h3.blocks[k]) >= Size(h2, h2.blocks[k + 1]) else h3 == h2)
  {
    hide Linked, LiveOk, Conserved, Apart;
    if Touch(h2, k) {
      MergeSound(h2, k);
      var h := Merge(h2, k);
      forall j | 0 <= j < |h.blocks| - 1
        ensures Apart(h, j)
      {
        MergeApart(h2, h, k, j);
      }
      MergeSize(h2, h, k, k);
      MergeSize(h2, h, k, 0);
    } else {
      NotTouchApart(h2, k);
    }
  }

  // ----- malloc() and sbrk() -----

  /** Free block k, an exact fit, is unlinked and handed out. */
  ghost function TakeWhole(h: Heap, k: nat): Heap
    requires 0 < k < |h.blocks| && h.blocks[k] in h.ptr && h.blocks[k] >= 0
  {
    h.(ptr := h.ptr[h.blocks[k - 1] := h.ptr[h.blocks[k]]],
       blocks := h.blocks[..k] + h.blocks[k + 1..],
       live := h.live[h.blocks[k] := Size(h, h.blocks[k])])
  }

  /** The last n units of free block k are handed out. */
  ghost function TakeTail(h: Heap, k: nat, n: int): Heap
    requires 0 < k < |h.blocks| && h.blocks[k] >= 0 && 0 < n < Size(h, h.blocks[k])
  {
    var p := h.blocks[k];
    var q := p + Size(h, p) - n;
    h.(size := h.size[p := Size(h, p) - n][q := n], live := h.live[q := n])
  }

  /** sbrk() hands the allocator n fresh units at a. */
  ghost function Grant(h: Heap, a: nat, n: int): Heap {
    h.(size := h.size[a := n], live := h.live[a := n], brk := a + n, granted := h.granted + n)
  }

  lemma WholeLink(h: Heap, k: nat, h': Heap, j: nat)
    requires Linked(h) && Ordered(h) && 0 < k < |h.blocks| && Without(h.blocks, h'.blocks, k)
    requires h'.ptr == h.ptr[h.blocks[k - 1] := h.ptr[h.blocks[k]]] && h'.size == h.size && j < |h'.blocks|
    ensures h'.blocks[j] in h'.ptr && h'.blocks[j] in h'.size
    ensures h'.ptr[h'.blocks[j]] == NextOf(h'.blocks, j)
  {
    var i := if j < k then j else j + 1;
    assert h.blocks[i] in h.ptr && h.ptr[h.blocks[i]] == NextOf(h.blocks, i);
    assert h.ptr[h.blocks[k]] == NextOf(h.blocks, k);
    assert i != k - 1 ==> h.blocks[i] != h.blocks[k - 1];
  }

  lemma WholeOrdered(h: Heap, k: nat, h': Heap)
    requires Ordered(h) && 0 < k < |h.blocks| && Without(h.blocks, h'.blocks, k)
    requires h'.size == h.size && h'.brk == h.brk
    ensures Ordered(h')
    ensures forall j :: 0 <= j < |h'.blocks| - 1 && (forall i :: 0 <= i < |h.blocks| - 1 ==> Apart(h, i)) ==>
              Apart(h', j)
  {
    forall j | 0 <= j < |h'.blocks| - 1 && (forall i :: 0 <= i < |h.blocks| - 1 ==> Apart(h, i))
      ensures Apart(h', j)
    {
      assert Apart(h, if j < k then j else j + 1);
    }
  }

  lemma WholeLive(h: Heap, k: nat, h': Heap)
    requires Ordered(h) && LiveOk(h) && 0 < k < |h.blocks| && Without(h.blocks, h'.blocks, k) && h.blocks[k] >= 0
    requires h'.size == h.size && h'.brk == h.brk && h'.live == h.live[h.blocks[k] := Size(h, h.blocks[k])]
    ensures LiveOk(h') && h.blocks[k] !in h.live
  {
    var p := h.blocks[k];
    assert forall a :: a in h.live ==> Disjoint(a, h.live[a], p, Size(h, p));
    forall a, j | a in h'.live && 0 < j < |h'.blocks|
      ensures Disjoint(a, h'.live[a], h'.blocks[j], Size(h', h'.blocks[j]))
    {
      var i := if j < k then j else j + 1;
      if a == p {
        assert i < k ==> h.blocks[i] + Size(h, h.blocks[i]) <= p;
        assert i > k ==> p + Size(h, p) <= h.blocks[i];
      } else {
        assert Disjoint(a, h.live[a], h.blocks[i], Size(h, h.blocks[i]));
      }
    }
  }

  lemma TakeWholeKeeps(h: Heap, k: nat)
    requires Valid(h) && 0 < k < |h.blocks| && h.blocks[0] >= 0
    ensures h.blocks[k] in h.ptr && h.blocks[k] >= 0
    ensures Valid(TakeWhole(h, k)) && h.blocks[k] !in h.live
    ensures TakeWhole(h, k).blocks[0] == h.blocks[0] && h.blocks[k - 1] in TakeWhole(h, k).blocks
  {
    hide LiveOk, Apart, FreeUnits, LiveUnits;
    assert h.blocks[0] < h.blocks[k];
    var h' := TakeWhole(h, k);
    WithoutConcat(h.blocks, k);
    forall j | 0 <= j < |h'.blocks|
      ensures h'.blocks[j] in h'.ptr && h'.blocks[j] in h'.size
      ensures h'.ptr[h'.blocks[j]] == NextOf(h'.blocks, j)
    {
      WholeLink(h, k, h', j);
    }
    WholeOrdered(h, k, h');
    WholeLive(h, k, h');
    RemovedUnits(h, h.blocks, h'.blocks, k);
    FreeUnitsSame(h, h', h'.blocks);
    LiveUnitsAdd(h.live, h.blocks[k], Size(h, h.blocks[k]));
    assert h'.blocks[k - 1] == h.blocks[k - 1];
  }

  lemma TailSizes(h: Heap, k: nat, n: int, j: nat)
    requires Ordered(h) && 0 < k < |h.blocks| && h.blocks[0] >= 0 && 0 < n < Size(h, h.blocks[k]) && j < |h.blocks|
    ensures h.blocks[k] >= 0
    ensures Size(TakeTail(h, k, n), h.blocks[j]) == if j == k then Size(h, h.blocks[k]) - n else Size(h, h.blocks[j])
  {
    var q := h.blocks[k] + Size(h, h.blocks[k]) - n;
    assert h.blocks[0] < h.blocks[k];
    assert j > k ==> q < h.blocks[j];
    assert j < k ==> h.blocks[j] < h.blocks[k];
  }

  lemma TailOrdered(h: Heap, k: nat, n: int)
    requires Ordered(h) && 0 < k < |h.blocks| && h.blocks[0] >= 0 && 0 < n < Size(h, h.blocks[k])
    requires forall j :: 0 <= j < |h.blocks| - 1 ==> Apart(h, j)
    ensures h.blocks[k] >= 0 && Ordered(TakeTail(h, k, n))
    ensures forall j :: 0 <= j < |h.blocks| - 1 ==> Apart(TakeTail(h, k, n), j)
  {
    assert h.blocks[0] < h.blocks[k];
    var h' := TakeTail(h, k, n);
    forall j | 0 <= j < |h.blocks|
      ensures Size(h', h.blocks[j]) == if j == k then Size(h, h.blocks[k]) - n else Size(h, h.blocks[j])
    {
      TailSizes(h, k, n, j);
    }
    hide Size;
    forall j | 0 <= j < |h.blocks| - 1
      ensures Apart(h', j)
    {
      assert Apart(h, j);
      assert h.blocks[j] + Size(h, h.blocks[j]) <= h.blocks[j + 1];
    }
  }

  /** Nothing live overlaps the tail of a free block. */
  lemma TailIsFree(h: Heap, k: nat, n: int, a: nat)
    requires Ordered(h) && LiveOk(h) && 0 < k < |h.blocks| && 0 < n < Size(h, h.blocks[k]) && a in h.live
    ensures Disjoint(a, h.live[a], h.blocks[k] + Size(h, h.blocks[k]) - n, n)
    ensures a != h.blocks[k] && a != h.blocks[k] + Size(h, h.blocks[k]) - n
  {
    assert Disjoint(a, h.live[a], h.blocks[k], Size(h, h.blocks[k]));
  }

  lemma TailLive(h: Heap, k: nat, n: int)
    requires Ordered(h) && LiveOk(h) && 0 < k < |h.blocks| && h.blocks[0] >= 0 && 0 < n < Size(h, h.blocks[k])
    ensures h.blocks[k] >= 0 && LiveOk(TakeTail(h, k, n))
  {
    assert h.blocks[0] < h.blocks[k];
    var h' := TakeTail(h, k, n);
    var q := h.blocks[k] + Size(h, h.blocks[k]) - n;
    forall a | a in h.live
      ensures Disjoint(a, h.live[a], q, n) && a != h.blocks[k] && a != q
    {
      TailIsFree(h, k, n, a);
    }
    forall a, j | a in h'.live && 0 < j < |h.blocks|
      ensures Disjoint(a, h'.live[a], h.blocks[j], Size(h', h.blocks[j]))
    {
      TailSizes(h, k, n, j);
      if a == q {
        assert j < k ==> h.blocks[j] + Size(h, h.blocks[j]) <= h.blocks[k];
        assert j > k ==> h.blocks[k] + Size(h, h.blocks[k]) <= h.blocks[j];
      } else {
        assert Disjoint(a, h.live[a], h.blocks[j], Size(h, h.blocks[j]));
      }
    }
  }

  lemma TailConserved(h: Heap, k: nat, n: int)
    requires Ordered(h) && LiveOk(h) && Conserved(h) && 0 < k < |h.blocks| && h.blocks[0] >= 0
    requires 0 < n < Size(h, h.blocks[k])
    ensures h.blocks[k] >= 0 && Conserved(TakeTail(h, k, n)) && h.blocks[k] + Size(h, h.blocks[k]) - n !in h.live
  {
    hide LiveOk, Ordered, FreeUnits, LiveUnits;
    TailSizes(h, k, n, 0);
    var h', q := TakeTail(h, k, n), h.blocks[k] + Size(h, h.blocks[k]) - n;
    forall a: nat | a in h.live
      ensures a != q
    {
      TailIsFree(h, k, n, a);
    }
    forall j | 0 <= j < |h.blocks|
      ensures Size(h', h.blocks[j]) == if j == k then Size(h, h.blocks[k]) - n else Size(h, h.blocks[j])
    {
      TailSizes(h, k, n, j);
    }
    ResizedUnits(h, h', h.blocks, k);
    LiveUnitsAdd(h.live, q, n);
  }

  lemma TakeTailKeeps(h: Heap, k: nat, n: int)
    requires Valid(h) && 0 < k < |h.blocks| && h.blocks[0] >= 0 && 0 < n < Size(h, h.blocks[k])
    ensures h.blocks[k] >= 0 && Valid(TakeTail(h, k, n))
    ensures h.blocks[k] + Size(h, h.blocks[k]) - n !in h.live
  {
    hide LiveOk, Apart, FreeUnits, LiveUnits, Conserved;
    TailOrdered(h, k, n);
    TailLive(h, k, n);
    TailConserved(h, k, n);
  }

  /** Memory past the break is in nobody's way. */
  lemma GrantSizes(h: Heap, a: nat, n: int, k: nat)
    requires Ordered(h) && a >= h.brk > h.blocks[0] && k < |h.blocks|
    ensures h.blocks[k] != a && Size(Grant(h, a, n), h.blocks[k]) == Size(h, h.blocks[k])
  {
  }

  lemma GrantLinked(h: Heap, a: nat, n: int)
    requires Linked(h)
    ensures Linked(Grant(h, a, n))
  {
  }

  lemma GrantApart(h: Heap, a: nat, n: int, k: nat)
    requires Ordered(h) && a >= h.brk > h.blocks[0] && k + 1 < |h.blocks| && Apart(h, k)
    ensures Apart(Grant(h, a, n), k)
  {
    hide Ordered;
    GrantSizes(h, a, n, k);
  }

  lemma GrantOrdered(h: Heap, a: nat, n: int)
    requires Ordered(h) && a >= h.brk > h.blocks[0] && n > 0
    ensures Ordered(Grant(h, a, n))
    ensures FreeUnits(Grant(h, a, n), h.blocks) == FreeUnits(h, h.blocks)
  {
    var h' := Grant(h, a, n);
    forall k | 0 <= k < |h.blocks|
      ensures Size(h', h.blocks[k]) == Size(h, h.blocks[k])
    {
      GrantSizes(h, a, n, k);
    }
    FreeUnitsSame(h, h', h.blocks);
  }

  lemma GrantLive(h: Heap, a: nat, n: int)
    requires Ordered(h) && LiveOk(h) && a >= h.brk > h.blocks[0] && n > 0
    ensures LiveOk(Grant(h, a, n)) && a !in h.live
  {
    var h' := Grant(h, a, n);
    forall x, k | x in h'.live && 0 < k < |h.blocks|
      ensures Disjoint(x, h'.live[x], h.blocks[k], Size(h', h.blocks[k]))
    {
      GrantSizes(h, a, n, k);
      assert x != a ==> Disjoint(x, h.live[x], h.blocks[k], Size(h, h.blocks[k]));
    }
  }

  lemma GrantKeeps(h: Heap, a: nat, n: int)
    requires Valid(h) && a >= h.brk > h.blocks[0] && n > 0
    ensures Valid(Grant(h, a, n)) && a !in h.live
  {
    hide FreeUnits, LiveUnits, Linked, LiveOk, Apart;
    GrantLinked(h, a, n);
    GrantOrdered(h, a, n);
    GrantLive(h, a, n);
    forall k | 0 <= k < |h.blocks| - 1
      ensures Apart(Grant(h, a, n), k)
    {
      GrantApart(h, a, n, k);
    }
    LiveUnitsAdd(h.live, a, n);
  }

  ghost function Initial(base: int, brk: int): Heap {
    Heap(map[base := base], map[base := 0], [base], map[], brk, 0)
  }

  lemma InitialValid(base: int, brk: int)
    ensures Valid(Initial(base, brk))
  {
    var h := Initial(base, brk);
    assert h.blocks[..0] == [];
    assert FreeUnits(h, h.blocks) == 0;
    assert LiveUnits(map[]) == 0;
  }
}
