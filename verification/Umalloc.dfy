/** umalloc.c as it runs: the circular search loops of free() and malloc() over the header
    fields, and morecore() on top of sbrk(). */
module Umalloc {
  import opened Common
  import opened FreeList
  import opened Ring

  /** The header units malloc() asks for, with its 32-bit arithmetic. */
  function Units(nbytes: nat): (n: nat)
    requires nbytes < TWO32
    ensures n > 0
  {
    ((nbytes + 7) % TWO32) / 8 + 1
  }

  /** The units hold the header and nbytes bytes exactly when nbytes + 7 does not wrap
      around: malloc(0xFFFFFFF9) asks for a single unit. */
  lemma UnitsSuffice(nbytes: nat)
    requires nbytes < TWO32
    ensures 8 * (Units(nbytes) - 1) >= nbytes <==> nbytes + 7 < TWO32
    ensures nbytes + 7 < TWO32 ==> 8 * (Units(nbytes) - 1) < nbytes + 8
  {
    var s := (nbytes + 7) % TWO32;
    assert s == if nbytes + 7 < TWO32 then nbytes + 7 else nbytes + 7 - TWO32;
    assert 8 * (s / 8) <= s < 8 * (s / 8) + 8;
  }

  /** An address strictly between two others on the circle from f to c. */
  ghost predicate Passed(f: nat, c: nat, j: nat) {
    if f < c then f < j < c else j > f || j < c
  }

  /** Block k is the first behind freep that has n units. */
  ghost predicate FirstFit(h: Heap, freep: int, n: nat, k: nat) {
    && 0 < k < |h.blocks| && Size(h, h.blocks[k]) >= n
    && exists f: nat ::
         f < |h.blocks| && h.blocks[f] == freep
         && forall j :: 0 <= j < |h.blocks| && Passed(f, k, j) ==> Size(h, h.blocks[j]) < n
  }

  /** r is where the last n units of block k begin: all of it if it is an exact fit. */
  ghost predicate LastUnits(h: Heap, k: nat, n: nat, r: nat) {
    k < |h.blocks| && r == h.blocks[k] + Size(h, h.blocks[k]) - n
  }

  /** How many steps around the circle from c to f. */
  ghost function Distance(n: nat, c: nat, f: nat): nat
    requires c < n && f < n
  {
    if c <= f then f - c else n - c + f
  }

  lemma PlaceExists(h: Heap, bp: nat) returns (k: nat)
    requires Valid(h) && bp in h.live
    ensures Place(h, k, bp)
  {
    k := |h.blocks| - 1;
    while h.blocks[k] >= bp
      invariant k < |h.blocks| && (k + 1 < |h.blocks| ==> h.blocks[k + 1] >= bp)
    {
      k := k - 1;
    }
    if k + 1 < |h.blocks| {
      assert Disjoint(bp, h.live[bp], h.blocks[k + 1], Size(h, h.blocks[k + 1]));
    }
  }

  /** The test in free()'s loop, at the c-th free block, recognises the place for bp. */
  lemma LoopTestIsPlace(h: Heap, c: nat, bp: nat)
    requires Valid(h) && bp in h.live && c < |h.blocks|
    ensures h.blocks[c] in h.ptr && h.ptr[h.blocks[c]] == h.blocks[Succ(|h.blocks|, c)]
    ensures var p, q := h.blocks[c], h.ptr[h.blocks[c]];
            (bp > p && bp < q) || (p >= q && (bp > p || bp < q)) <==> Place(h, c, bp)
  {
    assert h.ptr[h.blocks[c]] == NextOf(h.blocks, c);
    assert c > 0 ==> h.blocks[0] < h.blocks[c];
    assert h.blocks[0] < bp;
  }

  lemma InsertFields(h: Heap, k: nat, bp: nat)
    requires k < |h.blocks| && h.blocks[k] in h.ptr
    ensures var h1 := Insert(h, k, bp);
            h1.ptr == h.ptr[bp := h.ptr[h.blocks[k]]][h.blocks[k] := bp] && h1.size == h.size
  {
  }

  lemma MergeFields(h: Heap, k: nat)
    requires Touch(h, k) && h.blocks[k + 1] in h.ptr && h.blocks[k] in h.size && h.blocks[k + 1] in h.size
    ensures var p, q := h.blocks[k], h.blocks[k + 1];
            Merge(h, k).ptr == h.ptr[p := h.ptr[q]] && Merge(h, k).size == h.size[p := h.size[p] + h.size[q]]
  {
  }

  lemma TouchTest(h: Heap, k: nat)
    requires k + 1 < |h.blocks| && h.blocks[k] in h.size
    ensures Touch(h, k) <==> h.blocks[k] + h.size[h.blocks[k]] == h.blocks[k + 1]
  {
  }

  /** Whether the block behind bp touches it, as free() tests it. */
  lemma UpTest(h: Heap, k: nat, bp: nat)
    requires Valid(h) && bp in h.live && Place(h, k, bp)
    ensures h.blocks[k] in h.ptr && h.blocks[k] in h.size && bp in h.size
    ensures Touch(Insert(h, k, bp), k + 1) <==> bp + h.size[bp] == h.ptr[h.blocks[k]]
    ensures Touch(Insert(h, k, bp), k + 1) ==>
              k + 1 < |h.blocks| && h.ptr[h.blocks[k]] == h.blocks[k + 1] && h.blocks[k + 1] in h.ptr
                  && h.blocks[k + 1] in h.size
  {
    hide Valid, Insert, Touch, Sound, Apart;
    FreeInsert(h, k, bp);
    InsertFields(h, k, bp);
    LiveSizeOf(h, bp);
    FreedNeighbours(h, k, bp);
    if k + 1 < |h.blocks| {
      TouchTest(Insert(h, k, bp), k + 1);
    } else {
      NoTouchAtEnd(Insert(h, k, bp), k + 1);
    }
  }

  lemma NoTouchAtEnd(h: Heap, k: nat)
    requires k + 1 >= |h.blocks|
    ensures !Touch(h, k)
  {
  }

  lemma LiveSizeOf(h: Heap, a: nat)
    requires Valid(h) && a in h.live
    ensures a in h.size && h.size[a] == h.live[a] > 0 && Size(h, a) == h.size[a]
  {
    LiveSize(h, a);
  }

  /** The fields after the upward merge. */
  lemma UpFields(h: Heap, k: nat, bp: nat)
    requires Valid(h) && bp in h.live && Place(h, k, bp)
    ensures h.blocks[k] in h.ptr && h.blocks[k] in h.size && bp in h.size && h.blocks[k] != bp
    ensures var h1 := Insert(h, k, bp);
            && (Touch(h1, k + 1) ==> h1.blocks[k + 2] in h1.ptr)
            && var h2 := if Touch(h1, k + 1) then Merge(h1, k + 1) else h1;
               var p := h.blocks[k];
               var q := h.ptr[p];
               && (bp + h.size[bp] == q ==> q in h.ptr && q in h.size)
               && h2.ptr == h.ptr[bp := if bp + h.size[bp] == q then h.ptr[q] else q][p := bp]
               && h2.size == (if bp + h.size[bp] == q then h.size[bp := h.size[bp] + h.size[q]] else h.size)
               && k + 1 < |h2.blocks| && h2.blocks[k] == p && h2.blocks[k + 1] == bp
               && (Touch(h2, k) ==> h2.blocks[k + 1] in h2.ptr)
  {
    hide Valid, Insert, Merge, Touch, Sound, Apart, ApartBut;
    FreeInsert(h, k, bp);
    var h1 := Insert(h, k, bp);
    FreeMergeNext(h1, k);
    InsertFields(h, k, bp);
    LiveSizeOf(h, bp);
    FreedNeighbours(h, k, bp);
    UpTest(h, k, bp);
    if Touch(h1, k + 1) {
      assert h.blocks[k + 1] != bp && h.blocks[k + 1] != h.blocks[k];
      MergeFields(h1, k + 1);
      var q := h.blocks[k + 1];
      assert h1.ptr[q] == h.ptr[q];
    }
  }

  /** The header fields free() computes are those of insert, merge up, merge down. */
  lemma FreedFields(h: Heap, k: nat, bp: nat)
    requires Valid(h) && bp in h.live && Place(h, k, bp)
    ensures h.blocks[k] in h.ptr && h.blocks[k] in h.size && bp in h.size
    ensures var p := h.blocks[k];
            var q := h.ptr[p];
            && (bp + h.size[bp] == q ==> q in h.ptr && q in h.size)
            && var up := bp + h.size[bp] == q;
               var ptr1 := h.ptr[bp := if up then h.ptr[q] else q];
               var size1 := if up then h.size[bp := h.size[bp] + h.size[q]] else h.size;
               && p in size1
               && var down := p + size1[p] == bp;
                  && Freed(h, k, bp).ptr == (if down then ptr1[p := ptr1[bp]] else ptr1[p := bp])
                  && Freed(h, k, bp).size == (if down then size1[p := size1[p] + size1[bp]] else size1)
  {
    hide Valid, Insert, Merge, Touch, Sound, Apart, ApartBut;
    UpFields(h, k, bp);
    var h1 := Insert(h, k, bp);
    var h2 := if Touch(h1, k + 1) then Merge(h1, k + 1) else h1;
    TouchTest(h2, k);
    if Touch(h2, k) {
      MergeFields(h2, k);
    }
  }

  lemma FreedNeighbours(h: Heap, k: nat, bp: nat)
    requires Valid(h) && bp in h.live && Place(h, k, bp)
    ensures h.blocks[k] in h.ptr && h.blocks[k] in h.size && h.blocks[k] != bp
    ensures h.ptr[h.blocks[k]] == if k + 1 < |h.blocks| then h.blocks[k + 1] else h.blocks[0]
    ensures forall j :: 0 <= j < |h.blocks| ==> h.blocks[j] in h.ptr && h.blocks[j] in h.size
    ensures k + 1 == |h.blocks| ==> bp + Size(h, bp) != h.blocks[0]
    ensures k + 1 < |h.blocks| ==> h.blocks[k + 1] != bp && h.blocks[k + 1] != h.blocks[k]
    ensures k < |h.blocks|
  {
    assert h.ptr[h.blocks[k]] == NextOf(h.blocks, k);
  }

  class Allocator {
    const base: nat
    var heap: Heap
    var freep: nat   // 0 until the first malloc()

    ghost predicate Ok()
      reads this
    {
      && 0 < base < heap.brk
      && (freep == 0 ==> heap.live == map[] && heap.granted == 0)
      && (freep != 0 ==> Valid(heap) && heap.blocks[0] == base && freep in heap.blocks)
    }

    constructor (base: nat, brk: nat)
      requires 0 < base < brk
      ensures Ok() && heap.live == map[]
    {
      this.base, freep := base, 0;
      heap := Heap(map[], map[], [], map[], brk, 0);
    }

    /** free()'s search, starting at freep: ends because each step is one closer to the
        place around the circle. */
    method FindPlace(bp: nat) returns (p: int, ghost k: nat)
      requires Ok() && bp in heap.live
      ensures Place(heap, k, bp) && p == heap.blocks[k]
    {
      hide Valid, Place;
      k := PlaceExists(heap, bp);
      p := freep;
      ghost var c :| 0 <= c < |heap.blocks| && heap.blocks[c] == freep;
      LoopTestIsPlace(heap, c, bp);
      while !(bp > p && bp < heap.ptr[p])
        invariant 0 <= c < |heap.blocks| && p == heap.blocks[c] && p in heap.ptr
        invariant heap.ptr[p] == heap.blocks[Succ(|heap.blocks|, c)]
        decreases Distance(|heap.blocks|, c, k)
      {
        LoopTestIsPlace(heap, c, bp);
        if p >= heap.ptr[p] && (bp > p || bp < heap.ptr[p]) {
          break;
        }
        p := heap.ptr[p];
        c := Succ(|heap.blocks|, c);
        LoopTestIsPlace(heap, c, bp);
      }
      LoopTestIsPlace(heap, c, bp);
      k := c;
    }

    /** Returns the block with header bp to the free list. */
    method Free(bp: nat)
      requires Ok() && bp in heap.live
      modifies this`heap, this`freep
      ensures Ok() && freep != 0 && heap.live == old(heap).live - {bp}
      ensures heap.granted == old(heap).granted && heap.brk == old(heap).brk
      ensures exists k :: Landed(heap, freep, k, old(heap).live[bp])
    {
      hide Valid, Place, Freed, Size;
      var p; ghost var k;
      p, k := FindPlace(bp);
      FreedFields(heap, k, bp);
      FreeCorrect(heap, k, bp);
      ghost var h' := Freed(heap, k, bp);
      var ptr, size := heap.ptr, heap.size;
      var q := ptr[p];
      if bp + size[bp] == q {
        size := size[bp := size[bp] + size[q]];
        ptr := ptr[bp := ptr[q]];
      } else {
        ptr := ptr[bp := q];
      }
      if p + size[p] == bp {
        size := size[p := size[p] + size[bp]];
        ptr := ptr[p := ptr[bp]];
      } else {
        ptr := ptr[p := bp];
      }
      PlaceIndex(heap, k, bp);
      BlocksPositive(heap, k);
      freep := p;
      heap := Heap(ptr, size, h'.blocks, h'.live, heap.brk, heap.granted);
      assert heap == h';
      assert Landed(heap, freep, k, old(heap).live[bp]);
    }

    /** Gets at least nu units from sbrk(), which grants them at address grant or refuses. */
    method Morecore(nu: nat, grant: Option<nat>) returns (ok: bool)
      requires Ok() && freep != 0 && nu > 0
      requires grant.Some? ==> grant.value >= heap.brk
      modifies this`heap, this`freep
      ensures Ok() && freep != 0 && heap.live == old(heap).live
      ensures ok <==> grant.Some?
      ensures !ok ==> heap == old(heap) && freep == old(freep)
      ensures ok ==> heap.granted == old(heap).granted + (if nu < 4096 then 4096 else nu)
      ensures ok ==> exists k :: Landed(heap, freep, k, nu)
    {
      hide Valid, Landed;
      var n := if nu < 4096 then 4096 else nu;
      if grant.None? {
        return false;
      }
      var a := grant.value;
      GrantKeeps(heap, a, n);
      ghost var h0 := heap;
      heap := heap.(size := heap.size[a := n], live := heap.live[a := n], brk := a + n, granted := heap.granted + n);
      assert heap == Grant(h0, a, n);
      Free(a);
      assert heap.live == h0.live;
      ghost var k :| Landed(heap, freep, k, n);
      LandedLess(heap, freep, k, n, nu);
      return true;
    }

    /** One lap of malloc()'s search from freep: the first block that is large enough, or
        the certainty that there is none. */
    method SearchLap(nunits: nat) returns (found: bool, prevp: nat, p: nat, ghost k: nat, ghost f: nat)
      requires Ok() && freep != 0 && nunits > 0
      ensures found ==> 0 < k < |heap.blocks| && prevp == heap.blocks[k - 1] && p == heap.blocks[k]
      ensures f < |heap.blocks| && heap.blocks[f] == freep
      ensures found ==> Size(heap, p) >= nunits
      ensures found ==> forall j :: 0 <= j < |heap.blocks| && Passed(f, k, j) ==> Size(heap, heap.blocks[j]) < nunits
      ensures found ==> FirstFit(heap, freep, nunits, k)
      ensures !found ==> forall j :: 0 <= j < |heap.blocks| ==> Size(heap, heap.blocks[j]) < nunits
    {
      hide Valid;
      ghost var n := |heap.blocks|;
      f :| 0 <= f < n && heap.blocks[f] == freep;
      ghost var c := Succ(n, f);
      StepFacts(heap, f);
      StepFacts(heap, c);
      prevp := freep;
      p := heap.ptr[prevp];
      ghost var b := f;
      while true
        invariant 0 <= b < n && c == Succ(n, b) && prevp == heap.blocks[b] && p == heap.blocks[c]
        invariant p in heap.size && p in heap.ptr
        invariant forall j :: 0 <= j < n && Passed(f, c, j) ==> Size(heap, heap.blocks[j]) < nunits
        decreases Distance(n, c, f)
      {
        StepFacts(heap, c);
        if heap.size[p] >= nunits {
          return true, prevp, p, c, f;
        }
        if p == freep {
          SameBlock(heap, c, f);
          return false, prevp, p, c, f;
        }
        StepFacts(heap, Succ(n, c));
        prevp := p;
        p := heap.ptr[p];
        b := c;
        c := Succ(n, c);
      }
    }

    /** First fit, growing the heap at most once: after a successful morecore() the second
        lap cannot fail. None models a null return. */
    method Malloc(nbytes: nat, grant: Option<nat>) returns (r: Option<nat>)
      requires Ok() && nbytes < TWO32
      requires grant.Some? ==> grant.value >= heap.brk
      modifies this`heap, this`freep
      ensures Ok() && freep != 0
      ensures r.Some? ==> r.value !in old(heap).live && heap.live == old(heap).live[r.value := Units(nbytes)]
      ensures r.None? ==> grant.None? && heap.live == old(heap).live
      ensures r.None? ==> forall j :: 0 <= j < |heap.blocks| ==> Size(heap, heap.blocks[j]) < Units(nbytes)
      ensures heap.granted == old(heap).granted
           || (grant.Some? && heap.granted == old(heap).granted + if Units(nbytes) < 4096 then 4096 else Units(nbytes))
      ensures old(freep) != 0 && heap.granted != old(heap).granted ==>
                forall j :: 0 <= j < |old(heap).blocks| ==> Size(old(heap), old(heap).blocks[j]) < Units(nbytes)
      ensures old(freep) != 0 && r.Some? && heap.granted == old(heap).granted ==>
                exists k :: FirstFit(old(heap), old(freep), Units(nbytes), k)
                            && LastUnits(old(heap), k, Units(nbytes), r.value)
    {
      hide Valid, Landed, Size, Units, FirstFit, LastUnits;
      var nunits := Units(nbytes);
      if freep == 0 {
        InitialValid(base, heap.brk);
        freep := base;
        heap := Heap(map[base := base], map[base := 0], [base], map[], heap.brk, 0);
        assert heap == Initial(base, heap.brk);
      }
      var found, prevp, p;
      ghost var k, f;
      found, prevp, p, k, f := SearchLap(nunits);
      if !found {
        var ok := Morecore(nunits, grant);
        if !ok {
          return None;
        }
        found, prevp, p, k, f := SearchLap(nunits);
        ghost var l :| Landed(heap, freep, l, nunits);
        LandedFits(heap, freep, l, nunits);
        assert found;
      }
      r := Take(nunits, prevp, p, k);
    }

    /** Hands out free block k, or its tail. */
    method Take(nunits: nat, prevp: nat, p: nat, ghost k: nat) returns (r: Option<nat>)
      requires Ok() && freep != 0 && nunits > 0
      requires 0 < k < |heap.blocks| && prevp == heap.blocks[k - 1] && p == heap.blocks[k] && Size(heap, p) >= nunits
      modifies this`heap, this`freep
      ensures Ok() && freep == prevp != 0 && heap.granted == old(heap).granted
      ensures r.Some? && r.value !in old(heap).live && heap.live == old(heap).live[r.value := nunits]
      ensures LastUnits(old(heap), k, nunits, r.value)
      ensures heap == if Size(old(heap), p) == nunits then TakeWhole(old(heap), k) else TakeTail(old(heap), k, nunits)
    {
      hide Valid;
      ghost var h := heap;
      StepFacts(h, k);
      StepFacts(h, k - 1);
      BlocksPositive(h, k - 1);
      if heap.size[p] == nunits {
        TakeWholeKeeps(h, k);
        heap := heap.(ptr := heap.ptr[prevp := heap.ptr[p]],
                      blocks := h.blocks[..k] + h.blocks[k + 1..], live := h.live[p := nunits]);
        assert heap == TakeWhole(h, k);
        r := Some(p);
      } else {
        TakeTailKeeps(h, k, nunits);
        var rest := heap.size[p] - nunits;
        heap := heap.(size := heap.size[p := rest][p + rest := nunits], live := h.live[p + rest := nunits]);
        assert heap == TakeTail(h, k, nunits);
        r := Some(p + rest);
      }
      freep := prevp;
    }
  }

  lemma LandedLess(h: Heap, f: int, k: int, n: int, m: int)
    requires Landed(h, f, k, n) && m <= n
    ensures Landed(h, f, k, m)
  {
  }

  lemma LandedFits(h: Heap, f: int, k: int, n: int)
    requires Landed(h, f, k, n)
    ensures exists j :: 0 <= j < |h.blocks| && Size(h, h.blocks[j]) >= n
  {
  }

  lemma StepFacts(h: Heap, c: nat)
    requires Valid(h) && c < |h.blocks| && h.blocks[0] > 0
    ensures h.blocks[c] > 0 && h.blocks[c] in h.ptr && h.blocks[c] in h.size
    ensures h.size[h.blocks[c]] == Size(h, h.blocks[c]) && (c == 0 ==> Size(h, h.blocks[0]) == 0)
    ensures h.ptr[h.blocks[c]] == h.blocks[Succ(|h.blocks|, c)]
  {
    assert h.ptr[h.blocks[c]] == NextOf(h.blocks, c);
    BlocksPositive(h, c);
  }

  lemma SameBlock(h: Heap, c: nat, f: nat)
    requires Valid(h) && c < |h.blocks| && f < |h.blocks| && h.blocks[c] == h.blocks[f]
    ensures c == f
  {
  }

  lemma PlaceIndex(h: Heap, k: nat, bp: int)
    requires Place(h, k, bp)
    ensures k < |h.blocks|
  {
  }

  lemma BlocksPositive(h: Heap, k: nat)
    requires Valid(h) && k < |h.blocks| && h.blocks[0] > 0
    ensures h.blocks[k] > 0
  {
    assert k > 0 ==> h.blocks[0] < h.blocks[k];
  }

  /** freep is block k, and it or the block behind it has at least n units. */
  ghost predicate Landed(h: Heap, freep: int, k: int, n: int) {
    && 0 <= k < |h.blocks| && h.blocks[k] == freep
    && (Size(h, h.blocks[k]) >= n || (k + 1 < |h.blocks| && Size(h, h.blocks[k + 1]) >= n))
  }
}
