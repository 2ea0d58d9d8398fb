/** vm.c's two-level page tables and kalloc.c's free list, both kept inside the physical pages
    they manage. Virtual addresses are counted in pages, physical ones in frames. */
module PageTable {
  import opened Common
  import opened Ring

  const ENTRIES: nat := 1024        // NPDENTRIES, NPTENTRIES
  const PAGES: nat := 0x100000      // pages of the 32-bit address space
  const USER: nat := 0x80000        // pages below KERNBASE
  const PGSIZE: nat := 4096

  datatype Pte = Pte(frame: nat, present: bool, write: bool, user: bool)
  const ZERO := Pte(0, false, false, false)

  /** What a physical page is used for: a directory or table, a link of the free list, or
      anything else. */
  datatype PageData = Table(entry: seq<Pte>) | Run(next: int) | Data

  datatype Memory = Memory(page: seq<PageData>, head: int, ghost free: seq<nat>)

  // ----- the free list -----

  ghost predicate FreeOk(m: Memory, lo: nat) {
    && Distinct(m.free) && m.head == (if m.free == [] then -1 else m.free[0])
    && forall k :: 0 <= k < |m.free| ==>
         lo <= m.free[k] < |m.page| && m.page[m.free[k]] == Run(Next(m.free, k))
  }

  ghost function Pushed(m: Memory, f: nat): Memory
    requires f < |m.page|
  {
    Memory(m.page[f := Run(m.head)], f, [f] + m.free)
  }

  lemma PushKeeps(m: Memory, lo: nat, f: nat)
    requires FreeOk(m, lo) && lo <= f < |m.page| && f !in m.free
    ensures FreeOk(Pushed(m, f), lo)
  {
    var m' := Pushed(m, f);
    forall k | 0 <= k < |m'.free|
      ensures lo <= m'.free[k] < |m'.page| && m'.page[m'.free[k]] == Run(Next(m'.free, k))
    {
      if k > 0 {
        assert m'.free[k] == m.free[k - 1] && m.free[k - 1] in m.free;
      }
    }
  }

  /** A page of another kind is not free. */
  lemma NotFree(m: Memory, lo: nat, f: nat)
    requires FreeOk(m, lo) && f < |m.page| && !m.page[f].Run?
    ensures f !in m.free
  {
  }

  /** Pages outside the free list can change without it noticing. */
  lemma FreeFrame(m: Memory, m': Memory, lo: nat)
    requires FreeOk(m, lo) && m'.free == m.free && m'.head == m.head && |m'.page| == |m.page|
    requires forall k :: 0 <= k < |m.free| && m.free[k] < |m.page| ==> m'.page[m.free[k]] == m.page[m.free[k]]
    ensures FreeOk(m', lo)
  {
  }

  lemma PopKeeps(m: Memory, lo: nat)
    requires FreeOk(m, lo) && m.free != []
    ensures lo <= m.free[0] < |m.page| && m.page[m.free[0]].Run?
    ensures FreeOk(Memory(m.page, m.page[m.free[0]].next, m.free[1..]), lo)
    ensures forall k :: 0 <= k < |m.free[1..]| ==> m.free[1..][k] != m.free[0]
  {
    var m' := Memory(m.page, m.page[m.free[0]].next, m.free[1..]);
    forall k | 0 <= k < |m'.free|
      ensures lo <= m'.free[k] < |m'.page| && m'.page[m'.free[k]] == Run(Next(m'.free, k))
    {
      assert m'.free[k] == m.free[k + 1];
    }
  }

  // ----- the tables and the flat map they stand for -----

  predicate IsTable(m: Memory, f: nat) {
    f < |m.page| && m.page[f].Table? && |m.page[f].entry| == ENTRIES
  }

  /** Entry i of the table in frame f. */
  function At(m: Memory, f: nat, i: nat): Pte {
    if IsTable(m, f) && i < ENTRIES then m.page[f].entry[i] else ZERO
  }

  /** The page table as a flat map: the entry of a page, zero where there is no table. */
  function Entry(m: Memory, dir: nat, pg: nat): Pte {
    var pde := At(m, dir, pg / ENTRIES);
    if pde.present then At(m, pde.frame, pg % ENTRIES) else ZERO
  }

  /** The directory and its tables are tables of their own. */
  ghost predicate DirOk(m: Memory, lo: nat, dir: nat) {
    && lo <= dir && IsTable(m, dir)
    && (forall d :: 0 <= d < ENTRIES && At(m, dir, d).present ==>
         lo <= At(m, dir, d).frame && IsTable(m, At(m, dir, d).frame) && At(m, dir, d).frame != dir)
    && (forall d, e :: 0 <= d < e < ENTRIES && At(m, dir, d).present && At(m, dir, e).present ==>
         At(m, dir, d).frame != At(m, dir, e).frame)
  }

  ghost predicate Inv(m: Memory, lo: nat, dir: nat) {
    FreeOk(m, lo) && DirOk(m, lo, dir)
  }

  /** The frames a page table is made of. */
  ghost function Structure(m: Memory, dir: nat): set<nat> {
    {dir} + set d: nat | d < ENTRIES && At(m, dir, d).present :: At(m, dir, d).frame
  }

  /** The directory entries that have a table. */
  ghost function Tables(m: Memory, dir: nat): set<int> {
    set d: nat | d < ENTRIES && At(m, dir, d).present
  }

  ghost function TablesTo(m: Memory, dir: nat, n: nat): set<int> {
    set d: nat | d < n && At(m, dir, d).present
  }

  ghost function FramesTo(m: Memory, dir: nat, n: nat): set<nat> {
    set d: nat | d < n && At(m, dir, d).present :: At(m, dir, d).frame
  }

  lemma {:induction false} AsManyFrames(m: Memory, lo: nat, dir: nat, n: nat)
    requires DirOk(m, lo, dir) && n <= ENTRIES
    ensures |FramesTo(m, dir, n)| == |TablesTo(m, dir, n)|
  {
    hide At;
    if n == 0 {
      assert FramesTo(m, dir, n) == {} && TablesTo(m, dir, n) == {};
    } else {
      AsManyFrames(m, lo, dir, n - 1);
      OneTableMore(m, lo, dir, n - 1);
    }
  }

  lemma OneTableMore(m: Memory, lo: nat, dir: nat, n: nat)
    requires DirOk(m, lo, dir) && n < ENTRIES
    ensures |TablesTo(m, dir, n + 1)| - |TablesTo(m, dir, n)| == |FramesTo(m, dir, n + 1)| - |FramesTo(m, dir, n)|
  {
    hide At;
    var pde := At(m, dir, n);
    if pde.present {
      assert pde.frame !in FramesTo(m, dir, n);
      assert TablesTo(m, dir, n + 1) == TablesTo(m, dir, n) + {n};
      assert FramesTo(m, dir, n + 1) == FramesTo(m, dir, n) + {pde.frame};
    } else {
      assert TablesTo(m, dir, n + 1) == TablesTo(m, dir, n);
      assert FramesTo(m, dir, n + 1) == FramesTo(m, dir, n);
    }
  }

  /** A page table takes one frame for the directory and one for each table. */
  lemma StructureSize(m: Memory, lo: nat, dir: nat)
    requires DirOk(m, lo, dir)
    ensures |Structure(m, dir)| == 1 + |Tables(m, dir)|
  {
    hide At;
    AsManyFrames(m, lo, dir, ENTRIES);
    assert Structure(m, dir) == {dir} + FramesTo(m, dir, ENTRIES);
    assert Tables(m, dir) == TablesTo(m, dir, ENTRIES);
    assert dir !in FramesTo(m, dir, ENTRIES);
  }

  function TableNo(first: nat, j: nat): nat {
    (first + j) % PAGES / ENTRIES
  }

  /** The tables of m that m0 does not have are those of the first n pages from first on. */
  ghost predicate TablesFor(m0: Memory, m: Memory, dir: nat, first: nat, n: nat) {
    forall d: nat :: d in Tables(m, dir) ==> d in Tables(m0, dir) || exists j: nat :: j < n && TableNo(first, j) == d
  }

  lemma TablesNext(m0: Memory, m1: Memory, m: Memory, dir: nat, first: nat, n: nat)
    requires TablesFor(m0, m1, dir, first, n) && Tables(m, dir) <= Tables(m1, dir) + {TableNo(first, n)}
    ensures TablesFor(m0, m, dir, first, n + 1)
  {
    hide Tables, TableNo;
    forall d: nat | d in Tables(m, dir)
      ensures d in Tables(m0, dir) || exists j: nat :: j < n + 1 && TableNo(first, j) == d
    {
      if d in Tables(m1, dir) && d !in Tables(m0, dir) {
        var j: nat :| j < n && TableNo(first, j) == d;
        assert j < n + 1;
      }
    }
  }

  /** Building tables takes frames from the free list into the structure, loses none, and
      leaves every other page as it was. */
  ghost predicate Grown(m: Memory, m': Memory, dir: nat) {
    && |m'.page| == |m.page| && Structure(m, dir) <= Structure(m', dir)
    && Elems(m'.free) <= Elems(m.free)
    && Structure(m', dir) + Elems(m'.free) == Structure(m, dir) + Elems(m.free)
    && forall f: nat :: f < |m.page| && f !in Structure(m', dir) ==> m'.page[f] == m.page[f]
  }

  lemma GrownTransitive(m: Memory, m1: Memory, m2: Memory, dir: nat)
    requires Grown(m, m1, dir) && Grown(m1, m2, dir)
    ensures Grown(m, m2, dir)
  {
    hide Structure;
  }

  ghost function WithEntry(m: Memory, t: nat, i: nat, pte: Pte): Memory
    requires IsTable(m, t) && i < ENTRIES
  {
    m.(page := m.page[t := Table(m.page[t].entry[i := pte])])
  }

  lemma WithEntryAt(m: Memory, t: nat, i: nat, pte: Pte, f: nat, j: nat)
    requires IsTable(m, t) && i < ENTRIES && j < ENTRIES
    ensures At(WithEntry(m, t, i, pte), f, j) == if f == t && j == i then pte else At(m, f, j)
    ensures IsTable(WithEntry(m, t, i, pte), f) == IsTable(m, f)
  {
  }

  /** Writing one entry of a table changes the flat map at exactly that page. */
  lemma SetEntry(m: Memory, lo: nat, dir: nat, pg: nat, pte: Pte)
    requires Inv(m, lo, dir) && pg < PAGES && At(m, dir, pg / ENTRIES).present
    ensures IsTable(m, At(m, dir, pg / ENTRIES).frame)
    ensures var m' := WithEntry(m, At(m, dir, pg / ENTRIES).frame, pg % ENTRIES, pte);
            && Inv(m', lo, dir) && m'.free == m.free
            && (forall d :: 0 <= d < ENTRIES ==> At(m', dir, d) == At(m, dir, d))
            && (forall q: nat :: q < PAGES ==> Entry(m', dir, q) == if q == pg then pte else Entry(m, dir, q))
  {
    hide FreeOk;
    var t := At(m, dir, pg / ENTRIES).frame;
    var m' := WithEntry(m, t, pg % ENTRIES, pte);
    SetEntryFree(m, lo, t, pg % ENTRIES, pte);
    forall d | 0 <= d < ENTRIES
      ensures At(m', dir, d) == At(m, dir, d)
    {
      WithEntryAt(m, t, pg % ENTRIES, pte, dir, d);
    }
    SetEntryDir(m, lo, dir, t, pg % ENTRIES, pte);
    forall q: nat | q < PAGES
      ensures Entry(m', dir, q) == if q == pg then pte else Entry(m, dir, q)
    {
      SetEntryAt(m, lo, dir, pg, pte, q);
    }
  }

  lemma SetEntryFree(m: Memory, lo: nat, t: nat, i: nat, pte: Pte)
    requires FreeOk(m, lo) && IsTable(m, t) && i < ENTRIES
    ensures FreeOk(WithEntry(m, t, i, pte), lo)
  {
    FreeFrame(m, WithEntry(m, t, i, pte), lo);
  }

  lemma SetEntryDir(m: Memory, lo: nat, dir: nat, t: nat, i: nat, pte: Pte)
    requires DirOk(m, lo, dir) && IsTable(m, t) && i < ENTRIES && t != dir
    ensures DirOk(WithEntry(m, t, i, pte), lo, dir)
  {
    var m' := WithEntry(m, t, i, pte);
    assert forall f: nat :: IsTable(m', f) == IsTable(m, f);
    assert forall d :: 0 <= d < ENTRIES ==> At(m', dir, d) == At(m, dir, d);
  }

  lemma SetEntryAt(m: Memory, lo: nat, dir: nat, pg: nat, pte: Pte, q: nat)
    requires DirOk(m, lo, dir) && pg < PAGES && q < PAGES && At(m, dir, pg / ENTRIES).present
    ensures var m' := WithEntry(m, At(m, dir, pg / ENTRIES).frame, pg % ENTRIES, pte);
            Entry(m', dir, q) == if q == pg then pte else Entry(m, dir, q)
  {
    hide At, IsTable, WithEntry;
    var t := At(m, dir, pg / ENTRIES).frame;
    WithEntryAt(m, t, pg % ENTRIES, pte, dir, q / ENTRIES);
    WithEntryAt(m, t, pg % ENTRIES, pte, At(m, dir, q / ENTRIES).frame, q % ENTRIES);
    assert q == q / ENTRIES * ENTRIES + q % ENTRIES && pg == pg / ENTRIES * ENTRIES + pg % ENTRIES;
  }

  /** A fresh, zeroed table for directory entry d. */
  ghost function WithTable(m: Memory, dir: nat, d: nat): Memory
    requires m.free != [] && m.free[0] < |m.page| && m.page[m.free[0]].Run? && IsTable(m, dir) && d < ENTRIES
    requires dir != m.free[0]
  {
    var f := m.free[0];
    Memory(m.page[f := Table(seq(ENTRIES, _ => ZERO))][dir := Table(m.page[dir].entry[d := Pte(f, true, true, true)])],
           m.page[f].next, m.free[1..])
  }

  /** Building a missing table leaves the flat map alone. */
  lemma NewTable(m: Memory, lo: nat, dir: nat, d: nat)
    requires Inv(m, lo, dir) && m.free != [] && d < ENTRIES && !At(m, dir, d).present
    ensures m.free[0] < |m.page| && m.page[m.free[0]].Run? && dir != m.free[0]
    ensures var m' := WithTable(m, dir, d);
            && Inv(m', lo, dir) && At(m', dir, d) == Pte(m.free[0], true, true, true)
            && (forall e :: 0 <= e < ENTRIES && e != d ==> At(m', dir, e) == At(m, dir, e))
            && (forall q: nat :: q < PAGES ==> Entry(m', dir, q) == Entry(m, dir, q))
  {
    PopKeeps(m, lo);
    NotFree(m, lo, dir);
    var f, m' := m.free[0], WithTable(m, dir, d);
    forall e | 0 <= e < ENTRIES
      ensures At(m', dir, e) == if e == d then Pte(f, true, true, true) else At(m, dir, e)
    {
    }
    NewTableFree(m, lo, dir, d);
    NewTableDir(m, lo, dir, d);
    forall q: nat | q < PAGES
      ensures Entry(m', dir, q) == Entry(m, dir, q)
    {
      NewTableAt(m, lo, dir, d, q);
    }
  }

  lemma NewTableFree(m: Memory, lo: nat, dir: nat, d: nat)
    requires Inv(m, lo, dir) && m.free != [] && d < ENTRIES && m.free[0] < |m.page| && m.page[m.free[0]].Run?
    requires dir != m.free[0]
    ensures FreeOk(WithTable(m, dir, d), lo)
  {
    PopKeeps(m, lo);
    NotFree(m, lo, dir);
    var m1, m' := Memory(m.page, m.page[m.free[0]].next, m.free[1..]), WithTable(m, dir, d);
    assert forall k :: 0 <= k < |m1.free| ==> m1.free[k] in m.free;
    FreeFrame(m1, m', lo);
  }

  lemma NewTableDir(m: Memory, lo: nat, dir: nat, d: nat)
    requires Inv(m, lo, dir) && m.free != [] && d < ENTRIES && !At(m, dir, d).present
    requires lo <= m.free[0] < |m.page| && m.page[m.free[0]].Run? && dir != m.free[0]
    ensures DirOk(WithTable(m, dir, d), lo, dir)
  {
    hide FreeOk;
    var f, m' := m.free[0], WithTable(m, dir, d);
    assert forall e :: 0 <= e < ENTRIES && e != d ==> At(m', dir, e) == At(m, dir, e);
    assert At(m', dir, d) == Pte(f, true, true, true);
    assert forall g: nat :: IsTable(m, g) ==> IsTable(m', g) && g != f;
  }

  lemma NewTableAt(m: Memory, lo: nat, dir: nat, d: nat, q: nat)
    requires Inv(m, lo, dir) && m.free != [] && d < ENTRIES && !At(m, dir, d).present && q < PAGES
    requires m.free[0] < |m.page| && m.page[m.free[0]].Run? && dir != m.free[0]
    ensures Entry(WithTable(m, dir, d), dir, q) == Entry(m, dir, q)
  {
    hide FreeOk;
    var f, m' := m.free[0], WithTable(m, dir, d);
    var t := At(m, dir, q / ENTRIES).frame;
    if q / ENTRIES == d {
      assert At(m', f, q % ENTRIES) == ZERO;
    } else {
      assert At(m', dir, q / ENTRIES) == At(m, dir, q / ENTRIES);
      assert At(m, dir, q / ENTRIES).present ==> At(m', t, q % ENTRIES) == At(m, t, q % ENTRIES);
    }
  }

  lemma NewTableGrown(m: Memory, lo: nat, dir: nat, d: nat)
    requires Inv(m, lo, dir) && m.free != [] && d < ENTRIES && !At(m, dir, d).present
    requires m.free[0] < |m.page| && m.page[m.free[0]].Run? && dir != m.free[0]
    ensures Grown(m, WithTable(m, dir, d), dir)
  {
    var m', f := WithTable(m, dir, d), m.free[0];
    NewTable(m, lo, dir, d);
    assert Structure(m', dir) == Structure(m, dir) + {f} by {
      hide FreeOk, WithTable, DirOk;
      assert At(m', dir, d).present && At(m', dir, d).frame == f;
    }
    assert m.free == [f] + m'.free;
    assert Elems(m.free) == {f} + Elems(m'.free);
  }

  lemma SetEntryGrown(m: Memory, lo: nat, dir: nat, pg: nat, pte: Pte)
    requires Inv(m, lo, dir) && pg < PAGES && At(m, dir, pg / ENTRIES).present
    requires IsTable(m, At(m, dir, pg / ENTRIES).frame)
    ensures Grown(m, WithEntry(m, At(m, dir, pg / ENTRIES).frame, pg % ENTRIES, pte), dir)
  {
    var m' := WithEntry(m, At(m, dir, pg / ENTRIES).frame, pg % ENTRIES, pte);
    SetEntry(m, lo, dir, pg, pte);
    assert Structure(m', dir) == Structure(m, dir);
    assert At(m, dir, pg / ENTRIES).frame in Structure(m, dir);
  }

  // ----- mappages -----

  /** The pages from that of va to that of the last byte, counted round the address space. */
  function RangePages(va: nat, size: nat): (n: nat)
    requires va < TWO32 && size < TWO32
    ensures 0 < n <= PAGES
  {
    ((va + size - 1) % TWO32 / PGSIZE - va / PGSIZE) % PAGES + 1
  }

  /** How far page pg is behind page first, round the address space. */
  function Offset(pg: nat, first: nat): nat {
    (pg - first) % PAGES
  }

  lemma OffsetIs(pg: nat, first: nat, j: nat)
    requires pg < PAGES && first < PAGES && j < PAGES
    ensures Offset(pg, first) == j <==> pg == (first + j) % PAGES
  {
  }

  /** The flat map after the first j pages from first have been mapped. */
  ghost function Mapped(m: Memory, dir: nat, first: nat, j: nat, pte: Pte, pg: nat): Pte {
    if Offset(pg, first) < j then pte.(frame := (pte.frame + Offset(pg, first)) % PAGES) else Entry(m, dir, pg)
  }

  ghost predicate MappedTo(m0: Memory, m: Memory, dir: nat, first: nat, j: nat, pte: Pte) {
    forall pg: nat :: pg < PAGES ==> Entry(m, dir, pg) == Mapped(m0, dir, first, j, pte, pg)
  }

  lemma MappedNext(m0: Memory, m: Memory, m': Memory, dir: nat, first: nat, j: nat, pte: Pte)
    requires first < PAGES && j < PAGES && MappedTo(m0, m, dir, first, j, pte)
    requires forall pg: nat :: pg < PAGES ==>
               Entry(m', dir, pg) == if pg == (first + j) % PAGES then pte.(frame := (pte.frame + j) % PAGES)
                   else Entry(m, dir, pg)
    ensures MappedTo(m0, m', dir, first, j + 1, pte)
  {
    hide Entry, Offset;
    forall pg: nat | pg < PAGES
      ensures Entry(m', dir, pg) == Mapped(m0, dir, first, j + 1, pte, pg)
    {
      OffsetIs(pg, first, j);
    }
  }

  lemma MappedNone(m: Memory, dir: nat, first: nat, pte: Pte)
    ensures MappedTo(m, m, dir, first, 0, pte)
  {
    hide Entry;
  }

  lemma Advance(x: nat)
    ensures (x % PAGES + 1) % PAGES == (x + 1) % PAGES
  {
  }

  lemma LastIff(va: nat, size: nat, j: nat)
    requires va < TWO32 && size < TWO32 && j < RangePages(va, size)
    ensures (va / PGSIZE + j) % PAGES == (va + size - 1) % TWO32 / PGSIZE <==> j + 1 == RangePages(va, size)
  {
    OffsetIs((va + size - 1) % TWO32 / PGSIZE, va / PGSIZE, j);
  }

  lemma NoTables(m: Memory, dir: nat, first: nat)
    ensures TablesFor(m, m, dir, first, 0)
  {
  }

  lemma GrownSelf(m: Memory, dir: nat)
    ensures Grown(m, m, dir)
  {
  }

  /** For a range that does not wrap, the pages mapped are exactly those it touches. */
  lemma PlainRange(va: nat, size: nat, pg: nat)
    requires va < TWO32 && 0 < size < TWO32 && va + size <= TWO32 && pg < PAGES
    ensures Offset(pg, va / PGSIZE) < RangePages(va, size) <==>
            pg * PGSIZE < va + size && va < (pg + 1) * PGSIZE
  {
    assert (va + size - 1) % TWO32 == va + size - 1;
  }

  /** A range of no bytes is the page of va, or, on a page boundary, everything. */
  lemma EmptyRange(va: nat)
    requires va < TWO32
    ensures RangePages(va, 0) == if va % PGSIZE == 0 then PAGES else 1
  {
  }

  // ----- deallocuvm and freevm -----

  /** User pages are mapped to frames of their own that hold nothing else. */
  ghost predicate UserOk(m: Memory, lo: nat, dir: nat) {
    && (forall pg: nat :: pg < USER && Entry(m, dir, pg).present ==>
         lo <= Entry(m, dir, pg).frame < |m.page| && m.page[Entry(m, dir, pg).frame].Data?)
    && (forall pg: nat, q: nat :: pg < q < USER && Entry(m, dir, pg).present && Entry(m, dir, q).present ==>
         Entry(m, dir, pg).frame != Entry(m, dir, q).frame)
  }

  /** The frames of the present pages from lo to hi, last one first: what freeing every page
      in turn puts on the free list. */
  ghost function FreedList(m: Memory, dir: nat, lo: nat, hi: nat): seq<nat> {
    if hi <= lo then []
    else (if Entry(m, dir, hi - 1).present then [Entry(m, dir, hi - 1).frame] else []) + FreedList(m, dir, lo, hi - 1)
  }

  lemma {:induction false} FreedSkip(m: Memory, dir: nat, lo: nat, a: nat, b: nat)
    requires lo <= a <= b && forall q: nat :: a <= q < b ==> !Entry(m, dir, q).present
    ensures FreedList(m, dir, lo, b) == FreedList(m, dir, lo, a)
    decreases b
  {
    hide Entry;
    if a == b {
    } else {
      FreedSkip(m, dir, lo, a, b - 1);
    }
  }

  lemma {:induction false} FreedMembers(m: Memory, dir: nat, lo: nat, hi: nat, f: nat)
    ensures f in FreedList(m, dir, lo, hi) <==>
              exists q: nat :: lo <= q < hi && Entry(m, dir, q).present && Entry(m, dir, q).frame == f
    decreases hi
  {
    hide Entry;
    if hi <= lo {
    } else {
      FreedMembers(m, dir, lo, hi - 1, f);
    }
  }

  ghost function TableList(m: Memory, dir: nat, n: nat): seq<nat> {
    if n == 0 then []
    else (if At(m, dir, n - 1).present then [At(m, dir, n - 1).frame] else []) + TableList(m, dir, n - 1)
  }

  lemma {:induction false} TableMembers(m: Memory, dir: nat, n: nat, f: nat)
    ensures f in TableList(m, dir, n) <==> exists d: nat :: d < n && At(m, dir, d).present && At(m, dir, d).frame == f
  {
    hide At;
    if n == 0 {
    } else {
      TableMembers(m, dir, n - 1, f);
    }
  }

  /** Freeing a frame that holds only data leaves all tables alone. */
  lemma PushData(m: Memory, lo: nat, dir: nat, f: nat)
    requires Inv(m, lo, dir) && lo <= f < |m.page| && m.page[f].Data?
    ensures Inv(Pushed(m, f), lo, dir)
    ensures forall g: nat, i: nat :: At(Pushed(m, f), g, i) == At(m, g, i)
    ensures forall q: nat :: Entry(Pushed(m, f), dir, q) == Entry(m, dir, q)
  {
    var m' := Pushed(m, f);
    assert f !in m.free by { NotFree(m, lo, f); }
    PushKeeps(m, lo, f);
    assert forall g: nat :: IsTable(m', g) == IsTable(m, g);
    assert forall g: nat, i: nat :: At(m', g, i) == At(m, g, i);
  }

  ghost function Unmapped(m: Memory, dir: nat, pg: nat): Memory
    requires IsTable(m, At(m, dir, pg / ENTRIES).frame) && Entry(m, dir, pg).frame < |m.page|
    requires m.page[Entry(m, dir, pg).frame].Data?
  {
    WithEntry(Pushed(m, Entry(m, dir, pg).frame), At(m, dir, pg / ENTRIES).frame, pg % ENTRIES, ZERO)
  }

  /** Freeing one mapped page. */
  lemma UnmapKeeps(m: Memory, lo: nat, dir: nat, pg: nat)
    requires Inv(m, lo, dir) && UserOk(m, lo, dir) && pg < USER && Entry(m, dir, pg).present
    ensures IsTable(m, At(m, dir, pg / ENTRIES).frame) && At(m, dir, pg / ENTRIES).present
    ensures lo <= Entry(m, dir, pg).frame < |m.page| && m.page[Entry(m, dir, pg).frame].Data?
    ensures var m' := Unmapped(m, dir, pg);
            && Inv(m', lo, dir) && UserOk(m', lo, dir) && m'.free == [Entry(m, dir, pg).frame] + m.free
            && (forall d :: 0 <= d < ENTRIES ==> At(m', dir, d) == At(m, dir, d))
            && (forall q: nat :: q < PAGES ==> Entry(m', dir, q) == if q == pg then ZERO else Entry(m, dir, q))
  {
    hide FreeOk, Entry, At, WithEntry;
    var f := Entry(m, dir, pg).frame;
    PresentTable(m, lo, dir, pg);
    PushData(m, lo, dir, f);
    SetEntry(Pushed(m, f), lo, dir, pg, ZERO);
    var m' := Unmapped(m, dir, pg);
    WithEntryData(Pushed(m, f), At(m, dir, pg / ENTRIES).frame, pg % ENTRIES, ZERO);
  }

  lemma PresentTable(m: Memory, lo: nat, dir: nat, pg: nat)
    requires DirOk(m, lo, dir) && pg < PAGES && Entry(m, dir, pg).present
    ensures At(m, dir, pg / ENTRIES).present && IsTable(m, At(m, dir, pg / ENTRIES).frame)
  {
  }

  lemma WithEntryData(m: Memory, t: nat, i: nat, pte: Pte)
    requires IsTable(m, t) && i < ENTRIES
    ensures |WithEntry(m, t, i, pte).page| == |m.page|
    ensures forall f :: 0 <= f < |m.page| && m.page[f].Data? ==> WithEntry(m, t, i, pte).page[f].Data?
  {
  }

  class Vm {
    const lo: nat       // the first frame behind the kernel
    var m: Memory

    /** kinit1() and kinit2(): freerange() over the frames from lo on. */
    constructor (lo: nat, frames: nat)
      requires lo <= frames
      ensures this.lo == lo && FreeOk(m, lo) && |m.page| == frames
      ensures forall f: nat :: f in m.free <==> lo <= f < frames
    {
      this.lo := lo;
      m := Memory(seq(frames, _ => Data), -1, []);
      new;
      FreeRange();
    }

    /** freerange() */
    method FreeRange()
      requires FreeOk(m, lo) && m.free == [] && lo <= |m.page|
      modifies this`m
      ensures FreeOk(m, lo) && |m.page| == |old(m).page|
      ensures forall f: nat :: f in m.free <==> lo <= f < |m.page|
    {
      hide FreeOk;
      for p := lo to |m.page|
        invariant FreeOk(m, lo) && |m.page| == |old(m).page|
        invariant forall f: nat :: f in m.free <==> lo <= f < p
      {
        Kfree(p);
      }
    }

    /** kfree(): the page goes to the front of the free list. Its panic is excluded by the
        first precondition. */
    method Kfree(f: nat)
      requires FreeOk(m, lo) && lo <= f < |m.page| && f !in m.free
      modifies this`m
      ensures FreeOk(m, lo) && m == Pushed(old(m), f)
    {
      hide FreeOk;
      PushKeeps(m, lo, f);
      m := Memory(m.page[f := Run(m.head)], f, [f] + m.free);
    }

    /** kalloc(), without its call of get_lru(). */
    method Kalloc() returns (r: int)
      requires FreeOk(m, lo)
      modifies this`m
      ensures FreeOk(m, lo)
      ensures r == -1 <==> old(m).free == []
      ensures r == -1 ==> m == old(m)
      ensures r != -1 ==>
                r == old(m).free[0] && lo <= r < |m.page| && m.page == old(m).page && m.free == old(m).free[1..]
      ensures r != -1 ==> m.page[r] == Run(m.head) && r !in m.free
    {
      r := m.head;
      if r != -1 {
        PopKeeps(m, lo);
        m := Memory(m.page, m.page[r].next, m.free[1..]);
      }
    }

    /** walkpgdir(): the frame of the table that has the entry of page pg, or -1. */
    method WalkPgdir(dir: nat, pg: nat, alloc: bool) returns (t: int)
      requires Inv(m, lo, dir) && pg < PAGES
      modifies this`m
      ensures Inv(m, lo, dir) && Grown(old(m), m, dir)
      ensures t == -1 <==> !At(old(m), dir, pg / ENTRIES).present && (!alloc || old(m).free == [])
      ensures t == -1 || At(old(m), dir, pg / ENTRIES).present ==> m == old(m)
      ensures t != -1 ==> At(m, dir, pg / ENTRIES).present && t == At(m, dir, pg / ENTRIES).frame && IsTable(m, t)
      ensures Tables(m, dir) <= Tables(old(m), dir) + {pg / ENTRIES}
      ensures forall q: nat :: q < PAGES ==> Entry(m, dir, q) == Entry(old(m), dir, q)
    {
      hide FreeOk, Entry;
      var d := pg / ENTRIES;
      var pde := m.page[dir].entry[d];
      if pde.present {
        return pde.frame;
      }
      if !alloc {
        return -1;
      }
      ghost var m0 := m;
      t := Kalloc();
      if t == -1 {
        return;
      }
      NewTable(m0, lo, dir, d);
      NewTableGrown(m0, lo, dir, d);
      m := m.(page := m.page[t := Table(seq(ENTRIES, _ => ZERO))]);
      m := m.(page := m.page[dir := Table(m.page[dir].entry[d := Pte(t, true, true, true)])]);
      assert m == WithTable(m0, dir, d);
    }

    /** One pass of mappages()'s loop. */
    method MapOne(dir: nat, a: nat, pte: Pte) returns (ok: bool)
      requires Inv(m, lo, dir) && a < PAGES
      modifies this`m
      ensures Inv(m, lo, dir) && Grown(old(m), m, dir)
      ensures !ok ==> m == old(m) && m.free == [] && !At(m, dir, a / ENTRIES).present
      ensures Tables(m, dir) <= Tables(old(m), dir) + {a / ENTRIES}
      ensures ok ==> forall pg: nat :: pg < PAGES ==>
                Entry(m, dir, pg) == if pg == a then pte else Entry(old(m), dir, pg)
    {
      hide FreeOk, Entry, Structure, DirOk;
      var t := WalkPgdir(dir, a, true);
      if t == -1 {
        return false;
      }
      SetEntry(m, lo, dir, a, pte);
      SetEntryGrown(m, lo, dir, a, pte);
      ghost var m1 := m;
      m := m.(page := m.page[t := Table(m.page[t].entry[a % ENTRIES := pte])]);
      GrownTransitive(old(m), m1, m, dir);
      return true;
    }

    /** mappages(): maps the pages of the range, each to the frame behind the previous one's;
        when no table can be allocated, only the pages before. */
    method Mappages(dir: nat, va: nat, size: nat, pte: Pte) returns (r: int, ghost done: nat)
      requires Inv(m, lo, dir) && va < TWO32 && size < TWO32 && pte.frame < PAGES
      modifies this`m
      ensures Inv(m, lo, dir) && Grown(old(m), m, dir)
      ensures r == 0 ==> done == RangePages(va, size)
      ensures r != 0 ==> r == -1 && done < RangePages(va, size) && m.free == []
                         && !At(m, dir, (va / PGSIZE + done) % PAGES / ENTRIES).present
      ensures MappedTo(old(m), m, dir, va / PGSIZE, done, pte)
      ensures TablesFor(old(m), m, dir, va / PGSIZE, done)
    {
      hide FreeOk, DirOk, At, MappedTo, RangePages, Grown, Tables, TablesFor;
      var first := va / PGSIZE;
      var a := first;
      var last := (va + size - 1) % TWO32 / PGSIZE;
      var frame := pte.frame;
      done := 0;
      GrownSelf(m, dir);
      MappedNone(m, dir, first, pte);
      NoTables(m, dir, first);
      while true
        invariant Inv(m, lo, dir) && Grown(old(m), m, dir) && done < RangePages(va, size)
        invariant a == (first + done) % PAGES && frame == (pte.frame + done) % PAGES
        invariant MappedTo(old(m), m, dir, first, done, pte) && TablesFor(old(m), m, dir, first, done)
        decreases RangePages(va, size) - done
      {
        ghost var m1 := m;
        var ok := MapOne(dir, a, pte.(frame := frame));
        GrownTransitive(old(m), m1, m, dir);
        if !ok {
          return -1, done;
        }
        MappedNext(old(m), m1, m, dir, first, done, pte);
        TablesNext(old(m), m1, m, dir, first, done);
        LastIff(va, size, done);
        done := done + 1;
        if a == last {
          break;
        }
        Advance(first + done - 1);
        Advance(pte.frame + done - 1);
        a := (a + 1) % PAGES;
        frame := (frame + 1) % PAGES;
      }
      return 0, done;
    }

    /** deallocuvm(): jumping over the pages of an absent table comes to the same as freeing
        every present page from newsz to oldsz one by one. */
    method Deallocuvm(dir: nat, oldsz: nat, newsz: nat) returns (r: nat)
      requires Inv(m, lo, dir) && UserOk(m, lo, dir) && oldsz <= USER * PGSIZE
      modifies this`m
      ensures r == if newsz >= oldsz then oldsz else newsz
      ensures Inv(m, lo, dir) && UserOk(m, lo, dir)
      ensures Swept(old(m), m, dir, PageUp(newsz), PageUp(oldsz))
      ensures forall pg: nat :: pg < PAGES ==>
                Entry(m, dir, pg) == if newsz <= pg * PGSIZE < oldsz && Entry(old(m), dir, pg).present then ZERO
                  else Entry(old(m), dir, pg)
    {
      hide FreeOk, Entry, At, UserOk, DirOk, Swept;
      SweptNone(m, dir, PageUp(newsz), if newsz >= oldsz then PageUp(oldsz) else PageUp(newsz));
      if newsz >= oldsz {
        SweptBytes(old(m), m, dir, newsz, oldsz);
        return oldsz;
      }
      var a := PageUp(newsz) * PGSIZE;
      while a < oldsz
        invariant a % PGSIZE == 0 && PageUp(newsz) <= a / PGSIZE && a <= USER * PGSIZE
        invariant Inv(m, lo, dir) && UserOk(m, lo, dir)
        invariant Swept(old(m), m, dir, PageUp(newsz), a / PGSIZE)
        invariant forall pg: nat :: PageUp(oldsz) <= pg < a / PGSIZE ==> !Entry(old(m), dir, pg).present
      {
        var a' := DeallocStep(dir, a, PageUp(newsz), old(m));
        a := a';
      }
      SweptTo(old(m), m, dir, PageUp(newsz), PageUp(oldsz), a / PGSIZE);
      SweptBytes(old(m), m, dir, newsz, oldsz);
      return newsz;
    }

    /** One pass of deallocuvm()'s loop, with the step that ends it. */
    method DeallocStep(dir: nat, a: nat, ghost from: nat, ghost m0: Memory) returns (a': nat)
      requires Inv(m, lo, dir) && UserOk(m, lo, dir)
      requires a % PGSIZE == 0 && from <= a / PGSIZE && a < USER * PGSIZE && Swept(m0, m, dir, from, a / PGSIZE)
      modifies this`m
      ensures a < a' <= USER * PGSIZE && a' % PGSIZE == 0
      ensures Inv(m, lo, dir) && UserOk(m, lo, dir) && Swept(m0, m, dir, from, a' / PGSIZE)
      ensures forall pg: nat :: a / PGSIZE < pg < a' / PGSIZE ==> !Entry(m0, dir, pg).present
    {
      hide FreeOk, Entry, At, UserOk, DirOk, Swept;
      a' := a;
      var pg := a / PGSIZE;
      SweptAt(m0, m, dir, from, pg, pg);
      var t := WalkPgdir(dir, pg, false);
      if t == -1 {
        a' := (a / (PGSIZE * ENTRIES) + 1) * (PGSIZE * ENTRIES) - PGSIZE;
        Jump(a, a' + PGSIZE);
        TableAbsent(m0, m, dir, from, pg, (a' + PGSIZE) / PGSIZE);
        SweptSkip(m0, m, dir, from, pg, (a' + PGSIZE) / PGSIZE);
      } else {
        EntryIn(m, dir, pg);
        var pte := m.page[t].entry[pg % ENTRIES];
        if pte.present {
          UnmapKeeps(m, lo, dir, pg);
          SweptFree(m0, m, dir, from, pg);
          assert pte.frame !in m.free by { NotFree(m, lo, pte.frame); }
          Kfree(pte.frame);
          m := m.(page := m.page[t := Table(m.page[t].entry[pg % ENTRIES := ZERO])]);
        } else {
          SweptSkip(m0, m, dir, from, pg, pg + 1);
        }
      }
      a' := a' + PGSIZE;
    }

    /** freevm(): every frame mapped below KERNBASE, every table and the directory are on the
        free list again, each exactly once since the free list has no duplicates. */
    method Freevm(dir: nat)
      requires Inv(m, lo, dir) && UserOk(m, lo, dir)
      modifies this`m
      ensures FreeOk(m, lo)
      ensures m.free == [dir] + TableList(old(m), dir, ENTRIES) + FreedList(old(m), dir, 0, USER) + old(m).free
      ensures Elems(m.free) == Elems(old(m).free) + Structure(old(m), dir) + UserFrames(old(m), dir)
      ensures |m.page| == |old(m).page|
      ensures forall f: nat :: f < |m.page| && f !in Structure(old(m), dir) && f !in UserFrames(old(m), dir) ==>
                m.page[f] == old(m).page[f]
    {
      hide FreeOk, Entry, At, DirOk, UserOk, Swept, FreedList, TableList, Structure, UserFrames;
      ghost var m0 := m;
      var r := Deallocuvm(dir, USER * PGSIZE, 0);
      ghost var m1 := m;
      SweptAll(m0, m1, dir);
      SameStructure(m0, m1, dir);
      FreeTables(dir);
      Kfree(dir);
      TableListSame(m0, m1, dir, ENTRIES);
      InStructure(m0, dir);
      FreedAll(m0, dir, m0.free, m.free);
    }

    /** freevm()'s loop: the tables are freed, in order. */
    method FreeTables(dir: nat)
      requires Inv(m, lo, dir)
      modifies this`m
      ensures FreeOk(m, lo) && |m.page| == |old(m).page| && lo <= dir < |m.page| && dir !in m.free
      ensures m.free == TableList(old(m), dir, ENTRIES) + old(m).free
      ensures forall f: nat :: f < |m.page| && f !in Structure(old(m), dir) ==> m.page[f] == old(m).page[f]
    {
      hide FreeOk, Structure;
      ghost var m1 := m;
      for i := 0 to ENTRIES
        invariant FreeOk(m, lo) && |m.page| == |m1.page| && lo <= dir < |m.page| && m.page[dir] == m1.page[dir]
        invariant forall d :: i <= d < ENTRIES && At(m1, dir, d).present ==>
                    lo <= At(m1, dir, d).frame < |m.page| && m.page[At(m1, dir, d).frame].Table?
        invariant m.free == TableList(m1, dir, i) + m1.free
        invariant forall f: nat :: f < |m.page| && f !in Structure(m1, dir) ==> m.page[f] == m1.page[f]
      {
        FreeTable(dir, i, m1);
      }
      NotFree(m, lo, dir);
    }

    /** setupkvm(): a directory with exactly the kernel's mappings. It takes 65 frames: with fewer
        there is none, and every frame taken on the way is free again. data is the frame of the
        kernel's data segment. */
    method Setupkvm(data: nat) returns (dir: int)
      requires FreeOk(m, lo) && EXTMEM < data < PHYSTOP
      modifies this`m
      ensures dir == -1 <==> |old(m).free| < 65
      ensures dir == -1 ==> FreeOk(m, lo) && Elems(m.free) == Elems(old(m).free)
      ensures dir != -1 ==> dir >= 0 && Inv(m, lo, dir) && Elems(old(m).free) == Elems(m.free) + Structure(m, dir)
      ensures dir != -1 ==> forall pg: nat :: pg < PAGES ==> KernelMap(data, pg, Entry(m, dir, pg))
      ensures |m.page| == |old(m).page|
      ensures forall f: nat :: f < |m.page| && f !in Elems(old(m).free) ==> m.page[f] == old(m).page[f]
    {
      hide FreeOk, DirOk, Entry, At, Structure, KernelMap, Tables, KernelTables;
      ghost var m0 := m;
      assert Distinct(m0.free) by { FreeDistinct(m0, lo); }
      dir := Kalloc();
      if dir == -1 {
        return;
      }
      NewDir(m0, m, lo, dir);
      m := m.(page := m.page[dir := Table(seq(ENTRIES, _ => ZERO))]);
      var ok := MapAll(dir, data);
      if ok {
        AllTables(m, dir, data);
        EnoughFrames(m0, m, lo, dir);
        return;
      }
      TooFewFrames(m0, m, lo, dir);
      NoUserPages(m, lo, dir);
      Freevm(dir);
      return -1;
    }

    /** setupkvm()'s loop over the kmap table. */
    method MapAll(dir: nat, data: nat) returns (ok: bool)
      requires Inv(m, lo, dir) && EXTMEM < data < PHYSTOP && Tables(m, dir) == {}
      requires forall pg: nat :: pg < PAGES ==> Entry(m, dir, pg) == ZERO
      modifies this`m
      ensures Inv(m, lo, dir) && Grown(old(m), m, dir) && Tables(m, dir) <= KernelTables()
      ensures forall pg: nat :: pg < USER ==> !Entry(m, dir, pg).present
      ensures ok ==> forall pg: nat :: pg < PAGES ==> KernelMap(data, pg, Entry(m, dir, pg))
      ensures !ok ==> m.free == [] && !(KernelTables() <= Tables(m, dir))
    {
      hide FreeOk, DirOk, Entry, At, Structure, Kernel, Kmap, KernelMap, Grown, Tables, KernelTables;
      GrownSelf(m, dir);
      KernelNone(data);
      var k := 0;
      while k < 4
        invariant k <= 4 && Inv(m, lo, dir) && Grown(old(m), m, dir) && Tables(m, dir) <= KernelTables()
        invariant forall pg: nat :: pg < PAGES ==> Entry(m, dir, pg) == Kernel(data, k, pg)
      {
        ghost var m2 := m;
        ok := MapKernel(dir, data, k);
        GrownTransitive(old(m), m2, m, dir);
        if !ok {
          return;
        }
        k := k + 1;
      }
      KernelAbove(data, 4);
      forall pg: nat | pg < PAGES
        ensures KernelMap(data, pg, Entry(m, dir, pg))
      {
        KernelIsMap(data, pg);
      }
      ok := true;
    }

    /** One line of the kmap table. */
    method MapKernel(dir: nat, data: nat, k: nat) returns (ok: bool)
      requires Inv(m, lo, dir) && EXTMEM < data < PHYSTOP && k < 4
      requires forall pg: nat :: pg < PAGES ==> Entry(m, dir, pg) == Kernel(data, k, pg)
      modifies this`m
      ensures Inv(m, lo, dir) && Grown(old(m), m, dir)
      ensures ok ==> forall pg: nat :: pg < PAGES ==> Entry(m, dir, pg) == Kernel(data, k + 1, pg)
      ensures forall pg: nat :: pg < USER ==> !Entry(m, dir, pg).present
      ensures Tables(m, dir) <= Tables(old(m), dir) + KernelTables()
      ensures !ok ==> m.free == [] && !(KernelTables() <= Tables(m, dir))
    {
      hide FreeOk, DirOk, Entry, At, Structure, MappedTo, Grown, Tables, TablesFor, KernelTables;
      var line := Kmap(data, k);
      ghost var m0 := m;
      LineRange(line);
      var r, done := Mappages(dir, line.lo * PGSIZE, (line.hi - line.lo) * PGSIZE,
          Pte(line.frame, true, line.write, false));
      MappedPlain(m0, m, dir, line.lo, done, Pte(line.frame, true, line.write, false));
      ok := r == 0;
      LineTables(m0, m, dir, line, done);
      if !ok {
        LineTable(line, done);
        AbsentTable(m, dir, TableNo(line.lo, done));
      }
      KernelAbove(data, k);
      if ok {
        KernelNext(data, k, m0, m, dir);
      }
    }

    /** One pass of freevm()'s loop. */
    method FreeTable(dir: nat, i: nat, ghost m1: Memory)
      requires FreeOk(m, lo) && i < ENTRIES && lo <= dir < |m.page| && DirOk(m1, lo, dir)
      requires |m.page| == |m1.page| && m.page[dir] == m1.page[dir]
      requires forall d :: i <= d < ENTRIES && At(m1, dir, d).present ==>
                 lo <= At(m1, dir, d).frame < |m.page| && m.page[At(m1, dir, d).frame].Table?
      requires m.free == TableList(m1, dir, i) + m1.free
      modifies this`m
      ensures FreeOk(m, lo) && |m.page| == |m1.page| && m.page[dir] == m1.page[dir]
      ensures forall d :: i < d < ENTRIES && At(m1, dir, d).present ==>
                lo <= At(m1, dir, d).frame < |m.page| && m.page[At(m1, dir, d).frame].Table?
      ensures m.free == TableList(m1, dir, i + 1) + m1.free
      ensures forall f: nat :: f < |m.page| && f !in Structure(m1, dir) ==> m.page[f] == old(m).page[f]
    {
      hide FreeOk;
      var pde := m.page[dir].entry[i];
      assert pde == At(m1, dir, i);
      if pde.present {
        NotFree(m, lo, pde.frame);
        Kfree(pde.frame);
      }
    }
  }

  function PageUp(bytes: nat): nat {
    (bytes + PGSIZE - 1) / PGSIZE
  }

  /** The first page that begins at or behind this many bytes. */
  lemma PageUpIff(bytes: nat, pg: nat)
    ensures PageUp(bytes) <= pg <==> bytes <= pg * PGSIZE
  {
  }

  /** m is m0 after every present page from lo to hi was freed, in this order; no page but the
      tables and the freed frames has changed. */
  ghost predicate Swept(m0: Memory, m: Memory, dir: nat, lo: nat, hi: nat) {
    && |m.page| == |m0.page| && m.free == FreedList(m0, dir, lo, hi) + m0.free
    && (forall d: nat :: d < ENTRIES ==> At(m, dir, d) == At(m0, dir, d))
    && (forall pg: nat :: pg < PAGES ==>
         Entry(m, dir, pg) == if lo <= pg < hi && Entry(m0, dir, pg).present then ZERO else Entry(m0, dir, pg))
    && (forall f: nat :: f < |m.page| && f !in Structure(m0, dir) && f !in FreedList(m0, dir, lo, hi) ==>
         m.page[f] == m0.page[f])
  }

  lemma SweptBytes(m0: Memory, m: Memory, dir: nat, newsz: nat, oldsz: nat)
    requires Swept(m0, m, dir, PageUp(newsz), PageUp(oldsz))
    ensures forall pg: nat :: pg < PAGES ==>
              Entry(m, dir, pg) == if newsz <= pg * PGSIZE < oldsz && Entry(m0, dir, pg).present then ZERO
                else Entry(m0, dir, pg)
  {
    hide Entry, PageUp, FreedList, Structure, At;
    forall pg: nat | pg < PAGES
      ensures Entry(m, dir, pg) == if newsz <= pg * PGSIZE < oldsz && Entry(m0, dir, pg).present then ZERO
                else Entry(m0, dir, pg)
    {
      PageUpIff(newsz, pg);
      PageUpIff(oldsz, pg);
    }
  }

  lemma SweptNone(m: Memory, dir: nat, lo: nat, hi: nat)
    requires hi <= lo
    ensures Swept(m, m, dir, lo, hi)
  {
  }

  lemma SweptAt(m0: Memory, m: Memory, dir: nat, lo: nat, hi: nat, pg: nat)
    requires Swept(m0, m, dir, lo, hi) && hi <= pg < PAGES
    ensures Entry(m, dir, pg) == Entry(m0, dir, pg)
    ensures At(m, dir, pg / ENTRIES) == At(m0, dir, pg / ENTRIES)
  {
    hide Entry;
  }

  lemma SweptSkip(m0: Memory, m: Memory, dir: nat, lo: nat, hi: nat, hi': nat)
    requires Swept(m0, m, dir, lo, hi) && lo <= hi <= hi' && forall pg: nat :: hi <= pg < hi' ==>
               !Entry(m0, dir, pg).present
    ensures Swept(m0, m, dir, lo, hi')
  {
    hide Entry;
    FreedSkip(m0, dir, lo, hi, hi');
  }

  /** A sweep that went too far over absent pages is the sweep asked for. */
  lemma SweptTo(m0: Memory, m: Memory, dir: nat, lo: nat, hi: nat, hi': nat)
    requires Swept(m0, m, dir, lo, hi') && lo <= hi <= hi' && forall pg: nat :: hi <= pg < hi' ==>
               !Entry(m0, dir, pg).present
    ensures Swept(m0, m, dir, lo, hi)
  {
    hide Entry;
    FreedSkip(m0, dir, lo, hi, hi');
  }

  lemma SweptFree(m0: Memory, m: Memory, dir: nat, lo: nat, pg: nat)
    requires Swept(m0, m, dir, lo, pg) && lo <= pg < PAGES && Entry(m, dir, pg).present
    requires At(m, dir, pg / ENTRIES).present
    requires IsTable(m, At(m, dir, pg / ENTRIES).frame) && Entry(m, dir, pg).frame < |m.page|
    requires m.page[Entry(m, dir, pg).frame].Data?
    requires var m' := Unmapped(m, dir, pg);
             && m'.free == [Entry(m, dir, pg).frame] + m.free
             && (forall d :: 0 <= d < ENTRIES ==> At(m', dir, d) == At(m, dir, d))
             && (forall q: nat :: q < PAGES ==> Entry(m', dir, q) == if q == pg then ZERO else Entry(m, dir, q))
    ensures Swept(m0, Unmapped(m, dir, pg), dir, lo, pg + 1)
  {
    hide Entry, At;
    assert |Unmapped(m, dir, pg).page| == |m.page|;
    assert At(m0, dir, pg / ENTRIES).frame in Structure(m0, dir);
  }

  lemma Jump(a: nat, b: nat)
    requires a % PGSIZE == 0 && a < USER * PGSIZE && b == (a / (PGSIZE * ENTRIES) + 1) * (PGSIZE * ENTRIES)
    ensures a < b <= USER * PGSIZE && b % PGSIZE == 0
    ensures forall pg: nat :: a / PGSIZE <= pg < b / PGSIZE ==> pg / ENTRIES == a / PGSIZE / ENTRIES
  {
    var k := a / (PGSIZE * ENTRIES);
    assert a / PGSIZE / ENTRIES == k;
    assert b / PGSIZE == (k + 1) * ENTRIES;
  }

  lemma TableAbsent(m0: Memory, m: Memory, dir: nat, lo: nat, pg: nat, hi: nat)
    requires Swept(m0, m, dir, lo, pg) && pg < PAGES && !At(m, dir, pg / ENTRIES).present
    requires forall q: nat :: pg <= q < hi ==> q / ENTRIES == pg / ENTRIES
    ensures forall q: nat :: pg <= q < hi ==> !Entry(m0, dir, q).present
  {
  }

  lemma EntryIn(m: Memory, dir: nat, pg: nat)
    requires At(m, dir, pg / ENTRIES).present && IsTable(m, At(m, dir, pg / ENTRIES).frame)
    ensures Entry(m, dir, pg) == m.page[At(m, dir, pg / ENTRIES).frame].entry[pg % ENTRIES]
  {
  }

  ghost function UserFrames(m: Memory, dir: nat): set<nat> {
    set pg: nat | pg < USER && Entry(m, dir, pg).present :: Entry(m, dir, pg).frame
  }

  lemma SweptAll(m0: Memory, m1: Memory, dir: nat)
    requires Swept(m0, m1, dir, PageUp(0), PageUp(USER * PGSIZE))
    ensures m1.free == FreedList(m0, dir, 0, USER) + m0.free
    ensures |m1.page| == |m0.page| && forall d: nat :: d < ENTRIES ==> At(m1, dir, d) == At(m0, dir, d)
    ensures forall f: nat :: f < |m1.page| && f !in Structure(m0, dir) && f !in UserFrames(m0, dir) ==>
              m1.page[f] == m0.page[f]
  {
    hide Entry, At, FreedList, Structure;
    forall f: nat
      ensures f in FreedList(m0, dir, 0, USER) <==> f in UserFrames(m0, dir)
    {
      FreedMembers(m0, dir, 0, USER, f);
    }
  }

  lemma InStructure(m: Memory, dir: nat)
    ensures dir in Structure(m, dir)
  {
  }

  lemma SameStructure(m0: Memory, m1: Memory, dir: nat)
    requires forall d: nat :: d < ENTRIES ==> At(m1, dir, d) == At(m0, dir, d)
    ensures Structure(m1, dir) == Structure(m0, dir)
  {
    hide At;
  }

  lemma {:induction false} TableListSame(m0: Memory, m1: Memory, dir: nat, n: nat)
    requires n <= ENTRIES && forall d: nat :: d < ENTRIES ==> At(m1, dir, d) == At(m0, dir, d)
    ensures TableList(m1, dir, n) == TableList(m0, dir, n)
  {
    hide At;
    if n == 0 {
    } else {
      TableListSame(m0, m1, dir, n - 1);
    }
  }

  lemma FreedAll(m: Memory, dir: nat, free: seq<nat>, free': seq<nat>)
    requires free' == [dir] + TableList(m, dir, ENTRIES) + FreedList(m, dir, 0, USER) + free
    ensures Elems(free') == Elems(free) + Structure(m, dir) + UserFrames(m, dir)
  {
    hide At, Entry, FreedList, TableList;
    forall f: nat
      ensures f in Elems(free') <==> f in Elems(free) + Structure(m, dir) + UserFrames(m, dir)
    {
      TableMembers(m, dir, ENTRIES, f);
      FreedMembers(m, dir, 0, USER, f);
    }
  }

  // ----- setupkvm -----

  const EXTMEM: nat := 0x100   // in pages
  const PHYSTOP: nat := 0xE000
  const DEVSPACE: nat := 0xFE000

  datatype KmapLine = KmapLine(lo: nat, hi: nat, frame: nat, write: bool)

  /** The kmap table, in pages; data is where the kernel's data starts. */
  function Kmap(data: nat, k: nat): (l: KmapLine)
    requires EXTMEM < data < PHYSTOP && k < 4
    ensures USER <= l.lo < l.hi <= PAGES && l.hi - l.lo < PAGES && l.frame + (l.hi - l.lo) <= PAGES
    ensures l.hi <= USER + PHYSTOP || l.lo >= DEVSPACE
  {
    if k == 0 then KmapLine(USER, USER + EXTMEM, 0, true)                              // I/O space
    else if k == 1 then KmapLine(USER + EXTMEM, USER + data, EXTMEM, false)            // kernel text
    else if k == 2 then KmapLine(USER + data, USER + PHYSTOP, data, true)              // kernel data, memory
    else KmapLine(DEVSPACE, PAGES, DEVSPACE, true)                                     // devices
  }

  /** The entry that the first n lines of the table give page pg. */
  ghost function Kernel(data: nat, n: nat, pg: nat): Pte
    requires EXTMEM < data < PHYSTOP && n <= 4
  {
    if n == 0 then ZERO
    else
      var l := Kmap(data, n - 1);
      if l.lo <= pg < l.hi then Pte(l.frame + (pg - l.lo), true, l.write, false) else Kernel(data, n - 1, pg)
  }

  /** What the kernel part of an address space is: physical memory from KERNBASE on, with the
      kernel's text read-only, and the devices at their own addresses; nothing for the user. */
  ghost predicate KernelMap(data: nat, pg: nat, pte: Pte) {
    && (USER <= pg < USER + PHYSTOP ==>
          pte == Pte(pg - USER, true, !(USER + EXTMEM <= pg < USER + data), false))
    && (DEVSPACE <= pg < PAGES ==> pte == Pte(pg, true, true, false))
    && (pg < USER || USER + PHYSTOP <= pg < DEVSPACE ==> pte == ZERO)
  }

  lemma KernelIsMap(data: nat, pg: nat)
    requires EXTMEM < data < PHYSTOP && pg < PAGES
    ensures KernelMap(data, pg, Kernel(data, 4, pg))
  {
    assert Kernel(data, 0, pg) == ZERO;
    assert Kernel(data, 1, pg) == if USER <= pg < USER + EXTMEM then Pte(pg - USER, true, true, false) else ZERO;
    assert Kernel(data, 3, pg) == if USER + data <= pg < USER + PHYSTOP then Pte(pg - USER, true, true, false)
        else Kernel(data, 2, pg);
  }

  /** The lines do not overlap, so each page has the entry of its own line. */
  lemma {:induction false} KernelLine(data: nat, n: nat, k: nat, pg: nat)
    requires EXTMEM < data < PHYSTOP && k < n <= 4
    ensures var l := Kmap(data, k); l.lo <= pg < l.hi ==>
              Kernel(data, n, pg) == Pte(l.frame + (pg - l.lo), true, l.write, false)
  {
    if k + 1 < n {
      KernelLine(data, n - 1, k, pg);
    }
  }

  lemma KernelNone(data: nat)
    requires EXTMEM < data < PHYSTOP
    ensures forall pg: nat :: Kernel(data, 0, pg) == ZERO
  {
  }

  lemma {:induction false} KernelAbove(data: nat, n: nat)
    requires EXTMEM < data < PHYSTOP && n <= 4
    ensures forall pg: nat :: pg < USER ==> Kernel(data, n, pg) == ZERO
  {
    if n == 0 {
    } else {
      KernelAbove(data, n - 1);
    }
  }

  lemma LineRange(l: KmapLine)
    requires l.lo < l.hi <= PAGES && l.hi - l.lo < PAGES
    ensures l.lo * PGSIZE < TWO32 && (l.hi - l.lo) * PGSIZE < TWO32 && l.lo * PGSIZE / PGSIZE == l.lo
    ensures RangePages(l.lo * PGSIZE, (l.hi - l.lo) * PGSIZE) == l.hi - l.lo
  {
    assert (l.lo * PGSIZE + (l.hi - l.lo) * PGSIZE - 1) % TWO32 == l.hi * PGSIZE - 1;
    assert (l.hi * PGSIZE - 1) / PGSIZE == l.hi - 1;
  }

  /** The tables of the kernel's part of the address space. */
  ghost function KernelTables(): (t: set<int>)
    ensures |t| == 64
  {
    var memory, devices := Span(USER / ENTRIES, PHYSTOP / ENTRIES), Span(DEVSPACE / ENTRIES, 8);
    assert memory !! devices;
    memory + devices
  }

  lemma LineTable(l: KmapLine, j: nat)
    requires USER <= l.lo < l.hi <= PAGES && l.lo + j < l.hi && (l.hi <= USER + PHYSTOP || l.lo >= DEVSPACE)
    ensures TableNo(l.lo, j) in KernelTables()
  {
  }

  lemma LineTables(m0: Memory, m: Memory, dir: nat, l: KmapLine, n: nat)
    requires USER <= l.lo < l.hi <= PAGES && l.lo + n <= l.hi && (l.hi <= USER + PHYSTOP || l.lo >= DEVSPACE)
    requires TablesFor(m0, m, dir, l.lo, n)
    ensures Tables(m, dir) <= Tables(m0, dir) + KernelTables()
  {
    hide Tables, TableNo, KernelTables;
    assert forall d :: d in Tables(m, dir) ==> d >= 0 by { TablesNat(m, dir); }
    forall d: nat | d in Tables(m, dir)
      ensures d in Tables(m0, dir) || d in KernelTables()
    {
      if d !in Tables(m0, dir) {
        var j: nat :| j < n && TableNo(l.lo, j) == d;
        LineTable(l, j);
      }
    }
  }

  lemma TablesNat(m: Memory, dir: nat)
    ensures forall d :: d in Tables(m, dir) ==> d >= 0
  {
  }

  lemma AbsentTable(m: Memory, dir: nat, d: nat)
    requires !At(m, dir, d).present
    ensures d !in Tables(m, dir)
  {
  }

  /** A directory with all of the kernel's mappings has all of its tables. */
  lemma AllTables(m: Memory, dir: nat, data: nat)
    requires EXTMEM < data < PHYSTOP && forall pg: nat :: pg < PAGES ==> KernelMap(data, pg, Entry(m, dir, pg))
    ensures KernelTables() <= Tables(m, dir)
  {
    forall d | d in KernelTables()
      ensures d in Tables(m, dir)
    {
      assert KernelMap(data, d * ENTRIES, Entry(m, dir, d * ENTRIES));
      assert d * ENTRIES / ENTRIES == d;
    }
  }

  lemma FreeDistinct(m: Memory, lo: nat)
    requires FreeOk(m, lo)
    ensures Distinct(m.free)
  {
  }

  lemma EnoughFrames(m0: Memory, m: Memory, lo: nat, dir: nat)
    requires DirOk(m, lo, dir) && Distinct(m0.free) && KernelTables() <= Tables(m, dir)
    requires Elems(m0.free) == Elems(m.free) + Structure(m, dir)
    ensures |m0.free| >= 65
  {
    hide DirOk, Structure, Tables, KernelTables, Distinct;
    StructureSize(m, lo, dir);
    SubsetSmaller(KernelTables(), Tables(m, dir));
    SubsetSmaller(Structure(m, dir), Elems(m0.free));
    DistinctSize(m0.free);
  }

  lemma TooFewFrames(m0: Memory, m: Memory, lo: nat, dir: nat)
    requires DirOk(m, lo, dir) && Distinct(m0.free) && m.free == []
    requires Tables(m, dir) <= KernelTables() && !(KernelTables() <= Tables(m, dir))
    requires Elems(m0.free) == Elems(m.free) + Structure(m, dir)
    ensures |m0.free| < 65
  {
    hide DirOk, Structure, Tables, KernelTables, Distinct;
    StructureSize(m, lo, dir);
    ProperSmaller(Tables(m, dir), KernelTables());
    assert Elems(m.free) == {};
    assert Elems(m0.free) == Structure(m, dir);
    DistinctSize(m0.free);
  }

  lemma MappedPlain(m0: Memory, m: Memory, dir: nat, lo: nat, n: nat, pte: Pte)
    requires MappedTo(m0, m, dir, lo, n, pte) && lo + n <= PAGES && pte.frame + n <= PAGES
    ensures forall pg: nat :: pg < PAGES ==>
              Entry(m, dir, pg) == if lo <= pg < lo + n then pte.(frame := pte.frame + (pg - lo))
                  else Entry(m0, dir, pg)
  {
    hide Entry;
    forall pg: nat | pg < PAGES
      ensures Entry(m, dir, pg) == if lo <= pg < lo + n then pte.(frame := pte.frame + (pg - lo))
                else Entry(m0, dir, pg)
    {
      assert Offset(pg, lo) == if lo <= pg then pg - lo else pg - lo + PAGES;
    }
  }

  lemma KernelNext(data: nat, k: nat, m0: Memory, m: Memory, dir: nat)
    requires EXTMEM < data < PHYSTOP && k < 4
    requires forall pg: nat :: pg < PAGES ==> Entry(m0, dir, pg) == Kernel(data, k, pg)
    requires var l := Kmap(data, k);
             forall pg: nat :: pg < PAGES ==>
               Entry(m, dir, pg) == if l.lo <= pg < l.hi then Pte(l.frame + (pg - l.lo), true, l.write, false)
                   else Entry(m0, dir, pg)
    ensures forall pg: nat :: pg < PAGES ==> Entry(m, dir, pg) == Kernel(data, k + 1, pg)
  {
    hide Entry;
  }

  lemma NewDir(m0: Memory, m: Memory, lo: nat, dir: nat)
    requires FreeOk(m0, lo) && FreeOk(m, lo) && m0.free != [] && dir == m0.free[0] && lo <= dir < |m.page|
    requires m.page == m0.page && m.free == m0.free[1..] && dir !in m.free
    ensures var m' := m.(page := m.page[dir := Table(seq(ENTRIES, _ => ZERO))]);
            && Inv(m', lo, dir) && Elems(m0.free) == Elems(m'.free) + Structure(m', dir) && Tables(m', dir) == {}
            && forall pg: nat :: pg < PAGES ==> Entry(m', dir, pg) == ZERO
  {
    hide FreeOk, DirOk, Entry, Structure, Tables;
    var m' := m.(page := m.page[dir := Table(seq(ENTRIES, _ => ZERO))]);
    assert FreeOk(m', lo) by { FreeFrame(m, m', lo); }
    assert IsTable(m', dir) && forall d: nat :: At(m', dir, d) == ZERO;
    EmptyDir(m', lo, dir);
    assert m0.free == [dir] + m.free;
  }

  lemma EmptyDir(m: Memory, lo: nat, dir: nat)
    requires lo <= dir && IsTable(m, dir) && forall d: nat :: At(m, dir, d) == ZERO
    ensures DirOk(m, lo, dir) && Structure(m, dir) == {dir} && Tables(m, dir) == {}
    ensures forall pg: nat :: pg < PAGES ==> Entry(m, dir, pg) == ZERO
  {
    hide At, IsTable;
  }

  lemma NoUserPages(m: Memory, lo: nat, dir: nat)
    requires forall pg: nat :: pg < USER ==> !Entry(m, dir, pg).present
    ensures UserOk(m, lo, dir) && UserFrames(m, dir) == {}
  {
    hide Entry;
  }
}
