/** The swap space of lru_swap.c: each process has a list of disk slots linked by index through
    one table, a slot belongs to at most one list, and a page lives in the eight blocks of its
    slot in the region it was written through. The model is of unshared lists: every entry has
    count 1. */
module Swap {
  import opened Common
  import opened Blocks
  import opened Ring

  const SLOTS: nat := 2560  // MAX_FRAME_SWAP
  const PAGE: nat := 8      // blocks of a page
  const FSSIZE: nat := 1000 // blocks of the file system, in front of the swap space

  /** SWAP1_START, SWAP2_START, SWAP3_START */
  function Start(region: nat): nat {
    if region == 0 then 1000 else if region == 1 then 3000 else 3280
  }

  function Addr(region: nat, slot: nat): nat {
    Start(region) + slot * PAGE
  }

  predicate InPage(b: nat, region: nat, slot: nat) {
    Addr(region, slot) <= b < Addr(region, slot) + PAGE
  }

  type Key = (nat, int)  // a process and a page of it

  datatype Entry = Entry(vaddr: int, next: int, region: nat, count: int)

  datatype Space = Space(
    entry: seq<Entry>,
    used: seq<bool>,
    head: seq<int>,             // each process's swap_list, -1 when null
    disk: seq<Block>,
    ghost lists: seq<seq<nat>>, // each process's slots in list order
    ghost owner: seq<int>,      // the process a slot is listed by, or -1
    ghost slot: map<Key, nat>)  // where each swapped-out page is

  // ----- the lists -----

  /** Following next from head visits exactly l and stops. */
  ghost predicate Chain(entry: seq<Entry>, head: int, l: seq<nat>) {
    && |entry| == SLOTS && Distinct(l)
    && head == (if l == [] then -1 else l[0])
    && (forall k :: 0 <= k < |l| ==> l[k] < SLOTS)
    && (forall k {:trigger entry[l[k]]} :: 0 <= k < |l| ==> entry[l[k]].next == Next(l, k) && entry[l[k]].count == 1)
  }

  ghost predicate Chains(s: Space) {
    && |s.head| == |s.lists|
    && forall p :: 0 <= p < |s.lists| ==> Chain(s.entry, s.head[p], s.lists[p])
  }

  ghost predicate Bits(used: seq<bool>, owner: seq<int>, n: nat) {
    && |used| == |owner| == SLOTS
    && forall i :: 0 <= i < SLOTS ==> -1 <= owner[i] < n && (used[i] <==> owner[i] >= 0)
  }

  /** l lists exactly the slots that p owns. */
  ghost predicate Lists(l: seq<nat>, owner: seq<int>, p: int) {
    |owner| == SLOTS && forall i: nat :: i in l <==> i < SLOTS && owner[i] == p
  }

  ghost predicate Covers(lists: seq<seq<nat>>, owner: seq<int>) {
    |owner| == SLOTS && forall p :: 0 <= p < |lists| ==> Lists(lists[p], owner, p)
  }

  /** The lists are disjoint, and together exactly the slots whose bit is set. */
  ghost predicate Owned(s: Space) {
    |s.entry| == SLOTS && Bits(s.used, s.owner, |s.lists|) && Covers(s.lists, s.owner)
  }

  /** A process has at most one entry for a page. */
  ghost predicate Keyed(s: Space) {
    && |s.owner| == |s.entry| == SLOTS
    && (forall i :: 0 <= i < SLOTS && s.owner[i] >= 0 ==>
         (s.owner[i], s.entry[i].vaddr) in s.slot && s.slot[(s.owner[i], s.entry[i].vaddr)] == i)
    && (forall x :: x in s.slot ==>
         s.slot[x] < SLOTS && s.owner[s.slot[x]] == x.0 && s.entry[s.slot[x]].vaddr == x.1)
  }

  ghost predicate Inv(s: Space) {
    Chains(s) && Owned(s) && Keyed(s)
  }

  lemma OwnedAt(s: Space, p: nat, i: nat)
    requires Owned(s) && p < |s.lists|
    ensures i in s.lists[p] <==> i < SLOTS && s.owner[i] == p
  {
    assert Lists(s.lists[p], s.owner, p);
  }

  lemma ChainFrame(e: seq<Entry>, e': seq<Entry>, head: int, l: seq<nat>)
    requires Chain(e, head, l) && |e'| == SLOTS
    requires forall i: nat :: i in l && i < SLOTS ==> e'[i] == e[i]
    ensures Chain(e', head, l)
  {
    assert forall k :: 0 <= k < |l| ==> l[k] in l;
  }

  lemma ChainAt(e: seq<Entry>, head: int, l: seq<nat>, k: nat)
    requires Chain(e, head, l) && k < |l|
    ensures l[k] < SLOTS && e[l[k]].next == Next(l, k) && e[l[k]].count == 1
  {
    assert e[l[k]].next == Next(l, k);
  }

  function Relinked(e: seq<Entry>, i: nat, next: int): seq<Entry>
    requires i < |e|
  {
    e[i := e[i].(next := next)]
  }

  /** The table after slot f was put at the end of list l. */
  ghost function AppendedEntries(e: seq<Entry>, l: seq<nat>, f: nat, vaddr: int, region: nat): seq<Entry>
    requires f < |e| && (l != [] ==> l[|l| - 1] < |e|)
  {
    (if l == [] then e else Relinked(e, l[|l| - 1], f))[f := Entry(vaddr, -1, region, 1)]
  }

  lemma ChainAppend(e: seq<Entry>, head: int, l: seq<nat>, f: nat, vaddr: int, region: nat)
    requires Chain(e, head, l) && f < SLOTS && f !in l
    ensures l != [] ==> l[|l| - 1] < SLOTS
    ensures Chain(AppendedEntries(e, l, f, vaddr, region), if l == [] then f else head, l + [f])
  {
    var l', e' := l + [f], AppendedEntries(e, l, f, vaddr, region);
    forall k | 0 <= k < |l'|
      ensures e'[l'[k]].next == Next(l', k) && e'[l'[k]].count == 1
    {
      if k < |l| {
        ChainAt(e, head, l, k);
        assert l[k] in l;
      }
    }
  }

  /** The table after the k-th slot of l was taken out. */
  ghost function RemovedEntries(e: seq<Entry>, l: seq<nat>, k: nat): seq<Entry>
    requires k < |l| && forall j :: 0 <= j < |l| ==> l[j] < |e|
  {
    var e1 := e[l[k] := e[l[k]].(count := e[l[k]].count - 1)];
    if k == 0 then e1 else Relinked(e1, l[k - 1], e[l[k]].next)
  }

  lemma ChainRemove(e: seq<Entry>, head: int, l: seq<nat>, k: nat, l': seq<nat>)
    requires Chain(e, head, l) && Without(l, l', k)
    ensures Chain(RemovedEntries(e, l, k), if k == 0 then e[l[k]].next else head, l')
  {
    var e' := RemovedEntries(e, l, k);
    ChainAt(e, head, l, k);
    forall j | 0 <= j < |l'|
      ensures e'[l'[j]].next == Next(l', j) && e'[l'[j]].count == 1
    {
      var j0 := if j < k then j else j + 1;
      ChainAt(e, head, l, j0);
    }
  }

  // ----- adding and removing an entry -----

  ghost function Appended(s: Space, p: nat, f: nat, vaddr: int, region: nat): Space
    requires Inv(s) && p < |s.lists| && f < SLOTS && (s.lists[p] != [] ==> s.lists[p][|s.lists[p]| - 1] < SLOTS)
  {
    var l := s.lists[p];
    Space(AppendedEntries(s.entry, l, f, vaddr, region), s.used[f := true],
        s.head[p := if l == [] then f else s.head[p]],
          s.disk, s.lists[p := l + [f]], s.owner[f := p], s.slot[(p, vaddr) := f])
  }

  lemma AppendKeeps(s: Space, p: nat, f: nat, vaddr: int, region: nat)
    requires Inv(s) && p < |s.lists| && f < SLOTS && !s.used[f] && (p, vaddr) !in s.slot
    ensures s.lists[p] != [] ==> s.lists[p][|s.lists[p]| - 1] < SLOTS
    ensures Inv(Appended(s, p, f, vaddr, region))
  {
    hide Chain, AppendedEntries;
    assert f !in s.lists[p];
    ChainAppend(s.entry, s.head[p], s.lists[p], f, vaddr, region);
    var s' := Appended(s, p, f, vaddr, region);
    AppendedAt(s, p, f, vaddr, region);
    forall q | 0 <= q < |s.lists| && q != p
      ensures Chain(s'.entry, s'.head[q], s'.lists[q])
    {
      ChainFrame(s.entry, s'.entry, s.head[q], s.lists[q]);
    }
    AppendedOwned(s, p, f, vaddr, region);
  }

  lemma AppendedOwned(s: Space, p: nat, f: nat, vaddr: int, region: nat)
    requires Inv(s) && p < |s.lists| && f < SLOTS && !s.used[f]
    requires s.lists[p] != [] ==> s.lists[p][|s.lists[p]| - 1] < SLOTS
    ensures Owned(Appended(s, p, f, vaddr, region))
  {
    hide Chain, AppendedEntries, Keyed;
    AppendedAt(s, p, f, vaddr, region);
    CoversAppend(s.lists, s.owner, p, f);
  }

  lemma CoversAppend(lists: seq<seq<nat>>, owner: seq<int>, p: nat, f: nat)
    requires Covers(lists, owner) && p < |lists| && f < SLOTS && owner[f] == -1
    ensures Covers(lists[p := lists[p] + [f]], owner[f := p])
  {
    hide Lists;
    var lists', owner' := lists[p := lists[p] + [f]], owner[f := p];
    forall q | 0 <= q < |lists|
      ensures Lists(lists'[q], owner', q)
    {
      assert Lists(lists[q], owner, q);
      if q == p {
        ListsAppend(lists[p], owner, p, f);
      } else {
        ListsOther(lists[q], owner, q, f, p);
      }
    }
  }

  lemma ListsAppend(l: seq<nat>, owner: seq<int>, p: nat, f: nat)
    requires Lists(l, owner, p) && f < SLOTS && owner[f] == -1
    ensures Lists(l + [f], owner[f := p], p)
  {
    assert forall i: nat :: i in l + [f] <==> i in l || i == f;
  }

  lemma ListsOther(l: seq<nat>, owner: seq<int>, q: int, i: nat, o: int)
    requires Lists(l, owner, q) && i < SLOTS && owner[i] != q && o != q
    ensures Lists(l, owner[i := o], q)
  {
  }

  /** Only the new slot and the old last one of p change, the latter in its link. */
  lemma AppendedAt(s: Space, p: nat, f: nat, vaddr: int, region: nat)
    requires Inv(s) && p < |s.lists| && f < SLOTS && !s.used[f]
    requires s.lists[p] != [] ==> s.lists[p][|s.lists[p]| - 1] < SLOTS
    ensures var e' := AppendedEntries(s.entry, s.lists[p], f, vaddr, region);
            && |e'| == SLOTS && e'[f] == Entry(vaddr, -1, region, 1)
            && forall i :: 0 <= i < SLOTS && i != f ==>
                 && e'[i].vaddr == s.entry[i].vaddr && e'[i].region == s.entry[i].region
                 && (s.owner[i] != p ==> e'[i] == s.entry[i])
  {
    hide Chain, Keyed;
    var l := s.lists[p];
    assert l != [] ==> l[|l| - 1] in l;
  }

  ghost function Removed(s: Space, p: nat, k: nat): Space
    requires Inv(s) && p < |s.lists| && k < |s.lists[p]|
    requires (forall j :: 0 <= j < |s.lists[p]| ==> s.lists[p][j] < SLOTS)
  {
    var l := s.lists[p];
    var i := l[k];
    Space(RemovedEntries(s.entry, l, k), s.used[i := false], s.head[p := if k == 0 then s.entry[i].next else s.head[p]],
          s.disk, s.lists[p := l[..k] + l[k + 1..]], s.owner[i := -1], s.slot - {(p, s.entry[i].vaddr)})
  }

  lemma RemovedAt(s: Space, p: nat, k: nat)
    requires Inv(s) && p < |s.lists| && k < |s.lists[p]|
    requires (forall j :: 0 <= j < |s.lists[p]| ==> s.lists[p][j] < SLOTS)
    ensures var e' := RemovedEntries(s.entry, s.lists[p], k);
            && |e'| == SLOTS
            && forall i :: 0 <= i < SLOTS ==>
                 && e'[i].vaddr == s.entry[i].vaddr && e'[i].region == s.entry[i].region
                 && (s.owner[i] != p ==> e'[i] == s.entry[i])
  {
    hide Chain, Keyed;
    var l := s.lists[p];
    assert l[k] in l && (k > 0 ==> l[k - 1] in l);
  }

  lemma Members(s: Space, p: nat)
    requires Inv(s) && p < |s.lists|
    ensures forall j :: 0 <= j < |s.lists[p]| ==> s.lists[p][j] < SLOTS && s.owner[s.lists[p][j]] == p
    ensures Distinct(s.lists[p])
  {
    assert forall j :: 0 <= j < |s.lists[p]| ==> s.lists[p][j] in s.lists[p];
  }

  lemma WithoutMembers(l: seq<nat>, k: nat, i: nat)
    requires Distinct(l) && k < |l|
    ensures i in l[..k] + l[k + 1..] <==> i in l && i != l[k]
  {
    var l' := l[..k] + l[k + 1..];
    if i in l && i != l[k] {
      var j :| 0 <= j < |l| && l[j] == i;
      assert l'[if j < k then j else j - 1] == i;
    }
  }

  lemma RemoveKeeps(s: Space, p: nat, k: nat)
    requires Inv(s) && p < |s.lists| && k < |s.lists[p]|
    ensures forall j :: 0 <= j < |s.lists[p]| ==> s.lists[p][j] < SLOTS
    ensures Inv(Removed(s, p, k))
  {
    hide Chain, RemovedEntries;
    Members(s, p);
    var s', l := Removed(s, p, k), s.lists[p];
    RemovedAt(s, p, k);
    forall q | 0 <= q < |s.lists|
      ensures Chain(s'.entry, s'.head[q], s'.lists[q])
    {
      if q == p {
        WithoutConcat(l, k);
        ChainRemove(s.entry, s.head[p], l, k, l[..k] + l[k + 1..]);
      } else {
        ChainFrame(s.entry, s'.entry, s.head[q], s.lists[q]);
      }
    }
    assert Owned(s') by { RemovedOwned(s, p, k); }
  }

  lemma RemovedOwned(s: Space, p: nat, k: nat)
    requires Inv(s) && p < |s.lists| && k < |s.lists[p]|
    requires (forall j :: 0 <= j < |s.lists[p]| ==> s.lists[p][j] < SLOTS)
    ensures Owned(Removed(s, p, k))
  {
    hide Chain, RemovedEntries, Keyed, Covers;
    Members(s, p);
    RemovedAt(s, p, k);
    CoversRemove(s.lists, s.owner, p, k);
  }

  lemma CoversRemove(lists: seq<seq<nat>>, owner: seq<int>, p: nat, k: nat)
    requires Covers(lists, owner) && p < |lists| && k < |lists[p]| && Distinct(lists[p]) && lists[p][k] < SLOTS
    ensures Covers(lists[p := lists[p][..k] + lists[p][k + 1..]], owner[lists[p][k] := -1])
  {
    hide Lists;
    var lists', owner' := lists[p := lists[p][..k] + lists[p][k + 1..]], owner[lists[p][k] := -1];
    ListsAt(lists[p], owner, p, k);
    forall q | 0 <= q < |lists|
      ensures Lists(lists'[q], owner', q)
    {
      assert Lists(lists[q], owner, q);
      if q == p {
        ListsRemove(lists[p], owner, p, k);
      } else {
        ListsOther(lists[q], owner, q, lists[p][k], -1);
      }
    }
  }

  lemma ListsAt(l: seq<nat>, owner: seq<int>, p: int, k: nat)
    requires Lists(l, owner, p) && k < |l| && l[k] < SLOTS
    ensures |owner| == SLOTS && owner[l[k]] == p
  {
    assert l[k] in l;
  }

  lemma ListsRemove(l: seq<nat>, owner: seq<int>, p: nat, k: nat)
    requires Lists(l, owner, p) && k < |l| && Distinct(l) && l[k] < SLOTS
    ensures Lists(l[..k] + l[k + 1..], owner[l[k] := -1], p)
  {
    var l', owner' := l[..k] + l[k + 1..], owner[l[k] := -1];
    forall i: nat
      ensures i in l' <==> i < SLOTS && owner'[i] == p
    {
      WithoutMembers(l, k, i);
    }
  }

  /** A match at position k is the page's entry. */
  lemma FoundSlot(s: Space, p: nat, k: nat)
    requires Inv(s) && p < |s.lists| && k < |s.lists[p]|
    ensures var i := s.lists[p][k];
            i < SLOTS && s.owner[i] == p && (p, s.entry[i].vaddr) in s.slot && s.slot[(p, s.entry[i].vaddr)] == i
  {
    hide Chain;
    Members(s, p);
  }

  /** A page in the store is somewhere in its process's list. */
  lemma PageListed(s: Space, p: nat, vaddr: int)
    requires Inv(s) && p < |s.lists| && (p, vaddr) in s.slot
    ensures exists k :: 0 <= k < |s.lists[p]| && s.lists[p][k] == s.slot[(p, vaddr)]
  {
    hide Chain;
    assert s.slot[(p, vaddr)] in s.lists[p];
  }

  // ----- pages on the disk -----

  function PageAt(disk: seq<Block>, a: nat): seq<Block> {
    if a + PAGE <= |disk| then disk[a..a + PAGE] else []
  }

  /** What is swapped out: for every page its region and its contents on the disk. */
  ghost function Contents(s: Space): map<Key, (nat, seq<Block>)>
    requires Inv(s)
  {
    map x | x in s.slot :: (s.entry[s.slot[x]].region, PageAt(s.disk, Addr(s.entry[s.slot[x]].region, s.slot[x])))
  }

  /** Every page in the store is within the disk. */
  ghost predicate OnDisk(s: Space)
    requires Inv(s)
  {
    forall x :: x in Contents(s) ==> |Contents(s)[x].1| == PAGE
  }

  /** Two pages share blocks exactly when they are the same page of the disk, and slots of
      different regions meet exactly at these distances. */
  lemma CollideIff(r: nat, i: nat, q: nat, j: nat)
    requires r <= q < 3
    ensures (exists b :: InPage(b, r, i) && InPage(b, q, j)) <==> Addr(r, i) == Addr(q, j)
    ensures Addr(r, i) == Addr(q, j) <==>
            i == j + (if r == q then 0 else if r == 0 && q == 1 then 250 else if r == 0 then 285 else 35)
  {
    assert Addr(r, i) % 8 == Addr(q, j) % 8 == 0;
    if Addr(r, i) == Addr(q, j) {
      assert InPage(Addr(r, i), r, i) && InPage(Addr(r, i), q, j);
    }
  }

  /** The swap space begins right behind the file system, and no page of any region reaches into
      it. */
  lemma BehindFileSystem(region: nat, slot: nat)
    ensures Addr(0, 0) == FSSIZE && FSSIZE <= Addr(region, slot)
  {
  }

  ghost predicate FileSystemKept(disk: seq<Block>, disk': seq<Block>) {
    |disk'| == |disk| && forall b :: 0 <= b < FSSIZE && b < |disk| ==> disk'[b] == disk[b]
  }

  ghost function Live(s: Space): set<nat>
    requires |s.used| == SLOTS
  {
    set i: nat | i < SLOTS && s.used[i]
  }

  /** Setting or clearing one bit changes the number of live slots by one. */
  lemma LiveChange(s: Space, s': Space, f: nat)
    requires |s.used| == SLOTS && f < SLOTS && s'.used == s.used[f := !s.used[f]]
    ensures |Live(s')| == if s.used[f] then |Live(s)| - 1 else |Live(s)| + 1
  {
    if s.used[f] {
      assert Live(s) == Live(s') + {f};
    } else {
      assert Live(s') == Live(s) + {f};
    }
  }

  ghost predicate LowSlots(s: Space) {
    |s.used| == SLOTS && forall i :: 0 <= i < SLOTS && s.used[i] ==> i < 35
  }

  /** No live page is on the disk blocks of slot f in this region. */
  ghost predicate Clear(s: Space, region: nat, f: nat)
    requires Inv(s)
  {
    forall i :: 0 <= i < SLOTS && s.used[i] ==> Addr(s.entry[i].region, i) != Addr(region, f)
  }

  /** With fewer than 35 live slots the lowest free one is below 35, and such slots never
      meet across the regions. */
  lemma FewSlotsClear(s: Space, f: nat, region: nat)
    requires Inv(s) && |s.entry| == SLOTS && LowSlots(s) && |Live(s)| < 35 && region < 3
    requires f < SLOTS && !s.used[f] && forall j :: 0 <= j < f ==> s.used[j]
    ensures f < 35 && Clear(s, region, f)
  {
    hide Chains, Owned, Keyed, Addr;
    assert Below(f) <= Live(s);
    SubsetSmaller(Below(f), Live(s));
    forall i | 0 <= i < SLOTS && s.used[i]
      ensures Addr(s.entry[i].region, i) != Addr(region, f)
    {
      LowAddr(s.entry[i].region, i, region, f);
    }
  }

  lemma LowAddr(r: nat, i: nat, q: nat, j: nat)
    requires i < 35 && j < 35 && i != j
    ensures Addr(r, i) != Addr(q, j)
  {
  }

  /** Thirty-five is the exact limit: the page of stack slot 35 is the page of heap slot 0. */
  lemma RegionsMeet()
    ensures Addr(1, 35) == Addr(2, 0)
    ensures forall r: nat, i: nat, q: nat, j: nat :: r < q < 3 && i < 35 && j < 35 ==> Addr(r, i) != Addr(q, j)
  {
    forall r: nat, i: nat, q: nat, j: nat | r < q < 3 && i < 35 && j < 35
      ensures Addr(r, i) != Addr(q, j)
    {
      CollideIff(r, i, q, j);
    }
  }

  /** disk' is disk with the page written at a. */
  ghost predicate PageWritten(disk: seq<Block>, disk': seq<Block>, a: nat, page: seq<Block>) {
    && |disk'| == |disk| && a + PAGE <= |disk| && |page| == PAGE
    && forall b :: 0 <= b < |disk| ==> disk'[b] == if a <= b < a + PAGE then page[b - a] else disk[b]
  }

  lemma PageWrittenAt(disk: seq<Block>, disk': seq<Block>, a: nat, page: seq<Block>, c: nat)
    requires PageWritten(disk, disk', a, page)
    ensures PageAt(disk', a) == page
    ensures a % PAGE == c % PAGE && a != c ==> PageAt(disk', c) == PageAt(disk, c)
  {
  }

  lemma AddrAligned(region: nat, i: nat)
    ensures Addr(region, i) % PAGE == 0
  {
  }

  /** Writing a new page keeps every other page exactly as far as their blocks differ. */
  lemma AppendedContents(s: Space, p: nat, f: nat, vaddr: int, region: nat, page: seq<Block>, disk': seq<Block>)
    requires Inv(s) && p < |s.lists| && f < SLOTS && !s.used[f] && (p, vaddr) !in s.slot
    requires s.lists[p] != [] ==> s.lists[p][|s.lists[p]| - 1] < SLOTS
    requires PageWritten(s.disk, disk', Addr(region, f), page)
    requires Inv(Appended(s, p, f, vaddr, region).(disk := disk'))
    ensures var c := Contents(Appended(s, p, f, vaddr, region).(disk := disk'));
            && c.Keys == Contents(s).Keys + {(p, vaddr)} && c[(p, vaddr)] == (region, page)
            && forall x :: x in Contents(s) ==>
                 c[x] == if Addr(s.entry[s.slot[x]].region, s.slot[x]) == Addr(region, f)
                         then (s.entry[s.slot[x]].region, page) else Contents(s)[x]
  {
    hide Chain, AppendedEntries, PageAt, Addr, PageWritten, Covers;
    AppendedAt(s, p, f, vaddr, region);
    var s' := Appended(s, p, f, vaddr, region).(disk := disk');
    PageWrittenAt(s.disk, disk', Addr(region, f), page, 0);
    AddrAligned(region, f);
    forall x | x in s.slot
      ensures Contents(s')[x] == if Addr(s.entry[s.slot[x]].region, s.slot[x]) == Addr(region, f)
                                 then (s.entry[s.slot[x]].region, page) else Contents(s)[x]
    {
      AddrAligned(s.entry[s.slot[x]].region, s.slot[x]);
      PageWrittenAt(s.disk, disk', Addr(region, f), page, Addr(s.entry[s.slot[x]].region, s.slot[x]));
    }
  }

  lemma RemovedContents(s: Space, p: nat, k: nat)
    requires Inv(s) && p < |s.lists| && k < |s.lists[p]|
    requires (forall j :: 0 <= j < |s.lists[p]| ==> s.lists[p][j] < SLOTS)
    requires Inv(Removed(s, p, k))
    ensures Contents(Removed(s, p, k)) == Contents(s) - {(p, s.entry[s.lists[p][k]].vaddr)}
  {
    hide Chain, RemovedEntries, PageAt, Addr;
    RemovedAt(s, p, k);
  }

  class SwapSpace {
    var s: Space

    /** lru_swap_init() for n processes with empty lists. */
    constructor (n: nat, disk: seq<Block>)
      ensures Inv(s) && s.disk == disk && |s.lists| == n && s.slot == map[] && s.used == seq(SLOTS, _ => false)
      ensures LowSlots(s) && OnDisk(s) && Contents(s) == map[]
    {
      s := Space(seq(SLOTS, _ => Entry(0, 0, 0, 0)), seq(SLOTS, _ => false), seq(n, _ => -1), disk,
                 seq(n, _ => []), seq(SLOTS, _ => -1), map[]);
    }

    /** swap_get_free_frame(), apart from setting the bit: the lowest free slot, or -1. */
    method GetFreeFrame() returns (r: int)
      requires |s.used| == SLOTS
      ensures -1 <= r < SLOTS
      ensures r >= 0 ==> !s.used[r] && forall j :: 0 <= j < r ==> s.used[j]
      ensures r < 0 ==> forall j :: 0 <= j < SLOTS ==> s.used[j]
    {
      for i := 0 to SLOTS
        invariant forall j :: 0 <= j < i ==> s.used[j]
      {
        if !s.used[i] {
          return i;
        }
      }
      return -1;
    }

    /** The walk to the end of a list that swap_out() makes. */
    method LastSlot(p: nat) returns (curr: nat)
      requires Inv(s) && p < |s.lists| && s.lists[p] != []
      ensures curr == s.lists[p][|s.lists[p]| - 1] && curr < SLOTS
    {
      hide Owned, Keyed, Chain;
      ghost var k := 0;
      ghost var l := s.lists[p];
      HeadOf(s, p);
      ChainAt(s.entry, s.head[p], l, 0);
      curr := s.head[p];
      while s.entry[curr].next != -1
        invariant k < |l| && curr == l[k] && curr < SLOTS && s.entry[curr].next == Next(l, k)
        decreases |l| - k
      {
        curr := s.entry[curr].next;
        k := k + 1;
        ChainAt(s.entry, s.head[p], l, k);
      }
    }

    /** writeswap(): eight block writes; false when a block is beyond the disk. */
    method WriteSwap(page: seq<Block>, bno: nat) returns (ok: bool)
      requires |page| == PAGE
      modifies this
      ensures ok <==> bno + PAGE <= |old(s).disk|
      ensures s == old(s).(disk := s.disk) && |s.disk| == |old(s).disk|
      ensures forall b :: 0 <= b < |s.disk| && !(bno <= b < bno + PAGE) ==> s.disk[b] == old(s).disk[b]
      ensures ok ==> PageWritten(old(s).disk, s.disk, bno, page)
    {
      for i := 0 to PAGE
        invariant s == old(s).(disk := s.disk) && |s.disk| == |old(s).disk| && (i > 0 ==> bno + i <= |s.disk|)
        invariant forall b :: 0 <= b < |s.disk| ==>
                    s.disk[b] == if bno <= b < bno + i then page[b - bno] else old(s).disk[b]
      {
        if bno + i >= |s.disk| {
          return false;
        }
        s := s.(disk := s.disk[bno + i := page[i]]);
      }
      return true;
    }

    /** readswap(), without the frame it allocates; false when a block is beyond the disk. */
    method ReadSwap(bno: nat) returns (ok: bool, page: seq<Block>)
      ensures ok <==> bno + PAGE <= |s.disk|
      ensures ok ==> page == PageAt(s.disk, bno)
    {
      page := [];
      for i := 0 to PAGE
        invariant (i > 0 ==> bno + i <= |s.disk|) && (bno <= |s.disk| ==> page == s.disk[bno..bno + i])
      {
        if bno + i >= |s.disk| {
          return false, page;
        }
        page := page + [s.disk[bno + i]];
      }
      return true, page;
    }

    /** swap_out(), swap_out_stack() and swap_out_heap(), which differ in the region: -1 when
        no slot is free, -2 for the panic of a block beyond the disk. Otherwise the page is in
        the store, and every other page is as it was unless it lies on the same blocks. */
    method SwapOut(p: nat, vaddr: int, region: nat, page: seq<Block>) returns (r: int, ghost f: nat)
      requires Inv(s) && p < |s.lists| && region < 3 && |page| == PAGE && (p, vaddr) !in s.slot
      modifies this
      ensures r == -1 <==> forall j :: 0 <= j < SLOTS ==> old(s).used[j]
      ensures r == -1 ==> s == old(s)
      ensures r != -1 ==> f < SLOTS && !old(s).used[f] && (forall j :: 0 <= j < f ==> old(s).used[j])
      ensures r == -2 <==> r != -1 && Addr(region, f) + PAGE > |old(s).disk|
      ensures r == 1 || r == -1 || r == -2
      ensures FileSystemKept(old(s).disk, s.disk)
      ensures r == 1 ==>
                && Inv(s) && s.lists == old(s).lists[p := old(s).lists[p] + [f]] && s.used == old(s).used[f := true]
                && s.slot == old(s).slot[(p, vaddr) := f] && |s.disk| == |old(s).disk|
                && Contents(s).Keys == Contents(old(s)).Keys + {(p, vaddr)}
                && Contents(s)[(p, vaddr)] == (region, page)
      ensures r == 1 ==> forall x :: x in Contents(old(s)) ==>
                Contents(s)[x] == if Addr(old(s).entry[old(s).slot[x]].region, old(s).slot[x]) == Addr(region, f)
                                  then (old(s).entry[old(s).slot[x]].region, page) else Contents(old(s))[x]
      ensures r == 1 && OnDisk(old(s)) ==> OnDisk(s)
      ensures r == 1 ==> |Live(s)| == |Live(old(s))| + 1
      ensures r == 1 && LowSlots(old(s)) && |Live(old(s))| < 35 ==>
                LowSlots(s) && Contents(s) == Contents(old(s))[(p, vaddr) := (region, page)]
    {
      hide Chain, AppendedEntries, Owned, Keyed, PageWritten, Addr, Contents, Live, Clear;
      ghost var s0 := s;
      Shape(s);
      HeadOf(s, p);
      var findex, last := -1, s.head[p];
      if last != -1 {
        last := LastSlot(p);
      }
      findex := GetFreeFrame();
      if findex < 0 {
        return -1, 0;
      }
      f := findex;
      AppendKeeps(s, p, f, vaddr, region);
      LinkIn(p, findex, last, vaddr, region);
      BehindFileSystem(region, f);
      var ok := WriteSwap(page, Addr(region, findex));
      if !ok {
        return -2, f;
      }
      DiskKeepsInv(Appended(s0, p, f, vaddr, region), s.disk);
      AppendedContents(s0, p, f, vaddr, region, page, s.disk);
      LiveChange(s0, s, f);
      if LowSlots(s0) && |Live(s0)| < 35 {
        FewSlotsClear(s0, f, region);
        ClearContents(s0, region, f);
        assert Contents(s) == Contents(s0)[(p, vaddr) := (region, page)];
      }
      return 1, f;
    }

    /** The table update of swap_out(). */
    method LinkIn(p: nat, findex: nat, last: int, vaddr: int, region: nat)
      requires Inv(s) && p < |s.lists| && findex < SLOTS
      requires if s.lists[p] == [] then last == -1 else last == s.lists[p][|s.lists[p]| - 1] && last < SLOTS
      modifies this
      ensures s == Appended(old(s), p, findex, vaddr, region)
    {
      hide Chain;
      ghost var s' := Appended(s, p, findex, vaddr, region);
      var head, entry := s.head, s.entry;
      if last == -1 {
        head := head[p := findex];
      } else {
        entry := entry[last := entry[last].(next := findex)];
      }
      s := Space(entry[findex := Entry(vaddr, -1, region, 1)], s.used[findex := true], head, s.disk,
                 s'.lists, s'.owner, s'.slot);
    }

    /** swap_check(): the region of the page's entry, or -1 when it has none. */
    method SwapCheck(p: nat, vaddr: int) returns (r: int)
      requires Inv(s) && p < |s.lists|
      ensures r == -1 <==> (p, vaddr) !in Contents(s)
      ensures r != -1 ==> (p, vaddr) in Contents(s) && r == Contents(s)[(p, vaddr)].0
    {
      hide Chain, Owned, Keyed, Addr, PageAt;
      Shape(s);
      var df, prev, k := Find(p, vaddr);
      if df == -1 {
        return -1;
      }
      return s.entry[df].region;
    }

    /** The walk of swap_in() and swap_check(): the entry of the page and the one before it. */
    method Find(p: nat, vaddr: int) returns (curr: int, prev: int, ghost k: nat)
      requires Inv(s) && p < |s.lists|
      ensures curr == -1 <==> (p, vaddr) !in s.slot
      ensures curr != -1 ==> 0 <= curr < SLOTS && s.slot[(p, vaddr)] == curr && s.entry[curr].vaddr == vaddr
      ensures curr != -1 ==> k < |s.lists[p]| && s.lists[p][k] == curr
      ensures curr != -1 ==> prev == if k == 0 then -1 else s.lists[p][k - 1]
    {
      hide Chain, Owned, Keyed;
      Shape(s);
      HeadOf(s, p);
      ghost var l := s.lists[p];
      curr, prev, k := s.head[p], -1, 0;
      if curr == -1 {
        NotFound(s, p, vaddr);
        return;
      }
      ChainAt(s.entry, s.head[p], l, 0);
      while s.entry[curr].next != -1
        invariant k < |l| && curr == l[k] && curr < SLOTS && s.entry[curr].next == Next(l, k)
        invariant prev == if k == 0 then -1 else l[k - 1]
        invariant forall j :: 0 <= j < k ==> l[j] < SLOTS && s.entry[l[j]].vaddr != vaddr
        decreases |l| - k
      {
        if s.entry[curr].vaddr == vaddr {
          break;
        }
        prev := curr;
        curr := s.entry[curr].next;
        k := k + 1;
        ChainAt(s.entry, s.head[p], l, k);
      }
      FoundSlot(s, p, k);
      if s.entry[curr].vaddr != vaddr {
        NotFound(s, p, vaddr);
        curr := -1;
      }
    }

    /** swap_in(), swap_in_stack() and swap_in_heap(): takes the page's entry out of the list
        and reads the page from the given region; -1 when there is none, -2 for the panic of a
        block beyond the disk. */
    method SwapIn(p: nat, vaddr: int, region: nat) returns (r: int, page: seq<Block>)
      requires Inv(s) && p < |s.lists|
      modifies this
      ensures r == -1 <==> (p, vaddr) !in old(s).slot
      ensures r == -1 ==> s == old(s)
      ensures r == 1 || r == -1 || r == -2
      ensures r == -2 <==> r != -1 && Addr(region, old(s).slot[(p, vaddr)]) + PAGE > |old(s).disk|
      ensures r == 1 ==> page == PageAt(old(s).disk, Addr(region, old(s).slot[(p, vaddr)]))
      ensures r != -1 ==> old(s).slot[(p, vaddr)] < SLOTS && old(s).used[old(s).slot[(p, vaddr)]]
      ensures r != -1 ==> s.used == old(s).used[old(s).slot[(p, vaddr)] := false] && |Live(s)| == |Live(old(s))| - 1
      ensures Inv(s) && s.disk == old(s).disk && Contents(s) == Contents(old(s)) - {(p, vaddr)}
      ensures (LowSlots(old(s)) ==> LowSlots(s)) && (OnDisk(old(s)) ==> OnDisk(s))
    {
      hide Chain, Owned, Keyed, Contents, RemovedEntries, Addr, PageAt, Live;
      Shape(s);
      var curr, prev, k := Find(p, vaddr);
      page := [];
      if curr == -1 {
        NotStored(s, p, vaddr);
        return -1, page;
      }
      ghost var s0 := s;
      InUse(s, p, k);
      RemoveKeeps(s, p, k);
      RemovedContents(s, p, k);
      LinkOut(p, curr, prev, k);
      LiveChange(s0, s, curr);
      var ok;
      ok, page := ReadSwap(Addr(region, curr));
      return if ok then 1 else -2, page;
    }

    /** The table update of swap_in(), for an entry with count 1. */
    method LinkOut(p: nat, curr: nat, prev: int, ghost k: nat)
      requires Inv(s) && p < |s.lists| && k < |s.lists[p]| && curr == s.lists[p][k]
      requires forall j :: 0 <= j < |s.lists[p]| ==> s.lists[p][j] < SLOTS
      requires prev == if k == 0 then -1 else s.lists[p][k - 1]
      modifies this
      ensures s == Removed(old(s), p, k)
    {
      hide Owned, Keyed;
      ghost var s' := Removed(s, p, k);
      Shape(s);
      HeadOf(s, p);
      ChainAt(s.entry, s.head[p], s.lists[p], k);
      assert curr == s.head[p] <==> k == 0;
      var entry, head := s.entry, s.head;
      entry := entry[curr := entry[curr].(count := entry[curr].count - 1)];
      if entry[curr].count == 0 {
        if curr == head[p] {
          head := head[p := if entry[curr].next == -1 then -1 else entry[curr].next];
        } else {
          entry := entry[prev := entry[prev].(next := entry[curr].next)];
        }
      }
      s := Space(entry, s.used[curr := false], head, s.disk, s'.lists, s'.owner, s'.slot);
    }

    /** The swap part of pgflt_handler(): a page that is in the store comes back with exactly
        the contents the store has for it, and leaves the store. False for ok is the panic of a
        block beyond the disk. */
    method PageFault(p: nat, vaddr: int) returns (ok: bool, found: bool, page: seq<Block>)
      requires Inv(s) && p < |s.lists|
      modifies this
      ensures found <==> (p, vaddr) in Contents(old(s))
      ensures OnDisk(old(s)) || !found ==> ok
      ensures ok && found ==> page == Contents(old(s))[(p, vaddr)].1
      ensures Inv(s) && s.disk == old(s).disk && Contents(s) == Contents(old(s)) - {(p, vaddr)}
      ensures found ==> |Live(s)| == |Live(old(s))| - 1
      ensures !found ==> s == old(s)
      ensures (LowSlots(old(s)) ==> LowSlots(s)) && (OnDisk(old(s)) ==> OnDisk(s))
    {
      hide Chain, Owned, Keyed, RemovedEntries, Addr, Live;
      var swapno := SwapCheck(p, vaddr);
      if swapno < 0 {
        assert Contents(s) == Contents(s) - {(p, vaddr)};
        return true, false, [];
      }
      var r;
      r, page := SwapIn(p, vaddr, swapno);
      ok, found := r == 1, true;
    }

    /** swap_free() of a process that was not forked: all its slots are free again. When the
        list has exactly one entry, its swap_list keeps pointing to the freed slot. */
    method SwapFree(p: nat)
      requires Inv(s) && p < |s.lists|
      modifies this
      ensures |old(s).lists[p]| == 1 ==> s == old(s).(used := old(s).used[old(s).lists[p][0] := false])
      ensures LowSlots(old(s)) ==> LowSlots(s)
      ensures |old(s).lists[p]| != 1 ==> Inv(s) && (OnDisk(old(s)) ==> OnDisk(s))
      ensures |old(s).lists[p]| != 1 ==>
                && Inv(s) && s.lists == old(s).lists[p := []] && s.disk == old(s).disk
                && (forall i :: 0 <= i < SLOTS ==> s.used[i] == (old(s).used[i] && old(s).owner[i] != p))
                && Contents(s) == map x | x in Contents(old(s)) && x.0 != p :: Contents(old(s))[x]
    {
      hide Chain, Owned, Keyed, Contents;
      Shape(s);
      HeadOf(s, p);
      Members(s, p);
      var curr := s.head[p];
      ghost var l := s.lists[p];
      if curr == -1 {
        Emptied(s, p, s.used);
        return;
      }
      ChainAt(s.entry, s.head[p], l, 0);
      if s.entry[curr].next == -1 {
        s := s.(used := s.used[curr := false]);
        return;
      }
      ghost var k := 0;
      var used := s.used;
      while s.entry[curr].next != -1
        invariant s == old(s) && |used| == SLOTS && |l| > 1
        invariant k < |l| && curr == l[k] && curr < SLOTS && s.entry[curr].next == Next(l, k)
        invariant forall i: nat :: i < SLOTS ==>
                    (used[i] <==> s.used[i] && i !in l[..if k == |l| - 1 then |l| else k])
        decreases |l| - k
      {
        used := used[curr := false];
        curr := s.entry[curr].next;
        k := k + 1;
        ChainAt(s.entry, s.head[p], l, k);
        assert l[..k] == l[..k - 1] + [l[k - 1]];
        if s.entry[curr].next == -1 {
          assert l[..|l|] == l[..k] + [l[k]];
          used := used[curr := false];
        }
      }
      assert l[..|l|] == l;
      Emptied(s, p, used);
      ghost var s' := Cleared(s, p, used);
      s := Space(s.entry, used, s.head[p := -1], s.disk, s'.lists, s'.owner, s'.slot);
    }
  }

  /** Process 0 has its pages 0 .. i - 1 in the slots of the same numbers, the first through the
      heap region with these contents. */
  ghost predicate Stored(s: Space, i: nat, first: seq<Block>) {
    && Inv(s) && OnDisk(s) && |s.lists| == 1 && |s.used| == SLOTS && Addr(2, SLOTS) <= |s.disk|
    && (forall j :: 0 <= j < SLOTS ==> (s.used[j] <==> j < i))
    && (forall x :: x in s.slot ==> x.1 < i)
    && (i > 0 ==> (0, 0) in Contents(s) && s.slot[(0, 0)] == 0 && Contents(s)[(0, 0)] == (2, first))
  }

  lemma FirstAddr(s: Space, i: nat, first: seq<Block>)
    requires Stored(s, i, first) && i > 0
    ensures (0, 0) in s.slot && s.slot[(0, 0)] == 0 && 0 < |s.entry| && s.entry[0].region == 2
  {
  }

  /** The next page goes into slot i, and the first page is lost if that is the page of heap
      slot 0. */
  method StoreNext(space: SwapSpace, i: nat, region: nat, page: seq<Block>, ghost first: seq<Block>)
    requires Stored(space.s, i, first) && i < 36 && region < 3 && |page| == PAGE
    requires i == 0 ==> region == 2 && page == first
    modifies space
    ensures Stored(space.s, i + 1, if i > 0 && Addr(region, i) == Addr(2, 0) then page else first)
  {
    hide Inv, OnDisk, Contents, Live;
    ghost var s0 := space.s;
    assert !s0.used[i];
    if i > 0 {
      FirstAddr(s0, i, first);
    }
    var r;
    ghost var f;
    r, f := space.SwapOut(0, i, region, page);
    assert f == i;
  }

  /** Thirty-five is the exact limit. Once 35 heap pages are stored, the next page that goes
      through the stack region gets slot 35, whose blocks are those of heap slot 0: the first
      page comes back as the last one. */
  method ThirtySixPages(disk: seq<Block>, first: seq<Block>, last: seq<Block>) returns (back: seq<Block>)
    requires |first| == |last| == PAGE && Addr(2, SLOTS) <= |disk|
    ensures back == last
  {
    hide Inv, OnDisk, Contents, Live;
    var space := new SwapSpace(1, disk);
    for i := 0 to 35
      invariant Stored(space.s, i, first)
    {
      StoreNext(space, i, 2, first, first);
    }
    StoreNext(space, 35, 1, last, first);
    var ok, found;
    ok, found, back := space.PageFault(0, 0);
  }

  lemma InUse(s: Space, p: nat, k: nat)
    requires Inv(s) && p < |s.lists| && k < |s.lists[p]|
    ensures s.lists[p][k] < SLOTS && s.used[s.lists[p][k]]
  {
    Members(s, p);
  }

  lemma Shape(s: Space)
    requires Inv(s)
    ensures |s.used| == |s.owner| == |s.entry| == SLOTS && |s.head| == |s.lists|
  {
  }

  lemma HeadOf(s: Space, p: nat)
    requires Inv(s) && p < |s.lists|
    ensures |s.head| == |s.lists| && Chain(s.entry, s.head[p], s.lists[p]) && |s.entry| == SLOTS
    ensures s.head[p] == if s.lists[p] == [] then -1 else s.lists[p][0]
  {
  }

  lemma NotFound(s: Space, p: nat, vaddr: int)
    requires Inv(s) && p < |s.lists|
    requires forall k :: 0 <= k < |s.lists[p]| ==> s.lists[p][k] < SLOTS && s.entry[s.lists[p][k]].vaddr != vaddr
    ensures (p, vaddr) !in s.slot
  {
    hide Chain;
    if (p, vaddr) in s.slot {
      PageListed(s, p, vaddr);
    }
  }

  lemma NotStored(s: Space, p: nat, vaddr: int)
    requires Inv(s) && (p, vaddr) !in s.slot
    ensures Contents(s) == Contents(s) - {(p, vaddr)}
  {
    hide Chain, Owned;
  }

  lemma DiskKeepsInv(s: Space, disk: seq<Block>)
    requires Inv(s)
    ensures Inv(s.(disk := disk))
  {
    hide Chain, Covers, Bits;
  }

  lemma ClearContents(s: Space, region: nat, f: nat)
    requires Inv(s) && Clear(s, region, f)
    ensures forall x :: x in Contents(s) ==>
              x in s.slot && Addr(s.entry[s.slot[x]].region, s.slot[x]) != Addr(region, f)
  {
    hide Chain, Addr;
  }

  ghost function Cleared(s: Space, p: nat, used: seq<bool>): Space
    requires Inv(s) && p < |s.lists|
  {
    s.(used := used, head := s.head[p := -1], lists := s.lists[p := []],
       owner := seq(SLOTS, i requires 0 <= i < SLOTS => if s.owner[i] == p then -1 else s.owner[i]),
       slot := map x | x in s.slot && x.0 != p :: s.slot[x])
  }

  lemma Emptied(s: Space, p: nat, used: seq<bool>)
    requires Inv(s) && p < |s.lists| && |used| == SLOTS
    requires forall i: nat :: i < SLOTS ==> (used[i] <==> s.used[i] && i !in s.lists[p])
    ensures Inv(Cleared(s, p, used))
    ensures Contents(Cleared(s, p, used)) == map x | x in Contents(s) && x.0 != p :: Contents(s)[x]
    ensures forall i :: 0 <= i < SLOTS ==> used[i] == (s.used[i] && s.owner[i] != p)
    ensures s.lists[p] == [] && used == s.used ==> Cleared(s, p, used) == s
  {
    hide Chain, Addr, PageAt, Owned, Keyed;
    Shape(s);
    EmptyChain(s.entry);
    ClearedOwned(s, p, used);
    ClearedKeyed(s, p, used);
    forall i: nat | i < SLOTS
      ensures used[i] == (s.used[i] && s.owner[i] != p)
    {
      OwnedAt(s, p, i);
    }
    if s.lists[p] == [] && used == s.used {
      ClearedNothing(s, p);
    }
  }

  lemma ClearedKeyed(s: Space, p: nat, used: seq<bool>)
    requires Inv(s) && p < |s.lists|
    ensures Keyed(Cleared(s, p, used))
  {
    hide Chain, Bits, Covers;
  }

  lemma ClearedNothing(s: Space, p: nat)
    requires Inv(s) && p < |s.lists| && s.lists[p] == []
    ensures Cleared(s, p, s.used) == s
  {
    hide Chain;
    var s' := Cleared(s, p, s.used);
    forall i: nat | i < SLOTS
      ensures s.owner[i] != p
    {
      OwnedAt(s, p, i);
    }
    assert s'.owner == s.owner;
    assert s'.slot == s.slot;
    HeadOf(s, p);
    assert s'.head == s.head;
  }

  lemma ClearedOwned(s: Space, p: nat, used: seq<bool>)
    requires Inv(s) && p < |s.lists| && |used| == SLOTS
    requires forall i: nat :: i < SLOTS ==> (used[i] <==> s.used[i] && i !in s.lists[p])
    ensures Owned(Cleared(s, p, used))
  {
    hide Chain, Keyed;
    var s' := Cleared(s, p, used);
    forall q | 0 <= q < |s.lists|
      ensures Lists(s'.lists[q], s'.owner, q)
    {
      assert Lists(s.lists[q], s.owner, q);
    }
    forall i: nat | i < SLOTS
      ensures s'.used[i] <==> s'.owner[i] >= 0
    {
      OwnedAt(s, p, i);
    }
  }

  lemma EmptyChain(e: seq<Entry>)
    requires |e| == SLOTS
    ensures Chain(e, -1, [])
  {
  }
}
