/** The eviction ring of lru_swap.c: a bitmap of 1000 frame records, the used ones linked in a
    circle from the oldest (lru.head) to the newest. */
module EvictRing {
  import opened Common
  import opened Ring

  const MAX: nat := 1000  // MAX_FRAME_LRU
  const NIL: nat := MAX   // the null frame pointer

  datatype Lru = Lru(
    links: Links,
    pid: seq<int>,
    vaddr: seq<int>,
    used: seq<bool>,
    head: nat,
    ghost ring: seq<nat>)  // the frames from oldest to newest

  ghost predicate Sizes(s: Lru) {
    |s.links.next| == |s.links.prev| == |s.pid| == |s.vaddr| == |s.used| == MAX
  }

  ghost predicate Circle(s: Lru) {
    && Sizes(s)
    && if s.ring == [] then s.head == NIL else s.head == s.ring[0] && IsRing(s.links, s.ring)
  }

  /** The members of the one ring are exactly the frames whose bit is set. */
  ghost predicate Inv(s: Lru) {
    Circle(s) && forall i: nat :: i < MAX ==> (s.used[i] <==> i in s.ring)
  }

  predicate Matches(s: Lru, i: nat, pid: int, vaddr: int)
    requires |s.pid| == |s.vaddr| == MAX
  {
    i < MAX && s.pid[i] == pid && s.vaddr[i] == vaddr
  }

  /** The ring without element k. */
  ghost function Dropped(c: seq<nat>, k: nat): seq<nat>
    requires k < |c|
  {
    c[..k] + c[k + 1..]
  }

  /** The members of c whose frame belongs to another process. */
  ghost function Others(pids: seq<int>, c: seq<nat>, pid: int): (r: seq<nat>)
    ensures |r| <= |c|
    ensures forall i :: i in r <==> i in c && i < |pids| && pids[i] != pid
  {
    if c == [] then []
    else
      var last := c[|c| - 1];
      Others(pids, c[..|c| - 1], pid) + if last < |pids| && pids[last] != pid then [last] else []
  }

  /** What lru_free() leaves: the other processes' frames, but never nothing. */
  ghost function Survivors(pids: seq<int>, c: seq<nat>, pid: int): (r: seq<nat>)
    requires c != []
    ensures 0 < |r| <= |c| && forall i :: i in r ==> i in c
  {
    var o := Others(pids, c, pid);
    if o == [] then [c[|c| - 1]] else o
  }

  /** lru_free() frees all frames of pid exactly when some other process has one. */
  lemma FreesAllIffOthers(pids: seq<int>, c: seq<nat>, pid: int)
    requires c != [] && forall i :: i in c ==> i < |pids|
    ensures (forall i :: i in Survivors(pids, c, pid) ==> pids[i] != pid) <==> (exists i :: i in c && pids[i] != pid)
  {
    var o, last := Others(pids, c, pid), c[|c| - 1];
    assert last in c;
    assert o != [] ==> o[0] in o;
    if exists i :: i in c && pids[i] != pid {
      var i :| i in c && pids[i] != pid;
      assert i in o;
    } else {
      assert last in Survivors(pids, c, pid);
    }
  }

  lemma Step(s: Lru, k: nat)
    requires Circle(s) && k < |s.ring|
    ensures s.ring[k] < MAX && s.head == s.ring[0]
    ensures s.links.next[s.ring[k]] == s.ring[Succ(|s.ring|, k)] && s.ring[Succ(|s.ring|, k)] < MAX
    ensures s.links.prev[s.ring[k]] == s.ring[if k == 0 then |s.ring| - 1 else k - 1] < MAX
    ensures s.ring[k] == s.head <==> k == 0
    ensures s.ring[Succ(|s.ring|, k)] == s.head <==> k == |s.ring| - 1
  {
    RingAt(s.links, s.ring, k);
    RingPrev(s.links, s.ring, k);
    RingDistinct(s.links, s.ring, k, 0);
    RingDistinct(s.links, s.ring, Succ(|s.ring|, k), 0);
  }

  lemma DroppedMembers(l: Links, c: seq<nat>, k: nat, i: nat)
    requires IsRing(l, c) && k < |c|
    ensures i in Dropped(c, k) <==> i in c && i != c[k]
  {
    var c' := Dropped(c, k);
    WithoutConcat(c, k);
    if i in c' {
      var j :| 0 <= j < |c'| && c'[j] == i;
      RingDistinct(l, c, if j < k then j else j + 1, k);
    }
    if i in c && i != c[k] {
      var j :| 0 <= j < |c| && c[j] == i;
      assert c'[if j < k then j else j - 1] == i;
    }
  }

  /** Taking the k-th of several frames out of the circle. */
  lemma UnlinkKeeps(s: Lru, k: nat)
    requires Circle(s) && k < |s.ring| && |s.ring| > 1
    ensures s.ring[k] < MAX && s.links.next[s.ring[k]] < MAX && s.links.prev[s.ring[k]] < MAX
    ensures var c' := Dropped(s.ring, k);
            && c' != [] && c'[0] == (if k == 0 then s.ring[1] else s.head)
            && Circle(s.(links := Unlinked(s.links, s.ring[k]), head := c'[0], ring := c'))
            && forall i: nat :: i in c' <==> i in s.ring && i != s.ring[k]
  {
    hide IsRing;
    Step(s, k);
    WithoutConcat(s.ring, k);
    UnlinkKeepsRing(s.links, s.ring, Dropped(s.ring, k), k);
    forall i: nat
      ensures i in Dropped(s.ring, k) <==> i in s.ring && i != s.ring[k]
    {
      DroppedMembers(s.links, s.ring, k, i);
    }
  }

  /** Unlinking the only frame changes no link. */
  lemma UnlinkLast(s: Lru)
    requires Circle(s) && |s.ring| == 1
    ensures var x := s.head;
            x < MAX && s.links.next[x] == s.links.prev[x] == x && Unlinked(s.links, x) == s.links
  {
    Step(s, 0);
  }

  /** Links of a frame outside the ring do not matter. */
  lemma OutsideLinks(l: Links, c: seq<nat>, x: nat)
    requires IsRing(l, c) && x < |l.next| && x !in c
    ensures IsRing(Links(l.next[x := NIL], l.prev[x := NIL]), c)
  {
    var l' := Links(l.next[x := NIL], l.prev[x := NIL]);
    forall i | 0 <= i < |c|
      ensures l'.next[c[i]] == c[Succ(|c|, i)] && c[Succ(|c|, i)] < |l'.prev| && l'.prev[l'.next[c[i]]] == c[i]
    {
      RingAt(l, c, i);
      assert c[i] in c && c[Succ(|c|, i)] in c;
    }
  }

  /** Linking frame x before the head makes it the newest. */
  lemma LinkKeeps(s: Lru, x: nat)
    requires Circle(s) && s.ring != [] && x < MAX && x !in s.ring
    ensures s.head < MAX && s.links.prev[s.head] < MAX && s.links.next[s.links.prev[s.head]] == s.head
    ensures Circle(s.(links := LinkedBehind(s.links, s.links.prev[s.head], x), ring := s.ring + [x]))
  {
    hide IsRing;
    var n := |s.ring|;
    Step(s, 0);
    Step(s, n - 1);
    WithConcat(s.ring, n - 1, x);
    assert s.ring[..n] + [x] + s.ring[n..] == s.ring + [x];
    LinkKeepsRing(s.links, s.ring, s.ring + [x], n - 1, x);
    LinkedBehindSize(s.links, s.ring[n - 1], x);
  }

  /** The first frame of an empty list points to itself. */
  lemma FirstFrame(s: Lru, x: nat)
    requires Sizes(s) && x < MAX
    ensures Circle(s.(links := Links(s.links.next[x := x], s.links.prev[x := x]), head := x, ring := [x]))
  {
  }

  /** Every frame is used exactly when the ring has MAX members. */
  lemma FullIff(s: Lru)
    requires Inv(s)
    ensures |s.ring| <= MAX
    ensures |s.ring| == MAX <==> forall i :: 0 <= i < MAX ==> s.used[i]
  {
    if s.ring == [] {
      assert !s.used[0];
    } else {
      DistinctSize(s.ring);
      assert Elems(s.ring) <= Below(MAX);
      SubsetSmaller(Elems(s.ring), Below(MAX));
      if forall i :: 0 <= i < MAX ==> s.used[i] {
        assert Elems(s.ring) == Below(MAX);
      }
      if |s.ring| == MAX {
        forall i | 0 <= i < MAX
          ensures s.used[i]
        {
          Pigeonhole(s.ring, MAX, i);
        }
      }
    }
  }

  // ----- lru_free()'s walk -----

  /** Frames before position k are dealt with, those from k on are as they were. */
  ghost predicate Walked(s: Lru, s0: Lru, pid: int, k: nat) {
    && s.pid == s0.pid && s.vaddr == s0.vaddr && k <= |s0.ring|
    && s.ring == Others(s0.pid, s0.ring[..k], pid) + s0.ring[k..]
  }

  lemma WalkedAt(s: Lru, s0: Lru, pid: int, k: nat)
    requires Walked(s, s0, pid, k) && k < |s0.ring|
    ensures var d := |Others(s0.pid, s0.ring[..k], pid)|;
            && d < |s.ring| && s.ring[d] == s0.ring[k]
            && (d == |s.ring| - 1 <==> k == |s0.ring| - 1)
            && (k + 1 < |s0.ring| ==> s.ring[d + 1] == s0.ring[k + 1])
  {
    hide Others;
  }

  lemma WalkedStep(s: Lru, s0: Lru, pid: int, k: nat)
    requires Walked(s, s0, pid, k) && k < |s0.ring| && s0.ring[k] < |s0.pid|
    ensures var d := |Others(s0.pid, s0.ring[..k], pid)|;
            && d < |s.ring|
            && (s0.pid[s0.ring[k]] != pid ==> Walked(s, s0, pid, k + 1))
            && (s0.pid[s0.ring[k]] == pid ==> Walked(s.(ring := Dropped(s.ring, d)), s0, pid, k + 1))
            && |Others(s0.pid, s0.ring[..k + 1], pid)| == (if s0.pid[s0.ring[k]] == pid then d else d + 1)
  {
    hide Others, Dropped;
    OthersStep(s0.pid, s0.ring, pid, k);
    Middle(Others(s0.pid, s0.ring[..k], pid), s0.ring, k);
  }

  lemma OthersStep(pids: seq<int>, c: seq<nat>, pid: int, k: nat)
    requires k < |c| && c[k] < |pids|
    ensures Others(pids, c[..k + 1], pid) ==
            if pids[c[k]] == pid then Others(pids, c[..k], pid) else Others(pids, c[..k], pid) + [c[k]]
  {
    assert c[..k + 1][..k] == c[..k];
  }

  lemma Middle(o: seq<nat>, c: seq<nat>, k: nat)
    requires k < |c|
    ensures Dropped(o + c[k..], |o|) == o + c[k + 1..]
    ensures o + c[k..] == (o + [c[k]]) + c[k + 1..]
  {
  }

  /** At the end of the ring, or once a single frame is left, nothing remains to do. */
  lemma WalkedDone(s: Lru, s0: Lru, pid: int, k: nat)
    requires Walked(s, s0, pid, k) && s.ring != [] && s0.ring != []
    requires k == |s0.ring| || |s.ring| == 1
    ensures s.ring == Survivors(s0.pid, s0.ring, pid)
  {
    var n := |s0.ring|;
    assert s0.ring[..n] == s0.ring;
    if k < n {
      assert s0.ring[k..] == [s0.ring[k]];
      assert s0.ring == s0.ring[..k] + [s0.ring[k]];
      assert s0.ring[..n - 1] == s0.ring[..k];
    }
  }

  class FrameList {
    var s: Lru

    /** lru_swap_init() */
    constructor ()
      ensures Inv(s) && s.ring == []
    {
      var links := Links(seq(MAX, _ => NIL), seq(MAX, _ => NIL));
      s := Lru(links, seq(MAX, _ => 0), seq(MAX, _ => 0), seq(MAX, _ => false), NIL, []);
    }

    /** get_free_frame_lru(): the lowest free frame, or -1. */
    method GetFreeFrame() returns (r: int)
      requires Sizes(s)
      ensures -1 <= r < MAX
      ensures r >= 0 ==> !s.used[r] && forall j :: 0 <= j < r ==> s.used[j]
      ensures r < 0 ==> forall j :: 0 <= j < MAX ==> s.used[j]
    {
      for i := 0 to MAX
        invariant forall j :: 0 <= j < i ==> s.used[j]
      {
        if !s.used[i] {
          return i;
        }
      }
      return -1;
    }

    /** lru_insert(): fails when all frames are used, else the page becomes the newest. */
    method Insert(pid: int, vaddr: int) returns (ok: bool, ghost x: nat)
      requires Inv(s)
      modifies this
      ensures Inv(s)
      ensures ok <==> |old(s).ring| < MAX
      ensures !ok ==> s == old(s)
      ensures ok ==> x < MAX && !old(s).used[x] && (forall j :: 0 <= j < x ==> old(s).used[j])
      ensures ok ==> s.ring == old(s).ring + [x]
      ensures ok ==> s.pid == old(s).pid[x := pid] && s.vaddr == old(s).vaddr[x := vaddr]
    {
      hide IsRing, LinkedBehind;
      FullIff(s);
      var index := GetFreeFrame();
      if index == -1 {
        return false, 0;
      }
      x := index;
      var s1 := s.(pid := s.pid[index := pid], vaddr := s.vaddr[index := vaddr], used := s.used[index := true]);
      if s.head == NIL {
        assert s.ring == [] by { HeadListed(s); }
        FirstFrame(s1, index);
        s := s1.(links := Links(s.links.next[index := index], s.links.prev[index := index]), head := index,
            ring := [index]);
      } else {
        assert s.ring != [];
        LinkKeeps(s1, index);
        var last := s.links.prev[s.head];
        LinkedBehindSize(s.links, last, index);
        s := s1.(links := LinkedBehind(s.links, last, index), ring := s.ring + [index]);
      }
      return true, x;
    }

    /** lru_delete(): takes the oldest frame out of the circle; its bit stays set until
        lru_release_frame(). The only frame stays the head, with its links cleared. */
    method Delete() returns (index: int)
      requires Inv(s)
      modifies this
      ensures index == -1 <==> old(s).ring == []
      ensures index == -1 ==> s == old(s)
      ensures index != -1 ==> index == old(s).ring[0] && index < MAX
      ensures |old(s).ring| == 1 ==>
                s == old(s).(links := Links(old(s).links.next[index := NIL], old(s).links.prev[index := NIL]))
      ensures |old(s).ring| > 1 ==>
                && Circle(s) && s.ring == old(s).ring[1..] && index !in s.ring
                && s.pid == old(s).pid && s.vaddr == old(s).vaddr && s.used == old(s).used
    {
      hide IsRing, Unlinked;
      if s.head == NIL {
        assert s.ring == [] by { HeadListed(s); }
        return -1;
      }
      Step(s, 0);
      index := s.head;
      if s.links.next[index] == s.head {
        assert |s.ring| == 1;
        s := s.(links := Links(s.links.next[index := NIL], s.links.prev[index := NIL]));
      } else {
        UnlinkKeeps(s, 0);
        assert Dropped(s.ring, 0) == s.ring[1..];
        OutsideLinks(Unlinked(s.links, index), s.ring[1..], index);
        var l := Unlinked(s.links, index);
        s := s.(links := Links(l.next[index := NIL], l.prev[index := NIL]), head := s.links.next[index],
            ring := s.ring[1..]);
      }
    }

    /** lru_release_frame() */
    method ReleaseFrame(index: nat)
      requires Circle(s) && index < MAX
      requires forall i: nat :: i < MAX ==> (s.used[i] <==> i in s.ring || i == index)
      modifies this
      ensures s == old(s).(used := old(s).used[index := false])
      ensures index !in s.ring ==> Inv(s)
    {
      hide IsRing;
      s := s.(used := s.used[index := false]);
    }

    /** lru_free_frame(): the oldest record of the page is removed. k is its position. */
    method FreeFrame(pid: int, vaddr: int) returns (ghost k: nat)
      requires Inv(s)
      modifies this
      ensures k <= |old(s).ring| && forall j :: 0 <= j < k ==> !Matches(old(s), old(s).ring[j], pid, vaddr)
      ensures k == |old(s).ring| ==> s == old(s)
      ensures k < |old(s).ring| ==> Matches(old(s), old(s).ring[k], pid, vaddr)
      ensures k < |old(s).ring| && |old(s).ring| == 1 ==> s == old(s).(used := old(s).used[old(s).head := false])
      ensures k < |old(s).ring| && |old(s).ring| > 1 ==>
                && Inv(s) && s.ring == Dropped(old(s).ring, k) && s.pid == old(s).pid && s.vaddr == old(s).vaddr
                && s.used == old(s).used[old(s).ring[k] := false]
    {
      hide IsRing, Unlinked;
      k := 0;
      if s.head == NIL {
        HeadListed(s);
        return;
      }
      Step(s, 0);
      var curr, prev := s.head, NIL;
      while s.pid[curr] != pid || s.vaddr[curr] != vaddr
        invariant s == old(s) && k < |s.ring| && curr == s.ring[k] && curr < MAX
        invariant prev == NIL <==> k == 0
        invariant forall j :: 0 <= j < k ==> !Matches(s, s.ring[j], pid, vaddr)
        decreases |s.ring| - k
      {
        Step(s, k);
        prev := curr;
        if s.links.next[curr] == s.head {
          break;
        }
        curr := s.links.next[curr];
        k := k + 1;
      }
      if s.pid[curr] == pid && s.vaddr[curr] == vaddr {
        Step(s, k);
        var head := if curr == s.head then s.links.next[s.head] else s.head;
        if curr == head && prev != NIL {
          assert false;  // the walk stops before it comes back to the head
        }
        RemoveAt(k, curr, head);
      } else {
        k := k + 1;
      }
    }

    /** Unlinks a frame and clears its bit. */
    method RemoveAt(ghost k: nat, curr: nat, head: nat)
      requires Inv(s) && k < |s.ring| && curr == s.ring[k]
      requires head == if k == 0 then s.ring[Succ(|s.ring|, 0)] else s.head
      modifies this
      ensures s.pid == old(s).pid && s.vaddr == old(s).vaddr
      ensures |old(s).ring| == 1 ==> s == old(s).(used := old(s).used[old(s).head := false])
      ensures |old(s).ring| > 1 ==>
                Inv(s) && s.ring == Dropped(old(s).ring, k) && s.used == old(s).used[curr := false]
    {
      hide IsRing, Unlinked;
      Step(s, k);
      if |s.ring| == 1 {
        UnlinkLast(s);
      } else {
        UnlinkKeeps(s, k);
      }
      ghost var ring' := if |s.ring| == 1 then s.ring else Dropped(s.ring, k);
      s := s.(links := Unlinked(s.links, curr), head := head, used := s.used[curr := false], ring := ring');
    }

    /** lru_free(): removes every frame of pid in one lap, except that it never removes the
        last frame of the ring; an only frame loses its bit and stays the head. */
    method Free(pid: int)
      requires Inv(s)
      modifies this
      ensures s.pid == old(s).pid && s.vaddr == old(s).vaddr
      ensures old(s).ring == [] ==> s == old(s)
      ensures |old(s).ring| == 1 && old(s).pid[old(s).head] == pid ==>
                s == old(s).(used := old(s).used[old(s).head := false])
      ensures |old(s).ring| > 1 || (|old(s).ring| == 1 && old(s).pid[old(s).head] != pid) ==>
                Inv(s) && s.ring == Survivors(old(s).pid, old(s).ring, pid)
    {
      hide IsRing, Unlinked, Others, Survivors;
      if s.head == NIL {
        HeadListed(s);
        return;
      }
      Step(s, 0);
      ghost var k := 0;
      ghost var s0 := s;
      ghost var only := |s.ring| == 1 && s.pid[s.head] == pid;
      var curr, more := s.head, true;
      assert Walked(s, s0, pid, 0) by { WalkedStart(s, pid); }
      while more
        invariant more || !only ==> Inv(s) && Walked(s, s0, pid, k) && s.ring != []
        invariant more ==> k < |s0.ring| && curr == s0.ring[k]
        invariant more && (|s.ring| == 1 || only) ==> s == s0 && k == 0
        invariant !more && only ==> s == s0.(used := s0.used[s0.head := false])
        invariant !more && !only ==> s.ring == Survivors(s0.pid, s0.ring, pid) && s.pid == s0.pid && s.vaddr == s0.vaddr
        decreases |s0.ring| - k, more
      {
        curr, more := FreeStep(pid, curr, s0, k);
        k := k + 1;
      }
    }

    /** One pass of the loop body in lru_free(). */
    method FreeStep(pid: int, curr: nat, ghost s0: Lru, ghost k: nat) returns (next: nat, more: bool)
      requires Inv(s) && Inv(s0) && Walked(s, s0, pid, k) && k < |s0.ring| && curr == s0.ring[k]
      modifies this
      ensures s.pid == old(s).pid && s.vaddr == old(s).vaddr
      ensures |old(s).ring| == 1 && old(s).pid[curr] == pid ==>
                !more && s == old(s).(used := old(s).used[curr := false])
      ensures |old(s).ring| > 1 || old(s).pid[curr] != pid ==>
                && Inv(s) && Walked(s, s0, pid, k + 1) && s.ring != []
                && (more ==> k + 1 < |s0.ring| && next == s0.ring[k + 1] && |s.ring| > 1)
                && (!more ==> s.ring == Survivors(s0.pid, s0.ring, pid))
    {
      hide IsRing, Unlinked, Others, Survivors, Walked, Dropped, Inv;
      Listed(s0, k);
      WalkedAt(s, s0, pid, k);
      WalkedStep(s, s0, pid, k);
      WalkedSame(s, s0, pid, k);
      ghost var d := |Others(s0.pid, s0.ring[..k], pid)|;
      Listed(s, d);
      var flag := false;
      next := s.links.next[curr];
      if s.pid[curr] == pid {
        flag := curr == s.head;
        RemoveAt(d, curr, if flag then s.links.next[s.head] else s.head);
        if |old(s).ring| > 1 {
          Afterwards(s, old(s), d, next);
          WalkedAlike(old(s).(ring := s.ring), s, s0, pid, k + 1);
        }
      }
      ghost var d' := if s.pid[curr] == pid then d else d + 1;
      if |old(s).ring| > 1 || s.pid[curr] != pid {
        Listed(s, if d' < |s.ring| then d' else 0);
      }
      if next == s.links.next[next] && next == s.links.prev[next] {
        more := false;
      } else {
        more := flag || next != s.head;
      }
      if !more && (|old(s).ring| > 1 || s.pid[curr] != pid) {
        WalkedDone(s, s0, pid, k + 1);
      }
    }

    /** get_lru(): room is made, if there is none, by evicting the oldest page once. alive,
        readable and stored are what get_proc(), read_vaddr() and swap_out() answer for it. */
    method GetLru(pid: int, vaddr: int, alive: bool, readable: bool, stored: bool)
      returns (ok: bool, evicted: nat, ghost x: nat)
      requires Inv(s)
      modifies this
      ensures evicted <= 1 && (evicted == 1 <==> |old(s).ring| == MAX)
      ensures ok <==> !(evicted == 1 && alive && readable && !stored)
      ensures ok ==> Inv(s) && x < MAX && s.pid == old(s).pid[x := pid] && s.vaddr == old(s).vaddr[x := vaddr]
      ensures ok && evicted == 0 ==> s.ring == old(s).ring + [x]
      ensures ok && evicted == 1 && alive ==> s.ring == old(s).ring[1..] + [x] && x == old(s).ring[0]
      ensures ok && evicted == 1 && !alive ==>
                s.ring == Survivors(old(s).pid, old(s).ring[1..], old(s).pid[old(s).ring[0]]) + [x]
    {
      hide IsRing, Survivors, Others;
      FullIff(s);
      evicted := 0;
      ok, x := Insert(pid, vaddr);
      while !ok
        invariant evicted <= 1
        invariant (evicted == 1 ==> |old(s).ring| == MAX && old(s).ring[0] < MAX && !(alive && readable && !stored))
        invariant !ok ==> s == old(s) && evicted == 0 && |s.ring| == MAX
        invariant ok && evicted == 0 ==> |old(s).ring| < MAX && s.ring == old(s).ring + [x]
        invariant ok && evicted == 1 && alive ==> s.ring == old(s).ring[1..] + [x] && x == old(s).ring[0]
        invariant ok && evicted == 1 && !alive ==>
                    s.ring == Survivors(old(s).pid, old(s).ring[1..], old(s).pid[old(s).ring[0]]) + [x]
        invariant ok ==> Inv(s) && x < MAX && s.pid == old(s).pid[x := pid] && s.vaddr == old(s).vaddr[x := vaddr]
        decreases !ok
      {
        Evict(alive);
        evicted := 1;
        if alive && readable && !stored {
          return false, 1, 0;  // panic: swap space is full
        }
        ghost var s1 := s;
        ok, x := Insert(pid, vaddr);
        if alive {
          OnlyFree(old(s), s1, x);
        }
      }
    }

    /** The part of get_lru()'s loop that touches the ring. */
    method Evict(alive: bool)
      requires Inv(s) && |s.ring| == MAX
      modifies this
      ensures Inv(s) && |s.ring| < MAX && s.pid == old(s).pid && s.vaddr == old(s).vaddr
      ensures old(s).ring[0] < MAX
      ensures alive ==> s.ring == old(s).ring[1..] && s.used == old(s).used[old(s).ring[0] := false]
      ensures !alive ==> s.ring == Survivors(old(s).pid, old(s).ring[1..], old(s).pid[old(s).ring[0]])
    {
      hide IsRing, Others;
      var index := Delete();
      var pidLru := s.pid[index];
      DeletedMembers(s, old(s), index);
      ReleaseFrame(index);
      if !alive {
        Free(pidLru);
      }
    }
  }

  lemma HeadListed(s: Lru)
    requires Circle(s) && s.head == NIL
    ensures s.ring == []
  {
  }

  lemma WalkedStart(s: Lru, pid: int)
    ensures Walked(s, s, pid, 0)
  {
    assert s.ring[..0] == [] && s.ring[0..] == s.ring;
  }

  lemma WalkedAlike(s: Lru, s': Lru, s0: Lru, pid: int, k: nat)
    requires Walked(s, s0, pid, k) && s'.pid == s.pid && s'.vaddr == s.vaddr && s'.ring == s.ring
    ensures Walked(s', s0, pid, k)
  {
  }

  lemma WalkedSame(s: Lru, s0: Lru, pid: int, k: nat)
    requires Walked(s, s0, pid, k)
    ensures s.pid == s0.pid && s.vaddr == s0.vaddr
  {
  }

  lemma Listed(s: Lru, k: nat)
    requires Inv(s) && k < |s.ring|
    ensures Circle(s) && s.ring[k] < MAX && s.head == s.ring[0]
    ensures |s.pid| == |s.used| == |s.links.next| == |s.links.prev| == MAX
    ensures s.links.next[s.ring[k]] == s.ring[Succ(|s.ring|, k)] && s.ring[Succ(|s.ring|, k)] < MAX
    ensures s.links.prev[s.ring[k]] == s.ring[if k == 0 then |s.ring| - 1 else k - 1] < MAX
    ensures s.ring[k] == s.head <==> k == 0
    ensures s.ring[Succ(|s.ring|, k)] == s.head <==> k == |s.ring| - 1
    ensures s.links.next[s.ring[k]] == s.ring[k] <==> |s.ring| == 1
  {
    Step(s, k);
    RingDistinct(s.links, s.ring, k, Succ(|s.ring|, k));
  }

  /** Where the walk goes on after the frame at position d was removed. */
  lemma Afterwards(s: Lru, s0: Lru, d: nat, next: nat)
    requires Inv(s0) && d < |s0.ring| && |s0.ring| > 1 && s.ring == Dropped(s0.ring, d)
    requires next == s0.ring[Succ(|s0.ring|, d)]
    ensures |s.ring| == |s0.ring| - 1 && next == s.ring[if d < |s.ring| then d else 0]
  {
  }

  lemma DeletedMembers(s: Lru, s0: Lru, x: nat)
    requires Inv(s0) && |s0.ring| > 1 && s.ring == s0.ring[1..] && x == s0.ring[0]
    ensures forall i: nat :: i < MAX ==> (s0.used[i] <==> i in s.ring || i == x)
  {
    assert s0.ring == [x] + s.ring;
  }

  /** In a full bitmap with one bit cleared, that frame is the one found. */
  lemma OnlyFree(s0: Lru, s1: Lru, x: nat)
    requires Inv(s0) && |s0.ring| == MAX && s0.ring[0] < MAX && s1.used == s0.used[s0.ring[0] := false]
    requires x < MAX && !s1.used[x]
    ensures x == s0.ring[0]
  {
    FullIff(s0);
  }
}
