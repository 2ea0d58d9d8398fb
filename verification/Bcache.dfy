/** bio.c over the disk of memide.c: the buffer ring in release order, the buffers, and who
    refers to or holds each of them. Every method is one critical section, so any
    interleaving of any number of processes is a sequence of these calls. */
module Bcache {
  import opened Common
  import opened Blocks
  import opened Ring

  const NBUF: nat := 30
  const HEAD: nat := 30   // bcache.head, as an index behind the buffers

  type Pid = nat
  datatype Buf = Buf(dev: nat, blockno: nat, refcnt: nat, valid: bool, dirty: bool, holder: Option<Pid>, data: Block)

  datatype Cache = Cache(
    links: Links,
    buf: seq<Buf>,
    disk: seq<Block>,
    ghost ring: seq<nat>,       // HEAD, then the buffers from most to least recently released
    ghost users: seq<set<Pid>>, // processes between bget() and brelse()
    ghost stamp: seq<nat>,      // time each buffer was last released
    ghost clock: nat)

  /** The list holds every buffer exactly once, in release order. */
  ghost predicate RingOk(s: Cache) {
    && |s.ring| == NBUF + 1 == |s.links.next| && s.ring[0] == HEAD
    && IsRing(s.links, s.ring)
    && (forall k :: 0 < k <= NBUF ==> s.ring[k] < NBUF)
    && |s.stamp| == NBUF && (forall i :: 0 <= i < NBUF ==> s.stamp[i] < s.clock)
    && (forall a, b :: 0 < a < b <= NBUF ==> s.stamp[s.ring[a]] > s.stamp[s.ring[b]])
  }

  /** No block of a real device has two buffers. */
  ghost predicate Unique(s: Cache) {
    && |s.buf| == NBUF
    && forall i, j :: 0 <= i < j < NBUF && s.buf[i].dev != 0 && s.buf[i].dev == s.buf[j].dev ==>
         s.buf[i].blockno != s.buf[j].blockno
  }

  /** References are counted, and only a referrer holds the lock. */
  ghost predicate Counted(s: Cache) {
    && |s.buf| == NBUF == |s.users|
    && (forall i :: 0 <= i < NBUF ==> s.buf[i].refcnt == |s.users[i]|)
    && (forall i :: 0 <= i < NBUF && s.buf[i].holder.Some? ==> s.buf[i].holder.value in s.users[i])
  }

  /** At rest, a dirty buffer is valid, and a clean valid one agrees with the disk. */
  ghost predicate Settled(b: Buf, disk: seq<Block>) {
    && (b.dirty ==> b.valid)
    && (b.valid && !b.dirty ==> b.dev == 1 && b.blockno < |disk| && b.data == disk[b.blockno])
  }

  /** Every buffer nobody holds is settled. */
  ghost predicate Coherent(s: Cache) {
    |s.buf| == NBUF && forall i :: 0 <= i < NBUF && s.buf[i].holder.None? ==> Settled(s.buf[i], s.disk)
  }

  ghost predicate Inv(s: Cache) {
    RingOk(s) && Unique(s) && Counted(s) && Coherent(s)
  }

  predicate Eligible(b: Buf) {
    b.refcnt == 0 && !b.dirty
  }

  /** The buffer still has the same block, with the same contents and flags. */
  predicate SameContents(b: Buf, b': Buf) {
    b'.dev == b.dev && b'.blockno == b.blockno && b'.valid == b.valid && b'.dirty == b.dirty && b'.data == b.data
  }

  predicate Holds(b: Buf, dev: nat, blockno: nat) {
    b.dev == dev && b.blockno == blockno
  }

  /** The contents a reader of block b must get: a pinned buffer's, else the disk's. */
  ghost predicate Reads(s: Cache, b: nat, data: Block) {
    && b < |s.disk| && |s.buf| == NBUF
    && (forall i :: 0 <= i < NBUF && Holds(s.buf[i], 1, b) && s.buf[i].dirty ==> data == s.buf[i].data)
    && ((forall i :: 0 <= i < NBUF && Holds(s.buf[i], 1, b) ==> !s.buf[i].dirty) ==> data == s.disk[b])
  }

  /** Going to position k of the ring and one step further, either way. */
  lemma Walk(s: Cache, k: nat)
    requires RingOk(s) && k <= NBUF
    ensures |s.links.next| == |s.links.prev| == NBUF + 1 && s.ring[k] <= NBUF && (s.ring[k] == HEAD <==> k == 0)
    ensures s.links.next[s.ring[k]] == s.ring[if k == NBUF then 0 else k + 1]
    ensures s.links.prev[s.ring[k]] == s.ring[if k == 0 then NBUF else k - 1]
  {
    RingAt(s.links, s.ring, k);
    RingPrev(s.links, s.ring, k);
  }

  /** Thirty distinct buffers are all the buffers. */
  lemma EveryBufferListed(s: Cache, i: nat) returns (k: nat)
    requires RingOk(s) && i < NBUF
    ensures 0 < k <= NBUF && s.ring[k] == i
  {
    var o := s.ring[1..];
    assert forall j :: 0 <= j < NBUF ==> o[j] == s.ring[j + 1];
    assert Distinct(o);
    Pigeonhole(o, NBUF, i);
    var j :| 0 <= j < NBUF && o[j] == i;
    k := j + 1;
  }

  // ----- what the critical sections do -----

  function WithBuf(s: Cache, i: nat, b: Buf): Cache
    requires i < |s.buf|
  {
    s.(buf := s.buf[i := b])
  }

  /** A hit: one more reference. */
  ghost function Referenced(s: Cache, i: nat, pid: Pid): Cache
    requires |s.buf| == NBUF == |s.users| && i < NBUF
  {
    WithBuf(s, i, s.buf[i].(refcnt := s.buf[i].refcnt + 1)).(users := s.users[i := s.users[i] + {pid}])
  }

  lemma ReferencedKeeps(s: Cache, i: nat, pid: Pid)
    requires Inv(s) && i < NBUF && pid !in s.users[i]
    ensures Inv(Referenced(s, i, pid))
  {
    hide IsRing;
  }

  /** A miss: buffer i is given to another block; its old contents mean nothing. */
  ghost function Recycled(s: Cache, i: nat, pid: Pid, dev: nat, blockno: nat): Cache
    requires |s.buf| == NBUF == |s.users| && i < NBUF
  {
    var b := s.buf[i];
    WithBuf(s, i, Buf(dev, blockno, 1, false, false, b.holder, b.data)).(users := s.users[i := {pid}])
  }

  lemma RecycledKeeps(s: Cache, i: nat, pid: Pid, dev: nat, blockno: nat)
    requires Inv(s) && i < NBUF && Eligible(s.buf[i])
    requires forall j :: 0 <= j < NBUF ==> !Holds(s.buf[j], dev, blockno)
    ensures Inv(Recycled(s, i, pid, dev, blockno)) && s.buf[i].holder.None?
  {
    hide IsRing;
    assert |s.users[i]| == 0;
  }

  /** Buffer i at ring position k moves to the front; c1 is the ring without it. */
  lemma MoveToFront(s: Cache, k: nat, c1: seq<nat>, c2: seq<nat>)
    requires RingOk(s) && 0 < k <= NBUF && Without(s.ring, c1, k) && With(c1, c2, 0, s.ring[k])
    ensures var i := s.ring[k];
            && |s.links.prev| == NBUF + 1 && s.links.next[i] <= NBUF && s.links.prev[i] <= NBUF
            && Unlinked(s.links, i).next[HEAD] <= NBUF
            && RingOk(s.(links := LinkedBehind(Unlinked(s.links, i), HEAD, i), ring := c2,
                         stamp := s.stamp[i := s.clock], clock := s.clock + 1))
  {
    hide IsRing, Unlinked, LinkedBehind;
    var i := s.ring[k];
    Walk(s, k);
    UnlinkKeepsRing(s.links, s.ring, c1, k);
    RingAt(Unlinked(s.links, i), c1, 0);
    UnlinkedSize(s.links, i);
    assert i !in c1 by { NotInWithout(s, c1, k); }
    LinkKeepsRing(Unlinked(s.links, i), c1, c2, 0, i);
    LinkedBehindSize(Unlinked(s.links, i), HEAD, i);
    MovedStamps(s, k, c1, c2);
  }

  lemma NotInWithout(s: Cache, c1: seq<nat>, k: nat)
    requires RingOk(s) && k <= NBUF && Without(s.ring, c1, k)
    ensures s.ring[k] !in c1
  {
    forall j | 0 <= j < |c1|
      ensures c1[j] != s.ring[k]
    {
      RingDistinct(s.links, s.ring, if j < k then j else j + 1, k);
    }
  }

  lemma MovedStamps(s: Cache, k: nat, c1: seq<nat>, c2: seq<nat>)
    requires RingOk(s) && 0 < k <= NBUF && Without(s.ring, c1, k) && With(c1, c2, 0, s.ring[k])
    ensures |c2| == NBUF + 1 && c2[0] == HEAD && (forall j :: 0 < j <= NBUF ==> c2[j] < NBUF)
    ensures var stamp := s.stamp[s.ring[k] := s.clock];
            forall a, b :: 0 < a < b <= NBUF ==> stamp[c2[a]] > stamp[c2[b]]
  {
    var stamp := s.stamp[s.ring[k] := s.clock];
    forall j | 1 < j <= NBUF
      ensures c2[j] == s.ring[if j <= k then j - 1 else j] && c2[j] != s.ring[k]
    {
      RingDistinct(s.links, s.ring, if j <= k then j - 1 else j, k);
    }
  }

  /** Buffer i of s replaced by one that keeps identity, references and lock. */
  ghost predicate SameUse(b: Buf, b': Buf) {
    b'.dev == b.dev && b'.blockno == b.blockno && b'.refcnt == b.refcnt
  }

  lemma HeldBufferChanges(s: Cache, i: nat, b: Buf, disk: seq<Block>)
    requires Inv(s) && i < NBUF && SameUse(s.buf[i], b)
    requires b.holder.Some? ==> b.holder.value in s.users[i]
    requires b.holder.None? ==> Settled(b, disk)
    requires |disk| == |s.disk|
    requires forall a :: 0 <= a < |disk| && disk[a] != s.disk[a] ==> s.buf[i].dev == 1 && s.buf[i].blockno == a
    ensures Inv(WithBuf(s, i, b).(disk := disk))
  {
    hide IsRing;
  }

  class BufferCache {
    var s: Cache

    /** binit(): each buffer in turn is put at the front of the list. */
    constructor (disk: seq<Block>)
      ensures Inv(s) && s.disk == disk
      ensures forall i :: 0 <= i < NBUF ==> s.buf[i].dev == 0 && s.buf[i].refcnt == 0
    {
      var links := Links(seq(NBUF + 1, _ => HEAD), seq(NBUF + 1, _ => HEAD));
      ghost var ring: seq<nat> := [HEAD];
      for b := 0 to NBUF
        invariant |links.next| == |links.prev| == NBUF + 1 && IsRing(links, ring)
        invariant |ring| == b + 1 && ring[0] == HEAD && forall j :: 1 <= j <= b ==> ring[j] == b - j
      {
        hide IsRing, LinkedBehind;
        RingAt(links, ring, 0);
        WithConcat(ring, 0, b);
        ghost var ring': seq<nat> := ring[..1] + [b] + ring[1..];
        LinkKeepsRing(links, ring, ring', 0, b);
        LinkedBehindSize(links, HEAD, b);
        links := LinkedBehind(links, HEAD, b);
        ring := ring';
      }
      var zero := Buf(0, 0, 0, false, false, None, ZeroBlock());
      s := Cache(links, seq(NBUF, _ => zero), disk, ring, seq(NBUF, _ => {}), seq(NBUF, i => i), NBUF);
    }

    /** bget()'s first loop, from the front. */
    method FindCached(dev: nat, blockno: nat) returns (r: Option<nat>)
      requires Inv(s)
      ensures r.Some? ==> r.value < NBUF && Holds(s.buf[r.value], dev, blockno)
      ensures r.None? ==> forall i :: 0 <= i < NBUF ==> !Holds(s.buf[i], dev, blockno)
    {
      hide IsRing;
      Walk(s, 0);
      var b := s.links.next[HEAD];
      ghost var k := 1;
      while b != HEAD
        invariant 1 <= k <= NBUF + 1 && b == s.ring[if k == NBUF + 1 then 0 else k]
        invariant forall j :: 1 <= j < k ==> !Holds(s.buf[s.ring[j]], dev, blockno)
        decreases NBUF + 1 - k
      {
        Walk(s, k);
        if Holds(s.buf[b], dev, blockno) {
          return Some(b);
        }
        b := s.links.next[b];
        k := k + 1;
      }
      Walk(s, if k == NBUF + 1 then 0 else k);
      forall i | 0 <= i < NBUF
        ensures !Holds(s.buf[i], dev, blockno)
      {
        var j := EveryBufferListed(s, i);
      }
      return None;
    }

    /** bget()'s second loop, from the back: the least recently released buffer that is
        neither referenced nor dirty. */
    method FindVictim() returns (r: Option<nat>)
      requires Inv(s)
      ensures r.Some? ==> r.value < NBUF && Eligible(s.buf[r.value])
      ensures r.Some? ==> forall i :: 0 <= i < NBUF && Eligible(s.buf[i]) ==> s.stamp[r.value] <= s.stamp[i]
      ensures r.None? ==> forall i :: 0 <= i < NBUF ==> !Eligible(s.buf[i])
    {
      hide IsRing;
      Walk(s, 0);
      var b := s.links.prev[HEAD];
      ghost var k := NBUF;
      while b != HEAD
        invariant 0 <= k <= NBUF && b == s.ring[k]
        invariant forall j :: k < j <= NBUF ==> !Eligible(s.buf[s.ring[j]])
        decreases k
      {
        Walk(s, k);
        if Eligible(s.buf[b]) {
          forall i | 0 <= i < NBUF && Eligible(s.buf[i])
            ensures s.stamp[b] <= s.stamp[i]
          {
            var j := EveryBufferListed(s, i);
          }
          return Some(b);
        }
        b := s.links.prev[b];
        k := k - 1;
      }
      Walk(s, k);
      forall i | 0 <= i < NBUF
        ensures !Eligible(s.buf[i])
      {
        var j := EveryBufferListed(s, i);
      }
      return None;
    }

    /** bget() under bcache.lock. None models panic("bget: no buffers"). The process must not
        already refer to the block's buffer: it would wait for itself. */
    method Bget(pid: Pid, dev: nat, blockno: nat) returns (r: Option<nat>)
      requires Inv(s)
      requires forall i :: 0 <= i < NBUF && Holds(s.buf[i], dev, blockno) ==> pid !in s.users[i]
      modifies this
      ensures Inv(s)
      ensures r.None? ==> s == old(s)
      ensures r.None? <==> (forall i :: 0 <= i < NBUF ==>
                !Holds(old(s).buf[i], dev, blockno) && !Eligible(old(s).buf[i]))
      ensures forall i :: 0 <= i < NBUF && (old(s).buf[i].refcnt > 0 || old(s).buf[i].dirty) ==>
                SameContents(old(s).buf[i], s.buf[i])
      ensures r.Some? ==> r.value < NBUF
      ensures r.Some? && Holds(old(s).buf[r.value], dev, blockno) ==> s == Referenced(old(s), r.value, pid)
      ensures r.Some? && !Holds(old(s).buf[r.value], dev, blockno) ==>
                && (forall i :: 0 <= i < NBUF ==> !Holds(old(s).buf[i], dev, blockno))
                && Eligible(old(s).buf[r.value]) && s == Recycled(old(s), r.value, pid, dev, blockno)
                && (forall i :: 0 <= i < NBUF && Eligible(old(s).buf[i]) ==> old(s).stamp[r.value] <= old(s).stamp[i])
    {
      hide RingOk, Unique, Coherent;
      r := FindCached(dev, blockno);
      if r.Some? {
        var i := r.value;
        ReferencedKeeps(s, i, pid);
        s := s.(buf := s.buf[i := s.buf[i].(refcnt := s.buf[i].refcnt + 1)], users := s.users[i := s.users[i] + {pid}]);
        return;
      }
      r := FindVictim();
      if r.Some? {
        var i := r.value;
        RecycledKeeps(s, i, pid, dev, blockno);
        s := s.(buf := s.buf[i := Buf(dev, blockno, 1, false, false, s.buf[i].holder, s.buf[i].data)],
                users := s.users[i := {pid}]);
      }
    }

    /** acquiresleep() returning: the buffer was free and now belongs to pid. */
    method Lock(pid: Pid, i: nat)
      requires Inv(s) && i < NBUF && pid in s.users[i] && s.buf[i].holder.None?
      modifies this
      ensures Inv(s) && s == WithBuf(old(s), i, old(s).buf[i].(holder := Some(pid)))
    {
      hide RingOk, Unique;
      HeldBufferChanges(s, i, s.buf[i].(holder := Some(pid)), s.disk);
      s := s.(buf := s.buf[i := s.buf[i].(holder := Some(pid))]);
    }

    /** memide.c's iderw(): writes a dirty buffer, or reads an invalid one. False models its
        panics. */
    method Iderw(pid: Pid, i: nat) returns (ok: bool)
      requires Inv(s) && i < NBUF
      modifies this
      ensures Inv(s)
      ensures var b := old(s).buf[i];
              && (ok <==> b.holder == Some(pid) && !(b.valid && !b.dirty) && b.dev == 1 && b.blockno < |old(s).disk|)
              && (!ok ==> s == old(s))
              && (ok && b.dirty ==> s == WithBuf(old(s), i, b.(dirty := false, valid := true))
                                         .(disk := old(s).disk[b.blockno := b.data]))
              && (ok && !b.dirty ==> s == WithBuf(old(s), i, b.(valid := true, data := old(s).disk[b.blockno])))
    {
      hide RingOk, Unique;
      var b := s.buf[i];
      if b.holder != Some(pid) || (b.valid && !b.dirty) || b.dev != 1 || b.blockno >= |s.disk| {
        return false;
      }
      if b.dirty {
        var disk := s.disk[b.blockno := b.data];
        HeldBufferChanges(s, i, b.(dirty := false, valid := true), disk);
        s := s.(buf := s.buf[i := b.(dirty := false, valid := true)], disk := disk);
      } else {
        HeldBufferChanges(s, i, b.(valid := true, data := s.disk[b.blockno]), s.disk);
        s := s.(buf := s.buf[i := b.(valid := true, data := s.disk[b.blockno])]);
      }
      return true;
    }

    /** bread() when nobody holds the block's buffer: whatever was cached or evicted, the
        reader gets the pinned contents if the block is pinned, else the disk's. */
    method Bread(pid: Pid, blockno: nat) returns (r: Option<nat>)
      requires Inv(s) && blockno < |s.disk|
      requires forall i :: 0 <= i < NBUF && Holds(s.buf[i], 1, blockno) ==>
                 pid !in s.users[i] && s.buf[i].holder.None?
      modifies this
      ensures Inv(s) && s.disk == old(s).disk
      ensures r.None? <==> forall i :: 0 <= i < NBUF ==> !Holds(old(s).buf[i], 1, blockno) && !Eligible(old(s).buf[i])
      ensures r.None? ==> s == old(s)
      ensures forall i :: 0 <= i < NBUF && old(s).buf[i].dirty ==> SameContents(old(s).buf[i], s.buf[i])
      ensures r.Some? ==> r.value < NBUF && Holds(s.buf[r.value], 1, blockno) && s.buf[r.value].valid
      ensures r.Some? ==> s.buf[r.value].holder == Some(pid) && pid in s.users[r.value]
      ensures r.Some? ==> Reads(old(s), blockno, s.buf[r.value].data)
      ensures r.Some? ==>
                (s.buf[r.value].dirty <==>
                 exists i :: 0 <= i < NBUF && Holds(old(s).buf[i], 1, blockno) && old(s).buf[i].dirty)
    {
      hide RingOk, Unique, Counted;
      ghost var s0 := s;
      r := Bget(pid, 1, blockno);
      if r.None? {
        return;
      }
      var i := r.value;
      BgetUnlocked(s0, s, i, pid, blockno);
      Lock(pid, i);
      if !s.buf[i].valid {
        var ok := Iderw(pid, i);
      }
      BreadCoherent(s0, i, blockno, s.buf[i].data);
    }

    /** bwrite(): mark dirty, then iderw(). */
    method Bwrite(pid: Pid, i: nat) returns (ok: bool)
      requires Inv(s) && i < NBUF
      modifies this
      ensures Inv(s)
      ensures var b := old(s).buf[i];
              && (ok <==> b.holder == Some(pid) && b.dev == 1 && b.blockno < |old(s).disk|)
              && (ok ==> s == WithBuf(old(s), i, b.(dirty := false, valid := true))
                              .(disk := old(s).disk[b.blockno := b.data]))
    {
      hide RingOk, Unique;
      if s.buf[i].holder != Some(pid) {
        return false;
      }
      HeldBufferChanges(s, i, s.buf[i].(dirty := true), s.disk);
      s := s.(buf := s.buf[i := s.buf[i].(dirty := true)]);
      ok := Iderw(pid, i);
    }

    /** The holder changes the contents, as memmove() into b->data does. */
    method Modify(pid: Pid, i: nat, data: Block)
      requires Inv(s) && i < NBUF && s.buf[i].holder == Some(pid)
      modifies this
      ensures Inv(s) && s == WithBuf(old(s), i, old(s).buf[i].(data := data))
    {
      hide RingOk, Unique;
      HeldBufferChanges(s, i, s.buf[i].(data := data), s.disk);
      s := s.(buf := s.buf[i := s.buf[i].(data := data)]);
    }

    /** log_write()'s effect on the buffer, which bread() has filled: pinned until the commit
        writes it. */
    method Pin(pid: Pid, i: nat)
      requires Inv(s) && i < NBUF && s.buf[i].holder == Some(pid) && s.buf[i].valid
      modifies this
      ensures Inv(s) && s == WithBuf(old(s), i, old(s).buf[i].(dirty := true))
    {
      hide RingOk, Unique;
      HeldBufferChanges(s, i, s.buf[i].(dirty := true), s.disk);
      s := s.(buf := s.buf[i := s.buf[i].(dirty := true)]);
    }

    /** brelse()'s releasesleep(). A holder that changed the contents must have written or
        pinned the buffer first. */
    method Unlock(pid: Pid, i: nat)
      requires Inv(s) && i < NBUF && s.buf[i].holder == Some(pid)
      requires Settled(s.buf[i], s.disk)
      modifies this
      ensures Inv(s) && s == WithBuf(old(s), i, old(s).buf[i].(holder := None))
    {
      hide RingOk, Unique;
      HeldBufferChanges(s, i, s.buf[i].(holder := None), s.disk);
      s := s.(buf := s.buf[i := s.buf[i].(holder := None)]);
    }

    /** The rest of brelse(): drop the reference; on the last one the buffer becomes the most
        recently released. */
    method Deref(pid: Pid, i: nat)
      requires Inv(s) && i < NBUF && pid in s.users[i] && s.buf[i].holder != Some(pid)
      modifies this
      ensures Inv(s) && s.disk == old(s).disk
      ensures s.buf == old(s).buf[i := old(s).buf[i].(refcnt := old(s).buf[i].refcnt - 1)]
      ensures s.users == old(s).users[i := old(s).users[i] - {pid}]
      ensures old(s).buf[i].refcnt > 1 ==> s.stamp == old(s).stamp && s.ring == old(s).ring
      ensures old(s).buf[i].refcnt == 1 ==> s.ring[1] == i && s.stamp == old(s).stamp[i := old(s).clock]
    {
      hide IsRing, Unlinked, LinkedBehind;
      DerefKeeps(s, i, pid);
      s := s.(buf := s.buf[i := s.buf[i].(refcnt := s.buf[i].refcnt - 1)], users := s.users[i := s.users[i] - {pid}]);
      if s.buf[i].refcnt == 0 {
        ghost var k := EveryBufferListed(s, i);
        ghost var c1 := s.ring[..k] + s.ring[k + 1..];
        ghost var c2 := c1[..1] + [i] + c1[1..];
        WithoutConcat(s.ring, k);
        WithConcat(c1, 0, i);
        MoveToFront(s, k, c1, c2);
        UnlinkedSize(s.links, i);
        s := s.(links := LinkedBehind(Unlinked(s.links, i), HEAD, i), ring := c2,
                stamp := s.stamp[i := s.clock], clock := s.clock + 1);
      }
    }
  }

  lemma DerefKeeps(s: Cache, i: nat, pid: Pid)
    requires Inv(s) && i < NBUF && pid in s.users[i] && s.buf[i].holder != Some(pid)
    ensures s.buf[i].refcnt > 0
    ensures Inv(s.(buf := s.buf[i := s.buf[i].(refcnt := s.buf[i].refcnt - 1)],
              users := s.users[i := s.users[i] - {pid}]))
  {
    hide IsRing;
    assert |s.users[i] - {pid}| == |s.users[i]| - 1;
  }

  lemma BgetUnlocked(s0: Cache, s: Cache, i: nat, pid: Pid, blockno: nat)
    requires Inv(s0) && i < NBUF
    requires forall j :: 0 <= j < NBUF && Holds(s0.buf[j], 1, blockno) ==> s0.buf[j].holder.None?
    requires if Holds(s0.buf[i], 1, blockno) then s == Referenced(s0, i, pid)
             else Eligible(s0.buf[i]) && s == Recycled(s0, i, pid, 1, blockno)
    ensures |s.buf| == |s.users| == NBUF && s.buf[i].holder.None? && pid in s.users[i] && s.disk == s0.disk
    ensures Holds(s.buf[i], 1, blockno) && s.buf[i].data == s0.buf[i].data
    ensures s.buf[i].valid <==> Holds(s0.buf[i], 1, blockno) && s0.buf[i].valid
    ensures s.buf[i].dirty <==> Holds(s0.buf[i], 1, blockno) && s0.buf[i].dirty
  {
    hide IsRing;
    assert Eligible(s0.buf[i]) ==> |s0.users[i]| == 0;
  }

  /** Whichever way the buffer was found, it holds what a reader must get. */
  lemma BreadCoherent(s0: Cache, i: nat, blockno: nat, data: Block)
    requires Inv(s0) && i < NBUF && blockno < |s0.disk|
    requires Holds(s0.buf[i], 1, blockno) || forall j :: 0 <= j < NBUF ==> !Holds(s0.buf[j], 1, blockno)
    requires Holds(s0.buf[i], 1, blockno) ==> s0.buf[i].holder.None?
    requires data == if Holds(s0.buf[i], 1, blockno) && s0.buf[i].valid then s0.buf[i].data else s0.disk[blockno]
    ensures Reads(s0, blockno, data)
    ensures (Holds(s0.buf[i], 1, blockno) && s0.buf[i].dirty) <==>
            exists j :: 0 <= j < NBUF && Holds(s0.buf[j], 1, blockno) && s0.buf[j].dirty
  {
    hide RingOk, Counted;
    forall j | 0 <= j < NBUF && Holds(s0.buf[j], 1, blockno)
      ensures j == i
    {
    }
  }
}
