/** pipe.c: the ring buffer with its 32-bit wrapping counters, and the readers and writers that
    sleep on it, over all interleavings of their critical sections. */
module Pipe {
  import opened Common
  import opened Blocks

  const PIPESIZE: nat := 512

  /** written and consumed are all bytes that ever went in and out, in order. */
  datatype Fifo = Fifo(written: seq<byte>, consumed: seq<byte>)

  /** What comes out is what went in, in order, and at most PIPESIZE bytes are in between. */
  ghost predicate FifoOk(f: Fifo) {
    f.consumed <= f.written && |f.written| - |f.consumed| <= PIPESIZE
  }

  ghost predicate Full(f: Fifo) {
    |f.written| - |f.consumed| == PIPESIZE
  }

  ghost predicate Empty(f: Fifo) {
    |f.written| == |f.consumed|
  }

  /** The counters tell a full from an empty pipe even after they have wrapped. */
  lemma CountersTell(w: nat, r: nat)
    requires r <= w <= r + PIPESIZE
    ensures w % TWO32 == (r % TWO32 + PIPESIZE) % TWO32 <==> w == r + PIPESIZE
    ensures w % TWO32 == r % TWO32 <==> w == r
    ensures (w % TWO32 - r % TWO32) % TWO32 == w - r
    ensures w % TWO32 % PIPESIZE == w % PIPESIZE
    ensures (w % TWO32 + 1) % TWO32 == (w + 1) % TWO32
  {
    var a, b := w / TWO32, r / TWO32;
    assert w == a * TWO32 + w % TWO32 && r == b * TWO32 + r % TWO32;
    assert a == b || a == b + 1;
    WrapSlot(w);
  }

  lemma WrapSlot(w: nat)
    ensures w % TWO32 % PIPESIZE == w % PIPESIZE
  {
    var a, x := w / TWO32, w % TWO32;
    assert w == PIPESIZE * (a * 0x80_0000) + x;
    assert (PIPESIZE * (a * 0x80_0000) + x) % PIPESIZE == x % PIPESIZE by {
      ModAdd(a * 0x80_0000, x);
    }
  }

  lemma ModAdd(k: nat, x: nat)
    ensures (PIPESIZE * k + x) % PIPESIZE == x % PIPESIZE
  {
    var q, r := x / PIPESIZE, x % PIPESIZE;
    assert PIPESIZE * k + x == PIPESIZE * (k + q) + r;
  }

  /** Two positions within PIPESIZE of each other share a slot only if they are the same. */
  lemma SlotsDiffer(i: nat, j: nat)
    requires i < j < i + PIPESIZE
    ensures i % PIPESIZE != j % PIPESIZE
  {
  }

  class Buffer {
    const data: array<byte>
    var nread: nat
    var nwrite: nat
    ghost var f: Fifo

    ghost predicate Valid()
      reads this, data
    {
      && data.Length == PIPESIZE && FifoOk(f)
      && nread == |f.consumed| % TWO32 && nwrite == |f.written| % TWO32
      && forall k {:trigger f.written[k]} :: |f.consumed| <= k < |f.written| ==> data[k % PIPESIZE] == f.written[k]
    }

    /** pipealloc() */
    constructor ()
      ensures Valid() && fresh(data) && f == Fifo([], [])
    {
      data := new byte[PIPESIZE](_ => 0);
      nread, nwrite := 0, 0;
      f := Fifo([], []);
    }

    /** pipewrite()'s loop from byte i on, up to the end or to a full pipe. */
    method Put(addr: seq<byte>, i: nat) returns (j: nat)
      requires Valid() && i <= |addr|
      modifies this, data
      ensures Valid() && i <= j <= |addr|
      ensures f == Fifo(old(f).written + addr[i..j], old(f).consumed)
      ensures j == |addr| || Full(f)
    {
      hide Valid;
      j := i;
      assert addr[i..i] == [];
      while j < |addr| && nwrite != (nread + PIPESIZE) % TWO32
        invariant Valid() && i <= j <= |addr|
        invariant f == Fifo(old(f).written + addr[i..j], old(f).consumed)
      {
        PutOne(addr[j]);
        assert addr[i..j + 1] == addr[i..j] + [addr[j]];
        j := j + 1;
      }
      EndsTell();
    }

    /** The tests of the two loops. */
    lemma EndsTell()
      requires Valid()
      ensures nwrite == (nread + PIPESIZE) % TWO32 <==> Full(f)
      ensures nread == nwrite <==> Empty(f)
    {
      CountersTell(|f.written|, |f.consumed|);
    }

    method PutOne(b: byte)
      requires Valid() && nwrite != (nread + PIPESIZE) % TWO32
      modifies this, data
      ensures Valid() && f == Fifo(old(f).written + [b], old(f).consumed)
    {
      CountersTell(|f.written|, |f.consumed|);
      CountersTell(|f.written| + 1, |f.consumed|);
      forall k | |f.consumed| <= k < |f.written|
        ensures k % PIPESIZE != |f.written| % PIPESIZE
      {
        SlotsDiffer(k, |f.written|);
      }
      data[nwrite % PIPESIZE] := b;
      nwrite := (nwrite + 1) % TWO32;
      f := Fifo(f.written + [b], f.consumed);
    }

    /** piperead()'s copy loop. */
    method Get(n: nat) returns (out: seq<byte>)
      requires Valid()
      modifies this
      ensures Valid()
      ensures f == Fifo(old(f).written, old(f).consumed + out)
      ensures |out| == n || (|out| < n && Empty(f))
    {
      hide Valid;
      out := [];
      while |out| < n && nread != nwrite
        invariant Valid() && |out| <= n
        invariant f == Fifo(old(f).written, old(f).consumed + out)
      {
        var b := GetOne();
        out := out + [b];
      }
      EndsTell();
    }

    method GetOne() returns (b: byte)
      requires Valid() && nread != nwrite
      modifies this
      ensures Valid() && f == Fifo(old(f).written, old(f).consumed + [b])
    {
      CountersTell(|f.written|, |f.consumed|);
      CountersTell(|f.consumed|, |f.consumed|);
      var r := |f.consumed|;
      assert data[r % PIPESIZE] == f.written[r];
      b := data[nread % PIPESIZE];
      nread := (nread + 1) % TWO32;
      f := Fifo(f.written, f.consumed + [b]);
    }
  }

  // ----- readers and writers -----

  /** A process outside the pipe, in pipewrite() with i bytes done, or in piperead(); awake or
      asleep on &p->nwrite or &p->nread. */
  datatype Proc =
    | Idle
    | Writing(buf: seq<byte>, i: nat)
    | WriteSleep(buf: seq<byte>, i: nat)
    | Reading(n: nat)
    | ReadSleep(n: nat)

  datatype State = State(f: Fifo, readopen: bool, writeopen: bool, proc: seq<Proc>, killed: seq<bool>)

  /** Each step is a critical section of p->lock, up to the release or the sleep. */
  datatype Step =
    | StartWrite(p: nat, buf: seq<byte>) | StartRead(p: nat, n: nat)
    | Write(p: nat) | Read(p: nat)
    | Kill(p: nat) | CloseRead | CloseWrite

  function Min(a: int, b: int): int {
    if a < b then a else b
  }

  function Room(f: Fifo): int {
    PIPESIZE - (|f.written| - |f.consumed|)
  }

  function WakeReader(x: Proc): Proc {
    if x.ReadSleep? then Reading(x.n) else x
  }

  function WakeWriter(x: Proc): Proc {
    if x.WriteSleep? then Writing(x.buf, x.i) else x
  }

  function WakeReaders(ps: seq<Proc>): seq<Proc> {
    seq(|ps|, j requires 0 <= j < |ps| => WakeReader(ps[j]))
  }

  function WakeWriters(ps: seq<Proc>): seq<Proc> {
    seq(|ps|, j requires 0 <= j < |ps| => WakeWriter(ps[j]))
  }

  /** A pipe end is closed only when no process is in a call on it. */
  predicate Enabled(s: State, step: Step) {
    match step
    case StartWrite(p, buf) => p < |s.proc| && s.proc[p].Idle? && s.writeopen
    case StartRead(p, n) => p < |s.proc| && s.proc[p].Idle? && s.readopen
    case Write(p) =>
      && p < |s.proc| == |s.killed| && s.proc[p].Writing? && s.proc[p].i <= |s.proc[p].buf| && Room(s.f) >= 0
    case Read(p) => p < |s.proc| == |s.killed| && s.proc[p].Reading? && |s.f.consumed| <= |s.f.written|
    case Kill(p) => p < |s.proc| == |s.killed|
    case CloseRead => s.readopen && forall p :: 0 <= p < |s.proc| ==> !s.proc[p].Reading? && !s.proc[p].ReadSleep?
    case CloseWrite => s.writeopen && forall p :: 0 <= p < |s.proc| ==> !s.proc[p].Writing? && !s.proc[p].WriteSleep?
  }

  function Apply(s: State, step: Step): State
    requires Enabled(s, step)
  {
    match step
    case StartWrite(p, buf) => s.(proc := s.proc[p := Writing(buf, 0)])
    case StartRead(p, n) => s.(proc := s.proc[p := Reading(n)])
    case Write(p) =>
      var buf, i := s.proc[p].buf, s.proc[p].i;
      var j := i + Min(|buf| - i, Room(s.f));
      var f' := Fifo(s.f.written + buf[i..j], s.f.consumed);
      if j == |buf| then s.(f := f', proc := WakeReaders(s.proc)[p := Idle])
      else if !s.readopen || s.killed[p] then s.(f := f', proc := s.proc[p := Idle])
      else s.(f := f', proc := WakeReaders(s.proc)[p := WriteSleep(buf, j)])
    case Read(p) =>
      if |s.f.written| == |s.f.consumed| && s.writeopen then
        s.(proc := s.proc[p := if s.killed[p] then Idle else ReadSleep(s.proc[p].n)])
      else
        var r := |s.f.consumed|;
        var k := Min(s.proc[p].n, |s.f.written| - r);
        s.(f := Fifo(s.f.written, s.f.consumed + s.f.written[r..r + k]), proc := WakeWriters(s.proc)[p := Idle])
    case Kill(p) => s.(proc := s.proc[p := WakeReader(WakeWriter(s.proc[p]))], killed := s.killed[p := true])
    case CloseRead => s.(readopen := false, proc := WakeWriters(s.proc))
    case CloseWrite => s.(writeopen := false, proc := WakeReaders(s.proc))
  }

  /** Whoever sleeps has a reason to: a reader an empty pipe, a writer a full one, and in both
      cases the other end is open. */
  ghost predicate ProcOk(s: State, x: Proc) {
    match x
    case Idle => true
    case Writing(buf, i) => s.writeopen && i <= |buf|
    case WriteSleep(buf, i) => s.writeopen && i <= |buf| && Full(s.f) && s.readopen
    case Reading(n) => s.readopen
    case ReadSleep(n) => s.readopen && Empty(s.f) && s.writeopen
  }

  ghost predicate Inv(s: State) {
    FifoOk(s.f) && forall p :: 0 <= p < |s.proc| ==> ProcOk(s, s.proc[p])
  }

  ghost predicate ReaderAsleep(s: State) {
    exists p :: 0 <= p < |s.proc| && s.proc[p].ReadSleep?
  }

  /** Every step only appends to what was written and to what was consumed. */
  lemma FifoStep(s: State, step: Step)
    requires FifoOk(s.f) && Enabled(s, step)
    ensures FifoOk(Apply(s, step).f)
    ensures s.f.written <= Apply(s, step).f.written && s.f.consumed <= Apply(s, step).f.consumed
  {
  }

  /** A killed writer with more than fits gives up while a reader is asleep. */
  ghost predicate Strands(s: State, step: Step)
    requires Enabled(s, step)
  {
    step.Write? && s.killed[step.p] && |s.proc[step.p].buf| - s.proc[step.p].i > Room(s.f) && ReaderAsleep(s)
  }

  /** A step keeps the reasons for sleeping, unless it is that of a killed writer that fills
      the pipe past a sleeping reader: that one returns without a wakeup. */
  lemma StepKeepsIff(s: State, step: Step)
    requires Inv(s) && Enabled(s, step)
    ensures Inv(Apply(s, step)) <==> !Strands(s, step)
  {
    FifoStep(s, step);
    var s' := Apply(s, step);
    if Strands(s, step) {
      assert Full(s'.f);
      var q :| 0 <= q < |s.proc| && s.proc[q].ReadSleep?;
      assert ProcOk(s, s.proc[q]);
      assert s'.proc[q].ReadSleep?;
    } else {
      forall q | 0 <= q < |s'.proc|
        ensures ProcOk(s', s'.proc[q])
      {
        assert ProcOk(s, s.proc[q]);
        assert step.Write? ==> s.proc[q].ReadSleep? ==> ReaderAsleep(s);
      }
    }
  }

  // ----- whole runs -----

  ghost predicate Boot(s: State) {
    && s.f == Fifo([], []) && s.readopen && s.writeopen && |s.killed| == |s.proc|
    && forall p :: 0 <= p < |s.proc| ==> s.proc[p].Idle? && !s.killed[p]
  }

  ghost predicate IsRun(tr: seq<State>, steps: seq<Step>) {
    && |tr| == |steps| + 1 && Boot(tr[0])
    && forall i :: 0 <= i < |steps| ==> Enabled(tr[i], steps[i]) && tr[i + 1] == Apply(tr[i], steps[i])
  }

  /** In every run, kills and all, the bytes read are a prefix of the bytes written, at most
      PIPESIZE behind. */
  lemma {:induction false} ReadsArePrefix(tr: seq<State>, steps: seq<Step>, i: nat)
    requires IsRun(tr, steps) && i < |tr|
    ensures FifoOk(tr[i].f)
  {
    if i == 0 {
    } else {
      ReadsArePrefix(tr, steps, i - 1);
      FifoStep(tr[i - 1], steps[i - 1]);
      assert tr[i] == Apply(tr[i - 1], steps[i - 1]);
    }
  }

  lemma PrefixTransitive(a: seq<byte>, b: seq<byte>, c: seq<byte>)
    requires a <= b <= c
    ensures a <= c
  {
    assert c[..|a|] == b[..|a|];
  }

  /** Bytes once read are never taken back or changed. */
  lemma {:induction false} ReadsOnlyGrow(tr: seq<State>, steps: seq<Step>, i: nat, j: nat)
    requires IsRun(tr, steps) && i <= j < |tr|
    ensures tr[i].f.consumed <= tr[j].f.consumed && tr[i].f.written <= tr[j].f.written
    decreases j
  {
    hide Apply, Enabled, Boot, FifoOk;
    if i == j {
    } else {
      ReadsOnlyGrow(tr, steps, i, j - 1);
      ReadsArePrefix(tr, steps, j - 1);
      FifoStep(tr[j - 1], steps[j - 1]);
      assert tr[j] == Apply(tr[j - 1], steps[j - 1]);
      PrefixTransitive(tr[i].f.consumed, tr[j - 1].f.consumed, tr[j].f.consumed);
      PrefixTransitive(tr[i].f.written, tr[j - 1].f.written, tr[j].f.written);
    }
  }

  /** While no killed writer strands a reader, a process asleep on nread sees an empty pipe
      and one asleep on nwrite a full one. */
  lemma {:induction false} SleepersHaveReason(tr: seq<State>, steps: seq<Step>, i: nat)
    requires IsRun(tr, steps) && i < |tr|
    requires forall j :: 0 <= j < i ==> !Strands(tr[j], steps[j])
    ensures Inv(tr[i])
  {
    hide Strands, Inv, Apply, Enabled, Boot;
    if i == 0 {
      BootInv(tr[0]);
    } else {
      SleepersHaveReason(tr, steps, i - 1);
      StepKeepsIff(tr[i - 1], steps[i - 1]);
      assert tr[i] == Apply(tr[i - 1], steps[i - 1]);
    }
  }

  lemma BootInv(s: State)
    requires Boot(s)
    ensures Inv(s)
  {
  }

  /** Absent kills, whenever the lock is free a process asleep on nread sees an empty pipe and
      one asleep on nwrite a full one. */
  lemma {:induction false} NoKillsNoStranded(tr: seq<State>, steps: seq<Step>, i: nat)
    requires IsRun(tr, steps) && i < |tr|
    requires forall j :: 0 <= j < i ==> !steps[j].Kill?
    ensures Inv(tr[i]) && |tr[i].killed| == |tr[i].proc| && forall p :: 0 <= p < |tr[i].killed| ==> !tr[i].killed[p]
  {
    hide Inv;
    if i == 0 {
      BootInv(tr[0]);
    } else {
      NoKillsNoStranded(tr, steps, i - 1);
      StepKeepsIff(tr[i - 1], steps[i - 1]);
      assert tr[i] == Apply(tr[i - 1], steps[i - 1]);
    }
  }

  /** With a kill the reason can be lost: the reader sleeps on although the pipe is full. */
  lemma KilledWriterStrandsReader() returns (tr: seq<State>, steps: seq<Step>)
    ensures IsRun(tr, steps) && |tr[|tr| - 1].proc| == 2 && tr[|tr| - 1].proc[0].ReadSleep? && Full(tr[|tr| - 1].f)
  {
    var buf: seq<byte> := seq(PIPESIZE + 1, _ => 0);
    var s0 := State(Fifo([], []), true, true, [Idle, Idle], [false, false]);
    var s1 := Apply(s0, StartRead(0, 1));
    var s2 := Apply(s1, Read(0));
    var s3 := Apply(s2, StartWrite(1, buf));
    var s4 := Apply(s3, Kill(1));
    var s5 := Apply(s4, Write(1));
    tr, steps := [s0, s1, s2, s3, s4, s5], [StartRead(0, 1), Read(0), StartWrite(1, buf), Kill(1), Write(1)];
  }

  /** Absent kills nobody is stuck: a process awake in a call can take its step, and a reader and
      a writer are never both asleep. */
  lemma NeverStuck(tr: seq<State>, steps: seq<Step>, i: nat, p: nat, q: nat)
    requires IsRun(tr, steps) && i < |tr| && p < |tr[i].proc| && q < |tr[i].proc|
    requires forall j :: 0 <= j < i ==> !steps[j].Kill?
    ensures tr[i].proc[p].Writing? ==> Enabled(tr[i], Write(p))
    ensures tr[i].proc[p].Reading? ==> Enabled(tr[i], Read(p))
    ensures !(tr[i].proc[p].ReadSleep? && tr[i].proc[q].WriteSleep?)
  {
    NoKillsNoStranded(tr, steps, i);
    assert ProcOk(tr[i], tr[i].proc[p]) && ProcOk(tr[i], tr[i].proc[q]);
  }

  predicate Sleeps(x: Proc) {
    x.ReadSleep? || x.WriteSleep?
  }

  /** A killed process is not asleep in the pipe: kill() wakes it, and it does not sleep again. */
  lemma {:induction false} KilledNeverSleeps(tr: seq<State>, steps: seq<Step>, i: nat, p: nat)
    requires IsRun(tr, steps) && i < |tr| && p < |tr[i].killed| == |tr[i].proc| && tr[i].killed[p]
    ensures !Sleeps(tr[i].proc[p])
  {
    if i == 0 {
    } else {
      assert tr[i] == Apply(tr[i - 1], steps[i - 1]);
      if p < |tr[i - 1].killed| && tr[i - 1].killed[p] {
        KilledNeverSleeps(tr, steps, i - 1, p);
      }
    }
  }

  /** Whoever is idle can start a call on an open end, and an end that nobody is in a call on can
      be closed. */
  lemma NothingElseForbidden(s: State, p: nat, buf: seq<byte>, n: nat)
    requires p < |s.proc|
    ensures s.proc[p].Idle? && s.writeopen ==> Enabled(s, StartWrite(p, buf))
    ensures s.proc[p].Idle? && s.readopen ==> Enabled(s, StartRead(p, n))
    ensures s.readopen && !Enabled(s, CloseRead) ==>
              exists q :: 0 <= q < |s.proc| && (s.proc[q].Reading? || s.proc[q].ReadSleep?)
    ensures s.writeopen && !Enabled(s, CloseWrite) ==>
              exists q :: 0 <= q < |s.proc| && (s.proc[q].Writing? || s.proc[q].WriteSleep?)
  {
  }

  // ----- who wrote and who read what -----

  /** What a step adds to the bytes written, and to the bytes read. */
  ghost function Piece(a: seq<byte>, b: seq<byte>): seq<byte> {
    if |a| <= |b| then b[|a|..] else []
  }

  /** The bytes that the Write steps of the processes in who add between states i and j. */
  ghost function Sent(tr: seq<State>, steps: seq<Step>, who: set<nat>, i: nat, j: nat): seq<byte>
    requires |tr| == |steps| + 1 && i <= j < |tr|
    decreases j
  {
    if i == j then []
    else
      Sent(tr, steps, who, i, j - 1) +
      if steps[j - 1].Write? && steps[j - 1].p in who then Piece(tr[j - 1].f.written, tr[j].f.written) else []
  }

  /** The bytes that their Read steps take. */
  ghost function Taken(tr: seq<State>, steps: seq<Step>, who: set<nat>, i: nat, j: nat): seq<byte>
    requires |tr| == |steps| + 1 && i <= j < |tr|
    decreases j
  {
    if i == j then []
    else
      Taken(tr, steps, who, i, j - 1) +
      if steps[j - 1].Read? && steps[j - 1].p in who then Piece(tr[j - 1].f.consumed, tr[j].f.consumed) else []
  }

  /** Only Write steps write and only Read steps read. */
  lemma PieceBy(s: State, step: Step)
    requires FifoOk(s.f) && Enabled(s, step)
    ensures var f' := Apply(s, step).f;
            && s.f.written + Piece(s.f.written, f'.written) == f'.written
            && s.f.consumed + Piece(s.f.consumed, f'.consumed) == f'.consumed
            && (!step.Write? ==> f'.written == s.f.written) && (!step.Read? ==> f'.consumed == s.f.consumed)
  {
    FifoStep(s, step);
  }

  /** What all writers together send is what was written. */
  lemma {:induction false} AllSent(tr: seq<State>, steps: seq<Step>, who: set<nat>, i: nat, j: nat)
    requires IsRun(tr, steps) && i <= j < |tr|
    requires forall k :: i <= k < j && steps[k].Write? ==> steps[k].p in who
    ensures tr[j].f.written == tr[i].f.written + Sent(tr, steps, who, i, j)
    decreases j
  {
    hide Apply, Enabled, Boot, FifoOk, Piece;
    if i == j {
    } else {
      AllSent(tr, steps, who, i, j - 1);
      ReadsArePrefix(tr, steps, j - 1);
      PieceBy(tr[j - 1], steps[j - 1]);
      assert tr[j] == Apply(tr[j - 1], steps[j - 1]);
    }
  }

  /** What all readers together take is what was read. */
  lemma {:induction false} AllTaken(tr: seq<State>, steps: seq<Step>, who: set<nat>, i: nat, j: nat)
    requires IsRun(tr, steps) && i <= j < |tr|
    requires forall k :: i <= k < j && steps[k].Read? ==> steps[k].p in who
    ensures tr[j].f.consumed == tr[i].f.consumed + Taken(tr, steps, who, i, j)
    decreases j
  {
    hide Apply, Enabled, Boot, FifoOk, Piece;
    if i == j {
    } else {
      AllTaken(tr, steps, who, i, j - 1);
      ReadsArePrefix(tr, steps, j - 1);
      PieceBy(tr[j - 1], steps[j - 1]);
      assert tr[j] == Apply(tr[j - 1], steps[j - 1]);
    }
  }

  /** a is b with some elements left out. */
  ghost predicate Subsequence(a: seq<byte>, b: seq<byte>) {
    || a == []
    || (b != [] && Subsequence(a, b[..|b| - 1]))
    || (b != [] && a[|a| - 1] == b[|b| - 1] && Subsequence(a[..|a| - 1], b[..|b| - 1]))
  }

  lemma {:induction false} SubsequenceLonger(a: seq<byte>, b: seq<byte>, c: seq<byte>)
    requires Subsequence(a, b)
    ensures Subsequence(a, b + c)
    decreases |c|
  {
    if c == [] {
      assert b + c == b;
    } else {
      SubsequenceLonger(a, b, c[..|c| - 1]);
      assert (b + c)[..|b + c| - 1] == b + c[..|c| - 1];
    }
  }

  lemma {:induction false} SubsequenceBoth(a: seq<byte>, b: seq<byte>, c: seq<byte>)
    requires Subsequence(a, b)
    ensures Subsequence(a + c, b + c)
    decreases |c|
  {
    if c == [] {
      assert b + c == b && a + c == a;
    } else {
      SubsequenceBoth(a, b, c[..|c| - 1]);
      assert (b + c)[..|b + c| - 1] == b + c[..|c| - 1];
      assert (a + c)[..|a + c| - 1] == a + c[..|c| - 1];
    }
  }

  /** Each process's bytes are among the bytes written, in order, whoever else writes. */
  lemma {:induction false} SentInOrder(tr: seq<State>, steps: seq<Step>, who: set<nat>, i: nat, j: nat)
    requires IsRun(tr, steps) && i <= j < |tr|
    ensures Subsequence(Sent(tr, steps, who, i, j), tr[j].f.written)
    decreases j
  {
    hide Apply, Enabled, Boot, FifoOk, Piece, Subsequence;
    if i == j {
      NothingSent(tr[j].f.written);
    } else {
      SentInOrder(tr, steps, who, i, j - 1);
      ReadsArePrefix(tr, steps, j - 1);
      PieceBy(tr[j - 1], steps[j - 1]);
      assert tr[j] == Apply(tr[j - 1], steps[j - 1]);
      var piece := Piece(tr[j - 1].f.written, tr[j].f.written);
      if steps[j - 1].Write? && steps[j - 1].p in who {
        SubsequenceBoth(Sent(tr, steps, who, i, j - 1), tr[j - 1].f.written, piece);
      } else {
        SubsequenceLonger(Sent(tr, steps, who, i, j - 1), tr[j - 1].f.written, piece);
        assert Sent(tr, steps, who, i, j) == Sent(tr, steps, who, i, j - 1);
      }
    }
  }

  lemma NothingSent(b: seq<byte>)
    ensures Subsequence([], b)
  {
  }

  /** p has sent these bytes since it called pipewrite() with buf: it is at the byte behind them,
      or has returned after the last one, or, killed or without a reader's end, before. */
  ghost predicate WriterAt(s: State, p: nat, buf: seq<byte>, sent: seq<byte>) {
    && p < |s.proc| == |s.killed|
    && match s.proc[p]
       case Writing(b, i) => b == buf && i <= |buf| && sent == buf[..i]
       case WriteSleep(b, i) => b == buf && i <= |buf| && sent == buf[..i]
       case _ => sent == buf || (sent <= buf && (s.killed[p] || !s.readopen))
  }

  lemma WriterWrites(s: State, p: nat, buf: seq<byte>, sent: seq<byte>)
    requires FifoOk(s.f) && Enabled(s, Write(p)) && WriterAt(s, p, buf, sent)
    ensures var s' := Apply(s, Write(p)); WriterAt(s', p, buf, sent + Piece(s.f.written, s'.f.written))
  {
    var s' := Apply(s, Write(p));
    var i := s.proc[p].i;
    var j := i + Min(|buf| - i, Room(s.f));
    assert Piece(s.f.written, s'.f.written) == buf[i..j];
    assert buf[..i] + buf[i..j] == buf[..j];
    assert buf[..|buf|] == buf;
  }

  lemma WriterWaits(s: State, step: Step, p: nat, buf: seq<byte>, sent: seq<byte>)
    requires FifoOk(s.f) && Enabled(s, step) && WriterAt(s, p, buf, sent)
    requires step != Write(p) && !(step.StartWrite? && step.p == p)
    ensures WriterAt(Apply(s, step), p, buf, sent)
  {
    hide FifoOk, Room;
  }

  lemma WriterStep(s: State, step: Step, p: nat, buf: seq<byte>, sent: seq<byte>)
    requires FifoOk(s.f) && Enabled(s, step) && WriterAt(s, p, buf, sent) && !(step.StartWrite? && step.p == p)
    ensures var s' := Apply(s, step);
            WriterAt(s', p, buf, sent + if step == Write(p) then Piece(s.f.written, s'.f.written) else [])
  {
    hide Apply, Enabled, WriterAt, FifoOk, Piece;
    if step == Write(p) {
      WriterWrites(s, p, buf, sent);
    } else {
      WriterWaits(s, step, p, buf, sent);
      assert sent + [] == sent;
    }
  }

  /** pipewrite() sends its buffer from the first byte on, however often it sleeps and whatever
      others write in between: all of it, unless the process is killed or the read end closed. */
  lemma {:induction false} WriterSends(tr: seq<State>, steps: seq<Step>, p: nat, i: nat, j: nat)
    requires IsRun(tr, steps) && i < j < |tr| && steps[i].StartWrite? && steps[i].p == p
    requires forall k :: i < k < j ==> !(steps[k].StartWrite? && steps[k].p == p)
    ensures WriterAt(tr[j], p, steps[i].buf, Sent(tr, steps, {p}, i, j))
    decreases j
  {
    hide FifoOk, Piece, Apply, Enabled, Boot, WriterAt;
    if j == i + 1 {
      KilledShape(tr, steps, i);
      WriterStarts(tr[i], steps[i]);
      assert tr[j] == Apply(tr[i], steps[i]);
      assert Sent(tr, steps, {p}, i, i) == [];
      assert Sent(tr, steps, {p}, i, i + 1) == [];
    } else {
      WriterSends(tr, steps, p, i, j - 1);
      ReadsArePrefix(tr, steps, j - 1);
      WriterStep(tr[j - 1], steps[j - 1], p, steps[i].buf, Sent(tr, steps, {p}, i, j - 1));
      assert tr[j] == Apply(tr[j - 1], steps[j - 1]);
    }
  }

  lemma WriterStarts(s: State, step: Step)
    requires step.StartWrite? && Enabled(s, step) && |s.killed| == |s.proc|
    ensures WriterAt(Apply(s, step), step.p, step.buf, [])
  {
  }

  lemma {:induction false} KilledShape(tr: seq<State>, steps: seq<Step>, i: nat)
    requires IsRun(tr, steps) && i < |tr|
    ensures |tr[i].killed| == |tr[i].proc|
  {
    if i == 0 {
    } else {
      KilledShape(tr, steps, i - 1);
      assert tr[i] == Apply(tr[i - 1], steps[i - 1]);
    }
  }

  /** While p is the only writer, what was written since its call is what it sent. */
  lemma OnlyWriter(tr: seq<State>, steps: seq<Step>, p: nat, i: nat, j: nat)
    requires IsRun(tr, steps) && i < j < |tr| && steps[i].StartWrite? && steps[i].p == p
    requires forall k :: i < k < j ==> !steps[k].StartWrite? && (steps[k].Write? ==> steps[k].p == p)
    ensures tr[i].f.written <= tr[j].f.written
    ensures WriterAt(tr[j], p, steps[i].buf, tr[j].f.written[|tr[i].f.written|..])
  {
    hide FifoOk, Piece, WriterAt, Apply, Enabled, Boot;
    WriterSends(tr, steps, p, i, j);
    AllSent(tr, steps, {p}, i, j);
    assert (tr[i].f.written + Sent(tr, steps, {p}, i, j))[|tr[i].f.written|..] == Sent(tr, steps, {p}, i, j);
  }

  /** piperead() sleeps exactly at an empty pipe that may still be written, unless killed;
      otherwise it returns with the next min(n, available) bytes, which are none if it was killed
      there. */
  lemma ReadDelivers(s: State, p: nat)
    requires FifoOk(s.f) && Enabled(s, Read(p))
    ensures var s', n, available := Apply(s, Read(p)), s.proc[p].n, |s.f.written| - |s.f.consumed|;
            && s'.proc[p] == (if available == 0 && s.writeopen && !s.killed[p] then ReadSleep(n) else Idle)
            && s'.f.written == s.f.written && s'.f.consumed <= s.f.written
            && |s'.f.consumed| == |s.f.consumed| + Min(n, available)
  {
    var r := |s.f.consumed|;
    assert s.f.consumed == s.f.written[..r];
  }

  /** p is in piperead(n). */
  predicate InRead(x: Proc, n: nat) {
    x == Reading(n) || x == ReadSleep(n)
  }

  /** A read of n bytes that returns got from state s: the next bytes, as many as there are up to
      n, and none only for a reason. */
  ghost predicate Delivers(s: State, p: nat, n: nat, got: seq<byte>) {
    var r := |s.f.consumed|;
    && p < |s.killed| && r <= |s.f.written| && got == s.f.written[r..r + Min(n, |s.f.written| - r)]
    && (got == [] ==> n == 0 || !s.writeopen || s.killed[p])
  }

  lemma ReaderStep(s: State, step: Step, p: nat, n: nat)
    requires FifoOk(s.f) && Enabled(s, step) && p < |s.proc| && InRead(s.proc[p], n)
    ensures var s' := Apply(s, step);
            && |s'.proc| == |s.proc|
            && if step == Read(p) && s'.proc[p] == Idle
               then Delivers(s, p, n, Piece(s.f.consumed, s'.f.consumed))
               else InRead(s'.proc[p], n) && (step == Read(p) ==> s'.f.consumed == s.f.consumed)
  {
    if step == Read(p) {
      ReadDelivers(s, p);
    }
  }

  lemma NotReadingStep(s: State, step: Step, p: nat)
    requires Enabled(s, step) && p < |s.proc| && !s.proc[p].Reading? && !s.proc[p].ReadSleep?
    requires !(step.StartRead? && step.p == p)
    ensures var s' := Apply(s, step);
            step != Read(p) && |s'.proc| == |s.proc| && !s'.proc[p].Reading? && !s'.proc[p].ReadSleep?
  {
  }

  /** At state j the call piperead(n) that p made in step i is still under way with nothing taken,
      or it returned in some step k and delivered. */
  ghost predicate ReaderAt(tr: seq<State>, steps: seq<Step>, p: nat, n: nat, i: nat, j: nat)
    requires |tr| == |steps| + 1 && i < j < |tr|
  {
    p < |tr[j].proc|
    && if tr[j].proc[p].Reading? || tr[j].proc[p].ReadSleep?
       then InRead(tr[j].proc[p], n) && Taken(tr, steps, {p}, i, j) == []
       else exists k :: i < k < j && steps[k] == Read(p) && Delivers(tr[k], p, n, Taken(tr, steps, {p}, i, j))
  }

  /** piperead() returns the next bytes of the pipe, once, however often it sleeps. */
  lemma {:induction false} ReaderGets(tr: seq<State>, steps: seq<Step>, p: nat, i: nat, j: nat)
    requires IsRun(tr, steps) && i < j < |tr| && steps[i].StartRead? && steps[i].p == p
    requires forall k :: i < k < j ==> !(steps[k].StartRead? && steps[k].p == p)
    ensures ReaderAt(tr, steps, p, steps[i].n, i, j)
    decreases j
  {
    hide FifoOk, Boot, Apply, Enabled, ReaderAt;
    if j == i + 1 {
      ReaderStarts(tr, steps, i);
    } else {
      ReaderGets(tr, steps, p, i, j - 1);
      ReadsArePrefix(tr, steps, j - 1);
      ReaderOn(tr, steps, p, steps[i].n, i, j - 1);
    }
  }

  lemma ReaderStarts(tr: seq<State>, steps: seq<Step>, i: nat)
    requires |tr| == |steps| + 1 && i < |steps| && steps[i].StartRead?
    requires Enabled(tr[i], steps[i]) && tr[i + 1] == Apply(tr[i], steps[i])
    ensures ReaderAt(tr, steps, steps[i].p, steps[i].n, i, i + 1)
  {
    hide Delivers;
    assert Taken(tr, steps, {steps[i].p}, i, i) == [];
  }

  lemma ReaderOn(tr: seq<State>, steps: seq<Step>, p: nat, n: nat, i: nat, j: nat)
    requires |tr| == |steps| + 1 && i < j < |steps| && ReaderAt(tr, steps, p, n, i, j) && FifoOk(tr[j].f)
    requires Enabled(tr[j], steps[j]) && tr[j + 1] == Apply(tr[j], steps[j])
    requires !(steps[j].StartRead? && steps[j].p == p)
    ensures ReaderAt(tr, steps, p, n, i, j + 1)
  {
    hide FifoOk, Apply, Enabled, Delivers;
    var got := Taken(tr, steps, {p}, i, j);
    if tr[j].proc[p].Reading? || tr[j].proc[p].ReadSleep? {
      ReaderStep(tr[j], steps[j], p, n);
      if steps[j] == Read(p) && tr[j + 1].proc[p] == Idle {
        assert got + Piece(tr[j].f.consumed, tr[j + 1].f.consumed) == Piece(tr[j].f.consumed, tr[j + 1].f.consumed);
      } else {
        assert Taken(tr, steps, {p}, i, j + 1) == [];
      }
    } else {
      var k :| i < k < j && steps[k] == Read(p) && Delivers(tr[k], p, n, got);
      NotReadingStep(tr[j], steps[j], p);
      assert got + [] == got;
      assert Taken(tr, steps, {p}, i, j + 1) == got;
    }
  }

  // ----- the code and the machine -----

  /** What the loop of pipewrite() does to the buffer is what a Write step does. */
  lemma PutIsWrite(s: State, p: nat, f': Fifo, j: nat)
    requires FifoOk(s.f) && Enabled(s, Write(p)) && s.proc[p].i <= j <= |s.proc[p].buf| && FifoOk(f')
    requires f' == Fifo(s.f.written + s.proc[p].buf[s.proc[p].i..j], s.f.consumed)
    requires j == |s.proc[p].buf| || Full(f')
    ensures Apply(s, Write(p)).f == f'
    ensures Apply(s, Write(p)).proc[p] ==
            if j == |s.proc[p].buf| || !s.readopen || s.killed[p] then Idle else WriteSleep(s.proc[p].buf, j)
  {
    var buf, i := s.proc[p].buf, s.proc[p].i;
    assert j == i + Min(|buf| - i, Room(s.f));
  }

  /** What the loop of piperead() does is what a Read step that does not sleep does. */
  lemma GetIsRead(s: State, p: nat, f': Fifo, out: seq<byte>)
    requires FifoOk(s.f) && Enabled(s, Read(p)) && FifoOk(f')
    requires |s.f.written| > |s.f.consumed| || !s.writeopen
    requires f' == Fifo(s.f.written, s.f.consumed + out)
    requires |out| == s.proc[p].n || (|out| < s.proc[p].n && Empty(f'))
    ensures Apply(s, Read(p)).f == f' && Apply(s, Read(p)).proc[p] == Idle
  {
    var r := |s.f.consumed|;
    assert |out| == Min(s.proc[p].n, |s.f.written| - r);
    assert s.f.consumed + out == s.f.written[..r + |out|];
    assert s.f.consumed + s.f.written[r..r + |out|] == s.f.written[..r + |out|];
  }
}
