/** Pipes (kernel/pipe.c): a ring of 512 bytes with wrapping counters, its readers and writers,
    and the sleeps and wakeups between them. A step is what one process does from taking p->lock
    to returning or going to sleep. */
module Pipe {
  import opened Blocks

  const PIPESIZE := 512
  const WRAP := 0x1_0000_0000

  /** A process at the pipe: in no call, or in a write that has copied i bytes, or in a read. */
  datatype Thread =
    | Idle
    | Writer(buf: seq<Byte>, i: nat, asleep: bool)
    | Reader(n: nat, asleep: bool)

  /** What the pipe means: every byte ever written to it and read from it, in order. */
  datatype State = State(written: seq<Byte>, read: seq<Byte>, readopen: bool, writeopen: bool,
                         threads: seq<Thread>, killed: seq<bool>)
  {
    function Count(): int { |written| - |read| }
  }

  function Asleep(th: Thread): bool { (th.Writer? && th.asleep) || (th.Reader? && th.asleep) }

  function WakeReader(th: Thread): Thread { if th.Reader? then Reader(th.n, false) else th }

  function WakeWriter(th: Thread): Thread { if th.Writer? then Writer(th.buf, th.i, false) else th }

  /** wakeup(&p->nread). */
  function ReadersWoken(ths: seq<Thread>): (r: seq<Thread>)
    ensures |r| == |ths| && forall i :: 0 <= i < |ths| ==> r[i] == WakeReader(ths[i])
  {
    seq(|ths|, i requires 0 <= i < |ths| => WakeReader(ths[i]))
  }

  /** wakeup(&p->nwrite). */
  function WritersWoken(ths: seq<Thread>): (r: seq<Thread>)
    ensures |r| == |ths| && forall i :: 0 <= i < |ths| ==> r[i] == WakeWriter(ths[i])
  {
    seq(|ths|, i requires 0 <= i < |ths| => WakeWriter(ths[i]))
  }

  function Min(a: int, b: int): int { if a < b then a else b }

  // ---- the steps ----

  datatype Step =
    | StartWrite(t: nat, buf: seq<Byte>)
    | ResumeWrite(t: nat)
    | StartRead(t: nat, n: nat)
    | ResumeRead(t: nat)
    | CloseWrite
    | CloseRead
    | Kill(t: nat)
    | KillUnseen(t: nat)

  predicate NoWriters(ths: seq<Thread>) { forall i :: 0 <= i < |ths| ==> !ths[i].Writer? }

  predicate NoReaders(ths: seq<Thread>) { forall i :: 0 <= i < |ths| ==> !ths[i].Reader? }

  /** kill takes ptable.lock only: it can come after a process tested its killed flag and before it
      sleeps, and then wakes nobody. The flag is set all the same, which KillUnseen says once the
      process sleeps. A process in a call holds an open file, so the end it uses is open and stays open. */
  predicate Enabled(s: State, step: Step) {
    && |s.killed| == |s.threads|
    && match step
       case StartWrite(t, _) => t < |s.threads| && s.threads[t] == Idle && s.writeopen
       case ResumeWrite(t) => t < |s.threads| && s.threads[t].Writer? && !s.threads[t].asleep
       case StartRead(t, _) => t < |s.threads| && s.threads[t] == Idle && s.readopen
       case ResumeRead(t) => t < |s.threads| && s.threads[t].Reader? && !s.threads[t].asleep
       case CloseWrite => s.writeopen && NoWriters(s.threads)
       case CloseRead => s.readopen && NoReaders(s.threads)
       case Kill(t) => t < |s.threads|
       case KillUnseen(t) => t < |s.threads| && Asleep(s.threads[t])
  }

  /** pipewrite from byte i of buf on: as many bytes as there is room for, then done, -1 or asleep. */
  function WriteFrom(s: State, t: nat, buf: seq<Byte>, i: nat): State
    requires t < |s.threads| == |s.killed| && i <= |buf| && 0 <= s.Count() <= PIPESIZE
  {
    var k := Min(|buf| - i, PIPESIZE - s.Count());
    var w := s.(written := s.written + buf[i..i + k]);
    if i + k == |buf| then w.(threads := ReadersWoken(s.threads)[t := Idle])
    else if !s.readopen || s.killed[t] then w.(threads := s.threads[t := Idle])
    else w.(threads := ReadersWoken(s.threads)[t := Writer(buf, i + k, true)])
  }

  /** piperead: asleep or -1 while there is nothing to read and a writer may come, else what there is. */
  function ReadFrom(s: State, t: nat, n: nat): State
    requires t < |s.threads| == |s.killed| && 0 <= s.Count() <= PIPESIZE
  {
    if s.Count() == 0 && s.writeopen then
      s.(threads := s.threads[t := if s.killed[t] then Idle else Reader(n, true)])
    else
      var k := Min(n, s.Count());
      s.(read := s.read + s.written[|s.read|..|s.read| + k], threads := WritersWoken(s.threads)[t := Idle])
  }

  function Apply(s: State, step: Step): State
    requires Enabled(s, step) && Inv(s)
  {
    match step
    case StartWrite(t, buf) => WriteFrom(s, t, buf, 0)
    case ResumeWrite(t) => WriteFrom(s, t, s.threads[t].buf, s.threads[t].i)
    case StartRead(t, n) => ReadFrom(s, t, n)
    case ResumeRead(t) => ReadFrom(s, t, s.threads[t].n)
    case CloseWrite => s.(writeopen := false, threads := ReadersWoken(s.threads))
    case CloseRead => s.(readopen := false, threads := WritersWoken(s.threads))
    case Kill(t) => s.(killed := s.killed[t := true], threads := s.threads[t := WakeReader(WakeWriter(s.threads[t]))])
    case KillUnseen(t) => s.(killed := s.killed[t := true])
  }

  // ---- what holds whenever the lock is free ----

  /** The bytes read are a prefix of the bytes written, at most PIPESIZE behind; a process in a
      call has that end open. */
  predicate Inv(s: State) {
    && |s.threads| == |s.killed|
    && 0 <= s.Count() <= PIPESIZE && s.read == s.written[..|s.read|]
    && (s.readopen || NoReaders(s.threads)) && (s.writeopen || NoWriters(s.threads))
    && (forall t :: 0 <= t < |s.threads| && s.threads[t].Writer? ==> s.threads[t].i <= |s.threads[t].buf|)
  }

  /** Nobody sleeps without a reason. */
  predicate SleepersOk(s: State) {
    forall t :: 0 <= t < |s.threads| ==>
      && (s.threads[t].Reader? && s.threads[t].asleep ==> s.Count() == 0 && s.writeopen)
      && (s.threads[t].Writer? && s.threads[t].asleep ==> s.Count() == PIPESIZE && s.readopen)
  }

  predicate ReaderAsleep(s: State) { exists t :: 0 <= t < |s.threads| && s.threads[t].Reader? && s.threads[t].asleep }

  /** A killed writer that is about to fill the pipe under a sleeping reader: pipewrite then
      returns -1 without the wakeup. */
  predicate DropsWakeup(s: State, step: Step)
    requires Enabled(s, step)
  {
    match step
    case StartWrite(t, buf) => s.killed[t] && |buf| > PIPESIZE && ReaderAsleep(s)
    case ResumeWrite(t) => s.killed[t] && |s.threads[t].buf| - s.threads[t].i > PIPESIZE && ReaderAsleep(s)
    case _ => false
  }

  lemma StepKeeps(s: State, step: Step)
    requires Inv(s) && Enabled(s, step)
    ensures Inv(Apply(s, step))
    ensures s.written <= Apply(s, step).written && s.read <= Apply(s, step).read
  {
    match step {
      case StartWrite(t, buf) => WriteKeeps(s, t, buf, 0);
      case ResumeWrite(t) => WriteKeeps(s, t, s.threads[t].buf, s.threads[t].i);
      case StartRead(t, n) => ReadKeeps(s, t, n);
      case ResumeRead(t) => ReadKeeps(s, t, s.threads[t].n);
      case _ =>
    }
  }

  lemma WriteKeeps(s: State, t: nat, buf: seq<Byte>, i: nat)
    requires Inv(s) && t < |s.threads| && i <= |buf| && s.writeopen && !s.threads[t].Reader?
    ensures Inv(WriteFrom(s, t, buf, i)) && s.written <= WriteFrom(s, t, buf, i).written
  {
    var r := WriteFrom(s, t, buf, i);
    assert r.read == r.written[..|r.read|];
  }

  lemma ReadKeeps(s: State, t: nat, n: nat)
    requires Inv(s) && t < |s.threads| && s.readopen && !s.threads[t].Writer?
    ensures Inv(ReadFrom(s, t, n)) && s.read <= ReadFrom(s, t, n).read
  {
    var r := ReadFrom(s, t, n);
    assert r.read == r.written[..|r.read|];
  }

  /** A step leaves a sleeper without a reason exactly when a killed writer drops the wakeup. */
  lemma SleepersExact(s: State, step: Step)
    requires Inv(s) && Enabled(s, step) && SleepersOk(s)
    ensures SleepersOk(Apply(s, step)) <==> !DropsWakeup(s, step)
  {
    var r := Apply(s, step);
    match step {
      case StartWrite(t, buf) => WriteSleepers(s, t, buf, 0);
      case ResumeWrite(t) => WriteSleepers(s, t, s.threads[t].buf, s.threads[t].i);
      case StartRead(t, n) => ReadSleepers(s, t, n);
      case ResumeRead(t) => ReadSleepers(s, t, s.threads[t].n);
      case _ =>
    }
  }

  lemma WriteSleepers(s: State, t: nat, buf: seq<Byte>, i: nat)
    requires Inv(s) && SleepersOk(s) && t < |s.threads| && i <= |buf| && !Asleep(s.threads[t]) && s.writeopen
        && !s.threads[t].Reader?
    ensures SleepersOk(WriteFrom(s, t, buf, i)) <==> !(s.killed[t] && |buf| - i > PIPESIZE && ReaderAsleep(s))
  {
    var r := WriteFrom(s, t, buf, i);
    if ReaderAsleep(s) {
      var u :| 0 <= u < |s.threads| && s.threads[u].Reader? && s.threads[u].asleep;
      assert s.Count() == 0 && s.readopen;
      if s.killed[t] && |buf| - i > PIPESIZE {
        assert r.threads[u] == s.threads[u];
      }
    }
  }

  lemma ReadSleepers(s: State, t: nat, n: nat)
    requires Inv(s) && SleepersOk(s) && t < |s.threads| && !Asleep(s.threads[t]) && s.readopen && !s.threads[t].Writer?
    ensures SleepersOk(ReadFrom(s, t, n))
  {
  }

  // ---- every run ----

  predicate Start(s: State) {
    && s.written == [] && s.read == [] && s.readopen && s.writeopen && |s.threads| == |s.killed|
    && forall t :: 0 <= t < |s.threads| ==> s.threads[t] == Idle && !s.killed[t]
  }

  ghost predicate Reaches(s: State, run: seq<Step>, s': State)
    requires Inv(s)
    decreases |run|
  {
    if run == [] then s' == s
    else Enabled(s, run[0]) && (StepKeeps(s, run[0]); Reaches(Apply(s, run[0]), run[1..], s'))
  }

  lemma {:induction false} RunKeeps(s: State, run: seq<Step>, s': State)
    requires Inv(s) && Reaches(s, run, s')
    ensures Inv(s') && s.written <= s'.written && s.read <= s'.read
    decreases |run|
  {
    if run != [] {
      StepKeeps(s, run[0]);
      RunKeeps(Apply(s, run[0]), run[1..], s');
    }
  }

  /** In every run bytes come out in the order they went in, and at most PIPESIZE are inside. */
  lemma PrefixAlways(s0: State, run: seq<Step>, s: State)
    requires Start(s0) && Inv(s0) && Reaches(s0, run, s)
    ensures s.read <= s.written && |s.written| - |s.read| <= PIPESIZE
  {
    RunKeeps(s0, run, s);
  }

  lemma Unkilled(s: State, step: Step)
    requires Inv(s) && Enabled(s, step) && !step.Kill? && !step.KillUnseen?
    requires forall t :: 0 <= t < |s.killed| ==> !s.killed[t]
    ensures !DropsWakeup(s, step) && Apply(s, step).killed == s.killed
  {
  }

  predicate NoKill(run: seq<Step>) { forall i :: 0 <= i < |run| ==> !run[i].Kill? && !run[i].KillUnseen? }

  /** Without a kill nobody sleeps without a reason. */
  lemma {:induction false} NoLostWakeup(s: State, run: seq<Step>, s': State)
    requires Inv(s) && SleepersOk(s) && NoKill(run) && Reaches(s, run, s')
    requires forall t :: 0 <= t < |s.killed| ==> !s.killed[t]
    ensures SleepersOk(s')
    decreases |run|
  {
    hide Apply, Inv, SleepersOk, DropsWakeup, Enabled;
    if run != [] {
      assert !run[0].Kill? && !run[0].KillUnseen?;
      SleepersExact(s, run[0]);
      Unkilled(s, run[0]);
      StepKeeps(s, run[0]);
      NoLostWakeup(Apply(s, run[0]), run[1..], s');
    }
  }

  lemma NoLostWakeupFromStart(s0: State, run: seq<Step>, s: State)
    requires Start(s0) && Inv(s0) && NoKill(run) && Reaches(s0, run, s)
    ensures SleepersOk(s)
  {
    NoLostWakeup(s0, run, s);
  }

  /** With one, a reader can sleep beside a full pipe: the first process reads, the second is
      killed and writes one byte more than fits. */
  lemma LostWakeup(big: seq<Byte>) returns (s: State)
    requires |big| == PIPESIZE + 1
    ensures var s0 := State([], [], true, true, [Idle, Idle], [false, false]);
      && Start(s0) && Inv(s0) && Reaches(s0, [StartRead(0, 1), Kill(1), StartWrite(1, big)], s)
    ensures |s.threads| == 2 && s.threads[0] == Reader(1, true) && s.Count() == PIPESIZE && s.threads[1] == Idle
        && !SleepersOk(s)
  {
    var s0 := State([], [], true, true, [Idle, Idle], [false, false]);
    var run := [StartRead(0, 1), Kill(1), StartWrite(1, big)];
    StepKeeps(s0, run[0]);
    var s1 := Apply(s0, run[0]);
    assert run[1..] == [Kill(1), StartWrite(1, big)];
    StepKeeps(s1, run[1]);
    var s2 := Apply(s1, run[1]);
    assert run[1..][1..] == [StartWrite(1, big)];
    StepKeeps(s2, run[2]);
    s := Apply(s2, run[2]);
    assert run[1..][1..][1..] == [];
    assert Reaches(s2, run[1..][1..], s);
    assert Reaches(s1, run[1..], s);
  }

  // ---- the ring ----

  /** The counters wrap at 2^32, which the ring's size divides. */
  lemma Wrapped(a: nat, b: nat)
    requires 0 <= a - b <= PIPESIZE
    ensures a % WRAP == (b % WRAP + PIPESIZE) % WRAP <==> a - b == PIPESIZE
    ensures a % WRAP == b % WRAP <==> a == b
    ensures a % WRAP % PIPESIZE == a % PIPESIZE
    ensures (a % WRAP + 1) % WRAP == (a + 1) % WRAP
  {
    Quotients(a / WRAP, a % WRAP, b / WRAP, b % WRAP);
    WrappedIndex(a);
  }

  lemma Quotients(q: nat, r: nat, p: nat, u: nat)
    requires r < WRAP && u < WRAP && 0 <= (q * WRAP + r) - (p * WRAP + u) <= PIPESIZE
    ensures r == (u + PIPESIZE) % WRAP <==> (q * WRAP + r) - (p * WRAP + u) == PIPESIZE
    ensures r == u <==> q * WRAP + r == p * WRAP + u
  {
    assert q == p || q == p + 1;
    assert (u + PIPESIZE) % WRAP == if u + PIPESIZE < WRAP then u + PIPESIZE else u + PIPESIZE - WRAP;
  }

  lemma WrappedIndex(a: nat)
    ensures a % WRAP % PIPESIZE == a % PIPESIZE && (a % WRAP + 1) % WRAP == (a + 1) % WRAP
  {
    var q, r := a / WRAP, a % WRAP;
    RingRemainder(WRAP / PIPESIZE * q, r);
    if r + 1 < WRAP {
      Remainder(q, r + 1);
    } else {
      Remainder(q + 1, 0);
    }
  }

  lemma Remainder(q: nat, r: nat)
    requires r < WRAP
    ensures (q * WRAP + r) % WRAP == r
  {
  }

  lemma RingRemainder(m: nat, r: nat)
    ensures (PIPESIZE * m + r) % PIPESIZE == r % PIPESIZE
  {
  }

  /** Unread bytes sit at their index modulo the ring's size. */
  ghost predicate InRing(data: seq<Byte>, written: seq<Byte>, lo: int) {
    |data| == PIPESIZE && 0 <= lo <= |written| && forall k :: lo <= k < |written| ==> data[k % PIPESIZE] == written[k]
  }

  lemma RingGet(data: seq<Byte>, written: seq<Byte>, lo: nat)
    requires InRing(data, written, lo) && lo < |written|
    ensures |data| == PIPESIZE && data[lo % PIPESIZE] == written[lo]
    ensures InRing(data, written, lo + 1)
  {
  }

  lemma RingPut(data: seq<Byte>, written: seq<Byte>, lo: int, x: Byte)
    requires InRing(data, written, lo) && |written| - lo < PIPESIZE
    ensures InRing(data[|written| % PIPESIZE := x], written + [x], lo)
  {
    forall k | lo <= k < |written|
      ensures k % PIPESIZE != |written| % PIPESIZE
    {
      ModApart(k, |written|);
    }
  }

  lemma ModApart(a: nat, b: nat)
    requires a < b < a + PIPESIZE
    ensures a % 512 != b % 512
  {
    assert a == a / 512 * 512 + a % 512 && b == b / 512 * 512 + b % 512;
  }

  lemma InvParts(s: State)
    requires Inv(s)
    ensures 0 <= s.Count() <= PIPESIZE && s.read == s.written[..|s.read|]
  {
  }

  lemma InvWritten(s: State, more: seq<Byte>)
    requires Inv(s) && s.Count() + |more| <= PIPESIZE
    ensures Inv(s.(written := s.written + more))
  {
    assert (s.written + more)[..|s.read|] == s.written[..|s.read|];
  }

  lemma InvRead(s: State, k: nat)
    requires Inv(s) && k <= s.Count()
    ensures Inv(s.(read := s.read + s.written[|s.read|..|s.read| + k]))
  {
    assert s.read + s.written[|s.read|..|s.read| + k] == s.written[..|s.read| + k];
  }

  /** Once both ends are closed nobody is in a call, and nobody can start one. */
  lemma ClosedUnused(s: State, step: Step)
    requires Inv(s) && !s.readopen && !s.writeopen
    ensures NoReaders(s.threads) && NoWriters(s.threads)
    ensures Enabled(s, step) ==> step.Kill?
  {
  }

  datatype Outcome = Done(n: nat) | Failed | Slept

  class Buffer {
    const data: array<Byte>
    var nread: Uint
    var nwrite: Uint
    var readopen: bool
    var writeopen: bool
    /** The pipe's page went back to kalloc. */
    var freed: bool

    /** What the process table knows about the processes at this pipe. */
    var threads: seq<Thread>
    var killed: seq<bool>

    ghost var written: seq<Byte>
    ghost var read: seq<Byte>

    ghost function View(): State
      reads this
    {
      State(written, read, readopen, writeopen, threads, killed)
    }

    ghost predicate Valid()
      reads this, data
    {
      && data.Length == PIPESIZE && Inv(View())
      && (freed <==> !readopen && !writeopen)
      && nread == |read| % WRAP && nwrite == |written| % WRAP
      && InRing(data[..], written, |read|)
    }

    /** pipealloc. */
    constructor (nthreads: nat)
      ensures Valid() && Start(View()) && |threads| == nthreads && fresh(data)
    {
      data := new Byte[PIPESIZE](i => 0);
      nread, nwrite, readopen, writeopen, freed := 0, 0, true, true, false;
      threads, killed := Idles(nthreads), Falses(nthreads);
      written, read := [], [];
    }

    /** pipewrite's copying, from byte start of buf on, until done or full. */
    method CopyIn(buf: seq<Byte>, start: nat) returns (i: nat)
      requires Valid() && start <= |buf| && writeopen
      modifies this`nwrite, this`written, data
      ensures Valid() && start <= i && i - start == Min(|buf| - start, PIPESIZE - old(View()).Count())
      ensures written == old(written) + buf[start..i]
    {
      hide InRing, Inv;
      i := start;
      InvParts(View());
      while i < |buf|
        invariant start <= i <= |buf| && i - start <= PIPESIZE - old(View()).Count()
        invariant written == old(written) + buf[start..i] && 0 <= |written| - |read| <= PIPESIZE
        invariant nread == |read| % WRAP && nwrite == |written| % WRAP && InRing(data[..], written, |read|)
      {
        Wrapped(|written|, |read|);
        if nwrite == (nread + PIPESIZE) % WRAP {
          break;
        }
        WrappedIndex(|written|);
        RingPut(data[..], written, |read|, buf[i]);
        data[nwrite % PIPESIZE] := buf[i];
        nwrite := (nwrite + 1) % WRAP;
        written := written + [buf[i]];
        assert buf[start..i + 1] == buf[start..i] + [buf[i]];
        i := i + 1;
      }
      InvWritten(old(View()), buf[start..i]);
    }

    /** pipewrite, from byte start of buf on. */
    method Write(t: nat, buf: seq<Byte>, start: nat) returns (r: Outcome)
      requires Valid() && t < |threads| && start <= |buf| && writeopen && !threads[t].Reader?
      modifies this`nwrite, this`written, this`threads, data
      ensures Valid() && View() == WriteFrom(old(View()), t, buf, start)
      ensures r == if threads[t].Writer? then Slept
                   else if |written| - |old(written)| == |buf| - start then Done(|buf|) else Failed
      ensures var room, left := PIPESIZE - (|old(written)| - |read|), |buf| - start;
        && written == old(written) + buf[start..start + if left <= room then left else room]
        && r == (if left <= room then Done(|buf|) else if !readopen || killed[t] then Failed else Slept)
        && threads[t] == (if r == Slept then Writer(buf, start + room, true) else Idle)
      ensures forall i :: 0 <= i < |threads| && i != t ==>
        threads[i] == if r != Failed && old(threads)[i].Reader? then Reader(old(threads)[i].n, false)
                      else old(threads)[i]
    {
      hide InRing;
      WriteKeeps(View(), t, buf, start);
      var i := CopyIn(buf, start);
      hide NoReaders, NoWriters;
      r := Settle(t, buf, i);
    }

    /** The rest of pipewrite once it has copied the bytes up to i. */
    method Settle(t: nat, buf: seq<Byte>, i: nat) returns (r: Outcome)
      requires t < |threads| == |killed| && i <= |buf|
      modifies this`threads
      ensures r == if i == |buf| then Done(|buf|) else if !readopen || killed[t] then Failed else Slept
      ensures threads == (if r == Failed then old(threads) else ReadersWoken(old(threads)))
        [t := if r == Slept then Writer(buf, i, true) else Idle]
    {
      if i < |buf| {
        if !readopen || killed[t] {
          threads := threads[t := Idle];
          return Failed;
        }
        threads := ReadersWoken(threads)[t := Writer(buf, i, true)];
        return Slept;
      }
      threads := ReadersWoken(threads)[t := Idle];
      return Done(|buf|);
    }

    /** piperead's copying, until n bytes or empty. */
    method CopyOut(n: nat) returns (got: seq<Byte>)
      requires Valid()
      modifies this`nread, this`read
      ensures Valid() && |got| == Min(n, old(View()).Count())
      ensures read == old(read) + got && got == written[|old(read)|..|old(read)| + |got|]
    {
      hide Inv, InRing;
      got := [];
      InvParts(View());
      ghost var read0 := read;
      while |got| < n
        invariant |got| <= n && |read0| + |got| <= |written| <= |read0| + PIPESIZE
        invariant read == read0 + got && got == written[|read0|..|read0| + |got|]
        invariant nread == |read| % WRAP && nwrite == |written| % WRAP && InRing(data[..], written, |read|)
      {
        Wrapped(|written|, |read|);
        if nread == nwrite {
          break;
        }
        var x := Take();
        got := got + [x];
      }
      InvRead(old(View()), |got|);
    }

    /** The next byte, `p->data[p->nread++ % PIPESIZE]`. */
    method Take() returns (x: Byte)
      requires nread == |read| % WRAP && |read| < |written| && InRing(data[..], written, |read|)
      modifies this`nread, this`read
      ensures x == written[|old(read)|] && read == old(read) + [x]
      ensures nread == |read| % WRAP && InRing(data[..], written, |read|)
    {
      hide InRing;
      WrappedIndex(|read|);
      RingGet(data[..], written, |read|);
      x := data[nread % PIPESIZE];
      nread := (nread + 1) % WRAP;
      read := read + [x];
    }

    /** piperead. */
    method Read(t: nat, n: nat) returns (r: Outcome, got: seq<Byte>)
      requires Valid() && t < |threads| && readopen && !threads[t].Writer?
      modifies this`nread, this`read, this`threads
      ensures Valid() && View() == ReadFrom(old(View()), t, n) && read == old(read) + got
      ensures r == if threads[t].Reader? then Slept
                   else if old(View()).Count() == 0 && writeopen then Failed else Done(|got|)
      ensures var count := |written| - |old(read)|;
        && got == written[|old(read)|..|old(read)| + |got|]
        && (count > 0 || !writeopen ==> r == Done(|got|) && |got| == if n <= count then n else count)
        && (count == 0 && writeopen ==> got == [] && r == if killed[t] then Failed else Slept)
        && threads[t] == (if r == Slept then Reader(n, true) else Idle)
      ensures forall i :: 0 <= i < |threads| && i != t ==>
        threads[i] == if r.Done? && old(threads)[i].Writer? then Writer(old(threads)[i].buf, old(threads)[i].i, false)
                      else old(threads)[i]
    {
      hide InRing;
      got := [];
      Wrapped(|written|, |read|);
      if nread == nwrite && writeopen {
        threads := threads[t := if killed[t] then Idle else Reader(n, true)];
        return if killed[t] then Failed else Slept, got;
      }
      got := CopyOut(n);
      threads := WritersWoken(threads)[t := Idle];
      return Done(|got|), got;
    }

    /** pipeclose: the last end to close gives the page back, which nobody can use by then. */
    method Close(writable: bool)
      requires Valid() && Enabled(View(), if writable then CloseWrite else CloseRead)
      modifies this`readopen, this`writeopen, this`threads, this`freed
      ensures Valid() && View() == Apply(old(View()), if writable then CloseWrite else CloseRead)
      ensures freed <==> !readopen && !writeopen
      ensures freed ==> !old(freed) && NoReaders(threads) && NoWriters(threads)
    {
      if writable {
        writeopen := false;
        threads := ReadersWoken(threads);
      } else {
        readopen := false;
        threads := WritersWoken(threads);
      }
      if !readopen && !writeopen {
        freed := true;
      }
    }
  }

  function Idles(n: nat): (s: seq<Thread>)
    ensures |s| == n && forall i :: 0 <= i < n ==> s[i] == Idle
  {
    if n == 0 then [] else Idles(n - 1) + [Idle]
  }

  function Falses(n: nat): (s: seq<bool>)
    ensures |s| == n && forall i :: 0 <= i < n ==> !s[i]
  {
    if n == 0 then [] else Falses(n - 1) + [false]
  }
}
