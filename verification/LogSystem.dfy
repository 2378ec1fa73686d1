/** Runs of the whole log: file-system operations that begin, log blocks and end in any
    interleaving, the commits that end a group of them block write by block write, power
    failures at any point, and recoveries that may fail again. */
module LogSystem {
  import opened Blocks
  import opened Log
  import opened Sets

  /** An open operation: its identity, the transaction it began in, how many blocks it has
      added to the log, and whether it is between log_write's unlocked test and its append. */
  datatype Op = Op(id: nat, txn: nat, used: nat, checked: bool)

  /** One completed log_write. */
  datatype Entry = Entry(op: nat, txn: nat, at: nat, data: Block)

  /** A commit or recovery in progress has made the first `done` writes of its script. */
  datatype Phase =
    | Running
    | Committing(base: Disk, pinned: map<nat, Block>, script: seq<Write>, done: nat)
    | Recovering(base: Disk, script: seq<Write>, done: nat)

  /** The machine, and a history: every log_write so far and the transactions that have
      passed their commit point. */
  datatype System = System(
    disk: Disk,
    dirty: map<nat, Block>,
    blocks: seq<Uint>,
    open: seq<Op>,
    asleep: set<nat>,
    phase: Phase,
    txn: nat,
    nextOp: nat,
    journal: seq<Entry>,
    durable: set<nat>)

  datatype Step =
    | Begin(pid: nat)
    | Check(op: nat)
    | Append(op: nat, at: Uint, data: Block)
    | End(op: nat)
    | WriteNext
    | Finish
    | Crash

  function Boot(d: Disk): System {
    System(d, map[], [], [], {}, Running, 0, 0, [], {})
  }

  predicate CommitRunning(s: System) { s.phase.Committing? }

  ghost predicate Enabled(g: Geometry, s: System, step: Step) {
    match step
    case Begin(pid) => !s.phase.Recovering? && pid !in s.asleep
    case Check(i) => s.phase.Running? && i < |s.open| && !MustPanic(|s.blocks|, |s.open|, g.size)
    case Append(i, at, data) =>
      && s.phase.Running? && i < |s.open| && s.open[i].checked
      && at < |s.disk| && !InLog(g, at)
      && (at in s.blocks || s.open[i].used < MAXOPBLOCKS)
    case End(i) =>
      && s.phase.Running? && i < |s.open| && !s.open[i].checked
      && (|s.open| == 1 ==> Fits(g, s.disk) && Loggable(s.blocks, g, s.disk))
    case WriteNext => !s.phase.Running? && s.phase.done < |s.phase.script|
    case Finish => !s.phase.Running? && s.phase.done == |s.phase.script|
    case Crash => SoundLog(s.disk, g)
  }

  ghost function Exec(g: Geometry, s: System, step: Step): System
    requires Enabled(g, s, step)
  {
    match step
    case Begin(pid) =>
      if CanBegin(|s.blocks|, |s.open|, CommitRunning(s)) then
        s.(open := s.open + [Op(s.nextOp, s.txn, 0, false)], nextOp := s.nextOp + 1)
      else
        s.(asleep := s.asleep + {pid})
    case Check(i) => s.(open := s.open[i := s.open[i].(checked := true)])
    case Append(i, at, data) =>
      var o := s.open[i];
      var used := if at in s.blocks then o.used else o.used + 1;
      s.(blocks := Absorb(s.blocks, at),
         dirty := s.dirty[at as nat := data],
         open := s.open[i := o.(used := used, checked := false)],
         journal := s.journal + [Entry(o.id, o.txn, at, data)])
    case End(i) =>
      var open := s.open[..i] + s.open[i+1..];
      if open == [] then
        var script := CommitWrites(s.disk, s.dirty, g, s.blocks);
        s.(open := [], phase := Committing(s.disk, s.dirty, script, 0))
      else s.(open := open, asleep := {})
    case WriteNext =>
      var w := s.phase.script[s.phase.done];
      var d := if w.at < |s.disk| then s.disk[w.at := w.data] else s.disk;
      var commitPoint := CommitRunning(s) && s.phase.done == |s.blocks|;
      s.(disk := d, dirty := s.dirty - {w.at}, phase := s.phase.(done := s.phase.done + 1),
         durable := if commitPoint then s.durable + {s.txn} else s.durable)
    case Finish =>
      s.(blocks := [], asleep := {}, phase := Running, txn := s.txn + 1)
    case Crash =>
      s.(dirty := map[], blocks := [], open := [], asleep := {},
          phase := Recovering(s.disk, RecoveryWrites(s.disk, g), 0))
  }

  /** s is the state after some n steps from a disk whose log is empty. */
  ghost predicate Reachable(g: Geometry, d0: Disk, s: System, n: nat)
    decreases n
  {
    if n == 0 then s == Boot(d0)
    else exists p: System, step: Step :: Reachable(g, d0, p, n - 1) && Enabled(g, p, step) && s == Exec(g, p, step)
  }

  ghost predicate Start(g: Geometry, d0: Disk) {
    SoundLog(d0, g) && HeaderN(d0[g.start]) == 0
  }

  // ---- what the disk should hold ----

  /** d0 after every log_write, in order, of the transactions in txns. */
  function Image(d0: Disk, journal: seq<Entry>, txns: set<nat>): (d: Disk)
    ensures |d| == |d0|
  {
    if journal == [] then d0
    else
      var p := Image(d0, journal[..|journal|-1], txns);
      var e := journal[|journal|-1];
      if e.txn in txns && e.at < |d0| then p[e.at := e.data] else p
  }

  lemma {:induction false} ImageIgnores(d0: Disk, journal: seq<Entry>, txns: set<nat>, t: nat)
    requires forall i :: 0 <= i < |journal| ==> journal[i].txn != t
    ensures Image(d0, journal, txns + {t}) == Image(d0, journal, txns)
  {
    if journal != [] {
      ImageIgnores(d0, journal[..|journal|-1], txns, t);
    }
  }

  lemma ImageAppend(d0: Disk, journal: seq<Entry>, e: Entry, txns: set<nat>)
    requires e.at < |d0|
    ensures Image(d0, journal + [e], txns)
         == if e.txn in txns then Image(d0, journal, txns)[e.at := e.data] else Image(d0, journal, txns)
  {
    assert (journal + [e])[..|journal|] == journal;
  }

  // ---- the reservation ----

  /** What the open operations may still add to the log. */
  function Unused(open: seq<Op>): int {
    if open == [] then 0
    else Unused(open[..|open|-1]) + MAXOPBLOCKS - open[|open|-1].used
  }

  lemma UnusedNone()
    ensures Unused([]) == 0
  {
  }

  lemma UnusedPush(open: seq<Op>, o: Op)
    ensures Unused(open + [o]) == Unused(open) + MAXOPBLOCKS - o.used
  {
    assert (open + [o])[..|open|] == open;
  }

  lemma {:induction false} UnusedUpdate(open: seq<Op>, i: nat, o: Op)
    requires i < |open|
    ensures Unused(open[i := o]) == Unused(open) + open[i].used - o.used
  {
    var k := |open| - 1;
    if i == k {
      assert open[i := o][..k] == open[..k];
    } else {
      UnusedUpdate(open[..k], i, o);
      assert open[i := o][..k] == open[..k][i := o];
    }
  }

  lemma {:induction false} UnusedRemove(open: seq<Op>, i: nat)
    requires i < |open|
    ensures Unused(open[..i] + open[i+1..]) == Unused(open) - MAXOPBLOCKS + open[i].used
  {
    var k := |open| - 1;
    if i == k {
      assert open[..i] + open[i+1..] == open[..k];
    } else {
      UnusedRemove(open[..k], i);
      var r := open[..i] + open[i+1..];
      assert r[..|r|-1] == open[..k][..i] + open[..k][i+1..];
    }
  }

  lemma {:induction false} UnusedBounds(open: seq<Op>)
    requires forall i :: 0 <= i < |open| ==> open[i].used <= MAXOPBLOCKS
    ensures 0 <= Unused(open) <= MAXOPBLOCKS * |open|
    ensures forall i :: 0 <= i < |open| ==> MAXOPBLOCKS - open[i].used <= Unused(open)
  {
    if open != [] {
      UnusedBounds(open[..|open|-1]);
    }
  }

  // ---- group commit, for any log size ----

  /** The reservation, and what commits and sleepers may coincide with. */
  ghost predicate Reserved(s: System) {
    && (forall i :: 0 <= i < |s.open| ==> s.open[i].used <= MAXOPBLOCKS)
    && |s.blocks| + Unused(s.open) <= LOGSIZE
    && Distinct(s.blocks)
    && (!s.phase.Running? ==> s.open == [])
    && (s.asleep != {} ==> !CanBegin(|s.blocks|, |s.open|, CommitRunning(s)))
  }

  /** Every open operation began in the current transaction, and all writes of one operation
      are in one transaction. */
  ghost predicate Unsplit(s: System) {
    && (forall i :: 0 <= i < |s.open| ==> s.open[i].txn == s.txn && s.open[i].id < s.nextOp)
    && (forall i :: 0 <= i < |s.journal| ==> s.journal[i].txn <= s.txn && s.journal[i].op < s.nextOp)
    && (forall i, j :: 0 <= i < |s.journal| && 0 <= j < |s.open| && s.journal[i].op == s.open[j].id ==>
          s.journal[i].txn == s.txn)
    && (forall i, j :: 0 <= i < |s.journal| && 0 <= j < |s.journal| && s.journal[i].op == s.journal[j].op ==>
          s.journal[i].txn == s.journal[j].txn)
  }

  ghost predicate GroupInv(s: System) {
    Reserved(s) && Unsplit(s)
  }

  /** begin_op opens an operation exactly when no commit runs and its budget still fits, whatever is
      logged and open; otherwise the process sleeps and nothing else changes. */
  lemma Admission(g: Geometry, s: System, pid: nat)
    requires Enabled(g, s, Begin(pid))
    ensures var s' := Exec(g, s, Begin(pid));
      var fits := !s.phase.Committing? && |s.blocks| + (|s.open| + 1) * MAXOPBLOCKS <= LOGSIZE;
      && |s'.open| == |s.open| + (if fits then 1 else 0) && s'.open[..|s.open|] == s.open
      && (fits ==> s'.asleep == s.asleep && s'.open[|s.open|].used == 0 && s'.open[|s.open|].txn == s.txn)
      && (!fits ==> s' == s.(asleep := s.asleep + {pid}))
      && s'.blocks == s.blocks && s'.disk == s.disk && s'.dirty == s.dirty && s'.phase == s.phase
  {
    hide CommitWrites, RecoveryWrites;
  }

  lemma ReservedBegin(g: Geometry, s: System, pid: nat)
    requires Reserved(s) && Enabled(g, s, Begin(pid))
    ensures Reserved(Exec(g, s, Begin(pid)))
  {
    hide Unused, MustPanic, CommitWrites, RecoveryWrites;
    UnusedBounds(s.open);
    UnusedPush(s.open, Op(s.nextOp, s.txn, 0, false));
  }

  lemma ReservedAppend(g: Geometry, s: System, step: Step)
    requires step.Append? && Reserved(s) && Enabled(g, s, step)
    ensures Reserved(Exec(g, s, step))
  {
    hide Unused, MustPanic, CommitWrites, RecoveryWrites;
    var o := s.open[step.op];
    DistinctAbsorb(s.blocks, step.at);
    UnusedUpdate(s.open, step.op, o.(used := if step.at in s.blocks then o.used else o.used + 1, checked := false));
  }

  lemma ReservedStep(g: Geometry, s: System, step: Step)
    requires Reserved(s) && Enabled(g, s, step)
    ensures Reserved(Exec(g, s, step))
  {
    hide Unused, SoundLog, CommitWrites, RecoveryWrites;
    match step
    case Begin(pid) => ReservedBegin(g, s, pid);
    case Check(i) =>
      UnusedUpdate(s.open, i, s.open[i].(checked := true));
    case Append(i, at, data) => ReservedAppend(g, s, step);
    case End(i) =>
      UnusedRemove(s.open, i);
    case WriteNext =>
    case Finish =>
      assert Unused([]) == 0 by { UnusedNone(); }
    case Crash =>
      assert Unused([]) == 0 by { UnusedNone(); }
  }

  lemma UnsplitStep(g: Geometry, s: System, step: Step)
    requires Unsplit(s) && Enabled(g, s, step)
    requires !s.phase.Running? ==> s.open == []
    ensures Unsplit(Exec(g, s, step))
  {
    hide Unused, MustPanic, CanBegin, SoundLog, CommitWrites, RecoveryWrites;
  }

  lemma {:induction false} GroupInvHolds(g: Geometry, d0: Disk, s: System, n: nat)
    requires Reachable(g, d0, s, n)
    ensures GroupInv(s)
    decreases n
  {
    hide Enabled, Exec, Reserved, Unsplit;
    if n == 0 {
      BootGroup(d0);
    } else {
      var p: System, step: Step :| Reachable(g, d0, p, n - 1) && Enabled(g, p, step) && s == Exec(g, p, step);
      GroupInvHolds(g, d0, p, n - 1);
      ReservedStep(g, p, step);
      assert !p.phase.Running? ==> p.open == [] by { CommitMeansIdle(p); }
      UnsplitStep(g, p, step);
    }
  }

  lemma CommitMeansIdle(s: System)
    requires Reserved(s)
    ensures !s.phase.Running? ==> s.open == []
  {
  }

  lemma BootGroup(d0: Disk)
    ensures GroupInv(Boot(d0))
  {
  }

  // ---- the panic test, for any log size ----

  /** Operation i, not in log_write now, may log block at: one already logged costs it nothing. */
  ghost predicate Legal(g: Geometry, s: System, i: nat, at: Uint) {
    && s.phase.Running? && i < |s.open| && !s.open[i].checked
    && at < |s.disk| && !InLog(g, at)
    && (at in s.blocks || s.open[i].used < MAXOPBLOCKS)
  }

  /** log_write panics on a write that its operation was entitled to. */
  ghost predicate Panics(g: Geometry, s: System) {
    MustPanic(|s.blocks|, |s.open|, g.size) && exists i: nat, at: Uint :: Legal(g, s, i, at)
  }

  /** It does so to an operation that has budget left. */
  ghost predicate PanicsEarly(g: Geometry, s: System) {
    && MustPanic(|s.blocks|, |s.open|, g.size)
    && exists i: nat, at: Uint :: Legal(g, s, i, at) && s.open[i].used < MAXOPBLOCKS
  }

  /** Two operations that both passed the unlocked test can fill the log past its end. */
  ghost predicate Overrun(g: Geometry, s: System) {
    |s.blocks| > g.size - 1
  }

  /** The log of the witness runs: 64 home blocks come before it. */
  function After64(size: nat): Geometry { Geometry(64, size) }

  ghost function Blank(size: nat): Disk {
    seq(64 + size, _ => ZERO)
  }

  /** Three open operations that have logged k blocks in turn. */
  function Three(k: nat): seq<Op> {
    [Op(0, 0, (k + 2) / 3, false), Op(1, 0, (k + 1) / 3, false), Op(2, 0, k / 3, false)]
  }

  /** Three operations open and k blocks logged. */
  ghost predicate Filled(size: nat, s: System, k: nat) {
    && s.phase.Running? && s.disk == Blank(size) && s.asleep == {}
    && k <= 30 && s.open == Three(k)
    && |s.blocks| == k && (forall i :: 0 <= i < k ==> s.blocks[i] == i)
    && s.dirty.Keys == Below(k)
  }

  lemma Then(g: Geometry, d0: Disk, s: System, n: nat, step: Step)
    requires Reachable(g, d0, s, n) && Enabled(g, s, step)
    ensures Reachable(g, d0, Exec(g, s, step), n + 1)
  {
  }

  lemma AtBoot(g: Geometry, d0: Disk)
    ensures Reachable(g, d0, Boot(d0), 0)
  {
  }

  lemma Admit(g: Geometry, d0: Disk, s: System, n: nat)
    requires Reachable(g, d0, s, n)
    requires s.phase.Running? && s.blocks == [] && s.asleep == {} && |s.open| < 3
    ensures Reachable(g, d0, s.(open := s.open + [Op(s.nextOp, s.txn, 0, false)], nextOp := s.nextOp + 1), n + 1)
  {
    hide Reachable;
    Then(g, d0, s, n, Begin(0));
  }

  lemma FillStart(size: nat) returns (s: System, n: nat)
    ensures Reachable(After64(size), Blank(size), s, n) && Filled(size, s, 0)
  {
    hide Reachable;
    var g := After64(size);
    n := 3;
    s := Boot(Blank(size));
    AtBoot(g, Blank(size));
    for i := 0 to 3
      invariant Reachable(g, Blank(size), s, i)
      invariant s == Boot(Blank(size)).(open := Three(0)[..i], nextOp := i)
    {
      Admit(g, Blank(size), s, i);
      s := s.(open := s.open + [Op(s.nextOp, s.txn, 0, false)], nextOp := s.nextOp + 1);
    }
  }

  lemma {:induction false} Fill(size: nat, k: nat) returns (s: System, n: nat)
    requires k == 0 || (k <= size - 1 && k <= LOGSIZE)
    ensures Reachable(After64(size), Blank(size), s, n) && Filled(size, s, k)
  {
    hide Reachable, Filled;
    if k == 0 {
      s, n := FillStart(size);
    } else {
      s, n := Fill(size, k - 1);
      s, n := FillOne(size, k - 1, s, n);
    }
  }

  lemma FillOne(size: nat, k: nat, s: System, n: nat) returns (r: System, m: nat)
    requires k < size - 1 && k < LOGSIZE
    requires Reachable(After64(size), Blank(size), s, n) && Filled(size, s, k)
    ensures Reachable(After64(size), Blank(size), r, m) && Filled(size, r, k + 1)
  {
    hide Reachable, Enabled, Exec, Filled;
    var g := After64(size);
    FillSteps(size, k, s);
    Then(g, Blank(size), s, n, Check(k % 3));
    r := Exec(g, s, Check(k % 3));
    Then(g, Blank(size), r, n + 1, Append(k % 3, k, ZERO));
    r, m := Exec(g, r, Append(k % 3, k, ZERO)), n + 2;
  }

  lemma FillSteps(size: nat, k: nat, s: System)
    requires k < size - 1 && k < LOGSIZE && Filled(size, s, k)
    ensures var g, check, step := After64(size), Check(k % 3), Append(k % 3, k, ZERO);
      && Enabled(g, s, check) && Enabled(g, Exec(g, s, check), step)
      && Filled(size, Exec(g, Exec(g, s, check), step), k + 1)
  {
    hide SoundLog, Loggable, CommitWrites, RecoveryWrites, Below;
    FewerThree(k);
    assert Below(k) + {k} == Below(k + 1);
  }

  /** The next block goes to operation k % 3, which has budget left. */
  lemma FewerThree(k: nat)
    requires k < 30
    ensures Three(k)[k % 3].used < MAXOPBLOCKS
    ensures Three(k + 1) == Three(k)[k % 3 := Three(k)[k % 3].(used := Three(k)[k % 3].used + 1)]
  {
  }

  /** The panic test spares every operation with budget left, whatever the interleaving, if and
      only if the log has more than LOGSIZE blocks; mkfs makes it exactly LOGSIZE. */
  lemma BudgetSparedIff(size: nat)
    ensures size > LOGSIZE <==>
      forall d0: Disk, start: nat, s: System, n: nat ::
        Reachable(Geometry(start, size), d0, s, n) ==> !PanicsEarly(Geometry(start, size), s)
  {
    hide Reachable, PanicsEarly, Filled;
    if size > LOGSIZE {
      forall d0: Disk, start: nat, s: System, n: nat | Reachable(Geometry(start, size), d0, s, n)
        ensures !PanicsEarly(Geometry(start, size), s)
      {
        GroupInvHolds(Geometry(start, size), d0, s, n);
        BudgetSpared(Geometry(start, size), s);
      }
    } else {
      var k := if size == 0 then 0 else size - 1;
      var s, n := Fill(size, k);
      FilledPanics(size, s, k);
    }
  }

  lemma BudgetSpared(g: Geometry, s: System)
    requires g.size > LOGSIZE && GroupInv(s)
    ensures !PanicsEarly(g, s)
  {
    UnusedBounds(s.open);
  }

  /** A witness run at the point of the panic: with budget left the next block is a new one. */
  lemma FilledPanics(size: nat, s: System, k: nat)
    requires Filled(size, s, k) && (k >= size - 1 || k == LOGSIZE)
    ensures Panics(After64(size), s) && (k < LOGSIZE ==> PanicsEarly(After64(size), s))
  {
    if k < LOGSIZE {
      assert s.open[2].used < MAXOPBLOCKS && Legal(After64(size), s, 2, 63);
    } else {
      assert s.blocks[0] == 0 && Legal(After64(size), s, 0, 0);
    }
  }

  /** Every block in the log's list is a home block of the disk. */
  ghost predicate Homes(g: Geometry, s: System) {
    forall i :: 0 <= i < |s.blocks| ==> s.blocks[i] < |s.disk| && !InLog(g, s.blocks[i])
  }

  lemma {:induction false} HomesHold(g: Geometry, d0: Disk, s: System, n: nat)
    requires Reachable(g, d0, s, n)
    ensures Homes(g, s)
    decreases n
  {
    hide Enabled, Exec;
    if n > 0 {
      var p: System, step: Step :| Reachable(g, d0, p, n - 1) && Enabled(g, p, step) && s == Exec(g, p, step);
      HomesHold(g, d0, p, n - 1);
      HomesStep(g, p, step);
    }
  }

  lemma HomesStep(g: Geometry, s: System, step: Step)
    requires Homes(g, s) && Enabled(g, s, step)
    ensures Homes(g, Exec(g, s, step))
  {
    hide MustPanic, CanBegin, SoundLog, Loggable, CommitWrites, RecoveryWrites;
  }

  /** With such a log the panic that is left hits exactly the operations that have spent their
      budgets: it comes when LOGSIZE blocks are logged and an operation logs one of them again,
      because the test is made before the search that would absorb the write. */
  lemma PanicsExactly(g: Geometry, d0: Disk, s: System, n: nat)
    requires g.size > LOGSIZE && Reachable(g, d0, s, n)
    ensures Panics(g, s) <==>
              s.phase.Running? && |s.blocks| == LOGSIZE && exists i :: 0 <= i < |s.open| && !s.open[i].checked
    ensures Panics(g, s) ==>
              && (forall i :: 0 <= i < |s.open| ==> s.open[i].used == MAXOPBLOCKS)
              && (forall i: nat, at: Uint {:trigger Legal(g, s, i, at)} :: Legal(g, s, i, at) ==> at in s.blocks)
  {
    GroupInvHolds(g, d0, s, n);
    UnusedBounds(s.open);
    HomesHold(g, d0, s, n);
    if s.phase.Running? && |s.blocks| == LOGSIZE && exists i :: 0 <= i < |s.open| && !s.open[i].checked {
      var i :| 0 <= i < |s.open| && !s.open[i].checked;
      assert Legal(g, s, i, s.blocks[0]);
    }
  }

  /** No log size avoids that panic. */
  lemma NoSizeIsPanicFree(size: nat) returns (s: System, n: nat)
    ensures Reachable(After64(size), Blank(size), s, n) && Panics(After64(size), s)
  {
    hide Reachable, Filled, Panics;
    var k := if size == 0 then 0 else if size - 1 <= LOGSIZE then size - 1 else LOGSIZE;
    s, n := Fill(size, k);
    FilledPanics(size, s, k);
  }

  /** A log of one block has room for nothing, and every log_write panics. */
  ghost predicate Untouched(s: System) {
    s.blocks == [] && forall i :: 0 <= i < |s.open| ==> !s.open[i].checked
  }

  lemma {:induction false} OneBlockLog(g: Geometry, d0: Disk, s: System, n: nat)
    requires g.size == 1 && Reachable(g, d0, s, n)
    ensures Untouched(s)
    decreases n
  {
    hide Enabled, Exec;
    if n > 0 {
      var p: System, step: Step :| Reachable(g, d0, p, n - 1) && Enabled(g, p, step) && s == Exec(g, p, step);
      OneBlockLog(g, d0, p, n - 1);
      UntouchedStep(g, p, step);
    }
  }

  lemma UntouchedStep(g: Geometry, s: System, step: Step)
    requires g.size == 1 && Untouched(s) && Enabled(g, s, step)
    ensures Untouched(Exec(g, s, step))
  {
    hide CanBegin, SoundLog, Loggable, CommitWrites, RecoveryWrites;
  }

  /** The log always keeps within its own blocks if and only if it has more than LOGSIZE of
      them, or a single one: the test is made before log.lock is taken, so two operations can
      pass it together. */
  lemma NoOverrunIff(size: nat)
    ensures size > LOGSIZE || size == 1 <==>
      forall d0: Disk, start: nat, s: System, n: nat ::
        Reachable(Geometry(start, size), d0, s, n) ==> !Overrun(Geometry(start, size), s)
  {
    hide Reachable, Filled;
    if size > LOGSIZE || size == 1 {
      forall d0: Disk, start: nat, s: System, n: nat | Reachable(Geometry(start, size), d0, s, n)
        ensures !Overrun(Geometry(start, size), s)
      {
        if size == 1 {
          OneBlockLog(Geometry(start, size), d0, s, n);
        } else {
          GroupInvHolds(Geometry(start, size), d0, s, n);
          UnusedBounds(s.open);
        }
      }
    } else if size == 0 {
      AtBoot(After64(size), Blank(size));
      assert Reachable(Geometry(64, size), Blank(size), Boot(Blank(size)), 0);
      assert Overrun(After64(size), Boot(Blank(size)));
    } else {
      var s, n := Fill(size, size - 2);
      var r, m := FillTwo(size, size - 2, s, n);
      assert Overrun(After64(size), r);
    }
  }

  lemma FillTwo(size: nat, k: nat, s: System, n: nat) returns (r: System, m: nat)
    requires size <= LOGSIZE && k == size - 2
    requires Reachable(After64(size), Blank(size), s, n) && Filled(size, s, k)
    ensures Reachable(After64(size), Blank(size), r, m) && |r.blocks| == k + 2
  {
    hide Reachable, Enabled, Exec, Filled;
    var g, i, j := After64(size), k % 3, (k + 1) % 3;
    TwoChecks(size, k, s);
    Then(g, Blank(size), s, n, Check(i));
    r := Exec(g, s, Check(i));
    Then(g, Blank(size), r, n + 1, Check(j));
    r := Exec(g, r, Check(j));
    TwoAppends(size, k, r);
    Then(g, Blank(size), r, n + 2, Append(i, k, ZERO));
    r := Exec(g, r, Append(i, k, ZERO));
    Then(g, Blank(size), r, n + 3, Append(j, k + 1, ZERO));
    r, m := Exec(g, r, Append(j, k + 1, ZERO)), n + 4;
  }

  /** Operations i and j have both passed the test with k blocks logged. */
  ghost predicate BothChecked(size: nat, s: System, k: nat) {
    && s.phase.Running? && s.disk == Blank(size) && |s.open| == 3 && |s.blocks| == k
    && (forall i :: 0 <= i < k ==> s.blocks[i] == i)
    && s.open[k % 3].checked && s.open[k % 3].used < MAXOPBLOCKS
    && s.open[(k + 1) % 3].checked && s.open[(k + 1) % 3].used < MAXOPBLOCKS
  }

  lemma TwoChecks(size: nat, k: nat, s: System)
    requires size <= LOGSIZE && k == size - 2 && Filled(size, s, k)
    ensures var g, first, second := After64(size), Check(k % 3), Check((k + 1) % 3);
      && Enabled(g, s, first) && Enabled(g, Exec(g, s, first), second)
      && BothChecked(size, Exec(g, Exec(g, s, first), second), k)
  {
  }

  lemma TwoAppends(size: nat, k: nat, s: System)
    requires size <= LOGSIZE && k == size - 2 && BothChecked(size, s, k)
    ensures var g, first, second := After64(size), Append(k % 3, k, ZERO), Append((k + 1) % 3, k + 1, ZERO);
      && Enabled(g, s, first) && Enabled(g, Exec(g, s, first), second)
      && |Exec(g, Exec(g, s, first), second).blocks| == k + 2
  {
  }

  // ---- a commit without buffers ----

  /** The last operation is about to end with as many blocks pinned as there are buffers, so that
      commit's first bread finds none: with NBUF blocks pinned KernelLog.Commit writes nothing. */
  ghost predicate Starved(s: System) {
    && s.phase.Running? && |s.open| == 1 && !s.open[0].checked
    && s.blocks != [] && |s.dirty.Keys| >= NBUF && forall i :: 0 <= i < |s.blocks| ==> s.blocks[i] as nat in s.dirty
  }

  /** NBUF is no more than LOGSIZE, so a log with room for LOGSIZE blocks lets it come to that. */
  lemma StarvedReachable(size: nat) returns (s: System, n: nat)
    requires size > LOGSIZE
    ensures Reachable(After64(size), Blank(size), s, n) && Starved(s) && |s.blocks| == NBUF
  {
    hide Reachable, Enabled, Exec, Filled, Starved;
    var g := After64(size);
    s, n := Fill(size, NBUF);
    TwoEnd(size, s);
    Then(g, Blank(size), s, n, End(0));
    s := Exec(g, s, End(0));
    Then(g, Blank(size), s, n + 1, End(0));
    s, n := Exec(g, s, End(0)), n + 2;
  }

  lemma TwoEnd(size: nat, s: System)
    requires Filled(size, s, NBUF)
    ensures var g := After64(size);
      && Enabled(g, s, End(0)) && Enabled(g, Exec(g, s, End(0)), End(0))
      && Starved(Exec(g, Exec(g, s, End(0)), End(0))) && |Exec(g, Exec(g, s, End(0)), End(0)).blocks| == NBUF
  {
  }
}
