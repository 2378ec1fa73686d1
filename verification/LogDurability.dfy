/** Crash safety over whole runs: whatever has happened, recovering the disk now would give
    the initial disk plus exactly the durable transactions' writes. */
module LogDurability {
  import opened Blocks
  import opened Log
  import opened LogSystem

  /** Recovery now would leave home blocks with the durable transactions and nothing else. */
  ghost predicate Durable(g: Geometry, d0: Disk, s: System) {
    && |s.disk| == |d0| && SoundLog(s.disk, g)
    && SameHome(g, Image(d0, s.journal, s.durable), Recovered(s.disk, g))
  }

  /** The cache shows home blocks as image has them; the dirty buffers are the logged ones. */
  ghost predicate Shows(g: Geometry, image: Disk, blocks: seq<Uint>, d: Disk, dirty: map<nat, Block>) {
    && |d| == |image|
    && (forall b :: b in dirty <==> b in blocks)
    && (forall a {:trigger View(d, dirty, a)} :: 0 <= a < |d| && !InLog(g, a) ==> View(d, dirty, a) == image[a])
  }

  /** disk is what the first writes of the commit of blocks have made of base. */
  ghost predicate CommitAt(g: Geometry, base: Disk, pinned: map<nat, Block>, blocks: seq<Uint>,
                           script: seq<Write>, done: nat, disk: Disk) {
    && SoundLog(base, g) && HeaderN(base[g.start]) == 0 && Loggable(blocks, g, base)
    && script == CommitWrites(base, pinned, g, blocks)
    && done <= |script|
    && disk == Apply(base, script[..done])
  }

  ghost predicate RecoverAt(g: Geometry, base: Disk, script: seq<Write>, done: nat, disk: Disk) {
    && SoundLog(base, g)
    && script == RecoveryWrites(base, g)
    && done <= |script|
    && disk == Apply(base, script[..done])
  }

  /** The dirty buffers that the writes so far have not reached. */
  ghost predicate Unreached(dirty: map<nat, Block>, blocks: seq<Uint>, ws: seq<Write>) {
    && (forall b :: b in dirty ==> b in blocks)
    && (forall b, k :: b in dirty && 0 <= k < |ws| ==> ws[k].at != b)
  }

  ghost predicate RunningInv(g: Geometry, s: System, image: Disk) {
    && SoundLog(s.disk, g) && HeaderN(s.disk[g.start]) == 0 && Loggable(s.blocks, g, s.disk)
    && s.txn !in s.durable
    && Shows(g, image, s.blocks, s.disk, s.dirty)
  }

  ghost predicate CommittingInv(g: Geometry, s: System, before: Disk, image: Disk)
    requires s.phase.Committing?
  {
    var Committing(base, pinned, script, done) := s.phase;
    && CommitAt(g, base, pinned, s.blocks, script, done, s.disk)
    && Shows(g, image, s.blocks, base, pinned)
    && (s.txn in s.durable <==> done > |s.blocks|)
    && (done <= |s.blocks| ==> SameHome(g, before, base))
    && Unreached(s.dirty, s.blocks, script[..done])
  }

  ghost predicate RecoveringInv(g: Geometry, s: System)
    requires s.phase.Recovering?
  {
    && RecoverAt(g, s.phase.base, s.phase.script, s.phase.done, s.disk)
    && s.dirty == map[] && s.blocks == []
  }

  /** The image of the durable transactions together with the current one. */
  function WithCurrent(d0: Disk, s: System): Disk {
    Image(d0, s.journal, s.durable + {s.txn})
  }

  ghost predicate PhaseInv(g: Geometry, d0: Disk, s: System) {
    match s.phase
    case Running => RunningInv(g, s, WithCurrent(d0, s))
    case Committing(_, _, _, _) => CommittingInv(g, s, Image(d0, s.journal, s.durable), WithCurrent(d0, s))
    case Recovering(_, _, _) => RecoveringInv(g, s)
  }

  ghost predicate DurableInv(g: Geometry, d0: Disk, s: System) {
    && Durable(g, d0, s)
    && (forall t :: t in s.durable ==> t <= s.txn)
    && PhaseInv(g, d0, s)
  }

  function Written(d: Disk, w: Write): Disk {
    if w.at < |d| then d[w.at := w.data] else d
  }

  lemma ApplyNext(d: Disk, ws: seq<Write>, k: nat)
    requires k < |ws|
    ensures Apply(d, ws[..k + 1]) == Written(Apply(d, ws[..k]), ws[k])
  {
    assert ws[..k + 1][..k] == ws[..k];
  }

  /** With an empty log header, recovery leaves every home block alone. */
  lemma IdleRecovery(d: Disk, g: Geometry)
    requires SoundLog(d, g) && HeaderN(d[g.start]) == 0
    ensures SameHome(g, d, Recovered(d, g))
  {
    RecoveredContents(d, g);
    assert HeaderBlocks(d[g.start]) == [];
    assert InLog(g, g.start);
  }

  lemma CommitAtStart(g: Geometry, base: Disk, pinned: map<nat, Block>, blocks: seq<Uint>)
    requires SoundLog(base, g) && HeaderN(base[g.start]) == 0 && Loggable(blocks, g, base)
    ensures CommitAt(g, base, pinned, blocks, CommitWrites(base, pinned, g, blocks), 0, base)
  {
    ApplyNothing(base, CommitWrites(base, pinned, g, blocks)[..0]);
  }

  lemma CommitAtNext(g: Geometry, base: Disk, pinned: map<nat, Block>, blocks: seq<Uint>,
                     script: seq<Write>, done: nat, disk: Disk)
    requires CommitAt(g, base, pinned, blocks, script, done, disk) && done < |script|
    ensures CommitAt(g, base, pinned, blocks, script, done + 1, Written(disk, script[done]))
  {
    hide SoundLog, Loggable, CommitWrites, Apply;
    ApplyNext(base, script, done);
  }

  lemma RecoverAtNext(g: Geometry, base: Disk, script: seq<Write>, done: nat, disk: Disk)
    requires RecoverAt(g, base, script, done, disk) && done < |script|
    ensures RecoverAt(g, base, script, done + 1, Written(disk, script[done]))
  {
    hide SoundLog, Loggable, RecoveryWrites, Apply;
    ApplyNext(base, script, done);
  }

  lemma UnreachedNext(dirty: map<nat, Block>, blocks: seq<Uint>, ws: seq<Write>, k: nat)
    requires k < |ws| && Unreached(dirty, blocks, ws[..k])
    ensures Unreached(dirty - {ws[k].at}, blocks, ws[..k + 1])
  {
    assert ws[..k + 1] == ws[..k] + [ws[k]];
  }

  lemma SameHomeJoin(g: Geometry, i: Disk, d: Disk, r: Disk)
    requires SameHome(g, i, r) && SameHome(g, d, r)
    ensures SameHome(g, i, d)
  {
    forall a | 0 <= a < |d| && !InLog(g, a)
      ensures d[a] == i[a]
    {
      assert r[a] == d[a];
    }
  }

  lemma SameHomeTrans(g: Geometry, i: Disk, d: Disk, r: Disk)
    requires SameHome(g, i, d) && SameHome(g, d, r)
    ensures SameHome(g, i, r)
  {
    forall a | 0 <= a < |r| && !InLog(g, a)
      ensures r[a] == i[a]
    {
      assert d[a] == i[a];
    }
  }

  /** Before its commit point a commit recovers to base, after it to the image it showed. */
  lemma CommitAtRecovers(g: Geometry, base: Disk, pinned: map<nat, Block>, blocks: seq<Uint>,
                         script: seq<Write>, done: nat, disk: Disk, image: Disk)
    requires CommitAt(g, base, pinned, blocks, script, done, disk)
    requires Shows(g, image, blocks, base, pinned)
    ensures |disk| == |base| && SoundLog(disk, g)
    ensures SameHome(g, if done <= |blocks| then base else image, Recovered(disk, g))
  {
    hide Loggable, CommitWrites, Apply, Recovered, HeaderBlocks;
    CrashAtomic(base, pinned, g, blocks, done, []);
    assert AfterCrashes(disk, g, []) == disk;
    if done > |blocks| {
      forall a | 0 <= a < |base| && !InLog(g, a)
        ensures Recovered(disk, g)[a] == image[a]
      {
        assert Recovered(disk, g)[a] == View(base, pinned, a);
      }
    }
  }

  // ---- every step keeps the invariant ----

  lemma AppendLoggable(g: Geometry, s: System, step: Step)
    requires step.Append? && Enabled(g, s, step)
    requires Loggable(s.blocks, g, s.disk) && GroupInv(s) && !Overrun(g, Exec(g, s, step))
    ensures Loggable(Absorb(s.blocks, step.at), g, s.disk)
  {
    hide Unused, MustPanic, Unsplit;
    var r := Exec(g, s, step);
    ReservedStep(g, s, step);
    UnusedBounds(r.open);
  }

  lemma ShowsAppend(g: Geometry, image: Disk, blocks: seq<Uint>, d: Disk, dirty: map<nat, Block>, at: Uint, data: Block)
    requires Shows(g, image, blocks, d, dirty) && at < |d|
    ensures Shows(g, image[at := data], Absorb(blocks, at), d, dirty[at as nat := data])
  {
    var dirty' := dirty[at as nat := data];
    forall a | 0 <= a < |d| && !InLog(g, a)
      ensures View(d, dirty', a) == image[at := data][a]
    {
      assert View(d, dirty, a) == image[a];
    }
  }

  lemma AppendKeeps(g: Geometry, d0: Disk, s: System, step: Step)
    requires step.Append? && Enabled(g, s, step)
    requires DurableInv(g, d0, s) && GroupInv(s) && !Overrun(g, Exec(g, s, step))
    ensures DurableInv(g, d0, Exec(g, s, step))
  {
    hide Recovered, Image, Unused, MustPanic, Shows, SameHome, SoundLog, Loggable, InLog, Fits;
    var o := s.open[step.op];
    var e := Entry(o.id, o.txn, step.at, step.data);
    ImageAppend(d0, s.journal, e, s.durable);
    ImageAppend(d0, s.journal, e, s.durable + {s.txn});
    AppendLoggable(g, s, step);
    ShowsAppend(g, WithCurrent(d0, s), s.blocks, s.disk, s.dirty, step.at, step.data);
  }

  lemma EndKeeps(g: Geometry, d0: Disk, s: System, step: Step)
    requires step.End? && Enabled(g, s, step)
    requires DurableInv(g, d0, s)
    ensures DurableInv(g, d0, Exec(g, s, step))
  {
    hide CommitWrites, Image, Recovered, InLog, Loggable, View, SameHome, HeaderBlocks, CommitAt;
    var r := Exec(g, s, step);
    if r.phase.Committing? {
      IdleRecovery(s.disk, g);
      SameHomeJoin(g, Image(d0, s.journal, s.durable), s.disk, Recovered(s.disk, g));
      CommitAtStart(g, s.disk, s.dirty, s.blocks);
    }
  }

  lemma CommitWriteKeeps(g: Geometry, d0: Disk, s: System)
    requires s.phase.Committing? && Enabled(g, s, WriteNext)
    requires DurableInv(g, d0, s)
    ensures DurableInv(g, d0, Exec(g, s, WriteNext))
  {
    hide CommitWrites, CommitAt, Shows, SameHome, Unreached, Image, Recovered, HeaderBlocks, Loggable;
    var Committing(base, pinned, script, done) := s.phase;
    var r := Exec(g, s, WriteNext);
    assert s.durable + {s.txn} == r.durable + {r.txn};
    CommitAtNext(g, base, pinned, s.blocks, script, done, s.disk);
    CommitAtRecovers(g, base, pinned, s.blocks, script, done + 1, r.disk, WithCurrent(d0, s));
    UnreachedNext(s.dirty, s.blocks, script, done);
    if done + 1 <= |s.blocks| {
      SameHomeTrans(g, Image(d0, r.journal, r.durable), base, Recovered(r.disk, g));
    } else {
      assert r.durable == s.durable + {s.txn};
    }
  }

  lemma RecoverWriteKeeps(g: Geometry, d0: Disk, s: System)
    requires s.phase.Recovering? && Enabled(g, s, WriteNext)
    requires DurableInv(g, d0, s)
    ensures DurableInv(g, d0, Exec(g, s, WriteNext))
  {
    hide RecoveryWrites, RecoverAt, SameHome, Image, Recovered, HeaderBlocks, Loggable;
    var Recovering(base, script, done) := s.phase;
    var r := Exec(g, s, WriteNext);
    RecoverAtNext(g, base, script, done, s.disk);
    RecoverAtSame(g, base, script, done, s.disk);
    RecoverAtSame(g, base, script, done + 1, r.disk);
  }

  lemma RecoverAtSame(g: Geometry, base: Disk, script: seq<Write>, done: nat, disk: Disk)
    requires RecoverAt(g, base, script, done, disk)
    ensures SoundLog(base, g) && SoundLog(disk, g) && Recovered(disk, g) == Recovered(base, g)
    ensures |disk| == |base|
    ensures done == |script| ==> HeaderN(disk[g.start]) == 0
  {
    hide HeaderBlocks, Loggable, InstallWrites;
    RecoveryRestart(base, g, done);
    if done == |script| {
      assert script[..done] == script;
      RecoveredContents(base, g);
    }
  }

  lemma CommitDone(g: Geometry, base: Disk, pinned: map<nat, Block>, blocks: seq<Uint>,
                   script: seq<Write>, disk: Disk, dirty: map<nat, Block>)
    requires CommitAt(g, base, pinned, blocks, script, |script|, disk) && Unreached(dirty, blocks, script)
    ensures SoundLog(disk, g) && HeaderN(disk[g.start]) == 0 && dirty == map[]
    ensures blocks != [] ==> |script| > |blocks|
  {
    hide HeaderBlocks, Loggable, CommitWrites;
    assert script[..|script|] == script;
    CommitComplete(base, pinned, g, blocks);
    CommitReachesAll(base, pinned, g, blocks);
  }

  lemma CommitReachesAll(d: Disk, pinned: map<nat, Block>, g: Geometry, blocks: seq<Uint>)
    requires Fits(g, d) && Loggable(blocks, g, d)
    ensures blocks != [] ==> |CommitWrites(d, pinned, g, blocks)| > |blocks|
    ensures var ws := CommitWrites(d, pinned, g, blocks);
      forall b :: b in blocks ==> exists k :: 0 <= k < |ws| && ws[k].at == b
  {
    hide Word, Loggable, Distinct, LogWrites, InstallWrites, HeaderPrefix, PutHeader, Apply, View;
    var ws := CommitWrites(d, pinned, g, blocks);
    if blocks != [] {
      LoggedSound(d, pinned, g, blocks);
    }
    forall b | b in blocks
      ensures exists k :: 0 <= k < |ws| && ws[k].at == b
    {
      var i :| 0 <= i < |blocks| && blocks[i] == b;
      assert ws[|blocks| + 1 + i].at == b;
    }
  }

  /** A new transaction starts with nothing logged: the cache shows the durable image. */
  lemma FreshShows(g: Geometry, d: Disk, image: Disk)
    requires SoundLog(d, g) && HeaderN(d[g.start]) == 0
    requires SameHome(g, image, Recovered(d, g))
    ensures Shows(g, image, [], d, map[])
  {
    IdleRecovery(d, g);
    SameHomeJoin(g, image, d, Recovered(d, g));
  }

  lemma FinishKeeps(g: Geometry, d0: Disk, s: System)
    requires Enabled(g, s, Finish)
    requires DurableInv(g, d0, s) && GroupInv(s)
    ensures DurableInv(g, d0, Exec(g, s, Finish))
  {
    hide CommitWrites, CommitAt, RecoverAt, Shows, SameHome, Unreached, Image, Recovered, HeaderBlocks, Loggable,
        Reserved;
    var r := Exec(g, s, Finish);
    ImageIgnores(d0, s.journal, r.durable, r.txn);
    match s.phase {
      case Committing(base, pinned, script, done) =>
        assert script[..done] == script;
        CommitDone(g, base, pinned, s.blocks, script, s.disk, s.dirty);
        assert s.txn in s.durable ==> s.durable + {s.txn} == s.durable;
      case Recovering(base, script, done) =>
        RecoverAtSame(g, base, script, done, s.disk);
    }
    FreshShows(g, r.disk, Image(d0, r.journal, r.durable));
  }

  lemma StepKeeps(g: Geometry, d0: Disk, s: System, step: Step)
    requires Enabled(g, s, step)
    requires DurableInv(g, d0, s) && GroupInv(s) && !Overrun(g, Exec(g, s, step))
    ensures DurableInv(g, d0, Exec(g, s, step))
  {
    match step
    case Append(_, _, _) => AppendKeeps(g, d0, s, step);
    case End(_) => EndKeeps(g, d0, s, step);
    case WriteNext =>
      if s.phase.Committing? { CommitWriteKeeps(g, d0, s); } else { RecoverWriteKeeps(g, d0, s); }
    case Finish => FinishKeeps(g, d0, s);
    case Crash => CrashKeeps(g, d0, s);
    case _ => QuietKeeps(g, d0, s, step);
  }

  lemma CrashKeeps(g: Geometry, d0: Disk, s: System)
    requires Enabled(g, s, Crash) && DurableInv(g, d0, s)
    ensures DurableInv(g, d0, Exec(g, s, Crash))
  {
    hide RecoveryWrites, SameHome, Image, Recovered, HeaderBlocks, Loggable;
    ApplyNothing(s.disk, RecoveryWrites(s.disk, g)[..0]);
  }

  lemma QuietKeeps(g: Geometry, d0: Disk, s: System, step: Step)
    requires Enabled(g, s, step) && DurableInv(g, d0, s)
    requires step.Begin? || step.Check?
    ensures DurableInv(g, d0, Exec(g, s, step))
  {
    hide CommitWrites, CommitAt, Shows, SameHome, Unreached, Image, Recovered, HeaderBlocks, Loggable;
  }

  lemma BootDurable(g: Geometry, d0: Disk)
    requires Start(g, d0)
    ensures DurableInv(g, d0, Boot(d0))
  {
    IdleRecovery(d0, g);
  }

  /** Reachable by a run in which the log never held more blocks than it has room for. */
  ghost predicate Contained(g: Geometry, d0: Disk, s: System, n: nat)
    decreases n
  {
    if n == 0 then s == Boot(d0)
    else exists p: System, step: Step ::
      Contained(g, d0, p, n - 1) && Enabled(g, p, step) && s == Exec(g, p, step) && !Overrun(g, s)
  }

  lemma {:induction false} ContainedReachable(g: Geometry, d0: Disk, s: System, n: nat)
    requires Contained(g, d0, s, n)
    ensures Reachable(g, d0, s, n)
    decreases n
  {
    hide Enabled, Exec;
    if n > 0 {
      var p: System, step: Step :| Contained(g, d0, p, n - 1) && Enabled(g, p, step) && s == Exec(g, p, step)
          && !Overrun(g, s);
      ContainedReachable(g, d0, p, n - 1);
    }
  }

  /** A log of more than LOGSIZE blocks contains every run. */
  lemma {:induction false} AlwaysContained(g: Geometry, d0: Disk, s: System, n: nat)
    requires g.size > LOGSIZE && Reachable(g, d0, s, n)
    ensures Contained(g, d0, s, n)
    decreases n
  {
    hide Enabled, Exec;
    if n > 0 {
      var p: System, step: Step :| Reachable(g, d0, p, n - 1) && Enabled(g, p, step) && s == Exec(g, p, step);
      AlwaysContained(g, d0, p, n - 1);
      GroupInvHolds(g, d0, s, n);
      NoOverrun(g, s);
    }
  }

  lemma NoOverrun(g: Geometry, s: System)
    requires GroupInv(s) && g.size > LOGSIZE
    ensures !Overrun(g, s)
  {
    hide Unused;
    UnusedBounds(s.open);
  }

  lemma {:induction false} DurableHolds(g: Geometry, d0: Disk, s: System, n: nat)
    requires Start(g, d0) && Contained(g, d0, s, n)
    ensures DurableInv(g, d0, s) && GroupInv(s)
    decreases n
  {
    hide Enabled, Exec, DurableInv, GroupInv;
    ContainedReachable(g, d0, s, n);
    GroupInvHolds(g, d0, s, n);
    if n == 0 {
      BootDurable(g, d0);
    } else {
      var p: System, step: Step :| Contained(g, d0, p, n - 1) && Enabled(g, p, step) && s == Exec(g, p, step)
          && !Overrun(g, s);
      DurableHolds(g, d0, p, n - 1);
      StepKeeps(g, d0, p, step);
    }
  }

  // ---- the results, over every run ----

  /** Crash safety: at every moment of every run that the log contains, in the middle of a
      commit or of a recovery too, recovering the disk gives each home block its contents after
      the durable transactions' writes in order, and no other write. */
  lemma CrashSafe(g: Geometry, d0: Disk, s: System, n: nat)
    requires Start(g, d0) && Contained(g, d0, s, n)
    ensures |s.disk| == |d0| && SoundLog(s.disk, g)
    ensures forall a :: 0 <= a < |d0| && !InLog(g, a) ==>
      Recovered(s.disk, g)[a] == Image(d0, s.journal, s.durable)[a]
  {
    DurableHolds(g, d0, s, n);
    hide PhaseInv;
  }

  /** Each operation is durable as a whole or not at all, and not before it has ended. */
  lemma OperationsAtomic(g: Geometry, d0: Disk, s: System, n: nat)
    requires Start(g, d0) && Contained(g, d0, s, n)
    ensures forall i, j :: 0 <= i < |s.journal| && 0 <= j < |s.journal| && s.journal[i].op == s.journal[j].op ==>
      (s.journal[i].txn in s.durable <==> s.journal[j].txn in s.durable)
    ensures forall i, j :: 0 <= i < |s.journal| && 0 <= j < |s.open| && s.journal[i].op == s.open[j].id ==>
      s.journal[i].txn !in s.durable
  {
    hide Durable, Shows, SoundLog, Loggable, Image, Contained;
    DurableHolds(g, d0, s, n);
  }

  /** A commit that finishes with blocks logged has made its transaction durable, and no
      step, a crash included, undoes that. */
  lemma DurabilityLasts(g: Geometry, d0: Disk, s: System, n: nat, step: Step)
    requires Start(g, d0) && Contained(g, d0, s, n) && Enabled(g, s, step)
    ensures s.durable <= Exec(g, s, step).durable
    ensures step.Finish? && s.phase.Committing? && s.blocks != [] ==> s.txn in s.durable
  {
    hide Durable, Shows, SameHome, SoundLog, Loggable, Image, CommitWrites, RecoveryWrites, Contained, Apply, RecoverAt;
    DurableHolds(g, d0, s, n);
    hide Durable, Shows, Unreached, SoundLog, Loggable, Image, CommitWrites, Contained;
    if step.Finish? && s.phase.Committing? && s.blocks != [] {
      assert s.phase.script[..s.phase.done] == s.phase.script;
      CommitDone(g, s.phase.base, s.phase.pinned, s.blocks, s.phase.script, s.disk, s.dirty);
    }
  }

  /** Group commit, for every log size: a commit runs only when no operation is open, logged
      block numbers are distinct, what is logged and what open operations may still log fits
      LOGSIZE, and a process sleeps in begin_op only while begin_op would turn it away. */
  lemma GroupCommit(g: Geometry, d0: Disk, s: System, n: nat)
    requires Reachable(g, d0, s, n)
    ensures s.phase.Committing? ==> s.open == []
    ensures forall i, j :: 0 <= i < j < |s.blocks| ==> s.blocks[i] != s.blocks[j]
    ensures |s.blocks| + Unused(s.open) <= LOGSIZE
    ensures s.asleep != {} ==> s.phase.Committing? || |s.blocks| + (|s.open| + 1) * MAXOPBLOCKS > LOGSIZE
  {
    GroupInvHolds(g, d0, s, n);
    DistinctElements(s.blocks);
  }

  /** Along contained runs a commit can come to want a buffer that pinned blocks leave nowhere, if
      and only if the log has more than LOGSIZE blocks. */
  lemma StarvesIff(size: nat)
    ensures size > LOGSIZE <==>
      exists d0: Disk, start: nat, s: System, n: nat ::
        Contained(Geometry(start, size), d0, s, n) && |s.blocks| >= NBUF && Starved(s)
  {
    hide Reachable, Contained, Starved, Loggable, SoundLog;
    if size > LOGSIZE {
      var s, n := StarvedReachable(size);
      AlwaysContained(After64(size), Blank(size), s, n);
      assert Contained(Geometry(64, size), Blank(size), s, n);
    } else {
      forall d0: Disk, start: nat, s: System, n: nat | Contained(Geometry(start, size), d0, s, n)
        ensures |s.blocks| < NBUF
      {
        ContainedBlocks(Geometry(start, size), d0, s, n);
      }
    }
  }

  lemma ContainedBlocks(g: Geometry, d0: Disk, s: System, n: nat)
    requires Contained(g, d0, s, n)
    ensures s.blocks == [] || |s.blocks| < g.size
  {
  }
}
