/** Processes (kernel/proc.c and the timer case of kernel/trap.c) as a state machine. A step is
    what one processor does while it holds ptable.lock, or one unlocked write of fork to the slot
    it is filling; the state between steps is what others see when the lock is free. A process
    that runs may take any step at any time, so every interleaving is a run. */
module Proc {

  const NOBODY := -1

  datatype Status = UNUSED | EMBRYO | SLEEPING | RUNNABLE | RUNNING | ZOMBIE

  /** What a process sleeps on: itself, in wait, or anything else. */
  datatype Chan = None | Self(slot: int) | Other(id: nat)

  /** A slot of the table. stage and maker say how far which process's fork has filled it:
      0 after allocproc's locked part, 1 once the times are set, 2 once the parent is. */
  datatype Process = Process(state: Status, pid: nat, parent: int, chan: Chan, killed: bool,
                             ctime: int, ttime: int, retime: int, rutime: int, stime: int,
                             stage: nat, maker: int)
  {
    predicate Alive() { state == SLEEPING || state == RUNNABLE || state == RUNNING }

    predicate InWait(i: int) { state == SLEEPING && chan == Self(i) }
  }

  datatype State = State(ps: seq<Process>, init: nat, nextpid: nat, ticks: nat,
                         slot: map<nat, nat>, returned: set<nat>)

  // ---- what holds whenever the lock is free ----

  ghost predicate ParentOk(ps: seq<Process>, init: nat, i: nat)
    requires i < |ps|
  {
    var p := ps[i];
    if p.state == UNUSED then p.parent == NOBODY
    else if p.state == EMBRYO then
      0 <= p.maker < |ps| && ps[p.maker].Alive() && p.stage <= 2 && p.parent == if p.stage == 2 then p.maker else NOBODY
    else if i == init then p.Alive() && p.parent == NOBODY
    else 0 <= p.parent < |ps| && p.parent != i && ps[p.parent].Alive()
  }

  /** Live non-init processes have a parent that is neither a zombie nor gone. */
  ghost predicate ParentsOk(ps: seq<Process>, init: nat) {
    init < |ps| && ps[init].Alive() && forall i :: 0 <= i < |ps| ==> ParentOk(ps, init, i)
  }

  /** Nobody sleeps in wait while a child is a zombie: no exit is missed. */
  ghost predicate WaitersOk(ps: seq<Process>) {
    forall j :: 0 <= j < |ps| && ps[j].state == ZOMBIE && 0 <= ps[j].parent < |ps| ==>
        !ps[ps[j].parent].InWait(ps[j].parent)
  }

  /** slot remembers who got each pid: live pids are distinct, and none was returned by wait. A
      failed fork leaves its pid in the unused slot. */
  ghost predicate PidsOk(ps: seq<Process>, nextpid: nat, slot: map<nat, nat>, returned: set<nat>) {
    && (forall i :: 0 <= i < |ps| && ps[i].state != UNUSED ==>
          ps[i].pid in slot && slot[ps[i].pid] == i && ps[i].pid !in returned)
    && (forall i :: 0 <= i < |ps| && ps[i].state == UNUSED && ps[i].pid != 0 ==>
        ps[i].pid in slot && slot[ps[i].pid] == i)
    && (forall pid :: pid in slot ==> 0 < pid < nextpid)
    && (forall pid :: pid in returned ==> pid in slot)
  }

  ghost predicate TimeOk(p: Process, ticks: nat) {
    p.state != UNUSED && (p.state == EMBRYO ==> p.stage >= 1) ==>
      && 0 <= p.ctime && 0 <= p.rutime && 0 <= p.stime
      && (if p.state == ZOMBIE then p.ctime + p.rutime + p.stime <= p.ttime <= ticks
          else p.ctime + p.rutime + p.stime <= ticks)
  }

  /** Each tick went to at most one of a process's counters. */
  ghost predicate TimesOk(ps: seq<Process>, ticks: nat) {
    forall i :: 0 <= i < |ps| ==> TimeOk(ps[i], ticks)
  }

  ghost predicate Inv(s: State) {
    && ParentsOk(s.ps, s.init) && WaitersOk(s.ps)
    && PidsOk(s.ps, s.nextpid, s.slot, s.returned) && TimesOk(s.ps, s.ticks)
  }

  // ---- the steps ----

  datatype Step =
    | Alloc(me: nat)
    | GiveUp(me: nat, i: nat)
    | SetTimes(me: nat, i: nat)
    | SetParent(me: nat, i: nat)
    | Launch(me: nat, i: nat)
    | Exit(me: nat)
    | Wait(me: nat, stat: bool)
    | Sleep(me: nat, id: nat)
    | Wakeup(id: nat)
    | Kill(pid: nat)
    | Fault(me: nat)
    | Schedule(i: nat)
    | Yield(me: nat)
    | Tick(cur: int)

  function Woken(ps: seq<Process>, chan: Chan): (r: seq<Process>)
    ensures |r| == |ps| && forall i :: 0 <= i < |ps| ==> r[i] == Wake(ps[i], chan)
  {
    seq(|ps|, i requires 0 <= i < |ps| => Wake(ps[i], chan))
  }

  function Wake(p: Process, chan: Chan): Process {
    if p.state == SLEEPING && p.chan == chan then p.(state := RUNNABLE) else p
  }

  /** The first slot from k on that is UNUSED, or the table's length. */
  function FirstUnused(ps: seq<Process>, k: nat): (i: nat)
    requires k <= |ps|
    ensures k <= i <= |ps| && (i < |ps| ==> ps[i].state == UNUSED) && forall j :: k <= j < i ==> ps[j].state != UNUSED
    decreases |ps| - k
  {
    if k == |ps| || ps[k].state == UNUSED then k else FirstUnused(ps, k + 1)
  }

  /** The first zombie child of me from k on, or the table's length. */
  function FirstZombie(ps: seq<Process>, me: int, k: nat): (i: nat)
    requires k <= |ps|
    ensures k <= i <= |ps| && (i < |ps| ==> ps[i].state == ZOMBIE && ps[i].parent == me)
    ensures forall j :: k <= j < i ==> !(ps[j].state == ZOMBIE && ps[j].parent == me)
    decreases |ps| - k
  {
    if k == |ps| || (ps[k].parent == me && ps[k].state == ZOMBIE) then k else FirstZombie(ps, me, k + 1)
  }

  predicate HasKids(ps: seq<Process>, me: int) { exists i :: 0 <= i < |ps| && ps[i].parent == me }

  predicate HasZombie(ps: seq<Process>, me: int) {
    exists i :: 0 <= i < |ps| && ps[i].parent == me && ps[i].state == ZOMBIE
  }

  /** One slot after me's exit. */
  function AfterExit(p: Process, i: int, me: int, init: int, parent: int, zombies: bool, ticks: int): Process {
    var w := Wake(p, Self(parent));
    var v := if zombies then Wake(w, Self(init)) else w;
    var u := if v.parent == me then v.(parent := init) else v;
    if i == me then u.(state := ZOMBIE, ttime := ticks) else u
  }

  function Exited(ps: seq<Process>, me: nat, init: nat, ticks: nat): (r: seq<Process>)
    requires me < |ps|
    ensures |r| == |ps|
    ensures forall i :: 0 <= i < |ps| ==> r[i] == AfterExit(ps[i], i, me, init, ps[me].parent, HasZombie(ps, me), ticks)
  {
    seq(|ps|, i requires 0 <= i < |ps| => AfterExit(ps[i], i, me, init, ps[me].parent, HasZombie(ps, me), ticks))
  }

  /** A slot given back by wait, or by wait_stat, which also clears the termination time. */
  function Reaped(p: Process, stat: bool): Process {
    p.(state := UNUSED, pid := 0, parent := NOBODY, killed := false, ttime := if stat then 0 else p.ttime)
  }

  /** The slot kill finds: the first with that pid. */
  function FirstPid(ps: seq<Process>, pid: nat, k: nat): (i: nat)
    requires k <= |ps|
    ensures k <= i <= |ps| && (i < |ps| ==> ps[i].pid == pid) && forall j :: k <= j < i ==> ps[j].pid != pid
    decreases |ps| - k
  {
    if k == |ps| || ps[k].pid == pid then k else FirstPid(ps, pid, k + 1)
  }

  function Killed(p: Process): Process {
    p.(killed := true, state := if p.state == SLEEPING then RUNNABLE else p.state)
  }

  /** The timer interrupt's charge to the current process. */
  function Charged(p: Process): Process {
    if p.state == RUNNING then p.(rutime := p.rutime + 1)
    else if p.state == RUNNABLE then p.(retime := p.retime + 1)
    else if p.state == SLEEPING then p.(stime := p.stime + 1)
    else p
  }

  predicate Runs(ps: seq<Process>, me: nat) { me < |ps| && ps[me].state == RUNNING }

  /** me's fork is filling slot i and has got to stage. */
  predicate Filling(ps: seq<Process>, me: nat, i: nat, stage: nat) {
    Runs(ps, me) && i < |ps| && ps[i].state == EMBRYO && ps[i].maker == me && ps[i].stage == stage
  }

  predicate InFork(ps: seq<Process>, me: nat) {
    exists i :: 0 <= i < |ps| && ps[i].state == EMBRYO && ps[i].maker == me
  }

  /** Which steps a state allows. */
  predicate Enabled(s: State, step: Step) {
    match step
    case Alloc(me) => Runs(s.ps, me)
    case GiveUp(me, i) => Filling(s.ps, me, i, 0) || Filling(s.ps, me, i, 1)
    case SetTimes(me, i) => Filling(s.ps, me, i, 0)
    case SetParent(me, i) => Filling(s.ps, me, i, 1)
    case Launch(me, i) => Filling(s.ps, me, i, 2)
    case Exit(me) => Runs(s.ps, me) && me != s.init && !InFork(s.ps, me)
    case Wait(me, _) => Runs(s.ps, me) && !InFork(s.ps, me)
    case Sleep(me, _) => Runs(s.ps, me)
    case Wakeup(_) => true
    case Kill(_) => true
    case Fault(me) => Runs(s.ps, me)
    case Schedule(i) => i < |s.ps| && s.ps[i].state == RUNNABLE
    case Yield(me) => Runs(s.ps, me)
    case Tick(_) => true
  }

  function Apply(s: State, step: Step): State
    requires Enabled(s, step)
  {
    var ps := s.ps;
    match step
    case Alloc(me) =>
      var i := FirstUnused(ps, 0);
      if i == |ps| then s else
        s.(ps := ps[i := ps[i].(state := EMBRYO, pid := s.nextpid, stage := 0, maker := me)],
           nextpid := s.nextpid + 1, slot := s.slot[s.nextpid := i])
    case GiveUp(_, i) => s.(ps := ps[i := ps[i].(state := UNUSED)])
    case SetTimes(_, i) =>
      s.(ps := ps[i := ps[i].(ctime := s.ticks, ttime := 0, retime := 0, rutime := 0, stime := 0, stage := 1)])
    case SetParent(me, i) => s.(ps := ps[i := ps[i].(parent := me, stage := 2)])
    case Launch(_, i) => s.(ps := ps[i := ps[i].(state := RUNNABLE)])
    case Exit(me) => s.(ps := Exited(ps, me, s.init, s.ticks))
    case Wait(me, stat) =>
      var i := FirstZombie(ps, me, 0);
      if i < |ps| then s.(ps := ps[i := Reaped(ps[i], stat)], returned := s.returned + {ps[i].pid})
      else if !HasKids(ps, me) || ps[me].killed then s
      else s.(ps := ps[me := ps[me].(state := SLEEPING, chan := Self(me))])
    case Sleep(me, id) => s.(ps := ps[me := ps[me].(state := SLEEPING, chan := Other(id))])
    case Wakeup(id) => s.(ps := Woken(ps, Other(id)))
    case Kill(pid) =>
      var i := FirstPid(ps, pid, 0);
      if i < |ps| then s.(ps := ps[i := Killed(ps[i])]) else s
    case Fault(me) => s.(ps := ps[me := ps[me].(killed := true)])
    case Schedule(i) => s.(ps := ps[i := ps[i].(state := RUNNING)])
    case Yield(me) => s.(ps := ps[me := ps[me].(state := RUNNABLE, retime := s.ticks)])
    case Tick(cur) =>
      s.(ticks := s.ticks + 1, ps := if 0 <= cur < |ps| then ps[cur := Charged(ps[cur])] else ps)
  }

  // ---- every step keeps the invariant ----

  /** Steps that change one slot, and not whether it is alive or whose child it is. */
  lemma QuietParents(ps: seq<Process>, init: nat, i: nat, p: Process)
    requires ParentsOk(ps, init) && i < |ps|
    requires p.parent == ps[i].parent && p.maker == ps[i].maker && p.stage == ps[i].stage
    requires p.Alive() && ps[i].Alive()
    ensures ParentsOk(ps[i := p], init)
  {
    var r := ps[i := p];
    forall j | 0 <= j < |r|
      ensures ParentOk(r, init, j)
    {
      assert ParentOk(ps, init, j) && ParentOk(ps, init, i);
    }
  }

  /** Changing one slot that is not alive. */
  lemma SlotParents(ps: seq<Process>, init: nat, i: nat, p: Process)
    requires ParentsOk(ps, init) && i < |ps| && !ps[i].Alive() && ParentOk(ps[i := p], init, i)
    ensures ParentsOk(ps[i := p], init)
  {
    var r := ps[i := p];
    forall j | 0 <= j < |r|
      ensures ParentOk(r, init, j)
    {
      assert ParentOk(ps, init, j);
    }
  }

  lemma QuietWaiters(ps: seq<Process>, i: nat, p: Process)
    requires WaitersOk(ps) && i < |ps| && p.state != ZOMBIE
    requires p.InWait(i) ==> forall j :: 0 <= j < |ps| ==> !(ps[j].state == ZOMBIE && ps[j].parent == i)
    ensures WaitersOk(ps[i := p])
  {
  }

  lemma SlotPids(ps: seq<Process>, nextpid: nat, slot: map<nat, nat>, returned: set<nat>, i: nat, p: Process)
    requires PidsOk(ps, nextpid, slot, returned) && i < |ps|
    requires p.pid == ps[i].pid || (p.state == UNUSED && p.pid == 0)
    requires p.state == UNUSED || ps[i].state != UNUSED
    ensures PidsOk(ps[i := p], nextpid, slot, returned)
  {
  }

  lemma SlotTimes(ps: seq<Process>, ticks: nat, i: nat, p: Process)
    requires TimesOk(ps, ticks) && i < |ps| && TimeOk(p, ticks)
    ensures TimesOk(ps[i := p], ticks)
  {
  }

  /** A new process gets a pid that nobody has or had. */
  lemma AllocKeeps(s: State, me: nat)
    requires Inv(s) && Enabled(s, Alloc(me))
    ensures Inv(Apply(s, Alloc(me)))
  {
    var i := FirstUnused(s.ps, 0);
    if i < |s.ps| {
      assert ParentOk(s.ps, s.init, i);
      var p := s.ps[i].(state := EMBRYO, pid := s.nextpid, stage := 0, maker := me);
      SlotParents(s.ps, s.init, i, p);
      QuietWaiters(s.ps, i, p);
      SlotTimes(s.ps, s.ticks, i, p);
    }
  }

  /** fork's own writes to the slot it fills. */
  lemma ForkKeeps(s: State, step: Step)
    requires Inv(s) && Enabled(s, step) && (step.GiveUp? || step.SetTimes? || step.SetParent? || step.Launch?)
    ensures Inv(Apply(s, step))
  {
    var i := step.i;
    var p := Apply(s, step).ps[i];
    assert ParentOk(s.ps, s.init, i) && TimeOk(s.ps[i], s.ticks);
    assert Apply(s, step).ps == s.ps[i := p];
    SlotParents(s.ps, s.init, i, p);
    QuietWaiters(s.ps, i, p);
    SlotPids(s.ps, s.nextpid, s.slot, s.returned, i, p);
    SlotTimes(s.ps, s.ticks, i, p);
  }

  lemma ExitKeeps(s: State, me: nat)
    requires Inv(s) && Enabled(s, Exit(me))
    ensures Inv(Apply(s, Exit(me)))
  {
    ExitParents(s.ps, s.init, me, s.ticks);
    ExitWaiters(s.ps, s.init, me, s.ticks);
    var r := Exited(s.ps, me, s.init, s.ticks);
    forall i | 0 <= i < |r|
      ensures TimeOk(r[i], s.ticks)
      ensures r[i].pid == s.ps[i].pid && (r[i].state != UNUSED ==> s.ps[i].state != UNUSED)
    {
      assert TimeOk(s.ps[i], s.ticks);
      ExitSlot(s.ps, s.init, me, s.ticks, i);
    }
    hide ParentsOk, WaitersOk, Exited;
  }

  lemma ExitSlot(ps: seq<Process>, init: nat, me: nat, ticks: nat, i: nat)
    requires Runs(ps, me) && i < |ps| && TimeOk(ps[i], ticks)
    ensures var r := Exited(ps, me, init, ticks);
      TimeOk(r[i], ticks) && r[i].pid == ps[i].pid && (r[i].state != UNUSED ==> ps[i].state != UNUSED)
  {
  }

  /** Exit gives every child to init, so the new zombie has none. */
  lemma ExitParents(ps: seq<Process>, init: nat, me: nat, ticks: nat)
    requires ParentsOk(ps, init) && Runs(ps, me) && me != init && !InFork(ps, me)
    ensures ParentsOk(Exited(ps, me, init, ticks), init)
  {
    forall i | 0 <= i < |ps|
      ensures ParentOk(Exited(ps, me, init, ticks), init, i)
    {
      ExitParent(ps, init, me, ticks, i);
    }
    hide Exited, ParentOk;
  }

  lemma ExitParent(ps: seq<Process>, init: nat, me: nat, ticks: nat, i: nat)
    requires ParentsOk(ps, init) && Runs(ps, me) && me != init && !InFork(ps, me) && i < |ps|
    ensures ParentOk(Exited(ps, me, init, ticks), init, i)
  {
    assert ParentOk(ps, init, i) && ParentOk(ps, init, me);
    ExitFields(ps, init, me, ticks, i);
    ExitFields(ps, init, me, ticks, init);
    if 0 <= ps[i].parent < |ps| { ExitFields(ps, init, me, ticks, ps[i].parent); }
    if 0 <= ps[i].maker < |ps| { ExitFields(ps, init, me, ticks, ps[i].maker); }
    hide ParentsOk, Exited;
  }

  lemma ExitFields(ps: seq<Process>, init: nat, me: nat, ticks: nat, i: nat)
    requires Runs(ps, me) && i < |ps|
    ensures var p, r := ps[i], Exited(ps, me, init, ticks)[i];
      && r.parent == (if p.parent == me then init else p.parent) && r.maker == p.maker && r.stage == p.stage
      && (if i == me then r.state == ZOMBIE else r.state == p.state || (p.state == SLEEPING && r.state == RUNNABLE))
  {
  }

  /** Exit wakes the parent, and init when it inherits a zombie. */
  lemma ExitWaiters(ps: seq<Process>, init: nat, me: nat, ticks: nat)
    requires ParentsOk(ps, init) && WaitersOk(ps) && Runs(ps, me) && me != init
    ensures WaitersOk(Exited(ps, me, init, ticks))
  {
    var r := Exited(ps, me, init, ticks);
    forall j | 0 <= j < |r| && r[j].state == ZOMBIE && 0 <= r[j].parent < |r|
      ensures !r[r[j].parent].InWait(r[j].parent)
    {
      ExitWaiter(ps, init, me, ticks, j);
    }
    hide ParentsOk, Exited;
  }

  /** Whoever would have to see the zombie j has been woken. */
  lemma ExitWaiter(ps: seq<Process>, init: nat, me: nat, ticks: nat, j: nat)
    requires ParentsOk(ps, init) && WaitersOk(ps) && Runs(ps, me) && me != init && j < |ps|
    ensures var r := Exited(ps, me, init, ticks);
      r[j].state == ZOMBIE && 0 <= r[j].parent < |r| ==> !r[r[j].parent].InWait(r[j].parent)
  {
    assert ParentOk(ps, init, j);
    hide ParentsOk;
    if j != me && ps[j].parent == me && ps[j].state == ZOMBIE {
      assert HasZombie(ps, me);
    }
  }

  /** wait reaps one zombie child, or sleeps only when there is none. */
  lemma WaitKeeps(s: State, me: nat, stat: bool)
    requires Inv(s) && Enabled(s, Wait(me, stat))
    ensures Inv(Apply(s, Wait(me, stat)))
  {
    var i := FirstZombie(s.ps, me, 0);
    if i < |s.ps| {
      assert ParentOk(s.ps, s.init, i);
      var p := Reaped(s.ps[i], stat);
      SlotParents(s.ps, s.init, i, p);
      QuietWaiters(s.ps, i, p);
      SlotTimes(s.ps, s.ticks, i, p);
    } else if HasKids(s.ps, me) && !s.ps[me].killed {
      var p := s.ps[me].(state := SLEEPING, chan := Self(me));
      AliveKeeps(s, me, p);
    }
  }

  /** A live process changes its state or its counters and stays alive. */
  lemma AliveKeeps(s: State, i: nat, p: Process)
    requires Inv(s) && i < |s.ps| && s.ps[i].Alive() && p.Alive()
    requires p.parent == s.ps[i].parent && p.maker == s.ps[i].maker && p.stage == s.ps[i].stage && p.pid == s.ps[i].pid
    requires p.InWait(i) ==> s.ps[i].InWait(i) || FirstZombie(s.ps, i, 0) == |s.ps|
    requires TimeOk(p, s.ticks)
    ensures Inv(s.(ps := s.ps[i := p]))
  {
    QuietParents(s.ps, s.init, i, p);
    QuietWaiters(s.ps, i, p);
    SlotPids(s.ps, s.nextpid, s.slot, s.returned, i, p);
    SlotTimes(s.ps, s.ticks, i, p);
  }

  lemma WakeupKeeps(s: State, id: nat)
    requires Inv(s)
    ensures Inv(Apply(s, Wakeup(id)))
  {
    var r := Woken(s.ps, Other(id));
    forall i | 0 <= i < |r|
      ensures ParentOk(r, s.init, i) && TimeOk(r[i], s.ticks)
    {
      assert ParentOk(s.ps, s.init, i) && TimeOk(s.ps[i], s.ticks);
    }
    forall j | 0 <= j < |r| && r[j].state == ZOMBIE && 0 <= r[j].parent < |r|
      ensures !r[r[j].parent].InWait(r[j].parent)
    {
      assert s.ps[j].state == ZOMBIE;
    }
  }

  /** kill finds the one live process with the pid, or a slot that is no process. */
  lemma KillKeeps(s: State, pid: nat)
    requires Inv(s) && Enabled(s, Kill(pid))
    ensures Inv(Apply(s, Kill(pid)))
  {
    var i := FirstPid(s.ps, pid, 0);
    if i < |s.ps| {
      var p := Killed(s.ps[i]);
      assert TimeOk(s.ps[i], s.ticks);
      if s.ps[i].Alive() {
        AliveKeeps(s, i, p);
      } else {
        assert ParentOk(s.ps, s.init, i);
        SlotParents(s.ps, s.init, i, p);
        SlotPids(s.ps, s.nextpid, s.slot, s.returned, i, p);
        SlotTimes(s.ps, s.ticks, i, p);
      }
    }
  }

  lemma TickKeeps(s: State, cur: int)
    requires Inv(s)
    ensures Inv(Apply(s, Tick(cur)))
  {
    var t := s.(ticks := s.ticks + 1);
    forall i | 0 <= i < |s.ps|
      ensures TimeOk(s.ps[i], t.ticks)
    {
      assert TimeOk(s.ps[i], s.ticks);
    }
    if 0 <= cur < |s.ps| && s.ps[cur].Alive() {
      assert TimeOk(s.ps[cur], s.ticks);
      AliveKeeps(t, cur, Charged(s.ps[cur]));
    } else if 0 <= cur < |s.ps| {
      assert s.ps[cur := Charged(s.ps[cur])] == s.ps;
    }
  }

  lemma StepKeeps(s: State, step: Step)
    requires Inv(s) && Enabled(s, step)
    ensures Inv(Apply(s, step))
  {
    match step {
      case Alloc(me) => AllocKeeps(s, me);
      case GiveUp(_, _) => ForkKeeps(s, step);
      case SetTimes(_, _) => ForkKeeps(s, step);
      case SetParent(_, _) => ForkKeeps(s, step);
      case Launch(_, _) => ForkKeeps(s, step);
      case Exit(me) => ExitKeeps(s, me);
      case Wait(me, stat) => WaitKeeps(s, me, stat);
      case Sleep(me, id) =>
        assert TimeOk(s.ps[me], s.ticks);
        AliveKeeps(s, me, s.ps[me].(state := SLEEPING, chan := Other(id)));
      case Wakeup(id) => WakeupKeeps(s, id);
      case Kill(pid) => KillKeeps(s, pid);
      case Fault(me) =>
        assert TimeOk(s.ps[me], s.ticks);
        AliveKeeps(s, me, s.ps[me].(killed := true));
      case Schedule(i) =>
        assert TimeOk(s.ps[i], s.ticks);
        AliveKeeps(s, i, s.ps[i].(state := RUNNING));
      case Yield(me) =>
        assert TimeOk(s.ps[me], s.ticks);
        AliveKeeps(s, me, s.ps[me].(state := RUNNABLE, retime := s.ticks));
      case Tick(cur) => TickKeeps(s, cur);
    }
  }

  // ---- every run ----

  /** The table after userinit: one process, which is init. */
  predicate Start(s: State) {
    && |s.ps| > 0 && s.init == 0 && s.nextpid == 2 && s.slot == map[1 := 0] && s.returned == {}
    && s.ps[0].state == RUNNABLE && s.ps[0].pid == 1 && s.ps[0].parent == NOBODY
    && s.ps[0].rutime == 0 && s.ps[0].stime == 0 && 0 <= s.ps[0].ctime <= s.ticks
    && forall i :: 0 < i < |s.ps| ==> s.ps[i].state == UNUSED && s.ps[i].parent == NOBODY && s.ps[i].pid == 0
  }

  /** s' is reached from s by the steps of run. */
  ghost predicate Reaches(s: State, run: seq<Step>, s': State)
    decreases |run|
  {
    if run == [] then s' == s
    else Enabled(s, run[0]) && Reaches(Apply(s, run[0]), run[1..], s')
  }

  lemma StartInv(s: State)
    requires Start(s)
    ensures Inv(s)
  {
    forall i | 0 <= i < |s.ps|
      ensures ParentOk(s.ps, s.init, i)
    {
    }
  }

  lemma {:induction false} RunKeeps(s: State, run: seq<Step>, s': State)
    requires Inv(s) && Reaches(s, run, s')
    ensures Inv(s')
    decreases |run|
  {
    if run != [] {
      StepKeeps(s, run[0]);
      RunKeeps(Apply(s, run[0]), run[1..], s');
    }
  }

  /** The exit and wait protocol, in every state of every run. */
  lemma ExitWaitProtocol(s0: State, run: seq<Step>, s: State, i: nat, j: nat)
    requires Start(s0) && Reaches(s0, run, s) && i < |s.ps| && j < |s.ps|
    ensures s.ps[i].state == ZOMBIE ==> s.ps[j].parent != i
    ensures i != s.init && (s.ps[i].Alive() || s.ps[i].state == ZOMBIE) ==>
              0 <= s.ps[i].parent < |s.ps| && s.ps[s.ps[i].parent].Alive()
    ensures s.ps[i].InWait(i) && s.ps[j].parent == i ==> s.ps[j].state != ZOMBIE
    ensures i != j && s.ps[i].state != UNUSED && s.ps[j].state != UNUSED ==> s.ps[i].pid != s.ps[j].pid
  {
    StartInv(s0);
    RunKeeps(s0, run, s);
    assert ParentOk(s.ps, s.init, i) && ParentOk(s.ps, s.init, j);
  }

  /** The pid wait hands back belonged to a process that exited, and wait never hands it back again. */
  lemma ReturnedOnce(s0: State, run: seq<Step>, s: State, me: nat, stat: bool,
                     later: seq<Step>, s': State, me': nat, stat': bool)
    requires Start(s0) && Reaches(s0, run, s) && Enabled(s, Wait(me, stat)) && FirstZombie(s.ps, me, 0) < |s.ps|
    requires Reaches(Apply(s, Wait(me, stat)), later, s') && Enabled(s', Wait(me', stat'))
        && FirstZombie(s'.ps, me', 0) < |s'.ps|
    ensures s.ps[FirstZombie(s.ps, me, 0)].pid !in s.returned
    ensures s'.ps[FirstZombie(s'.ps, me', 0)].pid != s.ps[FirstZombie(s.ps, me, 0)].pid
  {
    StartInv(s0);
    RunKeeps(s0, run, s);
    StepKeeps(s, Wait(me, stat));
    RunKeeps(Apply(s, Wait(me, stat)), later, s');
    ReturnedGrows(Apply(s, Wait(me, stat)), later, s');
  }

  lemma {:induction false} ReturnedGrows(s: State, run: seq<Step>, s': State)
    requires Reaches(s, run, s')
    ensures s.returned <= s'.returned
    decreases |run|
  {
    if run != [] {
      ReturnedGrows(Apply(s, run[0]), run[1..], s');
    }
  }

  /** kill marks the one live process with the pid, if there is one. */
  lemma KillFinds(s0: State, run: seq<Step>, s: State, i: nat)
    requires Start(s0) && Reaches(s0, run, s) && i < |s.ps| && s.ps[i].state != UNUSED
    ensures FirstPid(s.ps, s.ps[i].pid, 0) == i
  {
    StartInv(s0);
    RunKeeps(s0, run, s);
  }

  /** kill of a live pid sets that process's flag and makes it runnable if it sleeps, and nothing else. */
  lemma KillMarks(s0: State, run: seq<Step>, s: State, i: nat)
    requires Start(s0) && Reaches(s0, run, s) && i < |s.ps| && s.ps[i].state != UNUSED
    ensures var p, t := s.ps[i], Apply(s, Kill(s.ps[i].pid));
      && t == s.(ps := s.ps[i := t.ps[i]]) && t.ps[i].killed
      && (p.state == SLEEPING ==> t.ps[i] == p.(killed := true, state := RUNNABLE))
      && (p.state != SLEEPING ==> t.ps[i] == p.(killed := true))
  {
    KillFinds(s0, run, s, i);
  }

  /** kill marks a slot that is no process exactly when no live process has the pid and an unused
      slot does, and whoever gets that slot next starts out killed. */
  lemma KillStale(s0: State, run: seq<Step>, s: State, pid: nat, me: nat)
    requires Start(s0) && Reaches(s0, run, s)
    ensures var i := FirstPid(s.ps, pid, 0);
      i < |s.ps| && s.ps[i].state == UNUSED <==>
        && (forall j :: 0 <= j < |s.ps| && s.ps[j].pid == pid ==> s.ps[j].state == UNUSED)
        && (exists j :: 0 <= j < |s.ps| && s.ps[j].pid == pid)
    ensures var i, t := FirstPid(s.ps, pid, 0), Apply(s, Kill(pid));
      i < |s.ps| && s.ps[i].state == UNUSED && Enabled(t, Alloc(me)) && FirstUnused(t.ps, 0) == i ==>
        Apply(t, Alloc(me)).ps[i].killed && Apply(t, Alloc(me)).ps[i].state == EMBRYO
  {
    StartInv(s0);
    RunKeeps(s0, run, s);
  }

  /** The times wait_stat reports for the zombie it reaps. */
  function Retime(p: Process): int { p.ttime - p.rutime - p.ctime - p.stime }

  /** They add up, and the ready time is what is left: never negative. */
  lemma WaitStatTimes(s0: State, run: seq<Step>, s: State, i: nat)
    requires Start(s0) && Reaches(s0, run, s) && i < |s.ps| && s.ps[i].state == ZOMBIE
    ensures var p := s.ps[i];
      && 0 <= p.ctime <= p.ttime <= s.ticks && 0 <= p.rutime && 0 <= p.stime && Retime(p) >= 0
      && p.ctime + Retime(p) + p.rutime + p.stime == p.ttime
  {
    StartInv(s0);
    RunKeeps(s0, run, s);
    assert TimeOk(s.ps[i], s.ticks);
  }

  /** While a process lives its counted time is at most its age. */
  lemma TimeWithinAge(s0: State, run: seq<Step>, s: State, i: nat)
    requires Start(s0) && Reaches(s0, run, s) && i < |s.ps| && s.ps[i].Alive()
    ensures s.ps[i].rutime + s.ps[i].stime <= s.ticks - s.ps[i].ctime
  {
    StartInv(s0);
    RunKeeps(s0, run, s);
    assert TimeOk(s.ps[i], s.ticks);
  }

  // ---- what the counters count ----

  /** How many ticks of run, from s on, came while slot i was the current one, in that state. */
  ghost function TicksIn(s: State, run: seq<Step>, i: nat, status: Status): nat
    decreases |run|
  {
    if run == [] || !Enabled(s, run[0]) then 0
    else (if run[0] == Tick(i) && i < |s.ps| && s.ps[i].state == status then 1 else 0)
         + TicksIn(Apply(s, run[0]), run[1..], i, status)
  }

  /** No fork sets the times of slot i again. */
  predicate Untimed(run: seq<Step>, i: nat) {
    forall k :: 0 <= k < |run| && run[k].SetTimes? ==> run[k].i != i
  }

  /** One step moves a slot's counters only as a tick, by the state it has then. */
  lemma StepCounts(s: State, step: Step, i: nat)
    requires Inv(s) && Enabled(s, step) && i < |s.ps| && !(step.SetTimes? && step.i == i)
    ensures var p, t := s.ps[i], Apply(s, step);
      && |t.ps| == |s.ps| && t.ps[i].ctime == p.ctime
      && t.ps[i].rutime == p.rutime + (if step == Tick(i) && p.state == RUNNING then 1 else 0)
      && t.ps[i].stime == p.stime + (if step == Tick(i) && p.state == SLEEPING then 1 else 0)
  {
    hide ParentsOk, WaitersOk, PidsOk, TimesOk;
  }

  lemma {:induction false} RunCounts(s: State, run: seq<Step>, s': State, i: nat)
    requires Inv(s) && Reaches(s, run, s') && i < |s.ps| && Untimed(run, i)
    ensures |s'.ps| == |s.ps| && s'.ps[i].ctime == s.ps[i].ctime
    ensures s'.ps[i].rutime == s.ps[i].rutime + TicksIn(s, run, i, RUNNING)
    ensures s'.ps[i].stime == s.ps[i].stime + TicksIn(s, run, i, SLEEPING)
    decreases |run|
  {
    hide Inv, Enabled, Apply;
    if run != [] {
      StepKeeps(s, run[0]);
      StepCounts(s, run[0], i);
      RunCounts(Apply(s, run[0]), run[1..], s', i);
    }
  }

  /** Since fork set a process's times: its run time is the number of ticks that found it running, its
      sleep time the number that found it sleeping, and its creation time the tick of the fork. These
      are the times that wait_stat reports when it reaps the slot. */
  lemma TimesCounted(s0: State, before: seq<Step>, s: State, maker: nat, i: nat, run: seq<Step>, s': State, me: nat)
    requires Start(s0) && Reaches(s0, before, s) && Enabled(s, SetTimes(maker, i))
    requires Reaches(Apply(s, SetTimes(maker, i)), run, s') && Untimed(run, i)
    requires Enabled(s', Wait(me, true)) && FirstZombie(s'.ps, me, 0) == i < |s'.ps|
    ensures var s1, p := Apply(s, SetTimes(maker, i)), s'.ps[i];
      && p.state == ZOMBIE && p.ctime == s.ticks
      && p.rutime == TicksIn(s1, run, i, RUNNING) && p.stime == TicksIn(s1, run, i, SLEEPING)
      && Retime(p) == p.ttime - s.ticks - TicksIn(s1, run, i, RUNNING) - TicksIn(s1, run, i, SLEEPING)
  {
    StartInv(s0);
    RunKeeps(s0, before, s);
    StepKeeps(s, SetTimes(maker, i));
    RunCounts(Apply(s, SetTimes(maker, i)), run, s', i);
    hide Inv, TicksIn;
  }
}
