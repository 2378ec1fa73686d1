/** proc.c's table scans and trap.c's timer case as they run, each inside ptable.lock, against
    the steps of Proc. */
module ProcTable {
  import opened Proc

  class Ptable {
    var ps: seq<Process>
    var nextpid: nat
    var ticks: nat
    const initproc: nat

    ghost var slot: map<nat, nat>
    ghost var returned: set<nat>

    ghost function View(): State
      reads this
    {
      State(ps, initproc, nextpid, ticks, slot, returned)
    }

    /** The table once userinit has made the first process at tick now. */
    constructor (nproc: nat, now: nat)
      requires nproc > 0
      ensures Start(View()) && |ps| == nproc && ticks == now
    {
      var none := Process(UNUSED, 0, NOBODY, None, false, 0, 0, 0, 0, 0, 0, NOBODY);
      ps, nextpid, ticks, initproc :=
          [none.(state := RUNNABLE, pid := 1, ctime := now)] + Fill(nproc - 1, none), 2, now, 0;
      slot, returned := map[1 := 0], {};
    }

    /** wakeup1. */
    method Wakeup1(chan: Chan)
      modifies this`ps
      ensures ps == Woken(old(ps), chan)
      ensures |ps| == |old(ps)| && forall i :: 0 <= i < |ps| ==>
        ps[i] == if old(ps)[i].state == SLEEPING && old(ps)[i].chan == chan then old(ps)[i].(state := RUNNABLE)
                 else old(ps)[i]
    {
      var i := 0;
      while i < |ps|
        invariant i <= |ps| == |old(ps)|
        invariant forall k :: 0 <= k < |ps| ==> ps[k] == if k < i then Wake(old(ps)[k], chan) else old(ps)[k]
      {
        if ps[i].state == SLEEPING && ps[i].chan == chan {
          ps := ps[i := ps[i].(state := RUNNABLE)];
        }
        i := i + 1;
      }
    }

    /** allocproc's locked part: a slot for me's fork, or the table's length. */
    method Allocproc(me: nat) returns (i: nat)
      requires Enabled(View(), Alloc(me))
      modifies this`ps, this`nextpid, this`slot
      ensures View() == Apply(old(View()), Alloc(me)) && i == FirstUnused(old(ps), 0)
      ensures i == |ps| ==> ps == old(ps) && nextpid == old(nextpid)
      ensures i < |ps| ==>
        && i < |old(ps)| && old(ps)[i].state == UNUSED && nextpid == old(nextpid) + 1
        && ps == old(ps)[i := old(ps)[i].(state := EMBRYO, pid := old(nextpid), stage := 0, maker := me)]
    {
      i := 0;
      while i < |ps| && ps[i].state != UNUSED
        invariant i <= |ps| && FirstUnused(ps, i) == FirstUnused(ps, 0)
      {
        i := i + 1;
      }
      if i < |ps| {
        ps := ps[i := ps[i].(state := EMBRYO, pid := nextpid, stage := 0, maker := me)];
        slot, nextpid := slot[nextpid := i], nextpid + 1;
      }
    }

    /** exit's locked part: wake the parent, hand the children to init, become a zombie. */
    method Exit(me: nat)
      requires Enabled(View(), Step.Exit(me))
      modifies this`ps
      ensures View() == Apply(old(View()), Step.Exit(me))
      ensures |ps| == |old(ps)| && forall k :: 0 <= k < |ps| ==>
        var p, parent := old(ps)[k], old(ps)[me].parent;
        var inherits := exists j :: 0 <= j < |ps| && old(ps)[j].parent == me && old(ps)[j].state == ZOMBIE;
        var woken := p.state == SLEEPING && (p.chan == Self(parent) || (inherits && p.chan == Self(initproc)));
        && ps[k] == p.(state := ps[k].state, parent := ps[k].parent, ttime := ps[k].ttime)
        && ps[k].state == (if k == me then ZOMBIE else if woken then RUNNABLE else p.state)
        && ps[k].parent == (if p.parent == me then initproc else p.parent)
        && ps[k].ttime == (if k == me then ticks else p.ttime)
    {
      var parent := ps[me].parent;
      Wakeup1(Self(parent));
      PassChildren(me, parent, old(ps));
      ps := ps[me := ps[me].(state := ZOMBIE, ttime := ticks)];
      assert ps == Exited(old(ps), me, initproc, ticks);
    }

    /** exit's "Pass abandoned children to init". */
    method PassChildren(me: nat, parent: int, ghost ps0: seq<Process>)
      requires |ps| == |ps0| && forall k :: 0 <= k < |ps| ==> ps[k] == Wake(ps0[k], Self(parent))
      modifies this`ps
      ensures |ps| == |ps0|
      ensures forall k :: 0 <= k < |ps| ==> ps[k] == Adopted(ps0[k], me, initproc, parent, HasZombie(ps0, me), true)
    {
      ghost var z := false;
      var i := 0;
      while i < |ps|
        invariant i <= |ps| == |ps0|
        invariant z <==> exists k :: 0 <= k < i && ps0[k].parent == me && ps0[k].state == ZOMBIE
        invariant forall k :: 0 <= k < |ps| ==> ps[k] == Adopted(ps0[k], me, initproc, parent, z, k < i)
      {
        if ps[i].parent == me {
          ps := ps[i := ps[i].(parent := initproc)];
          if ps[i].state == ZOMBIE {
            Wakeup1(Self(initproc));
            z := true;
          }
        }
        i := i + 1;
      }
    }

    /** One pass of wait, or of wait_stat: a zombie child's pid and times, or -1, or sleep. */
    method Wait(me: nat, stat: bool) returns (pid: int, ctime: int, ttime: int, retime: int, rutime: int, stime: int)
      requires Enabled(View(), Step.Wait(me, stat))
      modifies this`ps, this`returned
      ensures View() == Apply(old(View()), Step.Wait(me, stat))
      ensures var i := FirstZombie(old(ps), me, 0);
        if i < |old(ps)| then
          var p := old(ps)[i];
          pid == p.pid && ctime == p.ctime && ttime == p.ttime && rutime == p.rutime && stime == p.stime
              && retime == Retime(p)
        else pid == -1
      ensures var i := FirstZombie(old(ps), me, 0);
        i < |old(ps)| ==>
          ps == old(ps)[i := old(ps)[i].(state := UNUSED, pid := 0, parent := NOBODY, killed := false,
                                         ttime := if stat then 0 else old(ps)[i].ttime)]
      ensures (forall i :: 0 <= i < |old(ps)| && old(ps)[i].parent == me ==> old(ps)[i].state != ZOMBIE) ==>
        && pid == -1
        && ps == if (exists i :: 0 <= i < |old(ps)| && old(ps)[i].parent == me) && !old(ps)[me].killed
                 then old(ps)[me := old(ps)[me].(state := SLEEPING, chan := Self(me))] else old(ps)
    {
      ctime, ttime, retime, rutime, stime := 0, 0, 0, 0, 0;
      var havekids := false;
      var i := 0;
      while i < |ps|
        invariant i <= |ps| && ps == old(ps) && returned == old(returned)
        invariant havekids <==> exists k :: 0 <= k < i && ps[k].parent == me
        invariant FirstZombie(ps, me, i) == FirstZombie(ps, me, 0)
      {
        if ps[i].parent == me {
          havekids := true;
          if ps[i].state == ZOMBIE {
            pid, ctime, ttime, rutime, stime := ps[i].pid, ps[i].ctime, ps[i].ttime, ps[i].rutime, ps[i].stime;
            retime := ttime - rutime - ctime - stime;
            returned := returned + {ps[i].pid};
            ps := ps[i := ps[i].(state := UNUSED, pid := 0, parent := NOBODY, killed := false)];
            if stat {
              ps := ps[i := ps[i].(ttime := 0)];
            }
            return;
          }
        }
        i := i + 1;
      }
      pid := -1;
      if havekids && !ps[me].killed {
        ps := ps[me := ps[me].(chan := Self(me), state := SLEEPING)];
      }
    }

    /** kill. */
    method Kill(pid: nat) returns (r: int)
      modifies this`ps
      ensures View() == Apply(old(View()), Step.Kill(pid))
      ensures r == if FirstPid(old(ps), pid, 0) < |ps| then 0 else -1
      ensures (forall i :: 0 <= i < |old(ps)| ==> old(ps)[i].pid != pid) ==> r == -1 && ps == old(ps)
      ensures var i := FirstPid(old(ps), pid, 0);
        i < |old(ps)| ==>
          ps == old(ps)[i := old(ps)[i].(killed := true,
                                         state := if old(ps)[i].state == SLEEPING then RUNNABLE else old(ps)[i].state)]
    {
      var i := 0;
      while i < |ps|
        invariant i <= |ps| && ps == old(ps) && FirstPid(ps, pid, i) == FirstPid(ps, pid, 0)
      {
        if ps[i].pid == pid {
          var p := ps[i].(killed := true);
          if p.state == SLEEPING {
            p := p.(state := RUNNABLE);
          }
          ps := ps[i := p];
          return 0;
        }
        i := i + 1;
      }
      r := -1;
    }

    /** The timer interrupt on the processor that counts ticks; cur is its current process, or -1. */
    method Timer(cur: int)
      modifies this`ps, this`ticks
      ensures View() == Apply(old(View()), Tick(cur))
      ensures ticks == old(ticks) + 1 && |ps| == |old(ps)|
      ensures forall i :: 0 <= i < |ps| && i != cur ==> ps[i] == old(ps)[i]
      ensures 0 <= cur < |ps| ==>
        var p := old(ps)[cur];
        && (p.state == RUNNING ==> ps[cur] == p.(rutime := p.rutime + 1))
        && (p.state == SLEEPING ==> ps[cur] == p.(stime := p.stime + 1))
        && (p.state == RUNNABLE ==> ps[cur] == p.(retime := p.retime + 1))
        && (p.state in {UNUSED, EMBRYO, ZOMBIE} ==> ps[cur] == p)
    {
      ticks := ticks + 1;
      if 0 <= cur < |ps| {
        var p := ps[cur];
        if p.state == RUNNING {
          p := p.(rutime := p.rutime + 1);
        } else if p.state == RUNNABLE {
          p := p.(retime := p.retime + 1);
        } else if p.state == SLEEPING {
          p := p.(stime := p.stime + 1);
        }
        ps := ps[cur := p];
      }
    }
  }

  /** A slot inside exit's loop: adopted once the scan passed it. */
  function Adopted(p: Process, me: int, init: int, parent: int, zombies: bool, passed: bool): Process {
    var w := Wake(p, Self(parent));
    var v := if zombies then Wake(w, Self(init)) else w;
    if passed && v.parent == me then v.(parent := init) else v
  }

  function Fill(n: nat, p: Process): (s: seq<Process>)
    ensures |s| == n && forall i :: 0 <= i < n ==> s[i] == p
  {
    if n == 0 then [] else Fill(n - 1, p) + [p]
  }
}
