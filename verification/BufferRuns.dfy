/** Processes over the block cache: every interleaving of bread, bwrite, brelse and log_write's
    pinning with the disk interrupts. A step is what one process does under one hold of
    bcache.lock or idelock, or to a buffer it has locked. A scan may recycle any idle clean buffer,
    which covers bget's choice of the least recent one. */
module BufferRuns {
  import opened Blocks
  import opened BufferCache
  import opened Sets

  /** Where a process is: outside these functions, about to scan in bget, asleep there on a busy
      buffer, or in iderw, about to test the flags or asleep. */
  datatype Where = Free | Asking(a: Addr) | Blocked(a: Addr, b: nat) | Testing(b: nat) | Sleeping(b: nat)
  {
    predicate In(b: nat) { this == Testing(b) || this == Sleeping(b) }
  }

  /** holder says who locked each busy buffer. */
  datatype World = World(cache: Cache, holder: seq<nat>, procs: seq<Where>)

  datatype Act =
    | Ask(p: nat, a: Addr)
    | Scan(p: nat, b: nat)
    | Submit(p: nat, b: nat)
    | Wake(p: nat)
    | Test(p: nat)
    | Interrupt
    | Release(p: nat, b: nat)
    | Edit(p: nat, b: nat, data: Data)
    | Pin(p: nat, b: nat)

  // ---- the steps ----

  ghost predicate Holds(w: World, p: nat, b: nat) {
    && p < |w.procs| && w.procs[p] == Free
    && b < |w.cache.slots| == |w.holder| && w.cache.slots[b].busy && w.holder[b] == p
  }

  ghost predicate Uncached(slots: seq<Slot>, a: Addr) {
    forall b :: 0 <= b < |slots| ==> slots[b].at != a
  }

  ghost predicate Enabled(w: World, act: Act) {
    var c := w.cache;
    match act
    case Ask(p, a) => p < |w.procs| && w.procs[p] == Free && a.dev != NODEV && a in c.disk
    case Scan(p, b) =>
      && p < |w.procs| && w.procs[p].Asking? && b < |c.slots|
      && (c.slots[b].at == w.procs[p].a
          || (Uncached(c.slots, w.procs[p].a) && !c.slots[b].busy && !c.slots[b].dirty))
    case Submit(p, b) => Holds(w, p, b) && !c.slots[b].Synced()
    case Wake(p) => p < |w.procs| && (w.procs[p].Blocked? || w.procs[p].Sleeping?)
    case Test(p) => p < |w.procs| && w.procs[p].Testing?
    case Interrupt => true
    case Release(p, b) =>
      && Holds(w, p, b)
      && var s := c.slots[b]; s.valid && s.at in c.disk && (s.dirty || s.data == c.disk[s.at])
    case Edit(p, b, _) => Holds(w, p, b) && c.slots[b].valid
    case Pin(p, b) => Holds(w, p, b) && c.slots[b].valid
  }

  function Woken(x: Where): Where {
    match x
    case Blocked(a, _) => Asking(a)
    case Sleeping(b) => Testing(b)
    case _ => x
  }

  /** wakeup(b): the processes asleep on b run again. */
  function Wakeup(procs: seq<Where>, b: nat): (r: seq<Where>)
    ensures |r| == |procs|
    ensures forall p :: 0 <= p < |r| ==>
      r[p] == if (procs[p].Blocked? || procs[p].Sleeping?) && procs[p].b == b then Woken(procs[p]) else procs[p]
  {
    seq(|procs|, p requires 0 <= p < |procs| =>
      if (procs[p].Blocked? || procs[p].Sleeping?) && procs[p].b == b then Woken(procs[p]) else procs[p])
  }

  ghost function Next(w: World, act: Act): World
    requires Inv(w) && Enabled(w, act)
  {
    World(NextCache(w, act), NextHolder(w, act), NextProcs(w, act))
  }

  ghost function NextCache(w: World, act: Act): Cache
    requires Inv(w) && Enabled(w, act)
  {
    var c := w.cache;
    match act
    case Scan(p, b) =>
      if c.slots[b].at != w.procs[p].a then c.Recycled(b, w.procs[p].a)
      else if c.slots[b].busy then c
      else c.Locked(b)
    case Submit(p, b) => c.Queued(b)
    case Interrupt => if c.queue == [] then c else HeadCached(w); c.Served()
    case Release(p, b) => c.Unlocked(b)
    case Edit(p, b, data) => c.Edited(b, data)
    case Pin(p, b) => c.Pinned(b)
    case _ => c
  }

  ghost function NextHolder(w: World, act: Act): seq<nat>
    requires Inv(w) && Enabled(w, act)
  {
    match act
    case Scan(p, b) => if w.cache.slots[b].busy then w.holder else w.holder[b := p]
    case _ => w.holder
  }

  ghost function NextProcs(w: World, act: Act): seq<Where>
    requires Inv(w) && Enabled(w, act)
  {
    var c := w.cache;
    match act
    case Ask(p, a) => w.procs[p := Asking(a)]
    case Scan(p, b) =>
      var a := w.procs[p].a;
      w.procs[p := if c.slots[b].at == a && c.slots[b].busy then Blocked(a, b) else Free]
    case Submit(p, b) => w.procs[p := Sleeping(b)]
    case Wake(p) => w.procs[p := Woken(w.procs[p])]
    case Test(p) =>
      assert Reason(w, p);
      var b := w.procs[p].b;
      w.procs[p := if c.slots[b].Synced() then Free else Sleeping(b)]
    case Interrupt => if c.queue == [] then w.procs else Wakeup(w.procs, c.queue[0])
    case Release(p, b) => Wakeup(w.procs, b)
    case _ => w.procs
  }

  // ---- what holds in every run ----

  ghost predicate Sound(c: Cache) {
    Cached(c.slots, c.home, c.disk, c.view)
  }

  /** Requests are locked buffers out of step with the disk, each once. */
  ghost predicate Orderly(slots: seq<Slot>, queue: seq<nat>) {
    && (forall i :: 0 <= i < |queue| ==>
          && queue[i] < |slots| && slots[queue[i]].busy && !slots[queue[i]].Synced()
          && slots[queue[i]].at.dev != NODEV)
    && (forall i, j :: 0 <= i < j < |queue| ==> queue[i] != queue[j])
  }

  /** The disk, the buffer and the view agree on b's block. */
  ghost predicate Fresh(c: Cache, b: nat) {
    && b < |c.slots| && c.slots[b].Synced() && c.slots[b].at.dev != NODEV
    && var a := c.slots[b].at;
    a in c.disk && a in c.view && c.disk[a] == c.slots[b].data == c.view[a]
  }

  /** A request's process waits for it, and whoever waits has a reason. */
  ghost predicate Attended(w: World) {
    var c := w.cache;
    && |w.holder| == |c.slots|
    && (forall b :: 0 <= b < |c.slots| && c.slots[b].busy ==> w.holder[b] < |w.procs|)
    && (forall b :: b in c.queue ==> b < |c.slots| && w.holder[b] < |w.procs| && w.procs[w.holder[b]].In(b))
    && (forall p :: 0 <= p < |w.procs| ==> Reason(w, p))
  }

  ghost predicate Reason(w: World, p: nat) {
    var c := w.cache;
    && p < |w.procs| && |w.holder| == |c.slots|
    && match w.procs[p]
    case Free => true
    case Asking(a) => a.dev != NODEV && a in c.disk
    case Blocked(a, b) => a.dev != NODEV && a in c.disk && b < |c.slots| && c.slots[b].busy
    case Testing(b) => b < |c.slots| && c.slots[b].busy && w.holder[b] == p && (b in c.queue || Fresh(c, b))
    case Sleeping(b) => b < |c.slots| && c.slots[b].busy && w.holder[b] == p && b in c.queue
  }

  ghost predicate Inv(w: World) {
    Sound(w.cache) && Orderly(w.cache.slots, w.cache.queue) && Attended(w)
  }

  /** The code's cache is one the runs speak of; its methods' contracts give the steps' new caches. */
  lemma CodeCache(k: Bcache)
    requires k.Valid()
    ensures Sound(k.V()) && Orderly(k.V().slots, k.V().queue)
  {
    assert forall i :: 0 <= i < |k.queue| ==> k.ticket[k.queue[i]] == k.served + i;
  }

  lemma HeadCached(w: World)
    requires Inv(w) && w.cache.queue != []
    ensures w.cache.queue[0] < |w.cache.slots| && w.cache.slots[w.cache.queue[0]].at in w.cache.disk
  {
    hide Attended;
  }

  /** The buffer a step writes to, if it writes to one. */
  ghost predicate On(w: World, act: Act, b: nat) {
    match act
    case Ask(_, _) => false
    case Scan(_, d) => d == b
    case Submit(_, d) => d == b
    case Wake(_) => false
    case Test(_) => false
    case Interrupt => w.cache.queue != [] && w.cache.queue[0] == b
    case Release(_, d) => d == b
    case Edit(_, d, _) => d == b
    case Pin(_, d) => d == b
  }

  lemma Unqueued(w: World, b: nat)
    requires Inv(w) && b < |w.cache.slots|
    requires !w.cache.slots[b].busy || w.cache.slots[b].Synced() || Holds(w, w.holder[b], b)
    ensures b !in w.cache.queue
  {
    hide Sound;
  }

  lemma SoundKept(w: World, act: Act)
    requires Inv(w) && Enabled(w, act)
    ensures Sound(Next(w, act).cache)
  {
    var c := w.cache;
    match act
    case Scan(p, b) =>
      assert Reason(w, p);
      if c.slots[b].at == w.procs[p].a {
        CachedLock(c.slots, c.home, c.disk, c.view, b);
      } else {
        CachedHome(c.slots, c.home, c.disk, c.view, w.procs[p].a);
        CachedRecycle(c.slots, c.home, c.disk, c.view, b, w.procs[p].a);
      }
    case Interrupt =>
      if c.queue != [] {
        CachedComplete(c.slots, c.home, c.disk, c.view, c.queue[0]);
      }
    case Release(p, b) => CachedIdle(c.slots, c.home, c.disk, c.view, b);
    case Edit(p, b, data) => CachedEdit(c.slots, c.home, c.disk, c.view, b, data);
    case Pin(p, b) => CachedPin(c.slots, c.home, c.disk, c.view, b);
    case _ =>
  }

  lemma OrderlyOff(slots: seq<Slot>, queue: seq<nat>, b: nat, s: Slot)
    requires Orderly(slots, queue) && b < |slots| && b !in queue
    ensures Orderly(slots[b := s], queue)
  {
  }

  lemma OrderlyServed(slots: seq<Slot>, queue: seq<nat>, s: Slot)
    requires Orderly(slots, queue) && queue != []
    ensures Orderly(slots[queue[0] := s], queue[1..]) && queue[0] !in queue[1..]
  {
  }

  lemma OrderlyQueued(slots: seq<Slot>, queue: seq<nat>, b: nat)
    requires Orderly(slots, queue) && b !in queue
    requires b < |slots| && slots[b].busy && !slots[b].Synced() && slots[b].at.dev != NODEV
    ensures Orderly(slots, queue + [b])
  {
  }

  lemma OrderlyKept(w: World, act: Act)
    requires Inv(w) && Enabled(w, act)
    ensures Orderly(Next(w, act).cache.slots, Next(w, act).cache.queue)
  {
    var c, c' := w.cache, Next(w, act).cache;
    match act
    case Ask(_, _) =>
    case Wake(_) =>
    case Test(_) =>
    case Interrupt => if c.queue != [] { OrderlyServed(c.slots, c.queue, c'.slots[c.queue[0]]); }
    case Submit(p, b) =>
      Unqueued(w, b);
      OrderlyQueued(c.slots, c.queue, b);
    case Scan(p, b) =>
      if !c.slots[b].busy {
        Unqueued(w, b);
        OrderlyOff(c.slots, c.queue, b, c'.slots[b]);
      }
    case Release(p, b) =>
      Unqueued(w, b);
      OrderlyOff(c.slots, c.queue, b, c'.slots[b]);
    case Edit(p, b, _) =>
      Unqueued(w, b);
      OrderlyOff(c.slots, c.queue, b, c'.slots[b]);
    case Pin(p, b) =>
      Unqueued(w, b);
      OrderlyOff(c.slots, c.queue, b, c'.slots[b]);
  }

  /** A step that does not write to b leaves b and its block alone. */
  lemma Elsewhere(w: World, act: Act, b: nat)
    requires Inv(w) && Enabled(w, act) && b < |w.cache.slots| && w.cache.slots[b].at.dev != NODEV
    requires !On(w, act, b)
    ensures var c, w' := w.cache, Next(w, act); var c' := w'.cache;
      && |c'.slots| == |c.slots| && c'.slots[b] == c.slots[b]
      && w'.holder[b] == w.holder[b]
      && var a := c.slots[b].at;
      && a in c.disk && a in c.view && a in c'.disk && a in c'.view
      && c'.disk[a] == c.disk[a] && c'.view[a] == c.view[a]
      && (b in c'.queue <==> b in c.queue)
  {
    var c := w.cache;
    QueueNext(w, act);
    BlockApart(w, b);
    HolderElsewhere(w, act, b);
    Actor(w, act);
    hide Sound, Orderly, Attended, NextHolder, NextProcs, Cache.Served, Cache.Edited;
    match act
    case Interrupt =>
      if c.queue != [] {
        HeadCached(w);
        ServedApart(c, b);
      }
    case Edit(p, d, data) => EditedApart(c, d, data, b);
    case _ =>
    hide Enabled;
  }

  /** Who can take a step, and in which buffer. */
  lemma Actor(w: World, act: Act)
    requires Enabled(w, act)
    ensures act.Ask? || act.Submit? || act.Release? || act.Edit? || act.Pin? ==>
      act.p < |w.procs| && w.procs[act.p] == Free
    ensures act.Scan? ==> act.p < |w.procs| && w.procs[act.p].Asking?
    ensures act.Wake? ==> act.p < |w.procs| && (w.procs[act.p].Blocked? || w.procs[act.p].Sleeping?)
    ensures act.Test? ==> act.p < |w.procs| && w.procs[act.p].Testing?
    ensures act.Scan? || act.Submit? || act.Release? || act.Edit? || act.Pin? ==> act.b < |w.cache.slots|
  {
    hide Uncached, Slot.Synced;
  }

  lemma ServedApart(c: Cache, b: nat)
    requires c.queue != [] && c.queue[0] < |c.slots| && c.slots[c.queue[0]].at in c.disk
    requires b < |c.slots| && c.queue[0] != b && c.slots[c.queue[0]].at != c.slots[b].at && c.slots[b].at in c.disk
    ensures var c', a := c.Served(), c.slots[b].at;
      && |c'.slots| == |c.slots| && c'.slots[b] == c.slots[b]
      && a in c'.disk && c'.disk[a] == c.disk[a] && c'.view == c.view
  {
  }

  lemma EditedApart(c: Cache, d: nat, data: Data, b: nat)
    requires d < |c.slots| && b < |c.slots| && d != b && c.slots[d].at != c.slots[b].at && c.slots[b].at in c.view
    ensures var c', a := c.Edited(d, data), c.slots[b].at;
      && |c'.slots| == |c.slots| && c'.slots[b] == c.slots[b]
      && a in c'.view && c'.view[a] == c.view[a] && c'.disk == c.disk
  {
  }

  lemma HolderElsewhere(w: World, act: Act, b: nat)
    requires Inv(w) && Enabled(w, act) && b < |w.cache.slots| && !On(w, act, b)
    ensures |NextHolder(w, act)| == |w.holder| == |w.cache.slots| && NextHolder(w, act)[b] == w.holder[b]
  {
    hide Sound, Orderly, Uncached, Slot.Synced, Holds, Reason;
  }

  /** b's block is in the maps, and no other buffer's. */
  lemma BlockApart(w: World, b: nat)
    requires Inv(w) && b < |w.cache.slots| && w.cache.slots[b].at.dev != NODEV
    ensures w.cache.slots[b].at in w.cache.disk && w.cache.slots[b].at in w.cache.view
    ensures forall d :: 0 <= d < |w.cache.slots| && d != b ==> w.cache.slots[d].at != w.cache.slots[b].at
    ensures |w.holder| == |w.cache.slots|
  {
    assert w.cache.home[w.cache.slots[b].at] == b;
  }

  lemma QueueNext(w: World, act: Act)
    requires Inv(w) && Enabled(w, act)
    ensures var q, q' := w.cache.queue, Next(w, act).cache.queue;
      && q' == (if act.Submit? then q + [act.b] else if act.Interrupt? && q != [] then q[1..] else q)
      && (act.Interrupt? && q != [] ==> q == [q[0]] + q')
  {
    if w.cache.queue != [] { HeadCached(w); }
    hide Sound, Orderly, Attended, NextHolder, NextProcs, Uncached, Slot.Synced;
  }

  /** A locked buffer is changed by its holder outside iderw, or by the driver, and nobody else. */
  lemma Others(w: World, act: Act, b: nat)
    requires Inv(w) && Enabled(w, act) && b < |w.cache.slots| && w.cache.slots[b].busy
    requires On(w, act, b) && !act.Interrupt?
    ensures (act.Scan? && Next(w, act).cache == w.cache && Next(w, act).holder == w.holder) || Holds(w, w.holder[b], b)
  {
    hide Sound, Orderly;
  }

  lemma ServedFresh(w: World)
    requires Inv(w) && w.cache.queue != []
    ensures var b, w' := w.cache.queue[0], Next(w, Interrupt);
      && Fresh(w'.cache, b) && w'.cache.slots[b].busy && b !in w'.cache.queue
      && w'.cache.slots[b].at == w.cache.slots[b].at && w'.holder == w.holder && w'.cache.view == w.cache.view
  {
    hide Attended;
    var c := w.cache;
    CachedComplete(c.slots, c.home, c.disk, c.view, c.queue[0]);
    OrderlyServed(c.slots, c.queue, Completed(c.slots[c.queue[0]], c.disk));
  }

  /** A process in iderw stays there, asleep only while its buffer is out of step, or returns. */
  lemma WhereNext(w: World, act: Act, p: nat, b: nat)
    requires Inv(w) && Enabled(w, act) && p < |w.procs| && w.procs[p].In(b)
    ensures var w' := Next(w, act);
      && |w'.procs| == |w.procs| && b < |w.cache.slots|
      && (w'.procs[p].In(b) || (w'.procs[p] == Free && w.cache.slots[b].Synced() && w'.cache == w.cache))
      && (w'.procs[p] == Sleeping(b) ==>
            !(act.Interrupt? && On(w, act, b)) && (w.procs[p] == Sleeping(b) || !w.cache.slots[b].Synced()))
  {
    assert Reason(w, p);
    WhereProcs(w, act, p, b);
    if act.Test? { TestKeeps(w, act); }
    hide Sound, Orderly, Attended, NextCache, NextHolder, NextProcs, Fresh, Enabled;
  }

  lemma WhereProcs(w: World, act: Act, p: nat, b: nat)
    requires Inv(w) && Enabled(w, act) && p < |w.procs| && w.procs[p].In(b)
    ensures var procs' := NextProcs(w, act);
      && |procs'| == |w.procs| && b < |w.cache.slots|
      && (procs'[p].In(b) || (procs'[p] == Free && w.cache.slots[b].Synced() && act.Test?))
      && (procs'[p] == Sleeping(b) ==>
            !(act.Interrupt? && On(w, act, b)) && (w.procs[p] == Sleeping(b) || !w.cache.slots[b].Synced()))
  {
    assert Reason(w, p);
    Actor(w, act);
    hide Sound, Orderly, Attended, Fresh, Enabled;
  }

  lemma TestKeeps(w: World, act: Act)
    requires Inv(w) && Enabled(w, act) && act.Test?
    ensures NextCache(w, act) == w.cache
  {
    hide Inv;
  }

  lemma HeldReason(w: World, act: Act, p: nat, b: nat)
    requires Inv(w) && Enabled(w, act) && p < |w.procs| && w.procs[p].In(b)
    ensures Reason(Next(w, act), p)
    ensures var w' := Next(w, act);
      && b < |w'.cache.slots| && w'.cache.slots[b].busy && w'.holder[b] == p
      && (w'.procs[p].In(b) || (w'.procs[p] == Free && Fresh(w'.cache, b)))
  {
    hide NextCache, NextHolder, NextProcs, Enabled;
    assert Reason(w, p);
    WhereNext(w, act, p, b);
    if On(w, act, b) {
      if act.Interrupt? {
        assert w.cache.queue[0] == b;
        ServedFresh(w);
        HolderCount(w, act);
        hide Sound, Orderly, Next, On;
      } else {
        Others(w, act, b);
        HolderCount(w, act);
        hide Sound, Orderly, Next, On;
      }
    } else {
      Elsewhere(w, act, b);
      HolderCount(w, act);
      hide Sound, Orderly, Next, On;
    }
  }

  lemma HolderCount(w: World, act: Act)
    requires Inv(w) && Enabled(w, act)
    ensures |Next(w, act).holder| == |Next(w, act).cache.slots| == |w.cache.slots|
  {
    if w.cache.queue != [] { HeadCached(w); }
    hide Sound, Orderly;
  }

  lemma StillBusy(w: World, act: Act, b: nat)
    requires Inv(w) && Enabled(w, act) && b < |w.cache.slots| && w.cache.slots[b].busy
    requires !(act.Release? && act.b == b)
    ensures var c' := Next(w, act).cache; b < |c'.slots| && c'.slots[b].busy
  {
    HolderCount(w, act);
    if w.cache.queue != [] { HeadCached(w); }
    hide Sound, Orderly, Attended, Slot.Synced;
  }

  lemma DiskKept(w: World, act: Act)
    requires Inv(w) && Enabled(w, act)
    ensures Next(w, act).cache.disk.Keys == w.cache.disk.Keys
  {
    if w.cache.queue != [] { HeadCached(w); }
    hide Sound, Orderly, Attended, Slot.Synced;
  }

  lemma BlockedNext(w: World, act: Act, p: nat)
    requires Inv(w) && Enabled(w, act) && p < |w.procs| && w.procs[p].Blocked?
    ensures var x, procs' := w.procs[p], Next(w, act).procs;
      p < |procs'| && procs'[p] in {x, Asking(x.a)} && (act.Release? && act.b == x.b ==> procs'[p] == Asking(x.a))
  {
    hide Inv, Fresh, Uncached, Slot.Synced,
      Cache.Recycled, Cache.Served, Cache.Locked, Cache.Edited, Cache.Pinned, Cache.Unlocked;
  }

  lemma BlockedReason(w: World, act: Act, p: nat)
    requires Inv(w) && Enabled(w, act) && p < |w.procs| && w.procs[p].Blocked?
    ensures Reason(Next(w, act), p)
  {
    assert Reason(w, p);
    HolderCount(w, act);
    DiskKept(w, act);
    BlockedNext(w, act, p);
    if !(act.Release? && act.b == w.procs[p].b) {
      StillBusy(w, act, w.procs[p].b);
    }
    hide Next, Enabled, Sound, Orderly, Attended, Fresh, Uncached, Slot.Synced,
      Cache.Recycled, Cache.Served, Cache.Locked, Cache.Edited, Cache.Pinned, Cache.Unlocked;
  }

  lemma AwakeNext(w: World, act: Act, p: nat)
    requires Inv(w) && Enabled(w, act) && p < |w.procs| && (w.procs[p].Free? || w.procs[p].Asking?)
    ensures |NextProcs(w, act)| == |w.procs|
    ensures match NextProcs(w, act)[p]
            case Free => true
            case Asking(a) => w.procs[p] == Asking(a) || act == Ask(p, a)
            case Blocked(a, b) => w.procs[p] == Asking(a) && act == Scan(p, b) && w.cache.slots[b].busy
            case Testing(_) => false
            case Sleeping(b) => act == Submit(p, b)
  {
    hide Inv, Fresh, Uncached, Slot.Synced;
  }

  lemma AwakeReason(w: World, act: Act, p: nat)
    requires Inv(w) && Enabled(w, act) && p < |w.procs| && (w.procs[p].Free? || w.procs[p].Asking?)
    ensures Reason(Next(w, act), p)
  {
    assert Reason(w, p);
    HolderCount(w, act);
    DiskKept(w, act);
    AwakeNext(w, act, p);
    if act.Submit? && act.p == p {
      QueueNext(w, act);
      assert Holds(w, p, act.b);
    }
    if act.Scan? && act.p == p && w.cache.slots[act.b].busy {
      StillBusy(w, act, act.b);
    }
    hide Inv, Enabled, NextCache, NextProcs, Fresh, Slot.Synced;
  }

  /** Requests keep their waiting processes. */
  lemma HoldersKept(w: World, act: Act, b: nat)
    requires Inv(w) && Enabled(w, act)
    ensures var w' := Next(w, act);
      && |w'.holder| == |w'.cache.slots|
      && (b < |w'.cache.slots| && w'.cache.slots[b].busy ==> w'.holder[b] < |w'.procs|)
      && (b in w'.cache.queue ==>
            b < |w'.cache.slots| && w'.holder[b] < |w'.procs| && w'.procs[w'.holder[b]].In(b))
  {
    hide Sound, NextCache, Reason, Slot.Synced;
    HolderCount(w, act);
    HolderBound(w, act, b);
    QueueNext(w, act);
    if b in w.cache.queue {
      HeldReason(w, act, w.holder[b], b);
    } else if b in Next(w, act).cache.queue {
      SubmitWhere(w, act);
    }
    hide Orderly, Enabled, NextHolder, NextProcs;
  }

  lemma SubmitWhere(w: World, act: Act)
    requires Inv(w) && Enabled(w, act) && act.Submit?
    ensures act.b < |w.cache.slots| == |w.holder| && w.holder[act.b] == act.p && act.p < |w.procs|
    ensures NextHolder(w, act) == w.holder && NextProcs(w, act) == w.procs[act.p := Sleeping(act.b)]
    ensures |NextCache(w, act).slots| == |w.cache.slots|
  {
    hide Inv, Slot.Synced;
  }

  lemma HolderBound(w: World, act: Act, b: nat)
    requires Inv(w) && Enabled(w, act)
    ensures var w' := Next(w, act);
      && |w'.procs| == |w.procs| && |w'.holder| == |w.holder|
      && (b < |w'.cache.slots| && w'.cache.slots[b].busy ==> w'.holder[b] < |w'.procs|)
  {
    HolderCount(w, act);
    NewlyBusy(w, act, b);
    hide Sound, Orderly, Uncached, Slot.Synced, Reason, NextCache;
  }

  lemma NewlyBusy(w: World, act: Act, b: nat)
    requires Inv(w) && Enabled(w, act)
    ensures var slots := NextCache(w, act).slots;
      && |slots| == |w.cache.slots|
      && (b < |slots| && slots[b].busy ==> w.cache.slots[b].busy || (act.Scan? && act.b == b))
  {
    if w.cache.queue != [] { HeadCached(w); }
    hide Sound, Orderly, Attended, Uncached, Slot.Synced;
  }

  lemma StepKeeps(w: World, act: Act)
    requires Inv(w) && Enabled(w, act)
    ensures Inv(Next(w, act))
  {
    SoundKept(w, act);
    OrderlyKept(w, act);
    var w' := Next(w, act);
    forall p | 0 <= p < |w'.procs|
      ensures Reason(w', p)
    {
      if w.procs[p].Testing? || w.procs[p].Sleeping? {
        HeldReason(w, act, p, w.procs[p].b);
      } else if w.procs[p].Blocked? {
        BlockedReason(w, act, p);
      } else {
        AwakeReason(w, act, p);
      }
    }
    forall b: nat
      ensures |w'.holder| == |w'.cache.slots|
      ensures b < |w'.cache.slots| && w'.cache.slots[b].busy ==> w'.holder[b] < |w'.procs|
      ensures b in w'.cache.queue ==>
        b < |w'.cache.slots| && w'.holder[b] < |w'.procs| && w'.procs[w'.holder[b]].In(b)
    {
      HoldersKept(w, act, b);
    }
    hide Next, Sound, Orderly, Enabled;
  }

  // ---- runs ----

  /** After binit: nothing locked, nothing waiting, and every process outside. */
  ghost predicate Initial(w: World) {
    && Sound(w.cache) && w.cache.queue == [] && |w.holder| == |w.cache.slots|
    && (forall b :: 0 <= b < |w.cache.slots| ==> !w.cache.slots[b].busy)
    && (forall p :: 0 <= p < |w.procs| ==> w.procs[p] == Free)
  }

  ghost predicate Legal(w: World, acts: seq<Act>)
    requires Inv(w)
    decreases |acts|
  {
    acts != [] ==>
      && Enabled(w, acts[0])
      && (StepKeeps(w, acts[0]); Legal(Next(w, acts[0]), acts[1..]))
  }

  ghost function After(w: World, acts: seq<Act>): World
    requires Inv(w) && Legal(w, acts)
    decreases |acts|
  {
    if acts == [] then w else
      StepKeeps(w, acts[0]);
      After(Next(w, acts[0]), acts[1..])
  }

  lemma {:induction false} AfterKeeps(w: World, acts: seq<Act>)
    requires Inv(w) && Legal(w, acts)
    ensures Inv(After(w, acts))
    decreases |acts|
  {
    hide Inv, Enabled, Next;
    if acts != [] {
      StepKeeps(w, acts[0]);
      AfterKeeps(Next(w, acts[0]), acts[1..]);
    }
  }

  /** A block is in one buffer at most; an unlocked buffer shows its block, and so does the disk
      unless log_write has pinned it. */
  ghost predicate Agreed(c: Cache) {
    && (forall b, d :: 0 <= b < d < |c.slots| && c.slots[b].at == c.slots[d].at ==> c.slots[b].at.dev == NODEV)
    && (forall b :: 0 <= b < |c.slots| && c.slots[b].at.dev != NODEV && !c.slots[b].busy ==>
          && c.slots[b].at in c.view && c.slots[b].data == c.view[c.slots[b].at]
          && (c.slots[b].dirty || Fresh(c, b)))
  }

  /** A process asleep in bget waits for a locked buffer, and one asleep in iderw for its own
      request, which the driver has not finished. */
  ghost predicate SleepsRightly(w: World, p: nat)
    requires p < |w.procs|
  {
    var c := w.cache;
    match w.procs[p]
    case Blocked(_, b) => b < |c.slots| && c.slots[b].busy
    case Sleeping(b) => b in c.queue && b < |c.slots| == |w.holder| && w.holder[b] == p && !c.slots[b].Synced()
    case _ => true
  }

  lemma AlwaysSound(w: World, acts: seq<Act>)
    requires Initial(w)
    ensures Inv(w)
    ensures Legal(w, acts) ==> var w' := After(w, acts);
      Agreed(w'.cache) && forall p :: 0 <= p < |w'.procs| ==> SleepsRightly(w', p)
  {
    assert Inv(w);
    hide Inv;
    if Legal(w, acts) {
      AfterKeeps(w, acts);
      var w' := After(w, acts);
      AgreedNow(w');
      forall p | 0 <= p < |w'.procs|
        ensures SleepsRightly(w', p)
      {
        SleepsNow(w', p);
      }
    }
  }

  lemma AgreedNow(w: World)
    requires Inv(w)
    ensures Agreed(w.cache)
  {
    hide Attended, Orderly;
    var c := w.cache;
    forall b | 0 <= b < |c.slots| && c.slots[b].at.dev != NODEV
      ensures c.slots[b].at in c.home && c.home[c.slots[b].at] == b
    {
    }
  }

  lemma SleepsNow(w: World, p: nat)
    requires Inv(w) && p < |w.procs|
    ensures SleepsRightly(w, p)
  {
    hide Sound;
    assert Reason(w, p);
    if w.procs[p].Sleeping? {
      var i :| 0 <= i < |w.cache.queue| && w.cache.queue[i] == w.procs[p].b;
    }
  }

  function Interrupts(acts: seq<Act>): nat {
    if acts == [] then 0 else (if acts[0].Interrupt? then 1 else 0) + Interrupts(acts[1..])
  }

  /** p does nothing in the run but wake up and test, as iderw does. */
  predicate Patient(acts: seq<Act>, p: nat) {
    forall i :: 0 <= i < |acts| && !acts[i].Interrupt? && acts[i].p == p ==> acts[i].Wake? || acts[i].Test?
  }

  /** p has b locked and outside the queue, and its block is as it was in w. */
  ghost predicate Kept(w: World, w': World, p: nat, b: nat) {
    var c, c' := w.cache, w'.cache;
    && b < |c.slots| == |c'.slots| && b < |w'.holder| && p < |w'.procs|
    && c'.slots[b] == c.slots[b] && c'.slots[b].busy && w'.holder[b] == p && b !in c'.queue
    && w'.procs[p] in {Free, Testing(b)}
    && SameBlock(c, c', c.slots[b].at)
  }

  ghost predicate SameBlock(c: Cache, c': Cache, a: Addr) {
    && a in c.disk && a in c.view && a in c'.disk && a in c'.view
    && c'.disk[a] == c.disk[a] && c'.view[a] == c.view[a]
  }

  lemma FreeNext(w: World, act: Act, p: nat)
    requires Inv(w) && Enabled(w, act) && Patient([act], p) && p < |w.procs| && w.procs[p] == Free
    ensures p < |Next(w, act).procs| && Next(w, act).procs[p] == Free
  {
    assert [act][0] == act;
    hide Sound, Orderly, Attended;
  }

  lemma HeldStep(w: World, act: Act, p: nat, b: nat)
    requires Inv(w) && Enabled(w, act) && Patient([act], p)
    requires Kept(w, w, p, b)
    ensures Kept(w, Next(w, act), p, b)
  {
    assert [act][0] == act;
    HolderCount(w, act);
    if w.procs[p] == Testing(b) {
      assert Reason(w, p);
      WhereNext(w, act, p, b);
    } else {
      FreeNext(w, act, p);
    }
    if On(w, act, b) {
      Others(w, act, b);
      assert w.cache.slots[b].at in w.cache.view;
      hide Sound, Orderly, Next, On, Enabled;
    } else {
      Elsewhere(w, act, b);
      hide Sound, Orderly, Next, On, Enabled;
    }
  }

  lemma {:induction false} HeldRun(w: World, acts: seq<Act>, p: nat, b: nat)
    requires Inv(w) && Legal(w, acts) && Patient(acts, p) && Kept(w, w, p, b)
    ensures Kept(w, After(w, acts), p, b)
    decreases |acts|
  {
    hide Inv, Enabled, Next, Kept;
    if acts != [] {
      PatientSplit(acts, p);
      StepKeeps(w, acts[0]);
      HeldStep(w, acts[0], p, b);
      var w1 := Next(w, acts[0]);
      KeptTrans(w, w1, w1, p, b);
      HeldRun(w1, acts[1..], p, b);
      KeptTrans(w, w1, After(w1, acts[1..]), p, b);
    }
  }

  lemma PatientSplit(acts: seq<Act>, p: nat)
    requires acts != [] && Patient(acts, p)
    ensures Patient([acts[0]], p) && Patient(acts[1..], p)
  {
  }

  lemma KeptTrans(w: World, w1: World, w2: World, p: nat, b: nat)
    requires Kept(w, w1, p, b)
    ensures Kept(w1, w1, p, b)
    ensures Kept(w1, w2, p, b) ==> Kept(w, w2, p, b)
  {
  }

  /** b is still the request at place i, and untouched. */
  ghost predicate Waits(w: World, w': World, p: nat, b: nat, i: nat) {
    var c, c' := w.cache, w'.cache;
    && b < |c.slots| == |c'.slots| && b < |w'.holder| && p < |w'.procs|
    && i < |c'.queue| && c'.queue[i] == b && c'.slots[b] == c.slots[b] && w'.holder[b] == p && w'.procs[p].In(b)
    && SameBlock(c, c', c.slots[b].at)
  }

  /** The driver has done b's request: buffer and disk have what b's block contained in w. */
  ghost predicate Done(w: World, w': World, p: nat, b: nat) {
    var c, c' := w.cache, w'.cache;
    && b < |c.slots| == |c'.slots| && Kept(w', w', p, b) && Fresh(c', b)
    && c'.slots[b].at == c.slots[b].at
    && c.slots[b].at in c.view && c'.slots[b].data == c.view[c.slots[b].at]
  }

  lemma QueueMoves(w: World, act: Act, i: nat)
    requires Inv(w) && Enabled(w, act) && i < |w.cache.queue|
    ensures act.Interrupt? && i > 0 ==> w.cache.queue[0] != w.cache.queue[i]
    ensures var q, d := Next(w, act).cache.queue, if act.Interrupt? then 1 else 0;
      d <= i ==> i - d < |q| && q[i - d] == w.cache.queue[i]
  {
    if i > 0 { HeadOnce(w.cache.slots, w.cache.queue, i); }
    QueueNext(w, act);
    hide Inv, Next, Enabled;
    var q := w.cache.queue;
    if act.Submit? { MovesNot(q, [act.b], i); } else if act.Interrupt? { MovesUp(q, i); }
  }

  lemma MovesNot(q: seq<nat>, more: seq<nat>, i: nat)
    requires i < |q|
    ensures i < |q + more| && (q + more)[i] == q[i]
  {
  }

  lemma MovesUp(q: seq<nat>, i: nat)
    requires i < |q|
    ensures i > 0 ==> i - 1 < |q[1..]| && q[1..][i - 1] == q[i]
  {
  }

  lemma HeadOnce(slots: seq<Slot>, queue: seq<nat>, i: nat)
    requires Orderly(slots, queue) && 0 < i < |queue|
    ensures queue[0] != queue[i]
  {
  }

  lemma QueuedStep(w: World, act: Act, p: nat, b: nat, i: nat)
    requires Inv(w) && Enabled(w, act) && Waits(w, w, p, b, i)
    ensures var w' := Next(w, act);
      if !act.Interrupt? then Waits(w, w', p, b, i)
      else if i > 0 then Waits(w, w', p, b, i - 1)
      else Done(w, w', p, b)
  {
    HeldReason(w, act, p, b);
    HolderCount(w, act);
    QueueMoves(w, act, i);
    if act.Interrupt? && i == 0 {
      ServedDone(w, p, b);
      hide Inv, Done, Waits, Next, Enabled;
    } else if On(w, act, b) {
      Others(w, act, b);
      WhereNext(w, act, p, b);
      hide Sound, Orderly, Next, Enabled, On;
    } else {
      Elsewhere(w, act, b);
      WhereNext(w, act, p, b);
      hide Sound, Orderly, Next, Enabled, On;
    }
  }

  lemma ServedDone(w: World, p: nat, b: nat)
    requires Inv(w) && Waits(w, w, p, b, 0)
    ensures Done(w, Next(w, Interrupt), p, b)
  {
    HeldReason(w, Interrupt, p, b);
    HolderCount(w, Interrupt);
    WhereNext(w, Interrupt, p, b);
    ServedFresh(w);
    hide Sound, Orderly, Next, Enabled;
  }

  /** A request with i others before it stays as it is for i interrupts and is done at the next one,
      whatever the other processes do meanwhile. */
  lemma {:induction false} QueuedRun(w: World, acts: seq<Act>, p: nat, b: nat, i: nat)
    requires Inv(w) && Legal(w, acts) && Patient(acts, p) && Waits(w, w, p, b, i)
    ensures var w', k := After(w, acts), Interrupts(acts);
      if k <= i then Waits(w, w', p, b, i - k) else Done(w, w', p, b)
    decreases |acts|
  {
    hide Inv, Enabled, Next, Kept, Waits, Done;
    if acts != [] {
      var w1 := Next(w, acts[0]);
      PatientSplit(acts, p);
      StepKeeps(w, acts[0]);
      QueuedStep(w, acts[0], p, b, i);
      if acts[0].Interrupt? && i == 0 {
        DoneKept(w, w1, w1, p, b);
        HeldRun(w1, acts[1..], p, b);
        DoneKept(w, w1, After(w1, acts[1..]), p, b);
      } else {
        var j := if acts[0].Interrupt? then i - 1 else i;
        WaitsTrans(w, w1, w1, p, b, j, j);
        QueuedRun(w1, acts[1..], p, b, j);
        WaitsTrans(w, w1, After(w1, acts[1..]), p, b, j, j - Interrupts(acts[1..]));
      }
    }
  }

  lemma DoneKept(w: World, w1: World, w2: World, p: nat, b: nat)
    requires Done(w, w1, p, b)
    ensures Kept(w1, w1, p, b)
    ensures Kept(w1, w2, p, b) ==> Done(w, w2, p, b)
  {
  }

  lemma WaitsTrans(w: World, w1: World, w2: World, p: nat, b: nat, j: nat, k: int)
    requires Waits(w, w1, p, b, j)
    ensures Waits(w1, w1, p, b, j)
    ensures k >= 0 && Waits(w1, w2, p, b, k) ==> Waits(w, w2, p, b, k)
    ensures Done(w1, w2, p, b) ==> Done(w, w2, p, b)
  {
  }

  /** iderw among other processes: the caller is back only once its request is done, and can be
      from as many interrupts on as there were requests before it, and one. */
  lemma IderwRun(w: World, acts: seq<Act>, p: nat, b: nat)
    requires Inv(w) && Legal(w, [Submit(p, b)] + acts) && Patient(acts, p)
    ensures var w', n := After(w, [Submit(p, b)] + acts), |w.cache.queue|;
      && (if Interrupts(acts) <= n then Waits(w, w', p, b, n - Interrupts(acts)) else Done(w, w', p, b))
      && (p < |w'.procs| && w'.procs[p] == Free ==> Done(w, w', p, b))
  {
    hide Inv, Legal, After, Kept, Done;
    var act := Submit(p, b);
    assert ([act] + acts)[1..] == acts;
    LegalTail(w, [act] + acts);
    var w1 := Next(w, act);
    SubmitWaits(w, p, b);
    WaitsTrans(w, w1, w1, p, b, |w.cache.queue|, |w.cache.queue|);
    QueuedRun(w1, acts, p, b, |w.cache.queue|);
    WaitsTrans(w, w1, After(w1, acts), p, b, |w.cache.queue|, |w.cache.queue| - Interrupts(acts));
    hide Next, Enabled;
  }

  lemma SubmitWaits(w: World, p: nat, b: nat)
    requires Inv(w) && Enabled(w, Submit(p, b))
    ensures Waits(w, Next(w, Submit(p, b)), p, b, |w.cache.queue|)
  {
    assert w.cache.home[w.cache.slots[b].at] == b;
  }

  /** bread from the pass of bget that locks b on: iderw unless b is valid. Between the two,
      neither lock is held, and others may run. */
  function BreadActs(w: World, p: nat, b: nat, gap: seq<Act>): seq<Act>
    requires p < |w.procs| && w.procs[p].Asking? && b < |w.cache.slots|
  {
    if w.cache.slots[b].at == w.procs[p].a && w.cache.slots[b].valid then [Scan(p, b)] + gap
    else [Scan(p, b)] + gap + [Submit(p, b)]
  }

  /** bread among other processes: the caller gets the block's contents, which nobody has changed
      since it locked the buffer. */
  lemma BreadRun(w: World, gap: seq<Act>, acts: seq<Act>, p: nat, b: nat)
    requires Inv(w) && p < |w.procs| && w.procs[p].Asking? && b < |w.cache.slots| && !w.cache.slots[b].busy
    requires Legal(w, BreadActs(w, p, b, gap) + acts) && Patient(gap, p) && Patient(acts, p)
    ensures var a, w' := w.procs[p].a, After(w, BreadActs(w, p, b, gap) + acts);
      p < |w'.procs| && w'.procs[p] == Free ==> Delivered(w, w', p, b, a)
  {
    hide Inv, Legal, After, Enabled, Kept, Done;
    hide Next, Patient;
    var all, s := BreadActs(w, p, b, gap) + acts, Scan(p, b);
    LegalTail(w, all);
    var w1 := Next(w, s);
    ScanGets(w, p, b);
    if w.cache.slots[b].at == w.procs[p].a && w.cache.slots[b].valid {
      assert all[1..] == gap + acts;
      PatientConcat(gap, acts, p);
      HeldRun(w1, gap + acts, p, b);
      KeptDelivers(w, w1, After(w1, gap + acts), p, b);
    } else {
      assert all[1..] == gap + ([Submit(p, b)] + acts);
      HeldIderwRun(w1, gap, acts, p, b);
      var w' := After(w1, gap + ([Submit(p, b)] + acts));
      if p < |w'.procs| && w'.procs[p] == Free {
        DoneDelivers(w, w1, w', p, b);
      }
    }
  }

  lemma PatientConcat(xs: seq<Act>, ys: seq<Act>, p: nat)
    requires Patient(xs, p) && Patient(ys, p)
    ensures Patient(xs + ys, p)
  {
  }

  lemma {:induction false} AfterConcat(w: World, xs: seq<Act>, ys: seq<Act>)
    requires Inv(w) && Legal(w, xs + ys)
    ensures Legal(w, xs) && Inv(After(w, xs)) && Legal(After(w, xs), ys)
    ensures After(w, xs + ys) == After(After(w, xs), ys)
    decreases |xs|
  {
    hide Inv, Enabled, Next;
    if xs == [] {
      assert xs + ys == ys;
    } else {
      assert (xs + ys)[0] == xs[0] && (xs + ys)[1..] == xs[1..] + ys;
      StepKeeps(w, xs[0]);
      AfterConcat(Next(w, xs[0]), xs[1..], ys);
    }
  }

  /** iderw of a buffer that its holder has had locked while others ran. */
  lemma HeldIderwRun(w: World, gap: seq<Act>, acts: seq<Act>, p: nat, b: nat)
    requires Inv(w) && Kept(w, w, p, b)
    requires Legal(w, gap + ([Submit(p, b)] + acts)) && Patient(gap, p) && Patient(acts, p)
    ensures var w' := After(w, gap + ([Submit(p, b)] + acts));
      p < |w'.procs| && w'.procs[p] == Free ==> Done(w, w', p, b)
  {
    hide Inv, Legal, After, Enabled, Kept, Done, Patient;
    var rest := [Submit(p, b)] + acts;
    AfterConcat(w, gap, rest);
    HeldRun(w, gap, p, b);
    var w1 := After(w, gap);
    IderwRun(w1, acts, p, b);
    var w' := After(w1, rest);
    if p < |w'.procs| && w'.procs[p] == Free {
      KeptDone(w, w1, w', p, b);
    }
  }

  lemma KeptDone(w: World, w1: World, w2: World, p: nat, b: nat)
    requires Kept(w, w1, p, b) && Done(w1, w2, p, b)
    ensures Done(w, w2, p, b)
  {
  }

  /** p has b locked, with the contents block a had in w and still has. */
  ghost predicate Delivered(w: World, w': World, p: nat, b: nat, a: Addr) {
    var c, c' := w.cache, w'.cache;
    && b < |c'.slots| && b < |w'.holder| && a in c.view && a in c'.view
    && c'.slots[b].busy && w'.holder[b] == p && c'.slots[b].valid && c'.slots[b].at == a
    && c'.slots[b].data == c.view[a] == c'.view[a]
  }

  lemma LegalTail(w: World, acts: seq<Act>)
    requires Inv(w) && Legal(w, acts) && acts != []
    ensures Enabled(w, acts[0]) && Inv(Next(w, acts[0])) && Legal(Next(w, acts[0]), acts[1..])
    ensures After(w, acts) == After(Next(w, acts[0]), acts[1..])
  {
    StepKeeps(w, acts[0]);
  }

  lemma ScanGets(w: World, p: nat, b: nat)
    requires Inv(w) && Enabled(w, Scan(p, b)) && !w.cache.slots[b].busy
    ensures var a, w1 := w.procs[p].a, Next(w, Scan(p, b));
      && b < |w1.cache.slots| && w1.cache.slots[b].at == a && w1.cache.view == w.cache.view && a in w.cache.view
      && Kept(w1, w1, p, b)
      && (w.cache.slots[b].at == a && w.cache.slots[b].valid ==>
            w1.cache.slots[b].valid && w1.cache.slots[b].data == w.cache.view[a])
  {
    assert Reason(w, p);
    Unqueued(w, b);
    assert w.cache.slots[b].at.dev != NODEV ==> w.cache.home[w.cache.slots[b].at] == b;
  }

  lemma KeptDelivers(w: World, w1: World, w2: World, p: nat, b: nat)
    requires Kept(w1, w2, p, b) && w1.cache.view == w.cache.view && w1.cache.slots[b].valid
    requires w1.cache.slots[b].at in w.cache.view && w1.cache.slots[b].data == w.cache.view[w1.cache.slots[b].at]
    ensures Delivered(w, w2, p, b, w1.cache.slots[b].at)
  {
  }

  lemma DoneDelivers(w: World, w1: World, w2: World, p: nat, b: nat)
    requires w1.cache.view == w.cache.view && Done(w1, w2, p, b)
    ensures b < |w1.cache.slots| && Delivered(w, w2, p, b, w1.cache.slots[b].at)
  {
  }

  /** bwrite among other processes, who may also run between its setting of the flag and iderw:
      on return the disk has the buffer's contents. */
  lemma BwriteRun(w: World, gap: seq<Act>, acts: seq<Act>, p: nat, b: nat)
    requires Inv(w) && Legal(w, [Pin(p, b)] + gap + [Submit(p, b)] + acts) && Patient(gap, p) && Patient(acts, p)
    ensures b < |w.cache.slots|
    ensures var w' := After(w, [Pin(p, b)] + gap + [Submit(p, b)] + acts);
      var s := w.cache.slots[b];
      p < |w'.procs| && w'.procs[p] == Free ==>
        s.at in w'.cache.disk && w'.cache.disk[s.at] == s.data && Delivered(w, w', p, b, s.at)
  {
    hide Inv, Legal, After, Kept;
    var all := [Pin(p, b)] + gap + [Submit(p, b)] + acts;
    LegalTail(w, all);
    assert all[1..] == gap + ([Submit(p, b)] + acts);
    var w1 := Next(w, Pin(p, b));
    PinHolds(w, p, b);
    HeldIderwRun(w1, gap, acts, p, b);
    HeldView(w, b);
    var w' := After(w1, gap + ([Submit(p, b)] + acts));
    if p < |w'.procs| && w'.procs[p] == Free {
      DoneDelivers(w, w1, w', p, b);
    }
    hide Next, Patient;
  }

  lemma PinHolds(w: World, p: nat, b: nat)
    requires Inv(w) && Enabled(w, Pin(p, b))
    ensures Kept(Next(w, Pin(p, b)), Next(w, Pin(p, b)), p, b)
  {
    Unqueued(w, b);
    assert w.cache.home[w.cache.slots[b].at] == b;
  }

  lemma HeldView(w: World, b: nat)
    requires Inv(w) && b < |w.cache.slots| && w.cache.slots[b].busy && w.cache.slots[b].valid
    ensures w.cache.slots[b].at in w.cache.view && w.cache.view[w.cache.slots[b].at] == w.cache.slots[b].data
  {
    assert w.cache.home[w.cache.slots[b].at] == b;
  }

  // ---- bget without buffers ----

  /** The buffers that bget cannot recycle. */
  ghost function Taken(slots: seq<Slot>): set<nat> {
    set b | 0 <= b < |slots| && (slots[b].busy || slots[b].dirty)
  }

  /** A block in no buffer gets one exactly when fewer than all are locked or pinned. */
  lemma RoomIff(w: World, p: nat)
    requires p < |w.procs| && w.procs[p].Asking? && Uncached(w.cache.slots, w.procs[p].a)
    ensures (exists b :: Enabled(w, Scan(p, b))) <==> |Taken(w.cache.slots)| < |w.cache.slots|
  {
    var slots := w.cache.slots;
    var all := Below(|slots|);
    if exists b :: Enabled(w, Scan(p, b)) {
      var b :| Enabled(w, Scan(p, b));
      assert b in all && b !in Taken(slots);
      Smaller(Taken(slots), all - {b});
    } else {
      forall b | b in all
        ensures b in Taken(slots)
      {
        assert !Enabled(w, Scan(p, b));
      }
      assert Taken(slots) == all;
    }
  }

  /** As many pinned blocks as there are buffers leave none for any other block: bget panics. */
  lemma PinnedFull(w: World, p: nat, pinned: set<Addr>)
    requires Inv(w) && p < |w.procs| && w.procs[p].Asking? && w.procs[p].a !in pinned
    requires |pinned| == |w.cache.slots|
    requires forall a :: a in pinned ==> a in w.cache.home && w.cache.slots[w.cache.home[a]].dirty
    ensures forall b :: !Enabled(w, Scan(p, b))
  {
    var c := w.cache;
    forall b | 0 <= b < |c.slots|
      ensures c.slots[b].dirty && c.slots[b].at in pinned
    {
      HomesFill(c.slots, c.home, pinned, b);
    }
  }

  ghost function Homes(home: map<Addr, nat>, pinned: set<Addr>): set<nat>
    requires pinned <= home.Keys
  {
    set a | a in pinned :: home[a]
  }

  /** Distinct blocks have distinct buffers. */
  lemma {:induction false} HomesCount(slots: seq<Slot>, home: map<Addr, nat>, pinned: set<Addr>)
    requires forall a :: a in pinned ==> a in home && home[a] < |slots| && slots[home[a]].at == a
    ensures |Homes(home, pinned)| == |pinned|
  {
    if pinned != {} {
      var a :| a in pinned;
      HomesCount(slots, home, pinned - {a});
      assert Homes(home, pinned) == Homes(home, pinned - {a}) + {home[a]};
      assert home[a] !in Homes(home, pinned - {a});
    }
  }

  lemma HomesFill(slots: seq<Slot>, home: map<Addr, nat>, pinned: set<Addr>, b: nat)
    requires forall a :: a in pinned ==> a in home && home[a] < |slots| && slots[home[a]].at == a
    requires |pinned| == |slots| && b < |slots|
    ensures exists a :: a in pinned && home[a] == b
  {
    HomesCount(slots, home, pinned);
    var hs := Homes(home, pinned);
    if b !in hs {
      Smaller(hs, Below(|slots|) - {b});
    }
  }
}
