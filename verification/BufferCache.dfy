/** The block cache (kernel/bio.c) on its doubly linked ring, and the disk request queue
    (kernel/ide.c) that reads and writes its buffers. bcache.buf[] is static storage, so a
    pointer to a buffer is its slot number, HEAD is &bcache.head, and each field of struct buf
    is a sequence over the slots. */
module BufferCache {
  import opened Blocks

  type Data = Block

  const HEAD := NBUF

  /** The null pointer at the end of the request queue. */
  const NIL := NBUF

  /** `b->dev = -1` in a uint: no device has this number. */
  const NODEV: Uint := 0xFFFF_FFFF

  datatype Addr = Addr(dev: Uint, block: Uint)

  datatype Slot = Slot(busy: bool, valid: bool, dirty: bool, at: Addr, data: Data)
  {
    /** What iderw waits for. */
    predicate Synced() { valid && !dirty }
  }

  // ---- the ring ----

  /** pos inverts ring: pos[b] is b's place, at least |ring| when b is not on the ring. */
  ghost predicate Indexed(ring: seq<nat>, pos: seq<nat>) {
    && (forall i :: 0 <= i < |ring| ==> ring[i] < |pos| && pos[ring[i]] == i)
    && (forall b :: 0 <= b < |pos| && pos[b] < |ring| ==> ring[pos[b]] == b)
  }

  ghost function After(ring: seq<nat>, i: nat): nat
    requires i < |ring|
  {
    ring[if i + 1 == |ring| then 0 else i + 1]
  }

  ghost function Before(ring: seq<nat>, i: nat): nat
    requires i < |ring|
  {
    ring[if i == 0 then |ring| - 1 else i - 1]
  }

  /** next and prev lead round the ring in order and back. */
  ghost predicate Linked(next: seq<nat>, prev: seq<nat>, ring: seq<nat>, pos: seq<nat>) {
    && |next| == |prev| == |pos| && Indexed(ring, pos)
    && (forall b {:trigger next[b]} :: 0 <= b < |pos| && pos[b] < |ring| ==> next[b] == After(ring, pos[b]))
    && (forall b {:trigger prev[b]} :: 0 <= b < |pos| && pos[b] < |ring| ==> prev[b] == Before(ring, pos[b]))
  }

  ghost function Without(ring: seq<nat>, k: nat): (r: seq<nat>)
    requires k < |ring|
    ensures |r| == |ring| - 1 && forall i :: 0 <= i < |r| ==> r[i] == ring[if i < k then i else i + 1]
  {
    ring[..k] + ring[k+1..]
  }

  ghost function PosWithout(pos: seq<nat>, n: nat, k: nat): (r: seq<nat>)
    ensures |r| == |pos|
    ensures forall b {:trigger r[b]} :: 0 <= b < |r| ==>
      r[b] == if pos[b] < k then pos[b] else if k < pos[b] < n then pos[b] - 1 else n
  {
    seq(|pos|, b requires 0 <= b < |pos| => if pos[b] < k then pos[b] else if k < pos[b] < n then pos[b] - 1 else n)
  }

  ghost function WithSecond(ring: seq<nat>, b: nat): (r: seq<nat>)
    requires 0 < |ring|
    ensures |r| == |ring| + 1
    ensures forall i :: 0 <= i < |r| ==> r[i] == if i == 0 then ring[0] else if i == 1 then b else ring[i - 1]
  {
    [ring[0], b] + ring[1..]
  }

  ghost function PosWithSecond(pos: seq<nat>, b: nat): (r: seq<nat>)
    ensures |r| == |pos|
    ensures forall c {:trigger r[c]} :: 0 <= c < |r| ==>
      r[c] == if c == b then 1 else if 0 < pos[c] then pos[c] + 1 else pos[c]
  {
    seq(|pos|, c requires 0 <= c < |pos| => if c == b then 1 else if 0 < pos[c] then pos[c] + 1 else pos[c])
  }

  /** `b->next->prev = b->prev; b->prev->next = b->next` takes b out of the ring. */
  lemma Unlinked(next: seq<nat>, prev: seq<nat>, ring: seq<nat>, pos: seq<nat>, b: nat)
    requires Linked(next, prev, ring, pos) && b < |pos| && 0 < pos[b] < |ring|
    ensures next[b] < |prev| && prev[b] < |next|
    ensures Linked(next[prev[b] := next[b]], prev[next[b] := prev[b]], Without(ring, pos[b]),
        PosWithout(pos, |ring|, pos[b]))
  {
    IndexedWithout(ring, pos, pos[b]);
    AroundWithout(ring, pos[b]);
    hide Indexed, After, Before, Without;
  }

  /** Closing the gap at k: the neighbours of the other places. */
  lemma AroundWithout(ring: seq<nat>, k: nat)
    requires 0 < k < |ring|
    ensures var r := Without(ring, k);
      && (forall i {:trigger After(r, i)} :: 0 <= i < |r| ==>
            After(r, i) == if i == k - 1 then After(ring, k) else After(ring, if i < k then i else i + 1))
      && (forall i {:trigger Before(r, i)} :: 0 <= i < |r| ==>
            Before(r, i) == if i == (if k + 1 == |ring| then 0 else k) then Before(ring, k)
                else Before(ring, if i < k then i else i + 1))
    ensures After(ring, k) == ring[if k + 1 == |ring| then 0 else k + 1] && Before(ring, k) == ring[k - 1]
  {
  }

  lemma IndexedWithout(ring: seq<nat>, pos: seq<nat>, k: nat)
    requires Indexed(ring, pos) && k < |ring|
    ensures Indexed(Without(ring, k), PosWithout(pos, |ring|, k))
    ensures forall b :: 0 <= b < |pos| && pos[b] < |ring| ==> ring[pos[b]] == b
    ensures forall i :: 0 <= i < |ring| ==> ring[i] < |pos| && pos[ring[i]] == i
  {
  }

  /** The four assignments that link b in behind the head. */
  lemma LinkedFirst(next: seq<nat>, prev: seq<nat>, ring: seq<nat>, pos: seq<nat>, b: nat, head: nat)
    requires Linked(next, prev, ring, pos) && b < |pos| && pos[b] >= |ring| > 0 && ring[0] == head
    ensures head < |next| && next[head] < |prev|
    ensures Linked(next[b := next[head]][head := b], prev[b := head][next[head] := b], WithSecond(ring, b),
        PosWithSecond(pos, b))
  {
    assert Indexed(WithSecond(ring, b), PosWithSecond(pos, b));
  }

  /** The ring after brelse of the buffer at place k. */
  ghost function Released(ring: seq<nat>, k: nat): (r: seq<nat>)
    requires 0 < k < |ring|
    ensures |r| == |ring|
    ensures forall i :: 0 <= i < |r| ==>
        r[i] == ring[if i == 0 then 0 else if i == 1 then k else if i <= k then i - 1 else i]
  {
    WithSecond(Without(ring, k), ring[k])
  }

  ghost function PosReleased(pos: seq<nat>, n: nat, b: nat): (r: seq<nat>)
    requires b < |pos| && 0 < pos[b] < n
    ensures |r| == |pos|
    ensures forall c {:trigger r[c]} :: 0 <= c < |r| && pos[c] < n && (c == b || pos[c] != pos[b]) ==> r[c] < n
  {
    PosWithSecond(PosWithout(pos, n, pos[b]), b)
  }

  /** brelse's six assignments put b behind the head and keep the others' order. */
  lemma Relinked(next: seq<nat>, prev: seq<nat>, ring: seq<nat>, pos: seq<nat>, b: nat)
    requires Linked(next, prev, ring, pos) && b < |pos| && 0 < pos[b] < |ring|
    ensures next[b] < |prev| && prev[b] < |next|
    ensures var next', prev' := next[prev[b] := next[b]], prev[next[b] := prev[b]];
      var head := ring[0];
      && head < |next'| && next'[head] < |prev'|
      && Linked(next'[b := next'[head]][head := b], prev'[b := head][next'[head] := b],
                Released(ring, pos[b]), PosReleased(pos, |ring|, b))
  {
    Unlinked(next, prev, ring, pos, b);
    hide Linked;
    var next', prev' := next[prev[b] := next[b]], prev[next[b] := prev[b]];
    assert ring[pos[b]] == b by { LinkedIndexed(next, prev, ring, pos); }
    LinkedFirst(next', prev', Without(ring, pos[b]), PosWithout(pos, |ring|, pos[b]), b, ring[0]);
  }

  lemma LinkedIndexed(next: seq<nat>, prev: seq<nat>, ring: seq<nat>, pos: seq<nat>)
    requires Linked(next, prev, ring, pos)
    ensures Indexed(ring, pos)
  {
  }

  // ---- recency ----

  /** When b was last released; buffers never released come before, in initial ring order. */
  ghost function LastRelease(history: seq<nat>, b: nat): int {
    if history == [] then b - NBUF
    else if history[|history|-1] == b then |history|
    else LastRelease(history[..|history|-1], b)
  }

  /** Nearer the head means released more recently. */
  ghost predicate MostRecentFirst(ring: seq<nat>, history: seq<nat>) {
    forall i, j :: 1 <= i < j < |ring| ==> LastRelease(history, ring[i]) > LastRelease(history, ring[j])
  }

  lemma {:induction false} LastReleaseBound(history: seq<nat>, b: nat)
    requires b < NBUF
    ensures LastRelease(history, b) <= |history|
  {
    if history != [] {
      LastReleaseBound(history[..|history|-1], b);
    }
  }

  lemma ReleaseOrder(ring: seq<nat>, pos: seq<nat>, history: seq<nat>, k: nat)
    requires Indexed(ring, pos) && 0 < k < |ring|
    requires forall i :: 1 <= i < |ring| ==> ring[i] < NBUF
    requires MostRecentFirst(ring, history)
    ensures MostRecentFirst(Released(ring, k), history + [ring[k]])
  {
    var r, h := Released(ring, k), history + [ring[k]];
    forall i | 1 <= i < |ring|
      ensures LastRelease(h, ring[i]) == if i == k then |h| else LastRelease(history, ring[i])
      ensures i != k ==> LastRelease(h, ring[i]) < |h|
    {
      assert h[..|h|-1] == history;
      LastReleaseBound(history, ring[i]);
      assert i != k ==> ring[i] != ring[k];
    }
  }

  // ---- what the cache stands for ----

  /** At most one buffer, home[a], holds block a; it shows the block's contents when valid or
      dirty, and when idle and clean it agrees with the disk. */
  ghost predicate Cached(slots: seq<Slot>, home: map<Addr, nat>, disk: map<Addr, Data>, view: map<Addr, Data>) {
    && view.Keys == disk.Keys
    && (forall a :: a in home ==> a.dev != NODEV && a in disk && home[a] < |slots| && slots[home[a]].at == a)
    && (forall b :: 0 <= b < |slots| && slots[b].at.dev != NODEV ==> slots[b].at in home && home[slots[b].at] == b)
    && (forall b :: 0 <= b < |slots| && slots[b].at.dev == NODEV ==>
        !slots[b].busy && !slots[b].valid && !slots[b].dirty)
    && (forall a :: a in disk ==> view[a] == if Shown(slots, home, a) then slots[home[a]].data else disk[a])
    && (forall b :: 0 <= b < |slots| && !slots[b].busy && slots[b].at.dev != NODEV ==>
          slots[b].valid && (slots[b].dirty || slots[b].data == disk[slots[b].at]))
  }

  ghost predicate Shown(slots: seq<Slot>, home: map<Addr, nat>, a: Addr) {
    a in home && home[a] < |slots| && (slots[home[a]].valid || slots[home[a]].dirty)
  }

  // ---- one buffer changes ----

  lemma CachedHome(slots: seq<Slot>, home: map<Addr, nat>, disk: map<Addr, Data>, view: map<Addr, Data>, a: Addr)
    requires Cached(slots, home, disk, view) && a.dev != NODEV
    ensures forall b :: 0 <= b < |slots| && slots[b].at == a ==> a in home && home[a] == b
    ensures (forall b :: 0 <= b < |slots| ==> slots[b].at != a) ==> a !in home
  {
  }

  /** A released buffer. */
  lemma CachedIdle(slots: seq<Slot>, home: map<Addr, nat>, disk: map<Addr, Data>, view: map<Addr, Data>, b: nat)
    requires Cached(slots, home, disk, view) && b < |slots| && slots[b].busy
    requires slots[b].valid && slots[b].at in disk && (slots[b].dirty || slots[b].data == disk[slots[b].at])
    ensures Cached(slots[b := slots[b].(busy := false)], home, disk, view)
  {
  }

  /** bget's hit on an idle buffer. */
  lemma CachedLock(slots: seq<Slot>, home: map<Addr, nat>, disk: map<Addr, Data>, view: map<Addr, Data>, b: nat)
    requires Cached(slots, home, disk, view) && b < |slots| && slots[b].at.dev != NODEV
    ensures Cached(slots[b := slots[b].(busy := true)], home, disk, view)
  {
  }

  /** bget's recycling of an idle clean buffer for block a, which no buffer holds. */
  lemma CachedRecycle(slots: seq<Slot>, home: map<Addr, nat>, disk: map<Addr, Data>, view: map<Addr, Data>, b: nat,
                      a: Addr)
    requires Cached(slots, home, disk, view) && b < |slots| && !slots[b].busy && !slots[b].dirty
    requires a !in home && a.dev != NODEV && a in disk
    ensures Cached(slots[b := Slot(true, false, false, a, slots[b].data)], (home - {slots[b].at})[a := b], disk, view)
  {
    var slots', home' := slots[b := Slot(true, false, false, a, slots[b].data)], (home - {slots[b].at})[a := b];
    forall c | 0 <= c < |slots| && slots'[c].at.dev != NODEV
      ensures slots'[c].at in home' && home'[slots'[c].at] == c
    {
      assert c != b ==> home[slots[c].at] == c;
    }
    forall x | x in disk
      ensures view[x] == if Shown(slots', home', x) then slots'[home'[x]].data else disk[x]
    {
      assert view[x] == if Shown(slots, home, x) then slots[home[x]].data else disk[x];
    }
  }

  /** The driver's completion of a read or a write. */
  function Completed(s: Slot, disk: map<Addr, Data>): (r: Slot)
    requires s.at in disk
    ensures r.Synced() && r.busy == s.busy && r.at == s.at && (s.dirty ==> r.data == s.data)
    ensures !s.dirty ==> r.data == disk[s.at]
  {
    s.(valid := true, dirty := false, data := if s.dirty then s.data else disk[s.at])
  }

  function DiskAfter(s: Slot, disk: map<Addr, Data>): map<Addr, Data> {
    if s.dirty then disk[s.at := s.data] else disk
  }

  lemma CachedComplete(slots: seq<Slot>, home: map<Addr, nat>, disk: map<Addr, Data>, view: map<Addr, Data>, b: nat)
    requires Cached(slots, home, disk, view) && b < |slots| && slots[b].at.dev != NODEV && !slots[b].Synced()
    ensures slots[b].at in disk
    ensures Cached(slots[b := Completed(slots[b], disk)], home, DiskAfter(slots[b], disk), view)
    ensures Completed(slots[b], disk).data == view[slots[b].at]
  {
    var slots', disk' := slots[b := Completed(slots[b], disk)], DiskAfter(slots[b], disk);
    assert home[slots[b].at] == b;
    forall x | x in disk'
      ensures view[x] == if Shown(slots', home, x) then slots'[home[x]].data else disk'[x]
    {
      assert view[x] == if Shown(slots, home, x) then slots[home[x]].data else disk[x];
    }
    forall c | 0 <= c < |slots| && !slots'[c].busy && slots'[c].at.dev != NODEV
      ensures slots'[c].valid && (slots'[c].dirty || slots'[c].data == disk'[slots'[c].at])
    {
      assert c != b ==> home[slots[c].at] == c;
    }
  }

  /** The owner of a busy buffer changes its data. */
  lemma CachedEdit(slots: seq<Slot>, home: map<Addr, nat>, disk: map<Addr, Data>, view: map<Addr, Data>, b: nat,
                   data: Data)
    requires Cached(slots, home, disk, view) && b < |slots| && slots[b].busy && slots[b].valid
    ensures Cached(slots[b := slots[b].(data := data)], home, disk, view[slots[b].at := data])
  {
    var slots', view' := slots[b := slots[b].(data := data)], view[slots[b].at := data];
    forall x | x in disk
      ensures view'[x] == if Shown(slots', home, x) then slots'[home[x]].data else disk[x]
    {
      assert view[x] == if Shown(slots, home, x) then slots[home[x]].data else disk[x];
    }
  }

  /** log_write, and the first half of bwrite. */
  lemma CachedPin(slots: seq<Slot>, home: map<Addr, nat>, disk: map<Addr, Data>, view: map<Addr, Data>, b: nat)
    requires Cached(slots, home, disk, view) && b < |slots| && slots[b].valid
    ensures Cached(slots[b := slots[b].(dirty := true)], home, disk, view)
  {
    var slots' := slots[b := slots[b].(dirty := true)];
    forall x | x in disk
      ensures view[x] == if Shown(slots', home, x) then slots'[home[x]].data else disk[x]
    {
      assert view[x] == if Shown(slots, home, x) then slots[home[x]].data else disk[x];
    }
  }

  // ---- the steps of the cache ----

  /** The cache without its pointers: the buffers, which one holds each block, the disk, the
      contents its users see, and the requests waiting for the driver. */
  datatype Cache = Cache(slots: seq<Slot>, home: map<Addr, nat>, disk: map<Addr, Data>, view: map<Addr, Data>,
                         queue: seq<nat>)
  {
    function Locked(b: nat): Cache
      requires b < |slots|
    {
      this.(slots := slots[b := slots[b].(busy := true)])
    }

    function Unlocked(b: nat): Cache
      requires b < |slots|
    {
      this.(slots := slots[b := slots[b].(busy := false)])
    }

    function Recycled(b: nat, a: Addr): Cache
      requires b < |slots|
    {
      this.(slots := slots[b := Slot(true, false, false, a, slots[b].data)], home := (home - {slots[b].at})[a := b])
    }

    function Edited(b: nat, data: Data): Cache
      requires b < |slots|
    {
      this.(slots := slots[b := slots[b].(data := data)], view := view[slots[b].at := data])
    }

    function Pinned(b: nat): Cache
      requires b < |slots|
    {
      this.(slots := slots[b := slots[b].(dirty := true)])
    }

    function Queued(b: nat): Cache {
      this.(queue := queue + [b])
    }

    /** The driver finishes the first request. */
    function Served(): Cache
      requires queue != [] && queue[0] < |slots| && slots[queue[0]].at in disk
    {
      var b := queue[0];
      this.(slots := slots[b := Completed(slots[b], disk)], disk := DiskAfter(slots[b], disk), queue := queue[1..])
    }
  }

  // ---- the request queue ----

  /** What idestart tells the controller. */
  datatype Command = Read(at: Addr) | Write(at: Addr, data: Data)

  function CommandFor(s: Slot): Command {
    if s.dirty then Write(s.at, s.data) else Read(s.at)
  }

  function Performed(command: Command, disk: map<Addr, Data>): map<Addr, Data> {
    if command.Write? then disk[command.at := command.data] else disk
  }

  /** The controller works on the first request. */
  ghost predicate Active(slots: seq<Slot>, queue: seq<nat>, command: Command) {
    queue != [] ==> queue[0] < |slots| && command == CommandFor(slots[queue[0]])
  }

  /** qnext leads from first along queue to NIL; served counts the requests completed, and
      ticket numbers each waiting one; nothing waiting is synced. */
  ghost predicate Waiting(slots: seq<Slot>, first: nat, qnext: seq<nat>, queue: seq<nat>, ticket: seq<nat>,
                          served: nat) {
    && |slots| == |qnext| == |ticket|
    && first == (if queue == [] then NIL else queue[0])
    && (forall i :: 0 <= i < |queue| ==> queue[i] < |slots| && ticket[queue[i]] == served + i)
    && (forall i {:trigger qnext[queue[i]]} :: 0 <= i < |queue| ==>
        qnext[queue[i]] == if i + 1 == |queue| then NIL else queue[i + 1])
    && (forall i :: 0 <= i < |queue| ==>
        slots[queue[i]].busy && !slots[queue[i]].Synced() && slots[queue[i]].at.dev != NODEV)
  }

  lemma Enqueued(slots: seq<Slot>, first: nat, qnext: seq<nat>, queue: seq<nat>, ticket: seq<nat>, served: nat, b: nat)
    requires Waiting(slots, first, qnext, queue, ticket, served) && |slots| == NBUF
    requires b < |slots| && b !in queue && slots[b].busy && !slots[b].Synced() && slots[b].at.dev != NODEV
    ensures var q := qnext[b := NIL];
      Waiting(slots, if queue == [] then b else first, if queue == [] then q else q[queue[|queue|-1] := b],
              queue + [b], ticket[b := served + |queue|], served)
  {
  }

  lemma WaitingElsewhere(slots: seq<Slot>, first: nat, qnext: seq<nat>, queue: seq<nat>, ticket: seq<nat>, served: nat,
                         b: nat, s: Slot)
    requires Waiting(slots, first, qnext, queue, ticket, served) && b < |slots| && b !in queue
    ensures Waiting(slots[b := s], first, qnext, queue, ticket, served)
  {
  }

  lemma IdleNotQueued(slots: seq<Slot>, first: nat, qnext: seq<nat>, queue: seq<nat>, ticket: seq<nat>, served: nat,
                      b: nat)
    requires Waiting(slots, first, qnext, queue, ticket, served) && b < |slots|
    requires !slots[b].busy || slots[b].Synced()
    ensures b !in queue
  {
  }

  lemma Dequeued(slots: seq<Slot>, first: nat, qnext: seq<nat>, queue: seq<nat>, ticket: seq<nat>, served: nat, s: Slot)
    requires Waiting(slots, first, qnext, queue, ticket, served) && queue != []
    ensures Waiting(slots[queue[0] := s], qnext[queue[0]], qnext, queue[1..], ticket, served + 1)
  {
  }

  datatype Found = Got(b: nat) | Asleep(on: nat) | NoBuffers

  class Bcache {
    var slot: seq<Slot>
    var next: seq<nat>
    var prev: seq<nat>
    var qnext: seq<nat>
    var idequeue: nat
    var disk: map<Addr, Data>
    /** The last command given to the disk controller. */
    var command: Command

    /** head, then every buffer, most recently released first. */
    ghost var ring: seq<nat>
    ghost var pos: seq<nat>
    ghost var history: seq<nat>
    ghost var home: map<Addr, nat>
    /** The contents of every block, as the kernel's users see them. */
    ghost var view: map<Addr, Data>
    /** The requests the driver holds, the active one first. */
    ghost var queue: seq<nat>
    ghost var ticket: seq<nat>
    ghost var served: nat

    ghost predicate Sizes()
      reads this
    {
      && |slot| == |qnext| == |ticket| == NBUF
      && |next| == |prev| == NBUF + 1
    }

    /** The disk, the buffer and the view agree on b's block. */
    ghost predicate Fresh(b: nat)
      requires b < |slot|
      reads this`slot, this`disk, this`view
    {
      var a := slot[b].at;
      a in disk && a in view && disk[a] == slot[b].data == view[a]
    }

    ghost predicate RingOk()
      reads this`ring, this`pos, this`history, this`next, this`prev
    {
      && Linked(next, prev, ring, pos)
      && |pos| == |ring| == NBUF + 1 && ring[0] == HEAD
      && (forall b :: 0 <= b < |pos| ==> pos[b] < |ring|)
      && MostRecentFirst(ring, history)
    }

    ghost predicate Valid()
      reads this
    {
      && Sizes() && RingOk()
      && Cached(slot, home, disk, view)
      && Waiting(slot, idequeue, qnext, queue, ticket, served)
      && Active(slot, queue, command)
    }

    ghost function V(): Cache
      reads this`slot, this`home, this`disk, this`view, this`queue
    {
      Cache(slot, home, disk, view, queue)
    }

    /** The zeroed static storage, before binit. */
    constructor (disk: map<Addr, Data>)
      ensures Sizes() && idequeue == NIL && this.disk == disk
      ensures forall b :: 0 <= b < NBUF ==> slot[b] == Slot(false, false, false, Addr(0, 0), ZERO)
    {
      slot := seq(NBUF, _ => Slot(false, false, false, Addr(0, 0), ZERO));
      next, prev, qnext := seq(NBUF + 1, _ => 0), seq(NBUF + 1, _ => 0), seq(NBUF, _ => 0);
      ticket := seq(NBUF, _ => 0);
      idequeue, this.disk, command := NIL, disk, Read(Addr(0, 0));
    }

    /** binit has linked the first b buffers, the latest nearest the head. */
    ghost predicate LinkedUpTo(b: nat)
      requires b <= NBUF
      reads this
    {
      && Sizes() && Linked(next, prev, ring, pos)
      && |ring| == b + 1 && ring[0] == HEAD && |pos| == NBUF + 1 && pos[HEAD] == 0
      && (forall i :: 1 <= i <= b ==> ring[i] == b - i)
      && (forall c :: b <= c < NBUF ==> pos[c] > NBUF)
      && (forall c :: 0 <= c < b ==> pos[c] <= b && slot[c].at.dev == NODEV)
      && (forall c :: 0 <= c < NBUF ==> !slot[c].busy && !slot[c].valid && !slot[c].dirty)
    }

    /** `b->next = head.next; b->prev = &head; head.next->prev = b; head.next = b` */
    method LinkFirst(b: nat)
      requires Sizes() && b < NBUF && next[HEAD] <= NBUF
      modifies this`next, this`prev
      ensures next == old(next)[b := old(next[HEAD])][HEAD := b]
      ensures prev == old(prev)[b := HEAD][old(next[HEAD]) := b]
    {
      next := next[b := next[HEAD]];
      prev := prev[b := HEAD];
      prev := prev[next[HEAD] := b];
      next := next[HEAD := b];
    }

    method BinitTurn(b: nat)
      requires b < NBUF && LinkedUpTo(b)
      modifies this`ring, this`pos, this`slot, this`next, this`prev
      ensures LinkedUpTo(b + 1)
    {
      LinkedFirst(next, prev, ring, pos, b, HEAD);
      LinkFirst(b);
      slot := slot[b := slot[b].(at := Addr(NODEV, slot[b].at.block))];
      ring, pos := WithSecond(ring, b), PosWithSecond(pos, b);
    }

    /** binit: every buffer on the ring, none of them caching anything. */
    method Binit()
      requires Sizes() && idequeue == NIL
      requires forall b :: 0 <= b < NBUF ==> slot[b] == Slot(false, false, false, Addr(0, 0), ZERO)
      modifies this
      ensures Valid() && view == disk == old(disk) && queue == [] && history == []
      ensures forall b :: 0 <= b < NBUF ==> !slot[b].busy
    {
      hide LinkedUpTo, Cached, Waiting, RingOk, Linked;
      history, home, view, queue := [], map[], disk, [];
      BinitHead();
      for b := 0 to NBUF
        invariant LinkedUpTo(b)
        modifies this`ring, this`pos, this`slot, this`next, this`prev
      {
        BinitTurn(b);
      }
      BinitEnd();
    }

    /** The ring of the head alone. */
    method BinitHead()
      requires Sizes()
      requires forall b :: 0 <= b < NBUF ==> slot[b] == Slot(false, false, false, Addr(0, 0), ZERO)
      modifies this`prev, this`next, this`ring, this`pos
      ensures LinkedUpTo(0)
    {
      hide LinkedUpTo, Linked;
      prev, next := prev[HEAD := HEAD], next[HEAD := HEAD];
      ring, pos := [HEAD], seq(NBUF, _ => NBUF + 1) + [0];
      BinitStart();
    }

    lemma BinitStart()
      requires Sizes() && ring == [HEAD] && pos == seq(NBUF, _ => NBUF + 1) + [0]
      requires next[HEAD] == prev[HEAD] == HEAD
      requires forall b :: 0 <= b < NBUF ==> slot[b] == Slot(false, false, false, Addr(0, 0), ZERO)
      ensures LinkedUpTo(0)
    {
    }

    lemma BinitEnd()
      requires LinkedUpTo(NBUF) && idequeue == NIL
      requires history == [] && home == map[] && view == disk && queue == []
      ensures Valid()
      ensures forall b :: 0 <= b < NBUF ==> !slot[b].busy
    {
      hide Linked;
    }

    /** `b->next->prev = b->prev; b->prev->next = b->next` */
    method Unlink(b: nat)
      requires Sizes() && b < NBUF && next[b] <= NBUF && prev[b] <= NBUF
      modifies this`next, this`prev
      ensures next == old(next)[old(prev[b]) := old(next[b])]
      ensures prev == old(prev)[old(next[b]) := old(prev[b])]
    {
      var n, p := next[b], prev[b];
      prev := prev[n := p];
      next := next[p := n];
    }

    lemma RingFacts(b: nat)
      requires RingOk() && b < NBUF
      ensures Indexed(ring, pos) && 0 < pos[b] && ring[pos[b]] == b
      ensures forall i :: 1 <= i < |ring| ==> ring[i] < NBUF
      ensures forall c :: 0 <= c < |pos| && c != b ==> pos[c] != pos[b]
    {
    }

    /** brelse's relinking. */
    method MoveToFront(b: nat)
      requires Sizes() && RingOk() && b < NBUF
      modifies this`ring, this`pos, this`history, this`next, this`prev
      ensures Sizes() && RingOk() && history == old(history) + [b]
      ensures 0 < old(pos[b]) < |old(ring)| && ring == Released(old(ring), old(pos[b]))
    {
      hide Linked, MostRecentFirst, Indexed, Released, PosReleased;
      ghost var k := pos[b];
      RingFacts(b);
      Relinked(next, prev, ring, pos, b);
      ReleaseOrder(ring, pos, history, k);
      Unlink(b);
      LinkFirst(b);
      ring, pos := Released(ring, k), PosReleased(pos, |ring|, b);
      history := history + [b];
    }

    /** brelse: b becomes idle, and the most recently released buffer. */
    method Brelse(b: nat)
      requires Valid() && b < NBUF && slot[b].busy && b !in queue
      requires slot[b].valid && slot[b].at in disk && (slot[b].dirty || slot[b].data == disk[slot[b].at])
      modifies this`ring, this`pos, this`history, this`next, this`prev, this`slot
      ensures Valid() && history == old(history) + [b]
      ensures 0 < old(pos[b]) < |old(ring)| && ring == Released(old(ring), old(pos[b]))
      ensures V() == old(V()).Unlocked(b) && slot == old(slot)[b := old(slot)[b].(busy := false)]
    {
      hide RingOk, Cached, Waiting;
      CachedIdle(slot, home, disk, view, b);
      WaitingElsewhere(slot, idequeue, qnext, queue, ticket, served, b, slot[b].(busy := false));
      MoveToFront(b);
      slot := slot[b := slot[b].(busy := false)];
    }

    /** idestart: the controller gets b's command. */
    method Idestart(b: nat)
      requires Sizes() && b < NBUF
      modifies this`command
      ensures command == CommandFor(slot[b])
    {
      var s := slot[b];
      command := if s.dirty then Write(s.at, s.data) else Read(s.at);
    }

    /** ideintr: the controller has done the active request, and the next one is started. */
    method Ideintr()
      requires Valid()
      modifies this`idequeue, this`disk, this`queue, this`served, this`slot, this`command
      ensures Valid()
      ensures old(queue) == [] ==> V() == old(V())
      ensures old(queue) != [] ==>
        && old(queue)[0] < NBUF && old(slot)[old(queue)[0]].at in old(disk)
        && V() == old(V()).Served()
        && queue == old(queue)[1..]
      ensures queue != [] ==> queue[0] < NBUF && command == CommandFor(slot[queue[0]])
    {
      hide RingOk, Cached, Completed, DiskAfter, CommandFor, Slot.Synced;
      if idequeue == NIL {
        assert queue == [];
        return;
      }
      var b := idequeue;
      CachedComplete(slot, home, disk, view, b);
      Dequeued(slot, idequeue, qnext, queue, ticket, served, Completed(slot[b], disk));
      hide Waiting;
      Dequeue(b);
      Transfer(b);
      if idequeue != NIL {
        Idestart(idequeue);
      }
    }

    /** `idequeue = b->qnext` */
    method Dequeue(b: nat)
      requires Sizes() && b < NBUF && queue != []
      modifies this`idequeue, this`queue, this`served
      ensures idequeue == qnext[b] && queue == old(queue)[1..] && served == old(served) + 1
    {
      idequeue, queue, served := qnext[b], queue[1..], served + 1;
    }

    /** The controller's work on b, and ideintr's reading of the data and setting of the flags. */
    method Transfer(b: nat)
      requires Sizes() && b < NBUF && command == CommandFor(slot[b]) && slot[b].at in disk
      modifies this`disk, this`slot
      ensures slot == old(slot)[b := Completed(old(slot)[b], old(disk))] && disk == DiskAfter(old(slot)[b], old(disk))
    {
      var s := slot[b];
      if !s.dirty {
        s := s.(data := disk[command.at]);
      }
      disk := Performed(command, disk);
      slot := slot[b := s.(valid := true, dirty := false)];
    }

    /** `for (pp = &idequeue; *pp; pp = &(*pp)->qnext)` */
    method LastQueued() returns (p: nat)
      requires Valid()
      ensures if queue == [] then idequeue == NIL else idequeue == queue[0] != NIL && p < NBUF && p == queue[|queue|-1]
    {
      hide RingOk, Cached;
      p := idequeue;
      if p != NIL {
        ghost var i := 0;
        while qnext[p] != NIL
          invariant i < |queue| && p == queue[i] && p < NBUF
          decreases |queue| - i
        {
          assert qnext[queue[i]] == qnext[p];
          p, i := qnext[p], i + 1;
        }
        assert qnext[queue[i]] == NIL;
      }
    }

    /** iderw's append to the queue. */
    method Submit(b: nat)
      requires Valid() && b < NBUF && b !in queue && slot[b].busy && !slot[b].Synced() && slot[b].at.dev != NODEV
      modifies this`idequeue, this`queue, this`ticket, this`qnext, this`command
      ensures Valid() && V() == old(V()).Queued(b) && queue == old(queue) + [b]
    {
      hide Cached, RingOk, Waiting;
      Enqueued(slot, idequeue, qnext, queue, ticket, served, b);
      var last := LastQueued();
      qnext := qnext[b := NIL];
      if idequeue == NIL {
        idequeue := b;
      } else {
        qnext := qnext[last := b];
      }
      if idequeue == b {
        Idestart(b);
      }
      ticket, queue := ticket[b := served + |queue|], queue + [b];
    }

    /** iderw: queue b and wait for the driver to reach it. */
    method Iderw(b: nat)
      requires Valid() && b < NBUF && b !in queue && slot[b].busy && !slot[b].Synced() && slot[b].at.dev != NODEV
      modifies this`idequeue, this`queue, this`ticket, this`qnext, this`disk, this`served, this`slot, this`command
      ensures Valid() && queue == []
      ensures |slot| == |old(slot)| && slot[b].Synced() && slot[b].busy && slot[b].at == old(slot[b]).at
      ensures Fresh(b)
      ensures forall c :: 0 <= c < NBUF && c != b && c !in old(queue) ==> slot[c] == old(slot)[c]
    {
      hide RingOk, Cached, Waiting;
      ghost var q, s := queue + [b], slot;
      Submit(b);
      ghost var k := 0;
      while !slot[b].Synced()
        invariant Valid() && k <= |q| && queue == q[k..]
        invariant k < |q| ==> slot[b] == s[b]
        invariant k == |q| ==> slot[b].Synced() && slot[b].busy && slot[b].at == s[b].at
        invariant k == |q| ==> Fresh(b)
        invariant forall c :: 0 <= c < NBUF && c != b && c !in q ==> slot[c] == s[c]
        decreases |q| - k
      {
        assert k < |q|;
        IderwTurn(b, q, k);
        k := k + 1;
      }
    }

    method IderwTurn(b: nat, ghost q: seq<nat>, ghost k: nat)
      requires Valid() && k < |q| && queue == q[k..] && q[|q|-1] == b && b < NBUF
      modifies this`idequeue, this`disk, this`queue, this`served, this`slot, this`command
      ensures Valid() && queue == q[k+1..]
      ensures k + 1 < |q| ==> slot[b] == old(slot)[b]
      ensures k + 1 == |q| ==> slot[b].Synced() && slot[b].busy && slot[b].at == old(slot)[b].at
      ensures k + 1 == |q| ==> Fresh(b)
      ensures forall c :: 0 <= c < NBUF && c !in q ==> slot[c] == old(slot)[c]
    {
      hide RingOk;
      assert queue[0] == q[k] && queue[|queue|-1] == b;
      Ideintr();
    }

    lemma RingStep(i: nat)
      requires Sizes() && RingOk() && i < |ring|
      ensures ring[i] <= NBUF && (i > 0 ==> ring[i] < NBUF)
      ensures next[ring[i]] == ring[if i + 1 == |ring| then 0 else i + 1]
      ensures prev[ring[i]] == ring[if i == 0 then |ring| - 1 else i - 1]
    {
    }

    /** bget's first loop, from the most recently released buffer on; HEAD when none holds a. */
    method FindCached(a: Addr) returns (b: nat)
      requires Sizes() && RingOk()
      ensures b <= HEAD
      ensures b == HEAD ==> forall c :: 0 <= c < NBUF ==> slot[c].at != a
      ensures b != HEAD ==> slot[b].at == a
    {
      hide Linked, MostRecentFirst;
      RingStep(0);
      b := next[HEAD];
      ghost var i := 1;
      while b != HEAD
        invariant 1 <= i <= |ring| && b == ring[if i == |ring| then 0 else i]
        invariant forall j :: 1 <= j < i ==> ring[j] < NBUF && slot[ring[j]].at != a
        decreases |ring| - i
      {
        RingStep(i);
        if slot[b].at == a {
          return;
        }
        b, i := next[b], i + 1;
      }
      forall c | 0 <= c < NBUF
        ensures slot[c].at != a
      {
        RingFacts(c);
      }
    }

    /** bget's second loop, from the least recently released buffer back; HEAD when every buffer
        is busy or dirty. */
    method FindIdle() returns (b: nat)
      requires Sizes() && RingOk()
      ensures b <= HEAD
      ensures b == HEAD ==> forall c :: 0 <= c < NBUF ==> slot[c].busy || slot[c].dirty
      ensures b != HEAD ==> !slot[b].busy && !slot[b].dirty
      ensures b != HEAD ==> forall c :: 0 <= c < NBUF && !slot[c].busy && !slot[c].dirty ==>
        LastRelease(history, b) <= LastRelease(history, c)
    {
      hide Linked;
      RingStep(0);
      b := prev[HEAD];
      ghost var i := |ring| - 1;
      while b != HEAD
        invariant 0 <= i < |ring| && b == ring[i]
        invariant forall j :: i < j < |ring| ==> ring[j] < NBUF && (slot[ring[j]].busy || slot[ring[j]].dirty)
        decreases i
      {
        RingStep(i);
        if !slot[b].busy && !slot[b].dirty {
          forall c | 0 <= c < NBUF && !slot[c].busy && !slot[c].dirty
            ensures LastRelease(history, b) <= LastRelease(history, c)
          {
            RingFacts(c);
          }
          return;
        }
        b, i := prev[b], i - 1;
      }
      forall c | 0 <= c < NBUF
        ensures slot[c].busy || slot[c].dirty
      {
        RingFacts(c);
      }
    }

    /** One pass of bget: the buffer holding a, locked; or a sleep on it while it is busy; or the
        least recently released idle clean buffer, recycled for a. */
    method Bget(a: Addr) returns (r: Found)
      requires Valid() && a.dev != NODEV && a in disk
      modifies this`slot, this`home
      ensures Valid()
      ensures forall b :: 0 <= b < NBUF && old(slot)[b].at == a ==>
        && r == (if old(slot)[b].busy then Asleep(b) else Got(b))
        && V() == old(V()).Locked(b) && slot == old(slot)[b := old(slot)[b].(busy := true)]
      ensures (forall b :: 0 <= b < NBUF ==> old(slot)[b].at != a) ==>
        match r
        case Asleep(_) => false
        case NoBuffers => V() == old(V()) && forall c :: 0 <= c < NBUF ==> slot[c].busy || slot[c].dirty
        case Got(b) =>
          && b < NBUF && !old(slot)[b].busy && !old(slot)[b].dirty
          && V() == old(V()).Recycled(b, a)
          && slot == old(slot)[b := Slot(true, false, false, a, old(slot)[b].data)]
          && forall c :: 0 <= c < NBUF && !old(slot)[c].busy && !old(slot)[c].dirty ==>
               LastRelease(history, b) <= LastRelease(history, c)
    {
      hide RingOk, Waiting, LastRelease, Cached;
      CachedHome(slot, home, disk, view, a);
      var b := FindCached(a);
      if b != HEAD {
        if !slot[b].busy {
          CachedLock(slot, home, disk, view, b);
          IdleNotQueued(slot, idequeue, qnext, queue, ticket, served, b);
          WaitingElsewhere(slot, idequeue, qnext, queue, ticket, served, b, slot[b].(busy := true));
          slot := slot[b := slot[b].(busy := true)];
          return Got(b);
        }
        assert slot[b := slot[b].(busy := true)] == slot;
        return Asleep(b);
      }
      b := FindIdle();
      if b != HEAD {
        CachedRecycle(slot, home, disk, view, b, a);
        IdleNotQueued(slot, idequeue, qnext, queue, ticket, served, b);
        WaitingElsewhere(slot, idequeue, qnext, queue, ticket, served, b, Slot(true, false, false, a, slot[b].data));
        home := (home - {slot[b].at})[a := b];
        slot := slot[b := Slot(true, false, false, a, slot[b].data)];
        return Got(b);
      }
      return NoBuffers;
    }

    lemma HeldShows(b: nat)
      requires Valid() && b < NBUF && slot[b].at.dev != NODEV
      ensures slot[b].at in disk && slot[b].at in view
      ensures slot[b].valid || slot[b].dirty ==> slot[b].data == view[slot[b].at]
      ensures !slot[b].busy ==> slot[b].valid
    {
      hide RingOk, Waiting;
      assert home[slot[b].at] == b;
    }

    /** bread: a locked buffer with the block's current contents. */
    method Bread(a: Addr) returns (r: Found)
      requires Valid() && a.dev != NODEV && a in disk
      modifies this`slot, this`home, this`idequeue, this`queue, this`ticket, this`qnext, this`disk, this`served,
          this`command
      ensures Valid()
      ensures r.Got? ==> r.b < NBUF && slot[r.b].busy && slot[r.b].valid && slot[r.b].at == a && r.b !in queue
      ensures r.Got? ==> a in view && slot[r.b].data == view[a]
      ensures !r.Got? ==> V() == old(V())
      ensures r.Asleep? <==> exists b :: 0 <= b < NBUF && old(slot)[b].at == a && old(slot)[b].busy
      ensures r.NoBuffers? <==> forall b :: 0 <= b < NBUF ==>
          old(slot)[b].at != a && (old(slot)[b].busy || old(slot)[b].dirty)
    {
      hide RingOk, Cached, LastRelease;
      ghost var h := if exists b :: 0 <= b < NBUF && slot[b].at == a then
        (var b :| 0 <= b < NBUF && slot[b].at == a; b) else HEAD;
      if h != HEAD { HeldShows(h); }
      r := Bget(a);
      match r
      case Got(b) =>
        IdleNotQueued(old(slot), idequeue, qnext, queue, ticket, served, b);
        if !slot[b].valid {
          Iderw(b);
        }
        HeldShows(b);
      case Asleep(b) => assert old(slot)[b].busy;
      case NoBuffers =>
    }

    /** The owner of a locked buffer changes its contents, and so the block's. */
    method Edit(b: nat, data: Data)
      requires Valid() && b < NBUF && slot[b].busy && slot[b].valid && b !in queue
      modifies this`slot, this`view
      ensures Valid()
      ensures V() == old(V()).Edited(b, data)
      ensures slot == old(slot)[b := old(slot)[b].(data := data)] && view == old(view)[old(slot)[b].at := data]
    {
      hide RingOk, Waiting, Cached;
      CachedEdit(slot, home, disk, view, b, data);
      WaitingElsewhere(slot, idequeue, qnext, queue, ticket, served, b, slot[b].(data := data));
      view := view[slot[b].at := data];
      slot := slot[b := slot[b].(data := data)];
    }

    /** log_write's `b->flags |= B_DIRTY`: bget will not recycle b until it is written. */
    method Pin(b: nat)
      requires Valid() && b < NBUF && slot[b].busy && slot[b].valid && b !in queue
      modifies this`slot
      ensures Valid()
      ensures V() == old(V()).Pinned(b) && slot == old(slot)[b := old(slot)[b].(dirty := true)]
    {
      hide RingOk, Waiting, Cached;
      CachedPin(slot, home, disk, view, b);
      WaitingElsewhere(slot, idequeue, qnext, queue, ticket, served, b, slot[b].(dirty := true));
      slot := slot[b := slot[b].(dirty := true)];
    }

    /** bwrite: on return the disk has the buffer's contents. */
    method Bwrite(b: nat)
      requires Valid() && b < NBUF && slot[b].busy && slot[b].valid && b !in queue && slot[b].at.dev != NODEV
      modifies this`slot, this`idequeue, this`queue, this`ticket, this`qnext, this`disk, this`served, this`command
      ensures Valid() && queue == []
      ensures |slot| == NBUF && slot[b].Synced() && slot[b].busy && slot[b].at == old(slot)[b].at
      ensures slot[b].data == old(slot)[b].data && Fresh(b)
    {
      hide RingOk, Waiting, Cached;
      HeldShows(b);
      Pin(b);
      Iderw(b);
    }
  }
}
