/** Physical pages, who uses each of them, and the two-level tables built from them
    (kernel/vm.c, kernel/kalloc.c). A physical address is a frame number and an offset, and a
    kernel pointer to a page is the number of the frame it maps: p2v and v2p are the identity. */
module PageTables {
  import opened Blocks

  const NPTENTRIES := 1024
  const PGSIZE := 4096

  /** Pages below KERNBASE belong to the user. */
  const USER := 0x8_0000
  const NPAGES := 0x10_0000

  /** A table entry's word: the page number in its upper bits and the flag bits. */
  datatype Pte = Pte(frame: nat, flags: nat) {
    predicate Present() { flags % 2 == 1 }
  }

  const NONE := Pte(0, 0)

  /** What a page is used as: a free-list node, a table or a directory, or plain bytes. */
  datatype Page = Run(next: nat) | Table(e: seq<Pte>) | Data(b: seq<Byte>)

  /** The one use of a frame that the kernel allocator manages. */
  datatype Owner =
    | Free(i: nat)
    | Directory(d: nat)
    | Tables(d: nat, x: nat)
    | User(d: nat, v: nat)

  /** A page directory's tables by directory index, and what they map by virtual page number. */
  datatype Space = Space(tables: map<nat, nat>, pte: map<nat, Pte>)

  predicate Of(o: Owner, d: nat) {
    (o.Directory? && o.d == d) || (o.Tables? && o.d == d) || (o.User? && o.d == d)
  }

  function Look(pte: map<nat, Pte>, v: nat): Pte {
    if v in pte then pte[v] else NONE
  }

  /** The page is the table of directory slot x. */
  ghost predicate TableHolds(page: Page, x: nat, pte: map<nat, Pte>) {
    && page.Table? && |page.e| == NPTENTRIES
    && (forall t :: 0 <= t < NPTENTRIES ==> page.e[t] == Look(pte, x * 1024 + t))
  }

  ghost predicate DirectoryHolds(page: Page, tables: map<nat, nat>) {
    && page.Table? && |page.e| == NPTENTRIES
    && (forall x :: 0 <= x < NPTENTRIES ==> page.e[x] == if x in tables then Pte(tables[x], 7) else NONE)
  }

  predicate Owns(owner: map<nat, Owner>, f: nat, o: Owner) {
    f in owner && owner[f] == o
  }

  /** The words of d and its tables say what s says, and d owns what it uses. */
  ghost predicate SpaceOk(mem: seq<Page>, owner: map<nat, Owner>, d: nat, s: Space) {
    && d < |mem| && DirectoryHolds(mem[d], s.tables) && Owns(owner, d, Directory(d))
    && (forall x :: x in s.tables ==> x < NPTENTRIES && TableOk(mem, owner, d, s, x))
    && (forall v :: v in s.pte ==> v < NPAGES && v / 1024 in s.tables && s.pte[v].Present())
    && (forall v :: v in s.pte && v < USER ==> DataOk(mem, owner, d, s, v))
  }

  ghost predicate TableOk(mem: seq<Page>, owner: map<nat, Owner>, d: nat, s: Space, x: nat) {
    x in s.tables ==>
      var f := s.tables[x];
      f < |mem| && TableHolds(mem[f], x, s.pte) && Owns(owner, f, Tables(d, x))
  }

  ghost predicate DataOk(mem: seq<Page>, owner: map<nat, Owner>, d: nat, s: Space, v: nat) {
    v in s.pte ==>
      var f := s.pte[v].frame;
      f < |mem| && mem[f].Data? && |mem[f].b| == PGSIZE && Owns(owner, f, User(d, v))
  }

  /** The free list: head is the last frame of stack, each node points at the one before. */
  ghost predicate FreeOk(mem: seq<Page>, head: nat, first: nat, owner: map<nat, Owner>, stack: seq<nat>) {
    && 0 < first
    && head == Top(stack)
    && (forall f :: f in owner ==> first <= f < |mem|)
    && (forall i :: 0 <= i < |stack| ==> NodeOk(mem, owner, stack, i))
  }

  function Top(stack: seq<nat>): nat {
    if stack == [] then 0 else stack[|stack| - 1]
  }

  ghost predicate NodeOk(mem: seq<Page>, owner: map<nat, Owner>, stack: seq<nat>, i: nat)
    requires i < |stack|
  {
    stack[i] < |mem| && Owns(owner, stack[i], Free(i)) && mem[stack[i]] == Run(if i == 0 then 0 else stack[i - 1])
  }

  /** The use recorded for f is a real one: no frame is lost. */
  ghost predicate Used(f: nat, o: Owner, stack: seq<nat>, spaces: map<nat, Space>) {
    match o
    case Free(i) => i < |stack| && stack[i] == f
    case Directory(d) => d == f && d in spaces
    case Tables(d, x) => d in spaces && x in spaces[d].tables && spaces[d].tables[x] == f
    case User(d, v) => d in spaces && v in spaces[d].pte && v < USER && spaces[d].pte[v].frame == f
  }

  /** Every frame the allocator manages is free, or used once by one address space. */
  ghost predicate State(mem: seq<Page>, head: nat, first: nat, owner: map<nat, Owner>, stack: seq<nat>,
                        spaces: map<nat, Space>) {
    && FreeOk(mem, head, first, owner, stack)
    && (forall d :: d in spaces ==> SpaceOk(mem, owner, d, spaces[d]))
    && (forall f :: f in owner ==> Used(f, owner[f], stack, spaces))
  }

  // ---- one step at a time ----

  /** A space keeps its meaning when its own frames keep their contents and their owners. */
  lemma SpaceFrame(mem: seq<Page>, owner: map<nat, Owner>, mem': seq<Page>, owner': map<nat, Owner>, d: nat, s: Space)
    requires SpaceOk(mem, owner, d, s) && |mem'| == |mem|
    requires forall f {:trigger owner[f]} :: f in owner && Of(owner[f], d) && 0 <= f < |mem| ==>
               f in owner' && owner'[f] == owner[f] && mem'[f] == mem[f]
    ensures SpaceOk(mem', owner', d, s)
  {
    forall x | x in s.tables
      ensures TableOk(mem', owner', d, s, x)
    {
      assert TableOk(mem, owner, d, s, x);
    }
    forall v | v in s.pte && v < USER
      ensures DataOk(mem', owner', d, s, v)
    {
      assert DataOk(mem, owner, d, s, v);
    }
  }

  lemma FreeFrame(mem: seq<Page>, owner: map<nat, Owner>, mem': seq<Page>, owner': map<nat, Owner>, stack: seq<nat>,
                  head: nat, first: nat)
    requires FreeOk(mem, head, first, owner, stack) && |mem'| == |mem|
    requires forall f :: f in owner' ==> first <= f < |mem|
    requires forall f {:trigger owner[f]} :: f in owner && owner[f].Free? && 0 <= f < |mem| ==>
               f in owner' && owner'[f] == owner[f] && mem'[f] == mem[f]
    ensures FreeOk(mem', head, first, owner', stack)
  {
    forall i | 0 <= i < |stack|
      ensures NodeOk(mem', owner', stack, i)
    {
      assert NodeOk(mem, owner, stack, i);
    }
  }

  /** A step that touches only frames of space d, and frames nobody owned, does nothing to the
      free list or to another space. */
  lemma OthersKeep(mem: seq<Page>, head: nat, first: nat, owner: map<nat, Owner>, stack: seq<nat>,
                   spaces: map<nat, Space>, d: nat, mem': seq<Page>, owner': map<nat, Owner>)
    requires State(mem, head, first, owner, stack, spaces) && |mem'| == |mem|
    requires forall f :: f in owner' ==> first <= f < |mem|
    requires forall f {:trigger owner[f]} :: f in owner && !Of(owner[f], d) && 0 <= f < |mem| ==>
               f in owner' && owner'[f] == owner[f] && mem'[f] == mem[f]
    ensures FreeOk(mem', head, first, owner', stack)
    ensures forall c :: c in spaces && c != d ==> SpaceOk(mem', owner', c, spaces[c])
  {
    hide SpaceOk, FreeOk, Used;
    FreeFrame(mem, owner, mem', owner', stack, head, first);
    forall c | c in spaces && c != d
      ensures SpaceOk(mem', owner', c, spaces[c])
    {
      SpaceFrame(mem, owner, mem', owner', c, spaces[c]);
    }
  }

  /** Every use outside d is still a real one when only d changes. */
  lemma OthersUsed(owner: map<nat, Owner>, stack: seq<nat>, spaces: map<nat, Space>, d: nat, s': Space, f: nat)
    requires f in owner && Used(f, owner[f], stack, spaces) && !Of(owner[f], d)
    ensures Used(f, owner[f], stack, spaces[d := s']) && Used(f, owner[f], stack, spaces - {d})
  {
  }

  lemma StateSpace(mem: seq<Page>, head: nat, first: nat, owner: map<nat, Owner>, stack: seq<nat>,
                   spaces: map<nat, Space>, d: nat)
    requires State(mem, head, first, owner, stack, spaces) && d in spaces
    ensures SpaceOk(mem, owner, d, spaces[d])
  {
  }

  /** What the steps on one space have to show about it. */
  lemma SpaceChanged(mem: seq<Page>, head: nat, first: nat, owner: map<nat, Owner>, stack: seq<nat>,
                     spaces: map<nat, Space>, d: nat, mem': seq<Page>, owner': map<nat, Owner>, s': Space)
    requires State(mem, head, first, owner, stack, spaces) && |mem'| == |mem|
    requires forall f :: f in owner' ==> first <= f < |mem|
    requires forall f {:trigger owner[f]} :: f in owner && !Of(owner[f], d) && 0 <= f < |mem| ==>
               f in owner' && owner'[f] == owner[f] && mem'[f] == mem[f]
    requires SpaceOk(mem', owner', d, s')
    requires forall f {:trigger owner'[f]} :: f in owner' ==>
               (f in owner && owner'[f] == owner[f] && !Of(owner[f], d)) || Used(f, owner'[f], stack, spaces[d := s'])
    ensures State(mem', head, first, owner', stack, spaces[d := s'])
  {
    hide SpaceOk, FreeOk, Used;
    OthersKeep(mem, head, first, owner, stack, spaces, d, mem', owner');
    forall f | f in owner'
      ensures Used(f, owner'[f], stack, spaces[d := s'])
    {
      if f in owner && owner'[f] == owner[f] && !Of(owner[f], d) {
        OthersUsed(owner, stack, spaces, d, s', f);
      }
    }
  }

  /** kalloc: the list loses its head. */
  lemma Popped(mem: seq<Page>, head: nat, first: nat, owner: map<nat, Owner>, stack: seq<nat>, spaces: map<nat, Space>)
    requires State(mem, head, first, owner, stack, spaces) && stack != []
    ensures first <= head < |mem| && mem[head].Run? && Owns(owner, head, Free(|stack| - 1))
    ensures State(mem, mem[head].next, first, owner - {head}, stack[..|stack| - 1], spaces)
  {
    hide SpaceOk;
    var n, owner', stack' := |stack| - 1, owner - {head}, stack[..|stack| - 1];
    assert NodeOk(mem, owner, stack, n);
    forall i | 0 <= i < n
      ensures NodeOk(mem, owner', stack', i)
    {
      assert NodeOk(mem, owner, stack, i);
    }
    forall d | d in spaces
      ensures SpaceOk(mem, owner', d, spaces[d])
    {
      SpaceFrame(mem, owner, mem, owner', d, spaces[d]);
    }
    forall f | f in owner'
      ensures Used(f, owner'[f], stack', spaces)
    {
      assert Used(f, owner[f], stack, spaces);
    }
  }

  /** kfree, as the list sees it. */
  lemma Pushed(mem: seq<Page>, head: nat, first: nat, owner: map<nat, Owner>, stack: seq<nat>, f: nat)
    requires FreeOk(mem, head, first, owner, stack) && f !in owner && first <= f < |mem|
    ensures FreeOk(mem[f := Run(head)], f, first, owner[f := Free(|stack|)], stack + [f])
  {
    var mem', owner', stack' := mem[f := Run(head)], owner[f := Free(|stack|)], stack + [f];
    forall i | 0 <= i < |stack'|
      ensures NodeOk(mem', owner', stack', i)
    {
      assert i < |stack| ==> NodeOk(mem, owner, stack, i);
    }
  }

  /** kfree, as the address spaces see it. */
  lemma Returned(mem: seq<Page>, head: nat, first: nat, owner: map<nat, Owner>, stack: seq<nat>,
                 spaces: map<nat, Space>, f: nat)
    requires State(mem, head, first, owner, stack, spaces) && f !in owner && first <= f < |mem|
    ensures State(mem[f := Run(head)], f, first, owner[f := Free(|stack|)], stack + [f], spaces)
  {
    Pushed(mem, head, first, owner, stack, f);
    var mem', owner', stack' := mem[f := Run(head)], owner[f := Free(|stack|)], stack + [f];
    forall d | d in spaces
      ensures SpaceOk(mem', owner', d, spaces[d])
    {
      SpaceFrame(mem, owner, mem', owner', d, spaces[d]);
    }
    forall g | g in owner'
      ensures Used(g, owner'[g], stack', spaces)
    {
      assert g != f ==> Used(g, owner[g], stack, spaces);
    }
  }

  /** Writing to a frame that nothing manages yet. */
  lemma Scratch(mem: seq<Page>, head: nat, first: nat, owner: map<nat, Owner>, stack: seq<nat>, spaces: map<nat, Space>,
                f: nat, p: Page)
    requires State(mem, head, first, owner, stack, spaces) && f !in owner && f < |mem|
    ensures State(mem[f := p], head, first, owner, stack, spaces)
  {
    FreeFrame(mem, owner, mem[f := p], owner, stack, head, first);
    forall d | d in spaces
      ensures SpaceOk(mem[f := p], owner, d, spaces[d])
    {
      SpaceFrame(mem, owner, mem[f := p], owner, d, spaces[d]);
    }
  }

  function EmptyEntries(n: nat): (e: seq<Pte>)
    ensures |e| == n && forall t :: 0 <= t < n ==> e[t] == NONE
  {
    if n == 0 then [] else EmptyEntries(n - 1) + [NONE]
  }

  /** A fresh, zeroed page becomes a directory. */
  lemma Founded(mem: seq<Page>, head: nat, first: nat, owner: map<nat, Owner>, stack: seq<nat>, spaces: map<nat, Space>,
                d: nat)
    requires State(mem, head, first, owner, stack, spaces) && d !in owner && first <= d < |mem|
    requires mem[d] == Table(EmptyEntries(NPTENTRIES))
    ensures d !in spaces
    ensures State(mem, head, first, owner[d := Directory(d)], stack, spaces[d := Space(map[], map[])])
  {
    var s', owner' := Space(map[], map[]), owner[d := Directory(d)];
    assert d in spaces ==> SpaceOk(mem, owner, d, spaces[d]);
    forall f | f in owner
      ensures !Of(owner[f], d) && first <= f < |mem|
    {
      assert Used(f, owner[f], stack, spaces);
    }
    SpaceChanged(mem, head, first, owner, stack, spaces, d, mem, owner', s');
  }

  /** A fresh, zeroed page becomes the table of d's slot x. */
  lemma TableAdded(mem: seq<Page>, head: nat, first: nat, owner: map<nat, Owner>, stack: seq<nat>,
                   spaces: map<nat, Space>, d: nat, x: nat, f: nat)
    requires State(mem, head, first, owner, stack, spaces) && f !in owner && first <= f < |mem|
    requires mem[f] == Table(EmptyEntries(NPTENTRIES))
    requires d in spaces && x < NPTENTRIES && x !in spaces[d].tables
    ensures d < |mem| && mem[d].Table? && |mem[d].e| == NPTENTRIES
    ensures State(mem[d := Table(mem[d].e[x := Pte(f, 7)])], head, first, owner[f := Tables(d, x)], stack,
                  spaces[d := spaces[d].(tables := spaces[d].tables[x := f])])
  {
    hide SpaceOk, FreeOk;
    StateSpace(mem, head, first, owner, stack, spaces, d);
    TableAddedHere(mem, owner, d, spaces[d], x, f);
    var s := spaces[d];
    var s', owner' := s.(tables := s.tables[x := f]), owner[f := Tables(d, x)];
    forall g | g in owner'
      ensures (g in owner && owner'[g] == owner[g] && !Of(owner[g], d)) || Used(g, owner'[g], stack, spaces[d := s'])
      ensures first <= g < |mem|
    {
      Bounds(mem, head, first, owner, stack);
      assert g != f ==> Used(g, owner[g], stack, spaces);
    }
    SpaceChanged(mem, head, first, owner, stack, spaces, d, mem[d := Table(mem[d].e[x := Pte(f, 7)])], owner', s');
  }

  lemma Bounds(mem: seq<Page>, head: nat, first: nat, owner: map<nat, Owner>, stack: seq<nat>)
    requires FreeOk(mem, head, first, owner, stack)
    ensures 0 < first && head == Top(stack) && forall f :: f in owner ==> first <= f < |mem|
  {
  }

  lemma TableAddedHere(mem: seq<Page>, owner: map<nat, Owner>, d: nat, s: Space, x: nat, f: nat)
    requires SpaceOk(mem, owner, d, s) && f !in owner && f < |mem| && x < NPTENTRIES && x !in s.tables
    requires mem[f] == Table(EmptyEntries(NPTENTRIES))
    ensures d < |mem| && mem[d].Table? && |mem[d].e| == NPTENTRIES && d in owner && owner[d] == Directory(d)
    ensures SpaceOk(mem[d := Table(mem[d].e[x := Pte(f, 7)])], owner[f := Tables(d, x)], d,
        s.(tables := s.tables[x := f]))
  {
    hide TableHolds, DirectoryHolds, EmptyEntries;
    var s' := s.(tables := s.tables[x := f]);
    DirectorySet(mem[d], s.tables, x, f);
    EmptyTable(mem[f], x, s.pte);
    var mem', owner' := mem[d := Table(mem[d].e[x := Pte(f, 7)])], owner[f := Tables(d, x)];
    forall y | y in s'.tables
      ensures TableOk(mem', owner', d, s', y)
    {
      assert TableOk(mem, owner, d, s, y);
    }
    forall v | v in s.pte && v < USER
      ensures DataOk(mem', owner', d, s', v)
    {
      assert DataOk(mem, owner, d, s, v);
    }
  }

  lemma DirectorySet(page: Page, tables: map<nat, nat>, x: nat, f: nat)
    requires DirectoryHolds(page, tables) && x < NPTENTRIES
    ensures page.Table? && |page.e| == NPTENTRIES && DirectoryHolds(Table(page.e[x := Pte(f, 7)]), tables[x := f])
  {
  }

  lemma EmptyTable(page: Page, x: nat, pte: map<nat, Pte>)
    requires page == Table(EmptyEntries(NPTENTRIES)) && forall v :: v in pte ==> v / 1024 != x
    ensures TableHolds(page, x, pte)
  {
    forall t | 0 <= t < NPTENTRIES
      ensures page.e[t] == Look(pte, x * 1024 + t)
    {
      assert (x * 1024 + t) / 1024 == x;
    }
  }

  /** An absent entry v of d gets a value; a user page brings a fresh data frame. */
  lemma EntryAdded(mem: seq<Page>, head: nat, first: nat, owner: map<nat, Owner>, stack: seq<nat>,
                   spaces: map<nat, Space>, d: nat, v: nat, p: Pte)
    requires State(mem, head, first, owner, stack, spaces)
    requires d in spaces && v < NPAGES && v / 1024 in spaces[d].tables && v !in spaces[d].pte && p.Present()
    requires v < USER ==>
        p.frame !in owner && first <= p.frame < |mem| && mem[p.frame].Data? && |mem[p.frame].b| == PGSIZE
    ensures var tab := spaces[d].tables[v / 1024];
      && tab < |mem| && mem[tab].Table? && |mem[tab].e| == NPTENTRIES
      && State(mem[tab := Table(mem[tab].e[v % 1024 := p])], head, first,
               if v < USER then owner[p.frame := User(d, v)] else owner, stack,
               spaces[d := spaces[d].(pte := spaces[d].pte[v := p])])
  {
    hide SpaceOk, FreeOk;
    var s := spaces[d];
    var s', tab := s.(pte := s.pte[v := p]), s.tables[v / 1024];
    StateSpace(mem, head, first, owner, stack, spaces, d);
    TableAt(mem, owner, d, s, v / 1024);
    Bounds(mem, head, first, owner, stack);
    var mem', owner' := mem[tab := Table(mem[tab].e[v % 1024 := p])], if v < USER then owner[p.frame := User(d, v)]
        else owner;
    EntryAddedHere(mem, owner, d, s, v, p);
    forall g | g in owner'
      ensures (g in owner && owner'[g] == owner[g] && !Of(owner[g], d)) || Used(g, owner'[g], stack, spaces[d := s'])
    {
      assert g in owner ==> Used(g, owner[g], stack, spaces);
    }
    SpaceChanged(mem, head, first, owner, stack, spaces, d, mem', owner', s');
  }

  lemma TableAt(mem: seq<Page>, owner: map<nat, Owner>, d: nat, s: Space, x: nat)
    requires SpaceOk(mem, owner, d, s) && x in s.tables
    ensures x < NPTENTRIES && s.tables[x] < |mem| && TableHolds(mem[s.tables[x]], x, s.pte)
    ensures Owns(owner, s.tables[x], Tables(d, x)) && s.tables[x] != d
  {
    assert TableOk(mem, owner, d, s, x);
  }

  lemma TableSize(page: Page, x: nat, pte: map<nat, Pte>)
    requires TableHolds(page, x, pte)
    ensures page.Table? && |page.e| == NPTENTRIES
  {
  }

  lemma EntryAddedHere(mem: seq<Page>, owner: map<nat, Owner>, d: nat, s: Space, v: nat, p: Pte)
    requires SpaceOk(mem, owner, d, s) && v < NPAGES && v / 1024 in s.tables && v !in s.pte && p.Present()
    requires v < USER ==> p.frame !in owner && p.frame < |mem| && mem[p.frame].Data? && |mem[p.frame].b| == PGSIZE
    ensures var tab := s.tables[v / 1024];
      && tab < |mem| && mem[tab].Table? && |mem[tab].e| == NPTENTRIES
      && SpaceOk(mem[tab := Table(mem[tab].e[v % 1024 := p])], if v < USER then owner[p.frame := User(d, v)] else owner,
                 d, s.(pte := s.pte[v := p]))
  {
    hide TableHolds, DirectoryHolds, TableOk;
    var s', tab := s.(pte := s.pte[v := p]), s.tables[v / 1024];
    TableAt(mem, owner, d, s, v / 1024);
    TableSize(mem[tab], v / 1024, s.pte);
    var mem', owner' := mem[tab := Table(mem[tab].e[v % 1024 := p])], if v < USER then owner[p.frame := User(d, v)]
        else owner;
    forall x | x in s.tables
      ensures TableOk(mem', owner', d, s', x)
    {
      TableKept(mem, owner, d, s, v, p, owner', x);
    }
    forall u | u in s'.pte && u < USER
      ensures DataOk(mem', owner', d, s', u)
    {
      assert DataOk(mem, owner, d, s, u);
    }
  }

  lemma TableKept(mem: seq<Page>, owner: map<nat, Owner>, d: nat, s: Space, v: nat, p: Pte, owner': map<nat, Owner>,
                  x: nat)
    requires SpaceOk(mem, owner, d, s) && v / 1024 in s.tables && x in s.tables
    requires owner' == owner || (p.frame !in owner && owner' == owner[p.frame := User(d, v)])
    ensures var tab := s.tables[v / 1024];
      && tab < |mem| && mem[tab].Table? && |mem[tab].e| == NPTENTRIES
      && TableOk(mem[tab := Table(mem[tab].e[v % 1024 := p])], owner', d, s.(pte := s.pte[v := p]), x)
  {
    hide TableHolds, DirectoryHolds, DataOk;
    var tab := s.tables[v / 1024];
    TableAt(mem, owner, d, s, v / 1024);
    TableSize(mem[tab], v / 1024, s.pte);
    TableAt(mem, owner, d, s, x);
    TableSet(mem[s.tables[x]], x, s.pte, v, p);
  }

  /** Setting entry v changes table v / 1024 at v % 1024 and no other table. */
  lemma TableSet(page: Page, x: nat, pte: map<nat, Pte>, v: nat, p: Pte)
    requires TableHolds(page, x, pte)
    ensures page.Table? && |page.e| == NPTENTRIES
    ensures v / 1024 == x ==> TableHolds(Table(page.e[v % 1024 := p]), x, pte[v := p])
    ensures v / 1024 != x ==> TableHolds(page, x, pte[v := p])
  {
  }

  lemma TableClear(page: Page, x: nat, pte: map<nat, Pte>, v: nat)
    requires TableHolds(page, x, pte)
    ensures page.Table? && |page.e| == NPTENTRIES
    ensures v / 1024 == x ==> page.e[v % 1024] == Look(pte, v)
    ensures v / 1024 == x ==> TableHolds(Table(page.e[v % 1024 := NONE]), x, pte - {v})
    ensures v / 1024 != x ==> TableHolds(page, x, pte - {v})
  {
    assert v / 1024 * 1024 + v % 1024 == v;
  }

  /** A present user entry v of d is cleared; its frame is nobody's. */
  lemma EntryDropped(mem: seq<Page>, head: nat, first: nat, owner: map<nat, Owner>, stack: seq<nat>,
                     spaces: map<nat, Space>, d: nat, v: nat)
    requires State(mem, head, first, owner, stack, spaces)
    requires d in spaces && v in spaces[d].pte && v < USER
    ensures v / 1024 in spaces[d].tables
    ensures var tab, f := spaces[d].tables[v / 1024], spaces[d].pte[v].frame;
      && tab < |mem| && mem[tab].Table? && |mem[tab].e| == NPTENTRIES && f != tab && f in owner
          && owner[f] == User(d, v)
      && State(mem[tab := Table(mem[tab].e[v % 1024 := NONE])], head, first, owner - {f}, stack,
               spaces[d := spaces[d].(pte := spaces[d].pte - {v})])
  {
    hide SpaceOk, FreeOk;
    var s := spaces[d];
    StateSpace(mem, head, first, owner, stack, spaces, d);
    EntryDroppedHere(mem, owner, d, s, v);
    Bounds(mem, head, first, owner, stack);
    var s', tab, f := s.(pte := s.pte - {v}), s.tables[v / 1024], s.pte[v].frame;
    var mem', owner' := mem[tab := Table(mem[tab].e[v % 1024 := NONE])], owner - {f};
    forall g | g in owner'
      ensures (g in owner && owner'[g] == owner[g] && !Of(owner[g], d)) || Used(g, owner'[g], stack, spaces[d := s'])
    {
      assert Used(g, owner[g], stack, spaces);
    }
    SpaceChanged(mem, head, first, owner, stack, spaces, d, mem', owner', s');
  }

  lemma EntryDroppedHere(mem: seq<Page>, owner: map<nat, Owner>, d: nat, s: Space, v: nat)
    requires SpaceOk(mem, owner, d, s) && v in s.pte && v < USER
    ensures v / 1024 in s.tables
    ensures var tab, f := s.tables[v / 1024], s.pte[v].frame;
      && tab < |mem| && mem[tab].Table? && |mem[tab].e| == NPTENTRIES && Owns(owner, tab, Tables(d, v / 1024))
      && Owns(owner, f, User(d, v))
      && SpaceOk(mem[tab := Table(mem[tab].e[v % 1024 := NONE])], owner - {f}, d, s.(pte := s.pte - {v}))
  {
    hide TableHolds, DirectoryHolds, Look;
    TableAt(mem, owner, d, s, v / 1024);
    TableSize(mem[s.tables[v / 1024]], v / 1024, s.pte);
    assert DataOk(mem, owner, d, s, v);
    var s', tab, f := s.(pte := s.pte - {v}), s.tables[v / 1024], s.pte[v].frame;
    var mem', owner' := mem[tab := Table(mem[tab].e[v % 1024 := NONE])], owner - {f};
    forall x | x in s.tables
      ensures TableOk(mem', owner', d, s', x)
    {
      assert TableOk(mem, owner, d, s, x);
      TableClear(mem[s.tables[x]], x, s.pte, v);
    }
    forall u | u in s'.pte && u < USER
      ensures DataOk(mem', owner', d, s', u)
    {
      assert DataOk(mem, owner, d, s, u);
    }
  }

  ghost function Without(owner: map<nat, Owner>, d: nat): (r: map<nat, Owner>)
    ensures forall f {:trigger f in r} :: f in r <==> f in owner && !Of(owner[f], d)
    ensures forall f {:trigger r[f]} :: f in r ==> r[f] == owner[f]
  {
    map f | f in owner && !Of(owner[f], d) :: owner[f]
  }

  /** A space whose frames are about to be freed one by one is no longer one. */
  lemma Abandoned(mem: seq<Page>, head: nat, first: nat, owner: map<nat, Owner>, stack: seq<nat>,
                  spaces: map<nat, Space>, d: nat)
    requires State(mem, head, first, owner, stack, spaces)
    ensures State(mem, head, first, Without(owner, d), stack, spaces - {d})
  {
    hide SpaceOk;
    var owner', spaces' := Without(owner, d), spaces - {d};
    OthersKeep(mem, head, first, owner, stack, spaces, d, mem, owner');
    forall f | f in owner'
      ensures Used(f, owner'[f], stack, spaces')
    {
      OthersUsed(owner, stack, spaces, d, Space(map[], map[]), f);
    }
  }

  // ---- what the code reads, and what steps keep ----

  lemma ReadDirectory(mem: seq<Page>, head: nat, first: nat, owner: map<nat, Owner>, stack: seq<nat>,
                      spaces: map<nat, Space>, d: nat, x: nat)
    requires State(mem, head, first, owner, stack, spaces) && d in spaces && x < NPTENTRIES
    ensures 0 < first && d < |mem| && mem[d].Table? && |mem[d].e| == NPTENTRIES && d in owner
        && owner[d] == Directory(d)
    ensures mem[d].e[x] == if x in spaces[d].tables then Pte(spaces[d].tables[x], 7) else NONE
    ensures x in spaces[d].tables ==>
              var tab := spaces[d].tables[x];
              first <= tab < |mem| && TableHolds(mem[tab], x, spaces[d].pte) && Owns(owner, tab, Tables(d, x))
                  && tab != d
  {
    StateSpace(mem, head, first, owner, stack, spaces, d);
    if x in spaces[d].tables {
      TableAt(mem, owner, d, spaces[d], x);
    }
  }

  lemma ReadEntry(mem: seq<Page>, head: nat, first: nat, owner: map<nat, Owner>, stack: seq<nat>,
                  spaces: map<nat, Space>, d: nat, v: nat)
    requires State(mem, head, first, owner, stack, spaces) && d in spaces && v < NPAGES && v / 1024 in spaces[d].tables
    ensures var tab := spaces[d].tables[v / 1024];
      && tab < |mem| && mem[tab].Table? && |mem[tab].e| == NPTENTRIES
      && mem[tab].e[v % 1024] == Look(spaces[d].pte, v)
      && (mem[tab].e[v % 1024].Present() <==> v in spaces[d].pte)
      && Owns(owner, tab, Tables(d, v / 1024))
  {
    StateSpace(mem, head, first, owner, stack, spaces, d);
    TableAt(mem, owner, d, spaces[d], v / 1024);
    assert v / 1024 * 1024 + v % 1024 == v;
  }

  /** A page whose directory slot is empty is not mapped. */
  lemma NoTable(mem: seq<Page>, head: nat, first: nat, owner: map<nat, Owner>, stack: seq<nat>,
                spaces: map<nat, Space>, d: nat, v: nat)
    requires State(mem, head, first, owner, stack, spaces) && d in spaces && v / 1024 !in spaces[d].tables
    ensures v !in spaces[d].pte
  {
    StateSpace(mem, head, first, owner, stack, spaces, d);
  }

  lemma ReadData(mem: seq<Page>, head: nat, first: nat, owner: map<nat, Owner>, stack: seq<nat>,
                 spaces: map<nat, Space>, d: nat, v: nat)
    requires State(mem, head, first, owner, stack, spaces) && d in spaces && v in spaces[d].pte && v < USER
    ensures v / 1024 in spaces[d].tables
    ensures var f := spaces[d].pte[v].frame;
      first <= f < |mem| && mem[f].Data? && |mem[f].b| == PGSIZE && Owns(owner, f, User(d, v))
  {
    StateSpace(mem, head, first, owner, stack, spaces, d);
    assert DataOk(mem, owner, d, spaces[d], v);
  }

  /** Pages of user data, and pages nothing manages, hold what they held. */
  ghost predicate DataKept(mem: seq<Page>, owner: map<nat, Owner>, mem': seq<Page>) {
    && |mem'| == |mem|
    && (forall f: nat {:trigger mem'[f]} :: f < |mem| && (f in owner ==> owner[f].User?) ==> mem'[f] == mem[f])
  }

  /** No user page changed hands, and what became managed is user pages. */
  ghost predicate UsersKept(owner: map<nat, Owner>, owner': map<nat, Owner>) {
    && (forall f {:trigger owner[f]} :: f in owner && owner[f].User? ==> f in owner' && owner'[f] == owner[f])
    && (forall f {:trigger owner'[f]} :: f in owner' && f !in owner ==> owner'[f].User?)
  }

  lemma DataTrans(mem: seq<Page>, owner: map<nat, Owner>, mem': seq<Page>, owner': map<nat, Owner>, mem'': seq<Page>)
    requires DataKept(mem, owner, mem') && UsersKept(owner, owner') && DataKept(mem', owner', mem'')
    ensures DataKept(mem, owner, mem'')
  {
    forall f: nat | f < |mem| && (f in owner ==> owner[f].User?)
      ensures mem''[f] == mem[f]
    {
      assert mem'[f] == mem[f] && (f in owner' ==> owner'[f].User?);
    }
  }

  lemma KeptAt(mem: seq<Page>, owner: map<nat, Owner>, mem': seq<Page>, f: nat)
    requires DataKept(mem, owner, mem') && f < |mem| && (f in owner ==> owner[f].User?)
    ensures |mem'| == |mem| && mem'[f] == mem[f]
  {
  }

  /** Writing to a frame that is not user data. */
  lemma DataWrite(mem0: seq<Page>, owner0: map<nat, Owner>, mem: seq<Page>, owner: map<nat, Owner>, f: nat, p: Page)
    requires DataKept(mem0, owner0, mem) && UsersKept(owner0, owner)
    requires f < |mem| && ((f in owner && !owner[f].User?) || (f in owner0 && !owner0[f].User?))
    ensures DataKept(mem0, owner0, mem[f := p])
  {
  }

  lemma UsersAdd(owner0: map<nat, Owner>, owner: map<nat, Owner>, f: nat, o: Owner)
    requires UsersKept(owner0, owner) && f !in owner && (o.User? || f in owner0)
    ensures UsersKept(owner0, owner[f := o])
  {
  }

  lemma UsersTrans(owner: map<nat, Owner>, owner': map<nat, Owner>, owner'': map<nat, Owner>)
    requires UsersKept(owner, owner') && UsersKept(owner', owner'')
    ensures UsersKept(owner, owner'')
  {
    forall f | f in owner'' && f !in owner
      ensures owner''[f].User?
    {
      if f in owner' {
        assert owner'[f].User?;
      }
    }
  }

  /** A user page that stayed where it was holds what it held. */
  ghost predicate SameUsers(mem: seq<Page>, owner: map<nat, Owner>, mem': seq<Page>, owner': map<nat, Owner>) {
    && |mem'| == |mem|
    && (forall f {:trigger owner[f]} {:trigger owner'[f]} ::
          f in owner && f in owner' && owner'[f] == owner[f] && owner[f].User? && f < |mem| ==> mem'[f] == mem[f])
  }

  /** The user pages that are left were there before, and nothing else but the list changed. */
  ghost predicate StillThere(mem: seq<Page>, owner: map<nat, Owner>, mem': seq<Page>, owner': map<nat, Owner>) {
    && SameUsers(mem, owner, mem', owner')
    && owner'.Keys == owner.Keys
    && (forall f {:trigger owner'[f]} :: f in owner' && owner'[f].User? ==> f in owner && owner[f] == owner'[f])
  }

  lemma StillTrans(mem: seq<Page>, owner: map<nat, Owner>, mem': seq<Page>, owner': map<nat, Owner>,
                   mem'': seq<Page>, owner'': map<nat, Owner>)
    requires StillThere(mem, owner, mem', owner') && StillThere(mem', owner', mem'', owner'')
    ensures StillThere(mem, owner, mem'', owner'')
  {
  }

  lemma SameTrans(mem: seq<Page>, owner: map<nat, Owner>, mem': seq<Page>, owner': map<nat, Owner>,
                  mem'': seq<Page>, owner'': map<nat, Owner>)
    requires DataKept(mem, owner, mem') && UsersKept(owner, owner') && StillThere(mem', owner', mem'', owner'')
    ensures SameUsers(mem, owner, mem'', owner'')
  {
    forall f | f in owner && f in owner'' && owner''[f] == owner[f] && owner[f].User? && f < |mem|
      ensures mem''[f] == mem[f]
    {
      assert owner'[f] == owner[f];
      assert mem'[f] == mem[f];
    }
  }

  /** pte without the user pages of [lo, hi). */
  ghost function Cleared(pte: map<nat, Pte>, lo: nat, hi: nat): (r: map<nat, Pte>)
    ensures forall v {:trigger v in r} :: v in r <==> v in pte && !(lo <= v < hi && v < USER)
    ensures forall v {:trigger r[v]} :: v in r ==> r[v] == pte[v]
  {
    map v | v in pte && !(lo <= v < hi && v < USER) :: pte[v]
  }

  /** User memory is mapped on exactly the pages [0, n). */
  ghost predicate Contiguous(s: Space, n: nat) {
    n <= USER && forall v :: 0 <= v < USER ==> (v in s.pte <==> v < n)
  }

  /** Space s' has everything s has, where s has it. */
  ghost predicate Extends(s: Space, s': Space) {
    && (forall x :: x in s.tables ==> x in s'.tables && s'.tables[x] == s.tables[x])
    && (forall v :: v in s.pte ==> v in s'.pte && s'.pte[v] == s.pte[v])
  }

  /** A frame has the owner that its use says. */
  lemma UseOwned(mem: seq<Page>, head: nat, first: nat, owner: map<nat, Owner>, stack: seq<nat>,
                 spaces: map<nat, Space>, f: nat, o: Owner)
    requires State(mem, head, first, owner, stack, spaces) && Used(f, o, stack, spaces)
    ensures Owns(owner, f, o)
  {
    match o {
      case Free(i) => assert NodeOk(mem, owner, stack, i);
      case Directory(d) => StateSpace(mem, head, first, owner, stack, spaces, d);
      case Tables(d, x) => assert TableOk(mem, owner, d, spaces[d], x);
      case User(d, v) => assert DataOk(mem, owner, d, spaces[d], v);
    }
  }

  /** When spaces only grew, every frame that changed hands was free before. */
  lemma Grown(mem: seq<Page>, head: nat, first: nat, owner: map<nat, Owner>, stack: seq<nat>, spaces: map<nat, Space>,
              mem': seq<Page>, head': nat, owner': map<nat, Owner>, stack': seq<nat>, spaces': map<nat, Space>, f: nat)
    requires State(mem, head, first, owner, stack, spaces) && State(mem', head', first, owner', stack', spaces')
    requires forall d :: d in spaces ==> d in spaces' && Extends(spaces[d], spaces'[d])
    requires f in owner
    ensures owner[f].Free? || Owns(owner', f, owner[f])
  {
    hide SpaceOk, FreeOk;
    if !owner[f].Free? {
      assert Used(f, owner[f], stack, spaces);
      assert Used(f, owner[f], stack', spaces');
      UseOwned(mem', head', first, owner', stack', spaces', f, owner[f]);
    }
  }

  /** When a space went away, every frame it had is free, and no other use changed. */
  lemma Gone(mem: seq<Page>, head: nat, first: nat, owner: map<nat, Owner>, stack: seq<nat>, spaces: map<nat, Space>,
             mem': seq<Page>, head': nat, owner': map<nat, Owner>, stack': seq<nat>, d: nat, f: nat)
    requires State(mem, head, first, owner, stack, spaces) && State(mem', head', first, owner', stack', spaces - {d})
    requires f in owner && f in owner'
    ensures Of(owner[f], d) ==> owner'[f].Free?
    ensures !Of(owner[f], d) && !owner[f].Free? ==> owner'[f] == owner[f]
  {
    hide SpaceOk, FreeOk;
    assert Used(f, owner[f], stack, spaces) && Used(f, owner'[f], stack', spaces - {d});
    if !owner'[f].Free? {
      assert Used(f, owner'[f], stack, spaces);
      UseOwned(mem, head, first, owner, stack, spaces, f, owner'[f]);
    } else if !Of(owner[f], d) && !owner[f].Free? {
      assert Used(f, owner[f], stack', spaces - {d});
      UseOwned(mem', head', first, owner', stack', spaces - {d}, f, owner[f]);
    }
  }
}
