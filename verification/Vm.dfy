/** Page tables and the page allocator (kernel/vm.c, kernel/kalloc.c) as operations on one
    machine's memory. */
module Vm {
  import opened Blocks
  import opened PageTables

  const KERNBASE := 0x8000_0000
  const LIMIT := 0x1_0000_0000

  /** Physical pages: the end of I/O space, the end of memory; the first device page. */
  const EXTMEM := 0x100
  const PHYSTOP := 0xE000
  const DEVSPACE := 0xF_E000

  /** PGROUNDUP in pages. */
  function Pages(sz: nat): (n: nat)
    ensures n * PGSIZE >= sz > (n - 1) * PGSIZE || (sz == 0 && n == 0)
  {
    (sz + PGSIZE - 1) / PGSIZE
  }

  /** Flag bits with PTE_P. */
  function WithP(perm: nat): (flags: nat)
    ensures flags % 2 == 1 && flags / 2 == perm / 2
  {
    if perm % 2 == 1 then perm else perm + 1
  }

  /** pte after mapping n pages from v to the frames from f. */
  function Mapped(pte: map<nat, Pte>, v: nat, f: nat, flags: nat, n: nat): map<nat, Pte> {
    if n == 0 then pte else Mapped(pte, v, f, flags, n - 1)[v + n - 1 := Pte(f + n - 1, flags)]
  }

  lemma {:induction false} MappedAt(pte: map<nat, Pte>, v: nat, f: nat, flags: nat, n: nat, u: nat)
    ensures v <= u < v + n ==>
        u in Mapped(pte, v, f, flags, n) && Mapped(pte, v, f, flags, n)[u] == Pte(f + (u - v), flags)
    ensures !(v <= u < v + n) ==> Look(Mapped(pte, v, f, flags, n), u) == Look(pte, u)
    ensures !(v <= u < v + n) ==> (u in Mapped(pte, v, f, flags, n) <==> u in pte)
  {
    if n > 0 {
      MappedAt(pte, v, f, flags, n - 1, u);
    }
  }

  /** What mapping k of the n pages from v to the frames from f changed: those entries, tables
      for them, and the owner of the user frames among them. */
  ghost predicate RangeMapped(mem: seq<Page>, owner: map<nat, Owner>, s: Space,
                              mem': seq<Page>, owner': map<nat, Owner>, s': Space,
                              v: nat, f: nat, flags: nat, k: nat, n: nat) {
    && s'.pte == Mapped(s.pte, v, f, flags, k)
    && Extends(s, s') && DataKept(mem, owner, mem') && UsersKept(owner, owner')
    && (forall x :: x in s'.tables ==> x in s.tables || v / 1024 <= x <= (v + n - 1) / 1024)
    && (forall g :: g in owner' <==> g in owner || (f <= g < f + k && v + (g - f) < USER))
  }

  lemma RangeSize(mem: seq<Page>, owner: map<nat, Owner>, s: Space, mem': seq<Page>, owner': map<nat, Owner>, s': Space,
                  v: nat, f: nat, flags: nat, k: nat, n: nat)
    requires RangeMapped(mem, owner, s, mem', owner', s', v, f, flags, k, n)
    ensures |mem'| == |mem|
  {
  }

  /** The pages that mappages goes through. */
  lemma PageSpan(va: nat, size: nat, pa: nat)
    requires size > 0 && va + size <= LIMIT && pa % PGSIZE == 0
    ensures PageNo(va) == va / PGSIZE && PageNo(pa) == pa / PGSIZE && pa == pa / PGSIZE * PGSIZE
    ensures var end := (va + size - 1) / PGSIZE; end < NPAGES && PageCount(va, size) == end - va / PGSIZE + 1
  {
  }

  lemma RangeStart(mem: seq<Page>, owner: map<nat, Owner>, s: Space, v: nat, f: nat, flags: nat, n: nat)
    ensures RangeMapped(mem, owner, s, mem, owner, s, v, f, flags, 0, n)
  {
  }

  /** The next page is still unmapped, and its frame still fresh. */
  lemma RangeNext(mem: seq<Page>, owner: map<nat, Owner>, s: Space, mem': seq<Page>, owner': map<nat, Owner>, s': Space,
                  v: nat, f: nat, flags: nat, k: nat, n: nat)
    requires RangeMapped(mem, owner, s, mem', owner', s', v, f, flags, k, n) && k < n
    ensures v + k in s'.pte <==> v + k in s.pte
    ensures f + k !in owner && f + k < |mem| ==> f + k !in owner' && |mem'| == |mem| && mem'[f + k] == mem[f + k]
  {
    MappedAt(s.pte, v, f, flags, k, v + k);
  }

  lemma ExtendsTrans(s: Space, s': Space, s'': Space)
    requires Extends(s, s') && Extends(s', s'')
    ensures Extends(s, s'')
  {
  }

  lemma RangeTablesStep(s: Space, s1: Space, s2: Space, v: nat, k: nat, n: nat, ok: bool)
    requires forall x :: x in s1.tables ==> x in s.tables || v / 1024 <= x <= (v + n - 1) / 1024
    requires s2.tables.Keys == (if ok then s1.tables.Keys + {(v + k) / 1024} else s1.tables.Keys) && k < n
    ensures forall x :: x in s2.tables ==> x in s.tables || v / 1024 <= x <= (v + n - 1) / 1024
  {
    var i := (v + k) / 1024;
    assert v / 1024 <= i <= (v + n - 1) / 1024;
    forall x | x in s2.tables
      ensures x in s.tables || v / 1024 <= x <= (v + n - 1) / 1024
    {
      assert x in s2.tables.Keys;
    }
  }

  lemma RangeOwners(owner: map<nat, Owner>, owner1: map<nat, Owner>, owner2: map<nat, Owner>, v: nat, f: nat, k: nat,
                    ok: bool)
    requires forall g :: g in owner1 <==> g in owner || (f <= g < f + k && v + (g - f) < USER)
    requires owner2.Keys == if ok && v + k < USER then owner1.Keys + {f + k} else owner1.Keys
    ensures forall g :: g in owner2 <==> g in owner || (f <= g < f + (if ok then k + 1 else k) && v + (g - f) < USER)
  {
    forall g
      ensures g in owner2 <==> g in owner || (f <= g < f + (if ok then k + 1 else k) && v + (g - f) < USER)
    {
      assert g in owner2 <==> g in owner2.Keys;
      assert g in owner1 <==> g in owner1.Keys;
    }
  }

  lemma RangeStep(mem: seq<Page>, owner: map<nat, Owner>, s: Space, mem1: seq<Page>, owner1: map<nat, Owner>, s1: Space,
                  mem2: seq<Page>, owner2: map<nat, Owner>, s2: Space, v: nat, f: nat, flags: nat, k: nat, n: nat,
                  ok: bool)
    requires RangeMapped(mem, owner, s, mem1, owner1, s1, v, f, flags, k, n) && k < n
    requires DataKept(mem1, owner1, mem2) && UsersKept(owner1, owner2) && Extends(s1, s2)
    requires s2.pte == if ok then s1.pte[v + k := Pte(f + k, flags)] else s1.pte
    requires s2.tables.Keys == if ok then s1.tables.Keys + {(v + k) / 1024} else s1.tables.Keys
    requires owner2.Keys == if ok && v + k < USER then owner1.Keys + {f + k} else owner1.Keys
    ensures RangeMapped(mem, owner, s, mem2, owner2, s2, v, f, flags, if ok then k + 1 else k, n)
  {
    hide DataKept, UsersKept, Extends;
    DataTrans(mem, owner, mem1, owner1, mem2);
    UsersTrans(owner, owner1, owner2);
    ExtendsTrans(s, s1, s2);
    RangeTablesStep(s, s1, s2, v, k, n, ok);
    RangeOwners(owner, owner1, owner2, v, f, k, ok);
  }

  // ---- the kernel's part of every address space ----

  /** One row of kmap, in pages. */
  datatype Kmapping = Kmapping(virt: nat, start: nat, pages: nat, perm: nat)

  function Kmap(kdata: nat, i: nat): Kmapping
    requires i < 4 && EXTMEM < kdata < PHYSTOP
  {
    if i == 0 then Kmapping(USER, 0, EXTMEM, 2)
    else if i == 1 then Kmapping(USER + EXTMEM, EXTMEM, kdata - EXTMEM, 0)
    else if i == 2 then Kmapping(USER + kdata, kdata, PHYSTOP - kdata, 2)
    else Kmapping(DEVSPACE, DEVSPACE, NPAGES - DEVSPACE, 2)
  }

  /** The entries of the first i rows. */
  function KernelPart(kdata: nat, i: nat): map<nat, Pte>
    requires i <= 4 && EXTMEM < kdata < PHYSTOP
  {
    if i == 0 then map[] else
      var m := Kmap(kdata, i - 1);
      Mapped(KernelPart(kdata, i - 1), m.virt, m.start, WithP(m.perm), m.pages)
  }

  /** What the kernel finds at page v: memory from KERNBASE up, writable but for its text, and the devices. */
  function KernelEntry(kdata: nat, v: nat): Pte {
    if USER <= v < USER + EXTMEM || USER + kdata <= v < USER + PHYSTOP then Pte(v - USER, 3)
    else if USER + EXTMEM <= v < USER + kdata then Pte(v - USER, 1)
    else if DEVSPACE <= v < NPAGES then Pte(v, 3)
    else NONE
  }

  lemma {:induction false} KernelAt(kdata: nat, i: nat, v: nat)
    requires i <= 4 && EXTMEM < kdata < PHYSTOP
    ensures v in KernelPart(kdata, i) <==> Look(KernelPart(kdata, i), v) != NONE
    ensures Look(KernelPart(kdata, i), v) ==
              if i == 4 || (i > 0 && v < Kmap(kdata, i - 1).virt + Kmap(kdata, i - 1).pages) then
                  KernelEntry(kdata, v) else NONE
  {
    if i > 0 {
      var m := Kmap(kdata, i - 1);
      KernelAt(kdata, i - 1, v);
      MappedAt(KernelPart(kdata, i - 1), m.virt, m.start, WithP(m.perm), m.pages, v);
    }
  }

  /** The finished kernel part, region by region: memory below EXTMEM and from the kernel's data on is
      writable, its text is not, the devices are mapped where they are, and no page is for user code. */
  lemma KernelRegions(kdata: nat, v: nat)
    requires EXTMEM < kdata < PHYSTOP
    ensures v < 0x8_0000 ==> v !in KernelPart(kdata, 4)
    ensures 0x8_0000 <= v < 0x8_0100 ==> v in KernelPart(kdata, 4) && KernelPart(kdata, 4)[v] == Pte(v - 0x8_0000, 3)
    ensures 0x8_0100 <= v < 0x8_0000 + kdata ==>
      v in KernelPart(kdata, 4) && KernelPart(kdata, 4)[v] == Pte(v - 0x8_0000, 1)
    ensures 0x8_0000 + kdata <= v < 0x8_E000 ==>
      v in KernelPart(kdata, 4) && KernelPart(kdata, 4)[v] == Pte(v - 0x8_0000, 3)
    ensures 0x8_E000 <= v < 0xF_E000 || v >= 0x10_0000 ==> v !in KernelPart(kdata, 4)
    ensures 0xF_E000 <= v < 0x10_0000 ==> v in KernelPart(kdata, 4) && KernelPart(kdata, 4)[v] == Pte(v, 3)
  {
    hide KernelPart;
    KernelAt(kdata, 4, v);
  }

  /** The directory slots the kernel's mappings take. */
  ghost function KernelTables(): set<nat> {
    Slots(512, 568) + Slots(1016, 1024)
  }

  ghost function Slots(lo: nat, hi: nat): (r: set<nat>)
    requires lo <= hi
    ensures |r| == hi - lo && forall x :: x in r <==> lo <= x < hi
    decreases hi
  {
    if lo == hi then {} else Slots(lo, hi - 1) + {hi - 1}
  }

  /** The frames setupkvm needs: the directory and a table per kernel slot. */
  const KERNEL_FRAMES := 65

  lemma KernelTablesSize()
    ensures |KernelTables()| == KERNEL_FRAMES - 1
  {
    hide Slots;
    assert Slots(512, 568) !! Slots(1016, 1024);
  }

  lemma KernelStart(kdata: nat)
    requires EXTMEM < kdata < PHYSTOP
    ensures KernelPart(kdata, 0) == map[]
  {
  }

  lemma KernelUnmapped(kdata: nat, i: nat)
    requires i < 4 && EXTMEM < kdata < PHYSTOP
    ensures var m := Kmap(kdata, i);
      && m.pages > 0 && USER <= m.virt && m.virt + m.pages <= NPAGES
      && forall v :: m.virt <= v < m.virt + m.pages ==> v !in KernelPart(kdata, i)
  {
    var m := Kmap(kdata, i);
    forall v | m.virt <= v < m.virt + m.pages
      ensures v !in KernelPart(kdata, i)
    {
      KernelAt(kdata, i, v);
    }
  }

  lemma KernelStep(mem: seq<Page>, owner: map<nat, Owner>, s: Space, mem': seq<Page>, owner': map<nat, Owner>,
                   s': Space, kdata: nat, i: nat, k: nat)
    requires i < 4 && EXTMEM < kdata < PHYSTOP
    requires s.pte == KernelPart(kdata, i) && s.tables.Keys <= KernelTables()
    requires var m := Kmap(kdata, i);
      RangeMapped(mem, owner, s, mem', owner', s', m.virt, m.start, WithP(m.perm), k, m.pages)
    ensures s'.tables.Keys <= KernelTables() && owner'.Keys == owner.Keys
    ensures k == Kmap(kdata, i).pages ==> s'.pte == KernelPart(kdata, i + 1)
    ensures s'.pte == Mapped(KernelPart(kdata, i), Kmap(kdata, i).virt, Kmap(kdata, i).start,
        WithP(Kmap(kdata, i).perm), k)
    ensures DataKept(mem, owner, mem') && UsersKept(owner, owner')
  {
    hide Mapped, DataKept, UsersKept, Slots;
    forall x | x in s'.tables.Keys
      ensures x in KernelTables()
    {
      assert x in s.tables ==> x in s.tables.Keys;
    }
  }

  /** Out of frames in row i: some kernel slot has no table. */
  lemma KernelShort(kdata: nat, i: nat, k: nat, keys: set<nat>)
    requires i < 4 && EXTMEM < kdata < PHYSTOP && keys <= KernelTables()
    requires k < Kmap(kdata, i).pages && (Kmap(kdata, i).virt + k) / 1024 !in keys
    ensures |keys| < KERNEL_FRAMES - 1
  {
    hide KernelPart, Mapped, Slots;
    var x := (Kmap(kdata, i).virt + k) / 1024;
    assert x in KernelTables();
    KernelTablesSize();
    Within(keys, KernelTables() - {x});
  }

  lemma {:induction false} Within(a: set<nat>, b: set<nat>)
    requires a <= b
    ensures |a| <= |b|
    decreases a
  {
    if a != {} {
      var x :| x in a;
      Within(a - {x}, b - {x});
    }
  }

  /** A space with only kernel entries has no user frames. */
  lemma NoUsers(mem: seq<Page>, head: nat, first: nat, owner: map<nat, Owner>, stack: seq<nat>, spaces: map<nat, Space>,
                d: nat, kdata: nat, i: nat, k: nat)
    requires State(mem, head, first, owner, stack, spaces) && d in spaces && i < 4 && EXTMEM < kdata < PHYSTOP
    requires spaces[d].pte ==
        Mapped(KernelPart(kdata, i), Kmap(kdata, i).virt, Kmap(kdata, i).start, WithP(Kmap(kdata, i).perm), k)
    ensures forall f :: f in owner && owner[f].User? ==> owner[f].d != d
  {
    hide SpaceOk, FreeOk;
    forall f | f in owner && owner[f].User?
      ensures owner[f].d != d
    {
      assert Used(f, owner[f], stack, spaces);
      MappedAt(KernelPart(kdata, i), Kmap(kdata, i).virt, Kmap(kdata, i).start, WithP(Kmap(kdata, i).perm), k,
          owner[f].v);
      KernelAt(kdata, i, owner[f].v);
    }
  }

  lemma KernelComplete(mem: seq<Page>, head: nat, first: nat, owner: map<nat, Owner>, stack: seq<nat>,
                       spaces: map<nat, Space>, d: nat, kdata: nat)
    requires State(mem, head, first, owner, stack, spaces) && d in spaces && EXTMEM < kdata < PHYSTOP
    requires spaces[d].pte == KernelPart(kdata, 4) && spaces[d].tables.Keys <= KernelTables()
    ensures spaces[d].tables.Keys == KernelTables() && |spaces[d].tables.Keys| == KERNEL_FRAMES - 1
  {
    hide State, KernelPart, Mapped, Slots;
    StateSpace(mem, head, first, owner, stack, spaces, d);
    SlotsUsed(kdata, spaces[d]);
    KernelTablesSize();
  }

  lemma SlotsUsed(kdata: nat, s: Space)
    requires EXTMEM < kdata < PHYSTOP && s.pte == KernelPart(kdata, 4)
    requires forall v :: v in s.pte ==> v / 1024 in s.tables
    ensures KernelTables() <= s.tables.Keys
  {
    hide KernelPart, KernelTables;
    forall x | x in KernelTables()
      ensures x in s.tables.Keys
    {
      KernelSlot(kdata, x);
      assert x * 1024 / 1024 == x;
    }
  }

  lemma KernelSlot(kdata: nat, x: nat)
    requires EXTMEM < kdata < PHYSTOP && x in KernelTables()
    ensures x * 1024 in KernelPart(kdata, 4)
  {
    hide KernelPart, Mapped, Look, KernelEntry;
    assert 512 <= x < 568 || 1016 <= x < 1024;
    KernelHas(kdata, x * 1024);
    KernelAt(kdata, 4, x * 1024);
  }

  lemma KernelHas(kdata: nat, v: nat)
    requires EXTMEM < kdata < PHYSTOP && (USER <= v < USER + PHYSTOP || DEVSPACE <= v < NPAGES)
    ensures KernelEntry(kdata, v) != NONE
  {
  }

  lemma KeptRefl(mem: seq<Page>, owner: map<nat, Owner>)
    ensures DataKept(mem, owner, mem) && UsersKept(owner, owner) && StillThere(mem, owner, mem, owner)
  {
  }

  lemma UsersDrop(owner: map<nat, Owner>, f: nat)
    requires f in owner && !owner[f].User?
    ensures UsersKept(owner, owner - {f})
  {
  }

  /** A space without user pages goes. */
  lemma UsersWithout(owner0: map<nat, Owner>, owner: map<nat, Owner>, d: nat)
    requires UsersKept(owner0, owner) && forall f :: f in owner && owner[f].User? ==> owner[f].d != d
    ensures UsersKept(owner0, Without(owner, d)) && Without(owner, d).Keys <= owner.Keys
  {
  }

  lemma DropFree(mem: seq<Page>, head: nat, first: nat, owner: map<nat, Owner>, stack: seq<nat>,
                 spaces: map<nat, Space>, f: nat)
    requires State(mem, head, first, owner, stack, spaces) && f in owner && !owner[f].Free?
    ensures FreeOk(mem, head, first, owner - {f}, stack) && first <= f < |mem|
  {
    FreeFrame(mem, owner, mem, owner - {f}, stack, head, first);
  }

  lemma StillDropped(mem: seq<Page>, owner: map<nat, Owner>, tab: nat, f: nat, p: Page, q: Page, o: Owner)
    requires tab < |mem| && f < |mem| && f in owner && tab in owner && !owner[tab].User? && o.Free?
    ensures StillThere(mem, owner, mem[tab := p][f := q], (owner - {f})[f := o])
  {
  }

  // ---- deallocuvm's progress: the mapped pages from lo up to w are gone ----

  ghost function Count(lo: nat, w: nat, m: nat): nat {
    var top := if w < m then w else m;
    if lo < top then top - lo else 0
  }

  lemma ClearedNothing(s: Space, lo: nat, m: nat)
    requires Contiguous(s, m)
    ensures s.(pte := Cleared(s.pte, lo, lo)) == s && Count(lo, lo, m) == 0
  {
    assert Cleared(s.pte, lo, lo) == s.pte;
  }

  /** Page w: gone already or never there when its table is missing, else one entry to clear. */
  lemma ClearedNext(mem: seq<Page>, head: nat, first: nat, owner: map<nat, Owner>, stack: seq<nat>,
                    spaces: map<nat, Space>, d: nat, s: Space, lo: nat, w: nat, m: nat)
    requires State(mem, head, first, owner, stack, spaces) && d in spaces && Contiguous(s, m) && lo <= w < USER
    requires spaces[d] == s.(pte := Cleared(s.pte, lo, w))
    ensures w in spaces[d].pte <==> w < m
    ensures w / 1024 !in spaces[d].tables ==> w >= m
    ensures w < m ==>
      && Cleared(s.pte, lo, w) - {w} == Cleared(s.pte, lo, w + 1)
      && Count(lo, w + 1, m) == Count(lo, w, m) + 1
    ensures w >= m ==> Cleared(s.pte, lo, w) == Cleared(s.pte, lo, w + 1) && Count(lo, w + 1, m) == Count(lo, w, m)
    ensures w >= m ==>
      && Cleared(s.pte, lo, w) == Cleared(s.pte, lo, w + 1024)
      && Count(lo, w, m) == Count(lo, w + 1024, m)
  {
    hide State;
    if w in spaces[d].pte {
      EntryTable(mem, head, first, owner, stack, spaces, d, w);
    }
    if w < m {
      assert Cleared(s.pte, lo, w) - {w} == Cleared(s.pte, lo, w + 1);
    } else {
      assert Cleared(s.pte, lo, w) == Cleared(s.pte, lo, w + 1);
      assert Cleared(s.pte, lo, w) == Cleared(s.pte, lo, w + 1024);
    }
  }

  lemma ClearedAll(s: Space, lo: nat, w: nat, m: nat)
    requires Contiguous(s, m) && m <= w && lo <= w
    ensures var k := if lo < m then lo else m;
      && Cleared(s.pte, lo, w) == Cleared(s.pte, k, m) && Count(lo, w, m) == m - k
      && Contiguous(s.(pte := Cleared(s.pte, k, m)), k)
  {
  }

  // ---- freevm ----

  ghost predicate ExactlyFreed(owner: map<nat, Owner>, owner': map<nat, Owner>, d: nat) {
    && owner'.Keys == owner.Keys
    && (forall f {:trigger owner'[f]} :: f in owner && Of(owner[f], d) ==> owner'[f].Free?)
    && (forall f {:trigger owner'[f]} :: f in owner && !Of(owner[f], d) && !owner[f].Free? ==> owner'[f] == owner[f])
  }

  lemma Freed(mem: seq<Page>, head: nat, first: nat, owner: map<nat, Owner>, stack: seq<nat>, spaces: map<nat, Space>,
              mem': seq<Page>, head': nat, owner': map<nat, Owner>, stack': seq<nat>, d: nat)
    requires State(mem, head, first, owner, stack, spaces) && State(mem', head', first, owner', stack', spaces - {d})
    requires owner'.Keys == owner.Keys && d in spaces
    ensures ExactlyFreed(owner, owner', d)
  {
    hide State;
    forall f | f in owner
      ensures f in owner' && (Of(owner[f], d) ==> owner'[f].Free?)
      ensures !Of(owner[f], d) && !owner[f].Free? ==> owner'[f] == owner[f]
    {
      assert f in owner'.Keys;
      Gone(mem, head, first, owner, stack, spaces, mem', head', owner', stack', d, f);
    }
  }

  lemma StateFree(mem: seq<Page>, head: nat, first: nat, owner: map<nat, Owner>, stack: seq<nat>,
                  spaces: map<nat, Space>)
    requires State(mem, head, first, owner, stack, spaces)
    ensures FreeOk(mem, head, first, owner, stack)
  {
  }

  lemma StillKeys(mem: seq<Page>, owner: map<nat, Owner>, mem': seq<Page>, owner': map<nat, Owner>)
    requires StillThere(mem, owner, mem', owner')
    ensures owner'.Keys == owner.Keys
  {
  }

  /** A frame that freevm's loop still has to free at index i. */
  predicate Left(o: Owner, d: nat, i: nat) {
    (o.Directory? && o.d == d) || (o.Tables? && o.d == d && o.x >= i)
  }

  /** freevm has returned the tables below i; the directory is as it was. */
  ghost predicate FreedUpTo(mem0: seq<Page>, owner0: map<nat, Owner>, mem: seq<Page>, owner: map<nat, Owner>, d: nat,
                            i: nat) {
    && |mem| == |mem0| && d < |mem| && mem[d] == mem0[d]
    && (forall f {:trigger f in owner} :: f in owner <==> f in owner0 && !Left(owner0[f], d, i))
    && (forall f {:trigger owner[f]} :: f in owner && owner[f].User? && f < |mem| ==>
          f in owner0 && owner0[f] == owner[f] && mem[f] == mem0[f])
  }

  lemma AbandonedTables(mem: seq<Page>, head: nat, first: nat, owner: map<nat, Owner>, stack: seq<nat>,
                        spaces: map<nat, Space>, d: nat)
    requires State(mem, head, first, owner, stack, spaces) && d in spaces && Contiguous(spaces[d], 0)
    ensures FreedUpTo(mem, owner, mem, Without(owner, d), d, 0)
  {
    hide SpaceOk, FreeOk;
    StateSpace(mem, head, first, owner, stack, spaces, d);
    ReadDirectory(mem, head, first, owner, stack, spaces, d, 0);
    forall f | f in owner
      ensures Of(owner[f], d) <==> Left(owner[f], d, 0)
    {
      assert Used(f, owner[f], stack, spaces);
    }
  }

  /** Slot i's table is the one frame that index i has to free. */
  lemma NextTable(mem0: seq<Page>, head0: nat, first: nat, owner0: map<nat, Owner>, stack0: seq<nat>,
                  spaces0: map<nat, Space>, mem: seq<Page>, owner: map<nat, Owner>, d: nat, i: nat, o: Owner, p: Page)
    requires o.Free? && State(mem0, head0, first, owner0, stack0, spaces0) && d in spaces0 && i < NPTENTRIES
    requires FreedUpTo(mem0, owner0, mem, owner, d, i)
    ensures d < |mem| && mem[d].Table? && |mem[d].e| == NPTENTRIES
    ensures mem[d].e[i].Present() ==>
              var f := mem[d].e[i].frame;
              && f !in owner && first <= f < |mem|
              && FreedUpTo(mem0, owner0, mem[f := p], owner[f := o], d, i + 1)
    ensures !mem[d].e[i].Present() ==> FreedUpTo(mem0, owner0, mem, owner, d, i + 1)
  {
    hide SpaceOk, FreeOk;
    ReadDirectory(mem0, head0, first, owner0, stack0, spaces0, d, i);
    forall f | f in owner0
      ensures Left(owner0[f], d, i) <==>
                Left(owner0[f], d, i + 1) || (i in spaces0[d].tables && f == spaces0[d].tables[i])
    {
      assert Used(f, owner0[f], stack0, spaces0);
    }
  }

  lemma TableIndex(mem: seq<Page>, head: nat, first: nat, owner: map<nat, Owner>, stack: seq<nat>,
                   spaces: map<nat, Space>, d: nat)
    requires State(mem, head, first, owner, stack, spaces) && d in spaces
    ensures forall x :: x in spaces[d].tables ==> x < NPTENTRIES
  {
    hide State;
    StateSpace(mem, head, first, owner, stack, spaces, d);
  }

  lemma LastTable(mem0: seq<Page>, head0: nat, first: nat, owner0: map<nat, Owner>, stack0: seq<nat>,
                  spaces0: map<nat, Space>, mem: seq<Page>, owner: map<nat, Owner>, d: nat, o: Owner, p: Page)
    requires o.Free? && State(mem0, head0, first, owner0, stack0, spaces0) && d in spaces0
    requires FreedUpTo(mem0, owner0, mem, owner, d, NPTENTRIES)
    ensures d !in owner && first <= d < |mem|
    ensures StillThere(mem0, owner0, mem[d := p], owner[d := o]) && owner[d := o].Keys == owner0.Keys
  {
    hide SpaceOk, FreeOk;
    StateFree(mem0, head0, first, owner0, stack0, spaces0);
    Bounds(mem0, head0, first, owner0, stack0);
    ReadDirectory(mem0, head0, first, owner0, stack0, spaces0, d, 0);
    TableIndex(mem0, head0, first, owner0, stack0, spaces0, d);
    forall f | f in owner0
      ensures Left(owner0[f], d, NPTENTRIES) <==> f == d
    {
      assert Used(f, owner0[f], stack0, spaces0);
    }
    forall f
      ensures f in owner[d := o].Keys <==> f in owner0.Keys
    {
    }
  }

  // ---- one user page more ----

  lemma InstalledIntro(mem: seq<Page>, owner: map<nat, Owner>, s: Space, mem': seq<Page>, owner': map<nat, Owner>,
                       s': Space, v: nat, f: nat, flags: nat, page: Page, ok: bool)
    requires s'.pte == (if ok then s.pte[v := Pte(f, flags)] else s.pte)
    requires s'.tables.Keys == (if ok then s.tables.Keys + {v / 1024} else s.tables.Keys)
    requires Extends(s, s') && owner'.Keys == (if ok then owner.Keys + {f} else owner.Keys) && UsersKept(owner, owner')
    requires |mem'| == |mem| && f < |mem| && mem'[f] == page && DataKept(mem[f := page], owner, mem')
    ensures Installed(mem, owner, s, mem', owner', s', v, f, flags, page, ok)
  {
  }

  /** Mapping one page made its table exactly when it was missing. */
  lemma RangeTables(mem: seq<Page>, head: nat, first: nat, owner: map<nat, Owner>, stack: seq<nat>,
                    spaces: map<nat, Space>, d: nat, s: Space, stack0: seq<nat>, v: nat, ok: bool)
    requires State(mem, head, first, owner, stack, spaces) && d in spaces && v < USER
    requires s.tables.Keys <= spaces[d].tables.Keys <= s.tables.Keys + {v / 1024}
    requires |stack| + |spaces[d].tables.Keys| == |stack0| + |s.tables.Keys|
    requires if ok then v in spaces[d].pte else stack == [] && v / 1024 !in spaces[d].tables
    ensures ok <==> v / 1024 in s.tables || stack0 != []
    ensures |stack| == |stack0| - (if ok && v / 1024 !in s.tables then 1 else 0)
    ensures spaces[d].tables.Keys == if ok then s.tables.Keys + {v / 1024} else s.tables.Keys
  {
    hide State;
    var t, t0 := spaces[d].tables.Keys, s.tables.Keys;
    KeyAdded(t0, v / 1024);
    if ok {
      EntryTable(mem, head, first, owner, stack, spaces, d, v);
      assert t == t0 + {v / 1024};
    } else {
      assert v / 1024 !in t;
      assert t == t0;
    }
  }

  lemma EntryTable(mem: seq<Page>, head: nat, first: nat, owner: map<nat, Owner>, stack: seq<nat>,
                   spaces: map<nat, Space>, d: nat, v: nat)
    requires State(mem, head, first, owner, stack, spaces) && d in spaces && v in spaces[d].pte
    ensures v / 1024 in spaces[d].tables.Keys
  {
    hide State;
    StateSpace(mem, head, first, owner, stack, spaces, d);
  }

  /** What installing one page at v changed: its entry, perhaps a table, and f's owner. */
  ghost predicate Installed(mem: seq<Page>, owner: map<nat, Owner>, s: Space, mem': seq<Page>, owner': map<nat, Owner>,
                            s': Space, v: nat, f: nat, flags: nat, page: Page, ok: bool) {
    && s'.pte == (if ok then s.pte[v := Pte(f, flags)] else s.pte)
    && s'.tables.Keys == (if ok then s.tables.Keys + {v / 1024} else s.tables.Keys)
    && Extends(s, s')
    && owner'.Keys == (if ok then owner.Keys + {f} else owner.Keys)
    && UsersKept(owner, owner')
    && |mem'| == |mem| && f < |mem| && mem'[f] == page && DataKept(mem[f := page], owner, mem')
  }

  lemma RangeOne(mem: seq<Page>, owner: map<nat, Owner>, s: Space, mem1: seq<Page>, mem': seq<Page>,
                 owner': map<nat, Owner>, s': Space, v: nat, f: nat, flags: nat, k: nat, page: Page)
    requires k <= 1 && v < USER && f < |mem| && mem1 == mem[f := page] && f !in owner
    requires RangeMapped(mem1, owner, s, mem', owner', s', v, f, flags, k, 1)
    ensures s'.pte == (if k == 1 then s.pte[v := Pte(f, flags)] else s.pte)
    ensures Extends(s, s') && s.tables.Keys <= s'.tables.Keys <= s.tables.Keys + {v / 1024}
    ensures owner'.Keys == (if k == 1 then owner.Keys + {f} else owner.Keys) && UsersKept(owner, owner')
    ensures |mem'| == |mem| && mem'[f] == page && DataKept(mem1, owner, mem')
  {
    assert Mapped(s.pte, v, f, flags, 1) == Mapped(s.pte, v, f, flags, 0)[v := Pte(f, flags)];
    forall x | x in s'.tables.Keys
      ensures x in s.tables.Keys + {v / 1024}
    {
      assert x in s'.tables;
    }
    forall g
      ensures g in owner'.Keys <==> g in (if k == 1 then owner.Keys + {f} else owner.Keys)
    {
      assert g in owner' <==> g in owner'.Keys;
    }
    KeptAt(mem1, owner, mem', f);
  }

  // ---- how many frames it takes ----

  /** Pages [w, n), with tables present for the slots in keys, never run out of frames at a table. */
  ghost predicate TablesFit(keys: set<nat>, w: nat, n: nat, free: nat)
    decreases n - w
  {
    if w >= n || free == 0 then true
    else if w / 1024 in keys then TablesFit(keys, w + 1, n, free - 1)
    else free >= 2 && TablesFit(keys + {w / 1024}, w + 1, n, free - 2)
  }

  /** There are frames for all of them. */
  ghost predicate Enough(keys: set<nat>, w: nat, n: nat, free: nat)
    decreases n - w
  {
    if w >= n then true
    else if w / 1024 in keys then free >= 1 && Enough(keys, w + 1, n, free - 1)
    else free >= 2 && Enough(keys + {w / 1024}, w + 1, n, free - 2)
  }

  lemma FitStep(keys: set<nat>, w: nat, n: nat, free: nat)
    requires w < n
    ensures free == 0 ==> TablesFit(keys, w, n, free) && !Enough(keys, w, n, free)
    ensures free == 1 && w / 1024 !in keys ==> !TablesFit(keys, w, n, free) && !Enough(keys, w, n, free)
    ensures w / 1024 in keys && free >= 1 ==>
              && keys + {w / 1024} == keys
              && (TablesFit(keys, w, n, free) <==> TablesFit(keys, w + 1, n, free - 1))
              && (Enough(keys, w, n, free) <==> Enough(keys, w + 1, n, free - 1))
    ensures w / 1024 !in keys && free >= 2 ==>
              && (TablesFit(keys, w, n, free) <==> TablesFit(keys + {w / 1024}, w + 1, n, free - 2))
              && (Enough(keys, w, n, free) <==> Enough(keys + {w / 1024}, w + 1, n, free - 2))
  {
  }

  lemma FitEnd(keys: set<nat>, w: nat, n: nat, free: nat)
    requires w >= n
    ensures TablesFit(keys, w, n, free) && Enough(keys, w, n, free)
  {
  }

  /** What allocuvm knows at page w about how its whole request, pages [lo, n) from free0 frames,
      will end; short once a table could not be made. */
  ghost predicate Demand(keys: set<nat>, w: nat, n: nat, free: nat, keys0: set<nat>, lo: nat, free0: nat, short: bool) {
    if short then
      && 0 < n && free == 0 && !TablesFit(keys0, lo, n, free0) && !Enough(keys0, lo, n, free0)
      && (w >= n <==> Enough(keys0, lo, n - 1, free0))
    else
      && (TablesFit(keys, w, n, free) <==> TablesFit(keys0, lo, n, free0))
      && (Enough(keys, w, n, free) <==> Enough(keys0, lo, n, free0))
      && (w < n ==> (Enough(keys, w, n - 1, free) <==> Enough(keys0, lo, n - 1, free0)))
  }

  lemma DemandStart(keys: set<nat>, lo: nat, n: nat, free: nat)
    ensures Demand(keys, lo, n, free, keys, lo, free, false)
  {
  }

  /** Where the request ends: at the last page, or without a frame before it. */
  lemma DemandMet(keys: set<nat>, w: nat, n: nat, free: nat, keys0: set<nat>, lo: nat, free0: nat, short: bool)
    requires Demand(keys, w, n, free, keys0, lo, free0, short)
    ensures short ==> 0 < n && !TablesFit(keys0, lo, n, free0) && !Enough(keys0, lo, n, free0)
                      && (w >= n <==> Enough(keys0, lo, n - 1, free0))
    ensures !short && w >= n ==> TablesFit(keys0, lo, n, free0) && Enough(keys0, lo, n, free0)
    ensures !short && w < n && free == 0 ==> TablesFit(keys0, lo, n, free0) && !Enough(keys0, lo, n, free0)
  {
  }

  lemma DemandStep(keys: set<nat>, w: nat, n: nat, free: nat, keys0: set<nat>, lo: nat, free0: nat,
                   keys': set<nat>, free': nat, ok: bool)
    requires Demand(keys, w, n, free, keys0, lo, free0, false) && w < n && free > 0
    requires ok <==> w / 1024 in keys || free >= 2
    requires keys' == if ok then keys + {w / 1024} else keys
    requires free' == free - 1 - (if ok && w / 1024 !in keys then 1 else 0)
    ensures Demand(keys', w + 1, n, free', keys0, lo, free0, !ok)
  {
    hide TablesFit, Enough;
    FitStep(keys, w, n, free);
    if w < n - 1 { FitStep(keys, w, n - 1, free); } else { FitEnd(keys, w, n - 1, free); }
  }

  /** The new tables are for pages [lo, hi). */
  ghost predicate TablesWithin(keys: set<nat>, keys': set<nat>, lo: nat, hi: nat) {
    forall x :: x in keys' ==> x in keys || lo / 1024 <= x <= (hi - 1) / 1024
  }

  lemma TablesWithinStart(keys: set<nat>, lo: nat, hi: nat)
    ensures TablesWithin(keys, keys, lo, hi)
  {
  }

  /** The tables when page w has been mapped. */
  function WithTable(keys: set<nat>, w: nat, mapped: bool): set<nat> {
    if mapped then keys + {w / 1024} else keys
  }

  lemma TablesWithinStep(keys: set<nat>, keys1: set<nat>, mapped: bool, lo: nat, hi: nat, w: nat)
    requires TablesWithin(keys, keys1, lo, hi) && lo <= w < hi
    ensures TablesWithin(keys, WithTable(keys1, w, mapped), lo, hi)
  {
    assert lo / 1024 <= w / 1024 <= (hi - 1) / 1024;
  }

  lemma InstalledEntry(mem: seq<Page>, owner: map<nat, Owner>, s: Space, mem': seq<Page>, owner': map<nat, Owner>,
                       s': Space, v: nat, f: nat, flags: nat, page: Page, ok: bool)
    requires Installed(mem, owner, s, mem', owner', s', v, f, flags, page, ok)
    ensures ok ==> v in s'.pte && s'.pte[v].frame == f
  {
  }

  /** What a turn of allocuvm's loop that got a frame does. */
  lemma GrowTurn(mem0: seq<Page>, owner0: map<nat, Owner>, s0: Space, mem: seq<Page>, owner: map<nat, Owner>, d: nat,
                 s: Space, mem': seq<Page>, owner': map<nat, Owner>, s': Space, lo: nat, w: nat, hi: nat, f: nat,
                 free0: nat, free: nat, left: nat, ok: bool)
    requires Grew(mem0, owner0, s0, mem, owner, d, s, lo, w, {}) && w < hi <= USER
    requires f in owner && owner[f].Free?
    requires Installed(mem, owner - {f}, s, mem', owner', s', w, f, 7, Data(Zeros(PGSIZE)), ok)
    requires ok ==> Owns(owner', f, User(d, w))
    requires Demand(s.tables.Keys, w, hi, free, s0.tables.Keys, lo, free0, false) && free > 0
    requires ok <==> w / 1024 in s.tables.Keys || free >= 2
    requires left == free - 1 - (if ok && w / 1024 !in s.tables.Keys then 1 else 0)
    ensures Grew(mem0, owner0, s0, mem', owner', d, s', lo, if ok then w + 1 else w, if ok then {} else {f})
    ensures Demand(s'.tables.Keys, w + 1, hi, left, s0.tables.Keys, lo, free0, !ok)
    ensures s'.tables.Keys == WithTable(s.tables.Keys, w, ok)
    ensures ok ==> left + |s'.tables.Keys| == free + |s.tables.Keys| - 1
    ensures !ok ==> left == 0
  {
    hide Grew, Demand, Installed;
    InstalledAt(mem, owner - {f}, s, mem', owner', s', w, f, 7, Data(Zeros(PGSIZE)), ok);
    KeyAdded(s.tables.Keys, w / 1024);
    DemandStep(s.tables.Keys, w, hi, free, s0.tables.Keys, lo, free0, s'.tables.Keys, left, ok);
    GrewStep(mem0, owner0, s0, mem, owner, d, s, mem', owner', s', lo, w, f, 7, Data(Zeros(PGSIZE)), ok);
  }

  /** How allocuvm ends, asked for pages [lo, hi) with free frames left. */
  ghost predicate GrowthOutcome(mem: seq<Page>, s: Space, s': Space, lo: nat, hi: nat, free: nat, newsz: nat, r: nat,
                                lost: set<nat>) {
    var keys := s.tables.Keys;
    && (lost == {} <==> TablesFit(keys, lo, hi, free))
    && (Enough(keys, lo, hi, free) ==> r == newsz && AddedZero(mem, s, s', lo, hi))
    && (lost == {} && !Enough(keys, lo, hi, free) ==> r == 0 && s'.pte == s.pte)
    && (lost != {} ==>
          if Enough(keys, lo, hi - 1, free) then r == newsz && newsz > 0 && AddedZero(mem, s, s', lo, hi - 1)
          else r == 0 && s'.pte == s.pte)
  }

  lemma GrowthFails(mem: seq<Page>, s: Space, s': Space, lo: nat, hi: nat, free: nat, newsz: nat, lost: set<nat>,
                    keys: set<nat>, w: nat)
    requires Demand(keys, w, hi, 0, s.tables.Keys, lo, free, lost != {}) && w < hi && s'.pte == s.pte
    ensures GrowthOutcome(mem, s, s', lo, hi, free, newsz, 0, lost)
  {
    hide Demand, TablesFit, Enough, AddedZero;
    DemandMet(keys, w, hi, 0, s.tables.Keys, lo, free, lost != {});
  }

  lemma GrowthEnds(mem: seq<Page>, s: Space, s': Space, lo: nat, hi: nat, free: nat, newsz: nat, lost: set<nat>,
                   left: nat, have: nat)
    requires Demand(s'.tables.Keys, hi, hi, left, s.tables.Keys, lo, free, lost != {})
    requires AddedZero(mem, s, s', lo, have) && have == (if lost == {} then hi else hi - 1) && hi == Pages(newsz)
    ensures GrowthOutcome(mem, s, s', lo, hi, free, newsz, newsz, lost)
  {
    hide Demand, TablesFit, Enough, AddedZero;
    DemandMet(s'.tables.Keys, hi, hi, left, s.tables.Keys, lo, free, lost != {});
  }

  /** A first user page with one frame left: the page gets it, and its table gets none. */
  lemma OneFrameLeft()
    ensures !TablesFit(KernelTables(), 0, 1, 1) && Enough(KernelTables(), 0, 0, 1)
  {
    hide KernelTables, Slots;
    assert 0 !in KernelTables() by { LowSlots(); }
    FitStep(KernelTables(), 0, 1, 1);
    FitEnd(KernelTables(), 0, 0, 1);
  }

  lemma LowSlots()
    ensures 0 !in KernelTables()
  {
  }

  // ---- allocuvm's progress: pages [lo, have) are new ----

  ghost predicate ZeroPages(mem: seq<Page>, s: Space, lo: nat, hi: nat) {
    forall v :: lo <= v < hi ==> v in s.pte && PageIs(mem, s.pte[v], 7, Data(Zeros(PGSIZE)))
  }

  /** Space s' is s and zeroed pages, writable by the user, from lo up to hi: user memory is
      contiguous to there, and no other entry is new. */
  ghost predicate AddedZero(mem: seq<Page>, s: Space, s': Space, lo: nat, hi: nat) {
    Contiguous(s', hi) && Extends(s, s') && ZeroPages(mem, s', lo, hi) && Cleared(s'.pte, lo, hi) == s.pte
  }

  /** User pages come and go without touching what the kernel maps. */
  lemma KernelGrown(kdata: nat, mem: seq<Page>, s: Space, s': Space, lo: nat, hi: nat)
    requires AddedZero(mem, s, s', lo, hi)
    ensures KernelMapped(kdata, s) ==> KernelMapped(kdata, s')
  {
    if KernelMapped(kdata, s) {
      forall v: nat | v >= USER
        ensures Look(s'.pte, v) == KernelEntry(kdata, v)
      {
        assert Look(s.pte, v) == KernelEntry(kdata, v);
        assert v in s'.pte <==> v in Cleared(s'.pte, lo, hi);
      }
    }
  }

  lemma KernelCleared(kdata: nat, s: Space, lo: nat, hi: nat)
    ensures KernelMapped(kdata, s) ==> KernelMapped(kdata, s.(pte := Cleared(s.pte, lo, hi)))
  {
    var c := Cleared(s.pte, lo, hi);
    if KernelMapped(kdata, s) {
      forall v: nat | v >= USER
        ensures Look(c, v) == KernelEntry(kdata, v)
      {
        assert Look(s.pte, v) == KernelEntry(kdata, v);
        assert v in c <==> v in s.pte;
      }
    }
  }

  lemma KernelSame(kdata: nat, s: Space, s': Space)
    requires s'.pte == s.pte
    ensures KernelMapped(kdata, s) ==> KernelMapped(kdata, s')
  {
  }

  predicate PageIs(mem: seq<Page>, p: Pte, flags: nat, page: Page) {
    p.flags == flags && p.frame < |mem| && mem[p.frame] == page
  }

  ghost predicate Grew(mem0: seq<Page>, owner0: map<nat, Owner>, s0: Space, mem: seq<Page>, owner: map<nat, Owner>,
                       d: nat, s: Space, lo: nat, have: nat, lost: set<nat>) {
    && lo <= have && Contiguous(s0, lo) && Contiguous(s, have)
    && Extends(s0, s) && (forall v :: v in s.pte && !(lo <= v < have) ==> v in s0.pte)
    && DataKept(mem0, owner0, mem) && UsersKept(owner0, owner) && owner.Keys == owner0.Keys - lost
        && lost <= owner0.Keys
    && (forall v :: lo <= v < have ==> NewPage(mem, owner, d, s, v))
  }

  ghost predicate NewPage(mem: seq<Page>, owner: map<nat, Owner>, d: nat, s: Space, v: nat) {
    v in s.pte && PageIs(mem, s.pte[v], 7, Data(Zeros(PGSIZE))) && Owns(owner, s.pte[v].frame, User(d, v))
  }

  lemma GrewStart(mem: seq<Page>, owner: map<nat, Owner>, d: nat, s: Space, lo: nat)
    requires Contiguous(s, lo)
    ensures Grew(mem, owner, s, mem, owner, d, s, lo, lo, {})
  {
  }

  /** The next page is unmapped, whatever was allocated for it was free, and nothing kept it. */
  lemma GrewFresh(mem0: seq<Page>, owner0: map<nat, Owner>, s0: Space, mem: seq<Page>, owner: map<nat, Owner>,
                  d: nat, s: Space, lo: nat, have: nat, lost: set<nat>, w: nat, f: nat)
    requires Grew(mem0, owner0, s0, mem, owner, d, s, lo, have, lost) && have <= w < USER
    ensures w !in s.pte
  {
  }

  lemma GrewStep(mem0: seq<Page>, owner0: map<nat, Owner>, s0: Space, mem: seq<Page>, owner: map<nat, Owner>, d: nat,
                 s: Space, mem': seq<Page>, owner': map<nat, Owner>, s': Space, lo: nat, have: nat, f: nat, flags: nat,
                 page: Page, ok: bool)
    requires Grew(mem0, owner0, s0, mem, owner, d, s, lo, have, {}) && have < USER
    requires f in owner && owner[f].Free? && flags == 7 && page == Data(Zeros(PGSIZE))
    requires Installed(mem, owner - {f}, s, mem', owner', s', have, f, flags, page, ok)
    requires ok ==> Owns(owner', f, User(d, have))
    ensures Grew(mem0, owner0, s0, mem', owner', d, s', lo, if ok then have + 1 else have, if ok then {} else {f})
  {
    hide Extends, DataKept, UsersKept, Contiguous, Installed, PageIs;
    InstalledKeeps(mem0, owner0, s0, mem, owner, s, mem', owner', s', have, f, flags, page, ok);
    InstalledAt(mem, owner - {f}, s, mem', owner', s', have, f, flags, page, ok);
    if ok { ContiguousAdd(s, s', have, Pte(f, flags)); } else { ContiguousSame(s, s', have); }
    forall v | lo <= v < have
      ensures NewPage(mem', owner', d, s', v)
    {
      assert NewPage(mem, owner, d, s, v);
      NewPageKept(mem, owner, d, s, mem', owner', s', have, f, flags, page, ok, v);
    }
  }

  lemma NewPageKept(mem: seq<Page>, owner: map<nat, Owner>, d: nat, s: Space, mem': seq<Page>, owner': map<nat, Owner>,
                    s': Space, have: nat, f: nat, flags: nat, page: Page, ok: bool, v: nat)
    requires NewPage(mem, owner, d, s, v) && f in owner && owner[f].Free?
    requires Installed(mem, owner - {f}, s, mem', owner', s', have, f, flags, page, ok)
    ensures NewPage(mem', owner', d, s', v)
  {
    hide Installed;
    InstalledAway(mem, owner, s, mem', owner', s', have, f, flags, page, ok, s.pte[v].frame, v);
  }

  lemma InstalledAt(mem: seq<Page>, owner: map<nat, Owner>, s: Space, mem': seq<Page>, owner': map<nat, Owner>,
                    s': Space, v: nat, f: nat, flags: nat, page: Page, ok: bool)
    requires Installed(mem, owner, s, mem', owner', s', v, f, flags, page, ok)
    ensures ok ==> v in s'.pte && s'.pte[v] == Pte(f, flags) && PageIs(mem', s'.pte[v], flags, page)
    ensures s'.pte == if ok then s.pte[v := Pte(f, flags)] else s.pte
    ensures s'.tables.Keys == if ok then s.tables.Keys + {v / 1024} else s.tables.Keys
  {
  }

  lemma ContiguousAdd(s: Space, s': Space, n: nat, p: Pte)
    requires Contiguous(s, n) && s'.pte == s.pte[n := p] && n < USER
    ensures Contiguous(s', n + 1)
  {
  }

  lemma ContiguousSame(s: Space, s': Space, n: nat)
    requires Contiguous(s, n) && s'.pte == s.pte
    ensures Contiguous(s', n)
  {
  }

  /** What installing a page taken from the free list keeps since some earlier state. */
  lemma InstalledKeeps(mem0: seq<Page>, owner0: map<nat, Owner>, s0: Space, mem: seq<Page>, owner: map<nat, Owner>,
                       s: Space, mem': seq<Page>, owner': map<nat, Owner>, s': Space, v: nat, f: nat, flags: nat,
                       page: Page, ok: bool)
    requires Extends(s0, s) && DataKept(mem0, owner0, mem) && UsersKept(owner0, owner)
    requires f in owner && owner[f].Free?
    requires Installed(mem, owner - {f}, s, mem', owner', s', v, f, flags, page, ok)
    ensures Extends(s0, s') && DataKept(mem0, owner0, mem') && UsersKept(owner0, owner')
    ensures owner'.Keys == if ok then owner.Keys else owner.Keys - {f}
    ensures f in owner0
  {
    DataWrite(mem0, owner0, mem, owner, f, page);
    UsersDrop(owner, f);
    UsersTrans(owner0, owner, owner - {f});
    DataTrans(mem0, owner0, mem[f := page], owner - {f}, mem');
    UsersTrans(owner0, owner - {f}, owner');
    assert (owner - {f}).Keys == owner.Keys - {f};
    assert owner.Keys - {f} + {f} == owner.Keys;
  }

  /** Another user page is where it was, as it was. */
  lemma InstalledAway(mem: seq<Page>, owner: map<nat, Owner>, s: Space, mem': seq<Page>, owner': map<nat, Owner>,
                      s': Space, v: nat, f: nat, flags: nat, page: Page, ok: bool, g: nat, u: nat)
    requires f in owner && owner[f].Free? && u in s.pte && g < |mem| && g in owner && owner[g].User?
    requires Installed(mem, owner - {f}, s, mem', owner', s', v, f, flags, page, ok)
    ensures u in s'.pte && s'.pte[u] == s.pte[u] && |mem'| == |mem| && mem'[g] == mem[g] && g in owner'
        && owner'[g] == owner[g]
  {
    KeptAt(mem[f := page], owner - {f}, mem', g);
  }

  lemma GrewUndone(mem0: seq<Page>, owner0: map<nat, Owner>, s0: Space, mem: seq<Page>, owner: map<nat, Owner>, d: nat,
                   s: Space, lo: nat, have: nat, lost: set<nat>, mem': seq<Page>, owner': map<nat, Owner>)
    requires Grew(mem0, owner0, s0, mem, owner, d, s, lo, have, lost) && StillThere(mem, owner, mem', owner')
    ensures Cleared(s.pte, lo, have) == s0.pte
    ensures SameUsers(mem0, owner0, mem', owner') && owner'.Keys == owner0.Keys - lost
  {
    SameTrans(mem0, owner0, mem, owner, mem', owner');
  }

  lemma GrewEnd(mem0: seq<Page>, owner0: map<nat, Owner>, s0: Space, mem: seq<Page>, owner: map<nat, Owner>, d: nat,
                s: Space, lo: nat, have: nat, lost: set<nat>)
    requires Grew(mem0, owner0, s0, mem, owner, d, s, lo, have, lost)
    ensures Contiguous(s, have) && AddedZero(mem, s0, s, lo, have)
    ensures SameUsers(mem0, owner0, mem, owner) && owner.Keys == owner0.Keys - lost
  {
    forall v | lo <= v < have
      ensures v in s.pte && PageIs(mem, s.pte[v], 7, Data(Zeros(PGSIZE)))
    {
      assert NewPage(mem, owner, d, s, v);
    }
  }

  lemma SameRefl(mem: seq<Page>, owner: map<nat, Owner>)
    ensures SameUsers(mem, owner, mem, owner)
  {
  }

  // ---- copyuvm's progress: pages [0, w) of c copy those of s0 ----

  /** Above KERNBASE the space maps what the kernel needs and no more. */
  ghost predicate KernelMapped(kdata: nat, s: Space) {
    forall v: nat {:trigger Look(s.pte, v)} :: v >= USER ==> Look(s.pte, v) == KernelEntry(kdata, v)
  }

  /** Page v of s' has the flags and the contents that page v of s had, in a frame that was free. */
  ghost predicate CopyOf(mem: seq<Page>, owner: map<nat, Owner>, s: Space, mem': seq<Page>, s': Space, v: nat) {
    && v in s.pte && v in s'.pte && s.pte[v].frame < |mem| == |mem'|
    && PageIs(mem', s'.pte[v], s.pte[v].flags, mem[s.pte[v].frame])
    && s'.pte[v].frame in owner && owner[s'.pte[v].frame].Free?
  }

  ghost predicate CopiedPage(mem0: seq<Page>, s0: Space, mem: seq<Page>, owner: map<nat, Owner>, c: nat, s: Space,
                             v: nat) {
    && v in s0.pte && v in s.pte && s0.pte[v].frame < |mem0|
    && PageIs(mem, s.pte[v], s0.pte[v].flags, mem0[s0.pte[v].frame])
    && Owns(owner, s.pte[v].frame, User(c, v))
  }

  ghost predicate Copied(mem0: seq<Page>, owner0: map<nat, Owner>, s0: Space, mem: seq<Page>, owner: map<nat, Owner>,
                         c: nat, s: Space, kdata: nat, w: nat) {
    && Contiguous(s, w) && KernelMapped(kdata, s)
    && DataKept(mem0, owner0, mem) && UsersKept(owner0, owner)
    && (forall v :: 0 <= v < w ==> CopiedPage(mem0, s0, mem, owner, c, s, v))
  }

  lemma CopiedStart(mem0: seq<Page>, owner0: map<nat, Owner>, s0: Space, mem: seq<Page>, owner: map<nat, Owner>,
                    c: nat, s: Space, kdata: nat)
    requires EXTMEM < kdata < PHYSTOP && s.pte == KernelPart(kdata, 4)
    requires DataKept(mem0, owner0, mem) && UsersKept(owner0, owner)
    ensures Copied(mem0, owner0, s0, mem, owner, c, s, kdata, 0)
  {
    hide DataKept, UsersKept, KernelPart;
    forall v: nat
      ensures v >= USER ==> Look(s.pte, v) == KernelEntry(kdata, v)
      ensures v < USER ==> v !in s.pte
    {
      KernelAt(kdata, 4, v);
    }
  }

  /** The parent's page is mapped, and holds what it held at the start. */
  lemma ParentPage(mem: seq<Page>, head: nat, first: nat, owner: map<nat, Owner>, stack: seq<nat>,
                   spaces: map<nat, Space>, d: nat, v: nat, n: nat, mem0: seq<Page>, owner0: map<nat, Owner>, c: nat,
                   sc: Space, kdata: nat)
    requires State(mem, head, first, owner, stack, spaces) && d in spaces && Contiguous(spaces[d], n) && v < n
    requires Copied(mem0, owner0, spaces[d], mem, owner, c, sc, kdata, v)
    requires v in spaces[d].pte ==> Owns(owner0, spaces[d].pte[v].frame, User(d, v))
    ensures v < USER && v in spaces[d].pte && v / 1024 in spaces[d].tables && v !in sc.pte
    ensures spaces[d].pte[v].flags % 2 == 1
    ensures spaces[d].pte[v].frame < |mem| == |mem0| && mem[spaces[d].pte[v].frame] == mem0[spaces[d].pte[v].frame]
  {
    hide State;
    StateSpace(mem, head, first, owner, stack, spaces, d);
    ReadData(mem, head, first, owner, stack, spaces, d, v);
  }

  lemma ContiguousBound(s: Space, n: nat)
    requires Contiguous(s, n)
    ensures n <= USER
  {
  }

  lemma OldPage(mem: seq<Page>, head: nat, first: nat, owner: map<nat, Owner>, stack: seq<nat>, spaces: map<nat, Space>,
                d: nat, v: nat)
    requires State(mem, head, first, owner, stack, spaces) && d in spaces && v < USER
    ensures v in spaces[d].pte ==> Owns(owner, spaces[d].pte[v].frame, User(d, v))
  {
    hide State;
    if v in spaces[d].pte {
      ReadData(mem, head, first, owner, stack, spaces, d, v);
    }
  }

  lemma CopiedSpace(mem0: seq<Page>, owner0: map<nat, Owner>, s0: Space, mem: seq<Page>, owner: map<nat, Owner>,
                    c: nat, s: Space, kdata: nat, w: nat)
    requires Copied(mem0, owner0, s0, mem, owner, c, s, kdata, w)
    ensures Contiguous(s, w) && DataKept(mem0, owner0, mem) && UsersKept(owner0, owner)
  {
  }

  lemma CopiedFail(mem0: seq<Page>, owner0: map<nat, Owner>, s0: Space, mem: seq<Page>, owner: map<nat, Owner>, c: nat,
                   s: Space, mem': seq<Page>, owner': map<nat, Owner>, s': Space, kdata: nat, w: nat, f: nat,
                   flags: nat, page: Page)
    requires Copied(mem0, owner0, s0, mem, owner, c, s, kdata, w) && f in owner && owner[f].Free?
    requires Installed(mem, owner - {f}, s, mem', owner', s', w, f, flags, page, false)
    ensures Contiguous(s', w) && DataKept(mem0, owner0, mem') && UsersKept(owner0, owner')
        && owner'.Keys == owner.Keys - {f}
    ensures f in owner0
  {
    hide DataKept, UsersKept, Contiguous;
    InstalledKeeps(mem0, owner0, s, mem, owner, s, mem', owner', s', w, f, flags, page, false);
    ContiguousSame(s, s', w);
  }

  lemma CopiedStep(mem0: seq<Page>, owner0: map<nat, Owner>, s0: Space, mem: seq<Page>, owner: map<nat, Owner>, c: nat,
                   s: Space, mem': seq<Page>, owner': map<nat, Owner>, s': Space, kdata: nat, w: nat, f: nat,
                   flags: nat, page: Page)
    requires Copied(mem0, owner0, s0, mem, owner, c, s, kdata, w) && f in owner && owner[f].Free? && w < USER
    requires w in s0.pte && s0.pte[w].frame < |mem0| && page == mem0[s0.pte[w].frame] && flags == s0.pte[w].flags
    requires Installed(mem, owner - {f}, s, mem', owner', s', w, f, flags, page, true) && Owns(owner', f, User(c, w))
    ensures Copied(mem0, owner0, s0, mem', owner', c, s', kdata, w + 1) && owner'.Keys == owner.Keys
  {
    hide DataKept, UsersKept, Contiguous, Extends;
    ExtendsRefl(s);
    InstalledKeeps(mem0, owner0, s, mem, owner, s, mem', owner', s', w, f, flags, page, true);
    ContiguousAdd(s, s', w, Pte(f, flags));
    forall v | 0 <= v < w
      ensures CopiedPage(mem0, s0, mem', owner', c, s', v)
    {
      assert CopiedPage(mem0, s0, mem, owner, c, s, v);
      InstalledAway(mem, owner, s, mem', owner', s', w, f, flags, page, true, s.pte[v].frame, v);
    }
    forall v: nat | v >= USER
      ensures Look(s'.pte, v) == KernelEntry(kdata, v)
    {
      assert Look(s.pte, v) == KernelEntry(kdata, v);
    }
  }

  lemma ExtendsRefl(s: Space)
    ensures Extends(s, s)
  {
  }

  lemma KeptSame(mem: seq<Page>, owner: map<nat, Owner>, mem': seq<Page>, owner': map<nat, Owner>)
    requires DataKept(mem, owner, mem') && UsersKept(owner, owner')
    ensures SameUsers(mem, owner, mem', owner')
  {
  }

  lemma CopiedEnd(mem0: seq<Page>, head0: nat, first: nat, owner0: map<nat, Owner>, stack0: seq<nat>,
                  spaces0: map<nat, Space>, d: nat, mem: seq<Page>, head: nat, owner: map<nat, Owner>, stack: seq<nat>,
                  spaces: map<nat, Space>, c: nat, kdata: nat, n: nat)
    requires State(mem0, head0, first, owner0, stack0, spaces0) && State(mem, head, first, owner, stack, spaces)
    requires d in spaces0 && c !in spaces0 && c in spaces && spaces == spaces0[c := spaces[c]]
        && owner.Keys == owner0.Keys
    requires Copied(mem0, owner0, spaces0[d], mem, owner, c, spaces[c], kdata, n)
    ensures Contiguous(spaces[c], n) && KernelMapped(kdata, spaces[c]) && SameUsers(mem0, owner0, mem, owner)
    ensures forall v :: 0 <= v < n ==> CopyOf(mem0, owner0, spaces0[d], mem, spaces[c], v)
  {
    KeptSame(mem0, owner0, mem, owner);
    forall v | 0 <= v < n
      ensures CopyOf(mem0, owner0, spaces0[d], mem, spaces[c], v)
    {
      assert CopiedPage(mem0, spaces0[d], mem, owner, c, spaces[c], v);
      WasFree(mem0, head0, first, owner0, stack0, spaces0, mem, head, owner, stack, spaces, c, spaces[c].pte[v].frame,
          v);
    }
  }

  lemma WasFree(mem0: seq<Page>, head0: nat, first: nat, owner0: map<nat, Owner>, stack0: seq<nat>,
                spaces0: map<nat, Space>, mem: seq<Page>, head: nat, owner: map<nat, Owner>, stack: seq<nat>,
                spaces: map<nat, Space>, c: nat, f: nat, v: nat)
    requires State(mem0, head0, first, owner0, stack0, spaces0) && State(mem, head, first, owner, stack, spaces)
    requires c !in spaces0 && c in spaces && spaces == spaces0[c := spaces[c]] && owner.Keys == owner0.Keys
    requires Owns(owner, f, User(c, v))
    ensures f in owner0 && owner0[f].Free?
  {
    hide SpaceOk, FreeOk;
    assert f in owner.Keys;
    Grown(mem0, head0, first, owner0, stack0, spaces0, mem, head, owner, stack, spaces, f);
    assert Used(f, owner0[f], stack0, spaces0);
  }

  // ---- copyout ----

  function Overlay(b: seq<Byte>, off: nat, src: seq<Byte>): (r: seq<Byte>)
    requires off + |src| <= |b|
    ensures |r| == |b|
    ensures forall i :: 0 <= i < |r| ==> r[i] == if off <= i < off + |src| then src[i - off] else b[i]
  {
    b[..off] + src + b[off + |src|..]
  }

  /** A page that is present and user-accessible. */
  predicate Reachable(s: Space, v: nat) {
    v in s.pte && s.pte[v].flags / 4 % 2 == 1
  }

  /** The byte that user code sees at address a of a mapped page. */
  function UserByte(mem: seq<Page>, s: Space, a: nat): Byte {
    var v := a / PGSIZE;
    if v in s.pte && s.pte[v].frame < |mem| && mem[s.pte[v].frame].Data? && |mem[s.pte[v].frame].b| == PGSIZE
    then mem[s.pte[v].frame].b[a % PGSIZE] else 0
  }

  /** What the processor makes of page v: both levels have to be present, and a right has to be in both. */
  datatype Access = Fault | Access(frame: nat, write: bool, user: bool)

  function Hardware(mem: seq<Page>, d: nat, v: nat): Access {
    if d >= |mem| || !mem[d].Table? || v / 1024 >= |mem[d].e| then Fault else
      var pde := mem[d].e[v / 1024];
      if pde.flags % 2 == 0 || pde.frame >= |mem| || !mem[pde.frame].Table? || v % 1024 >= |mem[pde.frame].e| then Fault
      else
        var pte := mem[pde.frame].e[v % 1024];
        if pte.flags % 2 == 0 then Fault
        else Access(pte.frame, pde.flags / 2 % 2 == 1 && pte.flags / 2 % 2 == 1,
                    pde.flags / 4 % 2 == 1 && pte.flags / 4 % 2 == 1)
  }

  /** The page tables in memory say what the space says. */
  lemma HardwareWalk(mem: seq<Page>, head: nat, first: nat, owner: map<nat, Owner>, stack: seq<nat>,
                     spaces: map<nat, Space>, d: nat, v: nat)
    requires State(mem, head, first, owner, stack, spaces) && d in spaces && v < NPAGES
    ensures v !in spaces[d].pte ==> Hardware(mem, d, v) == Fault
    ensures v in spaces[d].pte ==>
      var p := spaces[d].pte[v];
      Hardware(mem, d, v) == Access(p.frame, p.flags / 2 % 2 == 1, Reachable(spaces[d], v))
  {
    hide State;
    ReadDirectory(mem, head, first, owner, stack, spaces, d, v / 1024);
    if v / 1024 in spaces[d].tables {
      ReadEntry(mem, head, first, owner, stack, spaces, d, v);
    } else {
      NoTable(mem, head, first, owner, stack, spaces, d, v);
    }
  }

  /** allocuvm's pages: user code can read and write them, and finds zeros. */
  lemma GrownReads(mem: seq<Page>, s: Space, s': Space, lo: nat, hi: nat, a: nat)
    requires AddedZero(mem, s, s', lo, hi) && lo * PGSIZE <= a < hi * PGSIZE
    ensures a / PGSIZE in s'.pte && Reachable(s', a / PGSIZE) && s'.pte[a / PGSIZE].flags / 2 % 2 == 1
    ensures UserByte(mem, s', a) == 0
  {
    hide Contiguous, Extends, Cleared;
    assert lo <= a / PGSIZE < hi;
  }

  /** A copied page: the child finds what the parent finds, with the same rights. */
  lemma CopyReads(mem: seq<Page>, owner: map<nat, Owner>, s: Space, mem': seq<Page>, s': Space, a: nat)
    requires CopyOf(mem, owner, s, mem', s', a / PGSIZE)
    ensures UserByte(mem', s', a) == UserByte(mem, s, a)
    ensures Reachable(s', a / PGSIZE) == Reachable(s, a / PGSIZE)
    ensures s'.pte[a / PGSIZE].flags == s.pte[a / PGSIZE].flags
  {
  }

  /** The kernel's entries have no PTE_U. */
  lemma KernelUnreachable(kdata: nat, s: Space, v: nat)
    requires KernelMapped(kdata, s) && v >= USER
    ensures !Reachable(s, v)
  {
    assert Look(s.pte, v) == KernelEntry(kdata, v);
  }

  /** Writing inside user page v of d: only those bytes of d change. */
  lemma CopyStep(mem: seq<Page>, head: nat, first: nat, owner: map<nat, Owner>, stack: seq<nat>,
                 spaces: map<nat, Space>, d: nat, v: nat, off: nat, src: seq<Byte>)
    requires State(mem, head, first, owner, stack, spaces) && d in spaces && v in spaces[d].pte && v < USER
    requires off + |src| <= PGSIZE
    ensures var f := spaces[d].pte[v].frame;
      && f < |mem| && mem[f].Data? && |mem[f].b| == PGSIZE && Owns(owner, f, User(d, v))
      && (var mem' := mem[f := Data(Overlay(mem[f].b, off, src))];
          && State(mem', head, first, owner, stack, spaces)
          && forall a: nat {:trigger UserByte(mem', spaces[d], a)} :: a < KERNBASE ==>
               UserByte(mem', spaces[d], a) ==
                 if v * PGSIZE + off <= a < v * PGSIZE + off + |src| then src[a - (v * PGSIZE + off)]
                 else UserByte(mem, spaces[d], a))
  {
    ReadData(mem, head, first, owner, stack, spaces, d, v);
    var f := spaces[d].pte[v].frame;
    var p := Data(Overlay(mem[f].b, off, src));
    DataWritten(mem, head, first, owner, stack, spaces, f, p);
    forall a: nat | a < KERNBASE
      ensures UserByte(mem[f := p], spaces[d], a) ==
                if v * PGSIZE + off <= a < v * PGSIZE + off + |src| then src[a - (v * PGSIZE + off)]
                else UserByte(mem, spaces[d], a)
    {
      OldPage(mem, head, first, owner, stack, spaces, d, a / PGSIZE);
      CopyByte(mem, spaces[d], v, off, src, a);
    }
    hide State, UserByte;
  }

  lemma CopyByte(mem: seq<Page>, s: Space, v: nat, off: nat, src: seq<Byte>, a: nat)
    requires v in s.pte && s.pte[v].frame < |mem| && mem[s.pte[v].frame].Data? && |mem[s.pte[v].frame].b| == PGSIZE
    requires off + |src| <= PGSIZE
    requires a / PGSIZE in s.pte && s.pte[a / PGSIZE].frame == s.pte[v].frame ==> a / PGSIZE == v
    ensures var f := s.pte[v].frame;
      UserByte(mem[f := Data(Overlay(mem[f].b, off, src))], s, a) ==
        if v * PGSIZE + off <= a < v * PGSIZE + off + |src| then src[a - (v * PGSIZE + off)] else UserByte(mem, s, a)
  {
    var q, r := a / PGSIZE, a % PGSIZE;
    assert a == q * PGSIZE + r;
    assert v * PGSIZE + off <= a < v * PGSIZE + off + |src| ==> q == v;
  }

  /** copyout has replaced the first done bytes, all of them in pages user code can reach. */
  ghost predicate CopiedOut(mem0: seq<Page>, mem: seq<Page>, owner: map<nat, Owner>, s: Space, d: nat,
                            va: nat, p: seq<Byte>, done: nat) {
    && done <= |p| && |mem| == |mem0|
    && (forall a {:trigger a / PGSIZE} :: va <= a < va + done ==> Reachable(s, a / PGSIZE))
    && (forall a: nat {:trigger UserByte(mem, s, a)} :: a < KERNBASE ==>
          UserByte(mem, s, a) == if va <= a < va + done then p[a - va] else UserByte(mem0, s, a))
    && (forall f: nat {:trigger mem[f]} :: f < |mem| && !(f in owner && owner[f].User? && owner[f].d == d) ==>
        mem[f] == mem0[f])
  }

  lemma OutStart(mem: seq<Page>, owner: map<nat, Owner>, s: Space, d: nat, va: nat, p: seq<Byte>)
    ensures CopiedOut(mem, mem, owner, s, d, va, p, 0)
  {
  }

  lemma OutNext(mem0: seq<Page>, mem: seq<Page>, owner: map<nat, Owner>, s: Space, d: nat, va: nat, p: seq<Byte>,
                done: nat, n: nat, f: nat, page: Page, v: nat, off: nat)
    requires CopiedOut(mem0, mem, owner, s, d, va, p, done) && done + n <= |p| && f < |mem|
    requires Owns(owner, f, User(d, v)) && Reachable(s, v) && v * PGSIZE + off == va + done && off + n <= PGSIZE
    requires forall a: nat {:trigger UserByte(mem[f := page], s, a)} :: a < KERNBASE ==>
               UserByte(mem[f := page], s, a) ==
                 if v * PGSIZE + off <= a < v * PGSIZE + off + n then p[done..done + n][a - (v * PGSIZE + off)]
                 else UserByte(mem, s, a)
    ensures CopiedOut(mem0, mem[f := page], owner, s, d, va, p, done + n)
  {
    hide UserByte, Reachable;
    forall a | va + done <= a < va + done + n
      ensures a / PGSIZE == v
    {
    }
  }

  lemma OutEnd(mem0: seq<Page>, mem: seq<Page>, owner: map<nat, Owner>, s: Space, d: nat, va: nat, p: seq<Byte>,
               done: nat)
    requires CopiedOut(mem0, mem, owner, s, d, va, p, done)
    ensures done <= |p| && |mem| == |mem0|
    ensures forall a {:trigger a / PGSIZE} :: va <= a < va + done ==> Reachable(s, a / PGSIZE)
    ensures forall a: nat {:trigger UserByte(mem, s, a)} :: a < KERNBASE ==>
              UserByte(mem, s, a) == if va <= a < va + done then p[a - va] else UserByte(mem0, s, a)
    ensures forall f: nat :: f < |mem| && !(f in owner && owner[f].User? && owner[f].d == d) ==> mem[f] == mem0[f]
  {
    hide UserByte, Reachable;
  }

  /** User data may change as long as it stays a page of bytes. */
  lemma DataWritten(mem: seq<Page>, head: nat, first: nat, owner: map<nat, Owner>, stack: seq<nat>,
                    spaces: map<nat, Space>, f: nat, p: Page)
    requires State(mem, head, first, owner, stack, spaces) && f in owner && owner[f].User? && f < |mem|
    requires p.Data? && |p.b| == PGSIZE
    ensures State(mem[f := p], head, first, owner, stack, spaces)
  {
    FreeFrame(mem, owner, mem[f := p], owner, stack, head, first);
    forall d | d in spaces
      ensures SpaceOk(mem[f := p], owner, d, spaces[d])
    {
      forall x | x in spaces[d].tables
        ensures TableOk(mem[f := p], owner, d, spaces[d], x)
      {
        assert TableOk(mem, owner, d, spaces[d], x);
      }
      forall v | v in spaces[d].pte && v < USER
        ensures DataOk(mem[f := p], owner, d, spaces[d], v)
      {
        assert DataOk(mem, owner, d, spaces[d], v);
      }
    }
  }

  function PageNo(a: nat): nat { a / PGSIZE }

  /** The pages that [va, va + size) touches. */
  function PageCount(va: nat, size: nat): nat
    requires size > 0
  {
    (va + size - 1) / PGSIZE - va / PGSIZE + 1
  }

  lemma WholePages(v: nat, n: nat, f: nat)
    requires n > 0
    ensures PageNo(v * PGSIZE) == v && PageCount(v * PGSIZE, n * PGSIZE) == n
    ensures PageNo(f * PGSIZE) == f && f * PGSIZE % PGSIZE == 0
  {
  }

  lemma PageOf(x: nat)
    ensures x * PGSIZE / PGSIZE == x
  {
  }

  lemma KeyAdded(keys: set<nat>, x: nat)
    ensures |keys + {x}| == |keys| + if x in keys then 0 else 1
  {
    if x in keys {
      assert keys + {x} == keys;
    }
  }

  class Machine {
    var mem: seq<Page>
    var freelist: nat

    /** The frame where the kernel image ends, and the page where its data starts. */
    const first: nat
    const kdata: nat

    ghost var stack: seq<nat>
    ghost var owner: map<nat, Owner>
    ghost var spaces: map<nat, Space>

    ghost predicate Valid()
      reads this
    {
      State(mem, freelist, first, owner, stack, spaces) && EXTMEM < kdata < PHYSTOP
    }

    /** kalloc: the head of the free list, or 0. */
    method Kalloc() returns (f: nat)
      requires Valid()
      modifies this`freelist, this`stack, this`owner
      ensures Valid()
      ensures f == 0 <==> old(stack) == []
      ensures old(stack) == [] ==> stack == old(stack) && owner == old(owner)
      ensures old(stack) != [] ==>
                && stack == old(stack)[..|old(stack)| - 1] && owner == old(owner) - {f}
                && first <= f < |mem| && f in old(owner) && old(owner)[f].Free?
    {
      hide SpaceOk, Used;
      f := freelist;
      if f != 0 {
        Popped(mem, freelist, first, owner, stack, spaces);
        freelist, owner, stack := mem[f].next, owner - {f}, stack[..|stack| - 1];
      } else if stack != [] {
        Popped(mem, freelist, first, owner, stack, spaces);
      }
    }

    /** kfree: frame f, which nothing uses, becomes the head. */
    method Kfree(f: nat)
      requires FreeOk(mem, freelist, first, owner, stack) && f !in owner && first <= f < |mem|
      modifies this`mem, this`freelist, this`stack, this`owner
      ensures FreeOk(mem, freelist, first, owner, stack)
      ensures mem == old(mem)[f := Run(old(freelist))] && freelist == f
      ensures stack == old(stack) + [f] && owner == old(owner)[f := Free(|old(stack)|)]
    {
      hide FreeOk;
      Pushed(mem, freelist, first, owner, stack, f);
      mem := mem[f := Run(freelist)];
      freelist, owner, stack := f, owner[f := Free(|stack|)], stack + [f];
    }

    /** walkpgdir: the frame and slot of va's table entry, or frame 0. */
    method Walkpgdir(d: nat, va: nat, alloc: bool) returns (tab: nat, t: nat)
      requires Valid() && d in spaces && va < LIMIT
      modifies this
      ensures Valid() && t == va / PGSIZE % NPTENTRIES && spaces.Keys == old(spaces).Keys
      ensures var x := va / PGSIZE / NPTENTRIES;
              && (tab == 0 <==> x !in old(spaces)[d].tables && (!alloc || old(stack) == []))
              && (tab != 0 ==> x in spaces[d].tables && tab == spaces[d].tables[x])
              && (tab == 0 || x in old(spaces)[d].tables ==>
                    mem == old(mem) && stack == old(stack) && owner == old(owner) && spaces == old(spaces))
              && (tab != 0 && x !in old(spaces)[d].tables ==>
                    && |stack| == |old(stack)| - 1 && owner.Keys == old(owner).Keys
                    && spaces == old(spaces)[d := old(spaces)[d].(tables := old(spaces)[d].tables[x := tab])])
      ensures DataKept(old(mem), old(owner), mem) && UsersKept(old(owner), owner)
    {
      hide State, FreeOk, EmptyEntries;
      var x := va / PGSIZE / NPTENTRIES;
      t := va / PGSIZE % NPTENTRIES;
      ReadDirectory(mem, freelist, first, owner, stack, spaces, d, x);
      if mem[d].e[x].Present() {
        tab := mem[d].e[x].frame;
      } else {
        if !alloc {
          return 0, t;
        }
        tab := Kalloc();
        if tab == 0 {
          return;
        }
        Scratch(mem, freelist, first, owner, stack, spaces, tab, Table(EmptyEntries(NPTENTRIES)));
        mem := mem[tab := Table(EmptyEntries(NPTENTRIES))];
        TableAdded(mem, freelist, first, owner, stack, spaces, d, x, tab);
        mem := mem[d := Table(mem[d].e[x := Pte(tab, 7)])];
        owner, spaces := owner[tab := Tables(d, x)], spaces[d := spaces[d].(tables := spaces[d].tables[x := tab])];
      }
    }

    /** Frame f holds bytes and nothing manages it: what a caller of kalloc has after filling it. */
    ghost predicate Fresh(f: nat)
      reads this
    {
      f !in owner && first <= f < |mem| && mem[f].Data? && |mem[f].b| == PGSIZE
    }

    /** mappages' loop body: the entry for page address a. */
    method MapPage(d: nat, a: nat, frame: nat, perm: nat) returns (ok: bool)
      requires Valid() && d in spaces && a < LIMIT && a / PGSIZE !in spaces[d].pte
      requires a < KERNBASE ==> Fresh(frame)
      modifies this
      ensures Valid() && spaces.Keys == old(spaces).Keys && spaces == old(spaces)[d := spaces[d]]
      ensures var v, s := a / PGSIZE, old(spaces)[d];
              && (ok <==> v / 1024 in s.tables || old(stack) != [])
              && spaces[d].pte == (if ok then s.pte[v := Pte(frame, WithP(perm))] else s.pte)
              && spaces[d].tables.Keys == (if ok then s.tables.Keys + {v / 1024} else s.tables.Keys)
              && Extends(s, spaces[d])
              && |stack| == |old(stack)| - (if ok && v / 1024 !in s.tables then 1 else 0)
              && owner.Keys == (if ok && v < USER then old(owner).Keys + {frame} else old(owner).Keys)
      ensures DataKept(old(mem), old(owner), mem) && UsersKept(old(owner), owner)
    {
      hide State, FreeOk, DataKept, UsersKept, TableHolds;
      var tab, t := Walkpgdir(d, a, true);
      if tab == 0 {
        return false;
      }
      ghost var v, p := a / PGSIZE, Pte(frame, WithP(perm));
      assert v < NPAGES && v / 1024 == a / PGSIZE / NPTENTRIES;
      ReadEntry(mem, freelist, first, owner, stack, spaces, d, v);
      if v < USER { KeptAt(old(mem), old(owner), mem, frame); }
      assert !mem[tab].e[t].Present();
      EntryAdded(mem, freelist, first, owner, stack, spaces, d, v, p);
      DataWrite(old(mem), old(owner), mem, owner, tab, Table(mem[tab].e[t := p]));
      mem := mem[tab := Table(mem[tab].e[t := Pte(frame, WithP(perm))])];
      if v < USER { UsersAdd(old(owner), owner, frame, User(d, v)); }
      owner := if v < USER then owner[frame := User(d, v)] else owner;
      spaces := spaces[d := spaces[d].(pte := spaces[d].pte[v := p])];
      ok := true;
    }

    /** A turn of mappages: page v + k to frame f + k. */
    method MapTurn(d: nat, a: nat, pa: nat, perm: nat, ghost mem0: seq<Page>, ghost owner0: map<nat, Owner>,
                   ghost s0: Space, ghost v: nat, ghost f: nat, ghost k: nat, ghost n: nat) returns (ok: bool)
      requires Valid() && d in spaces && k < n && v + k < NPAGES && v + k !in s0.pte
      requires a == (v + k) * PGSIZE && pa == (f + k) * PGSIZE
      requires RangeMapped(mem0, owner0, s0, mem, owner, spaces[d], v, f, WithP(perm), k, n)
      requires v + k < USER ==>
        f + k !in owner0 && first <= f + k < |mem0| && mem0[f + k].Data? && |mem0[f + k].b| == PGSIZE
      modifies this
      ensures Valid() && spaces.Keys == old(spaces).Keys && spaces == old(spaces)[d := spaces[d]]
      ensures RangeMapped(mem0, owner0, s0, mem, owner, spaces[d], v, f, WithP(perm), if ok then k + 1 else k, n)
      ensures !ok ==> stack == [] && (v + k) / 1024 !in spaces[d].tables
      ensures |stack| + |spaces[d].tables.Keys| == |old(stack)| + |old(spaces)[d].tables.Keys|
    {
      hide Valid, DataKept, UsersKept, Extends, Mapped, RangeMapped, WithP;
      ghost var mem1, owner1, s1 := mem, owner, spaces[d];
      RangeNext(mem0, owner0, s0, mem, owner, spaces[d], v, f, WithP(perm), k, n);
      RangeSize(mem0, owner0, s0, mem, owner, spaces[d], v, f, WithP(perm), k, n);
      PageOf(v + k);
      PageOf(f + k);
      ok := MapPage(d, a, pa / PGSIZE, perm);
      KeyAdded(s1.tables.Keys, (v + k) / 1024);
      RangeStep(mem0, owner0, s0, mem1, owner1, s1, mem, owner, spaces[d], v, f, WithP(perm), k, n, ok);
    }

    /** mappages: entries for the pages of [va, va + size), to the frames from pa. On failure
        (-1: no frame for a table) the entries made so far stay. */
    method Mappages(d: nat, va: nat, size: nat, pa: nat, perm: nat) returns (ok: bool, ghost k: nat)
      requires Valid() && d in spaces && size > 0 && va + size <= LIMIT && pa % PGSIZE == 0
      requires forall v :: PageNo(va) <= v < PageNo(va) + PageCount(va, size) ==> v !in spaces[d].pte
      requires forall g ::
                 PageNo(pa) <= g < PageNo(pa) + PageCount(va, size) && PageNo(va) + (g - PageNo(pa)) < USER ==> Fresh(g)
      modifies this
      ensures Valid() && spaces.Keys == old(spaces).Keys && spaces == old(spaces)[d := spaces[d]]
      ensures if ok then k == PageCount(va, size)
          else k < PageCount(va, size) && stack == [] && (PageNo(va) + k) / 1024 !in spaces[d].tables
      ensures RangeMapped(old(mem), old(owner), old(spaces)[d], mem, owner, spaces[d],
                          PageNo(va), PageNo(pa), WithP(perm), k, PageCount(va, size))
      ensures |stack| + |spaces[d].tables.Keys| == |old(stack)| + |old(spaces)[d].tables.Keys|
    {
      hide Valid, RangeMapped, WithP;
      var a, last, pa' := va / PGSIZE * PGSIZE, (va + size - 1) / PGSIZE * PGSIZE, pa;
      k := 0;
      ghost var v, f, flags := va / PGSIZE, pa / PGSIZE, WithP(perm);
      ghost var end := (va + size - 1) / PGSIZE;
      ghost var n := end - v + 1;
      PageSpan(va, size, pa);
      RangeStart(mem, owner, spaces[d], v, f, flags, n);
      while true
        invariant Valid() && spaces.Keys == old(spaces).Keys && spaces == old(spaces)[d := spaces[d]]
        invariant k < n && a == (v + k) * PGSIZE && pa' == (f + k) * PGSIZE
        invariant RangeMapped(old(mem), old(owner), old(spaces)[d], mem, owner, spaces[d], v, f, flags, k, n)
        invariant |stack| + |spaces[d].tables.Keys| == |old(stack)| + |old(spaces)[d].tables.Keys|
        decreases n - k
      {
        assert v + k < USER ==> old(Fresh(f + k));
        ok := MapTurn(d, a, pa', perm, old(mem), old(owner), old(spaces)[d], v, f, k, n);
        if !ok || a == last {
          k := if ok then k + 1 else k;
          return;
        }
        a, pa', k := a + PGSIZE, pa' + PGSIZE, k + 1;
      }
    }

    /** setupkvm's zeroed directory. */
    method NewDirectory() returns (d: nat)
      requires Valid()
      modifies this
      ensures Valid() && DataKept(old(mem), old(owner), mem) && UsersKept(old(owner), owner)
          && owner.Keys == old(owner).Keys
      ensures d == 0 <==> old(stack) == []
      ensures d == 0 ==> spaces == old(spaces) && stack == old(stack)
      ensures d != 0 ==>
        && d !in old(spaces) && spaces == old(spaces)[d := Space(map[], map[])]
        && |stack| == |old(stack)| - 1
    {
      hide State, FreeOk, DataKept, UsersKept, EmptyEntries;
      d := Kalloc();
      KeptRefl(old(mem), old(owner));
      if d == 0 {
        return;
      }
      UsersDrop(old(owner), d);
      DataWrite(old(mem), old(owner), mem, owner, d, Table(EmptyEntries(NPTENTRIES)));
      Scratch(mem, freelist, first, owner, stack, spaces, d, Table(EmptyEntries(NPTENTRIES)));
      mem := mem[d := Table(EmptyEntries(NPTENTRIES))];
      Founded(mem, freelist, first, owner, stack, spaces, d);
      UsersAdd(old(owner), owner, d, Directory(d));
      owner, spaces := owner[d := Directory(d)], spaces[d := Space(map[], map[])];
    }

    /** One row of kmap. */
    method MapRow(d: nat, i: nat) returns (ok: bool)
      requires Valid() && d in spaces && i < 4
      requires spaces[d].pte == KernelPart(kdata, i) && spaces[d].tables.Keys <= KernelTables()
      modifies this
      ensures Valid() && DataKept(old(mem), old(owner), mem) && UsersKept(old(owner), owner)
          && owner.Keys == old(owner).Keys
      ensures spaces.Keys == old(spaces).Keys && spaces == old(spaces)[d := spaces[d]]
      ensures spaces[d].tables.Keys <= KernelTables()
      ensures |stack| + |spaces[d].tables.Keys| == |old(stack)| + |old(spaces)[d].tables.Keys|
      ensures ok ==> spaces[d].pte == KernelPart(kdata, i + 1)
      ensures !ok ==> stack == [] && |spaces[d].tables.Keys| < KERNEL_FRAMES - 1
                      && forall f :: f in owner && owner[f].User? ==> owner[f].d != d
    {
      hide State, FreeOk, DataKept, UsersKept, KernelPart, KernelTables, RangeMapped, Kmap, Mapped, WithP, PageNo,
          PageCount;
      var m := Kmap(kdata, i);
      KernelUnmapped(kdata, i);
      WholePages(m.virt, m.pages, m.start);
      ghost var k;
      ok, k := Mappages(d, m.virt * PGSIZE, m.pages * PGSIZE, m.start * PGSIZE, m.perm);
      KernelStep(old(mem), old(owner), old(spaces)[d], mem, owner, spaces[d], kdata, i, k);
      if !ok {
        KernelShort(kdata, i, k, spaces[d].tables.Keys);
        NoUsers(mem, freelist, first, owner, stack, spaces, d, kdata, i, k);
      }
    }

    /** setupkvm: a directory with the kernel's mappings, or 0. A failure part-way keeps the
        directory and the tables already made: they are in no space and on no list. */
    method Setupkvm() returns (d: nat)
      requires Valid()
      modifies this
      ensures Valid() && DataKept(old(mem), old(owner), mem) && UsersKept(old(owner), owner)
      ensures d == 0 <==> |old(stack)| < KERNEL_FRAMES
      ensures d == 0 ==> spaces == old(spaces) && stack == [] && owner.Keys <= old(owner).Keys
      ensures d != 0 ==>
                && d !in old(spaces) && d in spaces && spaces == old(spaces)[d := spaces[d]]
                    && owner.Keys == old(owner).Keys
                && spaces[d].pte == KernelPart(kdata, 4) && spaces[d].tables.Keys == KernelTables()
                && |stack| == |old(stack)| - KERNEL_FRAMES
    {
      hide State, FreeOk, DataKept, UsersKept, EmptyEntries, KernelPart, KernelTables, Without;
      d := NewDirectory();
      if d == 0 {
        return;
      }
      var i := 0;
      KernelStart(kdata);
      while i < 4
        invariant Valid() && i <= 4 && d != 0 && d !in old(spaces) && d in spaces
            && spaces == old(spaces)[d := spaces[d]]
        invariant spaces[d].pte == KernelPart(kdata, i) && spaces[d].tables.Keys <= KernelTables()
        invariant |stack| + |spaces[d].tables.Keys| + 1 == |old(stack)| && owner.Keys == old(owner).Keys
        invariant DataKept(old(mem), old(owner), mem) && UsersKept(old(owner), owner)
      {
        ghost var mem1, owner1 := mem, owner;
        var ok := MapRow(d, i);
        DataTrans(old(mem), old(owner), mem1, owner1, mem);
        UsersTrans(old(owner), owner1, owner);
        if !ok {
          Abandoned(mem, freelist, first, owner, stack, spaces, d);
          UsersWithout(old(owner), owner, d);
          owner, spaces := Without(owner, d), spaces - {d};
          return 0;
        }
        i := i + 1;
      }
      KernelComplete(mem, freelist, first, owner, stack, spaces, d, kdata);
    }

    /** deallocuvm's branch for a present page: kfree, then clear the entry. */
    method DropPage(ghost d: nat, ghost v: nat, tab: nat, t: nat)
      requires Valid() && d in spaces && v in spaces[d].pte && v < USER && v / 1024 in spaces[d].tables
      requires tab == spaces[d].tables[v / 1024] && t == v % 1024
      modifies this
      ensures Valid() && StillThere(old(mem), old(owner), mem, owner)
      ensures spaces == old(spaces)[d := old(spaces)[d].(pte := old(spaces)[d].pte - {v})]
      ensures |stack| == |old(stack)| + 1
    {
      hide State, FreeOk, StillThere;
      EntryDropped(mem, freelist, first, owner, stack, spaces, d, v);
      ReadEntry(mem, freelist, first, owner, stack, spaces, d, v);
      ReadData(mem, freelist, first, owner, stack, spaces, d, v);
      var pa := mem[tab].e[t].frame;
      DropFree(mem, freelist, first, owner, stack, spaces, pa);
      ghost var mem1, head1, owner1, stack1 := mem[tab := Table(mem[tab].e[t := NONE])], freelist, owner - {pa}, stack;
      spaces, owner := spaces[d := spaces[d].(pte := spaces[d].pte - {v})], owner - {pa};
      Kfree(pa);
      assert mem[tab] == old(mem)[tab];
      mem := mem[tab := Table(mem[tab].e[t := NONE])];
      assert mem == mem1[pa := Run(head1)];
      Returned(mem1, head1, first, owner1, stack1, spaces, pa);
      StillDropped(old(mem), old(owner), tab, pa, mem[tab], mem[pa], owner[pa]);
      assert mem == old(mem)[tab := mem[tab]][pa := mem[pa]];
    }

    /** deallocuvm on a space with m contiguous pages: the skip over a missing table loses
        nothing, because no page above it is mapped. */
    method Deallocuvm(d: nat, oldsz: nat, newsz: nat, ghost m: nat) returns (r: nat)
      requires Valid() && d in spaces && Contiguous(spaces[d], m) && m <= Pages(oldsz) && oldsz <= KERNBASE
      modifies this
      ensures Valid() && r == (if newsz < oldsz then newsz else oldsz)
      ensures StillThere(old(mem), old(owner), mem, owner)
      ensures var k := if newsz < oldsz && Pages(newsz) < m then Pages(newsz) else m;
              && spaces == old(spaces)[d := old(spaces)[d].(pte := Cleared(old(spaces)[d].pte, k, m))]
              && Contiguous(spaces[d], k) && |stack| == |old(stack)| + (m - k)
      ensures KernelMapped(kdata, old(spaces)[d]) ==> KernelMapped(kdata, spaces[d])
    {
      hide State, FreeOk, StillThere, Contiguous, Cleared, KernelMapped;
      ghost var s, lo := spaces[d], Pages(newsz);
      KeptRefl(mem, owner);
      ClearedNothing(s, m, m);
      if newsz >= oldsz {
        return oldsz;
      }
      ghost var w := lo;
      ClearedNothing(s, lo, m);
      var a := Pages(newsz) * PGSIZE;
      while a < oldsz
        invariant a == w * PGSIZE && lo <= w
        invariant Valid() && d in spaces && StillThere(old(mem), old(owner), mem, owner)
        invariant spaces == old(spaces)[d := s.(pte := Cleared(s.pte, lo, w))]
        invariant |stack| == |old(stack)| + Count(lo, w, m)
        decreases KERNBASE - a
      {
        PageOf(w);
        var tab, t := Walkpgdir(d, a, false);
        ClearedNext(mem, freelist, first, owner, stack, spaces, d, s, lo, w, m);
        if tab == 0 {
          a := a + (NPTENTRIES - 1) * PGSIZE;
          w := w + (NPTENTRIES - 1);
        } else {
          ReadEntry(mem, freelist, first, owner, stack, spaces, d, w);
          if mem[tab].e[t].Present() {
            ghost var mem1, owner1 := mem, owner;
            DropPage(d, w, tab, t);
            StillTrans(old(mem), old(owner), mem1, owner1, mem, owner);
          }
        }
        a, w := a + PGSIZE, w + 1;
      }
      ClearedAll(s, lo, w, m);
      KernelCleared(kdata, s, if lo < m then lo else m, m);
      return newsz;
    }

    /** freevm: every frame of the space is free afterwards, and no other frame changes hands. */
    method Freevm(d: nat, ghost n: nat)
      requires Valid() && d in spaces && Contiguous(spaces[d], n)
      modifies this
      ensures Valid() && spaces == old(spaces) - {d} && owner.Keys == old(owner).Keys
      ensures ExactlyFreed(old(owner), owner, d)
      ensures StillThere(old(mem), old(owner), mem, owner)
    {
      hide State, FreeOk, StillThere, Cleared;
      var _ := Deallocuvm(d, KERNBASE, 0, n);
      ghost var mem1, owner1 := mem, owner;
      FreeTables(d);
      StillTrans(old(mem), old(owner), mem1, owner1, mem, owner);
      StillKeys(old(mem), old(owner), mem, owner);
      assert spaces == old(spaces) - {d};
      Freed(old(mem), old(freelist), first, old(owner), old(stack), old(spaces), mem, freelist, owner, stack, d);
    }

    /** freevm's loop over the directory, once the user pages are gone. */
    method FreeTables(d: nat)
      requires Valid() && d in spaces && Contiguous(spaces[d], 0)
      modifies this
      ensures Valid() && spaces == old(spaces) - {d} && owner.Keys == old(owner).Keys
      ensures StillThere(old(mem), old(owner), mem, owner)
    {
      hide State, FreeOk, StillThere, Contiguous, FreedUpTo, Without;
      ghost var s, mem0, owner0, head0, stack0, spaces0 := spaces[d], mem, owner, freelist, stack, spaces;
      Abandoned(mem, freelist, first, owner, stack, spaces, d);
      AbandonedTables(mem, freelist, first, owner, stack, spaces, d);
      owner, spaces := Without(owner, d), spaces - {d};
      var i := 0;
      while i < NPTENTRIES
        invariant i <= NPTENTRIES && Valid() && spaces == spaces0 - {d}
        invariant FreedUpTo(mem0, owner0, mem, owner, d, i)
      {
        NextTable(mem0, head0, first, owner0, stack0, spaces0, mem, owner, d, i, Free(|stack|), Run(freelist));
        if mem[d].e[i].Present() {
          var v := mem[d].e[i].frame;
          Push(v);
        }
        i := i + 1;
      }
      LastTable(mem0, head0, first, owner0, stack0, spaces0, mem, owner, d, Free(|stack|), Run(freelist));
      Push(d);
    }

    /** kfree of a frame that no space has. */
    method Push(f: nat)
      requires Valid() && f !in owner && first <= f < |mem|
      modifies this`mem, this`freelist, this`stack, this`owner
      ensures Valid() && owner == old(owner)[f := Free(|old(stack)|)] && mem == old(mem)[f := Run(old(freelist))]
      ensures stack == old(stack) + [f]
    {
      hide State, FreeOk;
      Returned(mem, freelist, first, owner, stack, spaces, f);
      StateFree(mem, freelist, first, owner, stack, spaces);
      Kfree(f);
    }

    /** mappages of one page. */
    method MapOne(d: nat, a: nat, ghost v: nat, f: nat, perm: nat) returns (ok: bool, ghost k: nat)
      requires Valid() && d in spaces && a == v * PGSIZE && v < USER && v !in spaces[d].pte && Fresh(f)
      modifies this
      ensures Valid() && spaces.Keys == old(spaces).Keys && spaces == old(spaces)[d := spaces[d]]
      ensures if ok then k == 1 else k == 0 && stack == [] && v / 1024 !in spaces[d].tables
      ensures RangeMapped(old(mem), old(owner), old(spaces)[d], mem, owner, spaces[d], v, f, WithP(perm), k, 1)
      ensures |stack| + |spaces[d].tables.Keys| == |old(stack)| + |old(spaces)[d].tables.Keys|
    {
      hide State, FreeOk, PageNo, PageCount, RangeMapped, WithP;
      WholePages(v, 1, f);
      ok, k := Mappages(d, a, PGSIZE, f * PGSIZE, perm);
    }

    /** Fill frame f and map it at page address a: the tail of allocuvm's and copyuvm's loops. */
    method Install(d: nat, a: nat, ghost v: nat, f: nat, page: Page, perm: nat) returns (ok: bool)
      requires Valid() && d in spaces && a == v * PGSIZE && v < USER && v !in spaces[d].pte
      requires f !in owner && first <= f < |mem| && page.Data? && |page.b| == PGSIZE
      modifies this
      ensures Valid() && spaces.Keys == old(spaces).Keys && spaces == old(spaces)[d := spaces[d]]
      ensures ok <==> v / 1024 in old(spaces)[d].tables || old(stack) != []
      ensures Installed(old(mem), old(owner), old(spaces)[d], mem, owner, spaces[d], v, f, WithP(perm), page, ok)
      ensures |stack| == |old(stack)| - (if ok && v / 1024 !in old(spaces)[d].tables then 1 else 0)
    {
      hide State, FreeOk, DataKept, UsersKept, Extends, PageNo, PageCount, RangeMapped, Installed, WithP;
      Scratch(mem, freelist, first, owner, stack, spaces, f, page);
      ghost var mem1 := mem[f := page];
      mem := mem[f := page];
      ghost var k;
      ok, k := MapOne(d, a, v, f, perm);
      RangeOne(old(mem), old(owner), old(spaces)[d], mem1, mem, owner, spaces[d], v, f, WithP(perm), k, page);
      RangeTables(mem, freelist, first, owner, stack, spaces, d, old(spaces)[d], old(stack), v, ok);
      InstalledIntro(old(mem), old(owner), old(spaces)[d], mem, owner, spaces[d], v, f, WithP(perm), page, ok);
    }

    lemma PageOwned(d: nat, w: nat)
      requires Valid() && d in spaces && w in spaces[d].pte && w < USER
      ensures Owns(owner, spaces[d].pte[w].frame, User(d, w))
    {
      hide State;
      ReadData(mem, freelist, first, owner, stack, spaces, d, w);
    }

    /** allocuvm's loop body: a zeroed page w in frame m, 0 without one; not ok when page w has no
        table and there is no frame for one. */
    method GrowPage(d: nat, a: nat, ghost w: nat, ghost hi: nat, ghost mem0: seq<Page>, ghost owner0: map<nat, Owner>,
                    ghost s: Space, ghost lo: nat, ghost have: nat, ghost lost: set<nat>, ghost free0: nat)
      returns (m: nat, ok: bool)
      requires Valid() && d in spaces && a == w * PGSIZE && w < hi <= USER
      requires Grew(mem0, owner0, s, mem, owner, d, spaces[d], lo, have, lost)
      requires if lost == {} then have == w else stack == []
      requires Demand(spaces[d].tables.Keys, w, hi, |stack|, s.tables.Keys, lo, free0, lost != {})
      modifies this
      ensures Valid() && spaces.Keys == old(spaces).Keys && spaces == old(spaces)[d := spaces[d]]
      ensures m == 0 <==> old(stack) == []
      ensures m == 0 ==> mem == old(mem) && owner == old(owner) && stack == old(stack) && spaces == old(spaces)
      ensures m != 0 ==>
        && lost == {} && (!ok ==> stack == [])
        && Grew(mem0, owner0, s, mem, owner, d, spaces[d], lo, if ok then w + 1 else w, if ok then {} else {m})
        && Demand(spaces[d].tables.Keys, w + 1, hi, |stack|, s.tables.Keys, lo, free0, !ok)
      ensures spaces[d].tables.Keys == WithTable(old(spaces)[d].tables.Keys, w, m != 0 && ok)
      ensures m != 0 && ok ==> |stack| + |spaces[d].tables.Keys| == |old(stack)| + |old(spaces)[d].tables.Keys| - 1
    {
      hide Valid, Installed, Grew, Demand;
      ghost var mem1, owner1, s1, free := mem, owner, spaces[d], |stack|;
      m := Kalloc();
      if m == 0 {
        return 0, false;
      }
      GrewFresh(mem0, owner0, s, mem, owner1, d, s1, lo, have, lost, w, m);
      ok := Install(d, a, w, m, Data(Zeros(PGSIZE)), 6);
      InstalledEntry(mem1, owner1 - {m}, s1, mem, owner, spaces[d], w, m, 7, Data(Zeros(PGSIZE)), ok);
      if ok { PageOwned(d, w); }
      GrowTurn(mem0, owner0, s, mem1, owner1, d, s1, mem, owner, spaces[d], lo, w, hi, m, free0, free, |stack|, ok);
    }

    /** allocuvm: zeroed pages up to newsz, or, without a frame for one, the pages it had. mappages'
        result is ignored: lost is the page frame that a failed table leaves in no space. When that
        was the last page, the call reports success with the page unmapped; else it fails. */
    method Allocuvm(d: nat, oldsz: nat, newsz: nat) returns (r: nat, ghost lost: set<nat>)
      requires Valid() && d in spaces && Contiguous(spaces[d], Pages(oldsz))
      modifies this
      ensures Valid() && spaces.Keys == old(spaces).Keys && spaces == old(spaces)[d := spaces[d]]
      ensures SameUsers(old(mem), old(owner), mem, owner) && owner.Keys == old(owner).Keys - lost
      ensures newsz >= KERNBASE || newsz < oldsz ==>
                r == (if newsz >= KERNBASE then 0 else oldsz) && lost == {} && spaces == old(spaces)
                    && stack == old(stack)
      ensures oldsz <= newsz < KERNBASE ==>
        GrowthOutcome(mem, old(spaces)[d], spaces[d], Pages(oldsz), Pages(newsz), |old(stack)|, newsz, r, lost)
      ensures oldsz <= newsz < KERNBASE && r == newsz && lost == {} ==>
        |stack| + |spaces[d].tables.Keys| + Pages(newsz) == |old(stack)| + |old(spaces)[d].tables.Keys| + Pages(oldsz)
      ensures TablesWithin(old(spaces)[d].tables.Keys, spaces[d].tables.Keys, Pages(oldsz), Pages(newsz))
      ensures KernelMapped(kdata, old(spaces)[d]) ==> KernelMapped(kdata, spaces[d])
    {
      hide Valid, State, FreeOk, DataKept, UsersKept, SameUsers, Grew, TablesFit, Enough, Demand, Cleared,
        AddedZero, Contiguous, KernelMapped, GrowthOutcome, TablesWithin, WithTable;
      lost := {};
      SameRefl(mem, owner);
      TablesWithinStart(spaces[d].tables.Keys, Pages(oldsz), Pages(newsz));
      if newsz >= KERNBASE {
        return 0, lost;
      }
      if newsz < oldsz {
        return oldsz, lost;
      }
      ghost var s, lo, hi, free := spaces[d], Pages(oldsz), Pages(newsz), |stack|;
      GrewStart(mem, owner, d, s, lo);
      DemandStart(s.tables.Keys, lo, hi, free);
      ghost var have, w;
      var ok;
      ok, lost, have, w := Grow(d, oldsz, newsz);
      if !ok {
        Undo(d, oldsz, newsz, old(mem), old(owner), s, free, have, w, lost);
        return 0, lost;
      }
      GrewEnd(old(mem), old(owner), s, mem, owner, d, spaces[d], lo, have, lost);
      KernelGrown(kdata, mem, s, spaces[d], lo, have);
      GrowthEnds(mem, s, spaces[d], lo, hi, free, newsz, lost, |stack|, have);
      return newsz, lost;
    }

    /** allocuvm's cprintf and deallocuvm. */
    method Undo(d: nat, oldsz: nat, newsz: nat, ghost mem0: seq<Page>, ghost owner0: map<nat, Owner>, ghost s: Space,
                ghost free: nat, ghost have: nat, ghost w: nat, ghost lost: set<nat>)
      requires Valid() && d in spaces && oldsz <= newsz < KERNBASE && Pages(oldsz) <= have <= w < Pages(newsz)
      requires Grew(mem0, owner0, s, mem, owner, d, spaces[d], Pages(oldsz), have, lost)
      requires Demand(spaces[d].tables.Keys, w, Pages(newsz), 0, s.tables.Keys, Pages(oldsz), free, lost != {})
      modifies this
      ensures Valid() && d in spaces && spaces == old(spaces)[d := spaces[d]]
      ensures spaces[d].tables == old(spaces)[d].tables
      ensures SameUsers(mem0, owner0, mem, owner) && owner.Keys == owner0.Keys - lost
      ensures GrowthOutcome(mem, s, spaces[d], Pages(oldsz), Pages(newsz), free, newsz, 0, lost)
      ensures KernelMapped(kdata, s) ==> KernelMapped(kdata, spaces[d])
    {
      hide Valid, SameUsers, StillThere, Grew, Demand, Cleared, AddedZero, Contiguous, KernelMapped, GrowthOutcome;
      ghost var mem1, owner1, s1, lo := mem, owner, spaces[d], Pages(oldsz);
      GrewEnd(mem0, owner0, s, mem, owner, d, s1, lo, have, lost);
      var _ := Deallocuvm(d, newsz, oldsz, have);
      GrewUndone(mem0, owner0, s, mem1, owner1, d, s1, lo, have, lost, mem, owner);
      KernelSame(kdata, s, spaces[d]);
      GrowthFails(mem, s, spaces[d], lo, Pages(newsz), free, newsz, lost, s1.tables.Keys, w);
    }

    /** allocuvm's loop; not ok when there is no frame for page w. */
    method Grow(d: nat, oldsz: nat, newsz: nat) returns (ok: bool, ghost lost: set<nat>, ghost have: nat, ghost w: nat)
      requires Valid() && d in spaces && oldsz <= newsz < KERNBASE
      requires Grew(mem, owner, spaces[d], mem, owner, d, spaces[d], Pages(oldsz), Pages(oldsz), {})
      requires var keys := spaces[d].tables.Keys;
        Demand(keys, Pages(oldsz), Pages(newsz), |stack|, keys, Pages(oldsz), |stack|, false)
      modifies this
      ensures Valid() && spaces.Keys == old(spaces).Keys && spaces == old(spaces)[d := spaces[d]]
      ensures Pages(oldsz) <= have <= w <= Pages(newsz) && have == w - (if lost == {} then 0 else 1)
      ensures if ok then w == Pages(newsz) else w < Pages(newsz) && stack == []
      ensures Grew(old(mem), old(owner), old(spaces)[d], mem, owner, d, spaces[d], Pages(oldsz), have, lost)
      ensures Demand(spaces[d].tables.Keys, w, Pages(newsz), |stack|, old(spaces)[d].tables.Keys, Pages(oldsz),
                     |old(stack)|, lost != {})
      ensures TablesWithin(old(spaces)[d].tables.Keys, spaces[d].tables.Keys, Pages(oldsz), Pages(newsz))
      ensures lost == {} ==>
        |stack| + |spaces[d].tables.Keys| + w == |old(stack)| + |old(spaces)[d].tables.Keys| + Pages(oldsz)
    {
      hide Valid, Grew, Demand, TablesWithin, WithTable;
      var a := Pages(oldsz) * PGSIZE;
      ghost var s, lo, hi, free := spaces[d], Pages(oldsz), Pages(newsz), |stack|;
      lost, w, have := {}, lo, lo;
      TablesWithinStart(s.tables.Keys, lo, hi);
      assert hi <= USER;
      while a < newsz
        invariant a == w * PGSIZE && lo <= have <= w <= hi
        invariant Valid() && d in spaces && spaces.Keys == old(spaces).Keys && spaces == old(spaces)[d := spaces[d]]
        invariant if lost == {} then have == w else have == w - 1 && stack == []
        invariant Grew(old(mem), old(owner), s, mem, owner, d, spaces[d], lo, have, lost)
        invariant Demand(spaces[d].tables.Keys, w, hi, |stack|, s.tables.Keys, lo, free, lost != {})
        invariant TablesWithin(s.tables.Keys, spaces[d].tables.Keys, lo, hi)
        invariant lost == {} ==> |stack| + |spaces[d].tables.Keys| + w == free + |s.tables.Keys| + lo
      {
        ghost var keys := spaces[d].tables.Keys;
        var m, made := GrowPage(d, a, w, hi, old(mem), old(owner), s, lo, have, lost, free);
        if m == 0 {
          return false, lost, have, w;
        }
        TablesWithinStep(s.tables.Keys, keys, made, lo, hi, w);
        if made {
          have := have + 1;
        } else {
          lost := {m};
        }
        a, w := a + PGSIZE, w + 1;
      }
      ok := true;
    }

    /** copyuvm's loop body: page w of d into a new frame of c; m is that frame, 0 without one. */
    method CopyPage(d: nat, c: nat, i: nat, ghost w: nat, ghost n: nat, ghost mem0: seq<Page>,
                    ghost owner0: map<nat, Owner>)
      returns (m: nat, ok: bool)
      requires Valid() && d in spaces && c in spaces && c != d && i == w * PGSIZE
      requires Contiguous(spaces[d], n) && w < n && Copied(mem0, owner0, spaces[d], mem, owner, c, spaces[c], kdata, w)
      requires w in spaces[d].pte ==> Owns(owner0, spaces[d].pte[w].frame, User(d, w))
      modifies this
      ensures Valid() && spaces.Keys == old(spaces).Keys && spaces == old(spaces)[c := spaces[c]]
      ensures ok ==> Copied(mem0, owner0, spaces[d], mem, owner, c, spaces[c], kdata, w + 1)
      ensures Contiguous(spaces[c], if ok then w + 1 else w) && DataKept(mem0, owner0, mem) && UsersKept(owner0, owner)
      ensures var present := w / 1024 in old(spaces)[c].tables;
              && (m == 0 <==> old(stack) == []) && (ok <==> old(stack) != [] && (present || |old(stack)| >= 2))
              && (ok ==> |stack| == |old(stack)| - (if present then 1 else 2)
                         && spaces[c].tables.Keys == old(spaces)[c].tables.Keys + {w / 1024})
      ensures owner.Keys == if ok || m == 0 then old(owner).Keys else old(owner).Keys - {m}
      ensures m != 0 ==> m in old(owner)
    {
      hide State, FreeOk, DataKept, UsersKept, Installed, Copied, Contiguous;
      ghost var s, sc := spaces[d], spaces[c];
      ParentPage(mem, freelist, first, owner, stack, spaces, d, w, n, mem0, owner0, c, sc, kdata);
      CopiedSpace(mem0, owner0, s, mem, owner, c, sc, kdata, w);
      PageOf(w);
      var tab, t := Walkpgdir(d, i, false);
      ReadEntry(mem, freelist, first, owner, stack, spaces, d, w);
      ReadData(mem, freelist, first, owner, stack, spaces, d, w);
      var pa, flags := mem[tab].e[t].frame, mem[tab].e[t].flags;
      ghost var mem1, owner1 := mem, owner;
      m := Kalloc();
      if m == 0 {
        return 0, false;
      }
      ghost var page := mem[pa];
      ok := Install(c, i, w, m, mem[pa], flags);
      InstalledAt(mem1, owner1 - {m}, sc, mem, owner, spaces[c], w, m, WithP(flags), page, ok);
      if ok {
        ReadData(mem, freelist, first, owner, stack, spaces, c, w);
        CopiedStep(mem0, owner0, s, mem1, owner1, c, sc, mem, owner, spaces[c], kdata, w, m, WithP(flags), page);
        CopiedSpace(mem0, owner0, s, mem, owner, c, spaces[c], kdata, w + 1);
      } else {
        CopiedFail(mem0, owner0, s, mem1, owner1, c, sc, mem, owner, spaces[c], kdata, w, m, WithP(flags), page);
      }
    }

    /** copyuvm's way out when a page could not be copied. */
    method DropChild(c: nat, ghost w: nat, ghost mem0: seq<Page>, ghost owner0: map<nat, Owner>,
                     ghost spaces0: map<nat, Space>)
      requires Valid() && c !in spaces0 && c in spaces && spaces == spaces0[c := spaces[c]] && Contiguous(spaces[c], w)
      requires DataKept(mem0, owner0, mem) && UsersKept(owner0, owner) && owner.Keys <= owner0.Keys
      modifies this
      ensures Valid() && spaces == spaces0 && SameUsers(mem0, owner0, mem, owner) && owner.Keys == old(owner).Keys
    {
      hide Valid, DataKept, UsersKept, SameUsers, StillThere, Contiguous;
      ghost var mem1, owner1 := mem, owner;
      Freevm(c, w);
      SameTrans(mem0, owner0, mem1, owner1, mem, owner);
      assert spaces == spaces0;
    }

    /** copyuvm: a second space whose pages hold what d's hold, in frames that were free; or 0,
        with every frame given back but the one a failed table leaves behind. */
    method Copyuvm(d: nat, sz: nat) returns (c: nat, ghost lost: set<nat>)
      requires Valid() && d in spaces && Contiguous(spaces[d], Pages(sz))
      modifies this
      ensures Valid() && SameUsers(old(mem), old(owner), mem, owner) && owner.Keys == old(owner).Keys - lost
      ensures c != 0 ==>
                && c !in old(spaces) && c in spaces && spaces == old(spaces)[c := spaces[c]] && lost == {}
                && Contiguous(spaces[c], Pages(sz)) && KernelMapped(kdata, spaces[c])
                && (forall v :: 0 <= v < Pages(sz) ==> CopyOf(old(mem), old(owner), old(spaces)[d], mem, spaces[c], v))
      ensures c == 0 ==> spaces == old(spaces)
      ensures |old(stack)| < KERNEL_FRAMES ==> c == 0
      ensures |old(stack)| >= KERNEL_FRAMES ==>
                var free := |old(stack)| - KERNEL_FRAMES;
                && (lost == {} <==> TablesFit(KernelTables(), 0, Pages(sz), free))
                && (c != 0 <==> Enough(KernelTables(), 0, Pages(sz), free))
    {
      hide State, FreeOk, DataKept, UsersKept, SameUsers, StillThere, Installed, Copied, TablesFit, Enough, Cleared,
        Contiguous, KernelPart, KernelTables, KernelMapped, CopyOf;
      lost := {};
      c := Setupkvm();
      if c == 0 {
        lost := old(owner).Keys - owner.Keys;
        assert owner.Keys == old(owner).Keys - lost;
        KeptSame(old(mem), old(owner), mem, owner);
        return;
      }
      var i := 0;
      ghost var n, w, s := Pages(sz), 0, spaces[d];
      ContiguousBound(s, n);
      CopiedStart(old(mem), old(owner), s, mem, owner, c, spaces[c], kdata);
      while i < sz
        invariant i == w * PGSIZE && w <= n <= USER
        invariant Valid() && c != 0 && c !in old(spaces) && c in spaces && spaces == old(spaces)[c := spaces[c]]
        invariant Copied(old(mem), old(owner), s, mem, owner, c, spaces[c], kdata, w)
        invariant owner.Keys == old(owner).Keys
        invariant var free := |old(stack)| - KERNEL_FRAMES;
          && free >= 0
          && (TablesFit(spaces[c].tables.Keys, w, n, |stack|) <==> TablesFit(KernelTables(), 0, n, free))
          && (Enough(spaces[c].tables.Keys, w, n, |stack|) <==> Enough(KernelTables(), 0, n, free))
      {
        FitStep(spaces[c].tables.Keys, w, n, |stack|);
        OldPage(old(mem), old(freelist), first, old(owner), old(stack), old(spaces), d, w);
        var m, ok := CopyPage(d, c, i, w, n, old(mem), old(owner));
        if !ok {
          lost := if m == 0 then {} else {m};
          DropChild(c, w, old(mem), old(owner), old(spaces));
          return 0, lost;
        }
        i, w := i + PGSIZE, w + 1;
      }
      FitEnd(spaces[c].tables.Keys, w, n, |stack|);
      CopiedEnd(old(mem), old(freelist), first, old(owner), old(stack), old(spaces), d, mem, freelist, owner, stack,
          spaces, c, kdata, n);
    }

    /** copyout: p replaces the bytes from va on, page by page, up to the first page that user code
        could not touch. When that one has no table, uva2ka follows a null pointer: faulted. */
    method Copyout(d: nat, va: nat, p: seq<Byte>) returns (ok: bool, faulted: bool, ghost done: nat)
      requires Valid() && d in spaces && va < LIMIT
      requires KernelMapped(kdata, spaces[d])
      modifies this`mem
      ensures Valid() && done <= |p| && (ok <==> done == |p|)
      ensures forall a {:trigger a / PGSIZE} :: va <= a < va + done ==> Reachable(spaces[d], a / PGSIZE)
      ensures !ok ==> !Reachable(spaces[d], (va + done) / PGSIZE)
      ensures faulted <==> !ok && (va + done) / PGSIZE / NPTENTRIES !in spaces[d].tables
      ensures forall a: nat {:trigger UserByte(mem, spaces[d], a)} :: a < KERNBASE ==>
                UserByte(mem, spaces[d], a) == if va <= a < va + done then p[a - va]
                    else UserByte(old(mem), spaces[d], a)
      ensures |mem| == |old(mem)|
      ensures forall f: nat :: f < |mem| && !(f in owner && owner[f].User? && owner[f].d == d) ==> mem[f] == old(mem)[f]
    {
      hide State, UserByte, CopiedOut, Reachable;
      done := 0;
      var va', len := va, |p|;
      OutStart(mem, owner, spaces[d], d, va, p);
      while len > 0
        invariant Valid() && 0 <= len && done + len == |p| && va' == va + done && va' < LIMIT
        invariant CopiedOut(old(mem), mem, owner, spaces[d], d, va, p, done)
      {
        ghost var v := va' / PGSIZE;
        var va0 := va' / PGSIZE * PGSIZE;
        PageOf(v);
        var pa0, none := Uva2ka(d, va0);
        if pa0 == 0 {
          OutEnd(old(mem), mem, owner, spaces[d], d, va, p, done);
          return false, none, done;
        }
        ReadData(mem, freelist, first, owner, stack, spaces, d, v);
        var n := PGSIZE - (va' - va0);
        if n > len {
          n := len;
        }
        var start := |p| - len;
        CopyStep(mem, freelist, first, owner, stack, spaces, d, v, va' - va0, p[start..start + n]);
        OutNext(old(mem), mem, owner, spaces[d], d, va, p, done, n, pa0,
            Data(Overlay(mem[pa0].b, va' - va0, p[start..start + n])), v, va' - va0);
        mem := mem[pa0 := Data(Overlay(mem[pa0].b, va' - va0, p[start..start + n]))];
        len, va', done := len - n, va' + n, done + n;
      }
      OutEnd(old(mem), mem, owner, spaces[d], d, va, p, done);
      ok, faulted := true, false;
    }

    /** uva2ka: the frame of a page that user code can touch, else 0; without a table it reads
        through the null pointer that walkpgdir returned. */
    method Uva2ka(d: nat, va: nat) returns (f: nat, none: bool)
      requires Valid() && d in spaces && va < LIMIT && va % PGSIZE == 0
      requires KernelMapped(kdata, spaces[d])
      ensures none <==> va / PGSIZE / NPTENTRIES !in spaces[d].tables
      ensures f != 0 <==> Reachable(spaces[d], va / PGSIZE)
      ensures f != 0 ==> va / PGSIZE in spaces[d].pte && va / PGSIZE < USER && f == spaces[d].pte[va / PGSIZE].frame
    {
      hide State;
      ReadDirectory(mem, freelist, first, owner, stack, spaces, d, va / PGSIZE / NPTENTRIES);
      if !mem[d].e[va / PGSIZE / NPTENTRIES].Present() {
        NoTable(mem, freelist, first, owner, stack, spaces, d, va / PGSIZE);
        return 0, true;
      }
      none := false;
      ReadEntry(mem, freelist, first, owner, stack, spaces, d, va / PGSIZE);
      var tab, t := mem[d].e[va / PGSIZE / NPTENTRIES].frame, va / PGSIZE % NPTENTRIES;
      if !mem[tab].e[t].Present() {
        return 0, false;
      }
      if mem[tab].e[t].flags / 4 % 2 == 0 {
        return 0, false;
      }
      if va / PGSIZE >= USER { KernelUnreachable(kdata, spaces[d], va / PGSIZE); }
      ReadData(mem, freelist, first, owner, stack, spaces, d, va / PGSIZE);
      f := mem[tab].e[t].frame;
    }

    /** freerange: the whole pages of [vstart, vend), as offsets from KERNBASE, become free. */
    method Freerange(vstart: nat, vend: nat)
      requires Valid() && vend <= |mem| * PGSIZE && first * PGSIZE <= vstart
      requires forall f :: Pages(vstart) <= f < vend / PGSIZE ==> f !in owner
      modifies this
      ensures Valid() && spaces == old(spaces)
      ensures forall f :: f in owner <==> f in old(owner) || Pages(vstart) <= f < vend / PGSIZE
      ensures |stack| == |old(stack)| + if Pages(vstart) < vend / PGSIZE then vend / PGSIZE - Pages(vstart) else 0
    {
      hide State;
      var p := Pages(vstart) * PGSIZE;
      ghost var f := Pages(vstart);
      while p + PGSIZE <= vend
        invariant Valid() && spaces == old(spaces) && p == f * PGSIZE && f >= Pages(vstart) && |mem| == |old(mem)|
        invariant f <= vend / PGSIZE || f == Pages(vstart)
        invariant forall g :: g in owner <==> g in old(owner) || Pages(vstart) <= g < f
        invariant |stack| == |old(stack)| + (f - Pages(vstart))
      {
        PageOf(f);
        Push(p / PGSIZE);
        p, f := p + PGSIZE, f + 1;
      }
    }

    /** A machine whose frames from end on are not yet managed. */
    constructor (frames: nat, end: nat, kdata: nat)
      requires 0 < end <= frames && EXTMEM < kdata < PHYSTOP
      ensures Valid() && |mem| == frames && first == end && stack == [] && owner == map[] && spaces == map[]
    {
      mem, freelist, first, this.kdata := Blank(frames), 0, end, kdata;
      stack, owner, spaces := [], map[], map[];
    }
  }

  function Blank(n: nat): (mem: seq<Page>)
    ensures |mem| == n
  {
    if n == 0 then [] else Blank(n - 1) + [Run(0)]
  }

  /** What setupkvm makes has no user pages. */
  lemma KernelOnly(kdata: nat, s: Space)
    requires EXTMEM < kdata < PHYSTOP && s.pte == KernelPart(kdata, 4)
    ensures Contiguous(s, 0) && KernelMapped(kdata, s) && 0 !in s.pte
  {
    hide KernelPart;
    forall v: nat
      ensures v in s.pte <==> Look(s.pte, v) != NONE
      ensures Look(s.pte, v) == KernelEntry(kdata, v)
    {
      KernelAt(kdata, 4, v);
    }
  }

  lemma AddedNothing(mem: seq<Page>, s: Space, s': Space, lo: nat)
    requires AddedZero(mem, s, s', lo, lo)
    ensures s'.pte == s.pte
  {
    assert Cleared(s'.pte, lo, lo) == s'.pte;
  }

  /** A machine with n free frames. */
  method Booted(n: nat) returns (m: Machine)
    ensures fresh(m) && m.Valid() && |m.stack| == n && m.spaces == map[]
  {
    m := new Machine(n + 1, 1, EXTMEM + 1);
    m.Freerange(PGSIZE, (n + 1) * PGSIZE);
  }

  /** A machine with one address space that setupkvm has made, and n frames left. */
  method WithKernel(n: nat) returns (m: Machine, d: nat)
    ensures fresh(m) && m.Valid() && d in m.spaces && |m.stack| == n
    ensures Contiguous(m.spaces[d], 0) && KernelMapped(m.kdata, m.spaces[d])
    ensures 0 !in m.spaces[d].pte && m.spaces[d].tables.Keys == KernelTables()
  {
    hide State, KernelPart, KernelTables, Contiguous, KernelMapped;
    m := Booted(KERNEL_FRAMES + n);
    d := m.Setupkvm();
    KernelOnly(m.kdata, m.spaces[d]);
  }

  /** allocuvm reports a first user page that it has not mapped. */
  method FalseSuccess() returns (m: Machine, d: nat, r: nat)
    ensures m.Valid() && d in m.spaces && r == PGSIZE && 0 !in m.spaces[d].pte
  {
    hide Machine.Valid, KernelTables, Contiguous, KernelMapped, TablesFit, Enough, AddedZero, SameUsers;
    m, d := WithKernel(1);
    ghost var s := m.spaces[d];
    ghost var lost;
    OneFrameLeft();
    r, lost := m.Allocuvm(d, 0, PGSIZE);
    AddedNothing(m.mem, s, m.spaces[d], 0);
  }

  /** copyout to a first page without a table. */
  method NullPointer() returns (m: Machine, d: nat, ok: bool, faulted: bool)
    ensures d in m.spaces && !ok && faulted
  {
    hide Machine.Valid, KernelTables, KernelMapped, UserByte;
    m, d := WithKernel(0);
    LowSlots();
    ghost var done;
    ok, faulted, done := m.Copyout(d, 0, [0]);
    assert 0 / PGSIZE == 0 && !Reachable(m.spaces[d], 0);
    assert done == 0;
  }

  /** One page more than setupkvm's takes one table more. */
  lemma FirstTable(s: Space, s': Space)
    requires s.tables.Keys == KernelTables() && TablesWithin(s.tables.Keys, s'.tables.Keys, 0, 1)
    requires Extends(s, s') && 0 in s'.tables
    ensures s'.tables.Keys == KernelTables() + {0} && |s'.tables.Keys| == |KernelTables()| + 1
  {
    hide KernelTables;
    LowSlots();
    KeyAdded(KernelTables(), 0);
    forall x
      ensures x in s'.tables.Keys <==> x in KernelTables() + {0}
    {
      assert x in s.tables.Keys <==> x in KernelTables();
    }
  }

  /** copyuvm loses a frame: a parent of one page, and one frame more than the child's kernel
      mappings take. */
  method LostFrame() returns (m: Machine, d: nat, c: nat, ghost lost: set<nat>)
    ensures m.Valid() && c == 0 && lost != {}
  {
    hide State, KernelTables, Contiguous, KernelMapped, TablesFit, Enough, Extends, SameUsers, CopyOf, TablesWithin;
    m, d := WithKernel(KERNEL_FRAMES + 3);
    ghost var s := m.spaces[d];
    OneFrameLeft();
    RoomForOne(KERNEL_FRAMES + 3);
    var r;
    r, lost := m.Allocuvm(d, 0, PGSIZE);
    ReadData(m.mem, m.freelist, m.first, m.owner, m.stack, m.spaces, d, 0);
    FirstTable(s, m.spaces[d]);
    c, lost := m.Copyuvm(d, PGSIZE);
  }

  lemma RoomForOne(free: nat)
    requires free >= 2
    ensures TablesFit(KernelTables(), 0, 1, free) && Enough(KernelTables(), 0, 1, free)
  {
    hide KernelTables;
    LowSlots();
    FitStep(KernelTables(), 0, 1, free);
    FitEnd(KernelTables() + {0}, 1, 1, free - 2);
  }
}
