/** The user-level allocator (user/umalloc.c). Memory is two sequences indexed by header-sized
    unit: the two words a header lays over a unit, `s.ptr` and `s.size`. A block's payload is
    the same words of the units after its header. */
module Umalloc {
  import opened FreeList

  const HEADER := 8

  /** From this on malloc's uint arithmetic wraps or its sbrk argument is a negative int. */
  const MAX_BYTES := 0x7FFF_FFF1

  // ---- how pointers represent a free list ----

  /** The address `s.ptr` of element i should hold. */
  function Next(list: seq<Blk>, i: nat): nat
    requires i < |list|
  {
    if i + 1 < |list| then list[i + 1].at else list[0].at
  }

  ghost predicate Stored(ptr: seq<nat>, size: seq<nat>, b: Blk) {
    b.at < |ptr| == |size| && size[b.at] == b.units
  }

  ghost predicate Points(ptr: seq<nat>, list: seq<Blk>, i: nat) {
    i < |list| ==> list[i].at < |ptr| && ptr[list[i].at] == Next(list, i)
  }

  /** ptr and size hold list, except the pointer of element `but`. */
  ghost predicate Holds(ptr: seq<nat>, size: seq<nat>, list: seq<Blk>, but: int) {
    && (forall i :: 0 <= i < |list| ==> Stored(ptr, size, list[i]))
    && (forall i: nat {:trigger Points(ptr, list, i)} :: i != but ==> Points(ptr, list, i))
  }

  /** A freed block's header is not a list element's. */
  lemma Elsewhere(list: seq<Blk>, k: nat, b: Blk)
    requires Sorted(list) && Gap(list, b.at, k)
    ensures forall i :: 0 <= i < |list| ==> list[i].at != b.at
  {
    forall i | 0 <= i < |list|
      ensures list[i].at != b.at
    {
      if i <= k { SortedOrder2(list, i, k); } else { SortedOrder2(list, k + 1, i); }
    }
  }

  /** The pointers of a list's elements are pairwise distinct units. */
  lemma DistinctUnits(list: seq<Blk>, i: nat, j: nat)
    requires Sorted(list) && i < |list| && j < |list| && i != j
    ensures list[i].at != list[j].at
  {
    if i < j { SortedOrder(list, i, j); } else { SortedOrder(list, j, i); }
  }

  /** free's first test when the blocks touch: the new block swallows the one above. */
  lemma HoldsJoined(ptr: seq<nat>, size: seq<nat>, list: seq<Blk>, k: nat, b: Blk)
    requires Sorted(list) && Holds(ptr, size, list, -1)
    requires Gap(list, b.at, k) && b.units > 0 && Stored(ptr, size, b)
    requires Touch(Inserted(list, k, b), k + 1)
    ensures var n := Next(list, k);
      && n < |ptr|
      && Holds(ptr[b.at := ptr[n]], size[b.at := size[b.at] + size[n]], Joined(Inserted(list, k, b), k + 1), k)
  {
    var n := list[k + 1].at;
    assert Stored(ptr, size, list[k + 1]) && Points(ptr, list, k + 1);
    var l2 := Joined(Inserted(list, k, b), k + 1);
    var ptr', size' := ptr[b.at := ptr[n]], size[b.at := size[b.at] + size[n]];
    Elsewhere(list, k, b);
    forall i | 0 <= i < |l2|
      ensures Stored(ptr', size', l2[i])
    {
      assert i != k + 1 ==> l2[i] == list[i];
    }
    forall i: nat | i != k
      ensures Points(ptr', l2, i)
    {
      assert Points(ptr, list, i);
    }
  }

  /** free's first test when they do not touch: the new block points at the one above. */
  lemma HoldsInserted(ptr: seq<nat>, size: seq<nat>, list: seq<Blk>, k: nat, b: Blk)
    requires Sorted(list) && Holds(ptr, size, list, -1)
    requires Gap(list, b.at, k) && b.units > 0 && Stored(ptr, size, b)
    ensures Holds(ptr[b.at := Next(list, k)], size, Inserted(list, k, b), k)
  {
    var l1 := Inserted(list, k, b);
    var ptr' := ptr[b.at := Next(list, k)];
    Elsewhere(list, k, b);
    forall i | 0 <= i < |l1|
      ensures Stored(ptr', size, l1[i])
    {
    }
    forall i: nat | i != k
      ensures Points(ptr', l1, i)
    {
      assert Points(ptr, list, if i <= k then i else i - 1);
    }
  }

  /** free's second test: element k swallows its successor or points at it. */
  lemma HoldsBelow(ptr: seq<nat>, size: seq<nat>, list: seq<Blk>, k: nat)
    requires Nearly(list, k, k + 1) && Holds(ptr, size, list, k) && k + 1 < |list|
    ensures var p, b := list[k].at, list[k + 1].at;
      && p < |ptr| && b < |ptr|
      && (Touch(list, k) ==> Holds(ptr[p := ptr[b]], size[p := size[p] + size[b]], Joined(list, k), -1))
      && (!Touch(list, k) ==> Holds(ptr[p := b], size, list, -1))
  {
    var p, b := list[k].at, list[k + 1].at;
    assert Stored(ptr, size, list[k]) && Stored(ptr, size, list[k + 1]) && Points(ptr, list, k + 1);
    forall i | 0 <= i < |list| && i != k
      ensures list[i].at != p
    {
      NearlyOrder(list, k, k + 1, if i < k then i else k, if i < k then k else i);
    }
    if Touch(list, k) {
      SwallowsNext(ptr, size, list, k);
    } else {
      var ptr' := ptr[p := b];
      forall i: nat
        ensures Points(ptr', list, i)
      {
        assert i != k ==> Points(ptr, list, i);
      }
    }
    hide Nearly, Touch, Joined;
  }

  lemma SwallowsNext(ptr: seq<nat>, size: seq<nat>, list: seq<Blk>, k: nat)
    requires k + 1 < |list| && Touch(list, k) && Holds(ptr, size, list, k)
    requires forall i :: 0 <= i < |list| && i != k ==> list[i].at != list[k].at
    ensures var p, b := list[k].at, list[k + 1].at;
      && p < |ptr| && b < |ptr| && |size| == |ptr|
      && Holds(ptr[p := ptr[b]], size[p := size[p] + size[b]], Joined(list, k), -1)
  {
    var p, b := list[k].at, list[k + 1].at;
    assert Stored(ptr, size, list[k]) && Stored(ptr, size, list[k + 1]) && Points(ptr, list, k + 1);
    var l, ptr', size' := Joined(list, k), ptr[p := ptr[b]], size[p := size[p] + size[b]];
    forall i | 0 <= i < |l|
      ensures Stored(ptr', size', l[i])
    {
      assert i != k ==> l[i] == list[if i < k then i else i + 1];
    }
    forall i: nat
      ensures Points(ptr', l, i)
    {
      assert i != k ==> Points(ptr, list, if i < k then i else i + 1);
    }
  }

  lemma {:induction false} NearlyOrder(list: seq<Blk>, lo: nat, hi: nat, i: nat, j: nat)
    requires Nearly(list, lo, hi) && i < j < |list|
    ensures list[i].at < list[j].at
  {
    assert Weak(list, j - 1);
    if i + 1 < j {
      NearlyOrder(list, lo, hi, i, j - 1);
    }
  }

  /** malloc's unlinking of a whole block. */
  lemma HoldsRemoved(ptr: seq<nat>, size: seq<nat>, list: seq<Blk>, i: nat)
    requires Sorted(list) && Holds(ptr, size, list, -1) && 0 < i < |list|
    ensures list[i - 1].at < |ptr| && list[i].at < |ptr|
    ensures Holds(ptr[list[i - 1].at := ptr[list[i].at]], size, Removed(list, i), -1)
  {
    var r := Removed(list, i);
    assert Stored(ptr, size, list[i - 1]) && Stored(ptr, size, list[i]) && Points(ptr, list, i);
    var ptr' := ptr[list[i - 1].at := ptr[list[i].at]];
    forall j: nat
      ensures Points(ptr', r, j)
    {
      assert Points(ptr, list, if j < i then j else j + 1);
      if j < |r| && j != i - 1 { DistinctUnits(list, i - 1, if j < i then j else j + 1); }
    }
  }

  /** malloc's cutting of a block's tail, whose header the list does not see. */
  lemma HoldsShrunk(ptr: seq<nat>, size: seq<nat>, list: seq<Blk>, i: nat, n: nat)
    requires Sorted(list) && Holds(ptr, size, list, -1) && 0 < i < |list| && 0 < n < list[i].units
    requires list[i].End() <= |ptr|
    ensures var p := list[i].at;
      && p < |size| && size[p] == list[i].units && p + size[p] - n < |size|
      && Holds(ptr, size[p := size[p] - n][p + size[p] - n := n], Shrunk(list, i, n), -1)
  {
    var p, r := list[i].at, Shrunk(list, i, n);
    assert Stored(ptr, size, list[i]);
    var size' := size[p := size[p] - n][p + size[p] - n := n];
    forall j | 0 <= j < |list|
      ensures Stored(ptr, size', r[j])
    {
      assert Stored(ptr, size, list[j]);
      if j < i { SortedOrder(list, j, i); } else if i < j { SortedOrder(list, i, j); }
    }
    forall j: nat
      ensures Points(ptr, r, j)
    {
      assert Points(ptr, list, j);
    }
  }

  /** Writing outside every element's header does not disturb the list. */
  lemma HoldsFrame(ptr: seq<nat>, size: seq<nat>, list: seq<Blk>, ptr': seq<nat>, size': seq<nat>)
    requires Holds(ptr, size, list, -1) && |ptr'| == |ptr| == |size| == |size'|
    requires forall i :: 0 <= i < |list| ==>
        ptr'[list[i].at] == ptr[list[i].at] && size'[list[i].at] == size[list[i].at]
    ensures Holds(ptr', size', list, -1)
  {
    forall i: nat
      ensures Points(ptr', list, i)
    {
      assert Points(ptr, list, i);
    }
    forall i | 0 <= i < |list|
      ensures Stored(ptr', size', list[i])
    {
      assert Stored(ptr, size, list[i]);
    }
  }

  // ---- the code ----

  /** Both words of the units of block a. */
  ghost predicate SameUnits(ptr: seq<nat>, size: seq<nat>, ptr': seq<nat>, size': seq<nat>, a: nat, n: nat) {
    |ptr'| == |ptr| == |size| == |size'| &&
    forall u :: a <= u < a + n && u < |ptr| ==> ptr'[u] == ptr[u] && size'[u] == size[u]
  }

  lemma HoldsAt(ptr: seq<nat>, size: seq<nat>, list: seq<Blk>, but: int, i: nat)
    requires Holds(ptr, size, list, but) && i < |list|
    ensures list[i].at < |ptr| == |size| && size[list[i].at] == list[i].units
    ensures i != but ==> ptr[list[i].at] == Next(list, i)
  {
    assert Stored(ptr, size, list[i]);
    if i != but {
      assert Points(ptr, list, i);
    }
  }

  lemma Header(list: seq<Blk>, i: nat)
    requires Sorted(list) && i < |list|
    ensures BASE <= list[i].at
  {
    SortedOrder2(list, 0, i);
  }

  /** What one test of free's search tells: it stops exactly at the gap. */
  lemma SearchStep(list: seq<Blk>, bp: nat, k: nat, i: nat)
    requires Sorted(list) && Gap(list, bp, k) && BASE < bp && i < |list|
    ensures var p, n := list[i].at, Next(list, i);
      i == k <==> (bp > p && bp < n) || (p >= n && (bp > p || bp < n))
  {
    var p, n := list[i].at, Next(list, i);
    if i + 1 < |list| { SortedOrder(list, i, i + 1); }
    SortedOrder2(list, 0, i);
    if bp > p && (bp < n || p >= n) {
      GapUnique(list, bp, k, i);
    }
  }

  /** No unit of a free block, nor its header, lies in a live block. */
  lemma Outside(list: seq<Blk>, live: map<nat, nat>, brk: nat, i: nat, u: nat, a: nat)
    requires Sorted(list) && Disjoint(list, live, brk) && i < |list| && a in live
    requires u == list[i].at || list[i].at <= u < list[i].End()
    ensures u < a || a + live[a] <= u
  {
    assert Apart(list[i], Blk(a, live[a]));
  }

  /** free changes two headers: those units lie in no other live block. */
  lemma HeadersOnly(ptr: seq<nat>, size: seq<nat>, ptr': seq<nat>, size': seq<nat>,
                    list: seq<Blk>, live: map<nat, nat>, brk: nat, bp: nat, k: nat)
    requires Sorted(list) && Disjoint(list, live, brk) && bp in live && k < |list|
    requires |ptr'| == |ptr| == |size| == |size'| && brk <= |ptr|
    requires forall u {:trigger ptr'[u]} {:trigger size'[u]} ::
               0 <= u < |ptr| && u != bp && u != list[k].at ==> ptr'[u] == ptr[u] && size'[u] == size[u]
    ensures forall a :: a in live && a != bp ==> SameUnits(ptr, size, ptr', size', a, live[a])
  {
    forall a | a in live && a != bp
      ensures SameUnits(ptr, size, ptr', size', a, live[a])
    {
      assert Apart(Blk(a, live[a]), Blk(bp, live[bp]));
      Outside(list, live, brk, k, list[k].at, a);
    }
  }

  /** The list that malloc starts with: base alone, pointing at itself. */
  lemma FirstList(ptr: seq<nat>, size: seq<nat>, brk: nat)
    requires BASE < brk <= |ptr| == |size|
    ensures var list := [Blk(BASE, 0)];
      && Sorted(list) && Holds(ptr[BASE := BASE], size[BASE := 0], list, -1) && Disjoint(list, map[], brk)
          && Units(list) == Units([])
  {
    assert Units([Blk(BASE, 0)][1..]) == 0;
  }

  lemma SameUnitsHeader(ptr: seq<nat>, size: seq<nat>, ptr': seq<nat>, size': seq<nat>, a: nat, n: nat)
    requires SameUnits(ptr, size, ptr', size', a, n) && a < |ptr| && n > 0
    ensures size'[a] == size[a]
  {
  }

  /** Every unit of every block in live holds what it held. */
  ghost predicate Kept(ptr: seq<nat>, size: seq<nat>, ptr': seq<nat>, size': seq<nat>, live: map<nat, nat>) {
    && |ptr'| == |ptr| == |size| == |size'|
    && (forall a :: a in live ==> SameUnits(ptr, size, ptr', size', a, live[a]))
  }

  lemma KeptTrans(ptr: seq<nat>, size: seq<nat>, ptr': seq<nat>, size': seq<nat>, ptr'': seq<nat>, size'': seq<nat>,
                  live: map<nat, nat>)
    requires Kept(ptr, size, ptr', size', live) && Kept(ptr', size', ptr'', size'', live)
    ensures Kept(ptr, size, ptr'', size'', live)
  {
    forall a | a in live
      ensures SameUnits(ptr, size, ptr'', size'', a, live[a])
    {
      assert SameUnits(ptr, size, ptr', size', a, live[a]) && SameUnits(ptr', size', ptr'', size'', a, live[a]);
    }
  }

  lemma KeptStart(ptr: seq<nat>, size: seq<nat>, ptr': seq<nat>, size': seq<nat>, live: map<nat, nat>)
    requires |ptr'| == |ptr| == |size| == |size'| && (live == map[] || (ptr' == ptr && size' == size))
    ensures Kept(ptr, size, ptr', size', live)
  {
  }

  /** The units sbrk grants lie above every block, free or live. */
  lemma Granted(ptr: seq<nat>, size: seq<nat>, list: seq<Blk>, live: map<nat, nat>, brk: nat, n: nat)
    requires Sorted(list) && Holds(ptr, size, list, -1) && Disjoint(list, live, brk)
    requires BASE < brk && n > 0 && brk + n <= |ptr| == |size|
    requires forall a :: a in live ==> size[a] == live[a]
    ensures brk !in live && Disjoint(list, live[brk := n], brk + n)
    ensures Holds(ptr, size[brk := n], list, -1) && Kept(ptr, size, ptr, size[brk := n], live)
    ensures forall a :: a in live ==> a != brk && size[brk := n][a] == live[a]
  {
    hide Sorted, Holds;
    forall i | 0 <= i < |list|
      ensures list[i].at < |ptr| && list[i].at != brk && Apart(list[i], Blk(brk, n))
    {
      HoldsAt(ptr, size, list, -1, i);
      Positive(list, i);
    }
    HoldsFrame(ptr, size, list, ptr, size[brk := n]);
  }

  lemma Positive(list: seq<Blk>, i: nat)
    requires Sorted(list) && i < |list|
    ensures if i == 0 then list[i] == Blk(BASE, 0) else list[i].units > 0
  {
  }

  // ---- malloc's search and its cut ----

  function Succ(list: seq<Blk>, i: nat): nat { if i + 1 < |list| then i + 1 else 0 }

  function Pred(list: seq<Blk>, i: nat): int { if i == 0 then |list| - 1 else i - 1 }

  /** Element x comes after cur and before j on the way round. */
  predicate Between(cur: nat, j: nat, x: nat) {
    if j > cur then cur < x < j else x > cur || x < j
  }

  ghost predicate Fits(list: seq<Blk>, n: nat) {
    exists i :: 0 <= i < |list| && list[i].units >= n
  }

  /** No element from cur, exclusive, round to j, exclusive, has n units. */
  ghost predicate NoneYet(list: seq<Blk>, cur: nat, j: nat, n: nat) {
    forall x: nat :: x < |list| && Between(cur, j, x) ==> list[x].units < n
  }

  /** How many elements the search has yet to look at after j. */
  function Left(list: seq<Blk>, cur: nat, j: nat): int {
    if j > cur then |list| - j + cur else cur - j
  }

  /** Element j is the first after cur, going round, with n units. */
  ghost predicate FirstFit(list: seq<Blk>, cur: nat, j: nat, n: nat) {
    0 < j < |list| && list[j].units >= n && NoneYet(list, cur, j, n)
  }

  lemma SearchStart(list: seq<Blk>, cur: nat, n: nat)
    requires cur < |list|
    ensures var j := Succ(list, cur);
      && j < |list| && NoneYet(list, cur, j, n) && Pred(list, j) == cur && Left(list, cur, j) >= 0
  {
  }

  lemma SearchOn(list: seq<Blk>, cur: nat, j: nat, n: nat)
    requires NoneYet(list, cur, j, n) && cur < |list| && j < |list| && list[j].units < n && j != cur
    ensures var i := Succ(list, j);
      && i < |list| && NoneYet(list, cur, i, n) && Pred(list, i) == j
      && 0 <= Left(list, cur, i) < Left(list, cur, j)
  {
  }

  lemma Found(list: seq<Blk>, cur: nat, j: nat, n: nat)
    requires NoneYet(list, cur, j, n) && Sorted(list) && j < |list| && list[j].units >= n > 0
    ensures FirstFit(list, cur, j, n) && Fits(list, n) && list[j].at != NULL && Pred(list, j) == j - 1
  {
    Header(list, j);
  }

  lemma InsertMakesFit(list: seq<Blk>, k: nat, b: Blk, n: nat)
    requires k < |list| && b.units >= n
    ensures Fits(Insert(list, k, b), n)
  {
    InsertFits(list, k, b);
  }

  /** The search came back to freep without success. */
  lemma NoneFits(list: seq<Blk>, cur: nat, j: nat, n: nat)
    requires Sorted(list) && cur < |list| && j < |list| && list[j].at == list[cur].at && list[j].units < n
    requires NoneYet(list, cur, j, n)
    ensures j == cur && !Fits(list, n)
  {
    if j != cur {
      DistinctUnits(list, j, cur);
    }
  }

  /** Header units, one of them the header, for nbytes of payload. */
  function UnitsFor(nbytes: nat): (n: nat)
    ensures n >= 1 && (n - 1) * HEADER >= nbytes && (n >= 2 ==> (n - 2) * HEADER < nbytes)
  {
    (nbytes + HEADER - 1) / HEADER + 1
  }

  /** morecore's least request. */
  function Request(nu: nat): (n: nat)
    ensures n >= 4096 && n >= nu && (n == 4096 || n == nu)
  {
    if nu < 4096 then 4096 else nu
  }

  /** The 32-bit arithmetic of malloc and morecore is exact, and sbrk's int argument positive, for
      fewer than MAX_BYTES bytes and for no others. From there on sbrk is asked for nothing or to
      shrink the program, but for the last seven sizes, which get one unit and so no room at all. */
  lemma UnitsWrap(nbytes: nat)
    requires nbytes < 0x1_0000_0000
    ensures var nunits := (nbytes + HEADER - 1) % 0x1_0000_0000 / HEADER + 1;
      var asked := Request(nunits) * HEADER % 0x1_0000_0000;
      && (nbytes < MAX_BYTES <==>
            nunits == UnitsFor(nbytes) && asked == Request(nunits) * HEADER && asked < 0x8000_0000)
      && (nbytes >= MAX_BYTES && nbytes < 0xFFFF_FFF9 ==> asked == 0 || asked >= 0x8000_0000)
      && (nbytes >= 0xFFFF_FFF9 ==> nunits == 1)
  {
    var sum := nbytes + HEADER - 1;
    assert nbytes < 0xFFFF_FFF9 ==> sum % 0x1_0000_0000 == sum;
    assert nbytes >= 0xFFFF_FFF9 ==> sum % 0x1_0000_0000 == sum - 0x1_0000_0000;
  }

  /** malloc's unlinking or cutting of element j, reached from its predecessor. */
  method Carve(ptr: seq<nat>, size: seq<nat>, prevp: nat, p: nat, n: nat,
               ghost list: seq<Blk>, ghost live: map<nat, nat>, ghost brk: nat, ghost j: nat)
    returns (ptr': seq<nat>, size': seq<nat>, q: nat)
    requires Sorted(list) && Holds(ptr, size, list, -1) && Disjoint(list, live, brk) && brk <= |ptr| == |size|
    requires 0 < j < |list| && 0 < n <= list[j].units && p == list[j].at && prevp == list[j - 1].at
    ensures |ptr'| == |size'| == |ptr| && Holds(ptr', size', Taken(list, j, n), -1)
        && Kept(ptr, size, ptr', size', live)
    ensures q == Cut(list, j, n).at && q < |size'| && size'[q] == n
  {
    hide Sorted, Holds, Disjoint;
    ptr', size', q := ptr, size, p;
    HoldsAt(ptr, size, list, -1, j);
    HoldsAt(ptr, size, list, -1, j - 1);
    Bounded(list, live, brk, j);
    if size'[p] == n {
      HoldsRemoved(ptr, size, list, j);
      ptr' := ptr'[prevp := ptr'[p]];
    } else {
      HoldsShrunk(ptr, size, list, j, n);
      size' := size'[p := size'[p] - n];
      q := p + size'[p];
      size' := size'[q := n];
    }
    forall a | a in live
      ensures SameUnits(ptr, size, ptr', size', a, live[a])
    {
      Outside(list, live, brk, j - 1, prevp, a);
      Outside(list, live, brk, j, p, a);
      Outside(list, live, brk, j, q, a);
    }
  }

  lemma Bounded(list: seq<Blk>, live: map<nat, nat>, brk: nat, i: nat)
    requires Disjoint(list, live, brk) && i < |list|
    ensures list[i].End() <= brk
  {
  }

  lemma TakenBefore(list: seq<Blk>, j: nat, n: nat)
    requires 0 < j < |list| && n <= list[j].units
    ensures j - 1 < |Taken(list, j, n)| && Taken(list, j, n)[j - 1] == list[j - 1]
  {
  }

  lemma KeptSizes(ptr: seq<nat>, size: seq<nat>, ptr': seq<nat>, size': seq<nat>, live: map<nat, nat>, brk: nat,
                  list: seq<Blk>)
    requires Kept(ptr, size, ptr', size', live) && Disjoint(list, live, brk) && brk <= |ptr|
    ensures forall a :: a in live ==> a < |ptr| && size'[a] == size[a]
  {
    forall a | a in live
      ensures a < |ptr| && size'[a] == size[a]
    {
      SameUnitsHeader(ptr, size, ptr', size', a, live[a]);
    }
  }

  /** The payload units of a block of n units at a and of one at b hold the same words. */
  ghost predicate SamePayload(ptr: seq<nat>, size: seq<nat>, a: nat, ptr': seq<nat>, size': seq<nat>, b: nat, n: nat) {
    && a + n - 1 <= |ptr| == |size| && b + n - 1 <= |ptr'| == |size'|
    && (forall u :: a <= u < a + n - 1 ==> ptr'[b + (u - a)] == ptr[u] && size'[b + (u - a)] == size[u])
  }

  lemma SameRefl(ptr: seq<nat>, size: seq<nat>, a: nat, n: nat)
    requires a + n - 1 <= |ptr| == |size|
    ensures SamePayload(ptr, size, a, ptr, size, a, n)
  {
  }

  /** The n units from dst on hold what those from src on held; the others are as they were. */
  ghost predicate Overlaid(ptr: seq<nat>, size: seq<nat>, ptr': seq<nat>, size': seq<nat>,
                           dst: nat, src: nat, n: nat) {
    && |ptr'| == |ptr| == |size'| == |size| && dst + n <= |ptr| && src + n <= |ptr|
    && forall u {:trigger ptr'[u]} {:trigger size'[u]} :: 0 <= u < |ptr| ==>
         var from := if dst <= u < dst + n then src + (u - dst) else u;
         ptr'[u] == ptr[from] && size'[u] == size[from]
  }

  /** realloc's memmove of n whole units between blocks. */
  method Memmove(ptr: seq<nat>, size: seq<nat>, dst: nat, src: nat, n: nat) returns (ptr': seq<nat>, size': seq<nat>)
    requires dst + n <= |ptr| == |size| && src + n <= |ptr| && (dst + n <= src || src + n <= dst)
    ensures Overlaid(ptr, size, ptr', size', dst, src, n)
  {
    ptr', size' := ptr, size;
    var i := 0;
    while i < n
      invariant i <= n && |ptr'| == |ptr| == |size'|
      invariant forall u {:trigger ptr'[u]} {:trigger size'[u]} :: 0 <= u < |ptr| ==>
                  var from := if dst <= u < dst + i then src + (u - dst) else u;
                  ptr'[u] == ptr[from] && size'[u] == size[from]
    {
      ptr', size', i := ptr'[dst + i := ptr'[src + i]], size'[dst + i := size'[src + i]], i + 1;
    }
  }

  /** realloc's three steps leave the other blocks alone. */
  lemma KeptChain(ptr: seq<nat>, size: seq<nat>, ptr1: seq<nat>, size1: seq<nat>, ptr2: seq<nat>, size2: seq<nat>,
                  ptr3: seq<nat>, size3: seq<nat>, live: map<nat, nat>, bp: nat, np: nat, n: nat)
    requires bp in live && np !in live
    requires Kept(ptr, size, ptr1, size1, live) && Kept(ptr1, size1, ptr2, size2, live[np := n] - {np})
    requires Kept(ptr2, size2, ptr3, size3, live[np := n] - {bp})
    ensures Kept(ptr, size, ptr3, size3, live - {bp})
  {
    forall a | a in live && a != bp
      ensures SameUnits(ptr, size, ptr3, size3, a, live[a])
    {
      assert a in live[np := n] - {np} && a in live[np := n] - {bp};
      assert SameUnits(ptr, size, ptr1, size1, a, live[a]) && SameUnits(ptr1, size1, ptr2, size2, a, live[a])
             && SameUnits(ptr2, size2, ptr3, size3, a, live[a]);
    }
  }

  /** realloc's copy reaches the caller as malloc found it and free left it. */
  lemma PayloadChain(ptr: seq<nat>, size: seq<nat>, ptr1: seq<nat>, size1: seq<nat>, ptr2: seq<nat>, size2: seq<nat>,
                     ptr3: seq<nat>, size3: seq<nat>, bp: nat, n: nat, np: nat, m: nat)
    requires SameUnits(ptr, size, ptr1, size1, bp, n) && SameUnits(ptr2, size2, ptr3, size3, np, m) && |ptr1| == |ptr2|
    requires SamePayload(ptr1, size1, bp + 1, ptr2, size2, np + 1, n) && 0 < n <= m && np + m <= |ptr2|
    ensures SamePayload(ptr, size, bp + 1, ptr3, size3, np + 1, n)
  {
    forall u | bp + 1 <= u < bp + n
      ensures ptr3[np + 1 + (u - bp - 1)] == ptr[u] && size3[np + 1 + (u - bp - 1)] == size[u]
    {
      assert ptr2[np + 1 + (u - bp - 1)] == ptr1[u];
    }
  }

  lemma KeptOne(ptr: seq<nat>, size: seq<nat>, ptr': seq<nat>, size': seq<nat>, live: map<nat, nat>, a: nat)
    requires Kept(ptr, size, ptr', size', live) && a in live
    ensures |ptr'| == |ptr| == |size'| == |size| && SameUnits(ptr, size, ptr', size', a, live[a])
  {
  }

  lemma Moved(ptr: seq<nat>, size: seq<nat>, ptr': seq<nat>, size': seq<nat>, dst: nat, src: nat, n: nat)
    requires n > 0 && Overlaid(ptr, size, ptr', size', dst, src, n - 1)
    ensures |ptr'| == |ptr| == |size'|
    ensures forall u {:trigger ptr'[u]} {:trigger size'[u]} ::
      0 <= u < |ptr| && !(dst <= u < dst + (n - 1)) ==> ptr'[u] == ptr[u] && size'[u] == size[u]
    ensures SamePayload(ptr, size, src, ptr', size', dst, n)
  {
  }

  class Heap {
    var ptr: seq<nat>
    var size: seq<nat>
    var freep: nat
    /** The first unit past the heap: sbrk's break. */
    var brk: nat

    /** The free list, and where freep is on it; empty before the first malloc. */
    ghost var list: seq<Blk>
    ghost var cur: nat
    /** The blocks in use: header address to units. */
    ghost var live: map<nat, nat>
    /** Units sbrk has granted. */
    ghost var obtained: nat

    ghost predicate Valid()
      reads this
    {
      && |ptr| == |size| && BASE < brk <= |ptr|
      && Units(list) + LiveUnits(live) == obtained
      && (freep == NULL ==> list == [] && live == map[])
      && (freep != NULL ==>
        && Sorted(list) && Holds(ptr, size, list, -1) && Disjoint(list, live, brk)
        && cur < |list| && freep == list[cur].at
        && (forall a :: a in live ==> size[a] == live[a]))
    }

    /** A program's memory before its first malloc; limit bounds what sbrk can grant. */
    constructor (limit: nat, start: nat)
      requires BASE < start <= limit
      ensures Valid() && list == [] && live == map[] && brk == start && |ptr| == limit && freep == NULL
    {
      ptr, size, freep, brk := Zeros(limit), Zeros(limit), NULL, start;
      list, cur, live, obtained := [], 0, map[], 0;
    }

    lemma FreeFacts(bp: nat)
      requires Valid() && bp in live
      ensures freep != NULL && BASE < bp && 0 < live[bp] && bp + live[bp] <= brk
      ensures Clear(list, Blk(bp, live[bp])) && Stored(ptr, size, Blk(bp, live[bp]))
      ensures forall i :: 0 <= i < |list| ==> list[i].at != bp
    {
      forall i | 0 <= i < |list|
        ensures list[i].at != bp
      {
        assert Apart(list[i], Blk(bp, live[bp]));
      }
    }

    /** free's search from freep for the place of block bp, across the wrap of the cycle. */
    method FindPlace(bp: nat, ghost k: nat) returns (p: nat)
      requires Valid() && freep != NULL && BASE < bp && k < |list| && Gap(list, bp, k)
      ensures p == list[k].at
    {
      hide Sorted, Disjoint, Units, LiveUnits, Gap;
      p := freep;
      ghost var i: nat := cur;
      SearchStep(list, bp, k, i);
      assert Points(ptr, list, i);
      while !(bp > p && bp < ptr[p])
        invariant i < |list| && p == list[i].at && p < |ptr| && ptr[p] == Next(list, i)
        invariant i == k <==> (bp > p && bp < ptr[p]) || (p >= ptr[p] && (bp > p || bp < ptr[p]))
        decreases if i <= k then k - i else |list| - i + k
      {
        if p >= ptr[p] && (bp > p || bp < ptr[p]) {
          break;
        }
        p := ptr[p];
        i := if i + 1 < |list| then i + 1 else 0;
        SearchStep(list, bp, k, i);
        assert Points(ptr, list, i);
      }
    }

    /** free: block ap - 1 joins the list in the one gap where its address belongs. */
    method Free(ap: nat) returns (ghost k: nat)
      requires Valid() && 0 < ap && ap - 1 in live
      modifies this`ptr, this`size, this`freep, this`list, this`cur, this`live
      ensures Valid() && freep != NULL
      ensures Gap(old(list), ap - 1, k) && list == Insert(old(list), k, Blk(ap - 1, old(live)[ap - 1])) && cur == k
      ensures live == old(live) - {ap - 1}
      ensures Kept(old(ptr), old(size), ptr, size, live)
    {
      hide Sorted, Holds, Disjoint, Units, LiveUnits, SameUnits, Insert, Clear, Stored, Gap;
      var bp := ap - 1;
      FreeFacts(bp);
      k := FindGap(list, bp);
      var p := FindPlace(bp, k);
      var ptr', size' := Linked(ptr, size, bp, p, list, k);
      Freed(bp, p, k, ptr', size');
      list, live, cur, freep := Insert(list, k, Blk(bp, live[bp])), live - {bp}, k, p;
      ptr, size := ptr', size';
    }

    /** morecore: at least 4096 units from sbrk, freed into the list. */
    method Morecore(nu: nat) returns (p: nat, ghost k: nat)
      requires Valid() && freep != NULL && nu > 0
      modifies this
      ensures Valid() && |ptr| == |old(ptr)| && live == old(live) && freep != NULL
      ensures p == NULL <==> |ptr| < old(brk) + Request(nu)
      ensures p == NULL ==>
          ptr == old(ptr) && size == old(size) && list == old(list) && cur == old(cur) && freep == old(freep)
                            && brk == old(brk) && obtained == old(obtained)
      ensures p != NULL ==> brk == old(brk) + Request(nu) && obtained == old(obtained) + Request(nu) && p == freep
      ensures p != NULL ==>
        && brk - old(brk) == obtained - old(obtained) >= 4096 && brk - old(brk) >= nu
        && (brk - old(brk) == 4096 || brk - old(brk) == nu)
      ensures |ptr| < old(brk) + nu || |ptr| < old(brk) + 4096 ==> p == NULL
      ensures |ptr| >= old(brk) + nu && |ptr| >= old(brk) + 4096 ==> p != NULL
      ensures p != NULL ==>
          Gap(old(list), old(brk), k) && list == Insert(old(list), k, Blk(old(brk), Request(nu))) && cur == k
      ensures Kept(old(ptr), old(size), ptr, size, old(live))
    {
      hide Sorted, Holds, Disjoint, Units, LiveUnits, SameUnits, Insert, Clear, Stored, Gap;
      var n := Request(nu);
      if |ptr| < brk + n {
        KeptStart(ptr, size, ptr, size, live);
        return NULL, 0;
      }
      var hp := brk;
      Granted(ptr, size, list, live, brk, n);
      LiveUnitsWith(live, hp, n);
      brk, size, live, obtained := brk + n, size[hp := n], live[hp := n], obtained + n;
      k := Free(hp + 1);
      assert old(live)[hp := n] - {hp} == old(live);
      KeptTrans(old(ptr), old(size), old(ptr), old(size)[hp := n], ptr, size, old(live));
      p := freep;
    }

    /** malloc's loop: round the list from freep, and once more after a successful morecore. */
    method Search(nunits: nat) returns (prevp: nat, p: nat, ghost j: nat)
      requires Valid() && freep != NULL && nunits > 0
      modifies this
      ensures Valid() && freep != NULL && live == old(live) && Kept(old(ptr), old(size), ptr, size, live)
      ensures p == NULL <==> !Fits(old(list), nunits) && |ptr| < old(brk) + Request(nunits)
      ensures var more := if Fits(old(list), nunits) || p == NULL then 0 else Request(nunits);
              brk == old(brk) + more && obtained == old(obtained) + more
      ensures p == NULL || Fits(old(list), nunits) ==> list == old(list) && cur == old(cur)
      ensures p != NULL ==> FirstFit(list, cur, j, nunits) && p == list[j].at && prevp == list[j - 1].at
    {
      hide Sorted, Holds, Disjoint, Units, LiveUnits, SameUnits, Insert, Clear, Stored, Kept,
        NoneYet, FirstFit, Fits, Left;
      KeptStart(ptr, size, ptr, size, live);
      HoldsAt(ptr, size, list, -1, cur);
      SearchStart(list, cur, nunits);
      prevp, p, j := freep, ptr[freep], Succ(list, cur);
      ghost var grown := false;
      while true
        invariant Valid() && freep != NULL && live == old(live) && Kept(old(ptr), old(size), ptr, size, live)
        invariant j < |list| && p == list[j].at && prevp == list[Pred(list, j)].at
        invariant NoneYet(list, cur, j, nunits)
        invariant if grown then Fits(list, nunits) && !Fits(old(list), nunits) else list == old(list) && cur == old(cur)
        invariant var more := if grown then Request(nunits) else 0;
                  brk == old(brk) + more && obtained == old(obtained) + more
        invariant |ptr| == |old(ptr)| && (grown ==> brk <= |ptr|)
        decreases !grown, Left(list, cur, j)
      {
        HoldsAt(ptr, size, list, -1, j);
        if size[p] >= nunits {
          Found(list, cur, j, nunits);
          return;
        }
        if p == freep {
          NoneFits(list, cur, j, nunits);
          ghost var ptr1, size1, list1 := ptr, size, list;
          var q, k := Morecore(nunits);
          KeptTrans(old(ptr), old(size), ptr1, size1, ptr, size, live);
          if q == NULL {
            p := NULL;
            return;
          }
          InsertMakesFit(list1, k, Blk(old(brk), Request(nunits)), nunits);
          grown, p, j := true, q, cur;
          HoldsAt(ptr, size, list, -1, j);
          SearchStart(list, cur, nunits);
        } else {
          SearchOn(list, cur, j, nunits);
        }
        prevp := p;
        p := ptr[p];
        j := Succ(list, j);
      }
    }

    /** malloc's success: n units of element j leave the list. */
    method Take(prevp: nat, p: nat, n: nat, ghost j: nat) returns (q: nat)
      requires Valid() && freep != NULL && n > 0
      requires 0 < j < |list| && n <= list[j].units && p == list[j].at && prevp == list[j - 1].at
      modifies this`ptr, this`size, this`freep, this`list, this`cur, this`live
      ensures Valid() && Kept(old(ptr), old(size), ptr, size, old(live))
      ensures q !in old(live) && q == Cut(old(list), j, n).at && live == old(live)[q := n]
      ensures list == Taken(old(list), j, n) && cur == j - 1
    {
      hide Sorted, Holds, Disjoint, Units, LiveUnits, SameUnits, Stored, Taken, Kept;
      TakenSorted(list, j, n);
      TakenClear(list, live, brk, j, n);
      TakenUnits(list, j, n);
      TakenBefore(list, j, n);
      LiveUnitsWith(live, Cut(list, j, n).at, n);
      var ptr', size';
      ptr', size', q := Carve(ptr, size, prevp, p, n, list, live, brk, j);
      KeptSizes(ptr, size, ptr', size', live, brk, list);
      Header(list, j - 1);
      list, live, cur, freep := Taken(list, j, n), live[q := n], j - 1, prevp;
      ptr, size := ptr', size';
    }

    /** malloc: the first free block after freep that is big enough, whole or its upper end. */
    method Malloc(nbytes: nat) returns (r: nat, ghost j: nat)
      requires Valid() && nbytes < MAX_BYTES
      modifies this
      ensures Valid() && |ptr| == |old(ptr)|
      ensures r == NULL <==> !Fits(old(list), UnitsFor(nbytes)) && |ptr| < old(brk) + Request(UnitsFor(nbytes))
      ensures var more := if Fits(old(list), UnitsFor(nbytes)) || r == NULL then 0 else Request(UnitsFor(nbytes));
              brk == old(brk) + more && obtained == old(obtained) + more
      ensures forall i :: 0 <= i < |old(list)| && old(list)[i].units >= UnitsFor(nbytes) ==>
                r != NULL && brk == old(brk) && obtained == old(obtained)
      ensures r == NULL ==> live == old(live) && list == if old(freep) == NULL then [Blk(BASE, 0)] else old(list)
      ensures r != NULL ==> r - 1 !in old(live) && live == old(live)[r - 1 := UnitsFor(nbytes)]
      ensures Fits(old(list), UnitsFor(nbytes)) ==>
                FirstFit(old(list), old(cur), j, UnitsFor(nbytes)) && list == Taken(old(list), j, UnitsFor(nbytes))
                && r - 1 == Cut(old(list), j, UnitsFor(nbytes)).at && cur == j - 1
      ensures Fits(old(list), UnitsFor(nbytes)) ==>
                r - 1 == old(list)[j].at + old(list)[j].units - UnitsFor(nbytes)
      ensures r != NULL && !Fits(old(list), UnitsFor(nbytes)) ==>
        var grant := brk - old(brk);
        && grant == obtained - old(obtained) && grant >= 4096 && grant >= UnitsFor(nbytes)
        && (grant == 4096 || grant == UnitsFor(nbytes))
      ensures r != NULL ==> Units(list) + UnitsFor(nbytes) == Units(old(list)) + (obtained - old(obtained))
      ensures Kept(old(ptr), old(size), ptr, size, old(live))
    {
      hide Sorted, Holds, Disjoint, Units, LiveUnits, SameUnits, Taken, Kept, UnitsFor;
      var nunits := UnitsFor(nbytes);
      if freep == NULL {
        FirstList(ptr, size, brk);
        freep := BASE;
        ptr, size := ptr[BASE := BASE], size[BASE := 0];
        list, cur := [Blk(BASE, 0)], 0;
      }
      KeptStart(old(ptr), old(size), ptr, size, live);
      var prevp, p;
      ghost var ptr0, size0 := ptr, size;
      prevp, p, j := Search(nunits);
      KeptTrans(old(ptr), old(size), ptr0, size0, ptr, size, live);
      if p == NULL {
        return NULL, 0;
      }
      ghost var ptr1, size1 := ptr, size;
      p := Take(prevp, p, nunits, j);
      KeptTrans(old(ptr), old(size), ptr1, size1, ptr, size, old(live));
      LiveUnitsWith(old(live), p, nunits);
      r := p + 1;
    }

    /** realloc: the block itself when it is big enough, else a bigger one with the same payload. */
    method Realloc(ap: nat, nbytes: nat) returns (r: nat)
      requires Valid() && 0 < ap && ap - 1 in live && nbytes < MAX_BYTES
      modifies this
      ensures Valid()
      ensures old(live)[ap - 1] >= UnitsFor(nbytes) ==>
          r == ap && ptr == old(ptr) && size == old(size) && live == old(live)
      ensures r == NULL <==> old(live)[ap - 1] < UnitsFor(nbytes) && !Fits(old(list), UnitsFor(nbytes))
                             && |ptr| < old(brk) + Request(UnitsFor(nbytes))
      ensures r == NULL ==> live == old(live) && Kept(old(ptr), old(size), ptr, size, live)
      ensures r != NULL && r != ap ==> r - 1 !in old(live) && live == (old(live) - {ap - 1})[r - 1 := UnitsFor(nbytes)]
                                       && Kept(old(ptr), old(size), ptr, size, old(live) - {ap - 1})
      ensures r != NULL ==> SamePayload(old(ptr), old(size), ap, ptr, size, r, old(live)[ap - 1])
    {
      hide Sorted, Holds, Disjoint, Units, LiveUnits, SameUnits, Taken, Kept, UnitsFor, SamePayload, Cut, FirstFit,
          Insert, Gap;
      var bp, nunits := ap - 1, UnitsFor(nbytes);
      ghost var n := live[bp];
      FreeFacts(bp);
      if size[bp] >= nunits {
        SameRefl(ptr, size, ap, n);
        return ap;
      }
      ghost var j;
      r, j := Malloc(nbytes);
      if r == NULL {
        return;
      }
      ghost var ptr1, size1, live1 := ptr, size, live;
      CopyPayload(r, ap);
      ghost var ptr2, size2 := ptr, size;
      hide Fits;
      ghost var k := Free(ap);
      assert live1 - {bp} == (old(live) - {bp})[r - 1 := nunits];
      KeptChain(old(ptr), old(size), ptr1, size1, ptr2, size2, ptr, size, old(live), bp, r - 1, nunits);
      KeptOne(old(ptr), old(size), ptr1, size1, old(live), bp);
      KeptOne(ptr2, size2, ptr, size, live, r - 1);
      PayloadChain(old(ptr), old(size), ptr1, size1, ptr2, size2, ptr, size, bp, n, r - 1, nunits);
    }

    /** realloc's memmove into the new block. */
    method CopyPayload(np: nat, ap: nat)
      requires Valid() && 0 < ap && 0 < np && ap - 1 in live && np - 1 in live && np != ap
      requires live[ap - 1] <= live[np - 1]
      modifies this`ptr, this`size
      ensures Valid() && Kept(old(ptr), old(size), ptr, size, live - {np - 1})
      ensures |ptr| == |old(ptr)| && np - 1 + live[np - 1] <= |ptr|
      ensures SamePayload(old(ptr), old(size), ap, ptr, size, np, live[ap - 1])
    {
      hide Sorted, Holds, Disjoint, Units, LiveUnits, SameUnits, Kept, SamePayload, Clear, Stored, Overlaid;
      FreeFacts(np - 1);
      FreeFacts(ap - 1);
      LiveApart(np - 1, ap - 1);
      var ptr', size' := Memmove(ptr, size, np, ap, size[ap - 1] - 1);
      Moved(ptr, size, ptr', size', np, ap, live[ap - 1]);
      Scribble(np - 1, ptr', size');
      ptr, size := ptr', size';
    }

    /** A program's own write into its block's payload. */
    method Poke(a: nat, u: nat, x: nat, y: nat)
      requires Valid() && a in live && a < u < a + live[a]
      modifies this`ptr, this`size
      ensures Valid() && Kept(old(ptr), old(size), ptr, size, live - {a})
      ensures u < |old(ptr)| && ptr == old(ptr)[u := x] && size == old(size)[u := y]
    {
      hide Sorted, Holds, Disjoint, Units, LiveUnits, SameUnits, Kept;
      FreeFacts(a);
      Scribble(a, ptr[u := x], size[u := y]);
      ptr, size := ptr[u := x], size[u := y];
    }

    lemma LiveApart(a: nat, b: nat)
      requires Valid() && a in live && b in live && a != b
      ensures Apart(Blk(a, live[a]), Blk(b, live[b]))
    {
      FreeFacts(a);
    }

    /** Writes inside one live block disturb neither the list nor another block. */
    lemma Scribble(a: nat, ptr': seq<nat>, size': seq<nat>)
      requires Valid() && a in live && |ptr'| == |ptr| == |size'|
      requires forall u {:trigger ptr'[u]} {:trigger size'[u]} ::
                 0 <= u < |ptr| && !(a < u < a + live[a]) ==> ptr'[u] == ptr[u] && size'[u] == size[u]
      ensures Holds(ptr', size', list, -1) && Kept(ptr, size, ptr', size', live - {a})
      ensures forall b :: b in live ==> size'[b] == live[b]
    {
      hide Sorted, Holds, Units, LiveUnits;
      FreeFacts(a);
      forall i | 0 <= i < |list|
        ensures list[i].at < |ptr| && !(a < list[i].at < a + live[a])
      {
        HoldsAt(ptr, size, list, -1, i);
        Outside(list, live, brk, i, list[i].at, a);
      }
      HoldsFrame(ptr, size, list, ptr', size');
      forall b | b in live && b != a
        ensures SameUnits(ptr, size, ptr', size', b, live[b]) && b < |ptr| && size'[b] == live[b]
      {
        FreeFacts(b);
        assert Apart(Blk(a, live[a]), Blk(b, live[b]));
      }
    }

    /** Freeing bp into gap k: the invariant of the heap that results. */
    lemma Freed(bp: nat, p: nat, k: nat, ptr': seq<nat>, size': seq<nat>)
      requires Valid() && bp in live && Gap(list, bp, k) && k < |list| && p == list[k].at
      requires |ptr'| == |ptr| == |size| == |size'|
      requires forall u {:trigger ptr'[u]} {:trigger size'[u]} ::
                 0 <= u < |ptr| && u != bp && u != p ==> ptr'[u] == ptr[u] && size'[u] == size[u]
      ensures var list', live' := Insert(list, k, Blk(bp, live[bp])), live - {bp};
        && Units(list') + LiveUnits(live') == obtained
        && Sorted(list') && Disjoint(list', live', brk)
        && k < |list'| && p == list'[k].at && p != NULL
        && Kept(ptr, size, ptr', size', live') && (forall a :: a in live' ==> size'[a] == live'[a])
    {
      hide Sorted, Holds, Disjoint, Units, LiveUnits, SameUnits, Insert, Clear, Stored, Gap;
      ghost var b := Blk(bp, live[bp]);
      FreeFacts(bp);
      InsertSorted(list, k, b);
      InsertDisjoint(list, live, brk, k, bp);
      InsertUnits(list, k, b);
      LiveUnitsWithout(live, bp);
      HeadersOnly(ptr, size, ptr', size', list, live, brk, bp, k);
      forall a | a in live && a != bp
        ensures a < |ptr| && size'[a] == live[a]
      {
        FreeFacts(a);
        SameUnitsHeader(ptr, size, ptr', size', a, live[a]);
      }
      InsertFits(list, k, b);
      Header(list, k);
    }
  }

  /** free's two tests: the new block swallows or points at the one above, and the one below
      swallows or points at it. */
  method Linked(ptr: seq<nat>, size: seq<nat>, bp: nat, p: nat, ghost list: seq<Blk>, ghost k: nat)
    returns (ptr': seq<nat>, size': seq<nat>)
    requires Sorted(list) && Holds(ptr, size, list, -1) && BASE < bp && Gap(list, bp, k) && p == list[k].at
    requires bp < |ptr| == |size| && size[bp] > 0 && Clear(list, Blk(bp, size[bp]))
    ensures Holds(ptr', size', Insert(list, k, Blk(bp, size[bp])), -1)
    ensures |ptr'| == |ptr| && |size'| == |size|
    ensures forall u {:trigger ptr'[u]} {:trigger size'[u]} ::
              0 <= u < |ptr| && u != bp && u != p ==> ptr'[u] == ptr[u] && size'[u] == size[u]
  {
    hide Holds, Clear, Nearly;
    ghost var b := Blk(bp, size[bp]);
    ptr', size' := ptr, size;
    ghost var l1 := Inserted(list, k, b);
    ghost var l2 := JoinIf(l1, k + 1);
    assert p < |ptr| && ptr[p] == Next(list, k) by { HoldsAt(ptr, size, list, -1, k); }
    InsertedNearly(list, k, b);
    JoinNearly(l1, k, k + 1);
    if bp + size'[bp] == ptr'[p] {
      assert Touch(l1, k + 1);
      HoldsJoined(ptr, size, list, k, b);
      size' := size'[bp := size'[bp] + size'[ptr'[p]]];
      ptr' := ptr'[bp := ptr'[ptr'[p]]];
    } else {
      HoldsInserted(ptr, size, list, k, b);
      ptr' := ptr'[bp := ptr'[p]];
    }
    assert Holds(ptr', size', l2, k);
    HoldsBelow(ptr', size', l2, k);
    assert size'[p] == l2[k].units by { HoldsAt(ptr', size', l2, k, k); }
    if p + size'[p] == bp {
      size' := size'[p := size'[p] + size'[bp]];
      ptr' := ptr'[p := ptr'[bp]];
    } else {
      ptr' := ptr'[p := bp];
    }
  }

  function Zeros(n: nat): (s: seq<nat>)
    ensures |s| == n
  {
    if n == 0 then [] else Zeros(n - 1) + [0]
  }
}
