/** The allocator's free list as intervals of header-sized units: what one free or one split does
    to it, apart from the pointers that represent it. */
module FreeList {

  /** Unit 0 is the null pointer, unit 1 the static header `base`; the heap starts above it. */
  const NULL := 0
  const BASE := 1

  datatype Blk = Blk(at: nat, units: nat) {
    function End(): nat { at + units }
  }

  /** Element i ends below element i + 1, with a gap. */
  predicate Strict(list: seq<Blk>, i: nat) {
    i + 1 < |list| ==> list[i].End() < list[i + 1].at
  }

  /** base first, then the free blocks by address; no two touch. */
  ghost predicate Sorted(list: seq<Blk>) {
    && |list| > 0 && list[0] == Blk(BASE, 0)
    && (forall i :: 0 < i < |list| ==> list[i].units > 0)
    && (forall i: nat {:trigger Strict(list, i)} :: Strict(list, i))
  }

  lemma {:induction false} SortedOrder(list: seq<Blk>, i: nat, j: nat)
    requires Sorted(list) && i < j < |list|
    ensures list[i].End() < list[j].at
  {
    assert Strict(list, j - 1);
    if i + 1 < j {
      SortedOrder(list, i, j - 1);
    }
  }

  predicate Apart(a: Blk, b: Blk) {
    a.End() <= b.at || b.End() <= a.at
  }

  /** Live blocks, by header address, touch no free block's units and no other live block's. */
  ghost predicate Disjoint(list: seq<Blk>, live: map<nat, nat>, brk: nat) {
    && (forall a :: a in live ==> BASE < a && 0 < live[a] && a + live[a] <= brk)
    && (forall i :: 0 <= i < |list| ==> list[i].End() <= brk)
    && (forall a :: a in live ==> Clear(list, Blk(a, live[a])))
    && (forall a, b :: a in live && b in live && a != b ==> Apart(Blk(a, live[a]), Blk(b, live[b])))
  }

  // ---- where a freed block goes ----

  /** The gap behind element k is where address a belongs. */
  predicate Gap(list: seq<Blk>, a: nat, k: nat) {
    k < |list| && list[k].at < a && (k + 1 < |list| ==> a < list[k + 1].at)
  }

  lemma {:induction false} FindGap(list: seq<Blk>, a: nat) returns (k: nat)
    requires Sorted(list) && BASE < a && forall i :: 0 <= i < |list| ==> list[i].at != a
    ensures Gap(list, a, k)
  {
    k := 0;
    while k + 1 < |list| && list[k + 1].at < a
      invariant k < |list| && list[k].at < a
    {
      k := k + 1;
    }
  }

  lemma GapUnique(list: seq<Blk>, a: nat, k: nat, j: nat)
    requires Sorted(list) && Gap(list, a, k) && Gap(list, a, j)
    ensures j == k
  {
    if j < k { SortedOrder2(list, j + 1, k); }
    if k < j { SortedOrder2(list, k + 1, j); }
  }

  lemma SortedOrder2(list: seq<Blk>, i: nat, j: nat)
    requires Sorted(list) && i <= j < |list|
    ensures list[i].at <= list[j].at
  {
    if i < j { SortedOrder(list, i, j); }
  }

  // ---- free, in two steps: insert, then join what touches ----

  function Inserted(list: seq<Blk>, k: nat, b: Blk): (r: seq<Blk>)
    requires k < |list|
    ensures |r| == |list| + 1
    ensures forall i :: 0 <= i < |r| ==> r[i] == if i <= k then list[i] else if i == k + 1 then b else list[i - 1]
  {
    list[..k + 1] + [b] + list[k + 1..]
  }

  predicate Touch(list: seq<Blk>, i: nat) {
    i + 1 < |list| && list[i].End() == list[i + 1].at
  }

  /** Elements i and i + 1 as one block. */
  function Joined(list: seq<Blk>, i: nat): (r: seq<Blk>)
    requires i + 1 < |list|
    ensures |r| == |list| - 1
    ensures forall j :: 0 <= j < |r| ==>
      r[j] == if j < i then list[j] else if j == i then Blk(list[i].at, list[i].units + list[i + 1].units)
          else list[j + 1]
  {
    list[..i] + [Blk(list[i].at, list[i].units + list[i + 1].units)] + list[i + 2..]
  }

  function JoinIf(list: seq<Blk>, i: nat): seq<Blk> {
    if Touch(list, i) then Joined(list, i) else list
  }

  /** The list after freeing b into gap k. */
  function Insert(list: seq<Blk>, k: nat, b: Blk): seq<Blk>
    requires k < |list|
  {
    JoinIf(JoinIf(Inserted(list, k, b), k + 1), k)
  }

  /** Like Strict, but the elements may touch. */
  predicate Weak(list: seq<Blk>, i: nat) {
    i + 1 < |list| ==> list[i].End() <= list[i + 1].at && list[i].at < list[i + 1].at
  }

  /** Like Sorted, but elements lo to hi may touch their successors. */
  ghost predicate Nearly(list: seq<Blk>, lo: nat, hi: nat) {
    && |list| > 0 && list[0] == Blk(BASE, 0)
    && (forall i :: 0 < i < |list| ==> list[i].units > 0)
    && (forall i: nat {:trigger Weak(list, i)} :: Weak(list, i))
    && (forall i: nat {:trigger Strict(list, i)} :: !(lo <= i < hi) ==> Strict(list, i))
  }

  lemma InsertedNearly(list: seq<Blk>, k: nat, b: Blk)
    requires Sorted(list) && Gap(list, b.at, k) && b.units > 0
    requires Clear(list, b)
    ensures Nearly(Inserted(list, k, b), k, k + 2)
  {
    var r := Inserted(list, k, b);
    assert Apart(list[k], b) && (k + 1 < |list| ==> Apart(list[k + 1], b));
    forall i: nat
      ensures Weak(r, i) && (!(k <= i < k + 2) ==> Strict(r, i))
    {
      assert Strict(list, i) && (i > 0 ==> Strict(list, i - 1));
    }
  }

  /** Joining element i to its successor when they touch. */
  lemma JoinNearly(list: seq<Blk>, lo: nat, i: nat)
    requires Nearly(list, lo, i + 1) && lo <= i
    ensures Nearly(JoinIf(list, i), lo, i)
  {
    assert Weak(list, 0) && Weak(list, i);
    var r := JoinIf(list, i);
    forall j: nat
      ensures Weak(r, j) && (!(lo <= j < i) ==> Strict(r, j))
    {
      assert Weak(list, j) && Weak(list, j + 1);
      if j > i || !Touch(list, i) {
        assert !(lo <= j < i + 1) ==> Strict(list, j);
        assert !(lo <= j + 1 < i + 1) ==> Strict(list, j + 1);
      } else if j == i {
        assert Strict(list, i + 1);
      } else {
        assert !(lo <= j < i + 1) ==> Strict(list, j);
      }
    }
  }

  lemma InsertSorted(list: seq<Blk>, k: nat, b: Blk)
    requires Sorted(list) && Gap(list, b.at, k) && b.units > 0
    requires Clear(list, b)
    ensures Sorted(Insert(list, k, b))
  {
    InsertedNearly(list, k, b);
    JoinNearly(Inserted(list, k, b), k, k + 1);
    JoinNearly(JoinIf(Inserted(list, k, b), k + 1), k, k);
  }

  // ---- no unit is lost, and none is shared with a live block ----

  function Units(list: seq<Blk>): nat {
    if list == [] then 0 else list[0].units + Units(list[1..])
  }

  lemma {:induction false} InsertedUnits(list: seq<Blk>, k: nat, b: Blk)
    requires k < |list|
    ensures Units(Inserted(list, k, b)) == Units(list) + b.units
  {
    if k == 0 {
      assert Inserted(list, k, b)[1..] == [b] + list[1..];
      assert ([b] + list[1..])[1..] == list[1..];
    } else {
      InsertedUnits(list[1..], k - 1, b);
      assert Inserted(list, k, b)[1..] == Inserted(list[1..], k - 1, b);
    }
  }

  lemma {:induction false} JoinedUnits(list: seq<Blk>, i: nat)
    requires i + 1 < |list|
    ensures Units(Joined(list, i)) == Units(list)
  {
    if i == 0 {
      assert Joined(list, 0)[1..] == list[2..] == list[1..][1..];
    } else {
      JoinedUnits(list[1..], i - 1);
      assert Joined(list, i)[1..] == Joined(list[1..], i - 1);
    }
  }

  lemma InsertUnits(list: seq<Blk>, k: nat, b: Blk)
    requires k < |list|
    ensures Units(Insert(list, k, b)) == Units(list) + b.units
  {
    var l1 := Inserted(list, k, b);
    InsertedUnits(list, k, b);
    if Touch(l1, k + 1) { JoinedUnits(l1, k + 1); }
    var l2 := JoinIf(l1, k + 1);
    if Touch(l2, k) { JoinedUnits(l2, k); }
  }

  /** No free block shares a unit with block x. */
  ghost predicate Clear(list: seq<Blk>, x: Blk) {
    forall i :: 0 <= i < |list| ==> Apart(list[i], x)
  }

  lemma InsertClear(list: seq<Blk>, k: nat, b: Blk, x: Blk)
    requires k < |list| && Clear(list, x) && Apart(b, x) && x.units > 0
    ensures Clear(Insert(list, k, b), x)
  {
    assert Clear(Inserted(list, k, b), x);
    JoinClear(Inserted(list, k, b), k + 1, x);
    JoinClear(JoinIf(Inserted(list, k, b), k + 1), k, x);
  }

  lemma JoinClear(list: seq<Blk>, i: nat, x: Blk)
    requires Clear(list, x) && x.units > 0
    ensures Clear(JoinIf(list, i), x)
  {
    if Touch(list, i) {
      assert Apart(list[i], x) && Apart(list[i + 1], x);
    }
  }

  /** The freed units end up in element k or k + 1. */
  lemma InsertFits(list: seq<Blk>, k: nat, b: Blk)
    requires k < |list|
    ensures var r := Insert(list, k, b);
      && k < |r| && r[k].at == list[k].at
      && (r[k].units >= b.units || (k + 1 < |r| && r[k + 1].units >= b.units))
  {
  }

  // ---- malloc: take a whole block, or the tail of one ----

  function Removed(list: seq<Blk>, i: nat): (r: seq<Blk>)
    requires i < |list|
    ensures |r| == |list| - 1 && forall j :: 0 <= j < |r| ==> r[j] == list[if j < i then j else j + 1]
  {
    list[..i] + list[i + 1..]
  }

  function Shrunk(list: seq<Blk>, i: nat, n: nat): (r: seq<Blk>)
    requires i < |list| && n <= list[i].units
  {
    list[i := Blk(list[i].at, list[i].units - n)]
  }

  /** The list after malloc took n units from element i. */
  function Taken(list: seq<Blk>, i: nat, n: nat): seq<Blk>
    requires i < |list| && n <= list[i].units
  {
    if list[i].units == n then Removed(list, i) else Shrunk(list, i, n)
  }

  /** The units malloc takes: all of element i, or its upper end. */
  function Cut(list: seq<Blk>, i: nat, n: nat): Blk
    requires i < |list| && n <= list[i].units
  {
    Blk(list[i].End() - n, n)
  }

  lemma TakenSorted(list: seq<Blk>, i: nat, n: nat)
    requires Sorted(list) && 0 < i < |list| && 0 < n <= list[i].units
    ensures Sorted(Taken(list, i, n))
  {
    var r := Taken(list, i, n);
    forall j: nat
      ensures Strict(r, j)
    {
      assert Strict(list, j) && Strict(list, j + 1);
    }
  }

  /** What malloc takes is no longer in the list and was in no live block. */
  lemma TakenClear(list: seq<Blk>, live: map<nat, nat>, brk: nat, i: nat, n: nat)
    requires Sorted(list) && Disjoint(list, live, brk) && 0 < i < |list| && 0 < n <= list[i].units
    ensures var x := Cut(list, i, n);
      && x.at !in live
      && Disjoint(Taken(list, i, n), live[x.at := n], brk)
  {
    var x, r := Cut(list, i, n), Taken(list, i, n);
    forall j | 0 <= j < |list| && j != i
      ensures Apart(list[j], x)
    {
      if j < i { SortedOrder(list, j, i); } else { SortedOrder(list, i, j); }
    }
    SortedOrder(list, 0, i);
    forall a | a in live
      ensures Apart(Blk(a, live[a]), x) && Clear(r, Blk(a, live[a])) && a != x.at
    {
      assert Apart(list[i], Blk(a, live[a]));
    }
    assert Clear(r, x);
  }

  lemma {:induction false} TakenUnits(list: seq<Blk>, i: nat, n: nat)
    requires i < |list| && n <= list[i].units
    ensures Units(Taken(list, i, n)) == Units(list) - n
  {
    var r := Taken(list, i, n);
    if i == 0 {
      assert list[0].units == n ==> r == list[1..];
      assert list[0].units != n ==> r[1..] == list[1..];
    } else {
      TakenUnits(list[1..], i - 1, n);
      assert r[1..] == Taken(list[1..], i - 1, n);
    }
  }

  // ---- live units ----

  ghost function LiveUnits(live: map<nat, nat>): nat {
    if live == map[] then 0 else
      var a :| a in live;
      live[a] + LiveUnits(live - {a})
  }

  lemma {:induction false} LiveUnitsWithout(live: map<nat, nat>, a: nat)
    requires a in live
    ensures LiveUnits(live) == live[a] + LiveUnits(live - {a})
    decreases |live|
  {
    var b :| b in live && LiveUnits(live) == live[b] + LiveUnits(live - {b});
    if a != b {
      LiveUnitsWithout(live - {b}, a);
      LiveUnitsWithout(live - {a}, b);
      assert live - {b} - {a} == live - {a} - {b};
    }
  }

  lemma LiveUnitsWith(live: map<nat, nat>, a: nat, n: nat)
    requires a !in live
    ensures LiveUnits(live[a := n]) == LiveUnits(live) + n
  {
    LiveUnitsWithout(live[a := n], a);
    assert live[a := n] - {a} == live;
  }

  /** A freed block's units join the list and leave the live ones. */
  lemma InsertDisjoint(list: seq<Blk>, live: map<nat, nat>, brk: nat, k: nat, bp: nat)
    requires Disjoint(list, live, brk) && bp in live && k < |list|
    ensures Disjoint(Insert(list, k, Blk(bp, live[bp])), live - {bp}, brk)
  {
    var b := Blk(bp, live[bp]);
    var r := Insert(list, k, b);
    forall a | a in live && a != bp
      ensures Clear(r, Blk(a, live[a]))
    {
      InsertClear(list, k, b, Blk(a, live[a]));
    }
    InsertBelow(list, k, b, brk);
  }

  lemma InsertBelow(list: seq<Blk>, k: nat, b: Blk, brk: nat)
    requires k < |list| && b.End() <= brk && forall i :: 0 <= i < |list| ==> list[i].End() <= brk
    ensures forall i :: 0 <= i < |Insert(list, k, b)| ==> Insert(list, k, b)[i].End() <= brk
  {
    JoinBelow(Inserted(list, k, b), k + 1, brk);
    JoinBelow(JoinIf(Inserted(list, k, b), k + 1), k, brk);
  }

  lemma JoinBelow(list: seq<Blk>, i: nat, brk: nat)
    requires forall j :: 0 <= j < |list| ==> list[j].End() <= brk
    ensures forall j :: 0 <= j < |JoinIf(list, i)| ==> JoinIf(list, i)[j].End() <= brk
  {
  }
}
