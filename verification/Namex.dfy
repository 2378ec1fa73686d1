/** Path names (kernel/fs.c): skipelem's elements, and namex as a walk over directory maps that
    keeps the inode reference counts balanced. */
module Namex {
  import opened Blocks
  import opened FileBlocks
  import opened FileSystem
  import opened Directory

  const SLASH: Byte := 47
  const ROOTINO := 1

  type Dirs = map<nat, map<Name, nat>>

  function SkipSlashes(path: seq<Byte>, i: nat): (j: nat)
    requires i <= |path|
    ensures i <= j <= |path| && (j < |path| ==> path[j] != SLASH) && forall k :: i <= k < j ==> path[k] == SLASH
    decreases |path| - i
  {
    if i < |path| && path[i] == SLASH then SkipSlashes(path, i + 1) else i
  }

  function ElemEnd(path: seq<Byte>, i: nat): (j: nat)
    requires i <= |path|
    ensures i <= j <= |path| && (j < |path| ==> path[j] == SLASH) && forall k :: i <= k < j ==> path[k] != SLASH
    decreases |path| - i
  {
    if i < |path| && path[i] != SLASH then ElemEnd(path, i + 1) else i
  }

  /** The slash-separated elements from position i on, each cut to what a directory keeps. */
  function Elements(path: seq<Byte>, i: nat): seq<Name>
    requires i <= |path|
    decreases |path| - i
  {
    var s := SkipSlashes(path, i);
    if s == |path| then [] else
      var e := ElemEnd(path, s);
      [Short(path[s..e])] + Elements(path, e)
  }

  /** The elements from a position on, when the next one is path[s..e]. */
  lemma ElementsAt(path: seq<Byte>, i: nat, s: nat, e: nat)
    requires i <= |path| && s == SkipSlashes(path, i) && s < |path| && e == ElemEnd(path, s)
    ensures Elements(path, i) == [Short(path[s..e])] + Elements(path, e)
  {
  }

  lemma ElementsNone(path: seq<Byte>, i: nat)
    requires i <= |path|
    ensures Elements(path, i) == [] <==> SkipSlashes(path, i) == |path|
  {
  }

  lemma ElementsSkip(path: seq<Byte>, i: nat)
    requires i <= |path|
    ensures Elements(path, SkipSlashes(path, i)) == Elements(path, i)
  {
    assert SkipSlashes(path, SkipSlashes(path, i)) == SkipSlashes(path, i);
  }

  /** A name between slashes is an element, however many slashes come before it. */
  lemma ElementsSpelled(path: seq<Byte>, i: nat, s: nat, e: nat)
    requires i <= s < e <= |path| && (e == |path| || path[e] == SLASH)
    requires forall k :: i <= k < s ==> path[k] == SLASH
    requires forall k :: s <= k < e ==> path[k] != SLASH
    ensures Elements(path, i) == [Short(path[s..e])] + Elements(path, e)
  {
    SkipExact(path, i, s);
    EndExact(path, s, e);
  }

  lemma {:induction false} SkipExact(path: seq<Byte>, i: nat, s: nat)
    requires i <= s < |path| && path[s] != SLASH && forall k :: i <= k < s ==> path[k] == SLASH
    ensures SkipSlashes(path, i) == s
    decreases s - i
  {
    if i < s {
      SkipExact(path, i + 1, s);
    }
  }

  lemma {:induction false} EndExact(path: seq<Byte>, s: nat, e: nat)
    requires s <= e <= |path| && (e == |path| || path[e] == SLASH) && forall k :: s <= k < e ==> path[k] != SLASH
    ensures ElemEnd(path, s) == e
    decreases e - s
  {
    if s < e {
      EndExact(path, s + 1, e);
    }
  }

  function Slashed(names: seq<Name>): seq<Byte> {
    if names == [] then [] else [SLASH] + names[0] + Slashed(names[1..])
  }

  function Shorts(names: seq<Name>): (r: seq<Name>)
    ensures |r| == |names| && forall i :: 0 <= i < |r| ==> r[i] == Short(names[i])
  {
    if names == [] then [] else [Short(names[0])] + Shorts(names[1..])
  }

  /** The path made of names has them as its elements. */
  lemma {:induction false} ElementsSlashed(path: seq<Byte>, i: nat, names: seq<Name>)
    requires i <= |path| && path[i..] == Slashed(names)
    requires forall n :: n in names ==> n != [] && SLASH !in n
    ensures Elements(path, i) == Shorts(names)
    decreases |names|
  {
    hide Short;
    if names == [] {
      ElementsNone(path, i);
    } else {
      var n, rest := names[0], Slashed(names[1..]);
      var s, e := i + 1, i + 1 + |n|;
      assert path[i..] == [SLASH] + n + rest;
      forall k | 0 <= k < |path| - i
        ensures path[i + k] == ([SLASH] + n + rest)[k]
      {
        assert path[i + k] == path[i..][k];
      }
      assert path[s..e] == n && path[e..] == rest;
      assert n in names;
      forall k | s <= k < e
        ensures path[k] != SLASH
      {
        assert path[k] == n[k - s] && n[k - s] in n;
      }
      assert path[i + 0] == SLASH;
      assert e < |path| ==> path[e] == rest[0];
      ElementsSpelled(path, i, s, e);
      assert forall m :: m in names[1..] ==> m in names;
      ElementsSlashed(path, e, names[1..]);
    }
  }

  /** skipelem: the next element, and where the one after it starts. */
  method Skipelem(path: seq<Byte>, from: nat) returns (found: bool, next: nat, name: Name)
    requires from <= |path| && NoNul(path)
    ensures found <==> Elements(path, from) != []
    ensures found ==>
              && from < next <= |path| && name == Elements(path, from)[0] && NoNul(name) && Short(name) == name
              && Elements(path, next) == Elements(path, from)[1..] && (next == |path| <==> |Elements(path, from)| == 1)
  {
    hide Elements, SkipSlashes, Short, NoNul;
    ElementsNone(path, from);
    name := [];
    next := PastSlashes(path, from);
    if next == |path| {
      return false, next, name;
    }
    var s := next;
    while next < |path| && path[next] != SLASH
      invariant s <= next <= |path| && ElemEnd(path, next) == ElemEnd(path, s)
    {
      next := next + 1;
    }
    name := if next - s >= DIRSIZ then path[s..s + DIRSIZ] else path[s..next];
    ShortName(path, s, next);
    ElementsAt(path, from, s, next);
    ElementsSkip(path, next);
    next := PastSlashes(path, next);
    ElementsNone(path, next);
    PastEnd(path, next);
    found := true;
  }

  /** skipelem's loop over slashes. */
  method PastSlashes(path: seq<Byte>, from: nat) returns (next: nat)
    requires from <= |path|
    ensures next == SkipSlashes(path, from)
  {
    next := from;
    while next < |path| && path[next] == SLASH
      invariant from <= next <= |path| && SkipSlashes(path, next) == SkipSlashes(path, from)
    {
      next := next + 1;
    }
  }

  lemma PastEnd(path: seq<Byte>, i: nat)
    requires i <= |path| && (i < |path| ==> path[i] != SLASH)
    ensures SkipSlashes(path, i) == i
  {
  }

  lemma ShortName(path: seq<Byte>, s: nat, e: nat)
    requires s <= e <= |path| && NoNul(path)
    ensures var name := if e - s >= DIRSIZ then path[s..s + DIRSIZ] else path[s..e];
      name == Short(path[s..e]) && Short(name) == name && NoNul(name)
  {
  }

  // ---- what a path means ----

  /** Follow names from inode ip; 0 when one is missing or its parent is no directory. */
  function Walk(dirs: Dirs, ip: nat, names: seq<Name>): nat
    decreases |names|
  {
    if names == [] then ip
    else if ip !in dirs || names[0] !in dirs[ip] then 0
    else Walk(dirs, dirs[ip][names[0]], names[1..])
  }

  /** The directory that would hold the last name; 0 when there is no such directory or no name. */
  function WalkParent(dirs: Dirs, ip: nat, names: seq<Name>): nat {
    if names == [] then 0 else
      var p := Walk(dirs, ip, names[..|names| - 1]);
      if p in dirs then p else 0
  }

  /** Every binding names an inode of the volume. */
  ghost predicate Closed(dirs: Dirs, n: nat) {
    forall d, k :: d in dirs && k in dirs[d] ==> 0 < dirs[d][k] < n
  }

  /** One turn of namex's loop. */
  lemma WalkStep(dirs: Dirs, ip: nat, names: seq<Name>)
    requires names != [] && 0 !in dirs
    ensures Walk(dirs, ip, []) == ip && WalkParent(dirs, ip, []) == 0
    ensures ip !in dirs ==> Walk(dirs, ip, names) == 0 && WalkParent(dirs, ip, names) == 0
    ensures ip in dirs && |names| == 1 ==> WalkParent(dirs, ip, names) == ip
    ensures ip in dirs && names[0] !in dirs[ip] ==>
              Walk(dirs, ip, names) == 0 && (|names| > 1 ==> WalkParent(dirs, ip, names) == 0)
    ensures ip in dirs && names[0] in dirs[ip] ==>
              var next := dirs[ip][names[0]];
              && Walk(dirs, ip, names) == Walk(dirs, next, names[1..])
              && (|names| > 1 ==> WalkParent(dirs, ip, names) == WalkParent(dirs, next, names[1..]))
  {
    if |names| > 1 {
      assert names[..|names| - 1][1..] == names[1..][..|names[1..]| - 1];
    }
  }

  /** What namex is to find. */
  function Goal(dirs: Dirs, start: nat, all: seq<Name>, parent: bool): nat {
    if parent then WalkParent(dirs, start, all) else Walk(dirs, start, all)
  }

  /** namex has come to ip with names to go. */
  predicate OnWay(dirs: Dirs, start: nat, all: seq<Name>, ip: nat, names: seq<Name>, parent: bool) {
    Suffix(names, all) && Goal(dirs, ip, names, parent) == Goal(dirs, start, all, parent)
  }

  lemma OnWayStart(dirs: Dirs, start: nat, all: seq<Name>, parent: bool)
    ensures OnWay(dirs, start, all, start, all, parent)
  {
  }

  lemma OnWayTurn(dirs: Dirs, start: nat, all: seq<Name>, ip: nat, names: seq<Name>, parent: bool)
    requires OnWay(dirs, start, all, ip, names, parent) && names != [] && 0 !in dirs
    ensures ip !in dirs ==> Goal(dirs, start, all, parent) == 0
    ensures ip in dirs && parent && |names| == 1 ==>
              Goal(dirs, start, all, parent) == ip && all != [] && names[0] == all[|all| - 1]
    ensures ip in dirs && !(parent && |names| == 1) && names[0] !in dirs[ip] ==> Goal(dirs, start, all, parent) == 0
    ensures ip in dirs && !(parent && |names| == 1) && names[0] in dirs[ip] ==>
              OnWay(dirs, start, all, dirs[ip][names[0]], names[1..], parent)
  {
    hide Walk, WalkParent;
    WalkStep(dirs, ip, names);
    SuffixRest(names, all);
  }

  lemma OnWayEnd(dirs: Dirs, start: nat, all: seq<Name>, ip: nat, parent: bool)
    requires OnWay(dirs, start, all, ip, [], parent)
    ensures Goal(dirs, start, all, parent) == if parent then 0 else ip
  {
  }

  /** What the directories of the volume hold. */
  ghost function Tree(data: seq<Block>, inodes: seq<Inode>, isdir: set<nat>): (t: Dirs)
    ensures t.Keys == isdir
    ensures forall d :: d in isdir && DirShape(data, inodes, d) ==> t[d] == Bindings(EntriesIn(data, inodes, d))
  {
    map d | d in isdir :: if DirShape(data, inodes, d) then Bindings(EntriesIn(data, inodes, d)) else map[]
  }

  ghost predicate TreeOk(data: seq<Block>, inodes: seq<Inode>, isdir: set<nat>) {
    (forall d :: d in isdir ==> DirShape(data, inodes, d)) && Closed(Tree(data, inodes, isdir), |inodes|)
  }

  /** Everything a directory binds, and the root, has a link. */
  ghost predicate AllLinked(tree: Dirs, nlink: seq<nat>) {
    && ROOTINO < |nlink| && nlink[ROOTINO] > 0
    && forall d, k :: d in tree && k in tree[d] ==> tree[d][k] < |nlink| && nlink[tree[d][k]] > 0
  }

  lemma LinkedAt(tree: Dirs, nlink: seq<nat>, d: nat, k: Name)
    requires AllLinked(tree, nlink) && d in tree && k in tree[d]
    ensures tree[d][k] < |nlink| && nlink[tree[d][k]] > 0
  {
  }

  lemma LinkedRoot(tree: Dirs, nlink: seq<nat>)
    requires AllLinked(tree, nlink)
    ensures ROOTINO < |nlink| && nlink[ROOTINO] > 0
  {
  }

  /** One more reference to ip. */
  ghost function Plus(r: seq<nat>, ip: nat): (p: seq<nat>)
    requires ip < |r|
    ensures |p| == |r|
  {
    r[ip := r[ip] + 1]
  }

  lemma PlusOne(r: seq<nat>, ip: nat)
    requires ip < |r|
    ensures Plus(r, ip)[ip] == r[ip] + 1
  {
  }

  lemma PlusMinus(r: seq<nat>, ip: nat)
    requires ip < |r|
    ensures Plus(r, ip)[ip] > 0 && Plus(r, ip)[ip := Plus(r, ip)[ip] - 1] == r
  {
  }

  /** How one element of a path turns out. */
  datatype Verdict = Missing | Here | Next(inum: nat)

  class Lookup {
    const v: Volume
    /** The inodes whose type is T_DIR, and each inode's link count. */
    const isdir: set<nat>
    const nlink: seq<nat>
    /** In-memory reference counts. */
    var ref: seq<nat>
    /** Inodes whose last reference went while no directory named them: iput frees those. */
    ghost var freed: seq<nat>

    constructor (v: Volume, isdir: set<nat>, nlink: seq<nat>, ref: seq<nat>)
      ensures this.v == v && this.isdir == isdir && this.nlink == nlink && this.ref == ref && freed == []
    {
      this.v, this.isdir, this.nlink, this.ref, freed := v, isdir, nlink, ref, [];
    }

    ghost predicate Valid()
      reads this, v
    {
      && v.Valid() && |ref| == |nlink| == |v.inode| && ROOTINO < |ref| && 0 !in isdir
      && TreeOk(v.data, v.inode, isdir)
    }

    ghost function T(): Dirs
      reads v
    {
      Tree(v.data, v.inode, isdir)
    }

    /** iget and idup. */
    method Iget(ip: nat)
      requires ip < |ref|
      modifies this`ref
      ensures ref == Plus(old(ref), ip)
    {
      ref := ref[ip := ref[ip] + 1];
    }

    /** iput. */
    method Iput(ip: nat)
      requires ip < |ref| == |nlink| && ref[ip] > 0
      modifies this`ref, this`freed
      ensures ref == old(ref)[ip := old(ref)[ip] - 1]
      ensures freed == old(freed) + if old(ref)[ip] == 1 && nlink[ip] == 0 then [ip] else []
    {
      if ref[ip] == 1 && nlink[ip] == 0 {
        freed := freed + [ip];
      }
      ref := ref[ip := ref[ip] - 1];
    }

    /** namex's step from directory ip, which it lets go, to the entry name. */
    method Descend(ip: nat, name: Name) returns (next: nat)
      requires Valid() && ip in isdir && ip < |ref| && ref[ip] > 0 && NoNul(name) && Short(name) == name
      modifies this`ref, this`freed, v`data, v`inode, v`owner
      ensures v.data == old(v.data) && v.inode == old(v.inode) && Valid()
      ensures next == (if name in T()[ip] then T()[ip][name] else 0) && (next == 0 <==> name !in T()[ip])
          && next < |ref|
      ensures ref == (if next == 0 then old(ref) else Plus(old(ref), next))
          [ip := if next == ip then old(ref)[ip] else old(ref)[ip] - 1]
      ensures freed == old(freed) + if old(ref)[ip] == 1 && nlink[ip] == 0 && next != ip then [ip] else []
    {
      hide DirShape, EntriesIn, Bindings;
      next := LookupIn(ip, name);
      if next != 0 {
        Iget(next);
      }
      Iput(ip);
    }

    /** dirlookup in a directory of the tree. */
    method LookupIn(ip: nat, name: Name) returns (inum: nat)
      requires Valid() && ip in isdir && NoNul(name) && Short(name) == name
      modifies v`data, v`inode, v`owner
      ensures v.data == old(v.data) && v.inode == old(v.inode) && Valid()
      ensures inum == (if name in T()[ip] then T()[ip][name] else 0) && (inum == 0 <==> name !in T()[ip])
          && inum < |ref|
    {
      hide EntriesIn, Bindings;
      var poff;
      inum, poff := Dirlookup(v, ip, name);
      assert inum != 0 ==> ip in T() && name in T()[ip];
    }

    /** namex's loop body for an element: the lookup in ip, unless the walk is over. */
    method Turn(ip: nat, name: Name, last: bool, parent: bool, ghost start: nat, ghost all: seq<Name>,
                ghost names: seq<Name>, ghost ref0: seq<nat>)
      returns (r: Verdict)
      requires Valid() && 0 < ip < |ref0| && ref == Plus(ref0, ip) && NoNul(name) && Short(name) == name
      requires names != [] && names[0] == name && (last <==> |names| == 1) && OnWay(T(), start, all, ip, names, parent)
      modifies this`ref, this`freed, v`data, v`inode, v`owner
      ensures v.data == old(v.data) && v.inode == old(v.inode) && Valid()
      ensures match r
              case Missing => Goal(T(), start, all, parent) == 0 && ref == ref0
              case Here =>
                parent && Goal(T(), start, all, parent) == ip && all != [] && name == all[|all| - 1]
                    && ref == Plus(ref0, ip)
              case Next(inum) =>
                0 < inum < |ref0| && OnWay(T(), start, all, inum, names[1..], parent) && ref == Plus(ref0, inum)
      ensures freed == old(freed) || (freed == old(freed) + [ip] && ref0[ip] == 0 && nlink[ip] == 0)
      ensures AllLinked(T(), nlink) && (nlink[ip] > 0 || ref0[ip] > 0) ==>
        freed == old(freed) && (r.Next? ==> nlink[r.inum] > 0 || ref0[r.inum] > 0)
    {
      hide DirShape, EntriesIn, Bindings, Goal, OnWay, TreeOk, Closed, Owned, AllLinked;
      OnWayTurn(T(), start, all, ip, names, parent);
      if ip !in isdir {
        Iput(ip);
        return Missing;
      }
      if parent && last {
        return Here;
      }
      var inum := Descend(ip, name);
      if inum != 0 && AllLinked(T(), nlink) { LinkedAt(T(), nlink, ip, name); }
      r := if inum == 0 then Missing else Next(inum);
    }

    /** namex's loop, over the path's elements from inode start on; done when it returned from inside. */
    method Walk(path: seq<Byte>, parent: bool, start: nat, ghost ref0: seq<nat>)
      returns (ip: nat, name: Name, done: bool)
      requires Valid() && NoNul(path) && 0 < start < |ref0| && ref == Plus(ref0, start)
      modifies this`ref, this`freed, v`data, v`inode, v`owner
      ensures v.data == old(v.data) && v.inode == old(v.inode) && Valid() && ip < |ref0|
      ensures if done then ip == Goal(T(), start, Elements(path, 0), parent)
              else ip != 0 && OnWay(T(), start, Elements(path, 0), ip, [], parent)
      ensures ref == if ip == 0 then ref0 else Plus(ref0, ip)
      ensures done && ip != 0 ==>
        Elements(path, 0) != [] && parent && name == Elements(path, 0)[|Elements(path, 0)| - 1]
      ensures AllLinked(T(), nlink) && (nlink[start] > 0 || ref0[start] > 0) ==>
        freed == old(freed) && (!done ==> nlink[ip] > 0 || ref0[ip] > 0)
    {
      hide DirShape, EntriesIn, Bindings, Elements, Goal, OnWay, TreeOk, AllLinked, Closed, Owned, Tree, Plus;
      ghost var all := Elements(path, 0);
      ghost var linked := AllLinked(T(), nlink) && (nlink[start] > 0 || ref0[start] > 0);
      OnWayStart(T(), start, all, parent);
      ip := start;
      var i := 0;
      name := [];
      while true
        invariant i <= |path| && v.data == old(v.data) && v.inode == old(v.inode) && Valid()
        invariant 0 < ip < |ref0| && ref == Plus(ref0, ip)
        invariant OnWay(T(), start, all, ip, Elements(path, i), parent)
        invariant linked ==> freed == old(freed) && (nlink[ip] > 0 || ref0[ip] > 0)
        decreases |path| - i
      {
        var found, next, elem := Skipelem(path, i);
        if !found {
          return ip, name, false;
        }
        name := elem;
        var r := Turn(ip, name, next == |path|, parent, start, all, Elements(path, i), ref0);
        match r {
          case Missing => return 0, name, true;
          case Here => return ip, name, true;
          case Next(inum) => i, ip := next, inum;
        }
      }
    }

    /** namex: the inode the path names, or the directory of its last element and that element.
        On success the result has one reference more, and on failure no count changed. */
    method Namex(path: seq<Byte>, parent: bool, cwd: nat) returns (ip: nat, name: Name)
      requires Valid() && NoNul(path) && 0 < cwd < |ref|
      modifies this`ref, this`freed, v`data, v`inode, v`owner
      ensures v.data == old(v.data) && v.inode == old(v.inode) && Valid()
      ensures var start := if path != [] && path[0] == SLASH then ROOTINO else cwd;
              ip == Goal(T(), start, Elements(path, 0), parent)
      ensures ip < |old(ref)| && ref == if ip == 0 then old(ref) else Plus(old(ref), ip)
      ensures parent && ip != 0 ==> Elements(path, 0) != [] && name == Elements(path, 0)[|Elements(path, 0)| - 1]
      ensures AllLinked(T(), nlink) && old(ref)[cwd] > 0 ==> freed == old(freed)
    {
      hide DirShape, EntriesIn, Bindings, Elements, Goal, OnWay, TreeOk, AllLinked, Closed, Owned, Tree, Plus;
      ghost var all, ref0 := Elements(path, 0), ref;
      var start := if path != [] && path[0] == SLASH then ROOTINO else cwd;
      Iget(start);
      if AllLinked(T(), nlink) { LinkedRoot(T(), nlink); }
      var done;
      ip, name, done := Walk(path, parent, start, ref0);
      if !done {
        OnWayEnd(T(), start, all, ip, parent);
        if parent {
          PlusMinus(ref0, ip);
          PlusOne(ref0, ip);
          Iput(ip);
          return 0, name;
        }
      }
    }
  }

  /** a is the rest of b. */
  predicate Suffix(a: seq<Name>, b: seq<Name>) {
    |a| <= |b| && a == b[|b| - |a|..]
  }

  lemma SuffixRest(a: seq<Name>, b: seq<Name>)
    requires Suffix(a, b) && a != []
    ensures b != [] && Suffix(a[1..], b) && (|a| == 1 ==> a[0] == b[|b| - 1])
  {
  }
}
