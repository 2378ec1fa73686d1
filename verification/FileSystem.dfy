/** Files over direct and indirect blocks (kernel/fs.c): balloc, bfree, bmap and itrunc, on the
    contents of blocks as bread returns them. */
module FileSystem {
  import opened Blocks
  import opened Bitmap
  import opened FileBlocks

  /** Every block of the volume is marked in use: balloc panics. */
  ghost predicate Full(l: Layout, data: seq<Block>)
    requires l.size > 0 ==> BitBlock(l.bmapstart, l.size - 1) < |data|
  {
    forall x :: 0 <= x < l.size ==> InUse(data, l.bmapstart, x)
  }

  // ---- bmap ----

  /** Every place but p keeps its address, and every file block its contents. */
  ghost predicate Stays(data: seq<Block>, inodes: seq<Inode>, data': seq<Block>, inodes': seq<Inode>, p: Place) {
    && |data'| == |data| && |inodes'| == |inodes|
    && (forall i :: 0 <= i < |inodes| ==> inodes'[i].size == inodes[i].size && (i != p.ino ==> inodes'[i] == inodes[i]))
    && (forall q: Place {:trigger AddrAt(data', inodes', q)} {:trigger AddrAt(data, inodes, q)} ::
          q.File? && q != p ==> AddrAt(data', inodes', q) == AddrAt(data, inodes, q))
    && (forall q: Place {:trigger AddrAt(data, inodes, q)} ::
          q.File? && 0 < AddrAt(data, inodes, q) < |data| ==>
              data'[AddrAt(data, inodes, q)] == data[AddrAt(data, inodes, q)])
  }

  /** What bmap promises: block bn of file ip is at addr; if it had none it has a zeroed one,
      and otherwise nothing changed. */
  ghost predicate Mapped(data: seq<Block>, inodes: seq<Inode>, data': seq<Block>, inodes': seq<Inode>, p: Place,
                         addr: nat) {
    && Stays(data, inodes, data', inodes', p)
    && addr == AddrAt(data', inodes', p) && 0 < addr < |data'|
    && (AddrAt(data, inodes, p) != 0 ==> data' == data && inodes' == inodes)
    && (AddrAt(data, inodes, p) == 0 ==> data'[addr] == ZERO)
  }

  lemma {:induction false} DecodeZeros(s: seq<Byte>)
    requires forall i :: 0 <= i < |s| ==> s[i] == 0
    ensures Decode(s) == 0
  {
    if s != [] {
      DecodeZeros(s[1..]);
    }
  }

  lemma ZeroWords(j: nat)
    requires j < WORDS
    ensures Word(ZERO, j) == 0
  {
    DecodeZeros(ZERO[4*j..4*j+4]);
  }

  function SetAddr(inodes: seq<Inode>, ip: nat, k: nat, b: Uint): seq<Inode>
    requires ip < |inodes| && k < |inodes[ip].addrs|
  {
    inodes[ip := inodes[ip].(addrs := inodes[ip].addrs[k := b])]
  }

  /** A fresh block in a direct slot. */
  lemma BmapDirect(l: Layout, data: seq<Block>, inodes: seq<Inode>, owner: map<nat, Place>, b: nat, ip: nat, bn: nat,
                   data': seq<Block>)
    requires Owned(l, data, inodes, owner, NoCut, {})
    requires ip < |inodes| && bn < NDIRECT && inodes[ip].addrs[bn] == 0
    requires b < l.size && !InUse(data, l.bmapstart, b) && data' == Allocated(l, data, b)
    ensures var inodes' := SetAddr(inodes, ip, bn, b);
      && Owned(l, data', inodes', owner[b := File(ip, bn)], NoCut, {})
      && Mapped(data, inodes, data', inodes', File(ip, bn), b)
  {
    hide Word, InUse, Allocated, Accounted;
    AllocOwned(l, data, inodes, owner, b, data');
    var inodes' := SetAddr(inodes, ip, bn, b);
    forall q
      ensures AddrAt(data', inodes', q) == if q == File(ip, bn) then b else AddrAt(data, inodes, q)
    {
      assert AddrAt(data', inodes, q) == AddrAt(data, inodes, q);
    }
    Attach(l, data', inodes, owner, b, File(ip, bn), data', inodes');
  }

  /** A fresh indirect block. */
  lemma BmapIndex(l: Layout, data: seq<Block>, inodes: seq<Inode>, owner: map<nat, Place>, b: nat, ip: nat,
                  data': seq<Block>)
    requires Owned(l, data, inodes, owner, NoCut, {})
    requires ip < |inodes| && inodes[ip].addrs[NDIRECT] == 0
    requires b < l.size && !InUse(data, l.bmapstart, b) && data' == Allocated(l, data, b)
    ensures 0 < b
    ensures var inodes' := SetAddr(inodes, ip, NDIRECT, b);
      && Owned(l, data', inodes', owner[b := Index(ip)], NoCut, {})
      && Stays(data, inodes, data', inodes', Index(ip))
  {
    hide Word, InUse, Allocated, Accounted;
    AllocOwned(l, data, inodes, owner, b, data');
    var inodes' := SetAddr(inodes, ip, NDIRECT, b);
    forall q
      ensures AddrAt(data', inodes', q) == if q == Index(ip) then b else AddrAt(data, inodes, q)
    {
      assert AddrAt(data', inodes, q) == AddrAt(data, inodes, q);
      if q.File? && q.ino == ip && NDIRECT <= q.bn < MAXFILE {
        ZeroWords(q.bn - NDIRECT);
      }
    }
    Attach(l, data', inodes, owner, b, Index(ip), data', inodes');
  }

  /** No two inodes share an indirect block. */
  lemma OneIndex(l: Layout, data: seq<Block>, inodes: seq<Inode>, owner: map<nat, Place>, ip: nat, i: nat)
    requires Owned(l, data, inodes, owner, NoCut, {}) && AddrAt(data, inodes, Index(ip)) != 0
    ensures AddrAt(data, inodes, Index(i)) == AddrAt(data, inodes, Index(ip)) ==> i == ip
  {
  }

  /** A fresh block entered in the indirect block. */
  lemma BmapEntry(l: Layout, data: seq<Block>, inodes: seq<Inode>, owner: map<nat, Place>, b: nat, ip: nat, j: nat,
                  data1: seq<Block>)
    requires Owned(l, data, inodes, owner, NoCut, {})
    requires ip < |inodes| && j < NINDIRECT && inodes[ip].addrs[NDIRECT] != 0
    requires AddrAt(data, inodes, File(ip, NDIRECT + j)) == 0
    requires b < l.size && !InUse(data, l.bmapstart, b) && data1 == Allocated(l, data, b)
    ensures var ind := inodes[ip].addrs[NDIRECT];
      && ind < |data| && data1[ind] == data[ind]
      && var data' := data1[ind := PutWord(data1[ind], j, b)];
      && Owned(l, data', inodes, owner[b := File(ip, NDIRECT + j)], NoCut, {})
      && Mapped(data, inodes, data', inodes, File(ip, NDIRECT + j), b)
  {
    hide Word, PutWord, InUse, Allocated, Accounted;
    AllocOwned(l, data, inodes, owner, b, data1);
    var ind, p := inodes[ip].addrs[NDIRECT], File(ip, NDIRECT + j);
    assert AddrAt(data, inodes, Index(ip)) == ind && owner[ind] == Index(ip);
    var data' := data1[ind := PutWord(data1[ind], j, b)];
    forall q
      ensures AddrAt(data', inodes, q) == if q == p then b else AddrAt(data, inodes, q)
    {
      assert AddrAt(data1, inodes, q) == AddrAt(data, inodes, q);
      OneIndex(l, data, inodes, owner, ip, q.ino);
    }
    hide Owned;
    Attach(l, data1, inodes, owner, b, p, data', inodes);
  }

  lemma AddrRange(l: Layout, data: seq<Block>, inodes: seq<Inode>, owner: map<nat, Place>, p: Place)
    requires Owned(l, data, inodes, owner, NoCut, {}) && AddrAt(data, inodes, p) != 0
    ensures l.nmeta <= AddrAt(data, inodes, p) < l.size <= |data|
  {
  }

  /** A mapped block needs nothing. */
  lemma MappedAlready(l: Layout, data: seq<Block>, inodes: seq<Inode>, owner: map<nat, Place>, p: Place)
    requires Owned(l, data, inodes, owner, NoCut, {}) && AddrAt(data, inodes, p) != 0
    ensures Mapped(data, inodes, data, inodes, p, AddrAt(data, inodes, p))
  {
    AddrRange(l, data, inodes, owner, p);
    hide AddrAt;
  }

  lemma MappedAfter(d: seq<Block>, n: seq<Inode>, d1: seq<Block>, n1: seq<Inode>, d2: seq<Block>, n2: seq<Inode>,
                    ip: nat, bn: nat, addr: nat)
    requires Stays(d, n, d1, n1, Index(ip)) && AddrAt(d, n, File(ip, bn)) == 0
    requires Mapped(d1, n1, d2, n2, File(ip, bn), addr)
    ensures Mapped(d, n, d2, n2, File(ip, bn), addr)
  {
    hide AddrAt;
    forall q: Place | q.File? && q != File(ip, bn)
      ensures AddrAt(d2, n2, q) == AddrAt(d, n, q)
    {
      assert AddrAt(d1, n1, q) == AddrAt(d, n, q);
    }
  }

  // ---- itrunc ----

  function Clear(inodes: seq<Inode>, ip: nat, k: nat): seq<Inode>
    requires ip < |inodes| && k < |inodes[ip].addrs|
  {
    SetAddr(inodes, ip, k, 0)
  }

  /** Freeing the block at p: the bitmap marks it, so bfree does not panic, and the invariant
      survives emptying p or cutting it off. */
  lemma FreePlace(l: Layout, data: seq<Block>, inodes: seq<Inode>, owner: map<nat, Place>, cut: Cut, p: Place,
                  inodes': seq<Inode>, cut': Cut)
    requires Owned(l, data, inodes, owner, cut, {})
    requires AddrAt(data, inodes, p) != 0 && !IsCut(cut, p)
    requires Sound(l, data, inodes')
    requires forall q {:trigger AddrAt(data, inodes', q)} {:trigger AddrAt(data, inodes, q)} ::
      q != p && !IsCut(cut', q) ==> AddrAt(data, inodes', q) == AddrAt(data, inodes, q)
    requires forall q: Place :: q.Index? ==>
        AddrAt(data, inodes', q) == AddrAt(data, inodes, q) || AddrAt(data, inodes', q) == 0
    requires IsCut(cut', p) || AddrAt(data, inodes', p) == 0
    requires forall q :: q != p ==> IsCut(cut', q) == IsCut(cut, q)
    ensures var b := AddrAt(data, inodes, p);
      && l.nmeta <= b < l.size <= |data| && b in owner && owner[b] == p
      && BitBlock(l.bmapstart, b) < l.nmeta && InUse(data, l.bmapstart, b)
      && Owned(l, Marked(data, l.bmapstart, b, false), inodes', owner - {b as nat}, cut', {})
  {
    hide Word, Bit, BitByte, WithBit, IsCut;
    var b := AddrAt(data, inodes, p);
    assert b in owner && owner[b] == p;
    BitsStay(l, data, inodes, data);
    var data' := Marked(data, l.bmapstart, b, false);
    forall q
      ensures AddrAt(data', inodes', q) == AddrAt(data, inodes', q)
    {
      var i := AddrAt(data, inodes', Index(q.ino));
      assert i != 0 ==> AddrAt(data, inodes, Index(q.ino)) == i && i in owner && l.nmeta <= i by {
        assert !IsCut(cut, Index(q.ino)) by { IndexNotCut(cut, q.ino); }
      }
    }
    Detach(l, data, inodes, owner, cut, p, data', inodes', cut');
  }

  lemma IndexNotCut(cut: Cut, i: nat)
    ensures !IsCut(cut, Index(i))
  {
  }

  lemma FreeDirect(l: Layout, data: seq<Block>, inodes: seq<Inode>, owner: map<nat, Place>, ip: nat, k: nat)
    requires Owned(l, data, inodes, owner, NoCut, {})
    requires ip < |inodes| && k < NDIRECT && inodes[ip].addrs[k] != 0
    ensures var b := inodes[ip].addrs[k];
      && l.nmeta <= b < l.size <= |data| && b in owner && owner[b] == File(ip, k)
      && BitBlock(l.bmapstart, b) < l.nmeta && InUse(data, l.bmapstart, b)
      && Owned(l, Marked(data, l.bmapstart, b, false), Clear(inodes, ip, k), owner - {b as nat}, NoCut, {})
  {
    hide Word, InUse, Accounted, Inverse;
    FreePlace(l, data, inodes, owner, NoCut, File(ip, k), Clear(inodes, ip, k), NoCut);
  }

  lemma FreeEntry(l: Layout, data: seq<Block>, inodes: seq<Inode>, owner: map<nat, Place>, ip: nat, j: nat)
    requires Owned(l, data, inodes, owner, Cut(ip, j), {})
    requires ip < |inodes| && j < NINDIRECT && AddrAt(data, inodes, File(ip, NDIRECT + j)) != 0
    ensures var b := AddrAt(data, inodes, File(ip, NDIRECT + j));
      && l.nmeta <= b < l.size <= |data| && b in owner && owner[b] == File(ip, NDIRECT + j)
      && BitBlock(l.bmapstart, b) < l.nmeta && InUse(data, l.bmapstart, b)
      && Owned(l, Marked(data, l.bmapstart, b, false), inodes, owner - {b as nat}, Cut(ip, j + 1), {})
  {
    hide AddrAt, InUse, Accounted, Inverse;
    FreePlace(l, data, inodes, owner, Cut(ip, j), File(ip, NDIRECT + j), inodes, Cut(ip, j + 1));
  }

  /** An entry that holds no block is skipped. */
  lemma SkipEntry(l: Layout, data: seq<Block>, inodes: seq<Inode>, owner: map<nat, Place>, ip: nat, j: nat)
    requires Owned(l, data, inodes, owner, Cut(ip, j), {})
    requires AddrAt(data, inodes, File(ip, NDIRECT + j)) == 0
    ensures Owned(l, data, inodes, owner, Cut(ip, j + 1), {})
  {
    hide AddrAt, InUse, Accounted;
    forall b | b in owner
      ensures !IsCut(Cut(ip, j + 1), owner[b])
    {
      assert AddrAt(data, inodes, owner[b]) == b;
    }
  }

  lemma FreeIndex(l: Layout, data: seq<Block>, inodes: seq<Inode>, owner: map<nat, Place>, ip: nat)
    requires Owned(l, data, inodes, owner, Cut(ip, NINDIRECT), {})
    requires ip < |inodes| && inodes[ip].addrs[NDIRECT] != 0
    ensures var b := inodes[ip].addrs[NDIRECT];
      && l.nmeta <= b < l.size <= |data| && b in owner && owner[b] == Index(ip)
      && BitBlock(l.bmapstart, b) < l.nmeta && InUse(data, l.bmapstart, b)
      && Owned(l, Marked(data, l.bmapstart, b, false), Clear(inodes, ip, NDIRECT), owner - {b as nat}, NoCut, {})
  {
    hide Word, InUse, Accounted, Inverse;
    var b, inodes' := inodes[ip].addrs[NDIRECT], Clear(inodes, ip, NDIRECT);
    FreePlace(l, data, inodes, owner, Cut(ip, NINDIRECT), Index(ip), inodes', Cut(ip, NINDIRECT));
    Uncut(l, Marked(data, l.bmapstart, b, false), inodes', owner - {b as nat}, ip);
  }

  /** Without its indirect block a file has no entries to cut. */
  lemma Uncut(l: Layout, data: seq<Block>, inodes: seq<Inode>, owner: map<nat, Place>, ip: nat)
    requires Owned(l, data, inodes, owner, Cut(ip, NINDIRECT), {})
    requires ip < |inodes| && inodes[ip].addrs[NDIRECT] == 0
    ensures Owned(l, data, inodes, owner, NoCut, {})
  {
    hide Word, InUse, Accounted;
    assert forall p :: IsCut(Cut(ip, NINDIRECT), p) ==> AddrAt(data, inodes, p) == 0;
  }

  lemma CutNothing(l: Layout, data: seq<Block>, inodes: seq<Inode>, owner: map<nat, Place>, ip: nat)
    requires Owned(l, data, inodes, owner, NoCut, {})
    ensures Owned(l, data, inodes, owner, Cut(ip, 0), {})
  {
    hide AddrAt, InUse, Accounted;
  }

  /** Where itrunc's walk reaches a place of the file: direct slots, entries, indirect block. */
  function Order(p: Place): nat {
    if p.Index? then MAXFILE else p.bn
  }

  /** owner is o without the blocks of file ip that the first n turns of the walk reach. */
  ghost predicate Freed(o: map<nat, Place>, owner: map<nat, Place>, ip: nat, n: nat) {
    && (forall b :: b in owner ==> b in o && owner[b] == o[b])
    && (forall b :: b in o ==> (b in owner <==> !(o[b].ino == ip && Order(o[b]) < n)))
  }

  lemma FreedNone(o: map<nat, Place>, ip: nat)
    ensures Freed(o, o, ip, 0)
  {
  }

  lemma FreedEntries(l: Layout, data: seq<Block>, inodes: seq<Inode>, o: map<nat, Place>, owner: map<nat, Place>,
                     ip: nat)
    requires Owned(l, data, inodes, owner, NoCut, {})
    requires ip < |inodes| && inodes[ip].addrs[NDIRECT] == 0 && Freed(o, owner, ip, NDIRECT)
    ensures Freed(o, owner, ip, MAXFILE + 1)
  {
    hide Word, Accounted, InUse;
    forall b | b in owner && owner[b].ino == ip
      ensures Order(owner[b]) < NDIRECT
    {
      assert AddrAt(data, inodes, owner[b]) == b;
    }
  }

  lemma DirectAddr(data: seq<Block>, inodes: seq<Inode>, ip: nat, k: nat)
    requires ip < |inodes| && k < NDIRECT && |inodes[ip].addrs| == NDIRECT + 1
    ensures AddrAt(data, inodes, File(ip, k)) == inodes[ip].addrs[k]
  {
    hide Word;
  }

  lemma IndexAddr(l: Layout, data: seq<Block>, inodes: seq<Inode>, owner: map<nat, Place>, ip: nat)
    requires Owned(l, data, inodes, owner, NoCut, {})
    requires ip < |inodes| && inodes[ip].addrs[NDIRECT] != 0
    ensures AddrAt(data, inodes, Index(ip)) == inodes[ip].addrs[NDIRECT]
    ensures l.nmeta <= inodes[ip].addrs[NDIRECT] < |data|
  {
    hide Word;
    AddrRange(l, data, inodes, owner, Index(ip));
  }

  lemma EntryAddr(data: seq<Block>, inodes: seq<Inode>, ip: nat, j: nat)
    requires ip < |inodes| && j < NINDIRECT && |inodes[ip].addrs| == NDIRECT + 1
    requires 0 < inodes[ip].addrs[NDIRECT] < |data|
    ensures AddrAt(data, inodes, File(ip, NDIRECT + j)) == Word(data[inodes[ip].addrs[NDIRECT]], j)
    ensures AddrAt(data, inodes, Index(ip)) == inodes[ip].addrs[NDIRECT]
  {
    hide Word;
  }

  /** File sizes play no part in ownership. */
  lemma SizeOnly(l: Layout, data: seq<Block>, inodes: seq<Inode>, owner: map<nat, Place>, ip: nat, size: nat)
    requires Owned(l, data, inodes, owner, NoCut, {}) && ip < |inodes|
    ensures var inodes' := inodes[ip := inodes[ip].(size := size)];
      && Owned(l, data, inodes', owner, NoCut, {})
      && forall q :: AddrAt(data, inodes', q) == AddrAt(data, inodes, q)
  {
    hide Word, InUse, Accounted;
    var inodes' := inodes[ip := inodes[ip].(size := size)];
    forall q
      ensures AddrAt(data, inodes', q) == AddrAt(data, inodes, q)
    {
    }
  }

  lemma FreedNext(l: Layout, data: seq<Block>, inodes: seq<Inode>, o: map<nat, Place>, owner: map<nat, Place>, cut: Cut,
                  p: Place)
    requires Owned(l, data, inodes, owner, cut, {})
    requires Freed(o, owner, p.ino, Order(p)) && ValidPlace(inodes, p)
    ensures var b := AddrAt(data, inodes, p);
      b != 0 && b in owner && owner[b] == p ==> Freed(o, owner - {b as nat}, p.ino, Order(p) + 1)
    ensures AddrAt(data, inodes, p) == 0 ==> Freed(o, owner, p.ino, Order(p) + 1)
  {
    hide AddrAt, Accounted, InUse;
    forall b | b in owner && owner[b].ino == p.ino && Order(owner[b]) == Order(p)
      ensures owner[b] == p && AddrAt(data, inodes, p) == b
    {
      assert AddrAt(data, inodes, owner[b]) == b;
      PlaceByOrder(data, inodes, owner[b], p);
    }
  }

  lemma PlaceByOrder(data: seq<Block>, inodes: seq<Inode>, p: Place, q: Place)
    requires p.ino == q.ino && Order(p) == Order(q) && ValidPlace(inodes, q)
    requires AddrAt(data, inodes, p) != 0 || ValidPlace(inodes, p)
    ensures p == q
  {
    hide Word;
  }

  class Volume {
    const l: Layout
    var data: seq<Block>
    /** The in-memory inodes, and the disk's copies of them that iupdate writes. */
    var inode: seq<Inode>
    var dinode: seq<Inode>
    ghost var owner: map<nat, Place>

    ghost predicate Valid()
      reads this
    {
      Owned(l, data, inode, owner, NoCut, {}) && |dinode| == |inode|
    }

    constructor (l: Layout, data: seq<Block>, inode: seq<Inode>, ghost owner: map<nat, Place>)
      requires Owned(l, data, inode, owner, NoCut, {})
      ensures Valid() && this.l == l && this.data == data && this.inode == inode == dinode
    {
      this.l, this.data, this.inode, this.dinode, this.owner := l, data, inode, inode, owner;
    }

    method Iupdate(ip: nat)
      requires ip < |inode| == |dinode|
      modifies this`dinode
      ensures dinode == old(dinode)[ip := inode[ip]]
    {
      dinode := dinode[ip := inode[ip]];
    }

    /** One turn of itrunc's loop over the direct slots. */
    method ItruncDirect(ip: nat, i: nat, ghost o: map<nat, Place>)
      requires Valid() && ip < |inode| && i < NDIRECT && Freed(o, owner, ip, i)
      modifies this`data, this`inode, this`owner
      ensures Valid() && Freed(o, owner, ip, i + 1)
      ensures |inode| == |old(inode)| && inode == old(inode)[ip := inode[ip]] && inode[ip].size == old(inode)[ip].size
      ensures inode[ip].addrs == old(inode)[ip].addrs[i := 0]
      ensures |data| == |old(data)| && forall x :: l.nmeta <= x < |data| ==> data[x] == old(data)[x]
    {
      hide AddrAt, Accounted, Inverse, InUse, Freed;
      var b := inode[ip].addrs[i];
      DirectAddr(data, inode, ip, i);
      FreedNext(l, data, inode, o, owner, NoCut, File(ip, i));
      if b != 0 {
        FreeDirect(l, data, inode, owner, ip, i);
        var panicked := Bfree(b);
        assert !panicked;
        inode := Clear(inode, ip, i);
        owner := owner - {b as nat};
      }
    }

    /** itrunc's second half: the entries of the indirect block, then the block itself. */
    method ItruncIndirect(ip: nat, ghost o: map<nat, Place>)
      requires Valid() && ip < |inode| && inode[ip].addrs[NDIRECT] != 0 && Freed(o, owner, ip, NDIRECT)
      modifies this`data, this`inode, this`owner
      ensures Valid() && Freed(o, owner, ip, MAXFILE + 1)
      ensures inode == Clear(old(inode), ip, NDIRECT)
      ensures |data| == |old(data)| && forall x :: l.nmeta <= x < |data| ==> data[x] == old(data)[x]
    {
      hide AddrAt, Accounted, Inverse, InUse, Freed, Word;
      var ind := inode[ip].addrs[NDIRECT];
      IndexAddr(l, data, inode, owner, ip);
      var bp := data[ind];
      CutNothing(l, data, inode, owner, ip);
      for j := 0 to NINDIRECT
        invariant Owned(l, data, inode, owner, Cut(ip, j), {}) && Freed(o, owner, ip, NDIRECT + j)
        invariant inode == old(inode) && |data| == |old(data)|
        invariant forall x :: l.nmeta <= x < |data| ==> data[x] == old(data)[x]
      {
        EntryAddr(data, inode, ip, j);
        FreedNext(l, data, inode, o, owner, Cut(ip, j), File(ip, NDIRECT + j));
        var b := Word(bp, j);
        if b != 0 {
          FreeEntry(l, data, inode, owner, ip, j);
          var panicked := Bfree(b);
          assert !panicked;
          owner := owner - {b as nat};
        } else {
          SkipEntry(l, data, inode, owner, ip, j);
        }
      }
      EntryAddr(data, inode, ip, 0);
      FreeIndex(l, data, inode, owner, ip);
      FreedNext(l, data, inode, o, owner, Cut(ip, NINDIRECT), Index(ip));
      var panicked := Bfree(ind);
      assert !panicked;
      inode := Clear(inode, ip, NDIRECT);
      owner := owner - {ind as nat};
    }

    /** Frees every block of file ip and empties it; nothing else moves. */
    method Itrunc(ip: nat)
      requires Valid() && ip < |inode|
      modifies this`data, this`inode, this`dinode, this`owner
      ensures Valid()
      ensures |inode| == |old(inode)| && |inode[ip].addrs| == NDIRECT + 1 && inode[ip].size == 0
      ensures forall k :: 0 <= k <= NDIRECT ==> inode[ip].addrs[k] == 0
      ensures forall i :: 0 <= i < |inode| && i != ip ==> inode[i] == old(inode)[i]
      ensures dinode == old(dinode)[ip := inode[ip]]
      ensures Freed(old(owner), owner, ip, MAXFILE + 1)
      ensures |data| == |old(data)| && forall x :: l.nmeta <= x < |data| ==> data[x] == old(data)[x]
    {
      hide AddrAt, Accounted, Inverse, InUse, Freed, Marked, Word;
      ghost var o, n := owner, inode;
      FreedNone(o, ip);
      for i := 0 to NDIRECT
        invariant Owned(l, data, inode, owner, NoCut, {}) && Freed(o, owner, ip, i)
        invariant |inode| == |n| && forall k :: 0 <= k < |inode| && k != ip ==> inode[k] == n[k]
        invariant forall k :: 0 <= k < i ==> inode[ip].addrs[k] == 0
        invariant |data| == |old(data)| && forall x :: l.nmeta <= x < |data| ==> data[x] == old(data)[x]
        modifies this`data, this`inode, this`owner
      {
        ItruncDirect(ip, i, o);
      }
      if inode[ip].addrs[NDIRECT] != 0 {
        ItruncIndirect(ip, o);
      } else {
        FreedEntries(l, data, inode, o, owner, ip);
      }
      SizeOnly(l, data, inode, owner, ip, 0);
      inode := inode[ip := inode[ip].(size := 0)];
      Iupdate(ip);
    }

    /** balloc's inner loop: the first clear bit of one bitmap block, or where it stops without one. */
    method FreeBit(b: nat) returns (bi: nat)
      requires Sound(l, data, inode) && b % BPB == 0 && b < l.size
      ensures bi <= BPB && forall x :: b <= x < b + bi && x < l.size ==> InUse(data, l.bmapstart, x)
      ensures bi < BPB && b + bi < l.size ==> !InUse(data, l.bmapstart, b + bi)
    {
      hide Bit, InUse, BitByte, Allocated;
      BitInBlock(l, data, inode, b, 0);
      var bp := data[BitBlock(l.bmapstart, b)];
      bi := 0;
      while bi < BPB && b + bi < l.size
        invariant bi <= BPB
        invariant forall x :: b <= x < b + bi && x < l.size ==> InUse(data, l.bmapstart, x)
      {
        BitInBlock(l, data, inode, b, bi);
        if !Bit(bp[bi / 8], bi % 8) {
          return;
        }
        bi := bi + 1;
      }
    }

    /** balloc's marking and zeroing of the block it has found. */
    method Take(b: nat, bi: nat)
      requires Sound(l, data, inode) && b % BPB == 0 && bi < BPB && b + bi < l.size
      modifies this`data
      ensures BitBlock(l.bmapstart, b + bi) < |old(data)| && b + bi < |old(data)|
      ensures data == Allocated(l, old(data), b + bi)
    {
      hide Bit, Set, InUse, BitByte, Allocated;
      BitInBlock(l, data, inode, b, bi);
      var bp := data[BitBlock(l.bmapstart, b)];
      data := data[BitBlock(l.bmapstart, b) := bp[bi / 8 := Set(bp[bi / 8], bi % 8, true)]];
      data := data[b + bi := ZERO];
    }

    /** The lowest free block, marked and zeroed; ok is false where the kernel panics. */
    method Balloc() returns (b: nat, ok: bool)
      requires Valid()
      modifies this`data
      ensures ok ==> b < l.size && !InUse(old(data), l.bmapstart, b) && data == Allocated(l, old(data), b)
      ensures ok ==> forall x :: 0 <= x < b ==> InUse(old(data), l.bmapstart, x)
      ensures !ok ==> data == old(data) && Full(l, data)
    {
      hide Bit, Set, Inverse, Accounted, AddrAt, InUse, BitByte, Allocated;
      b := 0;
      while b < l.size
        invariant b % BPB == 0 && data == old(data)
        invariant forall x :: 0 <= x < b && x < l.size ==> InUse(data, l.bmapstart, x)
        decreases l.size - b
      {
        var bi := FreeBit(b);
        if bi < BPB && b + bi < l.size {
          Take(b, bi);
          return b + bi, true;
        }
        b := b + BPB;
      }
      return 0, false;
    }

    /** bfree: clears b's bit, or panics when it is clear already. */
    method Bfree(b: nat) returns (panicked: bool)
      requires Sound(l, data, inode) && b < l.size
      modifies this`data
      ensures BitBlock(l.bmapstart, b) < |old(data)| && (panicked <==> !InUse(old(data), l.bmapstart, b))
      ensures data == if panicked then old(data) else Marked(old(data), l.bmapstart, b, false)
    {
      hide Bit;
      BitInBlock(l, data, inode, b / BPB * BPB, b % BPB);
      var bp := data[BitBlock(l.bmapstart, b)];
      var bi := b % BPB;
      if !Bit(bp[bi / 8], bi % 8) {
        return true;
      }
      data := data[BitBlock(l.bmapstart, b) := bp[bi / 8 := Set(bp[bi / 8], bi % 8, false)]];
      panicked := false;
    }

    /** The address of block bn of file ip, allocated if there is none; ok is false where balloc
        panics. */
    method Bmap(ip: nat, bn: nat) returns (addr: nat, ok: bool)
      requires Valid() && ip < |inode| && bn < MAXFILE
      modifies this`data, this`inode, this`owner
      ensures Valid()
      ensures AddrAt(old(data), old(inode), File(ip, bn)) != 0 ==> ok && data == old(data) && inode == old(inode)
      ensures ok ==> Mapped(old(data), old(inode), data, inode, File(ip, bn), addr)
      ensures ok && bn < NDIRECT ==> |inode| > ip && |inode[ip].addrs| > bn && addr == inode[ip].addrs[bn]
      ensures ok && bn >= NDIRECT ==>
        && |inode| > ip && |inode[ip].addrs| > NDIRECT && inode[ip].addrs[NDIRECT] < |data|
        && addr == Word(data[inode[ip].addrs[NDIRECT]], bn - NDIRECT)
      ensures !ok ==> Full(l, data) && Stays(old(data), old(inode), data, inode, Index(ip))
    {
      hide InUse, Allocated, Accounted, Word, PutWord, Full, Inverse, Mapped, Stays;
      ghost var d, n, p := data, inode, File(ip, bn);
      if AddrAt(d, n, p) != 0 { MappedAlready(l, d, n, owner, p); }
      if AddrAt(d, n, Index(ip)) != 0 { AddrRange(l, d, n, owner, Index(ip)); }
      StaysSame(d, n, Index(ip));
      if bn < NDIRECT {
        addr := inode[ip].addrs[bn];
        if addr == 0 {
          addr, ok := Balloc();
          if ok {
            BmapDirect(l, d, n, owner, addr, ip, bn, data);
            inode, owner := SetAddr(inode, ip, bn, addr), owner[addr := p];
          }
          return;
        }
        return addr, true;
      }
      var j := bn - NDIRECT;
      addr := inode[ip].addrs[NDIRECT];
      if addr == 0 {
        addr, ok := Balloc();
        if !ok {
          return;
        }
        BmapIndex(l, d, n, owner, addr, ip, data);
        inode, owner := SetAddr(inode, ip, NDIRECT, addr), owner[addr := Index(ip)];
      }
      var ind := addr;
      ghost var d1, n1 := data, inode;
      StaysAt(d, n, d1, n1, Index(ip), p);
      addr := Word(data[ind], j);
      if addr == 0 {
        addr, ok := Balloc();
        if !ok {
          return;
        }
        BmapEntry(l, d1, inode, owner, addr, ip, j, data);
        data, owner := data[ind := PutWord(data[ind], j, addr)], owner[addr := p];
        MappedAfter(d, n, d1, n1, data, inode, ip, bn, addr);
      }
      ok := true;
    }
  }

  lemma StaysAt(d: seq<Block>, n: seq<Inode>, d': seq<Block>, n': seq<Inode>, p: Place, q: Place)
    requires Stays(d, n, d', n', p) && q.File? && q != p
    ensures AddrAt(d', n', q) == AddrAt(d, n, q)
  {
    hide AddrAt;
  }

  lemma StaysSame(d: seq<Block>, n: seq<Inode>, p: Place)
    ensures Stays(d, n, d, n, p)
  {
    hide AddrAt;
  }

  function Set(x: Byte, k: nat, on: bool): Byte
    requires k < 8
  {
    assert Pow2(8) == 0x100;
    WithBitBound(x, k, on, 8);
    WithBit(x, k, on)
  }

  lemma BitInBlock(l: Layout, data: seq<Block>, inode: seq<Inode>, b: nat, bi: nat)
    requires Sound(l, data, inode) && b % BPB == 0 && bi < BPB && b + bi < l.size
    ensures BitBlock(l.bmapstart, b) == BitBlock(l.bmapstart, b + bi) < l.nmeta
    ensures BitByte(b + bi) == bi / 8 && (b + bi) % 8 == bi % 8
    ensures InUse(data, l.bmapstart, b + bi) == Bit(data[BitBlock(l.bmapstart, b)][bi / 8], bi % 8)
    ensures Allocated(l, data, b + bi) == data[BitBlock(l.bmapstart, b) :=
      data[BitBlock(l.bmapstart, b)][bi / 8 := Set(data[BitBlock(l.bmapstart, b)][bi / 8], bi % 8, true)]]
          [b + bi := ZERO]
  {
    hide Bit;
    BitArithmetic(b, bi, b / 4096);
    BitsStay(l, data, inode, data);
  }

  lemma BitArithmetic(b: nat, bi: nat, q: nat)
    requires b == 4096 * q && bi < 4096
    ensures (b + bi) / 4096 == q == b / 4096 && (b + bi) % 4096 == bi
    ensures (b + bi) % 8 == bi % 8
  {
    ModEight(512 * q, bi);
  }

  lemma ModEight(m: nat, bi: nat)
    ensures (8 * m + bi) % 8 == bi % 8
  {
  }
}
