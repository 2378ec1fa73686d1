/** What a file contains: the byte sequence behind bmap's block addresses, and the effect on
    every file of storing bytes in one of its blocks. */
module FileContents {
  import opened Blocks
  import opened Bitmap
  import opened FileBlocks
  import opened FileSystem

  /** Byte k of file ip; 0 where no block is mapped. */
  ghost function ByteAt(data: seq<Block>, inodes: seq<Inode>, ip: nat, k: nat): Byte {
    var addr := AddrAt(data, inodes, File(ip, k / BSIZE));
    if 0 < addr < |data| then data[addr][k % BSIZE] else 0
  }

  ghost function Bytes(data: seq<Block>, inodes: seq<Inode>, ip: nat, n: nat): (s: seq<Byte>)
    ensures |s| == n && forall k :: 0 <= k < n ==> s[k] == ByteAt(data, inodes, ip, k)
  {
    if n == 0 then [] else Bytes(data, inodes, ip, n - 1) + [ByteAt(data, inodes, ip, n - 1)]
  }

  /** A file is its first size bytes. */
  ghost function Contents(data: seq<Block>, inodes: seq<Inode>, ip: nat): seq<Byte>
    requires ip < |inodes|
  {
    Bytes(data, inodes, ip, inodes[ip].size)
  }

  /** The bytes of a file's mapped block, in order, are the block. */
  lemma BlockBytes(data: seq<Block>, inodes: seq<Inode>, ip: nat, bn: nat, n: nat)
    requires (bn + 1) * BSIZE <= n && 0 < AddrAt(data, inodes, File(ip, bn)) < |data|
    ensures Bytes(data, inodes, ip, n)[bn * BSIZE..(bn + 1) * BSIZE] == data[AddrAt(data, inodes, File(ip, bn))]
  {
    hide AddrAt;
    var b, piece := data[AddrAt(data, inodes, File(ip, bn))], Bytes(data, inodes, ip, n)[bn * BSIZE..(bn + 1) * BSIZE];
    forall i | 0 <= i < BSIZE
      ensures piece[i] == b[i]
    {
      assert (bn * BSIZE + i) / BSIZE == bn && (bn * BSIZE + i) % BSIZE == i;
      assert piece[i] == ByteAt(data, inodes, ip, bn * BSIZE + i);
    }
  }

  /** Every block below n bytes is allocated. */
  ghost predicate Backed(data: seq<Block>, inodes: seq<Inode>, ip: nat, n: nat) {
    forall bn: nat {:trigger AddrAt(data, inodes, File(ip, bn))} :: bn * BSIZE < n ==>
        AddrAt(data, inodes, File(ip, bn)) != 0
  }

  /** Every other file has the bytes it had. */
  ghost predicate OthersKeep(data: seq<Block>, inodes: seq<Inode>, data': seq<Block>, inodes': seq<Inode>, ip: nat) {
    && |inodes'| == |inodes|
    && (forall i :: 0 <= i < |inodes| && i != ip ==> inodes'[i] == inodes[i])
    && (forall i: nat, k: nat {:trigger ByteAt(data', inodes', i, k)} ::
          i != ip ==> ByteAt(data', inodes', i, k) == ByteAt(data, inodes, i, k))
    && (forall i: nat, n: nat {:trigger Backed(data', inodes', i, n)} ::
          i != ip && Backed(data, inodes, i, n) ==> Backed(data', inodes', i, n))
  }

  /** memmove(bp->data + o, src, |src|). */
  function Splice(b: Block, o: nat, src: seq<Byte>): (r: Block)
    requires o + |src| <= BSIZE
    ensures forall k :: 0 <= k < BSIZE ==> r[k] == if o <= k < o + |src| then src[k - o] else b[k]
  {
    b[..o] + src + b[o + |src|..]
  }

  /** Storing into a file's block moves no address and no other block. */
  lemma StoreOwned(l: Layout, data: seq<Block>, inodes: seq<Inode>, owner: map<nat, Place>, p: Place, b: Block)
    requires Owned(l, data, inodes, owner, NoCut, {}) && p.File? && AddrAt(data, inodes, p) != 0
    ensures var addr := AddrAt(data, inodes, p);
      && addr < |data|
      && var data' := data[addr := b];
      && Owned(l, data', inodes, owner, NoCut, {})
      && (forall q {:trigger AddrAt(data', inodes, q)} {:trigger AddrAt(data, inodes, q)} ::
            AddrAt(data', inodes, q) == AddrAt(data, inodes, q))
      && (forall q: Place {:trigger AddrAt(data, inodes, q)} ::
            q != p && 0 < AddrAt(data, inodes, q) < |data| ==>
                data'[AddrAt(data, inodes, q)] == data[AddrAt(data, inodes, q)])
  {
    hide AddrAt, InUse;
    var addr := AddrAt(data, inodes, p);
    var data' := data[addr := b];
    AddrsStay(l, data, data', inodes, owner, NoCut);
    BitsStay(l, data, inodes, data');
  }

  /** One block of a write: bytes [bn * BSIZE + o, + |src|) of file ip become src, all its other
      mapped bytes and all other files keep theirs. */
  lemma WriteTurn(l: Layout, d: seq<Block>, n: seq<Inode>, d1: seq<Block>, n1: seq<Inode>, owner1: map<nat, Place>,
                  ip: nat, bn: nat, addr: nat, o: nat, src: seq<Byte>)
    requires Owned(l, d1, n1, owner1, NoCut, {})
    requires Mapped(d, n, d1, n1, File(ip, bn), addr)
    requires o + |src| <= BSIZE
    ensures var d2 := d1[addr := Splice(d1[addr], o, src)];
      && Owned(l, d2, n1, owner1, NoCut, {})
      && (forall q {:trigger AddrAt(d2, n1, q)} :: AddrAt(d2, n1, q) == AddrAt(d1, n1, q))
      && (forall k: nat {:trigger ByteAt(d2, n1, ip, k)} ::
            bn * BSIZE + o <= k < bn * BSIZE + o + |src| ==> ByteAt(d2, n1, ip, k) == src[k - (bn * BSIZE + o)])
      && (forall k: nat {:trigger ByteAt(d2, n1, ip, k)} ::
            !(bn * BSIZE + o <= k < bn * BSIZE + o + |src|) && AddrAt(d, n, File(ip, k / BSIZE)) != 0 ==>
              ByteAt(d2, n1, ip, k) == ByteAt(d, n, ip, k))
      && OthersKeep(d, n, d2, n1, ip)
  {
    hide AddrAt, Owned;
    var p := File(ip, bn);
    var b := Splice(d1[addr], o, src);
    StoreOwned(l, d1, n1, owner1, p, b);
    var d2 := d1[addr := b];
    forall i: nat, k: nat
      ensures var written := i == ip && bn * BSIZE + o <= k < bn * BSIZE + o + |src|;
        && (written ==> ByteAt(d2, n1, i, k) == src[k - (bn * BSIZE + o)])
        && (!written && (i != ip || AddrAt(d, n, File(ip, k / BSIZE)) != 0) ==>
              ByteAt(d2, n1, i, k) == ByteAt(d, n, i, k))
    {
      var q := File(i, k / BSIZE);
      assert AddrAt(d2, n1, q) == AddrAt(d1, n1, q);
    }
    forall i: nat, m: nat | i != ip && Backed(d, n, i, m)
      ensures Backed(d2, n1, i, m)
    {
      forall b: nat | b * BSIZE < m
        ensures AddrAt(d2, n1, File(i, b)) != 0
      {
        assert AddrAt(d1, n1, File(i, b)) == AddrAt(d, n, File(i, b));
      }
    }
  }

  const WRAP := 0x1_0000_0000

  /** The file after writei of src at off. */
  ghost function Overwritten(was: seq<Byte>, off: nat, src: seq<Byte>): (r: seq<Byte>)
    requires off <= |was|
    ensures |r| == (if off + |src| > |was| then off + |src| else |was|)
    ensures forall k :: 0 <= k < |r| ==> r[k] == if off <= k < off + |src| then src[k - off] else was[k]
  {
    was[..off] + src + if off + |src| < |was| then was[off + |src|..] else []
  }

  /** The bytes of file ip from off on, at most n of them. A file whose blocks are all mapped is
      only read: bmap allocates nothing. */
  method Readi(v: Volume, ip: nat, off: Uint, n: Uint) returns (r: int, dst: seq<Byte>, ok: bool)
    requires v.Valid() && ip < |v.inode| && v.inode[ip].size <= MAXFILE * BSIZE
    requires Backed(v.data, v.inode, ip, v.inode[ip].size)
    modifies v`data, v`inode, v`owner
    ensures v.data == old(v.data) && v.inode == old(v.inode) && v.Valid() && ok
    ensures off > v.inode[ip].size || off + n >= WRAP ==> r == -1 && dst == []
    ensures off <= v.inode[ip].size && off + n < WRAP ==>
      && r == (if n <= v.inode[ip].size - off then n else v.inode[ip].size - off)
      && 0 <= off <= off + r <= |Contents(v.data, v.inode, ip)|
      && dst == Contents(v.data, v.inode, ip)[off..off + r]
  {
    hide Owned, Stays, AddrAt;
    dst, ok := [], true;
    if off > v.inode[ip].size || (off + n) % WRAP < off {
      return -1, dst, true;
    }
    var left := if off + n > v.inode[ip].size then v.inode[ip].size - off else n;
    ghost var d, nodes := v.data, v.inode;
    var tot, o := 0, off as nat;
    while tot < left
      invariant ok && 0 <= tot <= left && o == off + tot && |dst| == tot
      invariant v.Valid() && v.data == d && v.inode == nodes
      invariant forall k :: 0 <= k < tot ==> dst[k] == ByteAt(d, nodes, ip, off + k)
    {
      assert AddrAt(d, nodes, File(ip, o / BSIZE)) != 0;
      var addr;
      addr, ok := v.Bmap(ip, o / BSIZE);
      var m := if left - tot < BSIZE - o % BSIZE then left - tot else BSIZE - o % BSIZE;
      assert addr == AddrAt(d, nodes, File(ip, o / BSIZE)) && 0 < addr < |d|;
      ReadTurn(d, nodes, ip, off, dst, m, addr);
      dst := dst + v.data[addr][o % BSIZE..o % BSIZE + m];
      tot, o := tot + m, o + m;
    }
    r := left;
    assert dst == Contents(d, nodes, ip)[off..off + left];
  }

  /** The bytes of block addr that readi appends are the file's next ones. */
  lemma ReadTurn(d: seq<Block>, n: seq<Inode>, ip: nat, off: nat, dst: seq<Byte>, m: nat, addr: nat)
    requires var o := off + |dst|;
      addr == AddrAt(d, n, File(ip, o / BSIZE)) && 0 < addr < |d| && o % BSIZE + m <= BSIZE
    requires forall k :: 0 <= k < |dst| ==> dst[k] == ByteAt(d, n, ip, off + k)
    ensures var o := off + |dst|;
      var more := dst + d[addr][o % BSIZE..o % BSIZE + m];
      |more| == |dst| + m && forall k :: 0 <= k < |more| ==> more[k] == ByteAt(d, n, ip, off + k)
  {
    hide AddrAt;
    var o := off + |dst|;
    var more := dst + d[addr][o % BSIZE..o % BSIZE + m];
    forall k | |dst| <= k < |more|
      ensures more[k] == ByteAt(d, n, ip, off + k)
    {
      SameBlock(o, k - |dst|);
      assert more[k] == d[addr][o % BSIZE + (k - |dst|)];
    }
  }

  lemma SameBlock(o: nat, i: nat)
    requires o % BSIZE + i < BSIZE
    ensures (o + i) / BSIZE == o / BSIZE && (o + i) % BSIZE == o % BSIZE + i
  {
  }

  /** writei has stored src[..tot] at off; was is the state before the call. */
  ghost predicate Writing(d0: seq<Block>, n0: seq<Inode>, d: seq<Block>, n: seq<Inode>, ip: nat, off: nat,
                          src: seq<Byte>, tot: nat) {
    && ip < |n0| && tot <= |src| && off <= n0[ip].size
    && OthersKeep(d0, n0, d, n, ip)
    && n[ip].size == n0[ip].size
    && Backed(d, n, ip, if off + tot > n0[ip].size then off + tot else n0[ip].size)
    && (forall k: nat {:trigger ByteAt(d, n, ip, k)} :: off <= k < off + tot ==> ByteAt(d, n, ip, k) == src[k - off])
    && (forall k: nat {:trigger ByteAt(d, n, ip, k)} :: k < n0[ip].size && !(off <= k < off + tot) ==>
          ByteAt(d, n, ip, k) == ByteAt(d0, n0, ip, k))
    && (off + tot <= n0[ip].size ==> n == n0)
  }

  lemma WritingStart(d: seq<Block>, n: seq<Inode>, ip: nat, off: nat, src: seq<Byte>)
    requires ip < |n| && off <= n[ip].size && Backed(d, n, ip, n[ip].size)
    ensures Writing(d, n, d, n, ip, off, src, 0)
  {
    hide AddrAt, ByteAt;
  }

  /** One turn of writei's loop. */
  lemma WritingNext(l: Layout, d0: seq<Block>, n0: seq<Inode>, d: seq<Block>, n: seq<Inode>, d1: seq<Block>,
                    n1: seq<Inode>, owner1: map<nat, Place>, ip: nat, off: nat, src: seq<Byte>, tot: nat, m: nat,
                    addr: nat)
    requires Writing(d0, n0, d, n, ip, off, src, tot) && tot < |src|
    requires Owned(l, d1, n1, owner1, NoCut, {})
    requires Mapped(d, n, d1, n1, File(ip, (off + tot) / BSIZE), addr)
    requires m == if |src| - tot < BSIZE - (off + tot) % BSIZE then |src| - tot else BSIZE - (off + tot) % BSIZE
    ensures var d2 := d1[addr := Splice(d1[addr], (off + tot) % BSIZE, src[tot..tot + m])];
      Owned(l, d2, n1, owner1, NoCut, {}) && Writing(d0, n0, d2, n1, ip, off, src, tot + m)
  {
    hide AddrAt, ByteAt, Owned, Splice;
    var o, bn := (off + tot) % BSIZE, (off + tot) / BSIZE;
    var piece := src[tot..tot + m];
    var d2 := d1[addr := Splice(d1[addr], o, piece)];
    WriteTurn(l, d, n, d1, n1, owner1, ip, bn, addr, o, piece);
    assert bn * BSIZE + o == off + tot;
    BackedNext(d, n, d1, n1, d2, ip, bn, addr, n0[ip].size, off + tot, m);
    OthersTrans(d0, n0, d, n, d2, n1, ip);
    forall k: nat | off <= k < off + tot + m
      ensures ByteAt(d2, n1, ip, k) == src[k - off]
    {
      if k < off + tot {
        BackedAt(d, n, ip, off + tot, k);
        assert ByteAt(d, n, ip, k) == src[k - off];
      }
    }
    forall k: nat | k < n0[ip].size && !(off <= k < off + tot + m)
      ensures ByteAt(d2, n1, ip, k) == ByteAt(d0, n0, ip, k)
    {
      BackedAt(d, n, ip, n0[ip].size, k);
      assert ByteAt(d, n, ip, k) == ByteAt(d0, n0, ip, k);
    }
    if off + tot + m <= n0[ip].size {
      BackedAt(d, n, ip, n0[ip].size, off + tot);
    }
  }

  lemma BackedAt(d: seq<Block>, n: seq<Inode>, ip: nat, size: nat, k: nat)
    requires Backed(d, n, ip, size) && k < size
    ensures AddrAt(d, n, File(ip, k / BSIZE)) != 0
  {
    hide AddrAt;
    assert k / BSIZE * BSIZE < size;
  }

  lemma BackedNext(d: seq<Block>, n: seq<Inode>, d1: seq<Block>, n1: seq<Inode>, d2: seq<Block>, ip: nat, bn: nat,
                   addr: nat, size: nat, at: nat, m: nat)
    requires Mapped(d, n, d1, n1, File(ip, bn), addr)
    requires forall q {:trigger AddrAt(d2, n1, q)} :: AddrAt(d2, n1, q) == AddrAt(d1, n1, q)
    requires at / BSIZE == bn && m <= BSIZE - at % BSIZE
    requires Backed(d, n, ip, if at > size then at else size)
    ensures Backed(d2, n1, ip, if at + m > size then at + m else size)
  {
    hide AddrAt;
    forall b: nat | b * BSIZE < (if at + m > size then at + m else size)
      ensures AddrAt(d2, n1, File(ip, b)) != 0
    {
      if b != bn {
        assert b * BSIZE < (if at > size then at else size);
        assert AddrAt(d1, n1, File(ip, b)) == AddrAt(d, n, File(ip, b));
      }
    }
  }

  lemma OthersTrans(d0: seq<Block>, n0: seq<Inode>, d: seq<Block>, n: seq<Inode>, d2: seq<Block>, n2: seq<Inode>,
                    ip: nat)
    requires OthersKeep(d0, n0, d, n, ip) && OthersKeep(d, n, d2, n2, ip)
    ensures OthersKeep(d0, n0, d2, n2, ip)
  {
    hide ByteAt, Backed;
    forall i: nat, k: nat | i != ip
      ensures ByteAt(d2, n2, i, k) == ByteAt(d0, n0, i, k)
    {
      assert ByteAt(d, n, i, k) == ByteAt(d0, n0, i, k);
    }
    forall i: nat, m: nat | i != ip && Backed(d0, n0, i, m)
      ensures Backed(d2, n2, i, m)
    {
      assert Backed(d, n, i, m);
    }
  }

  /** writei: the file becomes Overwritten, every other file keeps its bytes, and the disk's
      inode is brought up to date exactly when the file grew; otherwise the inode did not change.
      ok is false where balloc panics, and then the volume is full. */
  method Writei(v: Volume, ip: nat, src: seq<Byte>, off: Uint) returns (r: int, ok: bool)
    requires v.Valid() && ip < |v.inode| && |src| < WRAP
    requires v.inode[ip].size <= MAXFILE * BSIZE && Backed(v.data, v.inode, ip, v.inode[ip].size)
    modifies v`data, v`inode, v`owner, v`dinode
    ensures v.Valid() && |v.inode| == |old(v.inode)|
    ensures off > old(v.inode)[ip].size || off + |src| >= WRAP || off + |src| > MAXFILE * BSIZE ==>
      r == -1 && ok && v.data == old(v.data) && v.inode == old(v.inode) && v.dinode == old(v.dinode)
    ensures ok && r != -1 ==>
      && r == |src| && off <= |Contents(old(v.data), old(v.inode), ip)|
      && Contents(v.data, v.inode, ip) == Overwritten(Contents(old(v.data), old(v.inode), ip), off, src)
      && v.inode[ip].size <= MAXFILE * BSIZE && Backed(v.data, v.inode, ip, v.inode[ip].size)
      && OthersKeep(old(v.data), old(v.inode), v.data, v.inode, ip)
      && v.dinode == (if off + |src| > old(v.inode)[ip].size then old(v.dinode)[ip := v.inode[ip]] else old(v.dinode))
      && (off + |src| <= old(v.inode)[ip].size ==> v.inode == old(v.inode))
    ensures ok && off <= old(v.inode)[ip].size && off + |src| < WRAP && off + |src| <= MAXFILE * BSIZE ==> r == |src|
    ensures !ok ==> Full(v.l, v.data)
  {
    hide Owned, Stays, AddrAt, Writing, Full, Mapped, Backed, OthersKeep, ByteAt;
    ok := true;
    var n := |src|;
    if off > v.inode[ip].size || (off + n) % WRAP < off {
      return -1, true;
    }
    if off + n > MAXFILE * BSIZE {
      return -1, true;
    }
    ghost var d0, n0 := v.data, v.inode;
    WritingStart(d0, n0, ip, off, src);
    var tot, o := 0, off as nat;
    while tot < n
      invariant 0 <= tot <= n && o == off + tot
      invariant v.Valid() && |v.inode| == |n0| && Writing(d0, n0, v.data, v.inode, ip, off, src, tot)
      modifies v`data, v`inode, v`owner
    {
      ghost var d, nodes := v.data, v.inode;
      var addr;
      addr, ok := v.Bmap(ip, o / BSIZE);
      if !ok {
        FullSizes(d, nodes, v.data, v.inode, Index(ip));
        return 0, false;
      }
      var m := if n - tot < BSIZE - o % BSIZE then n - tot else BSIZE - o % BSIZE;
      MappedSizes(d, nodes, v.data, v.inode, File(ip, o / BSIZE), addr);
      WritingNext(v.l, d0, n0, d, nodes, v.data, v.inode, v.owner, ip, off, src, tot, m, addr);
      v.data := v.data[addr := Splice(v.data[addr], o % BSIZE, src[tot..tot + m])];
      tot, o := tot + m, o + m;
    }
    WritingDone(v.l, d0, n0, v.data, v.inode, v.owner, ip, off, src);
    if n > 0 && o > v.inode[ip].size {
      v.inode := v.inode[ip := v.inode[ip].(size := o)];
      v.Iupdate(ip);
    }
    r := n;
  }

  lemma MappedSizes(d: seq<Block>, n: seq<Inode>, d': seq<Block>, n': seq<Inode>, p: Place, addr: nat)
    requires Mapped(d, n, d', n', p, addr)
    ensures |n'| == |n| && addr < |d'|
  {
    hide AddrAt;
  }

  lemma FullSizes(d: seq<Block>, n: seq<Inode>, d': seq<Block>, n': seq<Inode>, p: Place)
    requires Stays(d, n, d', n', p)
    ensures |n'| == |n|
  {
    hide AddrAt;
  }

  /** The finished loop, with the size it leads to. */
  lemma WritingDone(l: Layout, d0: seq<Block>, n0: seq<Inode>, d: seq<Block>, n: seq<Inode>, owner: map<nat, Place>,
                    ip: nat, off: nat, src: seq<Byte>)
    requires Writing(d0, n0, d, n, ip, off, src, |src|) && Owned(l, d, n, owner, NoCut, {})
    ensures |n| == |n0| && n[ip].size == n0[ip].size && off <= |Contents(d0, n0, ip)|
    ensures off + |src| <= n0[ip].size ==> n == n0
    ensures var size := if off + |src| > n0[ip].size then off + |src| else n0[ip].size;
      var n' := n[ip := n[ip].(size := size)];
      && Owned(l, d, n', owner, NoCut, {})
      && Contents(d, n', ip) == Overwritten(Contents(d0, n0, ip), off, src)
      && Backed(d, n', ip, size) && OthersKeep(d0, n0, d, n', ip)
      && (size == n0[ip].size ==> n' == n)
  {
    var size := if off + |src| > n0[ip].size then off + |src| else n0[ip].size;
    var n' := n[ip := n[ip].(size := size)];
    hide AddrAt, Owned, ByteAt, Backed, Overwritten, Bytes;
    NewSize(l, d, n, owner, ip, size);
    var now, want := Contents(d, n', ip), Overwritten(Contents(d0, n0, ip), off, src);
    forall k: nat | k < size
      ensures now[k] == want[k]
    {
      assert ByteAt(d, n', ip, k) == ByteAt(d, n, ip, k);
    }
    assert now == want;
    OthersTrans(d0, n0, d, n, d, n', ip);
  }

  lemma NewSize(l: Layout, d: seq<Block>, n: seq<Inode>, owner: map<nat, Place>, ip: nat, size: nat)
    requires Owned(l, d, n, owner, NoCut, {}) && ip < |n|
    ensures var n' := n[ip := n[ip].(size := size)];
      && Owned(l, d, n', owner, NoCut, {})
      && (forall k: nat {:trigger ByteAt(d, n', ip, k)} :: ByteAt(d, n', ip, k) == ByteAt(d, n, ip, k))
      && (forall m: nat :: Backed(d, n, ip, m) ==> Backed(d, n', ip, m))
      && OthersKeep(d, n, d, n', ip)
  {
    SizeOnly(l, d, n, owner, ip, size);
    hide AddrAt, Owned;
  }
}
