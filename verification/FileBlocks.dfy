/** Which block belongs to what (kernel/fs.c): the places a block address can be stored, and
    the invariant that the bitmap marks exactly the metadata and the owned blocks, each owned
    by one place. */
module FileBlocks {
  import opened Blocks
  import opened Bitmap

  const NDIRECT := 12
  const NINDIRECT := WORDS
  const MAXFILE := NDIRECT + NINDIRECT

  /** sb.size and sb.bmapstart; blocks below nmeta are the boot block, the super block, the log,
      the inodes and the bitmap. */
  datatype Layout = Layout(size: nat, nmeta: nat, bmapstart: nat)

  datatype Inode = Inode(size: nat, addrs: seq<Uint>)

  /** The n-th block of a file, or the file's indirect block. */
  datatype Place = File(ino: nat, bn: nat) | Index(ino: nat)

  ghost predicate Sound(l: Layout, data: seq<Block>, inodes: seq<Inode>) {
    && 0 < l.nmeta <= l.size <= |data| && l.size < 0x1_0000_0000
    && BitBlock(l.bmapstart, l.size - 1) < l.nmeta
    && (forall i :: 0 <= i < |inodes| ==> |inodes[i].addrs| == NDIRECT + 1)
  }

  predicate ValidPlace(inodes: seq<Inode>, p: Place) {
    p.ino < |inodes| && (p.File? ==> p.bn < MAXFILE)
  }

  /** The block address stored at p, 0 for none. */
  ghost function AddrAt(data: seq<Block>, inodes: seq<Inode>, p: Place): Uint {
    if !ValidPlace(inodes, p) || |inodes[p.ino].addrs| != NDIRECT + 1 then 0
    else
      var addrs := inodes[p.ino].addrs;
      if p.Index? then addrs[NDIRECT]
      else if p.bn < NDIRECT then addrs[p.bn]
      else if addrs[NDIRECT] == 0 || addrs[NDIRECT] >= |data| then 0
      else Word(data[addrs[NDIRECT]], p.bn - NDIRECT)
  }

  /** What itrunc has already freed of a file's indirect block, whose entries it leaves. */
  datatype Cut = NoCut | Cut(ino: nat, entries: nat)

  predicate IsCut(c: Cut, p: Place) {
    c.Cut? && p.File? && p.ino == c.ino && NDIRECT <= p.bn < NDIRECT + c.entries
  }

  /** owner inverts AddrAt on the places not cut off. */
  ghost predicate Inverse(l: Layout, data: seq<Block>, inodes: seq<Inode>, owner: map<nat, Place>, cut: Cut) {
    && (forall p {:trigger AddrAt(data, inodes, p)} ::
          AddrAt(data, inodes, p) != 0 && !IsCut(cut, p) ==>
            AddrAt(data, inodes, p) in owner && owner[AddrAt(data, inodes, p)] == p)
    && (forall b :: b in owner ==>
        l.nmeta <= b < l.size && AddrAt(data, inodes, owner[b]) == b && !IsCut(cut, owner[b]))
  }

  /** The bitmap marks the metadata, the owned blocks and the blocks in loose. */
  ghost predicate Accounted(l: Layout, data: seq<Block>, owner: map<nat, Place>, loose: set<nat>)
    requires l.size > 0 ==> BitBlock(l.bmapstart, l.size - 1) < |data|
  {
    forall b :: 0 <= b < l.size ==>
      (InUse(data, l.bmapstart, b) <==> b < l.nmeta || b in owner || b in loose)
  }

  ghost predicate Owned(l: Layout, data: seq<Block>, inodes: seq<Inode>, owner: map<nat, Place>, cut: Cut,
                        loose: set<nat>) {
    Sound(l, data, inodes) && Inverse(l, data, inodes, owner, cut) && Accounted(l, data, owner, loose)
  }

  // ---- balloc and bfree ----

  ghost function Allocated(l: Layout, data: seq<Block>, b: nat): (r: seq<Block>)
    requires BitBlock(l.bmapstart, b) < |data| && b < |data|
    ensures |r| == |data|
  {
    Marked(data, l.bmapstart, b, true)[b := ZERO]
  }

  /** balloc marks one free block and nothing else below the data blocks changes. */
  lemma AllocBits(l: Layout, data: seq<Block>, owner: map<nat, Place>, b: nat, data': seq<Block>)
    requires 0 < l.nmeta <= l.size <= |data| && BitBlock(l.bmapstart, l.size - 1) < l.nmeta
    requires Accounted(l, data, owner, {})
    requires b < l.size && !InUse(data, l.bmapstart, b) && data' == Allocated(l, data, b)
    ensures l.nmeta <= b && b !in owner
    ensures Accounted(l, data', owner, {b})
    ensures forall x {:trigger data'[x]} :: l.nmeta <= x < |data| && x != b ==> data'[x] == data[x]
    ensures data'[b] == ZERO
  {
    hide Bit, WithBit, BitByte;
    MarkedBits(data, l.bmapstart, l.size, b, true);
    assert b !in owner && l.nmeta <= b;
    forall x | 0 <= x < l.size
      ensures InUse(data', l.bmapstart, x) == (InUse(data, l.bmapstart, x) || x == b)
    {
      assert BitBlock(l.bmapstart, x) <= BitBlock(l.bmapstart, l.size - 1);
    }
  }

  /** Blocks from nmeta on that nobody owns can change without moving any address. */
  lemma AddrsStay(l: Layout, data: seq<Block>, data': seq<Block>, inodes: seq<Inode>, owner: map<nat, Place>, cut: Cut)
    requires Sound(l, data, inodes) && Inverse(l, data, inodes, owner, cut) && |data'| == |data|
    requires forall x {:trigger data'[x]} :: 0 <= x < |data| && x in owner && owner[x].Index? ==> data'[x] == data[x]
    ensures forall p {:trigger AddrAt(data', inodes, p)} {:trigger AddrAt(data, inodes, p)} ::
      AddrAt(data', inodes, p) == AddrAt(data, inodes, p)
  {
    hide Word;
    forall p
      ensures AddrAt(data', inodes, p) == AddrAt(data, inodes, p)
    {
      assert AddrAt(data, inodes, Index(p.ino)) != 0 ==> owner[AddrAt(data, inodes, Index(p.ino))] == Index(p.ino);
    }
  }

  /** balloc's block was free, so nobody owned it, and no address moves. */
  lemma AllocOwned(l: Layout, data: seq<Block>, inodes: seq<Inode>, owner: map<nat, Place>, b: nat, data': seq<Block>)
    requires Owned(l, data, inodes, owner, NoCut, {})
    requires b < l.size && !InUse(data, l.bmapstart, b) && data' == Allocated(l, data, b)
    ensures l.nmeta <= b && b !in owner && data'[b] == ZERO
    ensures Owned(l, data', inodes, owner, NoCut, {b})
    ensures forall p {:trigger AddrAt(data', inodes, p)} {:trigger AddrAt(data, inodes, p)} ::
      AddrAt(data', inodes, p) == AddrAt(data, inodes, p)
    ensures forall x {:trigger data'[x]} :: l.nmeta <= x < |data| && x != b ==> data'[x] == data[x]
  {
    hide AddrAt, InUse, Accounted, Allocated;
    AllocBits(l, data, owner, b, data');
    AddrsStay(l, data, data', inodes, owner, NoCut);
  }

  // ---- giving a loose block to a place, and taking a block from one ----

  lemma BitsStay(l: Layout, data: seq<Block>, inodes: seq<Inode>, data': seq<Block>)
    requires Sound(l, data, inodes) && |data'| == |data|
    requires forall x :: 0 <= x < l.nmeta ==> data'[x] == data[x]
    ensures forall x :: 0 <= x < l.size ==>
      BitBlock(l.bmapstart, x) < l.nmeta && InUse(data', l.bmapstart, x) == InUse(data, l.bmapstart, x)
  {
    hide Bit, BitByte;
    forall x | 0 <= x < l.size
      ensures BitBlock(l.bmapstart, x) <= BitBlock(l.bmapstart, l.size - 1)
    {
    }
  }

  /** A place that held no address receives block b. */
  lemma Attach(l: Layout, data: seq<Block>, inodes: seq<Inode>, owner: map<nat, Place>, b: nat, p: Place,
               data': seq<Block>, inodes': seq<Inode>)
    requires Owned(l, data, inodes, owner, NoCut, {b}) && b !in owner && l.nmeta <= b < l.size
    requires Sound(l, data', inodes') && |data'| == |data|
    requires AddrAt(data, inodes, p) == 0 && AddrAt(data', inodes', p) == b
    requires forall q {:trigger AddrAt(data', inodes', q)} {:trigger AddrAt(data, inodes, q)} ::
      q != p ==> AddrAt(data', inodes', q) == AddrAt(data, inodes, q)
    requires forall x :: 0 <= x < l.nmeta ==> data'[x] == data[x]
    ensures Owned(l, data', inodes', owner[b := p], NoCut, {})
  {
    hide AddrAt, InUse, BitBlock;
    BitsStay(l, data, inodes, data');
  }

  /** The block at p is unmarked and p emptied, or cut off. */
  lemma Detach(l: Layout, data: seq<Block>, inodes: seq<Inode>, owner: map<nat, Place>, cut: Cut, p: Place,
               data': seq<Block>, inodes': seq<Inode>, cut': Cut)
    requires Owned(l, data, inodes, owner, cut, {})
    requires AddrAt(data, inodes, p) != 0 && !IsCut(cut, p)
    requires Sound(l, data', inodes') && data' == Marked(data, l.bmapstart, AddrAt(data, inodes, p), false)
    requires forall q {:trigger AddrAt(data', inodes', q)} {:trigger AddrAt(data, inodes, q)} ::
      q != p && !IsCut(cut', q) ==> AddrAt(data', inodes', q) == AddrAt(data, inodes, q)
    requires IsCut(cut', p) || AddrAt(data', inodes', p) == 0
    requires forall q :: q != p ==> IsCut(cut', q) == IsCut(cut, q)
    ensures Owned(l, data', inodes', owner - {AddrAt(data, inodes, p) as nat}, cut', {})
  {
    hide AddrAt, Bit, BitByte, IsCut, WithBit;
    MarkedBits(data, l.bmapstart, l.size, AddrAt(data, inodes, p), false);
  }
}
