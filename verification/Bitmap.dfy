/** The free-block bitmap (kernel/fs.c): balloc's and bfree's bit operations. */
module Bitmap {
  import opened Blocks

  const BPB := 4096

  function Pow2(k: nat): (p: nat)
    ensures p > 0
  {
    if k == 0 then 1 else 2 * Pow2(k - 1)
  }

  /** `x & (1 << k)` is nonzero. */
  predicate Bit(x: nat, k: nat) {
    if k == 0 then x % 2 == 1 else Bit(x / 2, k - 1)
  }

  /** `x | (1 << k)` or `x & ~(1 << k)`. */
  function WithBit(x: nat, k: nat, on: bool): nat {
    if k == 0 then x / 2 * 2 + (if on then 1 else 0)
    else x % 2 + 2 * WithBit(x / 2, k - 1, on)
  }

  /** Bit k becomes on, the others stay. */
  lemma {:induction false} WithBitBits(x: nat, k: nat, on: bool, i: nat)
    ensures Bit(WithBit(x, k, on), i) == if i == k then on else Bit(x, i)
  {
    if k > 0 && i > 0 {
      WithBitBits(x / 2, k - 1, on, i - 1);
    }
  }

  lemma {:induction false} WithBitBound(x: nat, k: nat, on: bool, n: nat)
    requires k < n && x < Pow2(n)
    ensures WithBit(x, k, on) < Pow2(n)
  {
    if k > 0 {
      WithBitBound(x / 2, k - 1, on, n - 1);
    }
  }

  /** Where block b's bit is. */
  function BitBlock(start: nat, b: nat): nat { start + b / BPB }
  function BitByte(b: nat): (i: nat)
    ensures i < BSIZE
  {
    b % BPB / 8
  }

  ghost predicate Holds(data: seq<Block>, start: nat, size: nat) {
    size > 0 ==> BitBlock(start, size - 1) < |data|
  }

  /** Block b is marked in use. */
  predicate InUse(data: seq<Block>, start: nat, b: nat)
    requires BitBlock(start, b) < |data|
  {
    Bit(data[BitBlock(start, b)][BitByte(b)], b % 8)
  }

  function Marked(data: seq<Block>, start: nat, b: nat, on: bool): (r: seq<Block>)
    requires BitBlock(start, b) < |data|
    ensures |r| == |data|
    ensures forall x :: 0 <= x < |data| && x != BitBlock(start, b) ==> r[x] == data[x]
  {
    var block := data[BitBlock(start, b)];
    assert Pow2(8) == 0x100;
    WithBitBound(block[BitByte(b)], b % 8, on, 8);
    data[BitBlock(start, b) := block[BitByte(b) := WithBit(block[BitByte(b)], b % 8, on)]]
  }

  /** Marking one block changes no other block's mark. */
  lemma MarkedBits(data: seq<Block>, start: nat, size: nat, b: nat, on: bool)
    requires Holds(data, start, size) && b < size
    ensures BitBlock(start, b) < |data|
    ensures forall x :: 0 <= x < size ==>
      InUse(Marked(data, start, b, on), start, x) == if x == b then on else InUse(data, start, x)
  {
    forall x | 0 <= x < size
      ensures BitBlock(start, x) < |data|
      ensures InUse(Marked(data, start, b, on), start, x) == if x == b then on else InUse(data, start, x)
    {
      MarkedBit(data, start, b, on, x);
    }
  }

  lemma MarkedBit(data: seq<Block>, start: nat, b: nat, on: bool, x: nat)
    requires BitBlock(start, b) < |data| && BitBlock(start, x) < |data|
    ensures InUse(Marked(data, start, b, on), start, x) == if x == b then on else InUse(data, start, x)
  {
    hide Bit, WithBit;
    WithBitBits(data[BitBlock(start, b)][BitByte(b)], b % 8, on, x % 8);
    SameBit(x, b);
  }

  lemma SameBit(x: nat, b: nat)
    ensures x / BPB == b / BPB && BitByte(x) == BitByte(b) && x % 8 == b % 8 ==> x == b
  {
  }

  /** The weights of the first n bits of x that are on. */
  function Weights(x: nat, n: nat): nat {
    if n == 0 then 0 else Weights(x, n - 1) + if Bit(x, n - 1) then Pow2(n - 1) else 0
  }

  lemma {:induction false} WeightsHalf(x: nat, n: nat)
    requires n > 0
    ensures Weights(x, n) == x % 2 + 2 * Weights(x / 2, n - 1)
  {
    if n > 1 {
      WeightsHalf(x, n - 1);
    } else {
      assert Weights(x, 0) == 0 && Pow2(0) == 1;
    }
  }

  /** Bit k weighs 2 to the k: a number is the sum of its bits. */
  lemma {:induction false} BitWeight(x: nat, n: nat)
    requires x < Pow2(n)
    ensures Weights(x, n) == x
  {
    if n > 0 {
      BitWeight(x / 2, n - 1);
      WeightsHalf(x, n);
    }
  }

  lemma {:induction false} NoBits(k: nat)
    ensures !Bit(0, k)
  {
    if k > 0 {
      NoBits(k - 1);
    }
  }

  /** mkfs's bitmap block: the kernel finds exactly the first used blocks in use. */
  method MkfsBitmap(used: nat) returns (buf: Block)
    requires used < BSIZE * 8
    ensures forall data: seq<Block>, start: nat, b: nat ::
      start < |data| && data[start] == buf && b < BPB ==> (InUse(data, start, b) <==> b < used)
  {
    hide Bit, WithBit;
    buf := ZERO;
    forall k: nat
      ensures !Bit(0, k)
    {
      NoBits(k);
    }
    var i := 0;
    while i < used
      invariant i <= used
      invariant forall b: nat :: b < BPB ==> (Bit(buf[b / 8], b % 8) <==> b < i)
    {
      assert Pow2(8) == 0x100;
      WithBitBound(buf[i / 8], i % 8, true, 8);
      ghost var was := buf;
      buf := buf[i / 8 := WithBit(buf[i / 8], i % 8, true)];
      forall b: nat | b < BPB
        ensures Bit(buf[b / 8], b % 8) <==> b < i + 1
      {
        WithBitBits(was[i / 8], i % 8, true, b % 8);
        assert b == 8 * (b / 8) + b % 8;
      }
      i := i + 1;
    }
  }
}
