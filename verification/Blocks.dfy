/** Disk blocks as the kernel sees them: BSIZE bytes that some code also reads as
    little-endian 32-bit words (the log header, indirect blocks). */
module Blocks {

  const BSIZE := 512
  const WORDS := 128

  /** The buffers in the block cache. */
  const NBUF := 30

  type Byte = x: int | 0 <= x < 0x100
  type Uint = x: int | 0 <= x < 0x1_0000_0000
  type Block = b: seq<Byte> | |b| == BSIZE witness seq(BSIZE, _ => 0)

  const ZERO: Block := Zeros(BSIZE)

  function Zeros(n: nat): (s: seq<Byte>)
    ensures |s| == n && forall i :: 0 <= i < n ==> s[i] == 0
  {
    if n == 0 then [] else Zeros(n - 1) + [0]
  }

  function Limit(n: nat): nat {
    if n == 0 then 1 else 0x100 * Limit(n - 1)
  }

  /** The number whose little-endian bytes are s. */
  function Decode(s: seq<Byte>): (v: nat)
    ensures v < Limit(|s|)
  {
    if s == [] then 0 else s[0] as int + 0x100 * Decode(s[1..])
  }

  /** The n little-endian bytes of v. */
  function Encode(v: nat, n: nat): (s: seq<Byte>)
    requires v < Limit(n)
    ensures |s| == n && Decode(s) == v
  {
    if n == 0 then [] else
      var s := [v % 0x100] + Encode(v / 0x100, n - 1);
      assert s[1..] == Encode(v / 0x100, n - 1);
      s
  }

  /** The i-th word of a block, `((uint *)bp->data)[i]`. */
  function Word(b: Block, i: nat): (w: Uint)
    requires i < WORDS
  {
    assert Limit(4) == 0x1_0000_0000;
    Decode(b[4*i..4*i+4])
  }

  /** The block after `((uint *)bp->data)[i] = w`. */
  function PutWord(b: Block, i: nat, w: Uint): (r: Block)
    requires i < WORDS
    ensures Word(r, i) == w
    ensures forall j: nat :: j < WORDS && j != i ==> Word(r, j) == Word(b, j)
  {
    assert Limit(4) == 0x1_0000_0000;
    var r := b[..4*i] + Encode(w, 4) + b[4*i+4..];
    assert r[4*i..4*i+4] == Encode(w, 4);
    assert forall j: nat {:trigger Word(b, j)} :: j < WORDS && j != i ==> r[4*j..4*j+4] == b[4*j..4*j+4];
    r
  }
}
