/** How a stream of bytes is cut into numbered blocks (section 6 of RFC 1350). */
module Blocks {
  import opened Bytes
  import opened Netascii

  /** The number of blocks that a source of this length is sent in; the last one is short. */
  function BlockCount(src: seq<byte>): nat {
    |src| / BLOCK_SIZE + 1
  }

  function End(src: seq<byte>, i: nat): nat {
    if i * 512 <= |src| then i * 512 else |src|
  }

  /** Block i of a source, counting from 1. */
  function Block(src: seq<byte>, i: nat): seq<byte>
    requires 1 <= i <= BlockCount(src)
  {
    src[(i - 1) * 512..End(src, i)]
  }

  /** The 16-bit number that block i carries. */
  function Num(i: nat): uint16 {
    i % 0x1_0000
  }

  lemma ConsecutiveNums(i: nat)
    ensures Num(i) != Num(i + 1)
    ensures Num(i + 1) > Num(i) <==> Num(i + 1) != 0
  {
  }

  lemma LastBlockIsShort(src: seq<byte>, i: nat)
    requires 1 <= i <= BlockCount(src)
    ensures |Block(src, i)| < BLOCK_SIZE <==> i == BlockCount(src)
  {
  }

  lemma SliceBlock(src: seq<byte>, l: nat)
    requires 1 <= l < BlockCount(src)
    ensures var left := src[(l - 1) * 512..];
      |left| >= BLOCK_SIZE && left[..BLOCK_SIZE] == Block(src, l) && left[BLOCK_SIZE..] == src[l * 512..]
  {
  }

  lemma BlockExtendsFront(src: seq<byte>, l: nat)
    requires 1 <= l <= BlockCount(src)
    ensures End(src, l - 1) + |Block(src, l)| == End(src, l) <= |src|
    ensures src[..End(src, l - 1)] + Block(src, l) == src[..End(src, l)]
  {
  }
}
