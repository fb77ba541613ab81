/** Machine integers and bytes as the TFTP server and the proxy see them. */
module Bytes {
  newtype byte = b: int | 0 <= b < 0x100

  type uint16 = n: int | 0 <= n < 0x1_0000

  const NUL: byte := 0
  const LF: byte := 10
  const CR: byte := 13

  // A signed char holding this byte compares equal to the EOF that getc returns.
  const EOF_BYTE: byte := 255

  /** Pieces one behind the other. */
  function Flatten(chunks: seq<seq<byte>>): seq<byte> {
    if chunks == [] then [] else chunks[0] + Flatten(chunks[1..])
  }

  /** What bswap_16 does: exchange the two bytes of a 16-bit word. */
  function Bswap16(x: uint16): uint16 {
    x % 256 * 256 + x / 256
  }

  /** The memory image of a 16-bit word on the little-endian host: low byte first. */
  function StoreLE(x: uint16): seq<byte> {
    [(x % 256) as byte, (x / 256) as byte]
  }

  function LoadLE(first: byte, second: byte): uint16 {
    first as int + 256 * second as int
  }

  /** The two bytes of a block number in network order, which is what a swapped word looks like in memory. */
  function NetworkOrder(x: uint16): (s: seq<byte>)
    ensures |s| == 2
  {
    [(x / 256) as byte, (x % 256) as byte]
  }

  /** The word that two bytes in network order stand for. */
  function FromNetworkOrder(first: byte, second: byte): uint16 {
    256 * first as int + second as int
  }

  lemma SwappedStoreIsNetworkOrder(x: uint16)
    ensures StoreLE(Bswap16(x)) == NetworkOrder(x)
    ensures FromNetworkOrder(NetworkOrder(x)[0], NetworkOrder(x)[1]) == x
  {
    var hi, lo := x / 256, x % 256;
    assert x == 256 * hi + lo;
    assert Bswap16(x) / 256 == lo && Bswap16(x) % 256 == hi;
  }

  /** What bswap_16 makes of the word in memory is the word in network order. */
  lemma SwappedLoadIsNetworkOrder(first: byte, second: byte)
    ensures Bswap16(LoadLE(first, second)) == FromNetworkOrder(first, second)
  {
    var x := LoadLE(first, second);
    assert x / 256 == second as int && x % 256 == first as int;
  }

  /** Every pair of bytes is the network order of the word the parser reads from it. */
  lemma NetworkOrderOfRead(first: byte, second: byte)
    ensures NetworkOrder(FromNetworkOrder(first, second)) == [first, second]
  {
  }
}
