/** The TFTP packets of section 5 of RFC 1350: their wire form, and the routines that build and take apart buffers. */
module Packets {
  import opened Bytes
  import opened Netascii

  const PACKET_SIZE := 516

  const DATA_OPCODE: uint16 := 3
  const ACK_OPCODE: uint16 := 4
  const ERROR_OPCODE: uint16 := 5

  datatype Packet = Data(num: uint16, payload: seq<byte>) | Ack(num: uint16) | Error | Unknown

  function WireData(num: uint16, payload: seq<byte>): seq<byte> {
    [NUL, 3] + NetworkOrder(num) + payload
  }

  function WireAck(num: uint16): seq<byte> {
    [NUL, 4] + NetworkOrder(num)
  }

  /** The 16-bit word that a struct field at this offset holds after bswap_16 (see ReadSwapped). */
  function ReadWord(s: seq<byte>, at: nat): uint16
    requires at + 2 <= |s|
  {
    FromNetworkOrder(s[at], s[at + 1])
  }

  /** A field of a packet struct that lies over the buffer, after bswap_16. */
  method ReadSwapped(buf: array<byte>, at: nat) returns (x: uint16)
    requires at + 2 <= buf.Length
    ensures x == ReadWord(buf[..], at)
  {
    x := Bswap16(LoadLE(buf[at], buf[at + 1]));
    SwappedLoadIsNetworkOrder(buf[at], buf[at + 1]);
  }

  /** How the handlers understand a datagram of at least four bytes. */
  function Parse(s: seq<byte>): Packet
    requires 4 <= |s|
  {
    var opcode := ReadWord(s, 0);
    if opcode == DATA_OPCODE then Data(ReadWord(s, 2), s[4..])
    else if opcode == ACK_OPCODE then Ack(ReadWord(s, 2))
    else if opcode == ERROR_OPCODE then Error
    else Unknown
  }

  lemma ReadWordOfNetworkOrder(s: seq<byte>, at: nat, x: uint16)
    requires at + 2 <= |s| && s[at..at + 2] == NetworkOrder(x)
    ensures ReadWord(s, at) == x
  {
    assert s[at] == s[at..at + 2][0] && s[at + 1] == s[at..at + 2][1];
    SwappedStoreIsNetworkOrder(x);
  }

  /** Reading back a DATA packet gives the block number and the payload it was made of. */
  lemma ParseWireData(num: uint16, payload: seq<byte>)
    ensures Parse(WireData(num, payload)) == Data(num, payload)
  {
    var s := WireData(num, payload);
    assert s[0..2] == NetworkOrder(DATA_OPCODE);
    assert s[2..4] == NetworkOrder(num);
    ReadWordOfNetworkOrder(s, 0, DATA_OPCODE);
    ReadWordOfNetworkOrder(s, 2, num);
    assert s[4..] == payload;
  }

  lemma ParseWireAck(num: uint16)
    ensures Parse(WireAck(num)) == Ack(num)
  {
    var s := WireAck(num);
    assert s[0..2] == NetworkOrder(ACK_OPCODE);
    assert s[2..4] == NetworkOrder(num);
    ReadWordOfNetworkOrder(s, 0, ACK_OPCODE);
    ReadWordOfNetworkOrder(s, 2, num);
  }

  /** No two datagrams read as the same DATA packet: its bytes can be written back. */
  lemma WireDataOfParse(s: seq<byte>)
    requires 4 <= |s| && Parse(s).Data?
    ensures WireData(Parse(s).num, Parse(s).payload) == s
  {
    NetworkOrderOfRead(s[0], s[1]);
    NetworkOrderOfRead(s[2], s[3]);
    assert s == [s[0], s[1]] + [s[2], s[3]] + s[4..];
  }

  // ---- the buffer routines ----

  /** memcpy between two buffers. */
  method CopyBytes(buf: array<byte>, at: nat, source: array<byte>, n: nat)
    requires at + n <= buf.Length && n <= source.Length && buf != source
    modifies buf
    ensures buf[..at] == old(buf[..at]) && buf[at..at + n] == source[..n] && buf[at + n..] == old(buf[at + n..])
  {
    forall i | 0 <= i < n {
      buf[at + i] := source[i];
    }
  }

  /** memcpy of a 16-bit word. */
  method StoreWord(buf: array<byte>, at: nat, x: uint16)
    requires at + 2 <= buf.Length
    modifies buf
    ensures buf[..at] == old(buf[..at]) && buf[at..at + 2] == StoreLE(x) && buf[at + 2..] == old(buf[at + 2..])
  {
    buf[at] := StoreLE(x)[0];
    buf[at + 1] := StoreLE(x)[1];
  }

  /** The opcode and the block number that every DATA and ACK packet starts with. */
  method StoreHeader(buf: array<byte>, opcode: uint16, num: uint16)
    requires 4 <= buf.Length
    modifies buf
    ensures buf[..4] == NetworkOrder(opcode) + NetworkOrder(num) && buf[4..] == old(buf[4..])
  {
    StoreWord(buf, 0, Bswap16(opcode));
    StoreWord(buf, 2, Bswap16(num));
    SwappedStoreIsNetworkOrder(opcode);
    SwappedStoreIsNetworkOrder(num);
    assert buf[..4] == buf[..2] + buf[2..4];
  }

  method DataToBuffer(buf: array<byte>, num: uint16, payload: array<byte>)
    requires buf.Length == PACKET_SIZE && payload.Length == BLOCK_SIZE && buf != payload
    modifies buf
    ensures buf[..] == WireData(num, payload[..])
  {
    StoreHeader(buf, DATA_OPCODE, num);
    CopyBytes(buf, 4, payload, BLOCK_SIZE);
    assert payload[..BLOCK_SIZE] == payload[..];
    assert buf[..] == buf[..4] + buf[4..4 + BLOCK_SIZE];
  }

  method AckToBuffer(buf: array<byte>, num: uint16)
    requires 4 <= buf.Length
    modifies buf
    ensures buf[..4] == WireAck(num)
  {
    StoreHeader(buf, ACK_OPCODE, num);
  }

  /** Moves the payload to the front of its own buffer, byte by byte from the left. */
  method ParseDataPacket(buf: array<byte>, n: nat) returns (num: uint16)
    requires n + 4 <= buf.Length
    modifies buf
    ensures num == old(ReadWord(buf[..], 2))
    ensures buf[..n] == old(buf[4..4 + n]) && buf[n..] == old(buf[n..])
  {
    num := ReadSwapped(buf, 2);
    var i := 0;
    while i < n
      invariant 0 <= i <= n
      invariant forall k :: 0 <= k < i ==> buf[k] == old(buf[k + 4])
      invariant forall k :: i <= k < buf.Length ==> buf[k] == old(buf[k])
    {
      buf[i] := buf[i + 4];
      i := i + 1;
    }
  }
}
