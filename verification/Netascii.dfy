/**
  Netascii as RFC 1350 (section 1) and RFC 854 define it, the part of it that the
  server implements, and the exact conditions under which the two agree.
 */
module Netascii {
  import opened Bytes

  const BLOCK_SIZE := 512

  // ---- the standard's encoding and decoding of a whole stream ----

  function EncodeByte(b: byte): seq<byte> {
    if b == LF then [CR, LF] else if b == CR then [CR, NUL] else [b]
  }

  function Encode(f: seq<byte>): seq<byte> {
    if f == [] then [] else EncodeByte(f[0]) + Encode(f[1..])
  }

  /** The number of bytes that the character in front of s takes up. */
  function Width(s: seq<byte>): nat {
    if |s| >= 2 && s[0] == CR && (s[1] == NUL || s[1] == LF) then 2 else 1
  }

  function Decode(s: seq<byte>): seq<byte> {
    if s == [] then [] else [if Width(s) == 2 && s[1] == LF then LF else s[0]] + Decode(s[Width(s)..])
  }

  lemma {:induction false} DecodeEncode(f: seq<byte>)
    ensures Decode(Encode(f)) == f
  {
    if f != [] {
      DecodeEncode(f[1..]);
      var e := EncodeByte(f[0]);
      assert Encode(f)[|e|..] == Encode(f[1..]);
      assert f == [f[0]] + f[1..];
    }
  }

  lemma Regroup(s: seq<byte>, t: seq<byte>, u: seq<byte>)
    ensures (s + t) + u == s + (t + u)
  {
  }

  lemma UnfoldEncode(f: seq<byte>)
    requires f != []
    ensures Encode(f) == EncodeByte(f[0]) + Encode(f[1..])
  {
  }

  lemma {:induction false} EncodeConcat(f: seq<byte>, g: seq<byte>)
    ensures Encode(f + g) == Encode(f) + Encode(g)
  {
    if f == [] {
      assert f + g == g;
    } else {
      UnfoldEncode(f);
      UnfoldEncode(f + g);
      hide Encode, EncodeByte;
      EncodeConcat(f[1..], g);
      assert (f + g)[1..] == f[1..] + g;
      Regroup(EncodeByte(f[0]), Encode(f[1..]), Encode(g));
    }
  }

  lemma {:induction false} EncodeEofByte(f: seq<byte>)
    ensures EOF_BYTE in Encode(f) <==> EOF_BYTE in f
  {
    if f != [] {
      EncodeEofByte(f[1..]);
      assert f == [f[0]] + f[1..];
    }
  }

  lemma {:induction false} EncodeLastIsNotCR(f: seq<byte>)
    ensures Encode(f) != [] ==> Encode(f)[|Encode(f)| - 1] != CR
  {
    if f != [] {
      EncodeLastIsNotCR(f[1..]);
    }
  }

  // ---- what getc and the EOF test make of a file ----

  /** The bytes in front of the first byte that reads as EOF. */
  function Cut(s: seq<byte>): seq<byte> {
    if s == [] || s[0] == EOF_BYTE then [] else [s[0]] + Cut(s[1..])
  }

  /** The bytes behind the first byte that reads as EOF. */
  function After(s: seq<byte>): seq<byte> {
    if s == [] then [] else if s[0] == EOF_BYTE then s[1..] else After(s[1..])
  }

  /** The file without any byte that reads as EOF. */
  function Strip(s: seq<byte>): seq<byte> {
    if s == [] then [] else (if s[0] == EOF_BYTE then [] else [s[0]]) + Strip(s[1..])
  }

  lemma {:induction false} StripIsCutThenAfter(s: seq<byte>)
    ensures Strip(s) == Cut(s) + Strip(After(s))
  {
    if s != [] && s[0] != EOF_BYTE {
      StripIsCutThenAfter(s[1..]);
    }
  }

  lemma {:induction false} StripFacts(s: seq<byte>)
    ensures EOF_BYTE !in Strip(s)
    ensures EOF_BYTE !in s ==> Strip(s) == s && Cut(s) == s && After(s) == []
  {
    if s != [] {
      StripFacts(s[1..]);
      assert s == [s[0]] + s[1..];
    }
  }

  // ---- decoding one block the way the server does ----

  /**
    The server decodes a block on its own: it stops at a byte that reads as EOF, and it
    looks one byte ahead, which for the last byte of the block is a byte (ahead) that
    does not belong to the block.
   */
  function DecodeBlock(s: seq<byte>, ahead: byte): seq<byte>
    decreases |s|
  {
    if s == [] || s[0] == EOF_BYTE then []
    else if s[0] == CR && Next(s, ahead) == NUL then [CR] + DecodeBlock(Drop(s, 2), ahead)
    else if s[0] == CR && Next(s, ahead) == LF then [LF] + DecodeBlock(Drop(s, 2), ahead)
    else [s[0]] + DecodeBlock(s[1..], ahead)
  }

  function Next(s: seq<byte>, ahead: byte): byte {
    if |s| >= 2 then s[1] else ahead
  }

  function Drop(s: seq<byte>, n: nat): seq<byte> {
    if n <= |s| then s[n..] else []
  }

  lemma {:induction false} DecodeBlockHasNoEofByte(s: seq<byte>, ahead: byte)
    ensures EOF_BYTE !in DecodeBlock(s, ahead)
    decreases |s|
  {
    if s != [] && s[0] != EOF_BYTE {
      DecodeBlockHasNoEofByte(s[1..], ahead);
      if |s| >= 2 {
        DecodeBlockHasNoEofByte(s[2..], ahead);
      }
    }
  }

  lemma DecodeBlockUnit(b: byte, rest: seq<byte>, ahead: byte)
    requires b != EOF_BYTE
    ensures DecodeBlock(EncodeByte(b) + rest, ahead) == [b] + DecodeBlock(rest, ahead)
  {
    var e := EncodeByte(b);
    var s := e + rest;
    assert s[0] == e[0] && s[|e|..] == rest;
    if |e| == 2 {
      assert s[1] == e[1];
      assert Drop(s, 2) == rest;
    }
  }

  /** Encoded text that ends on a unit boundary decodes to itself, whatever follows in the block. */
  lemma {:induction false} DecodeBlockAfterUnits(h: seq<byte>, tail: seq<byte>, ahead: byte)
    requires EOF_BYTE !in h
    ensures DecodeBlock(Encode(h) + tail, ahead) == h + DecodeBlock(tail, ahead)
  {
    if h == [] {
      assert Encode(h) + tail == tail;
      assert h + DecodeBlock(tail, ahead) == DecodeBlock(tail, ahead);
    } else {
      UnfoldEncode(h);
      hide Encode, EncodeByte, DecodeBlock;
      var rest, d := Encode(h[1..]) + tail, DecodeBlock(tail, ahead);
      assert Encode(h) + tail == EncodeByte(h[0]) + rest;
      DecodeBlockUnit(h[0], rest, ahead);
      DecodeBlockAfterUnits(h[1..], tail, ahead);
      Regroup([h[0]], h[1..], d);
      assert [h[0]] + h[1..] == h;
    }
  }

  /** The server's block decoder agrees with the standard's on a block that it sees to the end. */
  lemma {:induction false} DecodeBlockIsDecode(s: seq<byte>, ahead: byte)
    requires EOF_BYTE !in s
    requires s == [] || s[|s| - 1] != CR
    ensures DecodeBlock(s, ahead) == Decode(s)
    decreases |s|
  {
    if s != [] {
      if |s| >= 2 {
        DecodeBlockIsDecode(s[1..], ahead);
        DecodeBlockIsDecode(s[2..], ahead);
      }
    }
  }

  // ---- a whole upload, block by block ----

  /**
    The byte the decoder sees behind a payload: the packet [0, 3, block number, payload]
    has been moved four bytes to the left in its buffer, so the byte behind the payload is
    still the one the packet had at that index.
   */
  function Ahead(num: uint16, payload: seq<byte>): byte {
    ([NUL, 3] + NetworkOrder(num) + payload)[|payload|]
  }

  /** What the server stores for the stream s sent in 512-byte blocks from block i on, in netascii mode. */
  function StoredNetascii(s: seq<byte>, i: nat): seq<byte> {
    if |s| < BLOCK_SIZE then DecodeBlock(s, Ahead(i % 0x1_0000, s))
    else DecodeBlock(s[..BLOCK_SIZE], Ahead(i % 0x1_0000, s[..BLOCK_SIZE])) + StoredNetascii(s[BLOCK_SIZE..], i + 1)
  }

  /** The number of blocks of the stream s that end in CR. */
  function BlocksEndingInCR(s: seq<byte>): nat {
    if |s| < BLOCK_SIZE then if s != [] && s[|s| - 1] == CR then 1 else 0
    else (if s[BLOCK_SIZE - 1] == CR then 1 else 0) + BlocksEndingInCR(s[BLOCK_SIZE..])
  }

  /** The bytes of an encoding that are in front of position n when j whole units, and perhaps half of one, are. */
  ghost predicate SplitsAt(g: seq<byte>, n: nat, j: nat, split: bool) {
    && n <= |Encode(g)| && j <= |g|
    && (split ==> j < |g| && |EncodeByte(g[j])| == 2)
    && Encode(g)[..n] == Encode(g[..j]) + (if split then [CR] else [])
    && Encode(g)[n..] == if split then [EncodeByte(g[j])[1]] + Encode(g[j + 1..]) else Encode(g[j..])
  }

  /** Taking n bytes of an encoding either ends between two units or splits the two bytes of one. */
  lemma {:induction false} TakeOfEncoding(g: seq<byte>, n: nat) returns (j: nat, split: bool)
    requires n <= |Encode(g)|
    ensures SplitsAt(g, n, j, split)
  {
    if n == 0 {
      j, split := 0, false;
      SplitsAtStart(g);
    } else {
      UnfoldEncode(g);
      hide Encode, SplitsAt;
      if n < |EncodeByte(g[0])| {
        j, split := 0, true;
        SplitsInFirstUnit(g);
      } else {
        var m := n - |EncodeByte(g[0])|;
        var k: nat;
        k, split := TakeOfEncoding(g[1..], m);
        j := k + 1;
        SplitsOneFurther(g, m, k, split);
      }
    }
  }

  lemma SplitsAtStart(g: seq<byte>)
    ensures SplitsAt(g, 0, 0, false)
  {
    assert g[..0] == [] && g[0..] == g;
  }

  lemma SplitsInFirstUnit(g: seq<byte>)
    requires g != [] && |EncodeByte(g[0])| == 2
    ensures SplitsAt(g, 1, 0, true)
  {
    UnfoldEncode(g);
    EncodeNothing();
    hide Encode;
    var e := EncodeByte(g[0]);
    assert g[..0] == [] && e == [CR] + [e[1]];
    CutBehind([CR], [e[1]] + Encode(g[1..]), 0);
    Regroup([CR], [e[1]], Encode(g[1..]));
  }

  lemma EncodeNothing()
    ensures Encode([]) == []
  {
  }

  lemma SplitsOneFurther(g: seq<byte>, n: nat, k: nat, split: bool)
    requires g != [] && SplitsAt(g[1..], n, k, split)
    ensures SplitsAt(g, n + |EncodeByte(g[0])|, k + 1, split)
  {
    var e, tail, front := EncodeByte(g[0]), Encode(g[1..]), g[..k + 1];
    var half := if split then [CR] else [];
    UnfoldEncode(g);
    UnfoldEncode(front);
    assert front[1..] == g[1..][..k];
    assert g[1..][k..] == g[k + 1..];
    assert split ==> g[1..][k + 1..] == g[k + 2..];
    hide Encode, EncodeByte;
    CutBehind(e, tail, n);
    Regroup(e, Encode(front[1..]), half);
  }

  lemma CutBehind(e: seq<byte>, tail: seq<byte>, n: nat)
    requires n <= |tail|
    ensures (e + tail)[..n + |e|] == e + tail[..n] && (e + tail)[n + |e|..] == tail[n..]
  {
  }

  /** A cut splits a unit exactly if the byte in front of it is CR. */
  lemma SplitMeansCR(g: seq<byte>, n: nat, j: nat, split: bool)
    requires SplitsAt(g, n, j, split) && n > 0
    ensures split <==> Encode(g)[n - 1] == CR
  {
    assert Encode(g)[n - 1] == Encode(g)[..n][n - 1];
    if !split {
      EncodeLastIsNotCR(g[..j]);
    }
  }

  ghost predicate IsHalf(half: seq<byte>) {
    half == [] || half == [LF] || half == [NUL]
  }

  /**
    The first n bytes of the encoding of g were decoded to done; what is left of the
    encoding is half (the second byte of a unit that was split) and the encoding of g'.
   */
  ghost predicate Advances(g: seq<byte>, n: nat, done: seq<byte>, half: seq<byte>, g': seq<byte>) {
    && n <= |Encode(g)| && IsHalf(half) && EOF_BYTE !in g'
    && Encode(g)[n..] == half + Encode(g')
    && |done| + |g'| == |g|
    && (half == [] ==> g == done + g')
    && (half != [] <==> n > 0 && Encode(g)[n - 1] == CR)
  }

  lemma AdvanceUnsplit(g: seq<byte>, n: nat, j: nat, ahead: byte)
    requires EOF_BYTE !in g && SplitsAt(g, n, j, false)
    ensures DecodeBlock(Encode(g)[..n], ahead) == g[..j]
    ensures Advances(g, n, g[..j], [], g[j..])
  {
    DecodeBlockAfterUnits(g[..j], [], ahead);
    assert DecodeBlock([], ahead) == [];
    hide Encode, DecodeBlock;
    assert Encode(g)[..n] == Encode(g[..j]) + [];
    assert g[..j] + [] == g[..j];
    assert [] + Encode(g[j..]) == Encode(g[j..]);
    assert g == g[..j] + g[j..];
    if n > 0 {
      SplitMeansCR(g, n, j, false);
    }
  }

  lemma AdvanceSplit(g: seq<byte>, n: nat, j: nat, ahead: byte)
    requires EOF_BYTE !in g && n > 0 && SplitsAt(g, n, j, true)
    ensures |DecodeBlock(Encode(g)[..n], ahead)| == j + 1
    ensures Advances(g, n, g[..j + 1], [EncodeByte(g[j])[1]], g[j + 1..])
  {
    DecodeBlockAfterUnits(g[..j], [CR], ahead);
    assert Drop([CR], 2) == [] && [CR][1..] == [];
    SplitMeansCR(g, n, j, true);
  }

  lemma AdvanceOverEncoding(g: seq<byte>, n: nat, ahead: byte)
    returns (half: seq<byte>, g': seq<byte>)
    requires EOF_BYTE !in g && n <= |Encode(g)|
    ensures Advances(g, n, DecodeBlock(Encode(g)[..n], ahead), half, g')
  {
    var j, split := TakeOfEncoding(g, n);
    if split {
      assert n > 0 by { assert Encode(g)[..n] != []; }
      half, g' := [EncodeByte(g[j])[1]], g[j + 1..];
      AdvanceSplit(g, n, j, ahead);
    } else {
      half, g' := [], g[j..];
      AdvanceUnsplit(g, n, j, ahead);
    }
  }

  /** The same with a leftover half in front: it is stored as it is. */
  lemma AdvanceOverRemainder(half: seq<byte>, g: seq<byte>, n: nat, ahead: byte)
    returns (done: seq<byte>, half': seq<byte>, g': seq<byte>)
    requires IsHalf(half) && EOF_BYTE !in g && |half| <= n <= |half| + |Encode(g)|
    ensures Advances(g, n - |half|, done, half', g')
    ensures DecodeBlock((half + Encode(g))[..n], ahead) == half + done
    ensures (half + Encode(g))[n..] == half' + Encode(g')
  {
    var e, m := Encode(g), n - |half|;
    done := DecodeBlock(e[..m], ahead);
    half', g' := AdvanceOverEncoding(g, m, ahead);
    SliceBehind(half, e, n);
    DecodeBlockHalf(half, e[..m], ahead);
  }

  lemma SliceBehind(half: seq<byte>, e: seq<byte>, n: nat)
    requires |half| <= n <= |half| + |e|
    ensures (half + e)[..n] == half + e[..n - |half|]
    ensures (half + e)[n..] == e[n - |half|..]
  {
  }

  lemma DecodeBlockHalf(half: seq<byte>, rest: seq<byte>, ahead: byte)
    requires IsHalf(half)
    ensures DecodeBlock(half + rest, ahead) == half + DecodeBlock(rest, ahead)
  {
    if half == [] {
      assert half + rest == rest;
    } else {
      assert (half + rest)[1..] == rest;
    }
  }

  /** Every block that ends inside a unit gains one byte too many; without any, the upload is exact. */
  ghost predicate Gains(half: seq<byte>, g: seq<byte>, stored: seq<byte>, splits: nat) {
    && |stored| == |half| + |g| + splits
    && (splits == 0 ==> stored == half + g)
  }

  lemma {:induction false} StoredRemainder(half: seq<byte>, g: seq<byte>, i: nat)
    requires IsHalf(half) && EOF_BYTE !in g
    ensures Gains(half, g, StoredNetascii(half + Encode(g), i), BlocksEndingInCR(half + Encode(g)))
    decreases |half + Encode(g)|
  {
    hide Encode, StoredNetascii, BlocksEndingInCR, Gains, DecodeBlock, Ahead;
    var r := half + Encode(g);
    if |r| < BLOCK_SIZE {
      StoredLastBlock(half, g, i);
    } else {
      var ahead := Ahead(i % 0x1_0000, r[..BLOCK_SIZE]);
      var done, half', g' := AdvanceOverRemainder(half, g, BLOCK_SIZE, ahead);
      LastByteOfBlock(half, g, BLOCK_SIZE, half');
      StoredRemainder(half', g', i + 1);
      var r' := half' + Encode(g');
      UnfoldStored(r, i);
      GainsOfFullBlock(half, g, done, half', g', StoredNetascii(r', i + 1), BlocksEndingInCR(r'));
    }
  }

  lemma ShortBlock(r: seq<byte>, i: nat)
    requires |r| < BLOCK_SIZE
    ensures StoredNetascii(r, i) == DecodeBlock(r, Ahead(i % 0x1_0000, r)) && r[..|r|] == r && r[|r|..] == []
    ensures BlocksEndingInCR(r) == if r != [] && r[|r| - 1] == CR then 1 else 0
  {
  }

  lemma GainsNothing(half: seq<byte>, g: seq<byte>, stored: seq<byte>)
    requires stored == half + g
    ensures Gains(half, g, stored, 0)
  {
  }

  lemma StoredLastBlock(half: seq<byte>, g: seq<byte>, i: nat)
    requires IsHalf(half) && EOF_BYTE !in g && |half + Encode(g)| < BLOCK_SIZE
    ensures Gains(half, g, StoredNetascii(half + Encode(g), i), BlocksEndingInCR(half + Encode(g)))
  {
    hide Encode, StoredNetascii, BlocksEndingInCR, Gains, DecodeBlock, Ahead;
    var r := half + Encode(g);
    ShortBlock(r, i);
    var done, half', g' := AdvanceOverRemainder(half, g, |r|, Ahead(i % 0x1_0000, r));
    NothingLeft(r, half', g');
    assert done + [] == done;
    LastByteOfBlock(half, g, |r|, half');
    GainsNothing(half, g, half + done);
  }

  lemma GainsOfFullBlock(half: seq<byte>, g: seq<byte>, done: seq<byte>, half': seq<byte>, g': seq<byte>,
                         stored': seq<byte>, splits': nat)
    requires IsHalf(half') && |done| + |g'| == |g| && (half' == [] ==> g == done + g')
    requires Gains(half', g', stored', splits')
    ensures Gains(half, g, half + done + stored', (if half' != [] then 1 else 0) + splits')
  {
    if half' == [] {
      assert half' + g' == g';
      assert half + done + g' == half + (done + g');
    }
  }

  lemma UnfoldStored(r: seq<byte>, i: nat)
    requires |r| >= BLOCK_SIZE
    ensures StoredNetascii(r, i)
         == DecodeBlock(r[..BLOCK_SIZE], Ahead(i % 0x1_0000, r[..BLOCK_SIZE])) + StoredNetascii(r[BLOCK_SIZE..], i + 1)
    ensures BlocksEndingInCR(r) == (if r[BLOCK_SIZE - 1] == CR then 1 else 0) + BlocksEndingInCR(r[BLOCK_SIZE..])
  {
  }

  lemma LastByteOfBlock(half: seq<byte>, g: seq<byte>, n: nat, half': seq<byte>)
    requires IsHalf(half) && |half| <= n <= |half| + |Encode(g)|
    requires half' != [] <==> n > |half| && Encode(g)[n - |half| - 1] == CR
    ensures half' != [] <==> n > 0 && (half + Encode(g))[n - 1] == CR
  {
  }

  lemma NothingLeft(r: seq<byte>, half: seq<byte>, g: seq<byte>)
    requires r[|r|..] == half + Encode(g)
    ensures half == [] && g == []
  {
    assert |half + Encode(g)| == 0;
  }

  /**
    Main result for netascii uploads: the file that the server stores from the standard's
    encoding of f, cut in 512-byte blocks, is f exactly if f holds no byte that reads as EOF
    and no block ends between the two bytes of a unit.
   */
  lemma UploadIsExactIff(f: seq<byte>)
    ensures StoredNetascii(Encode(f), 1) == f <==> EOF_BYTE !in f && BlocksEndingInCR(Encode(f)) == 0
  {
    if EOF_BYTE in f {
      StoredHasNoEofByte(Encode(f), 1);
    } else {
      assert [] + Encode(f) == Encode(f) && [] + f == f;
      StoredRemainder([], f, 1);
    }
  }

  lemma {:induction false} StoredHasNoEofByte(s: seq<byte>, i: nat)
    ensures EOF_BYTE !in StoredNetascii(s, i)
    decreases |s|
  {
    var n := if |s| < BLOCK_SIZE then |s| else BLOCK_SIZE;
    DecodeBlockHasNoEofByte(s[..n], Ahead(i % 0x1_0000, s[..n]));
    if |s| < BLOCK_SIZE {
      assert s[..n] == s;
    } else {
      StoredHasNoEofByte(s[BLOCK_SIZE..], i + 1);
    }
  }

  // ---- streams that are no encodings ----

  lemma {:induction false} DecodeConcat(s: seq<byte>, t: seq<byte>)
    requires s == [] || s[|s| - 1] != CR
    ensures Decode(s + t) == Decode(s) + Decode(t)
    decreases |s|
  {
    if s == [] {
      assert s + t == t;
    } else {
      var w := Width(s);
      assert Width(s + t) == w;
      assert (s + t)[w..] == s[w..] + t;
      DecodeConcat(s[w..], t);
    }
  }

  /** Decoding block by block is decoding the stream, whatever the client sent, if no block ends in CR. */
  lemma {:induction false} StoredIsDecode(s: seq<byte>, i: nat)
    requires EOF_BYTE !in s && BlocksEndingInCR(s) == 0
    ensures StoredNetascii(s, i) == Decode(s)
    decreases |s|
  {
    if |s| < BLOCK_SIZE {
      DecodeBlockIsDecode(s, Ahead(i % 0x1_0000, s));
    } else {
      var block := s[..BLOCK_SIZE];
      UnfoldStored(s, i);
      DecodeBlockIsDecode(block, Ahead(i % 0x1_0000, block));
      StoredIsDecode(s[BLOCK_SIZE..], i + 1);
      DecodeConcat(block, s[BLOCK_SIZE..]);
      assert s == block + s[BLOCK_SIZE..];
    }
  }
}
