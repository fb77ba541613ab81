/** A text upload that is exact although its encoding is beyond the limit: doubled bytes make up for a lost block. */
module BeyondLimit {
  import opened Bytes
  import opened Netascii
  import opened Blocks
  import opened FileIO
  import opened Sessions
  import opened WriteServer
  import opened Upload

  const A: byte := 97
  const B: byte := 98
  const X: byte := 120

  // plain blocks in front of those that end inside a pair
  const PLAIN := 65279
  const PAIRS := 65792

  function Copies(n: nat, b: byte): (s: seq<byte>)
    ensures |s| == n && forall i | 0 <= i < n :: s[i] == b
  {
    seq(n, _ => b)
  }

  /** The encoding of n line feeds. */
  function Pairs(n: nat): (s: seq<byte>)
    ensures |s| == 2 * n && forall i | 0 <= i < 2 * n :: s[i] == if i % 2 == 0 then CR else LF
  {
    seq(2 * n, i => if i % 2 == 0 then CR else LF)
  }

  function Witness(): seq<byte> {
    Copies(512 * PLAIN, X) + ([A] + (Copies(PAIRS, LF) + [B]))
  }

  function Encoded(): seq<byte> {
    Copies(512 * PLAIN, X) + ([A] + (Pairs(PAIRS) + [B]))
  }

  // ---- its encoding ----

  lemma {:induction false} EncodePlain(s: seq<byte>)
    requires forall i | 0 <= i < |s| :: s[i] != CR && s[i] != LF
    ensures Encode(s) == s
  {
    if s != [] {
      EncodePlain(s[1..]);
      assert s == [s[0]] + s[1..];
    }
  }

  lemma {:induction false} EncodeLineFeeds(n: nat)
    ensures Encode(Copies(n, LF)) == Pairs(n)
  {
    if n > 0 {
      EncodeLineFeeds(n - 1);
      EncodeOneMore(n);
    }
  }

  lemma EncodeOneMore(n: nat)
    requires n > 0
    ensures Encode(Copies(n, LF)) == [CR, LF] + Encode(Copies(n - 1, LF)) && Pairs(n) == [CR, LF] + Pairs(n - 1)
  {
    assert Copies(n, LF)[1..] == Copies(n - 1, LF);
  }

  lemma EncodeWitness()
    ensures Encode(Witness()) == Encoded() && EOF_BYTE !in Witness()
  {
    hide Encode;
    var plain, feeds := Copies(512 * PLAIN, X), Copies(PAIRS, LF);
    EncodePlain(plain);
    EncodePlain([A]);
    EncodePlain([B]);
    EncodeLineFeeds(PAIRS);
    EncodeConcat(feeds, [B]);
    EncodeConcat([A], feeds + [B]);
    EncodeConcat(plain, [A] + (feeds + [B]));
  }

  // ---- its blocks ----

  lemma EncodedSize()
    ensures |Encoded()| == 512 * 65536 + 2 && BlockCount(Encoded()) == 65537 && |Encoded()| > LIMIT
  {
  }

  lemma PlainBlock(l: nat)
    requires 1 <= l <= PLAIN
    ensures l < BlockCount(Encoded()) && Block(Encoded(), l) == Copies(512, X)
  {
    EncodedSize();
    var src := Encoded();
    assert forall i | 0 <= i < 512 * PLAIN :: src[i] == X;
  }

  /** A block behind the plain ones: what a split pair leaves, 255 pairs, and half a pair. */
  function SplitBlock(first: byte): seq<byte> {
    [first] + (Pairs(255) + [CR])
  }

  /** What is behind the plain blocks. */
  function Tail(): seq<byte> {
    [A] + (Pairs(PAIRS) + [B])
  }

  lemma BlockOfTail(l: nat)
    requires PLAIN < l <= 65536
    ensures l < BlockCount(Encoded()) && |Tail()| == 512 * 257 + 2
    ensures Block(Encoded(), l) == Tail()[512 * (l - PLAIN - 1)..512 * (l - PLAIN)]
  {
    EncodedSize();
    var src, base := Encoded(), 512 * PLAIN;
    assert src[base..] == Tail();
    assert Block(src, l) == src[512 * (l - 1)..512 * l];
  }

  lemma SliceOfTail(j: nat)
    requires j <= 256 && |Tail()| == 512 * 257 + 2
    ensures Tail()[512 * j..512 * (j + 1)] == SplitBlock(if j == 0 then A else LF)
  {
    hide Pairs;
    var slice := Tail()[512 * j..512 * (j + 1)];
    forall t | 0 <= t < 512
      ensures slice[t] == SplitBlock(if j == 0 then A else LF)[t]
    {
      TailAt(Tail(), 512 * j + t);
      SplitBlockIs(if j == 0 then A else LF, t);
    }
  }

  lemma SplitBlockIs(first: byte, t: nat)
    requires t < 512
    ensures |SplitBlock(first)| == 512
    ensures SplitBlock(first)[t] == if t == 0 then first else if t % 2 == 1 then CR else LF
  {
  }

  lemma SplitBlockAt(j: nat)
    requires j <= 256
    ensures PLAIN + 1 + j < BlockCount(Encoded())
    ensures Block(Encoded(), PLAIN + 1 + j) == SplitBlock(if j == 0 then A else LF)
  {
    hide Block, Encoded, BlockCount, Tail, SplitBlock;
    BlockOfTail(PLAIN + 1 + j);
    SliceOfTail(j);
  }

  lemma TailAt(tail: seq<byte>, o: nat)
    requires tail == [A] + (Pairs(PAIRS) + [B]) && o <= 2 * PAIRS
    ensures tail[o] == if o == 0 then A else if o % 2 == 1 then CR else LF
  {
  }

  lemma EndBlock()
    ensures Block(Encoded(), 65537) == [LF, B] && BlockCount(Encoded()) == 65537
  {
    EncodedSize();
    var src, base := Encoded(), 512 * PLAIN;
    assert src[base..] == Tail();
    assert src[512 * 65536..] == Tail()[512 * 257..];
    TailAt(Tail(), 512 * 257);
  }

  // ---- what is stored ----

  lemma {:induction false} DecodePlain(s: seq<byte>, ahead: byte)
    requires forall i | 0 <= i < |s| :: s[i] != CR && s[i] != EOF_BYTE
    ensures DecodeBlock(s, ahead) == s
  {
    if s != [] {
      DecodePlain(s[1..], ahead);
      assert s == [s[0]] + s[1..];
    }
  }

  /** With a line feed where the decoder looks ahead, the half pair at the end is taken for a whole one. */
  lemma DecodeSplitBlock(first: byte, num: uint16)
    requires first == A || first == LF
    ensures DecodeBlock(SplitBlock(first), Ahead(num, SplitBlock(first))) == [first] + Copies(256, LF)
  {
    var block := SplitBlock(first);
    assert Ahead(num, block) == block[508] == Pairs(255)[507] == LF;
    var rest := Pairs(255) + [CR];
    EncodeLineFeeds(255);
    DecodeBlockAfterUnits(Copies(255, LF), [CR], LF);
    LoneCR();
    hide Encode, DecodeBlock, Ahead;
    assert DecodeBlock(rest, LF) == Copies(255, LF) + [LF] == Copies(256, LF);
    FirstByte(first, rest);
  }

  lemma LoneCR()
    ensures DecodeBlock([CR], LF) == [LF]
  {
    assert Drop([CR], 2) == [];
  }

  lemma FirstByte(first: byte, rest: seq<byte>)
    requires first == A || first == LF
    ensures DecodeBlock([first] + rest, LF) == [first] + DecodeBlock(rest, LF)
  {
    assert ([first] + rest)[1..] == rest;
  }

  lemma CopiesTogether(n: nat, m: nat, b: byte)
    ensures Copies(n, b) + Copies(m, b) == Copies(n + m, b)
    ensures Copies(n, b) + ([b] + Copies(m, b)) == Copies(n + 1 + m, b)
  {
  }

  lemma NothingStored(src: seq<byte>)
    ensures Stored(NetasciiMode, src, 0) == [] == Copies(0, X)
  {
  }

  lemma PlainIsNotSpecial(n: nat)
    ensures forall i | 0 <= i < n :: Copies(n, X)[i] != CR && Copies(n, X)[i] != EOF_BYTE
  {
  }

  lemma {:induction false} StoredPlain(l: nat)
    requires l <= PLAIN
    ensures l <= BlockCount(Encoded()) && Stored(NetasciiMode, Encoded(), l) == Copies(512 * l, X)
  {
    hide Stored, Encoded, Block, BlockCount, Ahead, DecodeBlock, Copies;
    EncodedSize();
    if l == 0 {
      NothingStored(Encoded());
    } else {
      StoredPlain(l - 1);
      PlainBlock(l);
      Upload.UnfoldStored(NetasciiMode, Encoded(), l);
      PlainIsNotSpecial(512);
      DecodePlain(Copies(512, X), Ahead(Num(l), Copies(512, X)));
      CopiesTogether(512 * (l - 1), 512, X);
    }
  }

  /** The line feeds that are stored when j + 1 split blocks are. */
  function Feeds(j: nat): nat {
    256 + 257 * j
  }

  /** A split block numbered l adds its first byte and 256 line feeds. */
  lemma OneMoreSplit(j: nat, l: nat, first: byte)
    requires j <= 255 && l == PLAIN + 1 + j && first == if j == 0 then A else LF
    ensures l <= BlockCount(Encoded())
    ensures Stored(NetasciiMode, Encoded(), l) == Stored(NetasciiMode, Encoded(), l - 1) + ([first] + Copies(256, LF))
  {
    hide Stored, Encoded, Block, BlockCount, Ahead, DecodeBlock, Copies, SplitBlock;
    SplitBlockAt(j);
    Upload.UnfoldStored(NetasciiMode, Encoded(), l);
    DecodeSplitBlock(first, Num(l));
  }

  /** Every block stores one line feed more than it should. */
  lemma {:induction false} StoredSplit(j: nat)
    requires j <= 255
    ensures PLAIN + 1 + j <= BlockCount(Encoded())
    ensures Stored(NetasciiMode, Encoded(), PLAIN + 1 + j) == Copies(512 * PLAIN, X) + ([A] + Copies(Feeds(j), LF))
  {
    hide Stored, Encoded, Block, BlockCount, Copies;
    OneMoreSplit(j, PLAIN + 1 + j, if j == 0 then A else LF);
    if j == 0 {
      StoredPlain(PLAIN);
    } else {
      StoredSplit(j - 1);
      CopiesTogether(Feeds(j - 1), 256, LF);
      var plain, feeds, more := Copies(512 * PLAIN, X), Copies(Feeds(j - 1), LF), [LF] + Copies(256, LF);
      assert (plain + ([A] + feeds)) + more == plain + ([A] + (feeds + more));
    }
  }

  /** The wrapped block is not stored, and the last one is, with the half pair in front. */
  lemma StoredEnd(src: seq<byte>)
    requires src == Encoded()
    ensures BlockCount(src) == 65537
    ensures Stored(NetasciiMode, src, 65537) == Stored(NetasciiMode, src, 65535) + [LF, B]
  {
    hide Stored, Encoded, Block, BlockCount, Ahead, DecodeBlock;
    EndBlock();
    Upload.UnfoldStored(NetasciiMode, src, 65536);
    Upload.UnfoldStored(NetasciiMode, src, 65537);
    DecodePlain([LF, B], Ahead(Num(65537), [LF, B]));
    assert Stored(NetasciiMode, src, 65535) + [] == Stored(NetasciiMode, src, 65535);
  }

  lemma StoredWitness()
    ensures Stored(NetasciiMode, Encoded(), BlockCount(Encoded())) == Witness()
  {
    hide Stored, Encoded, Block, BlockCount, Copies;
    StoredSplit(255);
    StoredEnd(Encoded());
    OneMoreFeed();
    var plain, feeds := Copies(512 * PLAIN, X), Copies(65791, LF);
    assert (plain + ([A] + feeds)) + [LF, B] == plain + ([A] + ((feeds + [LF]) + [B]));
  }

  lemma OneMoreFeed()
    ensures Copies(65791, LF) + [LF] == Copies(PAIRS, LF)
  {
  }

  /**
    So the bound in NetasciiUploadIsExactIff is not only for the proof's sake: beyond it, a transfer of this
    file that ends is exact, and there is one that ends.
   */
  lemma ExactBeyondLimit(actions: seq<Action>)
    ensures |Encode(Witness())| > LIMIT && BlocksEndingInCR(Encode(Witness())) != 0 && EOF_BYTE !in Witness()
    ensures var s := Execute(NetasciiMode, Encode(Witness()), Start, actions);
      s.server.status == Succeeded || s.finished ==> s.server.file == Witness()
    ensures exists more :: Execute(NetasciiMode, Encode(Witness()), Start, more).server.status == Succeeded
  {
    var f, src := Witness(), Encoded();
    EncodeWitness();
    EncodedSize();
    StoredWitness();
    UploadIsSafe(NetasciiMode, src, actions);
    hide Witness, Encoded, Stored, Execute, Encode, BlocksEndingInCR, StoredNetascii;
    CanSucceedIff(NetasciiMode, src, []);
    NothingDone(src);
    if BlocksEndingInCR(src) == 0 {
      EncodeEofByte(f);
      NetasciiBeyondLimit(src);
      StoredIsDecode(src, 1);
      DecodeEncode(f);
    }
  }

  lemma NothingDone(src: seq<byte>)
    ensures Execute(NetasciiMode, src, Start, []) == Start && Start.server.status == Running && !Doomed(Start)
  {
  }
}
