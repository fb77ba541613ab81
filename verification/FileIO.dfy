/** The server's two file routines, read_block and write_data_to_file, as loops over buffers. */
module FileIO {
  import opened Bytes
  import opened Netascii

  datatype Mode = NetasciiMode | OctetMode | OtherMode

  /**
    What a reader still has to deliver: the bytes up to the next end-of-file condition, and the
    part of the file behind the byte that causes it, which is read if the caller goes on.
   */
  datatype Stream = Stream(rest: seq<byte>, behind: seq<byte>)

  /** One call of the reader: a full block, or whatever is left in front of the end-of-file condition. */
  function Take(s: Stream): (seq<byte>, Stream) {
    if |s.rest| >= BLOCK_SIZE then (s.rest[..BLOCK_SIZE], Stream(s.rest[BLOCK_SIZE..], s.behind))
    else (s.rest, Stream(Encode(Cut(s.behind)), After(s.behind)))
  }

  /** The stream that a fresh transfer of the file delivers. */
  function Open(mode: Mode, file: seq<byte>): Stream {
    match mode
    case NetasciiMode => Stream(Encode(Cut(file)), After(file))
    case OctetMode => Stream(file, [])
    case OtherMode => Stream([], [])
  }

  /** All the bytes that a stream delivers if it is read for long enough. */
  function Total(s: Stream): seq<byte> {
    s.rest + Encode(Strip(s.behind))
  }

  /** Reading moves bytes from the stream to the caller and never loses, repeats or invents one. */
  lemma TakeConserves(s: Stream)
    ensures Take(s).0 + Total(Take(s).1) == Total(s)
  {
    if |s.rest| < BLOCK_SIZE {
      StripIsCutThenAfter(s.behind);
      EncodeConcat(Cut(s.behind), Strip(After(s.behind)));
    }
  }

  /** What successive calls of the reader deliver. */
  function Reads(s: Stream, n: nat): seq<seq<byte>>
    decreases n
  {
    if n == 0 then [] else [Take(s).0] + Reads(Take(s).1, n - 1)
  }

  /** All the reads but the last are full blocks, and together they are the stream. */
  lemma {:induction false} ReadsAreTheStream(s: Stream, n: nat)
    requires s.behind == [] && n == |s.rest| / BLOCK_SIZE + 1
    ensures var blocks := Reads(s, n);
      && |blocks| == n && Flatten(blocks) == s.rest
      && (forall i | 0 <= i < n :: if i < n - 1 then |blocks[i]| == BLOCK_SIZE else |blocks[i]| < BLOCK_SIZE)
    decreases n
  {
    var block, next := Take(s).0, Take(s).1;
    if n == 1 {
      assert Reads(s, 1) == [block] && Flatten([]) == [];
    } else {
      ReadsAreTheStream(next, n - 1);
      var rest := Reads(next, n - 1);
      assert Reads(s, n) == [block] + rest && ([block] + rest)[1..] == rest;
      assert block + next.rest == s.rest;
    }
  }

  /** A text file without a byte that reads as EOF is delivered as the standard's encoding of it. */
  lemma TextFileIsReadAsItsEncoding(file: seq<byte>, n: nat)
    requires EOF_BYTE !in file && n == |Encode(file)| / BLOCK_SIZE + 1
    ensures var blocks := Reads(Open(NetasciiMode, file), n);
      && |blocks| == n && Flatten(blocks) == Encode(file)
      && (forall i | 0 <= i < n :: if i < n - 1 then |blocks[i]| == BLOCK_SIZE else |blocks[i]| < BLOCK_SIZE)
  {
    StripFacts(file);
    ReadsAreTheStream(Open(NetasciiMode, file), n);
  }

  /** The file as a reader sees it: the position of the next getc and the static nextchar. */
  class BlockReader {
    const file: seq<byte>
    var pos: nat
    var nextchar: int

    ghost predicate Valid()
      reads this
    {
      pos <= |file| && (nextchar == -1 || nextchar == LF as int || nextchar == NUL as int)
    }

    function Pending(): seq<byte>
      requires Valid()
      reads this
    {
      if nextchar == -1 then [] else [nextchar as byte]
    }

    function View(mode: Mode): Stream
      requires Valid()
      reads this
    {
      match mode
      case NetasciiMode => Stream(Pending() + Encode(Cut(file[pos..])), After(file[pos..]))
      case OctetMode => Stream(file[pos..], [])
      case OtherMode => Stream([], [])
    }

    constructor (file: seq<byte>)
      ensures Valid() && this.file == file && pos == 0 && nextchar == -1
      ensures forall mode :: View(mode) == Open(mode, file)
    {
      this.file, pos, nextchar := file, 0, -1;
      new;
      assert file[0..] == file;
      assert [] + Encode(Cut(file)) == Encode(Cut(file));
    }

    /** Fills buf with the next block and returns its length, or -1 for an unknown mode. */
    method ReadBlock(buf: array<byte>, mode: Mode) returns (n: int)
      requires Valid() && buf.Length == BLOCK_SIZE
      modifies this`pos, this`nextchar, buf
      ensures Valid()
      ensures mode == OtherMode ==> n == -1 && buf[..] == old(buf[..])
      ensures mode != OtherMode ==> 0 <= n <= BLOCK_SIZE && buf[..n] == Take(old(View(mode))).0
      ensures View(mode) == if mode == OtherMode then old(View(mode)) else Take(old(View(mode))).1
    {
      match mode
      case NetasciiMode =>
        n := ReadNetascii(buf);
      case OctetMode =>
        n := if |file| - pos < BLOCK_SIZE then |file| - pos else BLOCK_SIZE;
        forall i | 0 <= i < n {
          buf[i] := file[pos + i];
        }
        assert buf[..n] == file[pos..][..n];
        pos := pos + n;
      case OtherMode =>
        n := -1;
    }

    method ReadNetascii(buf: array<byte>) returns (n: nat)
      requires Valid() && buf.Length == BLOCK_SIZE
      modifies this`pos, this`nextchar, buf
      ensures Valid() && n <= BLOCK_SIZE
      ensures buf[..n] == Take(old(View(NetasciiMode))).0 && (n < BLOCK_SIZE ==> nextchar == -1)
      ensures View(NetasciiMode) == Take(old(View(NetasciiMode))).1
    {
      hide View, Encode, Cut, After;
      ghost var start := View(NetasciiMode);
      n := 0;
      while n < BLOCK_SIZE
        invariant n <= BLOCK_SIZE
        invariant Valid()
        invariant n <= |start.rest| && buf[..n] == start.rest[..n]
        invariant View(NetasciiMode) == Stream(start.rest[n..], start.behind)
      {
        var c := NextByte();
        if c < 0 {
          return;
        }
        buf[n] := c as byte;
        n := n + 1;
      }
    }

    /** One round of the loop: the pending byte, or the next byte of the file with the byte that it makes pending. */
    method NextByte() returns (c: int)
      requires Valid()
      modifies this`pos, this`nextchar
      ensures Valid() && -1 <= c < 0x100
      ensures c < 0 <==> old(View(NetasciiMode)).rest == []
      ensures c >= 0 ==> c as byte == old(View(NetasciiMode)).rest[0]
      ensures c < 0 ==> View(NetasciiMode) == Take(old(View(NetasciiMode))).1 && nextchar == -1
      ensures c >= 0 ==> View(NetasciiMode) == Stream(old(View(NetasciiMode)).rest[1..], old(View(NetasciiMode)).behind)
    {
      if nextchar >= 0 {
        c := nextchar;
        nextchar := -1;
        SplitFront([c as byte], Encode(Cut(file[pos..])));
        return;
      }
      if pos == |file| {
        return -1;
      }
      ghost var left := file[pos..];
      var b := file[pos];
      pos := pos + 1;
      assert left[1..] == file[pos..];
      if b == EOF_BYTE {
        return -1;
      }
      FrontUnit(left);
      if b == LF {
        b := CR;
        nextchar := LF as int;
      } else if b == CR {
        nextchar := NUL as int;
      } else {
        nextchar := -1;
      }
      c := b as int;
      assert EncodeByte(left[0]) == [b] + Pending();
      SplitFront(EncodeByte(left[0]), Encode(Cut(left[1..])));
    }
  }

  /** What a block adds to the file in each mode; ahead is the byte behind the block in its buffer. */
  function Written(mode: Mode, block: seq<byte>, ahead: byte): seq<byte> {
    match mode
    case NetasciiMode => DecodeBlock(block, ahead)
    case OctetMode => block
    case OtherMode => []
  }

  /** The same if a byte is pending, which takes the place of the block's first byte. */
  function WrittenAfter(pending: seq<byte>, block: seq<byte>, ahead: byte): seq<byte> {
    if pending == [] || block == [] then DecodeBlock(block, ahead) else pending + DecodeBlock(block[1..], ahead)
  }

  /** The output file and the static _nextchar, which no assignment ever makes nonnegative. */
  class FileWriter {
    var contents: seq<byte>
    var nextchar: int

    ghost predicate Valid()
      reads this
    {
      -1 <= nextchar < 0x80
    }

    function Pending(): seq<byte>
      requires Valid()
      reads this
    {
      if nextchar == -1 then [] else [nextchar as byte]
    }

    constructor ()
      ensures Valid() && contents == [] && nextchar == -1
    {
      contents, nextchar := [], -1;
    }

    /** Appends the first n bytes of buf to the file. The decoder may look at buf[n] as well. */
    method WriteData(buf: array<byte>, n: nat, mode: Mode)
      requires Valid() && n < buf.Length
      modifies this
      ensures Valid() && (old(nextchar) == -1 ==> nextchar == -1)
      ensures contents == old(contents) + (
        if mode == NetasciiMode then WrittenAfter(old(Pending()), buf[..n], buf[n]) else Written(mode, buf[..n], buf[n]))
    {
      match mode
      case NetasciiMode =>
        WriteNetascii(buf, n);
      case OctetMode =>
        contents := contents + buf[..n];
      case OtherMode =>
    }

    method WriteNetascii(buf: array<byte>, n: nat)
      requires Valid() && n < buf.Length
      modifies this
      ensures Valid() && (old(nextchar) == -1 ==> nextchar == -1)
      ensures contents == old(contents) + WrittenAfter(old(Pending()), buf[..n], buf[n])
    {
      ghost var block, ahead := buf[..n], buf[n];
      ghost var goal := contents + WrittenAfter(Pending(), block, ahead);
      var i := 0;
      while i < n
        invariant 0 <= i <= n + 1 && Valid()
        invariant old(nextchar) == -1 ==> nextchar == -1
        invariant goal == contents + WrittenAfter(Pending(), Drop(block, i), ahead)
      {
        DropSteps(block, i, ahead);
        ghost var left, before := Drop(block, i), contents;
        if nextchar >= 0 {
          contents := contents + [nextchar as byte];
          nextchar := -1;
          i := i + 1;
          Regroup(before, [contents[|before|]], DecodeBlock(left[1..], ahead));
          continue;
        }
        var c := buf[i];
        if c == EOF_BYTE {
          return;
        } else if c == CR {
          assert buf[i + 1] == Next(left, ahead);
          if buf[i + 1] == NUL {
            i := i + 1;
          } else if buf[i + 1] == LF {
            c := LF;
            i := i + 1;
          }
        } else {
          nextchar := -1;
        }
        contents := contents + [c];
        i := i + 1;
        Regroup(before, [c], DecodeBlock(Drop(block, i), ahead));
      }
    }
  }

  lemma DropSteps(block: seq<byte>, i: nat, ahead: byte)
    requires i < |block|
    ensures var left := Drop(block, i);
      && left != [] && left[0] == block[i]
      && left[1..] == Drop(block, i + 1)
      && Drop(left, 2) == Drop(block, i + 2)
      && Next(left, ahead) == if i + 1 < |block| then block[i + 1] else ahead
  {
  }

  lemma SplitFront(s: seq<byte>, t: seq<byte>)
    requires s != []
    ensures s + t == [s[0]] + (s[1..] + t)
    ensures (s + t)[1..] == s[1..] + t
  {
  }

  lemma FrontUnit(left: seq<byte>)
    requires left != [] && left[0] != EOF_BYTE
    ensures Encode(Cut(left)) == EncodeByte(left[0]) + Encode(Cut(left[1..]))
    ensures After(left) == After(left[1..])
  {
  }
}
