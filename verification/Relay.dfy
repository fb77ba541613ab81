/** A response on its way: from the server's chunks through the proxy's buffer to the file of the client program. */
module Relay {
  import opened Bytes
  import opened Options
  import opened ProxyTypes
  import opened ProxyModel
  import opened ProxyInvariant
  import opened ProxySafety
  import opened ProxyMemory

  // ---- the proxy's buffer ----

  /** The chunks are received one after the other into a buffer that held something else before. */
  ghost predicate Fills(before: seq<byte>, offset: nat, chunks: seq<seq<byte>>, after: seq<byte>)
    decreases |chunks|
  {
    if chunks == [] then after == before
    else exists next: seq<byte> ::
      Stores(before, offset, chunks[0], next) && Fills(next, offset + |chunks[0]|, chunks[1..], after)
  }

  /** The data lies behind what was in front of the offset, nothing else is touched, and the buffer is not too large. */
  ghost predicate Holds(before: seq<byte>, offset: nat, data: seq<byte>, after: seq<byte>) {
    && offset + |data| <= |after| && |before| <= |after|
    && before[..if offset <= |before| then offset else |before|] + data == after[..offset + |data|]
    && (forall i | offset + |data| <= i < |before| :: after[i] == before[i])
    && (|after| <= |before| || |after| <= offset + |data| + MAX_DATA_SIZE)
  }

  lemma HoldsOneMore(before: seq<byte>, offset: nat, chunk: seq<byte>, next: seq<byte>, rest: seq<byte>, after: seq<byte>)
    requires Stores(before, offset, chunk, next) && Holds(next, offset + |chunk|, rest, after)
    ensures Holds(before, offset, chunk + rest, after)
  {
    var data := chunk + rest;
    assert offset + |chunk| <= |next| by { StoredFront(before, offset, chunk, next); }
    assert before[..offset] + data == next[..offset + |chunk|] + rest;
    assert forall i | offset + |data| <= i < |before| :: next[i] == before[i];
  }

  /**
    Whatever the sizes of the chunks: they end up one behind the other, what was behind them stays, and the
    buffer is never more than one recv larger than it has to be.
   */
  lemma {:induction false} FilledBuffer(before: seq<byte>, offset: nat, chunks: seq<seq<byte>>, after: seq<byte>)
    requires offset <= |before| && Fills(before, offset, chunks, after)
    ensures Holds(before, offset, Flatten(chunks), after)
    decreases |chunks|
  {
    if chunks == [] {
      assert before[..offset] + [] == before[..offset];
    } else {
      var next: seq<byte> :|
        Stores(before, offset, chunks[0], next) && Fills(next, offset + |chunks[0]|, chunks[1..], after);
      hide Fills, Holds, Stores;
      assert offset + |chunks[0]| <= |next| by { StoredFront(before, offset, chunks[0], next); }
      FilledBuffer(next, offset + |chunks[0]|, chunks[1..], after);
      HoldsOneMore(before, offset, chunks[0], next, Flatten(chunks[1..]), after);
    }
  }

  function Sum(counts: seq<nat>): nat {
    if counts == [] then 0 else counts[0] + Sum(counts[1..])
  }

  /** What send may return time and again, as long as something is left to be sent. */
  predicate CanSend<N, C>(conn: Conn<N, C>, bytes: seq<byte>, counts: seq<nat>)
    decreases |counts|
  {
    counts == []
    || (&& counts[0] <= SendSize(|bytes|, conn.offset) && conn.offset <= |bytes|
        && (|counts| > 1 ==> conn.offset + counts[0] < |bytes|)
        && CanSend(Sent(conn, bytes, counts[0]), bytes, counts[1..]))
  }

  function AfterSends<N, C>(conn: Conn<N, C>, bytes: seq<byte>, counts: seq<nat>): Conn<N, C>
    requires CanSend(conn, bytes, counts)
    decreases |counts|
  {
    if counts == [] then conn else AfterSends(Sent(conn, bytes, counts[0]), bytes, counts[1..])
  }

  lemma OneSend<N, C>(conn: Conn<N, C>, bytes: seq<byte>, counts: seq<nat>)
    requires conn.kind == Client && conn.status == Writing && conn.offset < |bytes| && CanSend(conn, bytes, counts)
    requires counts != []
    ensures var count := counts[0];
      && conn.offset + count <= |bytes|
      && var next := Sent(conn, bytes, count);
      && next.kind == Client && CanSend(next, bytes, counts[1..])
      && AfterSends(conn, bytes, counts) == AfterSends(next, bytes, counts[1..])
      && next.output == conn.output + bytes[conn.offset..conn.offset + count]
      && (if conn.offset + count == |bytes| then next.status == Idle && counts[1..] == []
          else next.status == Writing && next.offset == conn.offset + count)
  {
  }

  lemma NoSend<N, C>(conn: Conn<N, C>, bytes: seq<byte>)
    ensures CanSend(conn, bytes, []) && AfterSends(conn, bytes, []) == conn && Sum([]) == 0
  {
  }

  lemma SumOfMore(counts: seq<nat>)
    requires counts != []
    ensures Sum(counts) == counts[0] + Sum(counts[1..])
    ensures (forall i | 0 <= i < |counts| :: counts[i] > 0) ==> forall i | 0 <= i < |counts[1..]| :: counts[1..][i] > 0
  {
    assert forall i | 0 <= i < |counts[1..]| :: counts[1..][i] == counts[i + 1];
  }

  /**
    Any schedule of partial sends takes every byte once and in order, and it is over exactly when nothing is
    left; what is left is the measure, which each send that takes something makes smaller.
   */
  lemma {:induction false} SendsTakeEachByteOnce<N, C>(conn: Conn<N, C>, bytes: seq<byte>, counts: seq<nat>)
    requires conn.kind == Client && conn.status == Writing && conn.offset < |bytes| && CanSend(conn, bytes, counts)
    ensures conn.offset + Sum(counts) <= |bytes|
    ensures var after := AfterSends(conn, bytes, counts);
      && after.output == conn.output + bytes[conn.offset..conn.offset + Sum(counts)]
      && (after.status == Idle <==> conn.offset + Sum(counts) == |bytes|)
      && (after.status != Idle ==> |bytes| - after.offset == |bytes| - conn.offset - Sum(counts))
    ensures (forall i | 0 <= i < |counts| :: counts[i] > 0) ==> |counts| <= |bytes| - conn.offset
    decreases |counts|
  {
    hide CanSend, AfterSends, Sent, SendSize, Sum;
    if counts == [] {
      NoSend(conn, bytes);
      assert conn.output + bytes[conn.offset..conn.offset] == conn.output;
    } else {
      OneSend(conn, bytes, counts);
      SumOfMore(counts);
      var next, rest := Sent(conn, bytes, counts[0]), counts[1..];
      if next.status == Idle {
        NoSend(next, bytes);
      } else {
        SendsTakeEachByteOnce(next, bytes, rest);
        SliceTogether(bytes, conn.offset, next.offset, next.offset + Sum(rest), conn.output);
      }
    }
  }

  lemma SliceTogether(bytes: seq<byte>, a: nat, b: nat, c: nat, before: seq<byte>)
    requires a <= b <= c <= |bytes|
    ensures before + bytes[a..b] + bytes[b..c] == before + bytes[a..c]
  {
  }

  // ---- a request on its way to the server ----

  /** The state after sends of these sizes to a server, as long as it is to be written to. */
  function AfterWrites<N, C>(s: State<N, C>, n: N, counts: seq<nat>): State<N, C>
    requires Is(s, n, Server, Writing)
    decreases |counts|
  {
    if counts == [] then s
    else
      var next := RequestWritten(s, n, counts[0]);
      if Is(next, n, Server, Writing) then AfterWrites(next, n, counts[1..]) else next
  }

  /**
    Any schedule of partial sends to a server: it is read from exactly when the sizes add up to the buffer, and
    until then it is written to at the place that they add up to.
   */
  lemma {:induction false} RequestIsWrittenIff<N, C>(s: State<N, C>, n: N, counts: seq<nat>)
    requires Is(s, n, Server, Writing) && s.conns[n].offset < |BufOf(s, n).bytes|
    requires s.conns[n].offset + Sum(counts) <= |BufOf(s, n).bytes|
    ensures n in AfterWrites(s, n, counts).conns
    ensures var conn, conn' := s.conns[n], AfterWrites(s, n, counts).conns[n];
      if conn.offset + Sum(counts) == |BufOf(s, n).bytes|
      then conn' == conn.(status := Reading, offset := 0)
      else conn' == conn.(offset := conn.offset + Sum(counts))
    decreases |counts|
  {
    if counts != [] {
      var next := RequestWritten(s, n, counts[0]);
      if s.conns[n].offset + counts[0] < |BufOf(s, n).bytes| {
        RequestIsWrittenIff(next, n, counts[1..]);
      } else {
        assert !Is(next, n, Server, Writing);
      }
    }
  }

  // ---- the client program ----

  /** Overrun: the length passed to fwrite would be negative. */
  datatype Download = Complete(file: seq<byte>) | Overrun(file: seq<byte>)

  /** What the loop makes of further chunks, when count bytes are in the file. */
  function Reassemble(file: seq<byte>, contentLength: int, chunks: seq<seq<byte>>): Download
    decreases |chunks|
  {
    if chunks == [] || chunks[0] == [] then Complete(file)
    else if |file| + |chunks[0]| > contentLength then
      if contentLength < |file| then Overrun(file) else Complete(file + chunks[0][..contentLength - |file|])
    else Reassemble(file + chunks[0], contentLength, chunks[1..])
  }

  /** The loop of the client program: the first read ends behind the header, an empty read is the end of the stream. */
  method Receive(first: seq<byte>, head: nat, contentLength: int, chunks: seq<seq<byte>>) returns (download: Download)
    requires head <= |first|
    ensures download == Reassemble(first[head..], contentLength, chunks)
  {
    var numbytes := |first| - head;
    var file := first[head..];
    var count := numbytes;
    var i := 0;
    while i < |chunks|
      invariant 0 <= i <= |chunks| && count == |file|
      invariant Reassemble(file, contentLength, chunks[i..]) == Reassemble(first[head..], contentLength, chunks)
    {
      assert chunks[i..][0] == chunks[i] && chunks[i..][1..] == chunks[i + 1..];
      numbytes := |chunks[i]|;
      if numbytes == 0 {
        return Complete(file);
      }
      if count + numbytes > contentLength {
        var offset := count + numbytes - contentLength;
        if numbytes - offset < 0 {
          return Overrun(file);
        }
        return Complete(file + chunks[i][..numbytes - offset]);
      }
      file := file + chunks[i];
      count := count + numbytes;
      i := i + 1;
    }
    return Complete(file);
  }

  /** Once the file is longer than announced, it stays wrong. */
  lemma {:induction false} TooLong(file: seq<byte>, contentLength: int, chunks: seq<seq<byte>>)
    requires |file| > contentLength
    ensures Reassemble(file, contentLength, chunks).file == file
    decreases |chunks|
  {
  }

  /** A stream that starts with the rest of the body completes the file, and what follows is cut off. */
  lemma {:induction false} RestOfBody(file: seq<byte>, rest: seq<byte>, padding: seq<byte>, chunks: seq<seq<byte>>)
    requires Flatten(chunks) == rest + padding && forall i | 0 <= i < |chunks| :: chunks[i] != []
    ensures Reassemble(file, |file| + |rest|, chunks) == Complete(file + rest)
    decreases |chunks|
  {
    if chunks == [] {
      assert rest == [];
      assert file + [] == file;
    } else {
      var chunk, tail := chunks[0], Flatten(chunks[1..]);
      assert chunk + tail == rest + padding;
      if |chunk| > |rest| {
        assert chunk[..|rest|] == rest by { assert (chunk + tail)[..|rest|] == (rest + padding)[..|rest|]; }
      } else {
        var rest' := rest[|chunk|..];
        assert rest == chunk + rest' && tail == rest' + padding by { SplitEqual(chunk, tail, rest, padding); }
        RestOfBody(file + chunk, rest', padding, chunks[1..]);
        assert file + chunk + rest' == file + rest;
      }
    }
  }

  lemma SplitEqual(a: seq<byte>, b: seq<byte>, c: seq<byte>, d: seq<byte>)
    requires a + b == c + d && |a| <= |c|
    ensures c == a + c[|a|..] && b == c[|a|..] + d
  {
    assert (a + b)[..|a|] == a && (a + b)[|a|..] == b;
    assert (c + d)[..|a|] == c[..|a|] && (c + d)[|a|..] == c[|a|..] + d;
  }

  /**
    However the stream of header, body and padding is cut into reads, the file of the client program is the
    body if and only if the first read, which holds the header, does not reach beyond the body.
   */
  lemma ClientFileIsBodyIff(header: seq<byte>, body: seq<byte>, padding: seq<byte>, first: seq<byte>, chunks: seq<seq<byte>>)
    requires first + Flatten(chunks) == header + (body + padding) && |header| <= |first|
    requires forall i | 0 <= i < |chunks| :: chunks[i] != []
    ensures Reassemble(first[|header|..], |body|, chunks).file == body <==> |first| <= |header| + |body|
  {
    hide Flatten, Reassemble;
    var tail, file := Flatten(chunks), first[|header|..];
    SplitEqual(header, body + padding, first, tail);
    if |file| <= |body| {
      InTime(file, body, padding, chunks);
    } else {
      TooLong(file, |body|, chunks);
    }
  }

  lemma InTime(file: seq<byte>, body: seq<byte>, padding: seq<byte>, chunks: seq<seq<byte>>)
    requires file + Flatten(chunks) == body + padding && |file| <= |body|
    requires forall i | 0 <= i < |chunks| :: chunks[i] != []
    ensures Reassemble(file, |body|, chunks) == Complete(body)
  {
    hide *;
    var rest := body[|file|..];
    SplitEqual(file, Flatten(chunks), body, padding);
    RestOfBody(file, rest, padding, chunks);
    assert |file| + |rest| == |body|;
  }

  /** All that a client has been sent, with what one more send takes. */
  ghost function Stream<N, C>(s: State<N, C>, n: N, count: nat): seq<byte>
    requires n in s.conns && s.conns[n].buf.Some? && s.conns[n].buf.value in s.bufs
  {
    var conn, bytes := s.conns[n], BufOf(s, n).bytes;
    conn.output + if conn.offset + count <= |bytes| then bytes[conn.offset..conn.offset + count] else []
  }

  lemma StreamIsBuffer<N, C>(s: State<N, C>, n: N, count: nat)
    requires Inv(s) && Enabled(s, WriteResponse(n, count)) && n !in ResponseWritten(s, n, count).conns
    ensures s.conns[n].buf.value !in Freed(s) ==> Stream(s, n, count) == BufOf(s, n).bytes
    ensures s.conns[n].buf.value !in Freed(s) ==> BufOf(s, n).response <= BufOf(s, n).bytes
  {
    DeliveredIsWhole(s, n, count);
  }

  /** A stream that starts with header and body, and has something behind it perhaps. */
  lemma StreamGivesBodyIff(header: seq<byte>, body: seq<byte>, stream: seq<byte>, first: seq<byte>, chunks: seq<seq<byte>>)
    requires header + body <= stream && first + Flatten(chunks) == stream
    requires |header| <= |first| && forall i | 0 <= i < |chunks| :: chunks[i] != []
    ensures Reassemble(first[|header|..], |body|, chunks).file == body <==> |first| <= |header| + |body|
  {
    hide Flatten, Reassemble;
    PrefixAndRest(header, body, stream);
    ClientFileIsBodyIff(header, body, stream[|header + body|..], first, chunks);
  }

  /**
    End to end, in every reachable state of the proxy and for every schedule: when the last send to a client
    is done, and its buffer is not freed by then, the stream that it has got gives its file the body of the
    server's response, if and only if its first read does not reach beyond the body.
   */
  lemma ClientGetsBodyIff<N, C>(s: State<N, C>, n: N, count: nat, header: seq<byte>, body: seq<byte>,
                                first: seq<byte>, chunks: seq<seq<byte>>)
    requires Inv(s) && Enabled(s, WriteResponse(n, count)) && n !in ResponseWritten(s, n, count).conns
    requires BufOf(s, n).response == header + body && first + Flatten(chunks) == Stream(s, n, count)
    requires |header| <= |first| && forall i | 0 <= i < |chunks| :: chunks[i] != []
    ensures s.conns[n].buf.value !in Freed(s) ==>
      (Reassemble(first[|header|..], |body|, chunks).file == body <==> |first| <= |header| + |body|)
  {
    hide Inv, Stores, SendSize, ResponseWritten, Freed, BufOf, Stream, Flatten, Reassemble;
    StreamIsBuffer(s, n, count);
    if s.conns[n].buf.value !in Freed(s) {
      StreamGivesBodyIff(header, body, Stream(s, n, count), first, chunks);
    }
  }

  lemma PrefixAndRest(header: seq<byte>, body: seq<byte>, bytes: seq<byte>)
    requires header + body <= bytes
    ensures bytes == header + (body + bytes[|header + body|..])
  {
  }
}
