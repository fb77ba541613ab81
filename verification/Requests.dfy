/** The request of a client in the proxy's receive buffer, which the C code takes for a string. */
module Requests {
  import opened Bytes
  import opened Options
  import opened ProxyModel
  import Urls

  /** The characters in front of the first zero byte. */
  function CString(bytes: seq<byte>): string {
    if bytes == [] || bytes[0] == NUL then "" else [bytes[0] as char] + CString(bytes[1..])
  }

  /** strstr */
  predicate Contains(s: string, t: string) {
    t <= s || (s != "" && Contains(s[1..], t))
  }

  /**
    The host and the path that are parsed from a buffer which holds the end of a header, where a request without
    a Host line leaves the host as it was. Nothing is read from a request that parse_request has no bound for.
   */
  function RequestIn(bytes: seq<byte>, host: string, path: string): Option<(string, string)> {
    var text := CString(bytes);
    if !Contains(text, "\r\n\r\n") then None
    else
      match Urls.Parsed(text, Urls.Fields(host, path, "", ""))
      case None => None
      case Some(fields) => Some((fields.host, fields.path))
  }

  predicate OccursAt(s: string, t: string, i: nat) {
    i + |t| <= |s| && s[i..i + |t|] == t
  }

  lemma OccursBehind(s: string, t: string, i: nat)
    requires s != ""
    ensures OccursAt(s[1..], t, i) <==> OccursAt(s, t, i + 1)
  {
    if i + 1 + |t| <= |s| {
      assert s[1..][i..i + |t|] == s[i + 1..i + 1 + |t|];
    }
  }

  lemma {:induction false} ContainsIff(s: string, t: string)
    ensures Contains(s, t) <==> exists i: nat :: OccursAt(s, t, i)
  {
    if t <= s {
      assert OccursAt(s, t, 0);
    } else if s != "" {
      ContainsIff(s[1..], t);
      forall i: nat
        ensures OccursAt(s[1..], t, i) <==> OccursAt(s, t, i + 1)
      {
        OccursBehind(s, t, i);
      }
      assert forall i: nat :: OccursAt(s, t, i) ==> i > 0 && OccursAt(s[1..], t, i - 1);
    }
  }

  /** Without the end of a header in the buffer nothing is read. */
  lemma PartialRequestIsNotRead(bytes: seq<byte>, host: string, path: string)
    requires forall i: nat :: !OccursAt(CString(bytes), "\r\n\r\n", i)
    ensures RequestIn(bytes, host, path) == None
  {
    hide Urls.Parsed;
    ContainsIff(CString(bytes), "\r\n\r\n");
  }

  // ---- the client program's request ----

  /** Text that a C string can hold. */
  predicate IsText(s: string) {
    forall i | 0 <= i < |s| :: 0 < s[i] as int < 0x100
  }

  /** What the client program writes: the characters and the terminating zero. */
  function Written(s: string): seq<byte>
    requires IsText(s)
  {
    if s == "" then [NUL] else [s[0] as byte] + Written(s[1..])
  }

  lemma {:induction false} ReadBack(s: string, rest: seq<byte>)
    requires IsText(s)
    ensures CString(Written(s) + rest) == s && |Written(s)| == |s| + 1
  {
    hide CString;
    if s != "" {
      ReadBack(s[1..], rest);
      CStringMore(s[0], Written(s[1..]) + rest);
      assert Written(s) + rest == [s[0] as byte] + (Written(s[1..]) + rest);
    } else {
      CStringNone(rest);
    }
  }

  lemma CStringMore(c: char, bytes: seq<byte>)
    requires 0 < c as int < 0x100
    ensures CString([c as byte] + bytes) == [c] + CString(bytes)
  {
    assert ([c as byte] + bytes)[1..] == bytes;
  }

  lemma CStringNone(rest: seq<byte>)
    ensures CString([NUL] + rest) == ""
  {
  }

  lemma {:induction false} ContainsEnd(s: string, t: string)
    ensures Contains(s + t, t)
  {
    if s == "" {
      assert s + t == t;
    } else {
      assert (s + t)[1..] == s[1..] + t;
      ContainsEnd(s[1..], t);
    }
  }

  lemma TextTogether(a: string, b: string)
    requires IsText(a) && IsText(b)
    ensures IsText(a + b)
  {
  }

  lemma LineIsText(key: string, value: string)
    requires IsText(key) && IsText(value)
    ensures IsText(Urls.Line(key, value))
  {
  }

  lemma RequestIsText(host: string, path: string)
    requires IsText(host) && IsText(path)
    ensures IsText(Urls.Request(host, path))
  {
    hide IsText, Urls.Line;
    WordsAreText();
    LineIsText("Host:", host);
    LineIsText("User-Agent:", "Team4");
    var agent := Urls.Line("User-Agent:", "Team4");
    TextTogether(agent, "\r\n");
    TextTogether(agent + "\r\n", "\r\n");
    TextTogether(Urls.Line("Host:", host), "\r\n");
    TextTogether(Urls.Line("Host:", host) + "\r\n", agent + "\r\n" + "\r\n");
    TextTogether("GET ", path);
    TextTogether("GET " + path, " HTTP/1.0");
    TextTogether("GET " + path + " HTTP/1.0", "\r\n");
    TextTogether("GET " + path + " HTTP/1.0" + "\r\n", Urls.Headers(host));
  }

  lemma WordsAreText()
    ensures IsText("GET ") && IsText(" HTTP/1.0") && IsText("\r\n")
    ensures IsText("Host:") && IsText("User-Agent:") && IsText("Team4")
  {
  }

  lemma RequestEnds(host: string, path: string) returns (front: string)
    ensures Urls.Request(host, path) == front + "\r\n\r\n"
  {
    var start, agent := "GET " + path + " HTTP/1.0" + "\r\n", Urls.Line("User-Agent:", "Team4");
    front := start + (Urls.Line("Host:", host) + "\r\n" + agent);
    hide Urls.Line;
    EndsTogether(start, Urls.Line("Host:", host) + "\r\n", agent, "\r\n", "\r\n");
    assert "\r\n" + "\r\n" == "\r\n\r\n";
  }

  lemma EndsTogether(a: string, b: string, c: string, d: string, e: string)
    ensures a + (b + (c + d + e)) == a + (b + c) + (d + e)
  {
  }

  /** The client program's request on the wire. */
  function RequestBytes(host: string, path: string): seq<byte>
    requires IsText(host) && IsText(path)
  {
    RequestIsText(host, path);
    Written(Urls.Request(host, path))
  }

  /** A request of the client program that arrives in one piece: the proxy reads the host and the path that were printed. */
  lemma RequestArrives(host: string, path: string, before: seq<byte>, after: seq<byte>, oldHost: string, oldPath: string)
    requires IsText(host) && IsText(path) && Urls.IsLine(host) && Urls.IsLine(path)
    requires Stores(before, 0, RequestBytes(host, path), after)
    ensures RequestIn(after, oldHost, oldPath) == Some((host, path))
  {
    hide Urls.Request, Urls.Parsed, Contains, CString, Written, IsText;
    RequestIsText(host, path);
    var request := Urls.Request(host, path);
    var chunk := Written(request);
    var front := RequestEnds(host, path);
    ContainsEnd(front, "\r\n\r\n");
    assert after == chunk + after[|chunk|..] by { assert before[..0] + chunk == chunk; }
    ReadBack(request, after[|chunk|..]);
    Urls.ParsedIsPrinted(host, path, Urls.Fields(oldHost, oldPath, "", ""));
  }
}
