/** The URL on its way: split by the client program, printed into a request, and parsed by the proxy. */
module Urls {
  import opened Options

  /** What parse_request fills in. */
  datatype Fields = Fields(host: string, path: string, userAgent: string, connection: string)

  const BLANK := Fields("", "", "", "")

  /** The first place of a character, or -1. */
  function StrChr(s: string, c: char): (i: int)
    ensures -1 <= i < |s| && (i >= 0 ==> s[i] == c)
    ensures forall k | 0 <= k < (if i < 0 then |s| else i) :: s[k] != c
  {
    if s == "" then -1
    else if s[0] == c then 0
    else
      var i := StrChr(s[1..], c);
      assert forall k | 1 <= k < |s| :: s[k] == s[1..][k - 1];
      if i < 0 then -1 else i + 1
  }

  function Drop(s: string, n: nat): string {
    if n <= |s| then s[n..] else ""
  }

  // ---- the client program ----

  /** The text of which the client program takes the host and the path. */
  function Text(url: string): string {
    var slash := StrChr(url, '/');
    var before := if slash > 0 then url[..slash] else "";
    if before == "http:" || before == "https:" then Drop(url, slash + 2) else url
  }

  /** What the client program takes for the host and for the path. */
  function Split(url: string): (string, string) {
    var text := Text(url);
    var pos := StrChr(text, '/');
    if pos > 0 then (text[..pos], text[pos..]) else (text, "/")
  }

  /** The host and the path are what the URL means if and only if it is well formed. */
  method SplitUrl(url: string) returns (host: string, path: string)
    ensures (host, path) == Split(url)
    ensures SplitsAs(Stripped(url), host, path) <==> WellFormed(url)
  {
    SplitIsMeantIff(url);
    var pos := StrChr(url, '/');
    var text, before := url, "";
    if pos > 0 {
      before := url[..pos];
    }
    if before == "http:" || before == "https:" {
      text := Drop(url, pos + 2);
      pos := StrChr(text, '/');
    }
    if pos > 0 {
      host, path := text[..pos], text[pos..];
    } else {
      host, path := text, "/";
    }
  }

  /** A header line as it is printed. */
  function Line(key: string, value: string): string {
    key + " " + value
  }

  function Headers(host: string): string {
    Line("Host:", host) + "\r\n" + (Line("User-Agent:", "Team4") + "\r\n" + "\r\n")
  }

  function Request(host: string, path: string): string {
    "GET " + path + " HTTP/1.0" + "\r\n" + Headers(host)
  }

  // ---- what a URL means ----

  /** The URL without its scheme. */
  function Stripped(url: string): string {
    if "http://" <= url then url[7..] else if "https://" <= url then url[8..] else url
  }

  /** The host reaches up to the first slash and the path is the rest, or "/" when there is none. */
  predicate SplitsAs(text: string, host: string, path: string) {
    && '/' !in host
    && (if '/' in text then host + path == text && path != "" && path[0] == '/' else host == text && path == "/")
  }

  /** A host in front of the first slash, and both slashes of the scheme or none. */
  predicate WellFormed(url: string) {
    && !("/" <= Stripped(url))
    && ("http:/" <= url ==> "http://" <= url)
    && ("https:/" <= url ==> "https://" <= url)
  }

  predicate HasScheme(url: string, scheme: string) {
    |scheme| < |url| && url[..|scheme|] == scheme && url[|scheme|] == '/'
  }

  lemma SchemeIs(url: string, scheme: string)
    requires scheme != "" && forall k | 0 <= k < |scheme| :: scheme[k] != '/'
    ensures var slash := StrChr(url, '/'); HasScheme(url, scheme) <==> slash > 0 && url[..slash] == scheme
  {
    var slash := StrChr(url, '/');
    if HasScheme(url, scheme) {
      assert forall k | 0 <= k < |scheme| :: url[k] == url[..|scheme|][k] == scheme[k];
    }
  }

  lemma HasSchemeIsPrefix(url: string, scheme: string, withSlash: string)
    requires withSlash == scheme + "/"
    ensures withSlash <= url <==> HasScheme(url, scheme)
  {
    if |scheme| < |url| {
      assert url[..|scheme| + 1] == url[..|scheme|] + [url[|scheme|]];
    }
  }

  predicate MissesSlash(url: string) {
    ("http:/" <= url && !("http://" <= url)) || ("https:/" <= url && !("https://" <= url))
  }

  lemma PrefixOfPrefix(a: string, b: string, url: string)
    requires a <= b <= url
    ensures a <= url
  {
    assert url[..|a|] == b[..|a|];
  }

  /** The text that is split is the URL without its scheme, unless the second slash of the scheme is missing. */
  lemma TextIsStripped(url: string)
    ensures if MissesSlash(url) then |Text(url)| + 6 <= |url| && Stripped(url) == url else Text(url) == Stripped(url)
  {
    hide HasScheme;
    var slash := StrChr(url, '/');
    SchemeIs(url, "http:");
    SchemeIs(url, "https:");
    HasSchemeIsPrefix(url, "http:", "http:/");
    HasSchemeIsPrefix(url, "https:", "https:/");
    if "http://" <= url {
      PrefixOfPrefix("http:/", "http://", url);
    }
    if "https://" <= url {
      PrefixOfPrefix("https:/", "https://", url);
    }
  }

  lemma SplitsAsText(text: string, host: string, path: string)
    requires var pos := StrChr(text, '/'); (host, path) == if pos > 0 then (text[..pos], text[pos..]) else (text, "/")
    ensures SplitsAs(text, host, path) <==> !("/" <= text)
  {
    var pos := StrChr(text, '/');
    if pos > 0 {
      assert text[..pos] + text[pos..] == text;
    } else if pos == 0 {
      assert text[0] in text;
    }
  }

  lemma TooShort(text: string, url: string, host: string, path: string)
    requires |text| + 6 <= |url| && '/' in url && |host + path| <= |text| + 1
    ensures !SplitsAs(url, host, path)
  {
  }

  /** The split is what the URL means if and only if the URL is well formed. */
  lemma SplitIsMeantIff(url: string)
    ensures var (host, path) := Split(url); SplitsAs(Stripped(url), host, path) <==> WellFormed(url)
  {
    hide SplitsAs, Text, Stripped;
    var (host, path) := Split(url);
    var text := Text(url);
    TextIsStripped(url);
    if MissesSlash(url) {
      assert '/' in url by { SlashInside(url); }
      TooShort(text, url, host, path);
    } else {
      SplitsAsText(text, host, path);
    }
  }

  lemma SlashInside(url: string)
    requires MissesSlash(url)
    ensures '/' in url
  {
    HasSchemeIsPrefix(url, "http:", "http:/");
    HasSchemeIsPrefix(url, "https:", "https:/");
  }

  /** A slash too many, and the whole rest of the URL is taken for a host. */
  lemma ThirdSlashIsTakenForTheHost()
    ensures Split("http:///p") == ("/p", "/") && !WellFormed("http:///p")
  {
    var url := "http:///p";
    assert url[..7] == "http://" && url[..6] == "http:/";
    assert !("https:/" <= url) by { assert url[4] != "https:/"[4]; }
    TextIsStripped(url);
    assert Text(url) == "/p";
  }

  // ---- the proxy's parser ----

  predicate IsDelimiter(c: char) {
    c == '\r' || c == '\n'
  }

  /** The number of delimiters in front. */
  function Delimiters(s: string): (n: nat)
    ensures n <= |s| && (n < |s| ==> !IsDelimiter(s[n]))
  {
    if s == "" || !IsDelimiter(s[0]) then 0 else 1 + Delimiters(s[1..])
  }

  /** The length of the token in front. */
  function TokenLength(s: string): (n: nat)
    ensures n <= |s| && (n < |s| ==> IsDelimiter(s[n])) && (forall i | 0 <= i < n :: !IsDelimiter(s[i]))
  {
    if s == "" || IsDelimiter(s[0]) then 0 else 1 + TokenLength(s[1..])
  }

  /** What strtok_r cuts a text into. */
  function Tokens(s: string): seq<string>
    decreases |s|
  {
    if s == "" then []
    else if IsDelimiter(s[0]) then Tokens(s[1..])
    else [s[..TokenLength(s)]] + Tokens(s[TokenLength(s)..])
  }

  /** A header line stored; none when the line holds no space, where the copy of its key has no bound. */
  function WithLine(fields: Fields, token: string): Option<Fields> {
    var pos := StrChr(token, ' ');
    if pos < 0 then None
    else
      var key, value := token[..pos], token[pos + 1..];
      if key == "Host:" then Some(fields.(host := value))
      else if key == "User-Agent:" then Some(fields.(userAgent := value))
      else if key == "Connection:" then Some(fields.(connection := value))
      else Some(fields)
  }

  function WithLines(fields: Fields, tokens: seq<string>): Option<Fields>
    decreases |tokens|
  {
    if tokens == [] then Some(fields)
    else
      match WithLine(fields, tokens[0])
      case None => None
      case Some(more) => WithLines(more, tokens[1..])
  }

  /** What the proxy reads in a request; none when the first line is too short to hold a method and a version. */
  function Parsed(request: string, fields: Fields): Option<Fields> {
    var pos := StrChr(request, '\r');
    if pos < 13 then None
    else WithLines(fields.(path := request[4..pos - 9]), Tokens(Drop(request, pos + 2)))
  }

  lemma {:induction false} TokensBehindDelimiters(s: string)
    ensures Tokens(s) == Tokens(s[Delimiters(s)..])
  {
    if s != "" && IsDelimiter(s[0]) {
      TokensBehindDelimiters(s[1..]);
      assert s[1..][Delimiters(s[1..])..] == s[Delimiters(s)..];
    } else {
      assert s[0..] == s;
    }
  }

  /** The proxy's parser: the first line gives the path, every further one may give a field. */
  method ParseRequest(request: string, before: Fields) returns (fields: Option<Fields>)
    ensures fields == Parsed(request, before)
  {
    var pos := StrChr(request, '\r');
    if pos < 13 {
      return None;
    }
    var req := before.(path := request[4..pos - 9]);
    var rest := Drop(request, pos + 2);
    ghost var lines := Tokens(rest);
    ghost var start := req;
    TokensBehindDelimiters(rest);
    rest := rest[Delimiters(rest)..];
    while rest != ""
      invariant rest == "" || !IsDelimiter(rest[0])
      invariant WithLines(req, Tokens(rest)) == WithLines(start, lines)
      decreases |rest|
    {
      var length := TokenLength(rest);
      var token := rest[..length];
      assert Tokens(rest) == [token] + Tokens(rest[length..]);
      var line := WithLine(req, token);
      if line.None? {
        return None;
      }
      req := line.value;
      rest := rest[length..];
      TokensBehindDelimiters(rest);
      rest := rest[Delimiters(rest)..];
    }
    return Some(req);
  }

  // ---- which lines count ----

  predicate IsHostLine(line: string) {
    |line| >= 6 && line[..6] == "Host: "
  }

  ghost predicate HostIsAt(lines: seq<string>, i: nat, host: string) {
    && i < |lines| && IsHostLine(lines[i]) && host == lines[i][6..]
    && forall j | i < j < |lines| :: !IsHostLine(lines[j])
  }

  /** The host is what the last Host line says, or what it was before if there is none. */
  ghost predicate HostOfLines(lines: seq<string>, before: string, host: string) {
    if forall i | 0 <= i < |lines| :: !IsHostLine(lines[i]) then host == before
    else exists i: nat :: HostIsAt(lines, i, host)
  }

  /** The nonempty lines behind the first one. */
  function HeaderLines(request: string): seq<string> {
    Tokens(Drop(request, StrChr(request, '\r') + 2))
  }

  lemma KeyInFront(line: string, key: string)
    requires forall k | 0 <= k < |key| :: key[k] != ' '
    requires |line| >= |key| + 1 && line[..|key| + 1] == key + " "
    ensures StrChr(line, ' ') == |key| && line[..|key|] == key
  {
    var front := line[..|key| + 1];
    assert line[|key|] == front[|key|];
    assert forall k | 0 <= k < |key| :: line[k] == front[k] == key[k];
  }

  lemma SpaceBehindKey(line: string, key: string)
    requires StrChr(line, ' ') == |key| && line[..|key|] == key
    ensures |line| >= |key| + 1 && line[..|key| + 1] == key + " "
  {
    hide StrChr;
    assert line[|key|] == ' ';
    assert line[..|key| + 1] == line[..|key|] + [line[|key|]];
  }

  /** A key and the space behind it are at the front exactly if the first space comes right behind the key. */
  lemma KeyIsFront(line: string, key: string)
    requires forall k | 0 <= k < |key| :: key[k] != ' '
    ensures var pos := StrChr(line, ' ');
      |line| >= |key| + 1 && line[..|key| + 1] == key + " " <==> pos >= 0 && line[..pos] == key
  {
    var pos := StrChr(line, ' ');
    if |line| >= |key| + 1 && line[..|key| + 1] == key + " " {
      KeyInFront(line, key);
    }
    if pos >= 0 && line[..pos] == key {
      SpaceBehindKey(line, key);
    }
  }

  lemma HasSpace(line: string)
    ensures StrChr(line, ' ') >= 0 <==> ' ' in line
  {
  }

  /** A line is taken if it holds a space, and only a Host line changes the host. */
  lemma HostAfterLine(fields: Fields, line: string)
    ensures WithLine(fields, line).Some? <==> ' ' in line
    ensures WithLine(fields, line).Some? ==>
      && WithLine(fields, line).value.host == (if IsHostLine(line) then line[6..] else fields.host)
      && WithLine(fields, line).value.path == fields.path
  {
    hide StrChr;
    HasSpace(line);
    KeyIsFront(line, "Host:");
    assert "Host:" + " " == "Host: ";
  }

  lemma HostOfMore(lines: seq<string>, before: string, host: string)
    requires lines != []
    requires HostOfLines(lines[1..], if IsHostLine(lines[0]) then lines[0][6..] else before, host)
    ensures HostOfLines(lines, before, host)
  {
    var rest := lines[1..];
    assert forall i | 0 <= i < |rest| :: rest[i] == lines[i + 1];
    if forall i | 0 <= i < |rest| :: !IsHostLine(rest[i]) {
      assert IsHostLine(lines[0]) ==> HostIsAt(lines, 0, host);
    } else {
      var i: nat :| HostIsAt(rest, i, host);
      assert HostIsAt(lines, i + 1, host);
    }
  }

  lemma {:induction false} HostOfFields(fields: Fields, lines: seq<string>)
    ensures WithLines(fields, lines).Some? <==> forall i | 0 <= i < |lines| :: ' ' in lines[i]
    ensures WithLines(fields, lines).Some? ==>
      && HostOfLines(lines, fields.host, WithLines(fields, lines).value.host)
      && WithLines(fields, lines).value.path == fields.path
    decreases |lines|
  {
    hide WithLine, IsHostLine, HostOfLines;
    if lines == [] {
      NoHostLine(fields.host);
    } else {
      HostAfterLine(fields, lines[0]);
      assert forall i | 1 <= i < |lines| :: lines[i] == lines[1..][i - 1];
      if WithLine(fields, lines[0]).Some? {
        var more := WithLine(fields, lines[0]).value;
        HostOfFields(more, lines[1..]);
        if WithLines(more, lines[1..]).Some? {
          HostOfMore(lines, fields.host, WithLines(more, lines[1..]).value.host);
        }
      }
    }
  }

  lemma NoHostLine(host: string)
    ensures HostOfLines([], host, host)
  {
  }

  /**
    For every request: it is read if its first line is long enough and every header line holds a space. The path
    is then what is between the method and the version, and the host is the value of the last Host line, or
    what it was before if there is none, whatever other lines there are.
   */
  lemma RequestIsReadIff(request: string, before: Fields)
    ensures var pos, fields := StrChr(request, '\r'), Parsed(request, before);
      && (fields.Some? <==> pos >= 13 && forall i | 0 <= i < |HeaderLines(request)| :: ' ' in HeaderLines(request)[i])
      && (fields.Some? ==> fields.value.path == request[4..pos - 9]
                           && HostOfLines(HeaderLines(request), before.host, fields.value.host))
  {
    hide Tokens, Drop, StrChr, WithLines, HostOfLines;
    var pos := StrChr(request, '\r');
    if pos >= 13 {
      HostOfFields(before.(path := request[4..pos - 9]), HeaderLines(request));
    }
  }

  // ---- there and back ----

  /** A text without line breaks. */
  predicate IsLine(s: string) {
    forall i | 0 <= i < |s| :: !IsDelimiter(s[i])
  }

  lemma {:induction false} TokenLengthOfLine(line: string, rest: string)
    requires IsLine(line) && (rest == "" || IsDelimiter(rest[0]))
    ensures TokenLength(line + rest) == |line|
  {
    if line == "" {
      assert line + rest == rest;
    } else {
      assert (line + rest)[1..] == line[1..] + rest;
      TokenLengthOfLine(line[1..], rest);
    }
  }

  /** A line in front of the others is the first token. */
  lemma TokensOfLine(line: string, rest: string)
    requires IsLine(line) && line != ""
    ensures Tokens(line + "\r\n" + rest) == [line] + Tokens(rest)
  {
    var tail := "\r\n" + rest;
    var s := line + tail;
    assert line + "\r\n" + rest == s;
    TokenLengthOfLine(line, tail);
    assert s[0] == line[0] && s[..|line|] == line && s[|line|..] == tail;
    assert tail[1..] == "\n" + rest && tail[1..][1..] == rest;
    assert Tokens(tail) == Tokens(tail[1..]) == Tokens(rest);
  }

  lemma LineSplits(key: string, value: string)
    requires forall k | 0 <= k < |key| :: key[k] != ' '
    ensures var line := Line(key, value);
      StrChr(line, ' ') == |key| && line[..|key|] == key && line[|key| + 1..] == value
  {
    var line := Line(key, value);
    assert forall k | 0 <= k < |key| :: line[k] == key[k];
    assert line[|key|] == ' ';
  }

  lemma FirstLine(fields: Fields, start: string, path: string, end: string, lines: string)
    requires |start| == 4 && |end| == 9 && IsLine(start) && IsLine(path) && IsLine(end)
    ensures var request := start + path + end + "\r\n" + lines;
      Parsed(request, fields) == WithLines(fields.(path := path), Tokens(lines))
  {
    hide Tokens, WithLines;
    var first := start + path + end;
    var request := first + "\r\n" + lines;
    assert IsLine(first);
    assert forall k | 0 <= k < |first| :: request[k] == first[k];
    assert request[|first|] == '\r' && |first| == |path| + 13;
    assert StrChr(request, '\r') == |first|;
    assert request[4..|first| - 9] == path;
    assert Drop(request, |first| + 2) == lines;
  }

  lemma LinesOfRequest(host: string)
    requires IsLine(host)
    ensures Tokens(Line("Host:", host) + "\r\n" + (Line("User-Agent:", "Team4") + "\r\n" + "\r\n"))
         == [Line("Host:", host), Line("User-Agent:", "Team4")]
  {
    var hostLine, agentLine := Line("Host:", host), Line("User-Agent:", "Team4");
    assert IsLine(hostLine) && IsLine(agentLine);
    hide Line;
    TokensOfLine(hostLine, agentLine + "\r\n" + "\r\n");
    TokensOfLine(agentLine, "\r\n");
    assert "\r\n"[1..] == "\n" && "\n"[1..] == "";
    assert Tokens("\r\n") == Tokens("\n") == [];
  }

  lemma FieldsOfLines(before: Fields, host: string, path: string)
    ensures WithLines(before.(path := path), [Line("Host:", host), Line("User-Agent:", "Team4")])
         == Some(before.(host := host, path := path, userAgent := "Team4"))
  {
    hide Line, StrChr;
    var fields := before.(path := path);
    var hostLine, agentLine := Line("Host:", host), Line("User-Agent:", "Team4");
    LineSplits("Host:", host);
    LineSplits("User-Agent:", "Team4");
    assert WithLine(fields, hostLine) == Some(fields.(host := host));
    assert "Host:" != "User-Agent:";
    assert WithLine(fields.(host := host), agentLine) == Some(before.(host := host, path := path, userAgent := "Team4"));
    assert [hostLine, agentLine][1..] == [agentLine] && [agentLine][1..] == [];
    assert WithLines(fields.(host := host), [agentLine]) == Some(before.(host := host, path := path, userAgent := "Team4"));
  }

  /** The proxy reads the path and the host that the client program has printed. */
  lemma ParsedIsPrinted(host: string, path: string, before: Fields)
    requires IsLine(host) && IsLine(path)
    ensures Parsed(Request(host, path), before) == Some(before.(host := host, path := path, userAgent := "Team4"))
  {
    hide Parsed, Tokens, WithLines, Line;
    FirstLine(before, "GET ", path, " HTTP/1.0", Headers(host));
    LinesOfRequest(host);
    FieldsOfLines(before, host, path);
  }

  /**
    For every URL without a line break the proxy gets what the client program split, and that is what is
    meant if and only if the URL is well formed.
   */
  lemma UrlReachesTheProxyIff(url: string)
    requires IsLine(url)
    ensures var (host, path) := Split(url);
      && IsLine(host) && IsLine(path)
      && Parsed(Request(host, path), BLANK) == Some(Fields(host, path, "Team4", ""))
      && (SplitsAs(Stripped(url), host, path) <==> WellFormed(url))
  {
    hide Parsed, Request, SplitsAs, WellFormed, Stripped;
    SplitIsMeantIff(url);
    var (host, path) := Split(url);
    ParsedIsPrinted(host, path, BLANK);
  }

  // ---- the sizes of the C arrays ----

  const MAX_HOST := 253
  const MAX_PATH := 100
  const MAX_REQUEST := 1500

  /** With their terminating zeros the host, the path and the request fit in their arrays. */
  predicate Fits(host: string, path: string) {
    |host| < MAX_HOST && |path| < MAX_PATH && |Request(host, path)| < MAX_REQUEST
  }

  lemma RequestSize(host: string, path: string)
    ensures |Request(host, path)| == |host| + |path| + 44
  {
  }

  /** The host and the path are as long as the text, and a slash that is supplied. */
  lemma SplitSize(url: string)
    ensures var (host, path) := Split(url);
      |host| + |path| == |Text(url)| + (if StrChr(Text(url), '/') > 0 then 0 else 1)
    ensures |Text(url)| <= |url|
  {
  }

  /**
    Everything fits if and only if the host and the path do: the request then does as well. It is so for every
    URL of less than 100 characters, and for none that has more than 351 behind its scheme.
   */
  lemma UrlFitsIff(url: string)
    ensures var (host, path) := Split(url);
      && (Fits(host, path) <==> |host| < MAX_HOST && |path| < MAX_PATH)
      && (|url| < MAX_PATH ==> Fits(host, path))
      && (Fits(host, path) ==> |Text(url)| <= (MAX_HOST - 1) + (MAX_PATH - 1))
  {
    hide Request, Text, StrChr;
    var (host, path) := Split(url);
    RequestSize(host, path);
    SplitSize(url);
    if |url| < MAX_PATH {
      PathSize(url);
    }
  }

  lemma PathSize(url: string)
    ensures |Split(url).1| <= |url| || |Split(url).1| == 1
    ensures |Split(url).0| <= |url|
  {
  }
}
