/** What each answer of a server does, from its first chunk to its end, with other connections served in between. */
module ProxyAnswers {
  import opened Bytes
  import opened Options
  import opened ProxyTypes
  import opened CacheQueues
  import opened ProxyModel
  import opened ProxyInvariant
  import opened ProxySafety
  import opened ProxyMemory

  // ---- the request ----

  /**
    A request for which a server can be reached: the client waits for it, and it is to be written the request
    from the client's buffer, a conditional one exactly when the queue has a complete entry for the URL.
   */
  lemma RequestIsConditionalIff<N, C>(s: State<N, C>, n: N, chunk: seq<byte>, after: seq<byte>,
                                      request: Option<(string, string)>, v: N, b: C)
    requires Inv(s) && Enabled(s, ReadRequest(n, chunk, after, request, Some(v)))
    ensures var s' := Step(s, ReadRequest(n, chunk, after, request, Some(v)));
      var url := if request.Some? then request.value else UrlOf(s, n);
      && n in s'.conns && s'.conns[n].status == Idle && s'.conns[n].partner == Some(v) && s'.conns[n].asked == url
      && s'.conns[n].buf == s.conns[n].buf && v in s'.conns && s'.conns[v].buf == s.conns[n].buf
      && s'.conns[v].kind == Server && s'.conns[v].status == Writing && s'.conns[v].offset == 0
      && s'.conns[v].partner == Some(n)
      && (s'.conns[v].flag == 1 <==> s'.conns[v].backup.Some?)
      && (s'.conns[v].backup == Some(b) <==> b in s.slots && b in s.bufs && s.bufs[b].info.complete && Key(s.bufs[b].info) == url)
  {
    hide ListOk, PartnersOk, ConnsOk, CacheOk, KeysAreUnique, Stores, Hit, Without;
    var c := s.conns[n].buf.value;
    var url := if request.Some? then request.value else UrlOf(s, n);
    var info := if request.Some? then s.bufs[c].info.(host := url.0, path := url.1) else s.bufs[c].info;
    var bufs := s.bufs[c := s.bufs[c].(bytes := after, info := info)];
    FilledIsNotCached(s, ReadRequest(n, chunk, after, request, Some(v)));
    LookupElsewhere(s, c, bufs[c], url);
    HitIsTheOnlyEntry(s, url, b);
    assert Key(info) == url;
  }

  /** A client whose server cannot be reached is dropped, and nobody and nothing else is touched but its buffer. */
  lemma UnreachableDropsClient<N, C>(s: State<N, C>, n: N, chunk: seq<byte>, after: seq<byte>,
                                     request: Option<(string, string)>)
    requires Inv(s) && Enabled(s, ReadRequest(n, chunk, after, request, None))
    ensures var s' := Step(s, ReadRequest(n, chunk, after, request, None));
      && s'.conns == s.conns - {n} && n !in s'.nodes && (forall m | m != n :: m in s'.nodes <==> m in s.nodes)
      && s'.slots == s.slots && s'.cached == s.cached && s'.orphans == s.orphans
      && forall c | c in s.bufs && s.conns[n].buf != Some(c) :: c in s'.bufs && s'.bufs[c] == s.bufs[c]
  {
    hide ListOk, PartnersOk, ConnsOk, CacheOk, KeysAreUnique, Stores, Hit, Without;
    MembersOfWithout(s.nodes, n);
  }

  lemma {:induction false} MembersOfWithout<T>(s: seq<T>, x: T)
    ensures x !in Without(s, x) && forall y | y != x :: y in Without(s, x) <==> y in s
  {
    if s != [] {
      MembersOfWithout(s[1..], x);
      assert s == [s[0]] + s[1..];
    }
  }

  lemma LookupElsewhere<N, C>(s: State<N, C>, c: C, buf: Buf<N>, key: (string, string))
    requires Inv(s) && c !in s.cached
    ensures Hit(s.slots, s.bufs[c := buf], key) == Hit(s.slots, s.bufs, key)
  {
    hide Hit, ListOk, PartnersOk, ConnsOk, KeysAreUnique;
    assert forall i | 0 <= i < |s.slots| :: s.slots[i] in Elements(s.slots);
    SameLookup(s.slots, s.bufs, s.bufs[c := buf], key);
  }

  // ---- one read ----

  /** The server is dropped when it sends no more, or when a conditional request is answered 304 at its first read. */
  lemma AnswerEndsIff<N, C>(s: State<N, C>, n: N, chunk: seq<byte>, after: seq<byte>, head: ResponseHead)
    requires Inv(s) && Enabled(s, ReadResponse(n, chunk, after, head))
    ensures n !in Step(s, ReadResponse(n, chunk, after, head)).conns <==>
      chunk == [] || (s.conns[n].flag == 1 && !BufOf(s, n).info.complete && head.notModified)
  {
    hide Inv, Hit, HeadRead, Stores, Without, BufOf;
    ConfirmedIff(s, n, chunk, after, head);
  }

  /** A read that is no confirmation: the server goes on, its client waits on, and the buffer grows by the chunk. */
  lemma AnswerGoesOn<N, C>(s: State<N, C>, n: N, chunk: seq<byte>, after: seq<byte>, head: ResponseHead)
    requires Inv(s) && Enabled(s, ReadResponse(n, chunk, after, head)) && chunk != []
    requires s.conns[n].flag != 1 || BufOf(s, n).info.complete || !head.notModified
    ensures var s', c, p := Step(s, ReadResponse(n, chunk, after, head)), s.conns[n].buf.value, s.conns[n].partner;
      && s'.conns == s.conns[n := s.conns[n].(offset := s.conns[n].offset + |chunk|)]
      && s'.bufs == s.bufs[c := Buf(after, BufOf(s, n).info.(date := s'.bufs[c].info.date, complete := true),
                                    BufOf(s, n).response + chunk, false, BufOf(s, n).owner)]
      && s'.bufs[c].info.date == (if BufOf(s, n).info.complete then BufOf(s, n).info.date else head.date)
      && p.Some? && p.value in s'.conns && s'.conns[p.value] == s.conns[p.value] && s'.conns[p.value].buf == Some(c)
  {
    hide ListOk, ConnsOk, CacheOk, KeysAreUnique, Hit, Stores, Without;
    var p, c := ServerOfRead(s, n, chunk, after);
    ConfirmedIff(s, n, chunk, after, head);
  }

  /** The end of an answer in full: the client is to be written the server's own buffer. */
  lemma AnswerIsServed<N, C>(s: State<N, C>, n: N, after: seq<byte>, head: ResponseHead)
    requires Inv(s) && Enabled(s, ReadResponse(n, [], after, head))
    requires s.conns[n].flag != 1 || BufOf(s, n).info.complete || !head.notModified
    ensures var s', c, p := Step(s, ReadResponse(n, [], after, head)), s.conns[n].buf.value, s.conns[n].partner;
      && p.Some? && p.value in s.conns && s.conns[p.value].buf == Some(c)
      && s'.conns == s.conns[p.value := s.conns[p.value].(status := Writing)] - {n}
      && s'.bufs == s.bufs[c := Buf(after, BufOf(s, n).info.(date := s'.bufs[c].info.date, complete := true),
                                    BufOf(s, n).response, true, BufOf(s, n).owner)]
      && s'.bufs[c].info.date == (if BufOf(s, n).info.complete then BufOf(s, n).info.date else head.date)
  {
    hide ListOk, ConnsOk, CacheOk, KeysAreUnique, Hit, Stores, Without;
    var p, c := ServerOfRead(s, n, [], after);
    ConfirmedIff(s, n, [], after, head);
    assert s.bufs[c].response + [] == s.bufs[c].response;
  }

  /** A 304 answer to a conditional request: the client is to be written the known entry, which gets the new date. */
  lemma ConfirmationServesEntry<N, C>(s: State<N, C>, n: N, chunk: seq<byte>, after: seq<byte>, head: ResponseHead)
    requires Inv(s) && Enabled(s, ReadResponse(n, chunk, after, head))
    requires s.conns[n].flag == 1 && !BufOf(s, n).info.complete && head.notModified
    ensures var s', c, p := Step(s, ReadResponse(n, chunk, after, head)), s.conns[n].buf.value, s.conns[n].partner;
      && s.conns[n].backup.Some? && s.conns[n].backup.value in s.bufs
      && var b := s.conns[n].backup.value;
      && p.Some? && p.value in s.conns
      && s'.conns == s.conns[p.value := s.conns[p.value].(status := Writing, buf := Some(b))] - {n}
      && b in s'.bufs && s'.bufs[b] == s.bufs[b].(info := s.bufs[b].info.(date := head.date))
      && forall d | d in s.bufs && d != b && d != c :: d in s'.bufs && s'.bufs[d] == s.bufs[d]
  {
    hide ListOk, ConnsOk, CacheOk, KeysAreUnique, Hit, Stores, Without;
    var p, c := ServerOfRead(s, n, chunk, after);
    ConfirmedIff(s, n, chunk, after, head);
  }

  // ---- a whole answer ----

  /** The server n has begun to send client p an answer in full to a conditional request, into the buffer c. */
  ghost predicate Answering<N, C>(s: State<N, C>, n: N, p: N, c: C, b: C, key: (string, string)) {
    && c in s.bufs && Is(s, n, Server, Reading) && s.conns[n].partner == Some(p)
    && s.conns[n].buf == Some(c) && s.conns[n].backup == Some(b)
    && s.bufs[c].info.complete && Key(s.bufs[c].info) == key
  }

  /** What a server has sent during a run. */
  ghost function ReadBy<N, C>(n: N, events: seq<Event<N, C>>): seq<byte> {
    if events == [] then []
    else (if events[0].ReadResponse? && events[0].n == n then events[0].chunk else []) + ReadBy(n, events[1..])
  }

  ghost predicate SendsOn<N, C>(n: N, e: Event<N, C>) {
    e.ReadResponse? && e.n == n ==> e.chunk != []
  }

  /** No handler for another connection touches the server, its client or its buffer. */
  lemma OthersLeaveAnswer<N, C>(s: State<N, C>, n: N, p: N, c: C, b: C, key: (string, string), e: Event<N, C>)
    requires Inv(s) && Enabled(s, e) && Answering(s, n, p, c, b, key) && !(e.ReadResponse? && e.n == n)
    ensures Answering(Step(s, e), n, p, c, b, key) && Step(s, e).bufs[c].response == s.bufs[c].response
  {
    OthersLeaveServer(s, n, e);
    OthersFillElse(s, n, e);
    hide Inv, Enabled, Step;
    StepTouchesOnlyFilled(s, e, c);
  }

  lemma OthersLeaveServer<N, C>(s: State<N, C>, n: N, e: Event<N, C>)
    requires Inv(s) && Enabled(s, e) && Is(s, n, Server, Reading) && !(e.ReadResponse? && e.n == n)
    ensures n in Step(s, e).conns && Step(s, e).conns[n] == s.conns[n]
  {
    hide Inv, Enabled, Step;
    if e.ReadResponse? {
      OtherAnswersLeaveServer(s, n, e.n, e.chunk, e.after, e.head);
    } else {
      OtherHandlersLeaveServer(s, n, e);
    }
  }

  lemma OtherHandlersLeaveServer<N, C>(s: State<N, C>, n: N, e: Event<N, C>)
    requires Enabled(s, e) && Is(s, n, Server, Reading) && !e.ReadResponse?
    ensures n in Step(s, e).conns && Step(s, e).conns[n] == s.conns[n]
  {
    hide Stores, ResponseRead, RequestRead, RequestWritten, ResponseWritten, Accepted, SendSize;
    match e {
      case Accept(client, buf) => AcceptLeaves(s, client, buf, n);
      case ReadRequest(m, _, after, request, server) => RequestLeaves(s, m, after, request, server, n);
      case WriteRequest(m, count) => RequestSendLeaves(s, m, count, n);
      case WriteResponse(m, count) => ResponseSendLeaves(s, m, count, n);
    }
  }

  lemma AcceptLeaves<N, C>(s: State<N, C>, client: N, buf: C, n: N)
    requires |s.nodes| >= 1 && n in s.conns && n != client
    ensures n in Accepted(s, client, buf).conns && Accepted(s, client, buf).conns[n] == s.conns[n]
  {
  }

  lemma RequestLeaves<N, C>(s: State<N, C>, m: N, after: seq<byte>, request: Option<(string, string)>,
                            server: Option<N>, n: N)
    requires m in s.conns && s.conns[m].buf.Some? && s.conns[m].buf.value in s.bufs && |s.nodes| >= 1
    requires n in s.conns && n != m && Some(n) != server
    ensures var s' := RequestRead(s, m, after, request, server); n in s'.conns && s'.conns[n] == s.conns[n]
  {
    hide Hit, Without;
  }

  lemma RequestSendLeaves<N, C>(s: State<N, C>, m: N, count: nat, n: N)
    requires m in s.conns && s.conns[m].buf.Some? && s.conns[m].buf.value in s.bufs && n in s.conns && n != m
    ensures n in RequestWritten(s, m, count).conns && RequestWritten(s, m, count).conns[n] == s.conns[n]
  {
  }

  lemma ResponseSendLeaves<N, C>(s: State<N, C>, m: N, count: nat, n: N)
    requires m in s.conns && s.conns[m].buf.Some? && s.conns[m].buf.value in s.bufs && n in s.conns && n != m
    ensures n in ResponseWritten(s, m, count).conns && ResponseWritten(s, m, count).conns[n] == s.conns[n]
  {
    hide Without;
  }

  /** An answer of another server changes its client, which is no server, and no one else. */
  lemma OtherAnswersLeaveServer<N, C>(s: State<N, C>, n: N, m: N, chunk: seq<byte>, after: seq<byte>, head: ResponseHead)
    requires Inv(s) && Enabled(s, ReadResponse(m, chunk, after, head)) && Is(s, n, Server, Reading) && m != n
    ensures var s' := Step(s, ReadResponse(m, chunk, after, head)); n in s'.conns && s'.conns[n] == s.conns[n]
  {
    hide Inv, Step, Stores, BufOf;
    var p, c := ServerOfRead(s, m, chunk, after);
    if s.conns[m].flag == 1 && !BufOf(s, m).info.complete && head.notModified {
      ConfirmationServesEntry(s, m, chunk, after, head);
    } else if chunk == [] {
      AnswerIsServed(s, m, after, head);
    } else {
      AnswerGoesOn(s, m, chunk, after, head);
    }
  }

  lemma OthersFillElse<N, C>(s: State<N, C>, n: N, e: Event<N, C>)
    requires Inv(s) && Enabled(s, e) && Is(s, n, Server, Reading) && !(e.ReadResponse? && e.n == n)
    ensures Filled(s, e) != s.conns[n].buf
  {
    hide ListOk, CacheOk, KeysAreUnique, Stores;
    assert HasPartner(s.conns, n);
    var p := s.conns[n].partner.value;
    if Filled(s, e).Some? {
      FillingIsExclusive(s, p, e.n);
    }
  }

  /** While the server sends on, its answer grows by what it sends, whatever else happens. */
  lemma {:induction false} AnswerGrows<N, C>(s: State<N, C>, n: N, p: N, c: C, b: C, key: (string, string),
                                             events: seq<Event<N, C>>, t: State<N, C>)
    requires Inv(s) && Reaches(s, events, t) && c in s.bufs && Answering(s, n, p, c, b, key)
    requires forall i | 0 <= i < |events| :: SendsOn(n, events[i])
    ensures Answering(t, n, p, c, b, key) && c in t.bufs && t.bufs[c].response == s.bufs[c].response + ReadBy(n, events)
    decreases |events|
  {
    hide Inv, Enabled, Step, SendsOn, Answering;
    if events != [] {
      var e, rest := events[0], events[1..];
      AnswerGrowsByOne(s, n, p, c, b, key, e);
      StepKeepsInv(s, e);
      assert forall i | 0 <= i < |rest| :: rest[i] == events[i + 1];
      AnswerGrows(Step(s, e), n, p, c, b, key, rest, t);
    }
  }

  lemma AnswerGrowsByOne<N, C>(s: State<N, C>, n: N, p: N, c: C, b: C, key: (string, string), e: Event<N, C>)
    requires Inv(s) && Enabled(s, e) && Answering(s, n, p, c, b, key) && SendsOn(n, e)
    ensures Answering(Step(s, e), n, p, c, b, key) && c in Step(s, e).bufs
    ensures Step(s, e).bufs[c].response ==
      s.bufs[c].response + if e.ReadResponse? && e.n == n then e.chunk else []
  {
    hide Inv, Enabled, Step;
    if e.ReadResponse? && e.n == n {
      AnswerGoesOn(s, n, e.chunk, e.after, e.head);
    } else {
      OthersLeaveAnswer(s, n, p, c, b, key, e);
    }
  }

  /**
    A conditional request is answered in full, from the first chunk to the end, with whatever else happens
    meanwhile: if the old entry is still in the queue, it stays what lookups for the URL find, with its document
    unchanged, and the new document is not cached, while the client that asked is to be written the new
    document: all that the server has sent.
   */
  lemma EntryIsNotRefreshed<N, C>(s: State<N, C>, first: Event<N, C>, events: seq<Event<N, C>>, t: State<N, C>, last: Event<N, C>)
    requires Inv(s) && first.ReadResponse? && Enabled(s, first)
    requires s.conns[first.n].flag == 1 && !BufOf(s, first.n).info.complete
    requires first.chunk != [] && !first.head.notModified
    requires Reaches(Step(s, first), events, t) && forall i | 0 <= i < |events| :: SendsOn(first.n, events[i])
    requires last.ReadResponse? && last.n == first.n && last.chunk == [] && Enabled(t, last)
    requires s.conns[first.n].backup.Some? && s.conns[first.n].backup.value in t.slots
    ensures var n := first.n; var b, c, p := s.conns[n].backup.value, s.conns[n].buf.value, s.conns[n].partner;
      var s' := Step(t, last);
      && b in s.bufs && b in s'.bufs && SameDocument(s.bufs[b], s'.bufs[b])
      && Hit(s'.slots, s'.bufs, UrlOf(s, n)) == Some(b) && c !in s'.slots && c != b
      && p.Some? && p.value in s'.conns && s'.conns[p.value].status == Writing && s'.conns[p.value].buf == Some(c)
      && c in s'.bufs && s'.bufs[c].closed && s'.bufs[c].response <= s'.bufs[c].bytes
      && s'.bufs[c].response == BufOf(s, n).response + first.chunk + ReadBy(n, events)
  {
    hide Inv, Step, SendsOn, Hit, Reaches, Stores;
    var n, key := first.n, UrlOf(s, first.n);
    var b, c, p := FullAnswerBegins(s, first);
    StepKeepsInv(s, first);
    AnswerGrows(Step(s, first), n, p, c, b, key, events, t);
    RunKeepsInv(Step(s, first), events, t);
    FullAnswerEnds(t, n, p, c, b, key, last);
    KeptByAll(s, first, events, t, last, b);
  }

  lemma KeptByAll<N, C>(s: State<N, C>, first: Event<N, C>, events: seq<Event<N, C>>, t: State<N, C>, last: Event<N, C>, b: C)
    requires Inv(s) && Enabled(s, first) && Reaches(Step(s, first), events, t) && Enabled(t, last) && b in s.cached
    ensures b in s.bufs && b in Step(t, last).bufs && SameDocument(s.bufs[b], Step(t, last).bufs[b])
  {
    hide Inv, Enabled, Step, Reaches;
    StepKeepsRecords(s, first);
    StepKeepsInv(s, first);
    RunKeepsRecords(Step(s, first), events, t);
    RunKeepsInv(Step(s, first), events, t);
    StepKeepsRecords(t, last);
  }

  lemma FullAnswerBegins<N, C>(s: State<N, C>, e: Event<N, C>) returns (b: C, c: C, p: N)
    requires Inv(s) && e.ReadResponse? && Enabled(s, e) && e.chunk != [] && !e.head.notModified
    requires s.conns[e.n].backup.Some?
    ensures s.conns[e.n].backup == Some(b) && s.conns[e.n].buf == Some(c) && s.conns[e.n].partner == Some(p) && b in s.cached
    ensures Answering(Step(s, e), e.n, p, c, b, UrlOf(s, e.n))
    ensures Step(s, e).bufs[c].response == BufOf(s, e.n).response + e.chunk
  {
    hide Step, ListOk, PartnersOk, ConnsOk, CacheOk, KeysAreUnique, Stores;
    p, c := ServerOfRead(s, e.n, e.chunk, e.after);
    b := s.conns[e.n].backup.value;
    AnswerGoesOn(s, e.n, e.chunk, e.after, e.head);
  }

  lemma FullAnswerEnds<N, C>(t: State<N, C>, n: N, p: N, c: C, b: C, key: (string, string), e: Event<N, C>)
    requires Inv(t) && Answering(t, n, p, c, b, key) && b in t.slots
    requires e.ReadResponse? && e.n == n && e.chunk == [] && Enabled(t, e)
    ensures var s' := Step(t, e);
      && Hit(s'.slots, s'.bufs, key) == Some(b) && c !in s'.slots && c != b
      && p in s'.conns && s'.conns[p].status == Writing && s'.conns[p].buf == Some(c)
      && c in s'.bufs && s'.bufs[c].closed && s'.bufs[c].response == t.bufs[c].response
      && s'.bufs[c].response <= s'.bufs[c].bytes
  {
    hide Hit, ListOk, PartnersOk, ConnsOk, CacheOk, KeysAreUnique, Stores, HeadRead, Confirmed, Without;
    var p', c' := ServerOfRead(t, n, [], e.after);
    EntryIsFound(t, n, b);
    ResponseIsCachedIff(t, n, [], e.after, e.head);
    AnswerIsServed(t, n, e.after, e.head);
    SlotIsCached(t, b);
  }

  lemma EntryIsFound<N, C>(t: State<N, C>, n: N, b: C)
    requires Inv(t) && Is(t, n, Server, Reading) && t.conns[n].backup == Some(b) && b in t.slots
    ensures Hit(t.slots, t.bufs, UrlOf(t, n)) == Some(b)
  {
    hide ListOk, PartnersOk, KeysAreUnique, Hit;
    assert ConnOk(n, t.conns[n], t.bufs, t.cached, t.orphans);
    HitIsTheOnlyEntry(t, UrlOf(t, n), b);
  }
}
