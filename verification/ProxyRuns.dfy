/** Runs of the proxy that lead to states one would not want: a freed buffer being sent, and a cached 304 answer. */
module ProxyRuns {
  import opened Bytes
  import opened Options
  import opened ProxyTypes
  import opened FdLists
  import opened CacheQueues
  import opened ProxyModel
  import opened ProxyInvariant
  import opened ProxySafety
  import opened ProxyMemory

  /** One way of storing a chunk, with zeros where realloc may leave anything. */
  function StoreAt(before: seq<byte>, offset: nat, chunk: seq<byte>): (after: seq<byte>)
    requires offset <= |before| && |chunk| <= MAX_DATA_SIZE
    ensures Stores(before, offset, chunk, after)
  {
    var grown := before + Zeros(GrownSize(|before|, offset, |chunk|) - |before|);
    var after := grown[..offset] + chunk + grown[offset + |chunk|..];
    assert after[..offset + |chunk|] == grown[..offset] + chunk;
    after
  }

  lemma ReachesOne<N, C>(s: State<N, C>, e: Event<N, C>)
    requires Enabled(s, e)
    ensures Reaches(s, [e], Step(s, e))
  {
    hide Step, Enabled;
    assert [e][1..] == [];
  }

  // ---- a request up to the point where its server is read from ----

  /** A client that waits, and its server, which has been written the request. */
  function AskingClient<N, C>(v: N, c: C, url: (string, string)): Conn<N, C> {
    Conn(Client, Idle, Some(v), Some(c), None, 0, 0, url, [])
  }

  function AskedServer<N, C>(n: N, c: C, entry: Option<C>): Conn<N, C> {
    Conn(Server, Reading, Some(n), Some(c), entry, 0, if entry.Some? then 1 else 2, NO_URL, [])
  }

  function RequestBuffer<N>(n: N, text: seq<byte>, url: (string, string)): Buf<N>
    requires |text| < INITIAL_BUFFER
  {
    Buf(StoreAt(Zeros(INITIAL_BUFFER), 0, text), HttpInfo(url.0, url.1, "", false), [], false, Some(n))
  }

  /** New names for a client, its buffer and its server. */
  ghost predicate Free3<N, C>(s: State<N, C>, n: N, c: C, v: N) {
    n !in s.conns && c !in s.bufs && v !in s.conns && n != v
  }

  /** What is left alone, and what has become of the client, its buffer and its server. */
  ghost predicate Asked<N, C>(s: State<N, C>, n: N, c: C, v: N, text: seq<byte>, url: (string, string), t: State<N, C>)
    requires |text| < INITIAL_BUFFER
  {
    && Inv(t) && t.slots == s.slots && t.cached == s.cached && t.orphans == s.orphans
    && t.conns == s.conns[n := AskingClient(v, c, url)][v := AskedServer(n, c, Hit(s.slots, s.bufs, url))]
    && t.bufs == s.bufs[c := RequestBuffer(n, text, url)]
  }

  lemma Accepting<N, C>(s: State<N, C>, n: N, c: C) returns (t: State<N, C>)
    requires Inv(s) && n !in s.conns && c !in s.bufs
    ensures Reaches(s, [Accept(n, c)], t) && Inv(t)
    ensures t.slots == s.slots && t.cached == s.cached && t.orphans == s.orphans
    ensures t.conns == s.conns[n := Conn(Client, Reading, None, Some(c), None, 0, 0, NO_URL, [])]
    ensures t.bufs == s.bufs[c := Buf(Zeros(INITIAL_BUFFER), NO_INFO, [], false, Some(n))]
    ensures |t.nodes| >= 2 && n in t.nodes && n != t.nodes[|t.nodes| - 1]
  {
    hide PartnersOk, ConnsOk, CacheOk, KeysAreUnique;
    var e: Event<N, C> := Accept(n, c);
    t := Step(s, e);
    ReachesOne(s, e);
    StepKeepsInv(s, e);
    MembersOfInsert(s.nodes, n);
    assert s.nodes[|s.nodes| - 1] in Elements(s.nodes);
  }

  lemma Requesting<N, C>(s: State<N, C>, n: N, c: C, v: N, text: seq<byte>, url: (string, string))
    returns (t: State<N, C>, e: Event<N, C>)
    requires Inv(s) && n in s.conns && c in s.bufs && v !in s.conns && |text| < INITIAL_BUFFER
    requires s.conns[n] == Conn(Client, Reading, None, Some(c), None, 0, 0, NO_URL, [])
    requires s.bufs[c] == Buf(Zeros(INITIAL_BUFFER), NO_INFO, [], false, Some(n))
    requires |s.nodes| >= 2 && n in s.nodes && n != s.nodes[|s.nodes| - 1]
    ensures Reaches(s, [e], t) && Inv(t)
    ensures t.slots == s.slots && t.cached == s.cached && t.orphans == s.orphans
    ensures t.bufs == s.bufs[c := RequestBuffer(n, text, url)]
    ensures t.conns == s.conns[n := AskingClient(v, c, url)][v := NewServer(n, c, Hit(s.slots, t.bufs, url))]
  {
    hide ListOk, PartnersOk, ConnsOk, CacheOk, KeysAreUnique, StoreAt, Hit, InsertBeforeLast;
    e := ReadRequest(n, text, StoreAt(Zeros(INITIAL_BUFFER), 0, text), Some(url), Some(v));
    t := Step(s, e);
    ReachesOne(s, e);
    StepKeepsInv(s, e);
  }

  lemma Forwarding<N, C>(s: State<N, C>, n: N, c: C, v: N, entry: Option<C>) returns (t: State<N, C>)
    requires Inv(s) && v in s.conns && s.conns[v] == NewServer(n, c, entry) && c in s.bufs && |s.bufs[c].bytes| == INITIAL_BUFFER
    ensures Reaches(s, [WriteRequest(v, INITIAL_BUFFER)], t) && Inv(t)
    ensures t == s.(conns := s.conns[v := AskedServer(n, c, entry)])
  {
    hide ListOk, PartnersOk, ConnsOk, CacheOk, KeysAreUnique;
    var e: Event<N, C> := WriteRequest(v, INITIAL_BUFFER);
    t := Step(s, e);
    ReachesOne(s, e);
    StepKeepsInv(s, e);
  }

  lemma NewBufferIsNoHit<N, C>(s: State<N, C>, c: C, buf: Buf<N>, url: (string, string))
    requires Inv(s) && c !in s.bufs
    ensures Hit(s.slots, s.bufs[c := buf], url) == Hit(s.slots, s.bufs, url)
  {
    assert forall i | 0 <= i < |s.slots| :: s.slots[i] in Elements(s.slots);
    SameLookup(s.slots, s.bufs[c := buf], s.bufs, url);
  }

  /** A client connects and sends its request in one piece, and the request is forwarded. */
  lemma Ask<N, C>(s: State<N, C>, n: N, c: C, v: N, text: seq<byte>, url: (string, string))
    returns (events: seq<Event<N, C>>, t: State<N, C>)
    requires Inv(s) && Free3(s, n, c, v) && |text| < INITIAL_BUFFER
    ensures Reaches(s, events, t) && Asked(s, n, c, v, text, url, t)
  {
    hide Inv, Reaches, Hit, StoreAt;
    var t1 := Accepting(s, n, c);
    var t2, e := Requesting(t1, n, c, v, text, url);
    NewBufferIsNoHit(s, c, RequestBuffer(n, text, url), url);
    assert t2.bufs == s.bufs[c := RequestBuffer(n, text, url)];
    t := Forwarding(t2, n, c, v, Hit(s.slots, s.bufs, url));
    ReachesConcat(s, [Accept(n, c)], t1, [e], t2);
    ReachesConcat(s, [Accept(n, c)] + [e], t2, [WriteRequest(v, INITIAL_BUFFER)], t);
    events := [Accept(n, c)] + [e] + [WriteRequest(v, INITIAL_BUFFER)];
    assert t.conns == s.conns[n := AskingClient(v, c, url)][v := AskedServer(n, c, Hit(s.slots, s.bufs, url))];
  }

  // ---- a response ----

  lemma ReadingPart<N, C>(s: State<N, C>, n: N, c: C, v: N, data: seq<byte>, head: ResponseHead)
    returns (t: State<N, C>, e: Event<N, C>)
    requires Inv(s) && v in s.conns && s.conns[v] == AskedServer(n, c, None) && c in s.bufs
    requires 0 < |data| <= MAX_DATA_SIZE && !s.bufs[c].info.complete
    ensures Reaches(s, [e], t) && Inv(t)
    ensures t.slots == s.slots && t.cached == s.cached && t.orphans == s.orphans
    ensures t.conns == s.conns[v := s.conns[v].(offset := |data|)]
    ensures c in t.bufs && t.bufs == s.bufs[c := t.bufs[c]] && |data| <= |t.bufs[c].bytes|
    ensures t.bufs[c].info == s.bufs[c].info.(date := head.date, complete := true)
    ensures t.bufs[c].response == s.bufs[c].response + data
  {
    hide ListOk, PartnersOk, ConnsOk, CacheOk, KeysAreUnique, StoreAt, Hit;
    var after := StoreAt(s.bufs[c].bytes, 0, data);
    e := ReadResponse(v, data, after, head);
    assert v in s.nodes && s.slots != [] by { Listed(s, v); }
    t := Step(s, e);
    ReachesOne(s, e);
    StepKeepsInv(s, e);
  }

  lemma Listed<N, C>(s: State<N, C>, v: N)
    requires Inv(s) && v in s.conns
    ensures v in s.nodes && s.slots != []
  {
    assert v in Elements(s.nodes);
  }

  lemma Ending<N, C>(s: State<N, C>, n: N, c: C, v: N, url: (string, string))
    returns (t: State<N, C>, e: Event<N, C>)
    requires Inv(s) && v in s.conns && c in s.bufs && s.bufs[c].info.complete && Key(s.bufs[c].info) == url
    requires s.conns[v].kind == Server && s.conns[v].status == Reading && s.conns[v].partner == Some(n)
    requires s.conns[v].buf == Some(c) && s.conns[v].offset <= |s.bufs[c].bytes|
    requires n in s.conns && n != v && s.conns[n].buf == Some(c) && Hit(s.slots, s.bufs, url) == None
    ensures Reaches(s, [e], t) && Inv(t) && s.slots != []
    ensures t.slots == Enqueued(s.slots, c) && t.cached == s.cached + {c} && t.orphans == s.orphans
    ensures t.conns == s.conns[n := s.conns[n].(status := Writing)] - {v}
    ensures c in t.bufs && t.bufs == s.bufs[c := t.bufs[c]]
    ensures t.bufs[c].info == s.bufs[c].info && t.bufs[c].response == s.bufs[c].response
  {
    hide ListOk, PartnersOk, ConnsOk, CacheOk, KeysAreUnique, StoreAt, Hit, Enqueued, Without;
    var after := StoreAt(s.bufs[c].bytes, s.conns[v].offset, []);
    var head := ResponseHead(false, "");
    e := ReadResponse(v, [], after, head);
    assert v in s.nodes && s.slots != [] by { Listed(s, v); }
    t := Step(s, e);
    ReachesOne(s, e);
    StepKeepsInv(s, e);
    LookupAfterRead(s, v, [], after, head, url);
    assert s.bufs[c].response + [] == s.bufs[c].response;
  }

  /** A request, the whole response in one piece, and the end of it. */
  datatype Fetch = Fetch(text: seq<byte>, url: (string, string), data: seq<byte>, head: ResponseHead)

  predicate IsSmall(f: Fetch) {
    |f.text| < INITIAL_BUFFER && 0 < |f.data| <= MAX_DATA_SIZE
  }

  /** The document is at the front of the queue, its client is to be written to, and all else is as before. */
  ghost predicate Fetched<N, C>(s: State<N, C>, n: N, c: C, v: N, f: Fetch, t: State<N, C>) {
    && Inv(t) && s.slots != [] && t.slots == Enqueued(s.slots, c) && t.cached == s.cached + {c} && t.orphans == s.orphans
    && t.conns == s.conns[n := AskingClient(v, c, f.url).(status := Writing)]
    && c in t.bufs && t.bufs == s.bufs[c := t.bufs[c]] && t.bufs[c].info.complete && Key(t.bufs[c].info) == f.url
    && t.bufs[c].response == f.data
  }

  lemma FetchOne<N, C>(s: State<N, C>, n: N, c: C, v: N, f: Fetch) returns (events: seq<Event<N, C>>, t: State<N, C>)
    requires Inv(s) && Free3(s, n, c, v) && IsSmall(f) && Hit(s.slots, s.bufs, f.url) == None
    ensures Reaches(s, events, t) && Fetched(s, n, c, v, f, t)
  {
    hide Inv, Reaches, Hit, StoreAt;
    var asking, t1 := Ask(s, n, c, v, f.text, f.url);
    var t2, e2 := ReadingPart(t1, n, c, v, f.data, f.head);
    NewBufferIsNoHit(s, c, t2.bufs[c], f.url);
    assert t2.bufs == s.bufs[c := t2.bufs[c]];
    var e3;
    t, e3 := Ending(t2, n, c, v, f.url);
    ReachesConcat(s, asking, t1, [e2], t2);
    ReachesConcat(s, asking + [e2], t2, [e3], t);
    events := asking + [e2] + [e3];
    assert [] + f.data == f.data;
    assert t.conns == s.conns[n := AskingClient(v, c, f.url).(status := Writing)];
    assert t.bufs == s.bufs[c := t.bufs[c]];
  }

  // ---- many documents, with numbers for names ----

  lemma {:induction false} FreshName(known: set<nat>) returns (x: nat)
    ensures forall y | y in known :: y < x
  {
    x := 0;
    if known != {} {
      var y :| y in known;
      var z := FreshName(known - {y});
      x := if y < z then z else y + 1;
      forall w | w in known ensures w < x {
        assert w == y || w in known - {y};
      }
    }
  }

  lemma FreshNames(s: State<nat, nat>) returns (n: nat, c: nat, v: nat)
    ensures Free3(s, n, c, v)
  {
    n := FreshName(s.conns.Keys);
    v := n + 1;
    c := FreshName(s.bufs.Keys);
  }

  /** Documents for different URLs, none of which is in the queue. */
  ghost predicate AreNew<N, C>(s: State<N, C>, fs: seq<Fetch>) {
    && (forall i | 0 <= i < |fs| :: IsSmall(fs[i]) && Hit(s.slots, s.bufs, fs[i].url) == None)
    && (forall i, j | 0 <= i < j < |fs| :: fs[i].url != fs[j].url)
  }

  /** The buffers cs hold these documents, and nothing that was there before has changed. */
  ghost predicate FetchedAll(s: State<nat, nat>, fs: seq<Fetch>, cs: seq<nat>, t: State<nat, nat>) {
    && Inv(t) && s.slots != [] && t.slots == EnqueueAll(s.slots, cs) && t.cached == s.cached + Elements(cs)
    && t.orphans == s.orphans && |cs| == |fs| && NewTo(cs, s.bufs.Keys)
    && (forall n | n in s.conns :: n in t.conns && t.conns[n] == s.conns[n])
    && (forall c | c in s.bufs :: c in t.bufs && t.bufs[c] == s.bufs[c])
    && (forall i | 0 <= i < |cs| :: cs[i] in t.bufs && Key(t.bufs[cs[i]].info) == fs[i].url)
  }

  lemma StillNew<N, C>(s: State<N, C>, n: N, c: C, v: N, fs: seq<Fetch>, t: State<N, C>)
    requires fs != [] && Inv(s) && c !in s.bufs && AreNew(s, fs) && Fetched(s, n, c, v, fs[0], t)
    ensures AreNew(t, fs[1..])
  {
    forall i | 0 <= i < |fs| - 1
      ensures IsSmall(fs[1..][i]) && Hit(t.slots, t.bufs, fs[1..][i].url) == None
    {
      assert fs[1..][i] == fs[i + 1];
      NoHitBehind(s, c, t, fs[i + 1].url);
    }
  }

  lemma NoHitBehind<N, C>(s: State<N, C>, c: C, t: State<N, C>, url: (string, string))
    requires Inv(s) && Inv(t) && c !in s.bufs && s.slots != [] && t.slots == Enqueued(s.slots, c)
    requires c in t.bufs && t.bufs == s.bufs[c := t.bufs[c]] && Key(t.bufs[c].info) != url
    requires Hit(s.slots, s.bufs, url) == None
    ensures Hit(t.slots, t.bufs, url) == None
  {
    var hit := Hit(t.slots, t.bufs, url);
    HitFacts(t.slots, t.bufs, url);
    if hit.Some? {
      assert hit.value in s.slots;
      HitIsTheOnlyEntry(s, url, hit.value);
    }
  }

  lemma JoinFetched(s: State<nat, nat>, n: nat, c: nat, v: nat, fs: seq<Fetch>, t: State<nat, nat>,
                    cs: seq<nat>, u: State<nat, nat>)
    requires Free3(s, n, c, v) && fs != [] && Fetched(s, n, c, v, fs[0], t) && FetchedAll(t, fs[1..], cs, u)
    ensures FetchedAll(s, fs, [c] + cs, u)
  {
    hide Inv, EnqueueAll, Enqueued;
    EnqueueOne(s.slots, [c]);
    EnqueueAllConcat(s.slots, [c], cs);
    NewToMore([c], cs, s.bufs.Keys);
    forall i | 0 <= i < |fs|
      ensures ([c] + cs)[i] in u.bufs && Key(u.bufs[([c] + cs)[i]].info) == fs[i].url
    {
      assert i > 0 ==> ([c] + cs)[i] == cs[i - 1] && fs[i] == fs[1..][i - 1];
    }
  }

  lemma {:induction false} FetchAll(s: State<nat, nat>, fs: seq<Fetch>)
    returns (events: seq<Event<nat, nat>>, cs: seq<nat>, t: State<nat, nat>)
    requires Inv(s) && AreNew(s, fs)
    ensures Reaches(s, events, t) && FetchedAll(s, fs, cs, t)
    decreases |fs|
  {
    hide Inv, EnqueueAll, Fetched;
    if fs == [] {
      events, cs, t := [], [], s;
      HasSlots(s);
      NothingEnqueued(s.slots);
    } else {
      var n, c, v := FreshNames(s);
      var first, mid := FetchOne(s, n, c, v, fs[0]);
      StillNew(s, n, c, v, fs, mid);
      assert Inv(mid) by { FetchedInv(s, n, c, v, fs[0], mid); }
      var rest, cs';
      rest, cs', t := FetchAll(mid, fs[1..]);
      ReachesConcat(s, first, mid, rest, t);
      JoinFetched(s, n, c, v, fs, mid, cs', t);
      events, cs := first + rest, [c] + cs';
    }
  }

  lemma FetchedInv<N, C>(s: State<N, C>, n: N, c: C, v: N, f: Fetch, t: State<N, C>)
    requires Fetched(s, n, c, v, f, t)
    ensures Inv(t)
  {
  }

  /** With a full queue of new documents everything that was there before is pushed out. */
  lemma PushedOut<T>(slots: seq<T>, xs: seq<T>, x: T)
    requires slots != [] && |xs| >= |slots| && x !in xs
    ensures x !in EnqueueAll(slots, xs)
    ensures forall y | y in EnqueueAll(slots, xs) :: y in xs
  {
    QueueIsNewestFirst(slots, xs);
    forall k | 0 <= k < |slots|
      ensures EnqueueAll(slots, xs)[k] in xs
    {
      ReverseAt(xs, k);
    }
  }

  /**
    With one more client than there are slots, each asking for another document: all the responses are
    complete before the first client is sent anything, and then its buffer is freed.
   */
  lemma FreedWhileServed(s0: State<nat, nat>, fs: seq<Fetch>)
    returns (events: seq<Event<nat, nat>>, s: State<nat, nat>, n: nat)
    requires Initial(s0) && |fs| == |s0.slots| + 1
    requires (forall i | 0 <= i < |fs| :: IsSmall(fs[i])) && forall i, j | 0 <= i < j < |fs| :: fs[i].url != fs[j].url
    ensures Reaches(s0, events, s) && Is(s, n, Client, Writing) && s.conns[n].asked == fs[0].url && s.conns[n].offset == 0
    ensures s.conns[n].buf.value in Freed(s)
    ensures Enabled(s, WriteResponse(n, 0)) && !(Uses(s, WriteResponse(n, 0)) !! Freed(s))
  {
    hide Reaches, EnqueueAll, Hit;
    InitialInv(s0);
    InitialIsEmpty(s0, fs);
    hide Initial, Inv;
    var c, v;
    n, c, v := FreshNames(s0);
    var first, s1 := FetchOne(s0, n, c, v, fs[0]);
    StillNew(s0, n, c, v, fs, s1);
    var rest, cs;
    rest, cs, s := FetchAll(s1, fs[1..]);
    events := first + rest;
    ReachesConcat(s0, first, s1, rest, s);
    PushedOut(s1.slots, cs, c);
    assert s.conns[n] == s1.conns[n];
    Listed(s, n);
  }

  lemma InitialIsEmpty<N, C>(s: State<N, C>, fs: seq<Fetch>)
    requires Initial(s) && (forall i | 0 <= i < |fs| :: IsSmall(fs[i]))
    requires forall i, j | 0 <= i < j < |fs| :: fs[i].url != fs[j].url
    ensures AreNew(s, fs)
  {
    forall i | 0 <= i < |fs|
      ensures Hit(s.slots, s.bufs, fs[i].url) == None
    {
      HitFacts(s.slots, s.bufs, fs[i].url);
    }
  }

  // ---- a cached 304 answer ----

  /** A server that asked conditionally confirms the entry that it knows. */
  lemma Confirming<N, C>(s: State<N, C>, n: N, c: C, v: N, b: C, reply: seq<byte>, date: string)
    returns (t: State<N, C>, e: Event<N, C>)
    requires Inv(s) && v in s.conns && s.conns[v] == AskedServer(n, c, Some(b)) && n in s.conns && n != v
    requires c in s.bufs && b in s.bufs && !s.bufs[c].info.complete && 0 < |reply| <= MAX_DATA_SIZE
    ensures Reaches(s, [e], t) && Inv(t) && s.slots != []
    ensures var entry := Hit(s.slots, s.bufs, Key(s.bufs[c].info));
      && t.slots == (if entry == None then Enqueued(s.slots, c) else s.slots)
      && t.orphans == (if entry == None then s.orphans + {c} else s.orphans)
    ensures t.conns == s.conns[n := s.conns[n].(status := Writing, buf := Some(b))] - {v}
    ensures t.bufs.Keys == s.bufs.Keys
    ensures b != c ==> t.bufs[c].info.complete && t.bufs[c].response == s.bufs[c].response + reply
    ensures forall d | d in t.bufs :: Key(t.bufs[d].info) == Key(s.bufs[d].info)
    ensures forall d | d in t.bufs && d != c :: t.bufs[d].response == s.bufs[d].response
  {
    hide ListOk, PartnersOk, ConnsOk, CacheOk, KeysAreUnique, StoreAt, Hit, Enqueued, Without;
    var after, head := StoreAt(s.bufs[c].bytes, 0, reply), ResponseHead(true, date);
    e := ReadResponse(v, reply, after, head);
    assert v in s.nodes && s.slots != [] by { Listed(s, v); }
    t := Step(s, e);
    ReachesOne(s, e);
    StepKeepsInv(s, e);
    LookupAfterRead(s, v, reply, after, head, Key(s.bufs[c].info));
  }

  lemma FrontIsHit<N, C>(s: State<N, C>, c: C)
    requires Inv(s) && c in s.slots && c in s.bufs && s.bufs[c].info.complete
    ensures Hit(s.slots, s.bufs, Key(s.bufs[c].info)) == Some(c)
  {
    HitIsTheOnlyEntry(s, Key(s.bufs[c].info), c);
  }

  lemma NoEntryIsLeft(s: State<nat, nat>, cs: seq<nat>, fs: seq<Fetch>, url: (string, string))
    requires |cs| == |fs| && (forall d | d in s.slots :: d in cs)
    requires forall i | 0 <= i < |cs| :: cs[i] in s.bufs && Key(s.bufs[cs[i]].info) == fs[i].url && fs[i].url != url
    ensures Hit(s.slots, s.bufs, url) == None
  {
    HitFacts(s.slots, s.bufs, url);
    assert forall i | 0 <= i < |cs| :: Key(s.bufs[cs[i]].info) != url;
  }

  lemma AskKeepsNew<N, C>(s: State<N, C>, n: N, c: C, v: N, text: seq<byte>, url: (string, string),
                          t: State<N, C>, fs: seq<Fetch>)
    requires Inv(s) && Free3(s, n, c, v) && |text| < INITIAL_BUFFER && Asked(s, n, c, v, text, url, t) && AreNew(s, fs)
    ensures AreNew(t, fs)
  {
    forall i | 0 <= i < |fs|
      ensures Hit(t.slots, t.bufs, fs[i].url) == None
    {
      NewBufferIsNoHit(s, c, RequestBuffer(n, text, url), fs[i].url);
    }
  }

  /** A server of client n is asked whether the entry b for a URL is still good, and b is no longer in the queue. */
  ghost predicate Awaited(s: State<nat, nat>, n: nat, c: nat, v: nat, b: nat, url: (string, string)) {
    && Inv(s) && n in s.conns && v in s.conns && n != v && b in s.bufs && b != c
    && s.conns[v] == AskedServer(n, c, Some(b)) && s.conns[n] == AskingClient(v, c, url)
    && c in s.bufs && !s.bufs[c].info.complete && Key(s.bufs[c].info) == url && s.bufs[c].response == []
    && Hit(s.slots, s.bufs, url) == None
  }

  /** Others push the entry out while its confirmation is awaited. */
  lemma Overtaking(s: State<nat, nat>, n: nat, c: nat, v: nat, b: nat, fs: seq<Fetch>, url: (string, string))
    returns (events: seq<Event<nat, nat>>, t: State<nat, nat>)
    requires Inv(s) && n in s.conns && v in s.conns && n != v && b in s.bufs && b != c && b in s.slots
    requires s.conns[v] == AskedServer(n, c, Some(b)) && s.conns[n] == AskingClient(v, c, url)
    requires c in s.bufs && !s.bufs[c].info.complete && Key(s.bufs[c].info) == url && s.bufs[c].response == []
    requires AreNew(s, fs) && |fs| >= |s.slots| && forall i | 0 <= i < |fs| :: fs[i].url != url
    ensures Reaches(s, events, t) && Awaited(t, n, c, v, b, url)
  {
    hide Inv, Reaches, EnqueueAll, Hit, AreNew;
    var cs;
    HasSlots(s);
    events, cs, t := FetchAll(s, fs);
    PushedOut(s.slots, cs, b);
    NoEntryIsLeft(t, cs, fs, url);
  }

  /** A document is fetched once, asked for again, and pushed out before the answer comes. */
  lemma AskedAndOvertaken(s0: State<nat, nat>, fs: seq<Fetch>)
    returns (events: seq<Event<nat, nat>>, s: State<nat, nat>, n: nat, c: nat, v: nat, b: nat)
    requires Initial(s0) && |fs| == |s0.slots| + 1
    requires (forall i | 0 <= i < |fs| :: IsSmall(fs[i])) && forall i, j | 0 <= i < j < |fs| :: fs[i].url != fs[j].url
    ensures Reaches(s0, events, s) && Awaited(s, n, c, v, b, fs[0].url)
  {
    hide Reaches, Hit, AreNew, StoreAt, Awaited;
    InitialInv(s0);
    InitialIsEmpty(s0, fs);
    hide Initial, Inv;
    var url := fs[0].url;
    assert IsSmall(fs[0]) && Hit(s0.slots, s0.bufs, url) == None by { FirstIsNew(s0, fs); }
    var n0, c0, v0 := FreshNames(s0);
    var e1, s1 := FetchOne(s0, n0, c0, v0, fs[0]);
    StillNew(s0, n0, c0, v0, fs, s1);
    FrontIsHit(s1, c0);
    n, c, v := FreshNames(s1);
    var e2, s2 := Ask(s1, n, c, v, fs[0].text, url);
    AskKeepsNew(s1, n, c, v, fs[0].text, url, s2, fs[1..]);
    var e3;
    b := c0;
    e3, s := Overtaking(s2, n, c, v, b, fs[1..], url);
    ReachesConcat(s0, e1, s1, e2, s2);
    ReachesConcat(s0, e1 + e2, s2, e3, s);
    events := e1 + e2 + e3;
  }

  lemma FirstIsNew<N, C>(s: State<N, C>, fs: seq<Fetch>)
    requires fs != [] && AreNew(s, fs)
    ensures IsSmall(fs[0]) && Hit(s.slots, s.bufs, fs[0].url) == None
  {
  }

  /** Whoever asks for the URL of an entry and gets a confirmation is sent the entry. */
  lemma EntryIsServed(s: State<nat, nat>, c: nat, text: seq<byte>, reply: seq<byte>, date: string)
    returns (events: seq<Event<nat, nat>>, t: State<nat, nat>, n: nat)
    requires Inv(s) && c in s.slots && c in s.bufs && s.bufs[c].info.complete
    requires |text| < INITIAL_BUFFER && 0 < |reply| <= MAX_DATA_SIZE
    ensures Reaches(s, events, t) && Inv(t) && n in t.conns && t.slots == s.slots && t.orphans == s.orphans
    ensures t.conns[n] == Conn(Client, Writing, t.conns[n].partner, Some(c), None, 0, 0, Key(s.bufs[c].info), [])
    ensures c in t.bufs && t.bufs[c].response == s.bufs[c].response && Key(t.bufs[c].info) == Key(s.bufs[c].info)
  {
    hide Reaches, Hit, StoreAt, Inv;
    var url := Key(s.bufs[c].info);
    FrontIsHit(s, c);
    var c', v;
    n, c', v := FreshNames(s);
    var asking, s1 := Ask(s, n, c', v, text, url);
    FrontIsHit(s1, c);
    var e;
    t, e := Confirming(s1, n, c', v, c, reply, date);
    ReachesConcat(s, asking, s1, [e], t);
    events := asking + [e];
  }

  /**
    An entry is evicted while a server is asked whether it is still good: the bare 304 answer takes its place in
    the cache, and the next client that asks for the URL, and for which it is confirmed, is sent the 304 answer.
   */
  lemma OrphanIsServed(s0: State<nat, nat>, fs: seq<Fetch>, reply: seq<byte>, date: string)
    returns (events: seq<Event<nat, nat>>, s: State<nat, nat>, n: nat)
    requires Initial(s0) && |fs| == |s0.slots| + 1 && 0 < |reply| <= MAX_DATA_SIZE
    requires (forall i | 0 <= i < |fs| :: IsSmall(fs[i])) && forall i, j | 0 <= i < j < |fs| :: fs[i].url != fs[j].url
    ensures Reaches(s0, events, s) && Is(s, n, Client, Writing) && s.conns[n].asked == fs[0].url && s.conns[n].offset == 0
    ensures var c := s.conns[n].buf.value; c in s.orphans && c in s.slots && s.bufs[c].response == reply
  {
    hide Reaches, Hit, Inv, Initial;
    var e1, s1, n1, c, v, b := AskedAndOvertaken(s0, fs);
    var s2, e2 := Confirming(s1, n1, c, v, b, reply, date);
    assert [] + reply == reply;
    var e3;
    e3, s, n := EntryIsServed(s2, c, fs[0].text, reply, date);
    ReachesConcat(s0, e1, s1, [e2], s2);
    ReachesConcat(s0, e1 + [e2], s2, e3, s);
    events := e1 + [e2] + e3;
  }
}
