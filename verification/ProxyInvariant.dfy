/** What every handler of the proxy keeps, in whatever order the handlers are called. */
module ProxyInvariant {
  import opened Bytes
  import opened Options
  import opened ProxyTypes
  import opened FdLists
  import opened CacheQueues
  import opened ProxyModel

  ghost predicate ListOk<N, C>(nodes: seq<N>, conns: map<N, Conn<N, C>>) {
    && |nodes| >= 2 && Distinct(nodes) && Elements(nodes) == conns.Keys
    && (forall i | 0 <= i < |nodes| :: conns[nodes[i]].kind == Dummy <==> i == 0 || i == |nodes| - 1)
  }

  /**
    A waiting client and the server that works for it are both live and point to each other, and the
    server uses the client's buffer.
   */
  ghost predicate Paired<N, C>(conns: map<N, Conn<N, C>>, client: N, server: N) {
    && client in conns && conns[client].kind == Client && conns[client].status == Idle
    && conns[client].partner == Some(server)
    && server in conns && conns[server].kind == Server && conns[server].partner == Some(client)
    && conns[client].buf == conns[server].buf
  }

  ghost predicate HasPartner<N, C>(conns: map<N, Conn<N, C>>, n: N)
    requires n in conns
  {
    && (conns[n].kind == Server ==> conns[n].partner.Some? && Paired(conns, conns[n].partner.value, n))
    && (conns[n].kind == Client && conns[n].status == Idle ==>
          conns[n].partner.Some? && Paired(conns, n, conns[n].partner.value))
  }

  ghost predicate PartnersOk<N, C>(conns: map<N, Conn<N, C>>) {
    forall n | n in conns :: HasPartner(conns, n)
  }

  ghost predicate Unfilled<N>(buf: Buf<N>) {
    !buf.info.complete && buf.response == [] && !buf.closed
  }

  /** The buffer starts with all that a server sent before it closed the connection. */
  ghost predicate Whole<N, C>(c: C, buf: Buf<N>, orphans: set<C>) {
    buf.info.complete && buf.response <= buf.bytes && (buf.closed || c in orphans)
  }

  /**
    A client that is reading or waits for its server has a buffer of its own, which was never in the cache.
    While it is written to, its buffer is a whole response, and what was sent is the front of it. Once its
    request is read, its buffer is about the URL that it asked for.
   */
  ghost predicate ClientOk<N, C>(n: N, conn: Conn<N, C>, bufs: map<C, Buf<N>>, cached: set<C>, orphans: set<C>) {
    && conn.buf.Some? && conn.buf.value in bufs
    && var c := conn.buf.value; var buf := bufs[c];
    && 0 < |buf.bytes| && conn.offset <= |buf.bytes|
    && (conn.status == Reading || conn.status == Idle || conn.status == Writing)
    && (conn.status != Writing ==> conn.offset == 0 && conn.output == [] && buf.owner == Some(n) && c !in cached)
    && (conn.status == Reading ==> Unfilled(buf) && conn.partner == None)
    && (conn.status != Reading ==> Key(buf.info) == conn.asked)
    && (conn.status == Writing ==>
          Whole(c, buf, orphans) && (buf.owner == Some(n) || c in cached) && conn.output == buf.bytes[..conn.offset])
  }

  /**
    A server is written its request, and then its response is read into the buffer. If the request is
    conditional, the server knows an entry, cached now or earlier, for the same URL.
   */
  ghost predicate ServerOk<N, C>(conn: Conn<N, C>, bufs: map<C, Buf<N>>, cached: set<C>) {
    && conn.buf.Some? && conn.buf.value in bufs
    && var buf := bufs[conn.buf.value];
    && conn.offset <= |buf.bytes| && !buf.closed
    && (conn.status == Reading || conn.status == Writing)
    && (conn.status == Writing ==> Unfilled(buf))
    && (conn.status == Reading ==> buf.response == buf.bytes[..conn.offset])
    && (conn.flag == 1 <==> conn.backup.Some?)
    && (conn.backup.Some? ==>
          && conn.backup.value in cached && conn.backup.value in bufs
          && bufs[conn.backup.value].info.complete
          && Key(bufs[conn.backup.value].info) == Key(buf.info))
  }

  ghost predicate ConnOk<N, C>(n: N, conn: Conn<N, C>, bufs: map<C, Buf<N>>, cached: set<C>, orphans: set<C>) {
    match conn.kind
    case Dummy => conn.status == Idle && conn.backup == None && conn.buf == None
    case Listen => conn.status == Reading && conn.backup == None && conn.buf == None
    case Client => ClientOk(n, conn, bufs, cached, orphans) && conn.backup == None
    case Server => ServerOk(conn, bufs, cached)
  }

  ghost predicate ConnsOk<N, C>(s: State<N, C>) {
    forall n | n in s.conns :: ConnOk(n, s.conns[n], s.bufs, s.cached, s.orphans)
  }

  ghost predicate CacheOk<N, C>(slots: seq<C>, cached: set<C>, orphans: set<C>, bufs: map<C, Buf<N>>) {
    && slots != [] && Distinct(slots) && Elements(slots) <= cached <= bufs.Keys && orphans <= cached
    && (forall c | c in cached && bufs[c].info.complete :: 0 < |bufs[c].bytes| && Whole(c, bufs[c], orphans))
  }

  /** No two entries of the queue are about the same URL. */
  ghost predicate KeysAreUnique<N, C>(slots: seq<C>, bufs: map<C, Buf<N>>)
    requires Elements(slots) <= bufs.Keys
  {
    forall i, j | 0 <= i < j < |slots| && bufs[slots[i]].info.complete && bufs[slots[j]].info.complete ::
      Key(bufs[slots[i]].info) != Key(bufs[slots[j]].info)
  }

  ghost predicate Inv<N, C>(s: State<N, C>) {
    && ListOk(s.nodes, s.conns)
    && PartnersOk(s.conns)
    && ConnsOk(s)
    && CacheOk(s.slots, s.cached, s.orphans, s.bufs)
    && KeysAreUnique(s.slots, s.bufs)
  }

  // ---- consequences ----

  ghost predicate Filling<N, C>(s: State<N, C>, n: N) {
    n in s.conns && s.conns[n].kind == Client && s.conns[n].status != Writing
  }

  /** A buffer that is being filled belongs to one client and its server: no one else uses it, nor the cache. */
  lemma FillingIsExclusive<N, C>(s: State<N, C>, n: N, m: N)
    requires Inv(s) && Filling(s, n) && m in s.conns && m != n && s.conns[n].partner != Some(m)
    ensures s.conns[n].buf.Some? && s.conns[m].buf != s.conns[n].buf && s.conns[m].backup != s.conns[n].buf
    ensures s.conns[n].buf.value !in s.cached && s.conns[n].buf.value !in s.slots
  {
    assert ConnOk(n, s.conns[n], s.bufs, s.cached, s.orphans);
    assert ConnOk(m, s.conns[m], s.bufs, s.cached, s.orphans);
    if s.conns[m].kind == Server {
      assert HasPartner(s.conns, m);
      var p := s.conns[m].partner.value;
      assert ConnOk(p, s.conns[p], s.bufs, s.cached, s.orphans);
      assert HasPartner(s.conns, p);
    }
  }

  // ---- the connection list ----

  lemma {:induction false} WithoutIsRemoveAt<T>(s: seq<T>, x: T, k: nat)
    requires Distinct(s) && k < |s| && s[k] == x
    ensures Without(s, x) == RemoveAt(s, k)
  {
    if k == 0 {
      WithoutAbsent(s[1..], x);
    } else {
      WithoutIsRemoveAt(s[1..], x, k - 1);
      assert s == [s[0]] + s[1..];
    }
  }

  lemma {:induction false} WithoutAbsent<T>(s: seq<T>, x: T)
    requires x !in s
    ensures Without(s, x) == s
  {
    if s != [] {
      assert s == [s[0]] + s[1..];
      WithoutAbsent(s[1..], x);
    }
  }

  lemma RemovingKeepsList<N, C>(nodes: seq<N>, conns: map<N, Conn<N, C>>, n: N)
    requires ListOk(nodes, conns) && n in conns && conns[n].kind != Dummy
    ensures ListOk(Without(nodes, n), conns - {n})
  {
    assert n in Elements(nodes);
    var k :| 0 <= k < |nodes| && nodes[k] == n;
    WithoutIsRemoveAt(nodes, n, k);
    RemovingAtKeepsList(nodes, conns, k);
  }

  lemma RemovingAtKeepsList<N, C>(nodes: seq<N>, conns: map<N, Conn<N, C>>, k: nat)
    requires ListOk(nodes, conns) && 0 < k < |nodes| - 1
    ensures ListOk(RemoveAt(nodes, k), conns - {nodes[k]})
  {
    var r, conns' := RemoveAt(nodes, k), conns - {nodes[k]};
    MembersOfRemove(nodes, k);
    assert Elements(r) == conns'.Keys by {
      assert forall n :: n in Elements(nodes) <==> n in nodes;
    }
    RemoveAtIsDistinct(nodes, k);
    forall i | 0 <= i < |r|
      ensures conns'[r[i]].kind == Dummy <==> i == 0 || i == |r| - 1
    {
      assert r[i] == nodes[if i < k then i else i + 1] && r[i] in Elements(r);
    }
  }

  lemma RemoveAtIsDistinct<T>(s: seq<T>, k: nat)
    requires Distinct(s) && k < |s|
    ensures Distinct(RemoveAt(s, k))
  {
    var r := RemoveAt(s, k);
    assert forall i | 0 <= i < |r| :: r[i] == s[if i < k then i else i + 1];
  }

  lemma InsertIsDistinct<T>(s: seq<T>, x: T)
    requires |s| >= 1 && Distinct(s) && x !in s
    ensures Distinct(InsertBeforeLast(s, x))
  {
    var r, last := InsertBeforeLast(s, x), |s| - 1;
    assert forall i | 0 <= i < last :: r[i] == s[i];
    assert r[last] == x && r[last + 1] == s[last];
  }

  lemma AddingKeepsList<N, C>(nodes: seq<N>, conns: map<N, Conn<N, C>>, n: N, conn: Conn<N, C>)
    requires ListOk(nodes, conns) && n !in conns && conn.kind != Dummy
    ensures ListOk(InsertBeforeLast(nodes, n), conns[n := conn])
  {
    var r, conns', last := InsertBeforeLast(nodes, n), conns[n := conn], |nodes| - 1;
    assert n !in nodes by { assert n !in Elements(nodes); }
    InsertIsDistinct(nodes, n);
    MembersOfInsert(nodes, n);
    hide Distinct;
    assert Elements(r) == conns'.Keys;
    forall i | 0 <= i < |r|
      ensures conns'[r[i]].kind == Dummy <==> i == 0 || i == |r| - 1
    {
      assert r[i] in Elements(r);
      assert r[i] == if i < last then nodes[i] else if i == last then n else nodes[i - 1];
    }
  }

  lemma UpdatingKeepsList<N, C>(nodes: seq<N>, conns: map<N, Conn<N, C>>, n: N, conn: Conn<N, C>)
    requires ListOk(nodes, conns) && n in conns && conn.kind == conns[n].kind
    ensures ListOk(nodes, conns[n := conn])
  {
    assert forall i | 0 <= i < |nodes| :: nodes[i] in Elements(nodes);
  }

  // ---- listen_fd_handler ----

  /** A buffer that no connection uses and that is not cached may be anything. */
  lemma NewBufferKeepsConns<N, C>(s: State<N, C>, c: C, buf: Buf<N>)
    requires ConnsOk(s) && CacheOk(s.slots, s.cached, s.orphans, s.bufs) && c !in s.bufs
    ensures ConnsOk(s.(bufs := s.bufs[c := buf]))
    ensures CacheOk(s.slots, s.cached, s.orphans, s.bufs[c := buf])
  {
    var bufs := s.bufs[c := buf];
    forall n | n in s.conns
      ensures ConnOk(n, s.conns[n], bufs, s.cached, s.orphans)
    {
      assert ConnOk(n, s.conns[n], s.bufs, s.cached, s.orphans);
    }
  }

  /** A connection that needs no partner joins or changes; no one has it for a partner. */
  lemma LoneConnKeepsPartners<N, C>(conns: map<N, Conn<N, C>>, n: N, conn: Conn<N, C>)
    requires PartnersOk(conns) && conn.kind == Client && conn.status != Idle
    requires n in conns ==> conns[n].kind == Client && conns[n].status != Idle
    ensures PartnersOk(conns[n := conn])
  {
    var conns' := conns[n := conn];
    forall m | m in conns'
      ensures HasPartner(conns', m)
    {
      assert m != n ==> HasPartner(conns, m);
    }
  }

  lemma NewConnKeepsConns<N, C>(s: State<N, C>, n: N, conn: Conn<N, C>)
    requires ConnsOk(s) && ConnOk(n, conn, s.bufs, s.cached, s.orphans)
    ensures ConnsOk(s.(conns := s.conns[n := conn]))
  {
  }

  lemma AcceptedKeepsInv<N, C>(s: State<N, C>, client: N, buf: C)
    requires Inv(s) && client !in s.conns && buf !in s.bufs
    ensures Inv(Accepted(s, client, buf))
  {
    var b := Buf(Zeros(INITIAL_BUFFER), NO_INFO, [], false, Some(client));
    var conn: Conn<N, C> := Conn(Client, Reading, None, Some(buf), None, 0, 0, NO_URL, []);
    AddingKeepsList(s.nodes, s.conns, client, conn);
    LoneConnKeepsPartners(s.conns, client, conn);
    NewBufferKeepsConns(s, buf, b);
    NewConnKeepsConns(s.(bufs := s.bufs[buf := b]), client, conn);
  }

  // ---- changes to one buffer ----

  /** What is stored in a buffer that is being filled concerns only its client, its server and no cached entry. */
  lemma FilledBufferKeepsOthers<N, C>(s: State<N, C>, n: N, c: C, buf: Buf<N>)
    requires Inv(s) && Filling(s, n) && s.conns[n].buf == Some(c)
    ensures var bufs := s.bufs[c := buf];
      && (forall m | m in s.conns && m != n && s.conns[n].partner != Some(m) ::
            ConnOk(m, s.conns[m], bufs, s.cached, s.orphans))
      && CacheOk(s.slots, s.cached, s.orphans, bufs) && KeysAreUnique(s.slots, bufs)
  {
    var bufs := s.bufs[c := buf];
    forall m | m in s.conns && m != n && s.conns[n].partner != Some(m)
      ensures ConnOk(m, s.conns[m], bufs, s.cached, s.orphans)
    {
      FillingIsExclusive(s, n, m);
      assert ConnOk(m, s.conns[m], s.bufs, s.cached, s.orphans);
    }
    assert ConnOk(n, s.conns[n], s.bufs, s.cached, s.orphans);
    assert forall i | 0 <= i < |s.slots| :: s.slots[i] in Elements(s.slots);
  }

  /** A chunk at an offset: the buffer has grown, and its front is the old front and the chunk. */
  lemma StoredFront(before: seq<byte>, offset: nat, chunk: seq<byte>, after: seq<byte>)
    requires Stores(before, offset, chunk, after)
    ensures offset + |chunk| <= |after| && |before| <= |after|
    ensures before[..offset] + chunk == after[..offset + |chunk|]
    ensures before[..offset] <= after && before[..offset] + chunk <= after
  {
  }

  // ---- client_read_handler ----

  lemma {:induction false} HitFacts<N, C>(slots: seq<C>, bufs: map<C, Buf<N>>, key: (string, string))
    ensures var hit := Hit(slots, bufs, key);
      && (hit.Some? ==> hit.value in slots && hit.value in bufs && bufs[hit.value].info.complete && Key(bufs[hit.value].info) == key)
      && (hit.None? ==> forall c | c in slots && c in bufs && bufs[c].info.complete :: Key(bufs[c].info) != key)
  {
    if slots != [] {
      HitFacts(slots[1..], bufs, key);
      assert slots == [slots[0]] + slots[1..];
    }
  }

  lemma RemovingLoneKeepsPartners<N, C>(conns: map<N, Conn<N, C>>, n: N)
    requires PartnersOk(conns) && n in conns && conns[n].kind == Client && conns[n].status != Idle
    ensures PartnersOk(conns - {n})
  {
    var conns' := conns - {n};
    forall m | m in conns'
      ensures HasPartner(conns', m)
    {
      assert HasPartner(conns, m);
    }
  }

  /** A client that has read its request waits for a new server. */
  lemma NewPairKeepsPartners<N, C>(conns: map<N, Conn<N, C>>, n: N, client: Conn<N, C>, v: N, server: Conn<N, C>)
    requires PartnersOk(conns) && n in conns && conns[n].kind == Client && conns[n].status == Reading
    requires v !in conns && client.kind == Client && client.status == Idle && client.partner == Some(v)
    requires server.kind == Server && server.partner == Some(n) && server.buf == client.buf
    ensures PartnersOk(conns[n := client][v := server])
  {
    var conns' := conns[n := client][v := server];
    assert Paired(conns', n, v);
    forall m | m in conns'
      ensures HasPartner(conns', m)
    {
      if m != n && m != v {
        assert HasPartner(conns, m);
      }
    }
  }

  lemma DroppedKeepsInv<N, C>(s: State<N, C>, n: N, c: C, buf: Buf<N>)
    requires Inv(s) && n in s.conns && s.conns[n].kind == Client && s.conns[n].status == Reading
    requires s.conns[n].buf == Some(c)
    ensures Inv(Closed(s.(bufs := s.bufs[c := buf]), n))
  {
    FilledBufferKeepsOthers(s, n, c, buf);
    RemovingKeepsList(s.nodes, s.conns, n);
    RemovingLoneKeepsPartners(s.conns, n);
    assert ConnOk(n, s.conns[n], s.bufs, s.cached, s.orphans);
  }

  /** The client waits with its buffer, and its server knows the entry that was hit. */
  lemma NewPairIsOk<N, C>(s: State<N, C>, n: N, c: C, buf: Buf<N>, server: N, hit: Option<C>)
    requires Inv(s) && n in s.conns && s.conns[n].kind == Client && s.conns[n].status == Reading && s.conns[n].buf == Some(c)
    requires Unfilled(buf) && buf.owner == Some(n) && 0 < |buf.bytes|
    requires hit.Some? ==> hit.value in s.slots && hit.value in s.bufs && hit.value != c
                           && s.bufs[hit.value].info.complete && Key(s.bufs[hit.value].info) == Key(buf.info)
    ensures var bufs := s.bufs[c := buf];
      && ConnOk(n, s.conns[n].(status := Idle, offset := 0, partner := Some(server), asked := Key(buf.info)),
                bufs, s.cached, s.orphans)
      && ConnOk(server, NewServer(n, c, hit), bufs, s.cached, s.orphans)
  {
    hide ListOk, PartnersOk, KeysAreUnique;
    assert ConnOk(n, s.conns[n], s.bufs, s.cached, s.orphans);
    assert hit.Some? ==> hit.value in Elements(s.slots);
  }

  lemma ConnectedKeepsInv<N, C>(s: State<N, C>, n: N, c: C, buf: Buf<N>, server: N, hit: Option<C>)
    requires Inv(s) && n in s.conns && s.conns[n].kind == Client && s.conns[n].status == Reading && s.conns[n].buf == Some(c)
    requires Unfilled(buf) && buf.owner == Some(n) && 0 < |buf.bytes| && server !in s.conns
    requires hit.Some? ==> hit.value in s.slots && hit.value in s.bufs && hit.value != c
                           && s.bufs[hit.value].info.complete && Key(s.bufs[hit.value].info) == Key(buf.info)
    ensures var client := s.conns[n].(status := Idle, offset := 0, partner := Some(server), asked := Key(buf.info));
      Inv(Added(s.(bufs := s.bufs[c := buf], conns := s.conns[n := client]), server, NewServer(n, c, hit)))
  {
    var client := s.conns[n].(status := Idle, offset := 0, partner := Some(server), asked := Key(buf.info));
    FilledBufferKeepsOthers(s, n, c, buf);
    NewPairIsOk(s, n, c, buf, server, hit);
    hide CacheOk, KeysAreUnique, ConnOk;
    assert s.conns[n].partner == None by { ReadingIsLone(s, n); }
    UpdatingKeepsList(s.nodes, s.conns, n, client);
    AddingKeepsList(s.nodes, s.conns[n := client], server, NewServer(n, c, hit));
    NewPairKeepsPartners(s.conns, n, client, server, NewServer(n, c, hit));
  }

  lemma ReadingIsLone<N, C>(s: State<N, C>, n: N)
    requires ConnsOk(s) && n in s.conns && s.conns[n].kind == Client && s.conns[n].status == Reading
    ensures s.conns[n].partner == None && s.conns[n].buf.Some? && s.conns[n].buf.value in s.bufs
    ensures var buf := s.bufs[s.conns[n].buf.value]; Unfilled(buf) && buf.owner == Some(n) && 0 < |buf.bytes|
  {
    assert ConnOk(n, s.conns[n], s.bufs, s.cached, s.orphans);
  }

  lemma RequestReadKeepsInv<N, C>(s: State<N, C>, n: N, chunk: seq<byte>, after: seq<byte>,
                                  request: Option<(string, string)>, server: Option<N>)
    requires Inv(s) && Enabled(s, ReadRequest(n, chunk, after, request, server))
    ensures Inv(RequestRead(s, n, after, request, server))
  {
    hide ListOk, PartnersOk, ConnOk, KeysAreUnique, CacheOk;
    ReadingIsLone(s, n);
    var c := s.conns[n].buf.value;
    var info := if request.Some? then s.bufs[c].info.(host := request.value.0, path := request.value.1) else s.bufs[c].info;
    var buf := s.bufs[c].(bytes := after, info := info);
    if server.None? {
      DroppedKeepsInv(s, n, c, buf);
    } else {
      var bufs := s.bufs[c := buf];
      HitFacts(s.slots, bufs, Key(info));
      ConnectedKeepsInv(s, n, c, buf, server.value, Hit(s.slots, bufs, Key(info)));
    }
  }

  // ---- server_write_handler ----

  lemma SameRoleKeepsPartners<N, C>(conns: map<N, Conn<N, C>>, n: N, conn: Conn<N, C>)
    requires PartnersOk(conns) && n in conns && conns[n].kind == Server
    requires conn.kind == Server && conn.partner == conns[n].partner && conn.buf == conns[n].buf
    ensures PartnersOk(conns[n := conn])
  {
    var conns' := conns[n := conn];
    forall m | m in conns'
      ensures HasPartner(conns', m)
    {
      assert HasPartner(conns, m);
    }
  }

  lemma RequestWrittenKeepsInv<N, C>(s: State<N, C>, n: N, count: nat)
    requires Inv(s) && Enabled(s, WriteRequest(n, count))
    ensures Inv(RequestWritten(s, n, count))
  {
    var conn := RequestWritten(s, n, count).conns[n];
    assert ConnOk(n, s.conns[n], s.bufs, s.cached, s.orphans);
    UpdatingKeepsList(s.nodes, s.conns, n, conn);
    SameRoleKeepsPartners(s.conns, n, conn);
    NewConnKeepsConns(s, n, conn);
  }

  // ---- client_write_handler ----

  lemma ResponseWrittenKeepsInv<N, C>(s: State<N, C>, n: N, count: nat)
    requires Inv(s) && Enabled(s, WriteResponse(n, count))
    ensures Inv(ResponseWritten(s, n, count))
  {
    var conn, bytes := s.conns[n], BufOf(s, n).bytes;
    assert ConnOk(n, s.conns[n], s.bufs, s.cached, s.orphans);
    if conn.offset + count >= |bytes| {
      RemovingKeepsList(s.nodes, s.conns, n);
      RemovingLoneKeepsPartners(s.conns, n);
    } else {
      var conn' := ResponseWritten(s, n, count).conns[n];
      assert bytes[..conn.offset] + bytes[conn.offset..conn.offset + count] == bytes[..conn'.offset];
      UpdatingKeepsList(s.nodes, s.conns, n, conn');
      LoneConnKeepsPartners(s.conns, n, conn');
      NewConnKeepsConns(s, n, conn');
    }
  }

  // ---- server_read_handler ----

  /** Nothing but the date of an entry changes. */
  lemma DateKeepsInv<N, C>(s: State<N, C>, b: C, date: string)
    requires Inv(s) && b in s.bufs
    ensures Inv(s.(bufs := s.bufs[b := s.bufs[b].(info := s.bufs[b].info.(date := date))]))
  {
    var bufs := s.bufs[b := s.bufs[b].(info := s.bufs[b].info.(date := date))];
    forall m | m in s.conns
      ensures ConnOk(m, s.conns[m], bufs, s.cached, s.orphans)
    {
      assert ConnOk(m, s.conns[m], s.bufs, s.cached, s.orphans);
    }
    assert forall i | 0 <= i < |s.slots| :: s.slots[i] in Elements(s.slots);
  }

  /** A waiting client becomes one that is written to, and its server goes. */
  lemma UnpairKeepsPartners<N, C>(conns: map<N, Conn<N, C>>, p: N, n: N, client: Conn<N, C>)
    requires PartnersOk(conns) && Paired(conns, p, n) && client.kind == Client && client.status == Writing
    ensures PartnersOk(conns[p := client] - {n})
  {
    var conns' := conns[p := client] - {n};
    forall m | m in conns'
      ensures HasPartner(conns', m)
    {
      assert HasPartner(conns, m);
    }
  }

  lemma UnpairKeepsList<N, C>(nodes: seq<N>, conns: map<N, Conn<N, C>>, p: N, n: N, client: Conn<N, C>)
    requires ListOk(nodes, conns) && Paired(conns, p, n) && client.kind == Client
    ensures ListOk(Without(nodes, n), conns[p := client] - {n})
  {
    UpdatingKeepsList(nodes, conns, p, client);
    RemovingKeepsList(nodes, conns[p := client], n);
  }

  /** A buffer that only this connection does not use enters the cache. */
  lemma CachingKeepsConn<N, C>(m: N, conn: Conn<N, C>, bufs: map<C, Buf<N>>, cached: set<C>, orphans: set<C>, c: C, orphans': set<C>)
    requires ConnOk(m, conn, bufs, cached, orphans) && conn.buf != Some(c) && orphans <= orphans'
    ensures ConnOk(m, conn, bufs, cached + {c}, orphans')
  {
  }

  lemma EnqueuedKeepsCache<N, C>(slots: seq<C>, cached: set<C>, orphans: set<C>, bufs: map<C, Buf<N>>, c: C, orphans': set<C>)
    requires CacheOk(slots, cached, orphans, bufs) && c in bufs && c !in cached && orphans <= orphans'
    requires 0 < |bufs[c].bytes| && Whole(c, bufs[c], orphans') && orphans' <= cached + {c}
    ensures CacheOk(Enqueued(slots, c), cached + {c}, orphans', bufs)
  {
    var slots' := Enqueued(slots, c);
    assert forall i | 1 <= i < |slots'| :: slots'[i] == slots[i - 1] && slots[i - 1] in Elements(slots);
  }

  lemma EnqueuedKeepsKeys<N, C>(slots: seq<C>, bufs: map<C, Buf<N>>, c: C)
    requires slots != [] && Elements(slots) <= bufs.Keys && c in bufs && KeysAreUnique(slots, bufs)
    requires forall d | d in slots && d in bufs && bufs[d].info.complete :: Key(bufs[d].info) != Key(bufs[c].info)
    ensures Elements(Enqueued(slots, c)) <= bufs.Keys && KeysAreUnique(Enqueued(slots, c), bufs)
  {
    var slots' := Enqueued(slots, c);
    assert forall i | 1 <= i < |slots'| :: slots'[i] == slots[i - 1] && slots[i - 1] in Elements(slots);
  }

  /** The state after a server's last read, but for the date of a confirmed entry. */
  function Finished<N, C>(s: State<N, C>, n: N, p: N, c: C, buf: Buf<N>, served: C, enqueue: bool, orphan: bool): State<N, C>
    requires p in s.conns && s.slots != []
  {
    s.(nodes := Without(s.nodes, n),
       conns := s.conns[p := s.conns[p].(status := Writing, buf := Some(served))] - {n},
       bufs := s.bufs[c := buf],
       slots := if enqueue then Enqueued(s.slots, c) else s.slots,
       cached := if enqueue then s.cached + {c} else s.cached,
       orphans := if orphan then s.orphans + {c} else s.orphans)
  }

  ghost predicate CanFinish<N, C>(s: State<N, C>, n: N, p: N, c: C, buf: Buf<N>, served: C, enqueue: bool, orphan: bool) {
    && Inv(s) && Paired(s.conns, p, n) && s.conns[p].buf == Some(c) && c in s.bufs
    && 0 < |buf.bytes| && buf.info.complete && buf.response <= buf.bytes && buf.owner == Some(p)
    && Key(buf.info) == Key(s.bufs[c].info)
    && (served == c ==> buf.closed)
    && (served != c ==> served in s.cached && s.bufs[served].info.complete && Key(s.bufs[served].info) == Key(buf.info))
    && (enqueue ==> buf.closed || orphan) && (orphan ==> enqueue)
    && (enqueue ==> forall d | d in s.slots && d in s.bufs && s.bufs[d].info.complete :: Key(s.bufs[d].info) != Key(buf.info))
  }

  /** The server's buffer is not in the cache, and everything else but the server and its client is fine with its new content. */
  lemma ServerBuffer<N, C>(s: State<N, C>, n: N, p: N, c: C, buf: Buf<N>)
    requires Inv(s) && Paired(s.conns, p, n) && s.conns[p].buf == Some(c)
    ensures c !in s.cached && c !in s.slots && c in s.bufs && s.bufs[c].owner == Some(p) && 0 < |s.bufs[c].bytes|
    ensures s.conns[p].offset == 0 && s.conns[p].output == [] && s.conns[p].asked == Key(s.bufs[c].info)
    ensures forall m | m in s.conns && m != p && m != n ::
              s.conns[m].buf != Some(c) && ConnOk(m, s.conns[m], s.bufs[c := buf], s.cached, s.orphans)
    ensures CacheOk(s.slots, s.cached, s.orphans, s.bufs[c := buf]) && KeysAreUnique(s.slots, s.bufs[c := buf])
  {
    assert ConnOk(p, s.conns[p], s.bufs, s.cached, s.orphans);
    FilledBufferKeepsOthers(s, p, c, buf);
    FillingIsExclusive(s, p, s.nodes[0]);
    forall m | m in s.conns && m != p && m != n
      ensures s.conns[m].buf != Some(c)
    {
      FillingIsExclusive(s, p, m);
    }
  }

  lemma FinishedKeepsConns<N, C>(s: State<N, C>, n: N, p: N, c: C, buf: Buf<N>, served: C, enqueue: bool, orphan: bool)
    requires CanFinish(s, n, p, c, buf, served, enqueue, orphan)
    ensures ConnsOk(Finished(s, n, p, c, buf, served, enqueue, orphan))
  {
    var f := Finished(s, n, p, c, buf, served, enqueue, orphan);
    ServerBuffer(s, n, p, c, buf);
    forall m | m in f.conns
      ensures ConnOk(m, f.conns[m], f.bufs, f.cached, f.orphans)
    {
      if m == p {
        assert buf.bytes[..0] == [];
      } else {
        assert ConnOk(m, s.conns[m], s.bufs[c := buf], s.cached, s.orphans);
        CachingKeepsConn(m, s.conns[m], s.bufs[c := buf], s.cached, s.orphans, c, f.orphans);
      }
    }
  }

  lemma FinishedKeepsCache<N, C>(s: State<N, C>, n: N, p: N, c: C, buf: Buf<N>, served: C, enqueue: bool, orphan: bool)
    requires CanFinish(s, n, p, c, buf, served, enqueue, orphan)
    ensures var f := Finished(s, n, p, c, buf, served, enqueue, orphan);
      CacheOk(f.slots, f.cached, f.orphans, f.bufs) && KeysAreUnique(f.slots, f.bufs)
  {
    ServerBuffer(s, n, p, c, buf);
    var bufs := s.bufs[c := buf];
    if enqueue {
      EnqueuedKeepsCache(s.slots, s.cached, s.orphans, bufs, c, if orphan then s.orphans + {c} else s.orphans);
      EnqueuedKeepsKeys(s.slots, bufs, c);
    }
  }

  lemma FinishedKeepsInv<N, C>(s: State<N, C>, n: N, p: N, c: C, buf: Buf<N>, served: C, enqueue: bool, orphan: bool)
    requires CanFinish(s, n, p, c, buf, served, enqueue, orphan)
    ensures Inv(Finished(s, n, p, c, buf, served, enqueue, orphan))
  {
    var client := s.conns[p].(status := Writing, buf := Some(served));
    UnpairKeepsList(s.nodes, s.conns, p, n, client);
    UnpairKeepsPartners(s.conns, p, n, client);
    FinishedKeepsConns(s, n, p, c, buf, served, enqueue, orphan);
    FinishedKeepsCache(s, n, p, c, buf, served, enqueue, orphan);
  }

  /** The buffer of a server after a read, and what is known about it. */
  function ReadInto<N>(buf: Buf<N>, chunk: seq<byte>, after: seq<byte>, date: string): Buf<N> {
    Buf(after, if buf.info.complete then buf.info else buf.info.(date := date, complete := true),
        buf.response + chunk, chunk == [], buf.owner)
  }

  lemma ServerOfRead<N, C>(s: State<N, C>, n: N, chunk: seq<byte>, after: seq<byte>)
    returns (p: N, c: C)
    requires Inv(s) && Is(s, n, Server, Reading) && Stores(BufOf(s, n).bytes, s.conns[n].offset, chunk, after)
    ensures s.conns[n].buf == Some(c) && Paired(s.conns, p, n) && s.conns[p].buf == Some(c) && c in s.bufs && c !in s.cached
    ensures 0 < |after| && s.bufs[c].response + chunk == after[..s.conns[n].offset + |chunk|]
    ensures s.bufs[c].response + chunk <= after && s.bufs[c].owner == Some(p) && s.conns[n].offset + |chunk| <= |after|
    ensures s.conns[n].flag == 1 <==> s.conns[n].backup.Some?
    ensures s.conns[n].backup.Some? ==>
      var b := s.conns[n].backup.value;
      b in s.cached && b in s.bufs && s.bufs[b].info.complete && Key(s.bufs[b].info) == Key(s.bufs[c].info)
  {
    assert HasPartner(s.conns, n);
    p, c := s.conns[n].partner.value, s.conns[n].buf.value;
    ServerBuffer(s, n, p, c, s.bufs[c]);
    assert ConnOk(n, s.conns[n], s.bufs, s.cached, s.orphans);
    StoredFront(s.bufs[c].bytes, s.conns[n].offset, chunk, after);
  }

  /** More of the response is still to come. */
  lemma PartReadKeepsInv<N, C>(s: State<N, C>, n: N, chunk: seq<byte>, after: seq<byte>, date: string)
    requires Inv(s) && Is(s, n, Server, Reading) && Stores(BufOf(s, n).bytes, s.conns[n].offset, chunk, after) && chunk != []
    ensures var c := s.conns[n].buf.value;
      Inv(s.(bufs := s.bufs[c := ReadInto(s.bufs[c], chunk, after, date)],
             conns := s.conns[n := s.conns[n].(offset := s.conns[n].offset + |chunk|)]))
  {
    var p, c := ServerOfRead(s, n, chunk, after);
    var buf := ReadInto(s.bufs[c], chunk, after, date);
    var bufs, conn := s.bufs[c := buf], s.conns[n].(offset := s.conns[n].offset + |chunk|);
    ServerBuffer(s, n, p, c, buf);
    UpdatingKeepsList(s.nodes, s.conns, n, conn);
    SameRoleKeepsPartners(s.conns, n, conn);
    assert ConnOk(p, s.conns[p], s.bufs, s.cached, s.orphans);
    assert ConnOk(n, s.conns[n], s.bufs, s.cached, s.orphans);
    assert ConnOk(p, s.conns[p], bufs, s.cached, s.orphans);
    assert ConnOk(n, conn, bufs, s.cached, s.orphans);
  }

  /** The response is complete, or the cached entry is confirmed. */
  lemma LastReadKeepsInv<N, C>(s: State<N, C>, n: N, chunk: seq<byte>, after: seq<byte>, date: string,
                               confirmed: bool, hit: Option<C>)
    requires Inv(s) && Is(s, n, Server, Reading) && Stores(BufOf(s, n).bytes, s.conns[n].offset, chunk, after)
    requires s.slots != [] && (chunk == [] || confirmed) && (confirmed ==> s.conns[n].backup.Some?)
    requires hit.None? ==>
      forall d | d in s.slots && d in s.bufs && s.bufs[d].info.complete :: Key(s.bufs[d].info) != Key(BufOf(s, n).info)
    ensures var c, conn := s.conns[n].buf.value, s.conns[n];
      && conn.partner.Some? && conn.partner.value in s.conns
      && Inv(Finished(s, n, conn.partner.value, c, ReadInto(s.bufs[c], chunk, after, date),
                      if confirmed then conn.backup.value else c, hit.None?, hit.None? && chunk != []))
  {
    var p, c := ServerOfRead(s, n, chunk, after);
    var buf := ReadInto(s.bufs[c], chunk, after, date);
    var served := if confirmed then s.conns[n].backup.value else c;
    FinishedKeepsInv(s, n, p, c, buf, served, hit.None?, hit.None? && chunk != []);
  }

  /** What a lookup after the read says about the entries before it: only a date has changed. */
  lemma HitAfterRead<N, C>(s: State<N, C>, n: N, chunk: seq<byte>, after: seq<byte>, head: ResponseHead)
    requires Inv(s) && Is(s, n, Server, Reading) && Stores(BufOf(s, n).bytes, s.conns[n].offset, chunk, after)
    ensures var bufs, key := HeadRead(s, n, chunk, after, head), Key(BufOf(s, n).info);
      && Key(bufs[s.conns[n].buf.value].info) == key
      && (Hit(s.slots, bufs, key).None? ==>
            forall d | d in s.slots && d in s.bufs && s.bufs[d].info.complete :: Key(s.bufs[d].info) != key)
  {
    var p, c := ServerOfRead(s, n, chunk, after);
    var bufs, key := HeadRead(s, n, chunk, after, head), Key(BufOf(s, n).info);
    HitFacts(s.slots, bufs, key);
    forall d | d in s.slots && d in s.bufs && s.bufs[d].info.complete
      ensures d in bufs && bufs[d].info.complete && Key(bufs[d].info) == Key(s.bufs[d].info)
    {
      assert d in Elements(s.slots);
    }
  }

  lemma ConfirmedReadIs<N, C>(s: State<N, C>, n: N, chunk: seq<byte>, after: seq<byte>, head: ResponseHead, p: N, c: C)
    requires n in s.conns && s.conns[n].buf == Some(c) && c in s.bufs && s.slots != [] && p in s.conns
    requires s.conns[n].partner == Some(p) && Confirmed(s, n, head) && s.conns[n].backup != Some(c)
    ensures var b, bufs := s.conns[n].backup.value, HeadRead(s, n, chunk, after, head);
      var hit := Hit(s.slots, bufs, Key(bufs[c].info));
      var f := Finished(s, n, p, c, ReadInto(s.bufs[c], chunk, after, head.date), b, hit.None?, hit.None? && chunk != []);
      && b in f.bufs
      && ResponseRead(s, n, chunk, after, head)
         == f.(bufs := f.bufs[b := f.bufs[b].(info := f.bufs[b].info.(date := head.date))])
  {
  }

  lemma LastReadIs<N, C>(s: State<N, C>, n: N, after: seq<byte>, head: ResponseHead, p: N, c: C)
    requires n in s.conns && s.conns[n].buf == Some(c) && c in s.bufs && s.slots != [] && p in s.conns
    requires s.conns[n].partner == Some(p) && !Confirmed(s, n, head)
    ensures var bufs := HeadRead(s, n, [], after, head);
      var hit := Hit(s.slots, bufs, Key(bufs[c].info));
      ResponseRead(s, n, [], after, head)
      == Finished(s, n, p, c, ReadInto(s.bufs[c], [], after, head.date), c, hit.None?, false)
  {
  }

  lemma ResponseReadKeepsInv<N, C>(s: State<N, C>, n: N, chunk: seq<byte>, after: seq<byte>, head: ResponseHead)
    requires Inv(s) && Enabled(s, ReadResponse(n, chunk, after, head))
    ensures Inv(ResponseRead(s, n, chunk, after, head))
  {
    hide ListOk, PartnersOk, ConnsOk, CacheOk, KeysAreUnique, Stores;
    var p, c := ServerOfRead(s, n, chunk, after);
    var confirmed := Confirmed(s, n, head);
    if !confirmed && chunk != [] {
      PartReadKeepsInv(s, n, chunk, after, head.date);
    } else {
      HitAfterRead(s, n, chunk, after, head);
      var hit := Hit(s.slots, HeadRead(s, n, chunk, after, head), Key(BufOf(s, n).info));
      LastReadKeepsInv(s, n, chunk, after, head.date, confirmed, hit);
      if confirmed {
        ConfirmedReadIs(s, n, chunk, after, head, p, c);
        DateKeepsInv(Finished(s, n, p, c, ReadInto(s.bufs[c], chunk, after, head.date), s.conns[n].backup.value,
                              hit.None?, hit.None? && chunk != []),
                     s.conns[n].backup.value, head.date);
      } else {
        LastReadIs(s, n, after, head, p, c);
      }
    }
  }

  // ---- all runs ----

  lemma StepKeepsInv<N, C>(s: State<N, C>, e: Event<N, C>)
    requires Inv(s) && Enabled(s, e)
    ensures Inv(Step(s, e))
  {
    match e
    case Accept(client, buf) => AcceptedKeepsInv(s, client, buf);
    case ReadRequest(n, chunk, after, request, server) => RequestReadKeepsInv(s, n, chunk, after, request, server);
    case WriteRequest(n, count) => RequestWrittenKeepsInv(s, n, count);
    case ReadResponse(n, chunk, after, head) => ResponseReadKeepsInv(s, n, chunk, after, head);
    case WriteResponse(n, count) => ResponseWrittenKeepsInv(s, n, count);
  }
}
