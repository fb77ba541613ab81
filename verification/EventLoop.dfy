/** The proxy's main loop: passes over the connection list, whose handlers change the list on the way. */
module EventLoop {
  import opened Bytes
  import opened Options
  import opened ProxyTypes
  import opened FdLists
  import opened CacheQueues
  import opened ProxyModel
  import opened ProxyInvariant
  import opened ProxySafety
  import opened Proxies

  // ---- how a handler changes the list ahead of the cursor ----

  /** The elements of a sequence that are in a set. */
  ghost function Only<T>(s: seq<T>, keep: set<T>): seq<T> {
    if s == [] then [] else (if s[0] in keep then [s[0]] else []) + Only(s[1..], keep)
  }

  lemma {:induction false} OnlyConcat<T>(s: seq<T>, t: seq<T>, keep: set<T>)
    ensures Only(s + t, keep) == Only(s, keep) + Only(t, keep)
  {
    if s == [] {
      assert s + t == t;
    } else {
      assert (s + t)[1..] == s[1..] + t;
      OnlyConcat(s[1..], t, keep);
      var first := if s[0] in keep then [s[0]] else [];
      assert (first + Only(s[1..], keep)) + Only(t, keep) == first + (Only(s[1..], keep) + Only(t, keep));
    }
  }

  lemma {:induction false} OnlyAll<T>(s: seq<T>, keep: set<T>)
    requires Elements(s) <= keep
    ensures Only(s, keep) == s
  {
    if s != [] {
      assert s[0] in Elements(s) && s == [s[0]] + s[1..];
      forall x | x in Elements(s[1..]) ensures x in keep { assert x in Elements(s); }
      OnlyAll(s[1..], keep);
    }
  }

  lemma OnlyInsert<T>(s: seq<T>, x: T, keep: set<T>)
    requires s != [] && x !in keep
    ensures Only(InsertBeforeLast(s, x), keep) == Only(s, keep)
  {
    var front, last := s[..|s| - 1], s[|s| - 1..];
    assert s == front + last;
    OnlyConcat(front, last, keep);
    OnlyConcat(front + [x], last, keep);
    OnlyConcat(front, [x], keep);
    assert Only([x], keep) == [];
  }

  /** An upper bound on the visits that a node can cause: its own, and those of a new node that its handler adds. */
  function Load(n: FdNode): nat {
    match n.kind
    case Listen => 3
    case Client => 2
    case _ => 1
  }

  function Work(s: seq<FdNode>): nat {
    if s == [] then 0 else Load(s[0]) + Work(s[1..])
  }

  lemma {:induction false} WorkInsert(s: seq<FdNode>, x: FdNode)
    requires s != []
    ensures Work(InsertBeforeLast(s, x)) == Work(s) + Load(x)
  {
    var r := InsertBeforeLast(s, x);
    if |s| == 1 {
      assert r == [x] + s && r[1..] == s;
    } else {
      assert r[1..] == InsertBeforeLast(s[1..], x);
      WorkInsert(s[1..], x);
    }
  }

  ghost predicate Inserts(s: seq<FdNode>, n: FdNode, known: set<FdNode>, s': seq<FdNode>) {
    s != [] && exists x | x in s' && x !in known && Load(x) < Load(n) :: s' == InsertBeforeLast(s, x)
  }

  /** A handler leaves the list alone, unlinks the node that it is given, or adds a new one in front of the rear dummy. */
  ghost predicate Changes(nodes: seq<FdNode>, n: FdNode, nodes': seq<FdNode>) {
    nodes' == nodes || nodes' == Without(nodes, n) || Inserts(nodes, n, Elements(nodes), nodes')
  }

  /** The saved successor is still in the list, and behind it is what was there before, or a new node as well. */
  lemma SuccessorIsStillLinked(nodes: seq<FdNode>, k: nat, nodes': seq<FdNode>, known: set<FdNode>) returns (k': nat)
    requires Distinct(nodes) && 0 < k < |nodes| - 1 && Changes(nodes, nodes[k], nodes')
    requires forall x | x in nodes' && x !in nodes :: x !in known
    ensures k' < |nodes'| && nodes'[k'] == nodes[k + 1]
    ensures nodes'[k'..] == nodes[k + 1..] || Inserts(nodes[k + 1..], nodes[k], known, nodes'[k'..])
  {
    var n, rest := nodes[k], nodes[k + 1..];
    if nodes' == nodes {
      k' := k + 1;
    } else if nodes' == Without(nodes, n) {
      WithoutIsRemoveAt(nodes, n, k);
      k' := k;
      assert nodes'[k..] == rest;
    } else {
      var x :| x in nodes' && x !in Elements(nodes) && Load(x) < Load(n) && nodes' == InsertBeforeLast(nodes, x);
      assert x !in nodes;
      if k + 1 == |nodes| - 1 {
        k' := k + 2;
        assert nodes'[k'..] == rest;
      } else {
        k' := k + 1;
        assert nodes'[k'..] == InsertBeforeLast(rest, x);
        assert nodes'[|nodes| - 1] == x && x in nodes'[k'..];
      }
    }
  }

  /** Of the nodes that were in the list at the start, the same are still to be visited; and there is less to do. */
  lemma AheadKeepsOnly(rest: seq<FdNode>, n: FdNode, keep: set<FdNode>, rest': seq<FdNode>)
    requires rest' == rest || Inserts(rest, n, keep, rest')
    ensures Only(rest', keep) == Only(rest, keep)
    ensures Work(rest') < Work(rest) + Load(n)
  {
    if rest' != rest {
      var x :| x in rest' && x !in keep && Load(x) < Load(n) && rest' == InsertBeforeLast(rest, x);
      OnlyInsert(rest, x, keep);
      WorkInsert(rest, x);
    }
  }

  // ---- what select and the sockets give ----

  /** What recv, send, and accept or connect give when they are called. */
  datatype Result = Result(chunk: seq<byte>, count: nat, fd: Option<int>, head: ResponseHead)

  /** recv gives no more than it is asked for. */
  type Outcome = r: Result | |r.chunk| <= MAX_DATA_SIZE
    witness Result([], 0, None, ResponseHead(false, ""))

  /** One call of select, and what each visit of the pass that follows would get from its socket. */
  datatype Select = Select(readable: set<int>, writable: set<int>, outcomes: nat -> Outcome)

  /** send takes no more than it is offered. */
  function Taken(s: State<FdNode, CacheNode>, n: FdNode, count: nat): nat
    requires n in s.conns && s.conns[n].buf.Some? && s.conns[n].buf.value in s.bufs
  {
    var limit := SendSize(|BufOf(s, n).bytes|, s.conns[n].offset);
    if count > limit then limit else count
  }

  /** The visit to a node does what its type, its status and its socket demand. */
  ghost predicate IsServed(s: State<FdNode, CacheNode>, n: FdNode, select: Select, o: Outcome,
                           events: seq<Event<FdNode, CacheNode>>)
  {
    n in s.conns &&
    match s.conns[n].kind
    case Dummy => events == []
    case Listen => IsListenerServed(n, select, o, events)
    case Client => IsClientServed(s, n, select, o, events)
    case Server => IsServerServed(s, n, select, o, events)
  }

  ghost predicate IsListenerServed(n: FdNode, select: Select, o: Outcome, events: seq<Event<FdNode, CacheNode>>) {
    if n.fd in select.readable && o.fd.Some? then |events| == 1 && events[0].Accept? && Some(events[0].client.fd) == o.fd
    else events == []
  }

  ghost predicate IsClientServed(s: State<FdNode, CacheNode>, n: FdNode, select: Select, o: Outcome,
                                 events: seq<Event<FdNode, CacheNode>>)
    requires n in s.conns
  {
    if s.conns[n].status == Reading && n.fd in select.readable then
      |events| == 1 && events[0].ReadRequest? && events[0].n == n && events[0].chunk == o.chunk
      && FdOf(events[0].server) == o.fd
    else if s.conns[n].status == Writing && n.fd in select.writable then
      s.conns[n].buf.Some? && s.conns[n].buf.value in s.bufs && events == [WriteResponse(n, Taken(s, n, o.count))]
    else events == []
  }

  ghost predicate IsServerServed(s: State<FdNode, CacheNode>, n: FdNode, select: Select, o: Outcome,
                                 events: seq<Event<FdNode, CacheNode>>)
    requires n in s.conns
  {
    if s.conns[n].status == Reading && n.fd in select.readable then
      |events| == 1 && events[0].ReadResponse? && events[0].n == n && events[0].chunk == o.chunk && events[0].head == o.head
    else if s.conns[n].status == Writing && n.fd in select.writable then
      s.conns[n].buf.Some? && s.conns[n].buf.value in s.bufs && events == [WriteRequest(n, Taken(s, n, o.count))]
    else events == []
  }

  // ---- the loop ----

  /** A live client or server has a buffer. */
  lemma LiveNode(s: State<FdNode, CacheNode>, n: FdNode)
    requires Inv(s) && n in s.conns && (s.conns[n].kind == Client || s.conns[n].kind == Server)
    ensures Is(s, n, s.conns[n].kind, s.conns[n].status) && n in s.nodes
  {
    assert ConnOk(n, s.conns[n], s.bufs, s.cached, s.orphans);
    assert n in Elements(s.nodes);
  }

  lemma OneEvent<N, C>(s: State<N, C>, e: Event<N, C>)
    requires Enabled(s, e)
    ensures Reaches(s, [e], Step(s, e))
  {
    assert [e][1..] == [];
  }

  /** In a state with the invariant the footprint is the proxy itself and the records that have names. */
  lemma FootprintIs(proxy: Proxy)
    requires Inv(proxy.state)
    ensures proxy.Footprint() == {proxy, proxy.list, proxy.queue} + proxy.state.conns.Keys + proxy.state.bufs.Keys
  {
    var s := proxy.state;
    assert Elements(s.nodes) == s.conns.Keys && Elements(s.slots) <= s.bufs.Keys;
  }

  /** Events that are not about a new connection bring no new names and only unlink the node they are for. */
  lemma NamesAfter(s: State<FdNode, CacheNode>, e: Event<FdNode, CacheNode>)
    requires Inv(s) && Enabled(s, e) && !e.Accept? && !e.ReadRequest?
    ensures Step(s, e).conns.Keys <= s.conns.Keys && Step(s, e).bufs.Keys <= s.bufs.Keys
    ensures Step(s, e).nodes == s.nodes || Step(s, e).nodes == Without(s.nodes, e.n)
  {
    if e.ReadResponse? {
      var p, c := ServerFacts(s, e.n);
    }
  }

  method ServeListener(proxy: Proxy, n: FdNode, select: Select, o: Outcome)
    returns (ghost events: seq<Event<FdNode, CacheNode>>)
    requires proxy.Represents() && Inv(proxy.state) && n in proxy.state.conns && n.kind == Listen
    modifies proxy.Footprint()
    ensures proxy.Represents() && Inv(proxy.state) && fresh(proxy.Footprint() - old(proxy.Footprint()))
    ensures Changes(old(proxy.state.nodes), n, proxy.state.nodes) && Reaches(old(proxy.state), events, proxy.state)
    ensures IsListenerServed(n, select, o, events)
  {
    hide Proxy.Represents, Inv, Step, Enabled, Proxy.Footprint;
    ghost var s := proxy.state;
    events := [];
    if n.fd in select.readable {
      ghost var client := proxy.ListenFdHandler(o.fd);
      if o.fd.Some? {
        ghost var e: Event<FdNode, CacheNode> := Accept(client, client.cacheNode);
        OneEvent(s, e);
        StepKeepsInv(s, e);
        events := [e];
        AcceptedNode(proxy, s, client);
      }
    }
  }

  lemma AcceptedNode(proxy: Proxy, s: State<FdNode, CacheNode>, client: FdNode)
    requires proxy.Represents() && Inv(s) && client.cacheNode != null
    requires Enabled(s, Accept(client, client.cacheNode)) && proxy.state == Step(s, Accept(client, client.cacheNode))
    ensures client.kind == Client && client !in Elements(s.nodes) && proxy.state.nodes == InsertBeforeLast(s.nodes, client)
    ensures forall n: FdNode | n.kind == Listen :: Changes(s.nodes, n, proxy.state.nodes)
  {
    proxy.Fields(client);
    MembersOfInsert(s.nodes, client);
  }

  lemma NodesAfterRequest(s: State<FdNode, CacheNode>, n: FdNode, after: seq<byte>, request: Option<(string, string)>,
                          server: Option<FdNode>)
    requires n in s.conns && s.conns[n].buf.Some? && s.conns[n].buf.value in s.bufs && |s.nodes| >= 1
    ensures var t := RequestRead(s, n, after, request, server);
      if server == None then t.nodes == Without(s.nodes, n)
      else t.nodes == InsertBeforeLast(s.nodes, server.value)
           && server.value in t.conns && t.conns[server.value].kind == Server
  {
    hide Hit, Without, InsertBeforeLast;
  }

  lemma RequestedNode(proxy: Proxy, s: State<FdNode, CacheNode>, n: FdNode, chunk: seq<byte>, after: seq<byte>,
                      request: Option<(string, string)>, server: Option<FdNode>)
    requires proxy.Represents() && Inv(s) && n.kind == Client
    requires Enabled(s, ReadRequest(n, chunk, after, request, server))
    requires proxy.state == Step(s, ReadRequest(n, chunk, after, request, server))
    ensures Changes(s.nodes, n, proxy.state.nodes)
  {
    hide Proxy.Represents, RequestRead, Without, InsertBeforeLast, Stores, PartnersOk, ConnsOk, CacheOk, KeysAreUnique;
    NodesAfterRequest(s, n, after, request, server);
    if server.Some? {
      proxy.Fields(server.value);
      MembersOfInsert(s.nodes, server.value);
      assert server.value !in Elements(s.nodes);
    }
  }

  /** The buffer that a node is sent from. */
  lemma SendFacts(proxy: Proxy, n: FdNode)
    requires proxy.Represents() && n in proxy.state.conns
    requires proxy.state.conns[n].buf.Some? && proxy.state.conns[n].buf.value in proxy.state.bufs
    ensures n.cacheNode != null && n.cacheNode.buffer == BufOf(proxy.state, n).bytes && n.offset == proxy.state.conns[n].offset
  {
    proxy.Fields(n);
    proxy.BufferFields(proxy.state.conns[n].buf.value);
  }

  /** What send takes of the node's buffer. */
  method SendCount(proxy: Proxy, n: FdNode, offered: nat) returns (count: nat)
    requires proxy.Represents() && n in proxy.state.conns
    requires proxy.state.conns[n].buf.Some? && proxy.state.conns[n].buf.value in proxy.state.bufs
    ensures count == Taken(proxy.state, n, offered)
  {
    hide Proxy.Represents, SendSize;
    SendFacts(proxy, n);
    var limit := SendSize(|n.cacheNode.buffer|, n.offset);
    count := if offered > limit then limit else offered;
  }

  method ServeClient(proxy: Proxy, n: FdNode, select: Select, o: Outcome)
    returns (ghost events: seq<Event<FdNode, CacheNode>>)
    requires proxy.Represents() && Inv(proxy.state) && n in proxy.state.conns && n.kind == Client
    modifies proxy.Footprint()
    ensures proxy.Represents() && Inv(proxy.state) && fresh(proxy.Footprint() - old(proxy.Footprint()))
    ensures Changes(old(proxy.state.nodes), n, proxy.state.nodes) && Reaches(old(proxy.state), events, proxy.state)
    ensures n in old(proxy.state.conns) && IsClientServed(old(proxy.state), n, select, o, events)
  {
    hide Proxy.Represents, Inv, Step, Enabled, Proxy.Footprint, Stores, SendSize;
    ghost var s := proxy.state;
    events := [];
    proxy.Fields(n);
    LiveNode(s, n);
    FootprintIs(proxy);
    if n.status == Reading && n.fd in select.readable {
      ghost var after, request, server := proxy.ClientReadHandler(n, o.chunk, o.fd);
      events := [ReadRequest(n, o.chunk, after, request, server)];
      RequestedNode(proxy, s, n, o.chunk, after, request, server);
    } else if n.status == Writing && n.fd in select.writable {
      var count := SendCount(proxy, n, o.count);
      WriteResponseIsEnabled(s, n, count);
      proxy.ClientWriteHandler(n, count);
      events := [WriteResponse(n, count)];
      NamesAfter(s, events[0]);
    }
    Served(proxy, s, events);
    FootprintIs(proxy);
  }

  lemma WriteResponseIsEnabled(s: State<FdNode, CacheNode>, n: FdNode, count: nat)
    requires Is(s, n, Client, Writing) && n in s.nodes && count <= SendSize(|BufOf(s, n).bytes|, s.conns[n].offset)
    ensures Enabled(s, WriteResponse(n, count))
  {
  }

  lemma WriteRequestIsEnabled(s: State<FdNode, CacheNode>, n: FdNode, count: nat)
    requires Is(s, n, Server, Writing) && count <= SendSize(|BufOf(s, n).bytes|, s.conns[n].offset)
    ensures Enabled(s, WriteRequest(n, count))
  {
  }

  /** After a handler, or none, the invariant holds, and the state was reached by the handler's event. */
  lemma Served(proxy: Proxy, s: State<FdNode, CacheNode>, events: seq<Event<FdNode, CacheNode>>)
    requires Inv(s)
    requires if events == [] then proxy.state == s else |events| == 1 && Enabled(s, events[0]) && proxy.state == Step(s, events[0])
    ensures Inv(proxy.state) && Reaches(s, events, proxy.state)
  {
    hide Inv, Step, Enabled;
    if events != [] {
      assert events == [events[0]];
      OneEvent(s, events[0]);
      StepKeepsInv(s, events[0]);
    }
  }

  method ServeServer(proxy: Proxy, n: FdNode, select: Select, o: Outcome)
    returns (ghost events: seq<Event<FdNode, CacheNode>>)
    requires proxy.Represents() && Inv(proxy.state) && n in proxy.state.conns && n.kind == Server
    modifies proxy.Footprint()
    ensures proxy.Represents() && Inv(proxy.state) && fresh(proxy.Footprint() - old(proxy.Footprint()))
    ensures Changes(old(proxy.state.nodes), n, proxy.state.nodes) && Reaches(old(proxy.state), events, proxy.state)
    ensures n in old(proxy.state.conns) && IsServerServed(old(proxy.state), n, select, o, events)
  {
    hide Proxy.Represents, Inv, Step, Enabled, Proxy.Footprint, Stores, SendSize;
    ghost var s := proxy.state;
    events := [];
    proxy.Fields(n);
    LiveNode(s, n);
    FootprintIs(proxy);
    if n.status == Reading && n.fd in select.readable {
      ghost var after := proxy.ServerReadHandler(n, o.chunk, o.head);
      events := [ReadResponse(n, o.chunk, after, o.head)];
      NamesAfter(s, events[0]);
    } else if n.status == Writing && n.fd in select.writable {
      var count := SendCount(proxy, n, o.count);
      WriteRequestIsEnabled(s, n, count);
      proxy.ServerWriteHandler(n, count);
      events := [WriteRequest(n, count)];
      NamesAfter(s, events[0]);
    }
    Served(proxy, s, events);
    FootprintIs(proxy);
  }

  /** The cursor is at k in the list, or behind its end. */
  ghost predicate At(nodes: seq<FdNode>, node: FdNode?, k: nat) {
    k <= |nodes| && node == if k < |nodes| then nodes[k] else null
  }

  /** What the loop keeps about the nodes that were in the list when the pass began. */
  ghost predicate OnTrack(start: seq<FdNode>, visited: seq<FdNode>, rest: seq<FdNode>) {
    Only(visited, Elements(start)) + Only(rest, Elements(start)) == start
  }

  lemma VisitKeepsTrack(start: seq<FdNode>, visited: seq<FdNode>, n: FdNode, rest: seq<FdNode>, rest': seq<FdNode>)
    requires OnTrack(start, visited, [n] + rest) && Only(rest', Elements(start)) == Only(rest, Elements(start))
    ensures OnTrack(start, visited + [n], rest')
  {
    hide Only;
    var keep := Elements(start);
    OnlyConcat(visited, [n], keep);
    OnlyConcat([n], rest, keep);
    var a, b, c := Only(visited, keep), Only([n], keep), Only(rest, keep);
    assert a + (b + c) == (a + b) + c;
  }

  /** In the list: a node's successor, its place, and whether it is a dummy. */
  lemma PlaceInList(proxy: Proxy, k: nat)
    requires proxy.Represents() && Inv(proxy.state) && k < |proxy.state.nodes|
    ensures var nodes := proxy.state.nodes;
      && Distinct(nodes) && nodes[k] in proxy.state.conns
      && nodes[k].next == (if k + 1 < |nodes| then nodes[k + 1] else null)
      && (nodes[k].kind != Dummy ==> 0 < k < |nodes| - 1)
      && proxy.list.front == nodes[0]
  {
    hide PartnersOk, ConnsOk, CacheOk, KeysAreUnique, CacheQueue.Valid, Proxy.Footprint;
    var n := proxy.state.nodes[k];
    assert n in Elements(proxy.state.nodes);
    proxy.Fields(n);
  }

  /** A visit to a node that is no dummy, when its handler has changed the list. */
  lemma VisitLive(start: seq<FdNode>, visited: seq<FdNode>, nodes: seq<FdNode>, k: nat, nodes': seq<FdNode>)
    returns (k': nat)
    requires Distinct(nodes) && 0 < k < |nodes| - 1 && Changes(nodes, nodes[k], nodes')
    requires forall x | x in nodes' && x !in nodes :: x !in Elements(start)
    requires OnTrack(start, visited, nodes[k..])
    ensures k' < |nodes'| && nodes'[k'] == nodes[k + 1]
    ensures Work(nodes'[k'..]) < Work(nodes[k..])
    ensures OnTrack(start, visited + [nodes[k]], nodes'[k'..])
  {
    var n, rest := nodes[k], nodes[k + 1..];
    assert nodes[k..] == [n] + rest && nodes[k..][1..] == rest;
    k' := SuccessorIsStillLinked(nodes, k, nodes', Elements(start));
    AheadKeepsOnly(rest, n, Elements(start), nodes'[k'..]);
    VisitKeepsTrack(start, visited, n, rest, nodes'[k'..]);
  }

  lemma VisitDummy(start: seq<FdNode>, visited: seq<FdNode>, nodes: seq<FdNode>, k: nat)
    requires k < |nodes| && OnTrack(start, visited, nodes[k..])
    ensures Work(nodes[k + 1..]) < Work(nodes[k..])
    ensures OnTrack(start, visited + [nodes[k]], nodes[k + 1..])
  {
    var n, rest := nodes[k], nodes[k + 1..];
    assert nodes[k..] == [n] + rest && nodes[k..][1..] == rest;
    VisitKeepsTrack(start, visited, n, rest, rest);
  }

  /** Serves one node that is no dummy, according to its type and status, if its socket is ready. */
  method Serve(proxy: Proxy, n: FdNode, select: Select, o: Outcome) returns (ghost events: seq<Event<FdNode, CacheNode>>)
    requires proxy.Represents() && Inv(proxy.state) && n in proxy.state.conns && n.kind != Dummy
    modifies proxy.Footprint()
    ensures proxy.Represents() && Inv(proxy.state) && fresh(proxy.Footprint() - old(proxy.Footprint()))
    ensures Changes(old(proxy.state.nodes), n, proxy.state.nodes) && Reaches(old(proxy.state), events, proxy.state)
    ensures IsServed(old(proxy.state), n, select, o, events)
    ensures forall x | x in proxy.state.nodes && x !in old(proxy.state.nodes) :: fresh(x)
  {
    hide Proxy.Represents, Inv, Changes, Reaches, Proxy.Footprint, IsListenerServed, IsClientServed, IsServerServed;
    ghost var s := proxy.state;
    FootprintIs(proxy);
    proxy.Fields(n);
    match n.kind {
      case Listen => events := ServeListener(proxy, n, select, o);
      case Client => events := ServeClient(proxy, n, select, o);
      case Server => events := ServeServer(proxy, n, select, o);
    }
    FootprintIs(proxy);
    NewNodesAreNewNames(s, proxy.state);
  }

  lemma NewNodesAreNewNames(s: State<FdNode, CacheNode>, s': State<FdNode, CacheNode>)
    requires Inv(s) && Inv(s')
    ensures forall x | x in s'.nodes && x !in s.nodes :: x in s'.conns && x !in s.conns
  {
    assert Elements(s.nodes) == s.conns.Keys && Elements(s'.nodes) == s'.conns.Keys;
    forall x | x in s'.nodes && x !in s.nodes
      ensures x in s'.conns && x !in s.conns
    {
      assert x in Elements(s'.nodes) && x !in Elements(s.nodes);
    }
  }

  // ---- what a pass has done ----

  /** A visit of the pass to a node: the states before and after it, and the events of it. */
  datatype Visit = Visit(node: FdNode, before: State<FdNode, CacheNode>, events: seq<Event<FdNode, CacheNode>>,
                         after: State<FdNode, CacheNode>)

  /** The state in front of visit i, or behind the last. */
  ghost function StateAt(s: State<FdNode, CacheNode>, trace: seq<Visit>, i: nat): State<FdNode, CacheNode>
    requires i <= |trace|
  {
    if i == 0 then s else trace[i - 1].after
  }

  ghost predicate IsVisit(select: Select, o: Outcome, v: Visit, s: State<FdNode, CacheNode>) {
    v.before == s && IsServed(s, v.node, select, o, v.events) && Reaches(s, v.events, v.after)
  }

  /** The visits follow one another, and each does what its node demands. */
  ghost predicate IsTrace(select: Select, s: State<FdNode, CacheNode>, trace: seq<Visit>, s': State<FdNode, CacheNode>) {
    && s' == StateAt(s, trace, |trace|)
    && (forall i | 0 <= i < |trace| :: IsVisit(select, select.outcomes(i), trace[i], StateAt(s, trace, i)))
  }

  /** All events of a pass, visit by visit. */
  ghost function EventsOf(trace: seq<Visit>): seq<Event<FdNode, CacheNode>> {
    if trace == [] then [] else EventsOf(trace[..|trace| - 1]) + trace[|trace| - 1].events
  }

  ghost function NodesOf(trace: seq<Visit>): seq<FdNode> {
    seq(|trace|, i requires 0 <= i < |trace| => trace[i].node)
  }

  datatype Pass = Pass(select: Select, before: State<FdNode, CacheNode>, trace: seq<Visit>, after: State<FdNode, CacheNode>)

  /** A pass serves the nodes that it visits, and visits every node of the list at its start, once and in order. */
  ghost predicate IsPass(pass: Pass) {
    && IsTrace(pass.select, pass.before, pass.trace, pass.after)
    && Only(NodesOf(pass.trace), Elements(pass.before.nodes)) == pass.before.nodes
    && Reaches(pass.before, EventsOf(pass.trace), pass.after)
  }

  lemma StateIsAsBefore(s: State<FdNode, CacheNode>, trace: seq<Visit>, v: Visit, i: nat)
    requires i <= |trace|
    ensures StateAt(s, trace + [v], i) == StateAt(s, trace, i)
    ensures StateAt(s, trace + [v], |trace| + 1) == v.after
  {
  }

  lemma AddVisit(select: Select, s: State<FdNode, CacheNode>, trace: seq<Visit>, v: Visit)
    requires IsTrace(select, s, trace, v.before) && IsVisit(select, select.outcomes(|trace|), v, v.before)
    ensures IsTrace(select, s, trace + [v], v.after)
  {
    hide IsVisit, StateAt;
    var trace' := trace + [v];
    forall i | 0 <= i < |trace'|
      ensures IsVisit(select, select.outcomes(i), trace'[i], StateAt(s, trace', i))
    {
      StateIsAsBefore(s, trace, v, i);
      if i < |trace| {
        assert IsVisit(select, select.outcomes(i), trace[i], StateAt(s, trace, i));
      }
    }
    StateIsAsBefore(s, trace, v, |trace|);
  }

  lemma AddVisitEvents(s: State<FdNode, CacheNode>, trace: seq<Visit>, v: Visit)
    requires Reaches(s, EventsOf(trace), v.before) && Reaches(v.before, v.events, v.after)
    ensures Reaches(s, EventsOf(trace + [v]), v.after) && NodesOf(trace + [v]) == NodesOf(trace) + [v.node]
  {
    hide Reaches;
    assert (trace + [v])[..|trace + [v]| - 1] == trace;
    ReachesConcat(s, EventsOf(trace), v.before, v.events, v.after);
  }

  lemma NoVisits(select: Select, s: State<FdNode, CacheNode>)
    ensures IsTrace(select, s, [], s) && Reaches(s, EventsOf([]), s) && NodesOf([]) == []
  {
    NoEvents(s);
  }

  /** The body of the pass: one node is served, and the cursor moves to the successor that was saved before. */
  method ServeNext(proxy: Proxy, node: FdNode, select: Select, turn: nat, ghost k: nat,
                   ghost s: State<FdNode, CacheNode>, ghost start: seq<FdNode>, ghost trace: seq<Visit>)
    returns (next: FdNode?, ghost k': nat, ghost trace': seq<Visit>)
    requires proxy.Represents() && Inv(proxy.state) && turn == |trace|
    requires IsTrace(select, s, trace, proxy.state) && Reaches(s, EventsOf(trace), proxy.state)
    requires At(proxy.state.nodes, node, k) && OnTrack(start, NodesOf(trace), proxy.state.nodes[k..])
    modifies proxy.Footprint()
    ensures proxy.Represents() && Inv(proxy.state) && fresh(proxy.Footprint() - old(proxy.Footprint()))
    ensures |trace'| == |trace| + 1
    ensures IsTrace(select, s, trace', proxy.state) && Reaches(s, EventsOf(trace'), proxy.state)
    ensures At(proxy.state.nodes, next, k') && OnTrack(start, NodesOf(trace'), proxy.state.nodes[k'..])
    ensures Work(proxy.state.nodes[k'..]) < Work(old(proxy.state.nodes)[k..])
  {
    hide Proxy.Represents, Inv, Changes, Only, Reaches, Work, OnTrack, Proxy.Footprint, IsTrace, EventsOf, NodesOf;
    hide IsListenerServed, IsClientServed, IsServerServed;
    ghost var nodes, before, visited := proxy.state.nodes, proxy.state, NodesOf(trace);
    ghost var events: seq<Event<FdNode, CacheNode>> := [];
    PlaceInList(proxy, k);
    proxy.Fields(node);
    next := node.next;
    if node.kind == Dummy {
      VisitDummy(start, visited, nodes, k);
      NoEvents(before);
      k' := k + 1;
    } else {
      events := Serve(proxy, node, select, select.outcomes(turn));
      k' := VisitLive(start, visited, nodes, k, proxy.state.nodes);
    }
    trace' := trace + [Visit(node, before, events, proxy.state)];
    AddVisit(select, s, trace, Visit(node, before, events, proxy.state));
    AddVisitEvents(s, trace, Visit(node, before, events, proxy.state));
  }

  /**
    One pass over the list: it visits every node that was in the list at its start exactly once and in
    order, whatever the handlers unlink or add, and serves those that it visits if their sockets are ready.
   */
  method ServePass(proxy: Proxy, select: Select) returns (ghost trace: seq<Visit>)
    requires proxy.Represents() && Inv(proxy.state)
    modifies proxy.Footprint()
    ensures proxy.Represents() && Inv(proxy.state) && fresh(proxy.Footprint() - old(proxy.Footprint()))
    ensures IsPass(Pass(select, old(proxy.state), trace, proxy.state))
  {
    hide Proxy.Represents, Inv, Only, Reaches, Work, OnTrack, Proxy.Footprint, IsTrace, EventsOf, NodesOf;
    ghost var s, start, foot := proxy.state, proxy.state.nodes, proxy.Footprint();
    StartOnTrack(s);
    NoVisits(select, s);
    PlaceInList(proxy, 0);
    var node: FdNode? := proxy.list.front;
    var turn := 0;
    ghost var k: nat := 0;
    trace := [];
    while node != null
      invariant proxy.Represents() && Inv(proxy.state) && (forall x | x in proxy.Footprint() :: x in foot || fresh(x))
      invariant turn == |trace| && IsTrace(select, s, trace, proxy.state) && Reaches(s, EventsOf(trace), proxy.state)
      invariant At(proxy.state.nodes, node, k) && OnTrack(start, NodesOf(trace), proxy.state.nodes[k..])
      decreases Work(proxy.state.nodes[k..])
    {
      ghost var now := proxy.Footprint();
      label Before:
      node, k, trace := ServeNext(proxy, node, select, turn, k, s, start, trace);
      turn := turn + 1;
      ghost var added := proxy.Footprint() - now;
      assert fresh@Before(added);
      assert forall x | x in added :: fresh(x);
      assert forall x | x in proxy.Footprint() :: x in added || x in now;
    }
    EndOfTrack(start, NodesOf(trace), proxy.state.nodes, k);
  }

  lemma StartOnTrack(s: State<FdNode, CacheNode>)
    requires Inv(s)
    ensures |s.nodes| > 0 && OnTrack(s.nodes, [], s.nodes[0..]) && Reaches(s, [], s)
  {
    hide Reaches, Only, PartnersOk, ConnsOk, CacheOk, KeysAreUnique, Distinct;
    assert s.nodes[0..] == s.nodes;
    OnlyAll(s.nodes, Elements(s.nodes));
    OnlyNothing(s.nodes);
    NoEvents(s);
  }

  lemma OnlyNothing(start: seq<FdNode>)
    ensures Only([], Elements(start)) + start == start
  {
  }

  lemma NoEvents(s: State<FdNode, CacheNode>)
    ensures Reaches(s, [], s)
  {
  }

  lemma EndOfTrack(start: seq<FdNode>, visited: seq<FdNode>, nodes: seq<FdNode>, k: nat)
    requires k == |nodes| && OnTrack(start, visited, nodes[k..])
    ensures Only(visited, Elements(start)) == start
  {
    assert Only(nodes[k..], Elements(start)) == [];
    assert Only(visited, Elements(start)) + [] == Only(visited, Elements(start));
  }

  // ---- any number of passes ----

  /** The state in front of pass i, or behind the last. */
  ghost function StateBefore(s: State<FdNode, CacheNode>, passes: seq<Pass>, i: nat): State<FdNode, CacheNode>
    requires i <= |passes|
  {
    if i == 0 then s else passes[i - 1].after
  }

  ghost predicate IsPassFrom(pass: Pass, select: Select, s: State<FdNode, CacheNode>) {
    IsPass(pass) && pass.select == select && pass.before == s
  }

  /** The passes follow one another, and each is a pass with what its call of select gives. */
  ghost predicate ArePasses(selects: seq<Select>, s: State<FdNode, CacheNode>, passes: seq<Pass>, s': State<FdNode, CacheNode>) {
    && |passes| == |selects|
    && (forall i | 0 <= i < |passes| :: IsPassFrom(passes[i], selects[i], StateBefore(s, passes, i)))
    && s' == StateBefore(s, passes, |passes|)
  }

  /** All events of the passes. */
  ghost function EventsOfPasses(passes: seq<Pass>): seq<Event<FdNode, CacheNode>> {
    if passes == [] then [] else EventsOfPasses(passes[..|passes| - 1]) + EventsOf(passes[|passes| - 1].trace)
  }

  lemma BeforeIsAsBefore(s: State<FdNode, CacheNode>, passes: seq<Pass>, pass: Pass, i: nat)
    requires i <= |passes|
    ensures StateBefore(s, passes + [pass], i) == StateBefore(s, passes, i)
    ensures StateBefore(s, passes + [pass], |passes| + 1) == pass.after
  {
  }

  lemma AddPass(selects: seq<Select>, s: State<FdNode, CacheNode>, passes: seq<Pass>, pass: Pass)
    requires ArePasses(selects, s, passes, pass.before) && IsPass(pass)
    ensures ArePasses(selects + [pass.select], s, passes + [pass], pass.after)
  {
    hide IsPass, IsPassFrom, StateBefore;
    var passes', selects' := passes + [pass], selects + [pass.select];
    forall i | 0 <= i < |passes'|
      ensures IsPassFrom(passes'[i], selects'[i], StateBefore(s, passes', i))
    {
      PassOfMore(selects, s, passes, pass, i);
    }
    BeforeIsAsBefore(s, passes, pass, |passes|);
  }

  lemma PassOfMore(selects: seq<Select>, s: State<FdNode, CacheNode>, passes: seq<Pass>, pass: Pass, i: nat)
    requires ArePasses(selects, s, passes, pass.before) && IsPass(pass) && i <= |passes|
    ensures IsPassFrom((passes + [pass])[i], (selects + [pass.select])[i], StateBefore(s, passes + [pass], i))
  {
    hide IsPass, StateBefore;
    BeforeIsAsBefore(s, passes, pass, i);
    if i < |passes| {
      assert IsPassFrom(passes[i], selects[i], StateBefore(s, passes, i));
    }
  }

  lemma AddPassEvents(s: State<FdNode, CacheNode>, passes: seq<Pass>, pass: Pass)
    requires Reaches(s, EventsOfPasses(passes), pass.before) && IsPass(pass)
    ensures Reaches(s, EventsOfPasses(passes + [pass]), pass.after)
  {
    hide IsTrace, EventsOf, NodesOf, Only, Reaches;
    assert (passes + [pass])[..|passes + [pass]| - 1] == passes;
    ReachesConcat(s, EventsOfPasses(passes), pass.before, EventsOf(pass.trace), pass.after);
  }

  lemma NoPasses(s: State<FdNode, CacheNode>)
    ensures ArePasses([], s, [], s) && Reaches(s, EventsOfPasses([]), s)
  {
    NoEvents(s);
  }

  /** Passes, for whatever the calls of select give. */
  method RunPasses(proxy: Proxy, selects: seq<Select>) returns (ghost passes: seq<Pass>)
    requires proxy.Represents() && Inv(proxy.state)
    modifies proxy.Footprint()
    ensures proxy.Represents() && Inv(proxy.state) && ArePasses(selects, old(proxy.state), passes, proxy.state)
    ensures Reaches(old(proxy.state), EventsOfPasses(passes), proxy.state)
  {
    hide Proxy.Represents, Inv, Reaches, Proxy.Footprint, IsPass, ArePasses, EventsOfPasses;
    ghost var foot := proxy.Footprint();
    passes := [];
    NoPasses(proxy.state);
    assert selects[..0] == [];
    for i := 0 to |selects|
      invariant proxy.Represents() && Inv(proxy.state) && (forall x | x in proxy.Footprint() :: x in foot || fresh(x))
      invariant ArePasses(selects[..i], old(proxy.state), passes, proxy.state)
      invariant Reaches(old(proxy.state), EventsOfPasses(passes), proxy.state)
    {
      ghost var before, now := proxy.state, proxy.Footprint();
      label Before:
      ghost var trace := ServePass(proxy, selects[i]);
      ghost var added := proxy.Footprint() - now;
      assert fresh@Before(added);
      assert forall x | x in added :: fresh(x);
      assert forall x | x in proxy.Footprint() :: x in added || x in now;
      ghost var pass := Pass(selects[i], before, trace, proxy.state);
      AddPass(selects[..i], old(proxy.state), passes, pass);
      AddPassEvents(old(proxy.state), passes, pass);
      assert selects[..i + 1] == selects[..i] + [pass.select];
      passes := passes + [pass];
    }
    assert selects[..|selects|] == selects;
  }

  /** main, for any number of passes. */
  method RunProxy(listenFd: int, maxSlot: nat, selects: seq<Select>)
    returns (proxy: Proxy, ghost start: State<FdNode, CacheNode>, ghost passes: seq<Pass>)
    requires maxSlot >= 2
    ensures proxy.Represents() && Initial(start) && |start.slots| == maxSlot
    ensures ArePasses(selects, start, passes, proxy.state)
    ensures Reaches(start, EventsOfPasses(passes), proxy.state) && Inv(proxy.state)
  {
    hide Proxy.Represents, Inv, Reaches, Initial, ArePasses, EventsOfPasses;
    proxy := new Proxy(listenFd, maxSlot);
    start := proxy.state;
    InitialInv(start);
    NewProxyIsFresh(proxy);
    passes := RunPasses(proxy, selects);
  }

  lemma NewProxyIsFresh(proxy: Proxy)
    requires proxy.Represents() && Inv(proxy.state) && proxy.state.bufs.Keys == Elements(proxy.state.slots)
    ensures proxy.Footprint() == {proxy, proxy.list, proxy.queue} + Elements(proxy.list.nodes) + Elements(proxy.queue.slots)
  {
    FootprintIs(proxy);
    assert Elements(proxy.state.nodes) == proxy.state.conns.Keys;
  }
}
