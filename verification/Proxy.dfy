/**
  The caching proxy in the heap. Its handlers update linked records in place, as the state machine of
  ProxyModel says. The results of accept, connect, recv and send are parameters.
 */
module Proxies {
  import opened Bytes
  import opened Options
  import opened ProxyTypes
  import opened FdLists
  import opened CacheQueues
  import opened ProxyModel
  import opened ProxyInvariant
  import opened ProxySafety
  import opened Requests

  function NodeOption(n: FdNode?): Option<FdNode> {
    if n == null then None else Some(n)
  }

  /** The socket of a node, if there is one. */
  function FdOf(n: Option<FdNode>): Option<int> {
    if n.Some? then Some(n.value.fd) else None
  }

  function BufferOption(c: CacheNode?): Option<CacheNode> {
    if c == null then None else Some(c)
  }

  ghost function ConnOf(n: FdNode): Conn<FdNode, CacheNode>
    reads n`status, n`proxied, n`cacheNode, n`backup, n`offset, n`flag, n`asked, n`output
  {
    Conn(n.kind, n.status, NodeOption(n.proxied), BufferOption(n.cacheNode), BufferOption(n.backup),
         n.offset, n.flag, n.asked, n.output)
  }

  ghost function BufferOf(c: CacheNode): Buf<FdNode>
    reads c`buffer, c`info, c`response, c`closed, c`owner
  {
    Buf(c.buffer, c.info, c.response, c.closed, NodeOption(c.owner))
  }

  /** realloc: the bytes that are added may be anything. */
  method Realloc(buffer: seq<byte>, size: nat) returns (r: seq<byte>)
    requires |buffer| <= size
    ensures |r| == size && buffer <= r
  {
    r := buffer + Zeros(size - |buffer|);
  }

  method StoreChunk(node: CacheNode, offset: nat, chunk: seq<byte>)
    requires offset <= |node.buffer| && |chunk| <= MAX_DATA_SIZE
    modifies node`buffer
    ensures Stores(old(node.buffer), offset, chunk, node.buffer)
  {
    var buffer := node.buffer;
    if |buffer| - offset <= |chunk| {
      buffer := Realloc(buffer, |buffer| + MAX_DATA_SIZE);
    }
    node.buffer := buffer[..offset] + chunk + buffer[offset + |chunk|..];
    assert buffer[..offset] == old(node.buffer)[..offset];
    assert node.buffer[..offset + |chunk|] == buffer[..offset] + chunk;
  }

  ghost predicate ConnsAre(conns: map<FdNode, Conn<FdNode, CacheNode>>)
    reads conns.Keys`status, conns.Keys`proxied, conns.Keys`cacheNode, conns.Keys`backup
    reads conns.Keys`offset, conns.Keys`flag, conns.Keys`asked, conns.Keys`output
  {
    forall n | n in conns :: ConnOf(n) == conns[n]
  }

  ghost predicate BuffersAre(bufs: map<CacheNode, Buf<FdNode>>)
    reads bufs.Keys`buffer, bufs.Keys`info, bufs.Keys`response, bufs.Keys`closed, bufs.Keys`owner, bufs.Keys`status
  {
    forall c | c in bufs :: BufferOf(c) == bufs[c] && c.status == Idle
  }

  ghost function Neighbours(n: FdNode): set<FdNode>
    reads n`prev, n`next
  {
    (if n.prev == null then {} else {n.prev}) + (if n.next == null then {} else {n.next})
  }

  ghost function Before(c: CacheNode): set<CacheNode>
    reads c`prev
  {
    if c.prev == null then {} else {c.prev}
  }

  lemma {:induction false} HitAt(slots: seq<CacheNode>, bufs: map<CacheNode, Buf<FdNode>>, key: (string, string), k: nat)
    requires k <= |slots| && forall i | 0 <= i < |slots| :: slots[i] in bufs
    requires forall i | 0 <= i < k :: !(bufs[slots[i]].info.complete && Key(bufs[slots[i]].info) == key)
    requires k < |slots| ==> bufs[slots[k]].info.complete && Key(bufs[slots[k]].info) == key
    ensures Hit(slots, bufs, key) == if k < |slots| then Some(slots[k]) else None
  {
    if k > 0 {
      HitAt(slots[1..], bufs, key, k - 1);
    }
  }

  /** The state when a chunk is in a server's buffer and its header has not been looked at. */
  ghost function ChunkStored(s: State<FdNode, CacheNode>, n: FdNode, chunk: seq<byte>, after: seq<byte>): State<FdNode, CacheNode>
    requires n in s.conns && s.conns[n].buf.Some? && s.conns[n].buf.value in s.bufs
  {
    var c := s.conns[n].buf.value;
    s.(bufs := s.bufs[c := s.bufs[c].(bytes := after, response := s.bufs[c].response + chunk, closed := chunk == [])],
       conns := s.conns[n := s.conns[n].(offset := s.conns[n].offset + |chunk|)])
  }

  lemma ReceivedInSteps(s: State<FdNode, CacheNode>, n: FdNode, chunk: seq<byte>, after: seq<byte>, head: ResponseHead)
    requires CanReceive(s, n) && s.conns[n].offset + |chunk| <= |after|
    ensures var t := ChunkStored(s, n, chunk, after);
      && CanReceive(t, n)
      && var u := Headed(t, n, head);
      && n in u.conns && u.conns[n].buf == s.conns[n].buf
      && Received(s, n, chunk, after, head)
         == if chunk == [] then u.(conns := u.conns[n := u.conns[n].(status := Idle, offset := 0)]) else u
  {
  }

  // ---- what the handlers need to know of a state in which the invariant holds ----

  lemma IndexOf(s: State<FdNode, CacheNode>, n: FdNode) returns (k: nat)
    requires Inv(s) && n in s.conns && s.conns[n].kind != Dummy
    ensures 0 < k < |s.nodes| - 1 && s.nodes[k] == n
  {
    assert n in Elements(s.nodes);
    k :| 0 <= k < |s.nodes| && s.nodes[k] == n;
  }

  lemma ServerFacts(s: State<FdNode, CacheNode>, n: FdNode) returns (p: FdNode, c: CacheNode)
    requires Inv(s) && Is(s, n, Server, Reading)
    ensures CanReceive(s, n) && s.conns[n].buf == Some(c) && s.conns[n].partner == Some(p) && s.conns[p].buf == Some(c)
    ensures p != n && p in s.conns && c in s.bufs && c !in s.cached && n in s.nodes
    ensures s.conns[n].backup.Some? ==> s.conns[n].backup.value in s.bufs
    ensures s.slots != [] && Elements(s.slots) <= s.bufs.Keys
  {
    assert HasPartner(s.conns, n);
    p, c := s.conns[n].partner.value, s.conns[n].buf.value;
    ServerBuffer(s, n, p, c, s.bufs[c]);
    assert ConnOk(n, s.conns[n], s.bufs, s.cached, s.orphans);
    assert n in Elements(s.nodes);
  }

  lemma ServerOffset(s: State<FdNode, CacheNode>, n: FdNode)
    requires Inv(s) && Is(s, n, Server, Writing)
    ensures s.conns[n].offset <= |BufOf(s, n).bytes|
  {
    assert ConnOk(n, s.conns[n], s.bufs, s.cached, s.orphans);
  }

  lemma ClientOffset(s: State<FdNode, CacheNode>, n: FdNode)
    requires Inv(s) && Is(s, n, Client, Writing)
    ensures s.conns[n].offset <= |BufOf(s, n).bytes|
  {
    assert ConnOk(n, s.conns[n], s.bufs, s.cached, s.orphans);
  }

  lemma ListHasEnds(s: State<FdNode, CacheNode>)
    requires Inv(s)
    ensures |s.nodes| >= 2 && Elements(s.nodes) == s.conns.Keys
    ensures Elements(s.slots) <= s.bufs.Keys && s.slots != []
  {
  }

  lemma ClientFacts(s: State<FdNode, CacheNode>, n: FdNode) returns (c: CacheNode)
    requires Inv(s) && Is(s, n, Client, Reading)
    ensures s.conns[n].buf == Some(c) && c in s.bufs && s.conns[n].offset <= |s.bufs[c].bytes| && n in s.nodes
    ensures s.conns[n].backup == None && |s.nodes| >= 2 && n != s.nodes[|s.nodes| - 1] && s.conns[n].partner == None
  {
    assert ConnOk(n, s.conns[n], s.bufs, s.cached, s.orphans);
    c := s.conns[n].buf.value;
    var k := IndexOf(s, n);
  }

  /** A client has read its request; info is what is known of it. */
  ghost function RequestStored(s: State<FdNode, CacheNode>, n: FdNode, c: CacheNode, after: seq<byte>, info: HttpInfo)
    : State<FdNode, CacheNode>
    requires n in s.conns && c in s.bufs
  {
    s.(conns := s.conns[n := s.conns[n].(status := Idle, offset := 0)], bufs := s.bufs[c := s.bufs[c].(bytes := after, info := info)])
  }

  lemma AcceptIsEnabled(s: State<FdNode, CacheNode>, client: FdNode, c: CacheNode)
    requires |s.nodes| >= 2 && client !in s.conns && c !in s.bufs
    ensures Enabled(s, Accept(client, c))
    ensures Step(s, Accept(client, c))
         == Added(s.(bufs := s.bufs[c := Buf(Zeros(INITIAL_BUFFER), NO_INFO, [], false, Some(client))]),
                  client, Conn(Client, Reading, None, Some(c), None, 0, 0, NO_URL, []))
  {
  }

  lemma ReadRequestIsEnabled(s: State<FdNode, CacheNode>, n: FdNode, c: CacheNode, chunk: seq<byte>, after: seq<byte>,
                             request: Option<(string, string)>, server: Option<FdNode>)
    requires Is(s, n, Client, Reading) && s.conns[n].buf == Some(c) && Stores(s.bufs[c].bytes, s.conns[n].offset, chunk, after)
    requires server.Some? ==> server.value !in s.conns
    requires n in s.nodes && |s.nodes| >= 2 && n != s.nodes[|s.nodes| - 1]
    ensures Enabled(s, ReadRequest(n, chunk, after, request, server))
    ensures Step(s, ReadRequest(n, chunk, after, request, server)) == RequestRead(s, n, after, request, server)
  {
  }

  lemma StoredNames(s: State<FdNode, CacheNode>, n: FdNode, c: CacheNode, after: seq<byte>, info: HttpInfo)
    requires n in s.conns && c in s.bufs
    ensures var t := RequestStored(s, n, c, after, info);
      t.conns.Keys == s.conns.Keys && t.bufs.Keys == s.bufs.Keys && t.nodes == s.nodes && t.slots == s.slots
  {
  }

  /** A client that has read its request gets a server. */
  ghost function Connected(t: State<FdNode, CacheNode>, n: FdNode, c: CacheNode, v: FdNode): State<FdNode, CacheNode>
    requires n in t.conns && c in t.bufs && |t.nodes| >= 1
  {
    var key := Key(t.bufs[c].info);
    var hit := Hit(t.slots, t.bufs, key);
    Added(t.(conns := t.conns[n := t.conns[n].(partner := Some(v), asked := key)]), v,
          Conn(Server, Writing, Some(n), Some(c), hit, 0, if hit.Some? then 1 else 2, NO_URL, []))
  }

  /** The names in a state with a new connection, or without an old one. */
  lemma AddedNames(s: State<FdNode, CacheNode>, n: FdNode, conn: Conn<FdNode, CacheNode>)
    requires |s.nodes| >= 1
    ensures var t := Added(s, n, conn);
      && t.conns.Keys == s.conns.Keys + {n} && Elements(t.nodes) == Elements(s.nodes) + {n}
      && t.bufs == s.bufs && t.slots == s.slots
  {
    MembersOfInsert(s.nodes, n);
  }

  lemma {:induction false} WithoutIsSubset<T>(s: seq<T>, x: T)
    ensures Elements(Without(s, x)) <= Elements(s)
  {
    if s != [] {
      WithoutIsSubset(s[1..], x);
      assert s == [s[0]] + s[1..];
      assert forall y | y in Without(s, x) :: y == s[0] || y in Elements(Without(s[1..], x));
    }
  }

  lemma ClosedNames(s: State<FdNode, CacheNode>, n: FdNode)
    ensures var t := Closed(s, n);
      && t.conns.Keys <= s.conns.Keys && Elements(t.nodes) <= Elements(s.nodes) && t.bufs == s.bufs && t.slots == s.slots
  {
    WithoutIsSubset(s.nodes, n);
  }

  /** The steps of a connection to a server. */
  lemma ConnectedInSteps(t: State<FdNode, CacheNode>, n: FdNode, c: CacheNode, v: FdNode)
    requires n in t.conns && c in t.bufs && |t.nodes| >= 1 && n != v
    ensures var asked := t.(conns := t.conns[n := t.conns[n].(asked := Key(t.bufs[c].info))]);
      var linked := Added(asked.(conns := asked.conns[n := asked.conns[n].(partner := Some(v))]), v,
                          Conn(Server, Writing, Some(n), Some(c), None, 0, 0, NO_URL, []));
      var hit := Hit(t.slots, t.bufs, Key(t.bufs[c].info));
      && v in linked.conns && linked.bufs == t.bufs && linked.slots == t.slots
      && Connected(t, n, c, v)
         == linked.(conns := linked.conns[v := linked.conns[v].(backup := hit, flag := if hit.Some? then 1 else 2)])
  {
  }

  lemma ConnectedNames(t: State<FdNode, CacheNode>, n: FdNode, c: CacheNode, v: FdNode)
    requires n in t.conns && c in t.bufs && |t.nodes| >= 1
    ensures var u := Connected(t, n, c, v);
      && u.conns.Keys == t.conns.Keys + {v} && Elements(u.nodes) == Elements(t.nodes) + {v}
      && u.bufs == t.bufs && u.slots == t.slots
  {
    MembersOfInsert(t.nodes, v);
  }

  /** The steps of client_read_handler. */
  lemma RequestReadInSteps(s: State<FdNode, CacheNode>, n: FdNode, c: CacheNode, after: seq<byte>,
                           request: Option<(string, string)>, info: HttpInfo, server: Option<FdNode>)
    requires n in s.conns && s.conns[n].buf == Some(c) && c in s.bufs && |s.nodes| >= 1
    requires info == if request.Some? then s.bufs[c].info.(host := request.value.0, path := request.value.1) else s.bufs[c].info
    ensures var t := RequestStored(s, n, c, after, info);
      RequestRead(s, n, after, request, server) == if server.None? then Closed(t, n) else Connected(t, n, c, server.value)
  {
    var t := RequestStored(s, n, c, after, info);
    assert t.conns - {n} == s.conns - {n};
  }

  /** The steps of server_read_handler after the read. */
  lemma ResponseReadInSteps(s: State<FdNode, CacheNode>, n: FdNode, p: FdNode, c: CacheNode,
                            chunk: seq<byte>, after: seq<byte>, head: ResponseHead)
    requires CanReceive(s, n) && s.conns[n].buf == Some(c) && s.conns[n].partner == Some(p) && s.conns[p].buf == Some(c)
    requires c !in s.cached && s.slots != [] && Elements(s.slots) <= s.bufs.Keys
    ensures var t := Received(s, n, chunk, after, head);
      && n in t.conns && p in t.conns && c in t.bufs && t.slots == s.slots && t.cached == s.cached && t.nodes == s.nodes
      && Elements(t.slots) <= t.bufs.Keys && t.conns.Keys == s.conns.Keys && t.bufs.Keys == s.bufs.Keys
      && (t.conns[n].status != Idle ==> t == ResponseRead(s, n, chunk, after, head))
      && (t.conns[n].status == Idle ==> Completed(t, n, p, c, chunk != []) == ResponseRead(s, n, chunk, after, head))
  {
  }

  /** What server_read_handler does when the response is complete. */
  ghost function Completed(t: State<FdNode, CacheNode>, n: FdNode, p: FdNode, c: CacheNode, orphan: bool): State<FdNode, CacheNode>
    requires p in t.conns && c in t.bufs && t.slots != []
  {
    var u := t.(conns := t.conns[p := t.conns[p].(status := Writing)]);
    var v := if Hit(u.slots, u.bufs, Key(u.bufs[c].info)).Some? then u else
      u.(slots := Enqueued(u.slots, c), cached := u.cached + {c}, orphans := if orphan then u.orphans + {c} else u.orphans);
    Closed(v, n)
  }

  ghost function StartOf(nodes: seq<FdNode>, slots: seq<CacheNode>): State<FdNode, CacheNode>
    reads nodes, slots
  {
    State(nodes, map n | n in nodes :: ConnOf(n), slots, Elements(slots), {}, map c | c in slots :: BufferOf(c))
  }

  /** A node as the set-up makes it, at its place in the list. */
  ghost predicate IsPlain(n: FdNode, i: nat)
    reads n
  {
    && (if i == 1 then n.kind == Listen && n.status == Reading else n.kind == Dummy && n.status == Idle)
    && n.cacheNode == null && n.backup == null
  }

  /** The list that the main loop starts with: the listening socket between the dummies. */
  method NewList(listenFd: int) returns (list: FdList)
    ensures list.Valid() && fresh(list) && fresh(list.nodes) && |list.nodes| == 3
    ensures forall i | 0 <= i < 3 :: IsPlain(list.nodes[i], i)
  {
    list := new FdList();
    var listener := new FdNode(null, null, listenFd, Listen, Reading, null);
    list.Append(listener);
  }

  class Proxy {
    const list: FdList
    const queue: CacheQueue

    // the state that the records represent
    ghost var state: State<FdNode, CacheNode>

    /** The records represent the state. */
    ghost predicate Represents()
      reads *
    {
      && list.Valid() && state.nodes == list.nodes
      && queue.Valid() && state.slots == queue.slots && queue.spared == {}
      && state.cached == Elements(queue.initial) + Elements(queue.history)
      && ConnsAre(state.conns) && BuffersAre(state.bufs)
    }

    /** The set-up in main: the listening socket between the dummies, and a queue of dummy entries. */
    constructor (listenFd: int, maxSlot: nat)
      requires maxSlot >= 2
      ensures Represents() && Initial(state) && |state.slots| == maxSlot
      ensures fresh(list) && fresh(queue) && fresh(list.nodes) && fresh(queue.slots)
      ensures state.bufs.Keys == Elements(state.slots)
    {
      var connections := NewList(listenFd);
      list := connections;
      queue := new CacheQueue(maxSlot);
      new;
      hide CacheQueue.Valid, FdList.Valid, IsPlain, Represents, Initial;
      Describe();
    }

    ghost method Describe()
      requires list.Valid() && queue.Valid() && |list.nodes| == 3 && queue.history == []
      requires forall i | 0 <= i < 3 :: IsPlain(list.nodes[i], i)
      requires queue.spared == {} && forall c | c in queue.initial :: !c.info.complete && c.status == Idle
      modifies this`state
      ensures Represents() && Initial(state) && state.slots == queue.slots && state.bufs.Keys == Elements(state.slots)
    {
      hide CacheQueue.Valid, FdList.Valid, ConnOf, BufferOf, Initial;
      StartIsInitial();
      state := StartOf(list.nodes, queue.slots);
    }

    lemma StartIsInitial()
      requires list.Valid() && queue.Valid() && |list.nodes| == 3 && queue.history == []
      requires forall i | 0 <= i < 3 :: IsPlain(list.nodes[i], i)
      requires queue.spared == {} && forall c | c in queue.initial :: !c.info.complete && c.status == Idle
      ensures var s := StartOf(list.nodes, queue.slots);
        && Initial(s) && ConnsAre(s.conns) && BuffersAre(s.bufs)
        && queue.slots == queue.initial && s.cached == Elements(queue.initial) + Elements(queue.history)
    {
      NothingEnqueued(queue.initial);
      assert queue.slots == queue.initial;
      assert Elements(queue.history) == {};
    }

    // ---- the steps that the handlers consist of ----

    /** fd_list_remove and free_fd_node */
    method Drop(n: FdNode, ghost k: nat)
      requires Represents() && 0 < k < |list.nodes| - 1 && list.nodes[k] == n
      modifies this`state, list`nodes, n`prev, n`next, Neighbours(n)`prev, Neighbours(n)`next
      ensures Represents() && state == Closed(old(state), n)
    {
      hide CacheQueue.Valid, ConnOf, BuffersAre, Without;
      list.Remove(n, k);
      WithoutIsRemoveAt(old(list.nodes), n, k);
      state := Closed(state, n);
    }

    /** fd_list_append of a new node */
    method Append(n: FdNode)
      requires Represents() && n !in list.nodes && n !in state.conns
      modifies this`state, list`nodes, n`prev, n`next, list.rear`prev, Neighbours(list.rear)`next
      ensures Represents() && state == Added(old(state), n, old(ConnOf(n)))
    {
      hide CacheQueue.Valid, BuffersAre, InsertBeforeLast;
      list.Append(n);
      state := Added(state, n, ConnOf(n));
    }

    /** What the queue has freed is what the machine calls freed: no node is ever in use when it is evicted. */
    lemma FreedNodes()
      requires Represents()
      ensures queue.freed == Freed(state)
    {
      forall c: CacheNode
        ensures c in queue.freed <==> c in Freed(state)
      {
        queue.SlotsAreKnown(c);
      }
    }

    lemma Fields(n: FdNode)
      requires Represents() && n in state.conns
      ensures ConnOf(n) == state.conns[n]
    {
    }

    lemma BufferFields(c: CacheNode)
      requires Represents() && c in state.bufs
      ensures BufferOf(c) == state.bufs[c]
    {
    }

    // ---- assignments to the fields of one record ----

    method SetStatus(n: FdNode, status: NodeStatus)
      requires Represents() && n in state.conns
      modifies this`state, n`status
      ensures Represents() && n.status == status
      ensures state == old(state).(conns := old(state).conns[n := old(state).conns[n].(status := status)])
    {
      hide CacheQueue.Valid, FdList.Valid, BuffersAre, Elements;
      Fields(n);
      n.status := status;
      state := state.(conns := state.conns[n := state.conns[n].(status := status)]);
    }

    method SetOffset(n: FdNode, offset: nat)
      requires Represents() && n in state.conns
      modifies this`state, n`offset
      ensures Represents() && n.offset == offset
      ensures state == old(state).(conns := old(state).conns[n := old(state).conns[n].(offset := offset)])
    {
      hide CacheQueue.Valid, FdList.Valid, BuffersAre, Elements;
      Fields(n);
      n.offset := offset;
      state := state.(conns := state.conns[n := state.conns[n].(offset := offset)]);
    }

    /** The operation is complete. */
    method Finish(n: FdNode)
      requires Represents() && n in state.conns
      modifies this`state, n`status, n`offset
      ensures Represents() && n.status == Idle
      ensures state == old(state).(conns := old(state).conns[n := old(state).conns[n].(status := Idle, offset := 0)])
    {
      hide Represents;
      SetStatus(n, Idle);
      SetOffset(n, 0);
      assert state.conns == old(state).conns[n := old(state).conns[n].(status := Idle, offset := 0)];
    }

    method SetBuffer(n: FdNode, c: CacheNode)
      requires Represents() && n in state.conns
      modifies this`state, n`cacheNode
      ensures Represents() && n.cacheNode == c
      ensures state == old(state).(conns := old(state).conns[n := old(state).conns[n].(buf := Some(c))])
    {
      hide CacheQueue.Valid, FdList.Valid, BuffersAre, Elements;
      Fields(n);
      n.cacheNode := c;
      state := state.(conns := state.conns[n := state.conns[n].(buf := Some(c))]);
    }

    method SetProxied(n: FdNode, v: FdNode)
      requires Represents() && n in state.conns
      modifies this`state, n`proxied
      ensures Represents() && n.proxied == v
      ensures state == old(state).(conns := old(state).conns[n := old(state).conns[n].(partner := Some(v))])
    {
      hide CacheQueue.Valid, FdList.Valid, BuffersAre, Elements, BufferOption;
      Fields(n);
      n.proxied := v;
      state := state.(conns := state.conns[n := state.conns[n].(partner := Some(v))]);
    }

    method SetBackup(n: FdNode, b: CacheNode?, flag: int)
      requires Represents() && n in state.conns
      modifies this`state, n`backup, n`flag
      ensures Represents() && n.backup == b
      ensures state == old(state).(conns := old(state).conns[n := old(state).conns[n].(backup := BufferOption(b), flag := flag)])
    {
      hide CacheQueue.Valid, FdList.Valid, BuffersAre, Elements, NodeOption, BufferOption;
      Fields(n);
      n.backup := b;
      n.flag := flag;
      state := state.(conns := state.conns[n := state.conns[n].(backup := BufferOption(b), flag := flag)]);
    }

    /** The URL that a client has asked for is recorded. */
    ghost method RecordAsked(n: FdNode, url: (string, string))
      requires Represents() && n in state.conns
      modifies this`state, n`asked
      ensures Represents()
      ensures state == old(state).(conns := old(state).conns[n := old(state).conns[n].(asked := url)])
    {
      hide CacheQueue.Valid, FdList.Valid, BuffersAre, Elements;
      Fields(n);
      n.asked := url;
      state := state.(conns := state.conns[n := state.conns[n].(asked := url)]);
    }

    method SetInfo(c: CacheNode, info: HttpInfo)
      requires Represents() && c in state.bufs
      modifies this`state, c`info
      ensures Represents() && c.info == info
      ensures state == old(state).(bufs := old(state).bufs[c := old(state).bufs[c].(info := info)])
    {
      hide CacheQueue.Valid, FdList.Valid, ConnsAre;
      BufferFields(c);
      c.info := info;
      state := state.(bufs := state.bufs[c := state.bufs[c].(info := info)]);
    }

    /** realloc and memcpy into the buffer */
    method Store(c: CacheNode, offset: nat, chunk: seq<byte>)
      requires Represents() && c in state.bufs && offset <= |state.bufs[c].bytes| && |chunk| <= MAX_DATA_SIZE
      modifies this`state, c`buffer
      ensures Represents() && Stores(old(state).bufs[c].bytes, offset, chunk, c.buffer)
      ensures state == old(state).(bufs := old(state).bufs[c := old(state).bufs[c].(bytes := c.buffer)])
    {
      hide CacheQueue.Valid, FdList.Valid, ConnsAre, Stores;
      BufferFields(c);
      StoreChunk(c, offset, chunk);
      state := state.(bufs := state.bufs[c := state.bufs[c].(bytes := c.buffer)]);
    }

    /** What a server sends is recorded; an empty read means that it has closed the connection. */
    ghost method RecordResponse(c: CacheNode, chunk: seq<byte>)
      requires Represents() && c in state.bufs
      modifies this`state, c`response, c`closed
      ensures Represents()
      ensures state == old(state).(bufs := old(state).bufs[c := old(state).bufs[c].(
                response := old(state).bufs[c].response + chunk, closed := chunk == [])])
    {
      hide CacheQueue.Valid, FdList.Valid, ConnsAre;
      BufferFields(c);
      c.response, c.closed := c.response + chunk, chunk == [];
      state := state.(bufs := state.bufs[c := state.bufs[c].(response := c.response, closed := c.closed)]);
    }

    /** What a client is sent is recorded. */
    ghost method Record(n: FdNode, bytes: seq<byte>)
      requires Represents() && n in state.conns
      modifies this`state, n`output
      ensures Represents()
      ensures state == old(state).(conns := old(state).conns[n := old(state).conns[n].(output := old(state).conns[n].output + bytes)])
    {
      hide CacheQueue.Valid, FdList.Valid, BuffersAre, Elements;
      Fields(n);
      n.output := n.output + bytes;
      state := state.(conns := state.conns[n := state.conns[n].(output := state.conns[n].output + bytes)]);
    }

    /** is_cache_hit for the URL of a buffer */
    method Lookup(c: CacheNode) returns (hit: CacheNode?)
      requires Represents() && c in state.bufs && Elements(state.slots) <= state.bufs.Keys
      ensures BufferOption(hit) == Hit(state.slots, state.bufs, Key(state.bufs[c].info))
    {
      hide FdList.Valid, ConnOf;
      ghost var k: nat;
      hit, k := queue.IsCacheHit(c.info);
      assert BufferOf(c) == state.bufs[c];
      forall i | 0 <= i < |queue.slots|
        ensures queue.slots[i] in state.bufs && BufferOf(queue.slots[i]) == state.bufs[queue.slots[i]]
      {
        assert queue.slots[i] in Elements(state.slots);
      }
      HitAt(state.slots, state.bufs, Key(state.bufs[c].info), k);
    }

    lemma NotKnown(c: CacheNode)
      requires Represents() && c !in state.cached
      ensures !queue.Knows(c) && queue.Valid() && state.slots == queue.slots && queue.slots != []
    {
    }

    lemma RearIsIdle()
      requires Represents() && Elements(state.slots) <= state.bufs.Keys
      ensures queue.rear.status == Idle
    {
      assert queue.rear in Elements(state.slots);
    }

    /** cache_enqueue; orphan says that the buffer holds a bare 304 answer. */
    method Cache(c: CacheNode, ghost orphan: bool)
      requires Represents() && c !in state.cached && Elements(state.slots) <= state.bufs.Keys
      modifies this`state, queue`front, queue`rear, queue`slots, queue`freed, queue`spared, queue`history
      modifies queue.rear`prev, queue.rear`next, Before(queue.rear)`next, queue.front`prev, c`prev, c`next
      ensures Represents()
      ensures state == old(state).(slots := Enqueued(old(state).slots, c), cached := old(state).cached + {c},
                                   orphans := if orphan then old(state).orphans + {c} else old(state).orphans)
    {
      hide FdList.Valid, ConnsAre, BuffersAre, Enqueued, CacheQueue.Valid;
      RearIsIdle();
      NotKnown(c);
      queue.Enqueue(c);
      assert Elements(queue.history) == Elements(old(queue.history)) + {c};
      state := state.(slots := Enqueued(state.slots, c), cached := state.cached + {c},
                      orphans := if orphan then state.orphans + {c} else state.orphans);
    }

    /** A new client with a new buffer; it is not in the list yet. */
    method NewClient(fd: int) returns (client: FdNode)
      requires Represents()
      modifies this`state
      ensures Represents() && fresh(client) && client.fd == fd
      ensures client.cacheNode != null && fresh(client.cacheNode)
      ensures ConnOf(client) == Conn(Client, Reading, None, BufferOption(client.cacheNode), None, 0, 0, NO_URL, [])
      ensures state == old(state).(bufs := old(state).bufs[client.cacheNode :=
                Buf(Zeros(INITIAL_BUFFER), NO_INFO, [], false, Some(client))])
    {
      hide FdList.Valid, CacheQueue.Valid, ConnsAre, Elements;
      var c := new CacheNode(null, null, INITIAL_BUFFER);
      client := new FdNode(null, null, fd, Client, Reading, c);
      c.owner := client;
      state := state.(bufs := state.bufs[c := BufferOf(c)]);
    }

    // ---- cache_recv and cache_send ----

    /** A node and the records that its fields refer to. */
    ghost function Around(n: FdNode): set<object>
      reads n
    {
      {n} + (if n.cacheNode == null then {} else {n.cacheNode}) + (if n.backup == null then {} else {n.backup})
      + (if n.proxied == null then {} else {n.proxied})
    }

    /** cache_recv: with one recv, a client's request is taken to be complete. */
    method RecvRequest(n: FdNode, chunk: seq<byte>)
      requires Represents() && Is(state, n, Client, Reading) && |chunk| <= MAX_DATA_SIZE
      requires state.conns[n].offset <= |BufOf(state, n).bytes|
      modifies this`state, Around(n)
      ensures Represents() && BufferOption(n.cacheNode) == old(state).conns[n].buf && n.kind == Client
      ensures var s, c := old(state), old(state).conns[n].buf.value;
        && Stores(s.bufs[c].bytes, s.conns[n].offset, chunk, c.buffer)
        && state == s.(conns := s.conns[n := s.conns[n].(status := Idle, offset := 0)],
                       bufs := s.bufs[c := s.bufs[c].(bytes := c.buffer)])
    {
      hide Represents, Stores;
      Fields(n);
      var c := n.cacheNode;
      Store(c, n.offset, chunk);
      SetOffset(n, n.offset + |chunk|);
      Finish(n);
    }

    /** cache_send: the status becomes IDLE when all is sent. */
    method CacheSend(n: FdNode, count: nat)
      requires Represents() && n in state.conns && state.conns[n].buf.Some? && state.conns[n].buf.value in state.bufs
      requires count <= SendSize(|BufOf(state, n).bytes|, state.conns[n].offset) && state.conns[n].offset <= |BufOf(state, n).bytes|
      modifies this`state, n`status, n`offset, n`output
      ensures Represents()
      ensures state == old(state).(conns := old(state).conns[n := Sent(old(state).conns[n], BufOf(old(state), n).bytes, count)])
      ensures n.status == state.conns[n].status
    {
      hide Represents;
      Fields(n);
      BufferFields(n.cacheNode);
      if n.kind == Client {
        Record(n, n.cacheNode.buffer[n.offset..n.offset + count]);
      }
      SetOffset(n, n.offset + count);
      if n.offset >= |n.cacheNode.buffer| {
        Finish(n);
      }
      Fields(n);
    }

    /** The cached entry b gets a new date and becomes the client's buffer. */
    method Confirm(n: FdNode, b: CacheNode, p: FdNode, date: string)
      requires Represents() && n in state.conns && p in state.conns && b in state.bufs
      modifies this`state, n`status, n`offset, b`info, p`cacheNode
      ensures Represents()
      ensures var s := old(state);
        var conns := s.conns[p := s.conns[p].(buf := Some(b))];
        state == s.(bufs := s.bufs[b := s.bufs[b].(info := s.bufs[b].info.(date := date))],
                    conns := conns[n := conns[n].(status := Idle, offset := 0)])
    {
      hide Represents;
      BufferFields(b);
      SetInfo(b, b.info.(date := date));
      SetBuffer(p, b);
      Finish(n);
    }

    /** What the header of a response changes; on a 304 the client gets the cached entry instead of the buffer. */
    method ReadHead(n: FdNode, head: ResponseHead)
      requires Represents() && CanReceive(state, n)
      modifies this`state, Around(n)
      ensures Represents() && state == Headed(old(state), n, head)
      ensures n.cacheNode == old(n.cacheNode) && n.proxied == old(n.proxied)
    {
      hide Represents;
      Fields(n);
      var c, p := n.cacheNode, n.proxied;
      BufferFields(c);
      if !c.info.complete {
        SetInfo(c, c.info.(date := head.date));
        if n.flag == 1 {
          if head.notModified {
            Confirm(n, n.backup, p, c.info.date);
          }
        }
        SetInfo(c, c.info.(complete := true));
      }
    }

    /** cache_recv for a server */
    method RecvResponse(n: FdNode, chunk: seq<byte>, head: ResponseHead) returns (ghost after: seq<byte>)
      requires Represents() && CanReceive(state, n) && |chunk| <= MAX_DATA_SIZE
      modifies this`state, Around(n)
      ensures Represents() && n in state.conns && n.status == state.conns[n].status
      ensures BufferOption(n.cacheNode) == old(state).conns[n].buf && NodeOption(n.proxied) == old(state).conns[n].partner
      ensures Stores(BufOf(old(state), n).bytes, old(state).conns[n].offset, chunk, after)
      ensures state == Received(old(state), n, chunk, after, head)
    {
      hide Represents, Stores, Headed, Received;
      ghost var s := state;
      Fields(n);
      var c := n.cacheNode;
      Store(c, n.offset, chunk);
      after := c.buffer;
      StoredFront(s.bufs[c].bytes, n.offset, chunk, after);
      RecordResponse(c, chunk);
      SetOffset(n, n.offset + |chunk|);
      assert state == ChunkStored(s, n, chunk, after);
      ReceivedInSteps(s, n, chunk, after, head);
      ReadHead(n, head);
      if chunk == [] {
        Finish(n);
      }
      Fields(n);
    }

    // ---- the handlers ----

    ghost function Footprint(): set<object>
      reads this`state
    {
      {this, list, queue} + state.conns.Keys + state.bufs.Keys + Elements(state.nodes) + Elements(state.slots)
    }

    lemma NodesAre()
      requires Represents()
      ensures list.nodes == state.nodes && queue.slots == state.slots
    {
    }

    lemma NeighboursAreInList(n: FdNode, k: nat)
      requires Represents() && 0 < k < |state.nodes| - 1 && state.nodes[k] == n
      ensures list.nodes == state.nodes && Neighbours(n) <= Elements(state.nodes)
      ensures list.rear in Elements(state.nodes) && Neighbours(list.rear) <= Elements(state.nodes)
    {
      assert list.nodes[k - 1] in Elements(state.nodes) && list.nodes[k + 1] in Elements(state.nodes);
    }

    lemma RearIsInList()
      requires Represents()
      ensures list.nodes == state.nodes && list.rear in Elements(state.nodes) && Neighbours(list.rear) <= Elements(state.nodes)
    {
      assert list.nodes[|list.nodes| - 2] in Elements(state.nodes);
    }

    lemma QueueEndsAreInQueue()
      requires Represents()
      ensures queue.front in Elements(state.slots) && queue.rear in Elements(state.slots)
      ensures Before(queue.rear) <= Elements(state.slots)
    {
    }

    /** All that the fields of a reading client refer to is known. */
    lemma ClientSurroundings(n: FdNode)
      requires Represents() && n in state.conns && state.conns[n].buf.Some? && state.conns[n].buf.value in state.bufs
      requires state.conns[n].partner == None && state.conns[n].backup == None
      ensures Around(n) <= Footprint()
    {
      Fields(n);
    }

    /** The end of server_read_handler: the client is to be written to, the buffer is cached, the server goes. */
    method Complete(n: FdNode, ghost k: nat, ghost orphan: bool)
      requires Represents() && 0 < k < |state.nodes| - 1 && state.nodes[k] == n
      requires n.proxied != null && n.proxied in state.conns && n.cacheNode != null && n.cacheNode in state.bufs
      requires n.cacheNode !in state.cached && state.slots != [] && Elements(state.slots) <= state.bufs.Keys
      modifies Footprint()
      ensures Represents() && state == Completed(old(state), n, old(n.proxied), old(n.cacheNode), orphan)
    {
      hide Represents, Hit, Closed;
      SetStatus(n.proxied, Writing);
      var hit := Lookup(n.cacheNode);
      if hit == null {
        QueueEndsAreInQueue();
        Cache(n.cacheNode, orphan);
      }
      NeighboursAreInList(n, k);
      Drop(n, k);
    }

    /** server_read_handler */
    method ServerReadHandler(n: FdNode, chunk: seq<byte>, head: ResponseHead) returns (ghost after: seq<byte>)
      requires Represents() && Inv(state) && Is(state, n, Server, Reading) && |chunk| <= MAX_DATA_SIZE
      modifies Footprint()
      ensures Represents() && Enabled(old(state), ReadResponse(n, chunk, after, head))
      ensures state == Step(old(state), ReadResponse(n, chunk, after, head))
    {
      hide Represents, Inv, Stores, Received, ResponseRead, Hit, Completed;
      ghost var s := state;
      ghost var p, c := ServerFacts(s, n);
      ghost var k := IndexOf(s, n);
      Fields(n);
      after := RecvResponse(n, chunk, head);
      ResponseReadInSteps(s, n, p, c, chunk, after, head);
      if n.status == Idle {
        Complete(n, k, chunk != []);
      }
    }

    /** server_write_handler */
    method ServerWriteHandler(n: FdNode, count: nat)
      requires Represents() && Inv(state) && Enabled(state, WriteRequest(n, count))
      modifies Footprint()
      ensures Represents() && state == Step(old(state), WriteRequest(n, count))
    {
      hide Represents, Inv;
      ServerOffset(state, n);
      CacheSend(n, count);
      if n.status == Idle {
        SetStatus(n, Reading);
      }
    }

    lemma WriteResponseInSteps(s: State<FdNode, CacheNode>, n: FdNode, count: nat, t: State<FdNode, CacheNode>)
      requires Enabled(s, WriteResponse(n, count)) && s.conns[n].offset + count <= |BufOf(s, n).bytes|
      requires t == s.(conns := s.conns[n := Sent(s.conns[n], BufOf(s, n).bytes, count)])
      ensures Step(s, WriteResponse(n, count)) == if t.conns[n].status == Idle then Closed(t, n) else t
      ensures n in s.conns
    {
      hide Without, Stores;
    }

    /** client_write_handler */
    method ClientWriteHandler(n: FdNode, count: nat)
      requires Represents() && Inv(state) && Enabled(state, WriteResponse(n, count))
      modifies Footprint()
      ensures Represents() && state == Step(old(state), WriteResponse(n, count))
    {
      hide Represents, Inv, Closed, Step, Stores, Sent;
      ghost var s := state;
      ClientOffset(state, n);
      ghost var k := IndexOf(state, n);
      CacheSend(n, count);
      WriteResponseInSteps(s, n, count, state);
      if n.status == Idle {
        NeighboursAreInList(n, k);
        Drop(n, k);
      }
    }

    /** A new client with a new buffer joins the list. */
    method AddClient(fd: int) returns (client: FdNode)
      requires Represents() && |state.nodes| >= 2
      modifies this`state, list`nodes, list.rear`prev, Neighbours(list.rear)`next
      ensures Represents() && fresh(client) && client.fd == fd
      ensures client.cacheNode != null && fresh(client.cacheNode)
      ensures client !in old(state).conns && client.cacheNode !in old(state).bufs
      ensures state.conns.Keys == old(state).conns.Keys + {client}
      ensures state.bufs.Keys == old(state).bufs.Keys + {client.cacheNode}
      ensures Elements(state.nodes) == Elements(old(state).nodes) + {client} && state.slots == old(state).slots
      ensures state == Added(old(state).(bufs := old(state).bufs[client.cacheNode :=
                                Buf(Zeros(INITIAL_BUFFER), NO_INFO, [], false, Some(client))]),
                             client, Conn(Client, Reading, None, BufferOption(client.cacheNode), None, 0, 0, NO_URL, []))
    {
      hide Represents, Added, BufferOf;
      client := NewClient(fd);
      AddedNames(state, client, ConnOf(client));
      Append(client);
    }

    /** listen_fd_handler, for what accept returns */
    method ListenFdHandler(clientFd: Option<int>) returns (ghost client: FdNode?)
      requires Represents() && Inv(state)
      modifies Footprint()
      ensures Represents() && fresh(Footprint() - old(Footprint()))
      ensures clientFd == None ==> client == null && state == old(state)
      ensures clientFd.Some? ==>
        && client != null && client.cacheNode != null && client.fd == clientFd.value
        && Enabled(old(state), Accept(client, client.cacheNode))
        && state == Step(old(state), Accept(client, client.cacheNode))
    {
      hide Represents, Inv, Added, BufferOf, Step, Enabled;
      client := null;
      if clientFd == None {
        return;
      }
      ListHasEnds(state);
      RearIsInList();
      var node := AddClient(clientFd.value);
      AcceptIsEnabled(old(state), node, node.cacheNode);
      client := node;
    }

    /** A new server node that works for a client; it is not in the list yet. */
    method NewServer(n: FdNode, c: CacheNode, fd: int) returns (server: FdNode)
      requires Represents()
      ensures Represents() && fresh(server) && server.fd == fd
      ensures ConnOf(server) == Conn(Server, Writing, Some(n), Some(c), None, 0, 0, NO_URL, [])
      ensures server !in state.conns && server !in state.nodes
    {
      hide CacheQueue.Valid, FdList.Valid, BuffersAre, Elements;
      server := new FdNode(null, null, fd, Server, Writing, c);
      server.proxied := n;
    }

    /** The client and its server point to each other, and the server joins the list. */
    method Link(n: FdNode, server: FdNode)
      requires Represents() && n in state.conns && |state.nodes| >= 2
      requires n != server && server !in state.conns && server !in state.nodes
      modifies this`state, list`nodes, n`proxied, server`prev, server`next, list.rear`prev, Neighbours(list.rear)`next
      ensures Represents()
      ensures state == Added(old(state).(conns := old(state).conns[n := old(state).conns[n].(partner := Some(server))]),
                             server, old(ConnOf(server)))
    {
      hide Represents, Added;
      NodesAre();
      SetProxied(n, server);
      NodesAre();
      Append(server);
    }

    /** The server knows the entry for the URL of its buffer, if there is one in the cache. */
    method KnowEntry(server: FdNode, c: CacheNode)
      requires Represents() && server in state.conns && c in state.bufs && Elements(state.slots) <= state.bufs.Keys
      modifies this`state, server`backup, server`flag
      ensures Represents()
      ensures var hit := Hit(old(state).slots, old(state).bufs, Key(old(state).bufs[c].info));
        state == old(state).(conns := old(state).conns[server :=
          old(state).conns[server].(backup := hit, flag := if hit.Some? then 1 else 2)])
    {
      hide Represents, Hit;
      var hit := Lookup(c);
      SetBackup(server, hit, if hit != null then 1 else 2);
    }

    /** A new server for a client that has read its request. */
    method Connect(n: FdNode, c: CacheNode, serverFd: int) returns (server: FdNode)
      requires Represents() && n in state.conns && c in state.bufs && n in Elements(state.nodes)
      requires |state.nodes| >= 2 && Elements(state.nodes) == state.conns.Keys && Elements(state.slots) <= state.bufs.Keys
      modifies Footprint()
      ensures Represents() && fresh(server) && server.fd == serverFd
      ensures state == Connected(old(state), n, c, server)
    {
      hide Represents, Hit, Connected, Added;
      BufferFields(c);
      RecordAsked(n, Key(c.info));
      server := NewServer(n, c, serverFd);
      ConnectedInSteps(old(state), n, c, server);
      RearIsInList();
      Link(n, server);
      KnowEntry(server, c);
    }

    /** The request is received, and parsed if its header ends in the buffer. */
    method StoreRequest(n: FdNode, chunk: seq<byte>)
      returns (c: CacheNode, request: Option<(string, string)>, ghost after: seq<byte>, ghost info: HttpInfo)
      requires Represents() && Is(state, n, Client, Reading) && |chunk| <= MAX_DATA_SIZE
      requires state.conns[n].offset <= |BufOf(state, n).bytes|
      modifies this`state, Around(n)
      ensures Represents() && old(state).conns[n].buf == Some(c)
      ensures Stores(BufOf(old(state), n).bytes, old(state).conns[n].offset, chunk, after)
      ensures request == RequestIn(after, BufOf(old(state), n).info.host, BufOf(old(state), n).info.path)
      ensures info == if request.Some? then BufOf(old(state), n).info.(host := request.value.0, path := request.value.1)
                      else BufOf(old(state), n).info
      ensures state == RequestStored(old(state), n, c, after, info)
    {
      hide Represents, Stores, RequestIn;
      Fields(n);
      c := n.cacheNode;
      BufferFields(c);
      RecvRequest(n, chunk);
      after := c.buffer;
      BufferFields(c);
      request := RequestIn(c.buffer, c.info.host, c.info.path);
      if request.Some? {
        SetInfo(c, c.info.(host := request.value.0, path := request.value.1));
      }
      info := c.info;
    }

    /** client_read_handler, for what connect returns */
    method ClientReadHandler(n: FdNode, chunk: seq<byte>, serverFd: Option<int>)
      returns (ghost after: seq<byte>, ghost request: Option<(string, string)>, ghost server: Option<FdNode>)
      requires Represents() && Inv(state) && Is(state, n, Client, Reading) && |chunk| <= MAX_DATA_SIZE
      modifies Footprint()
      ensures Represents() && fresh(Footprint() - old(Footprint()))
      ensures FdOf(server) == serverFd
      ensures Is(old(state), n, Client, Reading)
      ensures request == RequestIn(after, BufOf(old(state), n).info.host, BufOf(old(state), n).info.path)
      ensures Enabled(old(state), ReadRequest(n, chunk, after, request, server))
      ensures state == Step(old(state), ReadRequest(n, chunk, after, request, server))
    {
      hide Represents, Inv, Stores, RequestIn, RequestRead, Closed, Connected, RequestStored, ConnOf, Around, Step, Enabled;
      ghost var s, info := state, NO_INFO;
      ghost var k := IndexOf(s, n);
      ghost var d := ClientFacts(s, n);
      ListHasEnds(s);
      ClientSurroundings(n);
      var c, parsed;
      c, parsed, after, info := StoreRequest(n, chunk);
      request := parsed;
      StoredNames(s, n, c, after, info);
      if serverFd == None {
        server := None;
        NeighboursAreInList(n, k);
        ClosedNames(state, n);
        Drop(n, k);
      } else {
        var node := Connect(n, c, serverFd.value);
        ConnectedNames(RequestStored(s, n, c, after, info), n, c, node);
        server := Some(node);
      }
      RequestReadInSteps(s, n, c, after, request, info, server);
      ReadRequestIsEnabled(s, n, c, chunk, after, request, server);
    }
  }
}
