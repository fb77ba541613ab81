/**
  The state machine of the caching proxy: connections, buffers and cache queue as values, and what each
  handler does to them. The connections and the buffers go by names of any type.
 */
module ProxyModel {
  import opened Bytes
  import opened Options
  import opened ProxyTypes
  import opened FdLists
  import opened CacheQueues

  /**
    A socket that select watches: partner links a client and the server that works for it. asked is the URL
    that a client's request was for, output what has been written to the client.
   */
  datatype Conn<N, C> = Conn(
    kind: FdType, status: NodeStatus, partner: Option<N>, buf: Option<C>, backup: Option<C>,
    offset: nat, flag: int, asked: (string, string), output: seq<byte>)

  /**
    A buffer that serves for a request, then for the response, and then as cached document. response is what
    a server has sent into it, closed says that the server has sent all, owner is the client it was made for.
   */
  datatype Buf<N> = Buf(bytes: seq<byte>, info: HttpInfo, response: seq<byte>, closed: bool, owner: Option<N>)

  /**
    The list of connections between its two dummies, and the cache queue from its front. cached holds every
    buffer that is or was in the queue; orphans are those that hold a bare 304 answer, because the
    entry that it confirms was evicted before it came.
   */
  datatype State<N, C> = State(
    nodes: seq<N>, conns: map<N, Conn<N, C>>, slots: seq<C>, cached: set<C>, orphans: set<C>, bufs: map<C, Buf<N>>)

  /**
    The nodes that cache_dequeue has freed: all that were in the queue and no longer are, since no handler
    marks a node as in use. What is recorded of such a buffer says nothing about the memory any more.
   */
  ghost function Freed<N, C>(s: State<N, C>): set<C> {
    s.cached - Elements(s.slots)
  }

  datatype ResponseHead = ResponseHead(notModified: bool, date: string)

  datatype Event<N, C> =
    | Accept(client: N, buf: C)
    | ReadRequest(n: N, chunk: seq<byte>, after: seq<byte>, request: Option<(string, string)>, server: Option<N>)
    | WriteRequest(n: N, count: nat)
    | ReadResponse(n: N, chunk: seq<byte>, after: seq<byte>, head: ResponseHead)
    | WriteResponse(n: N, count: nat)

  // ---- the buffer of a node ----

  /** Where a chunk does not leave a byte to spare, the buffer grows. */
  function GrownSize(size: nat, offset: nat, n: nat): nat {
    if size <= offset + n then size + MAX_DATA_SIZE else size
  }

  /** A chunk was stored at the offset; the bytes in front of it and the old bytes behind it are as before. */
  ghost predicate Stores(before: seq<byte>, offset: nat, chunk: seq<byte>, after: seq<byte>) {
    && offset <= |before| && |chunk| <= MAX_DATA_SIZE
    && |after| == GrownSize(|before|, offset, |chunk|)
    && after[..offset + |chunk|] == before[..offset] + chunk
    && (forall i | offset + |chunk| <= i < |before| :: after[i] == before[i])
  }

  /** How much one send may take. */
  function SendSize(size: nat, offset: nat): nat {
    if size <= offset then 0 else if size - offset > MAX_DATA_SIZE then MAX_DATA_SIZE else size - offset
  }

  // ---- the handlers ----

  /** A connection of this kind and status is in the list, and its buffer is known. */
  predicate Is<N, C>(s: State<N, C>, n: N, kind: FdType, status: NodeStatus) {
    && n in s.conns && s.conns[n].kind == kind && s.conns[n].status == status
    && s.conns[n].buf.Some? && s.conns[n].buf.value in s.bufs
  }

  function BufOf<N, C>(s: State<N, C>, n: N): Buf<N>
    requires n in s.conns && s.conns[n].buf.Some? && s.conns[n].buf.value in s.bufs
  {
    s.bufs[s.conns[n].buf.value]
  }

  /** What the environment of the handlers guarantees: new names are new, and recv and send respect their sizes. */
  ghost predicate Enabled<N, C>(s: State<N, C>, e: Event<N, C>) {
    match e
    case Accept(client, buf) => |s.nodes| >= 2 && client !in s.conns && buf !in s.bufs
    case ReadRequest(n, chunk, after, request, server) =>
      && Is(s, n, Client, Reading) && Stores(BufOf(s, n).bytes, s.conns[n].offset, chunk, after)
      && (server.Some? ==> server.value !in s.conns)
      && |s.nodes| >= 2 && n in s.nodes && n != s.nodes[|s.nodes| - 1]
    case WriteRequest(n, count) =>
      Is(s, n, Server, Writing) && count <= SendSize(|BufOf(s, n).bytes|, s.conns[n].offset)
    case ReadResponse(n, chunk, after, head) =>
      && Is(s, n, Server, Reading) && Stores(BufOf(s, n).bytes, s.conns[n].offset, chunk, after)
      && n in s.nodes && s.slots != []
    case WriteResponse(n, count) =>
      Is(s, n, Client, Writing) && n in s.nodes && count <= SendSize(|BufOf(s, n).bytes|, s.conns[n].offset)
  }

  function Without<T(==)>(s: seq<T>, x: T): seq<T> {
    if s == [] then [] else (if s[0] == x then [] else [s[0]]) + Without(s[1..], x)
  }

  /** fd_list_remove and free: the connection is gone. */
  function Closed<N, C>(s: State<N, C>, n: N): State<N, C> {
    s.(nodes := Without(s.nodes, n), conns := s.conns - {n})
  }

  function Added<N, C>(s: State<N, C>, n: N, conn: Conn<N, C>): State<N, C>
    requires |s.nodes| >= 1
  {
    s.(nodes := InsertBeforeLast(s.nodes, n), conns := s.conns[n := conn])
  }

  /** The first complete entry of the queue for a URL. */
  function Hit<N, C>(slots: seq<C>, bufs: map<C, Buf<N>>, key: (string, string)): Option<C> {
    if slots == [] then None
    else if slots[0] in bufs && bufs[slots[0]].info.complete && Key(bufs[slots[0]].info) == key then Some(slots[0])
    else Hit(slots[1..], bufs, key)
  }

  /** listen_fd_handler */
  function Accepted<N, C>(s: State<N, C>, client: N, buf: C): State<N, C>
    requires |s.nodes| >= 1
  {
    Added(s.(bufs := s.bufs[buf := Buf(Zeros(INITIAL_BUFFER), NO_INFO, [], false, Some(client))]),
          client, Conn(Client, Reading, None, Some(buf), None, 0, 0, NO_URL, []))
  }

  /** A server that is to be written the request of a client, conditional if there is an entry for its URL. */
  function NewServer<N, C>(client: N, c: C, hit: Option<C>): Conn<N, C> {
    Conn(Server, Writing, Some(client), Some(c), hit, 0, if hit.Some? then 1 else 2, NO_URL, [])
  }

  /**
    client_read_handler: the request is in the buffer; without a connection to its host the client
    is dropped, with one it waits for a new server node, which uses the client's buffer.
   */
  function RequestRead<N, C>(s: State<N, C>, n: N, after: seq<byte>, request: Option<(string, string)>, server: Option<N>)
    : State<N, C>
    requires n in s.conns && s.conns[n].buf.Some? && s.conns[n].buf.value in s.bufs && |s.nodes| >= 1
  {
    var c := s.conns[n].buf.value;
    var info := if request.Some? then s.bufs[c].info.(host := request.value.0, path := request.value.1) else s.bufs[c].info;
    var s1 := s.(bufs := s.bufs[c := s.bufs[c].(bytes := after, info := info)]);
    if server.None? then Closed(s1, n)
    else
      var hit := Hit(s1.slots, s1.bufs, Key(info));
      var waiting := s.conns[n].(status := Idle, offset := 0, partner := server, asked := Key(info));
      Added(s1.(conns := s1.conns[n := waiting]), server.value, NewServer(n, c, hit))
  }

  /** cache_send */
  function Sent<N, C>(conn: Conn<N, C>, bytes: seq<byte>, count: nat): Conn<N, C>
    requires conn.offset + count <= |bytes|
  {
    var output := if conn.kind == Client then conn.output + bytes[conn.offset..conn.offset + count] else conn.output;
    if conn.offset + count >= |bytes| then conn.(status := Idle, offset := 0, output := output)
    else conn.(offset := conn.offset + count, output := output)
  }

  /** server_write_handler */
  function RequestWritten<N, C>(s: State<N, C>, n: N, count: nat): State<N, C>
    requires n in s.conns && s.conns[n].buf.Some? && s.conns[n].buf.value in s.bufs
  {
    var conn := s.conns[n];
    if conn.offset + count >= |BufOf(s, n).bytes| then s.(conns := s.conns[n := conn.(status := Reading, offset := 0)])
    else s.(conns := s.conns[n := conn.(offset := conn.offset + count)])
  }

  /** A conditional request was answered 304 at the first read. */
  predicate Confirmed<N, C>(s: State<N, C>, n: N, head: ResponseHead)
    requires n in s.conns && s.conns[n].buf.Some? && s.conns[n].buf.value in s.bufs
  {
    && !BufOf(s, n).info.complete && s.conns[n].flag == 1 && head.notModified
    && s.conns[n].backup.Some? && s.conns[n].backup.value in s.bufs
  }

  /** The header of the first read goes into the buffer's info, and a confirmed entry gets the new date. */
  function HeadRead<N, C>(s: State<N, C>, n: N, chunk: seq<byte>, after: seq<byte>, head: ResponseHead): map<C, Buf<N>>
    requires n in s.conns && s.conns[n].buf.Some? && s.conns[n].buf.value in s.bufs
  {
    var c, conn := s.conns[n].buf.value, s.conns[n];
    var buf := s.bufs[c];
    var info := if buf.info.complete then buf.info else buf.info.(date := head.date, complete := true);
    var bufs := s.bufs[c := Buf(after, info, buf.response + chunk, chunk == [], buf.owner)];
    if Confirmed(s, n, head) then
      var entry := bufs[conn.backup.value];
      bufs[conn.backup.value := entry.(info := entry.info.(date := info.date))]
    else bufs
  }

  /** A server whose client is another connection and whose cached entry, if it knows one, is another buffer. */
  predicate CanReceive<N, C>(s: State<N, C>, n: N) {
    && Is(s, n, Server, Reading) && s.conns[n].offset <= |BufOf(s, n).bytes|
    && s.conns[n].partner.Some? && s.conns[n].partner.value in s.conns && s.conns[n].partner != Some(n)
    && s.conns[n].backup != s.conns[n].buf
    && (s.conns[n].flag == 1 ==> s.conns[n].backup.Some? && s.conns[n].backup.value in s.bufs)
  }

  /** parse_response and the 304 branch, once the chunk is in the buffer */
  function Headed<N, C>(s: State<N, C>, n: N, head: ResponseHead): State<N, C>
    requires n in s.conns && s.conns[n].buf.Some? && s.conns[n].buf.value in s.bufs && s.conns[n].partner.Some?
    requires s.conns[n].partner.value in s.conns
  {
    var c, conn := s.conns[n].buf.value, s.conns[n];
    if s.bufs[c].info.complete then s
    else
      var bufs := s.bufs[c := s.bufs[c].(info := s.bufs[c].info.(date := head.date, complete := true))];
      if Confirmed(s, n, head) && conn.backup.value in bufs then
        var b, p := conn.backup.value, conn.partner.value;
        s.(bufs := bufs[b := bufs[b].(info := bufs[b].info.(date := head.date))],
           conns := s.conns[p := s.conns[p].(buf := conn.backup)][n := conn.(status := Idle, offset := 0)])
      else s.(bufs := bufs)
  }

  /** cache_recv for a server: its buffer and, if confirmed, its client's, and how far it is. */
  function Received<N, C>(s: State<N, C>, n: N, chunk: seq<byte>, after: seq<byte>, head: ResponseHead): State<N, C>
    requires n in s.conns && s.conns[n].buf.Some? && s.conns[n].buf.value in s.bufs
  {
    var conn, confirmed := s.conns[n], Confirmed(s, n, head);
    var conns :=
      if confirmed && conn.partner.Some? && conn.partner.value in s.conns
      then s.conns[conn.partner.value := s.conns[conn.partner.value].(buf := conn.backup)]
      else s.conns;
    var conn' :=
      if chunk == [] || confirmed then conn.(status := Idle, offset := 0) else conn.(offset := conn.offset + |chunk|);
    s.(bufs := HeadRead(s, n, chunk, after, head), conns := conns[n := conn'])
  }

  /**
    server_read_handler: at the end of the response, or on a 304, the waiting client is to be written to,
    the buffer is cached unless there is an entry for its URL, and the server is dropped.
   */
  function ResponseRead<N, C>(s: State<N, C>, n: N, chunk: seq<byte>, after: seq<byte>, head: ResponseHead): State<N, C>
    requires n in s.conns && s.conns[n].buf.Some? && s.conns[n].buf.value in s.bufs && s.slots != []
  {
    var c, conn, confirmed := s.conns[n].buf.value, s.conns[n], Confirmed(s, n, head);
    var s1 := s.(bufs := HeadRead(s, n, chunk, after, head));
    if chunk == [] || confirmed then
      var hit := Hit(s1.slots, s1.bufs, Key(s1.bufs[c].info));
      var s2 := if hit.Some? then s1 else
        s1.(slots := Enqueued(s1.slots, c), cached := s1.cached + {c},
            orphans := if chunk == [] then s1.orphans else s1.orphans + {c});
      Closed(Answered(s2, conn, if confirmed then conn.backup else Some(c)), n)
    else s1.(conns := s1.conns[n := conn.(offset := conn.offset + |chunk|)])
  }

  /** The client of a server is to be written what is in the buffer. */
  function Answered<N, C>(s: State<N, C>, server: Conn<N, C>, buf: Option<C>): State<N, C> {
    if server.partner.Some? && server.partner.value in s.conns then
      var client := s.conns[server.partner.value];
      s.(conns := s.conns[server.partner.value := client.(status := Writing, buf := buf)])
    else s
  }

  /** client_write_handler */
  function ResponseWritten<N, C>(s: State<N, C>, n: N, count: nat): State<N, C>
    requires n in s.conns && s.conns[n].buf.Some? && s.conns[n].buf.value in s.bufs
  {
    var conn, bytes := s.conns[n], BufOf(s, n).bytes;
    var offset := conn.offset + count;
    if offset >= |bytes| then Closed(s, n)
    else s.(conns := s.conns[n := conn.(offset := offset, output := conn.output + bytes[conn.offset..offset])])
  }

  function Step<N, C>(s: State<N, C>, e: Event<N, C>): State<N, C>
    requires Enabled(s, e)
  {
    match e
    case Accept(client, buf) => Accepted(s, client, buf)
    case ReadRequest(n, _, after, request, server) => RequestRead(s, n, after, request, server)
    case WriteRequest(n, count) => RequestWritten(s, n, count)
    case ReadResponse(n, chunk, after, head) => ResponseRead(s, n, chunk, after, head)
    case WriteResponse(n, count) => ResponseWritten(s, n, count)
  }
}
