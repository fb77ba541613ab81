/** Properties of every run of the proxy, and of the states that it can reach. */
module ProxySafety {
  import opened Bytes
  import opened Options
  import opened ProxyTypes
  import opened CacheQueues
  import opened ProxyModel
  import opened ProxyInvariant

  /** The proxy when it enters its loop: two dummies around the listening socket, and a cache of dummy entries. */
  ghost predicate Initial<N, C>(s: State<N, C>) {
    && |s.nodes| == 3 && Distinct(s.nodes) && s.conns.Keys == Elements(s.nodes)
    && (forall i | 0 <= i < 3 ::
          var conn := s.conns[s.nodes[i]];
          && (if i == 1 then conn.kind == Listen && conn.status == Reading else conn.kind == Dummy && conn.status == Idle)
          && conn.buf == None && conn.backup == None)
    && s.slots != [] && Distinct(s.slots) && s.cached == Elements(s.slots) == s.bufs.Keys && s.orphans == {}
    && (forall c | c in s.bufs :: !s.bufs[c].info.complete)
  }

  lemma InitialInv<N, C>(s: State<N, C>)
    requires Initial(s)
    ensures Inv(s)
  {
    assert forall n | n in s.conns :: exists i :: 0 <= i < 3 && n == s.nodes[i];
    assert forall i | 0 <= i < |s.slots| :: s.slots[i] in Elements(s.slots);
  }

  /** The events lead from one state to the other, each of them possible when it happens. */
  ghost predicate Reaches<N, C>(s: State<N, C>, events: seq<Event<N, C>>, s': State<N, C>)
    decreases |events|
  {
    if events == [] then s' == s
    else Enabled(s, events[0]) && Reaches(Step(s, events[0]), events[1..], s')
  }

  lemma {:induction false} RunKeepsInv<N, C>(s: State<N, C>, events: seq<Event<N, C>>, s': State<N, C>)
    requires Inv(s) && Reaches(s, events, s')
    ensures Inv(s')
    decreases |events|
  {
    if events != [] {
      StepKeepsInv(s, events[0]);
      RunKeepsInv(Step(s, events[0]), events[1..], s');
    }
  }

  /** A run followed by another. */
  lemma {:induction false} ReachesConcat<N, C>(s: State<N, C>, first: seq<Event<N, C>>, t: State<N, C>,
                                               second: seq<Event<N, C>>, u: State<N, C>)
    requires Reaches(s, first, t) && Reaches(t, second, u)
    ensures Reaches(s, first + second, u)
    decreases |first|
  {
    hide Step, Enabled;
    if first == [] {
      assert first + second == second;
    } else {
      assert (first + second)[1..] == first[1..] + second;
      ReachesConcat(Step(s, first[0]), first[1..], t, second, u);
    }
  }

  // ---- pairing ----

  function Servers<N, C>(s: State<N, C>): set<N> {
    set n | n in s.conns && s.conns[n].kind == Server
  }

  function Waiting<N, C>(s: State<N, C>): set<N> {
    set n | n in s.conns && s.conns[n].kind == Client && s.conns[n].status == Idle
  }

  function Partner<N, C>(s: State<N, C>, n: N): N
    requires n in s.conns
  {
    if s.conns[n].partner.Some? then s.conns[n].partner.value else n
  }

  /** A map that takes the elements of one set to those of another and back. */
  lemma {:induction false} SameSize<N>(a: set<N>, b: set<N>, f: map<N, N>, g: map<N, N>)
    requires f.Keys == a && g.Keys == b
    requires forall x | x in a :: f[x] in b && g[f[x]] == x
    requires forall y | y in b :: g[y] in a && f[g[y]] == y
    ensures |a| == |b|
    decreases a
  {
    if a == {} {
      assert b == {} by {
        if y :| y in b {
          assert g[y] in a;
        }
      }
    } else {
      var x :| x in a;
      SameSize(a - {x}, b - {f[x]}, f - {x}, g - {f[x]});
    }
  }

  /** In every reachable state servers and waiting clients correspond one to one, by links in both directions. */
  lemma ServersMatchWaitingClients<N, C>(s: State<N, C>)
    requires Inv(s)
    ensures forall v | v in Servers(s) ::
      && s.conns[v].partner.Some? && s.conns[v].partner.value in Waiting(s)
      && s.conns[s.conns[v].partner.value].partner == Some(v)
    ensures forall p | p in Waiting(s) ::
      && s.conns[p].partner.Some? && s.conns[p].partner.value in Servers(s)
      && s.conns[s.conns[p].partner.value].partner == Some(p)
    ensures |Servers(s)| == |Waiting(s)|
  {
    var f := map v | v in Servers(s) :: Partner(s, v);
    var g := map p | p in Waiting(s) :: Partner(s, p);
    forall n | n in s.conns
      ensures n in Servers(s) ==> f[n] in Waiting(s) && g[f[n]] == n
      ensures n in Waiting(s) ==> g[n] in Servers(s) && f[g[n]] == n
    {
      assert HasPartner(s.conns, n);
    }
    SameSize(Servers(s), Waiting(s), f, g);
  }

  // ---- documents ----

  /** What a client of the cache can see of an entry, but for its date. */
  ghost predicate SameDocument<N>(a: Buf<N>, b: Buf<N>) {
    a.bytes == b.bytes && a.response == b.response && a.closed == b.closed
    && Key(a.info) == Key(b.info) && a.info.complete == b.info.complete
  }

  /** The buffer that a handler stores a chunk in. */
  function Filled<N, C>(s: State<N, C>, e: Event<N, C>): Option<C>
    requires Enabled(s, e)
  {
    match e
    case ReadRequest(n, _, _, _, _) => s.conns[n].buf
    case ReadResponse(n, _, _, _) => s.conns[n].buf
    case _ => None
  }

  /** The buffers after a handler, in one map. */
  lemma BuffersAfter<N, C>(s: State<N, C>, e: Event<N, C>)
    requires Enabled(s, e)
    ensures match e
      case Accept(_, buf) => s.bufs.Keys <= Step(s, e).bufs.Keys && forall c | c in s.bufs :: Step(s, e).bufs[c] == s.bufs[c]
      case ReadRequest(n, _, _, _, _) =>
        s.bufs.Keys <= Step(s, e).bufs.Keys && forall c | c in s.bufs && s.conns[n].buf != Some(c) :: Step(s, e).bufs[c] == s.bufs[c]
      case ReadResponse(n, chunk, after, head) => Step(s, e).bufs == HeadRead(s, n, chunk, after, head)
      case _ => Step(s, e).bufs == s.bufs
  {
  }

  lemma StepTouchesOnlyFilled<N, C>(s: State<N, C>, e: Event<N, C>, c: C)
    requires Enabled(s, e) && c in s.bufs && Filled(s, e) != Some(c)
    ensures c in Step(s, e).bufs && SameDocument(s.bufs[c], Step(s, e).bufs[c])
  {
    BuffersAfter(s, e);
    if e.ReadResponse? {
      HeadTouchesOnlyFilled(s, e.n, e.chunk, e.after, e.head, c);
    }
  }

  lemma HeadTouchesOnlyFilled<N, C>(s: State<N, C>, n: N, chunk: seq<byte>, after: seq<byte>, head: ResponseHead, c: C)
    requires n in s.conns && s.conns[n].buf.Some? && s.conns[n].buf.value in s.bufs
    requires c in s.bufs && s.conns[n].buf != Some(c)
    ensures c in HeadRead(s, n, chunk, after, head) && SameDocument(s.bufs[c], HeadRead(s, n, chunk, after, head)[c])
  {
  }

  lemma FilledIsNotCached<N, C>(s: State<N, C>, e: Event<N, C>)
    requires Inv(s) && Enabled(s, e) && Filled(s, e).Some?
    ensures Filled(s, e).value !in s.cached
  {
    match e
    case ReadRequest(n, chunk, after, request, server) =>
      FillingIsExclusive(s, n, s.nodes[0]);
    case ReadResponse(n, chunk, after, head) =>
      var p, c := ServerOfRead(s, n, chunk, after);
  }

  /**
    No handler writes to a buffer that is or was in the cache, but for the date of an entry. (Of a node that is
    freed this says nothing about the memory.)
   */
  lemma StepKeepsRecords<N, C>(s: State<N, C>, e: Event<N, C>)
    requires Inv(s) && Enabled(s, e)
    ensures s.cached <= Step(s, e).cached
    ensures forall c | c in s.cached :: c in s.bufs && c in Step(s, e).bufs && SameDocument(s.bufs[c], Step(s, e).bufs[c])
  {
    forall c | c in s.cached
      ensures c in s.bufs && c in Step(s, e).bufs && SameDocument(s.bufs[c], Step(s, e).bufs[c])
    {
      if Filled(s, e).Some? {
        FilledIsNotCached(s, e);
      }
      StepTouchesOnlyFilled(s, e, c);
    }
  }

  lemma {:induction false} RunKeepsRecords<N, C>(s: State<N, C>, events: seq<Event<N, C>>, s': State<N, C>)
    requires Inv(s) && Reaches(s, events, s')
    ensures s.cached <= s'.cached
    ensures forall c | c in s.cached :: c in s.bufs && c in s'.bufs && SameDocument(s.bufs[c], s'.bufs[c])
    decreases |events|
  {
    if events != [] {
      StepKeepsRecords(s, events[0]);
      StepKeepsInv(s, events[0]);
      RunKeepsRecords(Step(s, events[0]), events[1..], s');
    }
  }

  /**
    No partial document: an entry that a lookup finds starts with everything that a server sent before it
    closed the connection, unless it is a 304 answer whose entry was evicted while the answer was awaited.
   */
  lemma EntriesAreWhole<N, C>(s: State<N, C>, key: (string, string))
    requires Inv(s)
    ensures var hit := Hit(s.slots, s.bufs, key);
      hit.Some? ==>
        && hit.value in s.bufs && Key(s.bufs[hit.value].info) == key
        && s.bufs[hit.value].response <= s.bufs[hit.value].bytes
        && (s.bufs[hit.value].closed || hit.value in s.orphans)
  {
    HitFacts(s.slots, s.bufs, key);
    var hit := Hit(s.slots, s.bufs, key);
    if hit.Some? {
      assert hit.value in Elements(s.slots);
      assert Whole(hit.value, s.bufs[hit.value], s.orphans);
    }
  }

  /** A lookup finds the only entry for the URL, if there is one, wherever in the queue it is. */
  lemma HitIsTheOnlyEntry<N, C>(s: State<N, C>, key: (string, string), c: C)
    requires Inv(s)
    ensures Hit(s.slots, s.bufs, key) == Some(c) <==>
      c in s.slots && c in s.bufs && s.bufs[c].info.complete && Key(s.bufs[c].info) == key
  {
    HitFacts(s.slots, s.bufs, key);
    var hit := Hit(s.slots, s.bufs, key);
    if c in s.slots && c in s.bufs && s.bufs[c].info.complete && Key(s.bufs[c].info) == key {
      var i :| 0 <= i < |s.slots| && s.slots[i] == c;
      var j :| 0 <= j < |s.slots| && s.slots[j] == hit.value;
      assert forall k | 0 <= k < |s.slots| :: s.slots[k] in Elements(s.slots);
      assert i == j;
    }
  }

  // ---- what a client gets ----

  /** No handler stores into the buffer that a client is being sent. */
  lemma FilledIsNotServed<N, C>(s: State<N, C>, e: Event<N, C>, n: N)
    requires Inv(s) && Enabled(s, e) && Is(s, n, Client, Writing)
    ensures Filled(s, e) != s.conns[n].buf
  {
    match e
    case ReadRequest(m, chunk, after, request, server) =>
      FillingIsExclusive(s, m, n);
    case ReadResponse(m, chunk, after, head) =>
      var p, c := ServerOfRead(s, m, chunk, after);
      FillingIsExclusive(s, p, n);
    case _ =>
  }

  /** A connection that a handler is not called for, and whose server is not, stays as it is or stays away. */
  lemma StepKeepsServedConn<N, C>(s: State<N, C>, e: Event<N, C>, n: N)
    requires Inv(s) && Enabled(s, e) && Is(s, n, Client, Writing) && !(e.WriteResponse? && e.n == n)
    ensures n in Step(s, e).conns && Step(s, e).conns[n] == s.conns[n]
  {
    if e.ReadResponse? {
      var p, c := ServerOfRead(s, e.n, e.chunk, e.after);
    }
  }
}
