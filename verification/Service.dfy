/** Who is served in a pass of the proxy's main loop: every node that is ready when the pass reaches it, and no other. */
module Service {
  import opened Bytes
  import opened Options
  import opened ProxyTypes
  import opened CacheQueues
  import opened ProxyModel
  import opened ProxySafety
  import opened Proxies
  import opened EventLoop

  // ---- which nodes are visited ----

  /** Elements that are kept stay in their order. */
  lemma {:induction false} OnlyIsInOrder<T>(s: seq<T>, keep: set<T>, a: nat, b: nat) returns (i: nat, j: nat)
    requires a < b < |Only(s, keep)|
    ensures i < j < |s| && s[i] == Only(s, keep)[a] && s[j] == Only(s, keep)[b]
  {
    if s[0] in keep {
      j := OnlyAt(s[1..], keep, b - 1);
      if a == 0 {
        i, j := 0, j + 1;
      } else {
        i, j := OnlyIsInOrder(s[1..], keep, a - 1, b - 1);
        i, j := i + 1, j + 1;
      }
    } else {
      i, j := OnlyIsInOrder(s[1..], keep, a, b);
      i, j := i + 1, j + 1;
    }
  }

  lemma {:induction false} OnlyAt<T>(s: seq<T>, keep: set<T>, a: nat) returns (i: nat)
    requires a < |Only(s, keep)|
    ensures i < |s| && s[i] == Only(s, keep)[a]
  {
    if s[0] in keep {
      if a == 0 {
        i := 0;
      } else {
        i := OnlyAt(s[1..], keep, a - 1);
        i := i + 1;
      }
    } else {
      i := OnlyAt(s[1..], keep, a);
      i := i + 1;
    }
  }

  lemma {:induction false} KeptIn<T>(s: seq<T>, keep: set<T>, i: nat)
    requires i < |s| && s[i] in keep
    ensures s[i] in Only(s, keep)
  {
    if i > 0 {
      KeptIn(s[1..], keep, i - 1);
    }
  }

  /** What is kept once was there once. */
  lemma {:induction false} KeptOnce<T>(s: seq<T>, keep: set<T>, i: nat, j: nat)
    requires i < j < |s| && s[i] == s[j] && s[i] in keep
    ensures !Distinct(Only(s, keep))
  {
    if i > 0 {
      KeptOnce(s[1..], keep, i - 1, j - 1);
      var only, rest := Only(s, keep), Only(s[1..], keep);
      var x, y :| 0 <= x < y < |rest| && rest[x] == rest[y];
      var d := |only| - |rest|;
      assert only[x + d] == only[y + d];
    } else {
      KeptIn(s[1..], keep, j - 1);
      var only, rest := Only(s, keep), Only(s[1..], keep);
      var y :| 0 <= y < |rest| && rest[y] == s[0];
      assert only[0] == only[y + 1];
    }
  }

  /** Of two nodes of the list the first is visited before the second. */
  lemma VisitsAreInOrder(pass: Pass, a: nat, b: nat) returns (i: nat, j: nat)
    requires IsPass(pass) && a < b < |pass.before.nodes|
    ensures i < j < |pass.trace|
    ensures pass.trace[i].node == pass.before.nodes[a] && pass.trace[j].node == pass.before.nodes[b]
  {
    hide IsTrace, Reaches, EventsOf, Only;
    i, j := OnlyIsInOrder(NodesOf(pass.trace), Elements(pass.before.nodes), a, b);
  }

  /** Every node of the list is visited, and only once. */
  lemma EachIsVisitedOnce(pass: Pass, a: nat) returns (i: nat)
    requires IsPass(pass) && Distinct(pass.before.nodes) && a < |pass.before.nodes|
    ensures i < |pass.trace| && pass.trace[i].node == pass.before.nodes[a]
    ensures forall j | 0 <= j < |pass.trace| && j != i :: pass.trace[j].node != pass.before.nodes[a]
  {
    hide IsTrace, Reaches, EventsOf, Only;
    var visited, keep := NodesOf(pass.trace), Elements(pass.before.nodes);
    i := OnlyAt(visited, keep, a);
    forall j | 0 <= j < |pass.trace| && j != i
      ensures pass.trace[j].node != pass.before.nodes[a]
    {
      if visited[j] == visited[i] {
        assert visited[i] in keep;
        KeptOnce(visited, keep, if i < j then i else j, if i < j then j else i);
      }
    }
  }

  // ---- what a visit does ----

  /** How much of what a socket would take can be sent: at most 1500 bytes, and no more than the buffer has left. */
  function AtMost(count: nat, size: nat, offset: nat): nat {
    if size <= offset then 0
    else if count <= 1500 && count <= size - offset then count
    else if size - offset > 1500 then 1500
    else size - offset
  }

  lemma TakenIs(s: State<FdNode, CacheNode>, n: FdNode, count: nat)
    requires n in s.conns && s.conns[n].buf.Some? && s.conns[n].buf.value in s.bufs
    ensures Taken(s, n, count) == AtMost(count, |BufOf(s, n).bytes|, s.conns[n].offset)
  {
  }

  /** The listening socket: a connection is accepted if there is one. */
  lemma ListenerIsServedIff(pass: Pass, i: nat)
    requires IsPass(pass) && i < |pass.trace|
    requires var n, t := pass.trace[i].node, pass.trace[i].before; n in t.conns && t.conns[n].kind == Listen
    ensures var n, o, events := pass.trace[i].node, pass.select.outcomes(i), pass.trace[i].events;
      if n.fd in pass.select.readable && o.fd.Some?
      then |events| == 1 && events[0].Accept? && events[0].client.fd == o.fd.value
      else events == []
  {
    hide Only, Reaches, EventsOf, NodesOf;
    VisitIs(pass, i);
  }

  lemma VisitIs(pass: Pass, i: nat)
    requires IsPass(pass) && i < |pass.trace|
    ensures IsVisit(pass.select, pass.select.outcomes(i), pass.trace[i], StateAt(pass.before, pass.trace, i))
  {
    hide Only, Reaches, EventsOf, NodesOf, IsVisit, StateAt;
  }

  /** A client: its request is read, or it is sent as much of the response as its socket takes. */
  lemma ClientIsServedIff(pass: Pass, i: nat)
    requires IsPass(pass) && i < |pass.trace|
    requires var n, t := pass.trace[i].node, pass.trace[i].before; n in t.conns && t.conns[n].kind == Client
    ensures var n, t, o, events := pass.trace[i].node, pass.trace[i].before, pass.select.outcomes(i), pass.trace[i].events;
      var conn := t.conns[n];
      if conn.status == Reading && n.fd in pass.select.readable then
        |events| == 1 && events[0].ReadRequest? && events[0].n == n && events[0].chunk == o.chunk
        && (events[0].server.Some? <==> o.fd.Some?) && (o.fd.Some? ==> events[0].server.value.fd == o.fd.value)
      else if conn.status == Writing && n.fd in pass.select.writable then
        conn.buf.Some? && conn.buf.value in t.bufs
        && events == [WriteResponse(n, AtMost(o.count, |t.bufs[conn.buf.value].bytes|, conn.offset))]
      else events == []
  {
    hide Only, Reaches, EventsOf, NodesOf, AtMost, Taken;
    VisitIs(pass, i);
    var n, t := pass.trace[i].node, pass.trace[i].before;
    if t.conns[n].buf.Some? && t.conns[n].buf.value in t.bufs {
      TakenIs(t, n, pass.select.outcomes(i).count);
    }
  }

  /** A server: it is sent as much of the request as its socket takes, or its response is read. */
  lemma ServerIsServedIff(pass: Pass, i: nat)
    requires IsPass(pass) && i < |pass.trace|
    requires var n, t := pass.trace[i].node, pass.trace[i].before; n in t.conns && t.conns[n].kind == Server
    ensures var n, t, o, events := pass.trace[i].node, pass.trace[i].before, pass.select.outcomes(i), pass.trace[i].events;
      var conn := t.conns[n];
      if conn.status == Reading && n.fd in pass.select.readable then
        |events| == 1 && events[0].ReadResponse? && events[0].n == n && events[0].chunk == o.chunk && events[0].head == o.head
      else if conn.status == Writing && n.fd in pass.select.writable then
        conn.buf.Some? && conn.buf.value in t.bufs
        && events == [WriteRequest(n, AtMost(o.count, |t.bufs[conn.buf.value].bytes|, conn.offset))]
      else events == []
  {
    hide Only, Reaches, EventsOf, NodesOf, AtMost, Taken;
    VisitIs(pass, i);
    var n, t := pass.trace[i].node, pass.trace[i].before;
    if t.conns[n].buf.Some? && t.conns[n].buf.value in t.bufs {
      TakenIs(t, n, pass.select.outcomes(i).count);
    }
  }

  // ---- the events of a pass ----

  /** The events of a visit are among those of the pass, behind those of the visits before it. */
  lemma {:induction false} EventsOfVisit(trace: seq<Visit>, i: nat) returns (rest: seq<Event<FdNode, CacheNode>>)
    requires i < |trace|
    ensures EventsOf(trace) == EventsOf(trace[..i]) + trace[i].events + rest
    decreases |trace|
  {
    var last := |trace| - 1;
    if i == last {
      rest := [];
    } else {
      var more := EventsOfVisit(trace[..last], i);
      assert trace[..last][..i] == trace[..i];
      rest := more + trace[last].events;
    }
  }

  /** Whoever is in the list when a pass begins is live when the pass reaches it, and what its visit does is done. */
  lemma ListedAreServed(pass: Pass, a: nat) returns (i: nat, rest: seq<Event<FdNode, CacheNode>>)
    requires IsPass(pass) && Distinct(pass.before.nodes) && a < |pass.before.nodes|
    ensures i < |pass.trace| && pass.trace[i].node == pass.before.nodes[a] && pass.trace[i].node in pass.trace[i].before.conns
    ensures Reaches(pass.before, EventsOf(pass.trace[..i]), pass.trace[i].before)
    ensures EventsOf(pass.trace) == EventsOf(pass.trace[..i]) + pass.trace[i].events + rest
  {
    hide IsPass, EventsOf, Reaches;
    i := EachIsVisitedOnce(pass, a);
    rest := EventsOfVisit(pass.trace, i);
    IsLive(pass, i);
    ReachedBefore(pass, i);
  }

  lemma IsLive(pass: Pass, i: nat)
    requires IsPass(pass) && i < |pass.trace|
    ensures pass.trace[i].node in pass.trace[i].before.conns
    ensures pass.trace[i].before == StateAt(pass.before, pass.trace, i)
  {
    hide IsPass, Reaches, StateAt, IsListenerServed, IsClientServed, IsServerServed;
    VisitIs(pass, i);
  }

  /** The events of the visits before one lead to the state in front of it. */
  lemma {:induction false} ReachedBefore(pass: Pass, i: nat)
    requires IsPass(pass) && i <= |pass.trace|
    ensures Reaches(pass.before, EventsOf(pass.trace[..i]), StateAt(pass.before, pass.trace, i))
  {
    hide IsPass, IsServed, EventsOf, Reaches;
    FirstEvents(pass.trace, i);
    if i == 0 {
      NoEvents(pass.before);
    } else {
      ReachedBefore(pass, i - 1);
      VisitIs(pass, i - 1);
      ReachesConcat(pass.before, EventsOf(pass.trace[..i - 1]), pass.trace[i - 1].before,
                    pass.trace[i - 1].events, pass.trace[i - 1].after);
    }
  }

  lemma FirstEvents(trace: seq<Visit>, i: nat)
    requires i <= |trace|
    ensures EventsOf(trace[..i]) == if i == 0 then [] else EventsOf(trace[..i - 1]) + trace[i - 1].events
  {
    if i > 0 {
      assert trace[..i][..i - 1] == trace[..i - 1];
    }
  }
}
