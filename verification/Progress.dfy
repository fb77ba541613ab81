/** Progress: a client whose socket takes bytes in every pass of the main loop is sent its whole buffer and closed. */
module Progress {
  import opened Bytes
  import opened Options
  import opened ProxyTypes
  import opened CacheQueues
  import opened ProxyModel
  import opened ProxyInvariant
  import opened ProxySafety
  import opened EventLoop
  import opened Service

  /** The client is being sent what this connection and these bytes say. */
  ghost predicate IsSent(s: State<FdNode, CacheNode>, n: FdNode, conn: Conn<FdNode, CacheNode>, bytes: seq<byte>) {
    Inv(s) && Is(s, n, Client, Writing) && s.conns[n] == conn && BufOf(s, n).bytes == bytes
  }

  ghost predicate IsSendTo(n: FdNode, e: Event<FdNode, CacheNode>) {
    e.WriteResponse? && e.n == n
  }

  /** What the handlers for others leave as it is. */
  lemma OthersLeaveSending(s: State<FdNode, CacheNode>, e: Event<FdNode, CacheNode>, n: FdNode,
                           conn: Conn<FdNode, CacheNode>, bytes: seq<byte>)
    requires IsSent(s, n, conn, bytes) && Enabled(s, e) && !IsSendTo(n, e)
    ensures IsSent(Step(s, e), n, conn, bytes)
  {
    hide Inv, Enabled, Step;
    FilledIsNotServed(s, e, n);
    StepKeepsServedConn(s, e, n);
    StepTouchesOnlyFilled(s, e, s.conns[n].buf.value);
    StepKeepsInv(s, e);
  }

  lemma {:induction false} OtherRunLeavesSending(s: State<FdNode, CacheNode>, events: seq<Event<FdNode, CacheNode>>,
                                                 s': State<FdNode, CacheNode>, n: FdNode,
                                                 conn: Conn<FdNode, CacheNode>, bytes: seq<byte>)
    requires IsSent(s, n, conn, bytes) && Reaches(s, events, s') && forall e | e in events :: !IsSendTo(n, e)
    ensures IsSent(s', n, conn, bytes)
    decreases |events|
  {
    hide IsSent, IsSendTo, Enabled, Step;
    if events != [] {
      assert events[0] in events;
      assert forall e | e in events[1..] :: e in events;
      OthersLeaveSending(s, events[0], n, conn, bytes);
      OtherRunLeavesSending(Step(s, events[0]), events[1..], s', n, conn, bytes);
    }
  }

  /** A visit to another node sends the client nothing. */
  lemma OtherVisitSendsNothing(s: State<FdNode, CacheNode>, m: FdNode, select: Select, o: Outcome,
                               events: seq<Event<FdNode, CacheNode>>, n: FdNode)
    requires IsServed(s, m, select, o, events) && m != n
    ensures forall e | e in events :: !IsSendTo(n, e)
  {
    hide Taken;
  }

  /** From one visit to a later one, without a visit to the client in between. */
  lemma {:induction false} VisitsLeaveSending(pass: Pass, i: nat, j: nat, n: FdNode,
                                              conn: Conn<FdNode, CacheNode>, bytes: seq<byte>)
    requires IsPass(pass) && i <= j <= |pass.trace| && forall k | i <= k < j :: pass.trace[k].node != n
    requires IsSent(StateAt(pass.before, pass.trace, i), n, conn, bytes)
    ensures IsSent(StateAt(pass.before, pass.trace, j), n, conn, bytes)
    decreases j
  {
    hide IsPass, IsSent, IsServed, IsSendTo, Reaches;
    if i < j {
      VisitsLeaveSending(pass, i, j - 1, n, conn, bytes);
      var v := pass.trace[j - 1];
      VisitIs(pass, j - 1);
      OtherVisitSendsNothing(v.before, v.node, pass.select, pass.select.outcomes(j - 1), v.events, n);
      OtherRunLeavesSending(v.before, v.events, v.after, n, conn, bytes);
    }
  }

  /** How many bytes of its buffer a connection has not been sent. */
  function Left(conn: Conn<FdNode, CacheNode>, bytes: seq<byte>): int {
    |bytes| - conn.offset
  }

  ghost predicate TakesBytes(select: Select, n: FdNode) {
    n.fd in select.writable && forall i :: select.outcomes(i).count >= 1
  }

  /** In visit i of the pass, which is to its own node, the connection is closed. */
  ghost predicate ClosesIn(pass: Pass, i: nat, n: FdNode) {
    i < |pass.trace| && pass.trace[i].node == n && n in pass.trace[i].before.conns && n !in pass.trace[i].after.conns
  }

  /** A send that takes something closes the client, or leaves it with less to be sent. */
  lemma SendIsProgress(s: State<FdNode, CacheNode>, n: FdNode, count: nat, conn: Conn<FdNode, CacheNode>, bytes: seq<byte>)
    returns (conn': Conn<FdNode, CacheNode>)
    requires IsSent(s, n, conn, bytes) && Enabled(s, WriteResponse(n, count)) && (conn.offset < |bytes| ==> count >= 1)
    ensures n !in Step(s, WriteResponse(n, count)).conns
         || (IsSent(Step(s, WriteResponse(n, count)), n, conn', bytes) && 1 <= Left(conn', bytes) < Left(conn, bytes))
  {
    StepKeepsInv(s, WriteResponse(n, count));
    hide Inv, Without;
    conn' := conn;
    if n in Step(s, WriteResponse(n, count)).conns {
      conn' := Step(s, WriteResponse(n, count)).conns[n];
    }
  }

  lemma OneEventLeads<N, C>(s: State<N, C>, e: Event<N, C>, s': State<N, C>)
    requires Reaches(s, [e], s')
    ensures Enabled(s, e) && s' == Step(s, e)
  {
    hide Enabled, Step;
    assert [e][1..] == [];
    assert Reaches(Step(s, e), [], s');
  }

  /** The client is visited: it is closed, or there is less left for it. */
  lemma VisitIsProgress(pass: Pass, i: nat, n: FdNode, conn: Conn<FdNode, CacheNode>, bytes: seq<byte>)
    returns (conn': Conn<FdNode, CacheNode>)
    requires IsPass(pass) && i < |pass.trace| && pass.trace[i].node == n && TakesBytes(pass.select, n)
    requires IsSent(pass.trace[i].before, n, conn, bytes)
    ensures ClosesIn(pass, i, n)
         || (IsSent(pass.trace[i].after, n, conn', bytes) && 1 <= Left(conn', bytes) < Left(conn, bytes))
  {
    hide IsPass, Inv, AtMost, Enabled, Step, Reaches;
    var v, o := pass.trace[i], pass.select.outcomes(i);
    VisitIs(pass, i);
    ClientIsServedIff(pass, i);
    var count := AtMost(o.count, |bytes|, conn.offset);
    OneEventLeads(v.before, WriteResponse(n, count), v.after);
    TakesAtLeastOne(o.count, |bytes|, conn.offset);
    conn' := SendIsProgress(v.before, n, count, conn, bytes);
  }

  lemma TakesAtLeastOne(count: nat, size: nat, offset: nat)
    requires count >= 1
    ensures offset < size ==> AtMost(count, size, offset) >= 1
  {
  }

  /** A whole pass. */
  lemma PassIsProgress(pass: Pass, n: FdNode, conn: Conn<FdNode, CacheNode>, bytes: seq<byte>)
    returns (i: nat, conn': Conn<FdNode, CacheNode>)
    requires IsPass(pass) && TakesBytes(pass.select, n) && IsSent(pass.before, n, conn, bytes)
    ensures ClosesIn(pass, i, n)
         || (IsSent(pass.after, n, conn', bytes) && 1 <= Left(conn', bytes) < Left(conn, bytes))
  {
    hide IsPass, Reaches, EventsOf, IsServed, TakesBytes, ClosesIn;
    var a := PlaceOf(pass.before, n, conn, bytes);
    i := EachIsVisitedOnce(pass, a);
    Ends(pass);
    hide IsSent;
    VisitsLeaveSending(pass, 0, i, n, conn, bytes);
    IsLive(pass, i);
    conn' := VisitIsProgress(pass, i, n, conn, bytes);
    if !ClosesIn(pass, i, n) {
      VisitsLeaveSending(pass, i + 1, |pass.trace|, n, conn', bytes);
    }
  }

  lemma Ends(pass: Pass)
    requires IsPass(pass)
    ensures pass.after == StateAt(pass.before, pass.trace, |pass.trace|)
  {
    hide Reaches, EventsOf, IsVisit, Only;
  }

  lemma PlaceOf(s: State<FdNode, CacheNode>, n: FdNode, conn: Conn<FdNode, CacheNode>, bytes: seq<byte>) returns (a: nat)
    requires IsSent(s, n, conn, bytes)
    ensures a < |s.nodes| && s.nodes[a] == n && Distinct(s.nodes)
  {
    hide PartnersOk, ConnsOk, CacheOk, KeysAreUnique;
    assert n in Elements(s.nodes);
    a :| 0 <= a < |s.nodes| && s.nodes[a] == n;
  }

  ghost predicate ClosesInOneOf(passes: seq<Pass>, n: FdNode) {
    exists j: nat, i: nat | j < |passes| :: ClosesIn(passes[j], i, n)
  }

  /** Pass by pass, until the client is closed. */
  lemma {:induction false} PassesAreProgress(selects: seq<Select>, s: State<FdNode, CacheNode>, passes: seq<Pass>,
                                             s': State<FdNode, CacheNode>, j: nat, n: FdNode,
                                             conn: Conn<FdNode, CacheNode>, bytes: seq<byte>)
    returns (conn': Conn<FdNode, CacheNode>)
    requires ArePasses(selects, s, passes, s') && j <= |passes| && IsSent(s, n, conn, bytes)
    requires forall k | 0 <= k < |selects| :: TakesBytes(selects[k], n)
    ensures ClosesInOneOf(passes, n)
         || (&& IsSent(StateBefore(s, passes, j), n, conn', bytes)
             && (j > 0 ==> 1 <= Left(conn', bytes)) && Left(conn', bytes) + j <= Left(conn, bytes))
  {
    hide IsPass, IsSent, TakesBytes, ClosesIn, Left;
    if j == 0 {
      conn' := conn;
    } else {
      conn' := PassesAreProgress(selects, s, passes, s', j - 1, n, conn, bytes);
      if !ClosesInOneOf(passes, n) {
        assert IsPassFrom(passes[j - 1], selects[j - 1], StateBefore(s, passes, j - 1));
        var i;
        i, conn' := PassIsProgress(passes[j - 1], n, conn', bytes);
      }
    }
  }

  /**
    A client that is being sent its buffer, and whose socket takes at least a byte in every pass, is closed at the
    latest in the pass whose number is the number of bytes that it is still to be sent (or in the first).
   */
  lemma ReadyClientIsClosed(selects: seq<Select>, s: State<FdNode, CacheNode>, passes: seq<Pass>, s': State<FdNode, CacheNode>,
                            n: FdNode)
    requires Inv(s) && ArePasses(selects, s, passes, s') && Is(s, n, Client, Writing)
    requires forall k | 0 <= k < |selects| :: TakesBytes(selects[k], n)
    requires |selects| >= 1 && |selects| >= |BufOf(s, n).bytes| - s.conns[n].offset
    ensures ClosesInOneOf(passes, n)
  {
    hide ArePasses, TakesBytes, ClosesInOneOf;
    assert |passes| == |selects| by {
      NumberOfPasses(selects, s, passes, s');
    }
    var conn := PassesAreProgress(selects, s, passes, s', |passes|, n, s.conns[n], BufOf(s, n).bytes);
  }

  lemma NumberOfPasses(selects: seq<Select>, s: State<FdNode, CacheNode>, passes: seq<Pass>, s': State<FdNode, CacheNode>)
    requires ArePasses(selects, s, passes, s')
    ensures |passes| == |selects|
  {
  }
}
