/** Which nodes the proxy has freed, when it does so, and which events use a node that is freed. */
module ProxyMemory {
  import opened Bytes
  import opened Options
  import opened ProxyTypes
  import opened FdLists
  import opened CacheQueues
  import opened ProxyModel
  import opened ProxyInvariant
  import opened ProxySafety

  // ---- the end of a response ----

  /** The event ends a response: the server closes the connection, or confirms the cached entry. */
  predicate Ends<N, C>(s: State<N, C>, e: Event<N, C>)
    requires Enabled(s, e)
  {
    e.ReadResponse? && (e.chunk == [] || Confirmed(s, e.n, e.head))
  }

  /** A confirmation is the answer 304 to a conditional request, at the first read. */
  lemma ConfirmedIff<N, C>(s: State<N, C>, n: N, chunk: seq<byte>, after: seq<byte>, head: ResponseHead)
    requires Inv(s) && Enabled(s, ReadResponse(n, chunk, after, head))
    ensures Confirmed(s, n, head) <==> s.conns[n].flag == 1 && !BufOf(s, n).info.complete && head.notModified
    ensures s.conns[n].flag == 1 <==> s.conns[n].backup.Some?
  {
    hide ListOk, PartnersOk, KeysAreUnique, Stores, BufOf;
    assert ConnOk(n, s.conns[n], s.bufs, s.cached, s.orphans);
  }

  /** The URL that a connection's buffer is about. */
  function UrlOf<N, C>(s: State<N, C>, n: N): (string, string)
    requires n in s.conns && s.conns[n].buf.Some? && s.conns[n].buf.value in s.bufs
  {
    Key(BufOf(s, n).info)
  }

  /** The date that a read stores changes no lookup, and the buffer that is read into is in no slot. */
  lemma LookupAfterRead<N, C>(s: State<N, C>, n: N, chunk: seq<byte>, after: seq<byte>, head: ResponseHead,
                               key: (string, string))
    requires Inv(s) && Enabled(s, ReadResponse(n, chunk, after, head))
    ensures Hit(s.slots, HeadRead(s, n, chunk, after, head), key) == Hit(s.slots, s.bufs, key)
  {
    var p, c := ServerOfRead(s, n, chunk, after);
    var bufs := HeadRead(s, n, chunk, after, head);
    forall i | 0 <= i < |s.slots|
      ensures s.slots[i] in s.bufs && s.slots[i] in bufs
      ensures Key(bufs[s.slots[i]].info) == Key(s.bufs[s.slots[i]].info)
      ensures bufs[s.slots[i]].info.complete == s.bufs[s.slots[i]].info.complete
    {
      assert s.slots[i] in Elements(s.slots);
    }
    SameLookup(s.slots, s.bufs, bufs, key);
  }

  lemma {:induction false} SameLookup<N, C>(slots: seq<C>, a: map<C, Buf<N>>, b: map<C, Buf<N>>, key: (string, string))
    requires forall i | 0 <= i < |slots| ::
      && slots[i] in a && slots[i] in b && Key(a[slots[i]].info) == Key(b[slots[i]].info)
      && a[slots[i]].info.complete == b[slots[i]].info.complete
    ensures Hit(slots, a, key) == Hit(slots, b, key)
  {
    if slots != [] {
      SameLookup(slots[1..], a, b, key);
    }
  }

  /**
    The end of a response: the buffer becomes an entry if and only if no entry for its URL is in the queue
    at that time. Otherwise queue and lookups stay as they are, whatever the answer was; the client gets the
    new buffer all the same, or on a confirmation the entry that its server knew.
   */
  lemma ResponseIsCachedIff<N, C>(s: State<N, C>, n: N, chunk: seq<byte>, after: seq<byte>, head: ResponseHead)
    requires Inv(s) && Enabled(s, ReadResponse(n, chunk, after, head))
    requires chunk == [] || (s.conns[n].flag == 1 && !BufOf(s, n).info.complete && head.notModified)
    ensures var c, p, s' := s.conns[n].buf.value, s.conns[n].partner, ResponseRead(s, n, chunk, after, head);
      var entry := Hit(s.slots, s.bufs, UrlOf(s, n));
      && (c in s'.slots <==> entry == None)
      && (entry == None ==> s'.slots == Enqueued(s.slots, c) && s'.cached == s.cached + {c})
      && (entry.Some? ==> s'.slots == s.slots && s'.cached == s.cached)
      && (entry.Some? ==> forall key :: Hit(s'.slots, s'.bufs, key) == Hit(s.slots, s.bufs, key))
      && p.Some? && p.value in s'.conns && s'.conns[p.value].status == Writing
      && s'.conns[p.value].buf ==
           if s.conns[n].flag == 1 && !BufOf(s, n).info.complete && head.notModified then s.conns[n].backup else Some(c)
  {
    hide Confirmed, Hit, HeadRead, ListOk, PartnersOk, ConnsOk, CacheOk, KeysAreUnique, Stores;
    var p, c := ServerOfRead(s, n, chunk, after);
    forall key
      ensures Hit(s.slots, HeadRead(s, n, chunk, after, head), key) == Hit(s.slots, s.bufs, key)
    {
      LookupAfterRead(s, n, chunk, after, head, key);
    }
    ConfirmedIff(s, n, chunk, after, head);
    HitAfterRead(s, n, chunk, after, head);
    SlotIsCached(s, c);
  }

  lemma SlotIsCached<N, C>(s: State<N, C>, c: C)
    requires Inv(s)
    ensures c in s.slots ==> c in s.cached && c in s.bufs
  {
    assert c in s.slots ==> c in Elements(s.slots);
  }

  // ---- orphans ----

  /**
    A 304 answer becomes an entry itself if and only if it confirms an entry, comes with data, and no entry for
    the URL is in the queue any more: the one that it confirms was evicted, and no other has come.
   */
  lemma OrphanArisesIff<N, C>(s: State<N, C>, e: Event<N, C>)
    requires Inv(s) && Enabled(s, e)
    ensures Step(s, e).orphans != s.orphans <==>
      && e.ReadResponse? && s.conns[e.n].flag == 1 && !BufOf(s, e.n).info.complete && e.head.notModified
      && e.chunk != [] && Hit(s.slots, s.bufs, UrlOf(s, e.n)) == None
    ensures Step(s, e).orphans != s.orphans ==>
      && Step(s, e).orphans == s.orphans + {s.conns[e.n].buf.value}
      && s.conns[e.n].backup.value in Freed(s)
      && s.conns[e.n].buf.value in Step(s, e).slots
  {
    hide Hit, HeadRead, ListOk, PartnersOk, ConnsOk, KeysAreUnique, Stores, Confirmed;
    if e.ReadResponse? {
      var n := e.n;
      ConfirmedIff(s, n, e.chunk, e.after, e.head);
      var p, c := ServerOfRead(s, n, e.chunk, e.after);
      LookupAfterRead(s, n, e.chunk, e.after, e.head, UrlOf(s, n));
      HitAfterRead(s, n, e.chunk, e.after, e.head);
      if s.conns[n].backup.Some? {
        HitIsTheOnlyEntry(s, UrlOf(s, n), s.conns[n].backup.value);
      }
    }
  }

  // ---- the queue over whole runs ----

  /** The buffers that an event puts into the queue, one or none. */
  function EnqueuedBy<N, C>(s: State<N, C>, e: Event<N, C>): seq<C>
    requires Enabled(s, e)
  {
    if Ends(s, e) && Hit(s.slots, s.bufs, UrlOf(s, e.n)) == None then [s.conns[e.n].buf.value] else []
  }

  lemma PartReadLeavesQueue<N, C>(s: State<N, C>, n: N, chunk: seq<byte>, after: seq<byte>, head: ResponseHead)
    requires n in s.conns && s.conns[n].buf.Some? && s.conns[n].buf.value in s.bufs && s.slots != []
    requires chunk != [] && !Confirmed(s, n, head)
    ensures ResponseRead(s, n, chunk, after, head).slots == s.slots
    ensures ResponseRead(s, n, chunk, after, head).cached == s.cached
  {
    hide Hit, HeadRead, Confirmed, Answered, Closed, Enqueued, BufOf;
  }

  lemma RequestLeavesQueue<N, C>(s: State<N, C>, n: N, after: seq<byte>, request: Option<(string, string)>, server: Option<N>)
    requires n in s.conns && s.conns[n].buf.Some? && s.conns[n].buf.value in s.bufs && |s.nodes| >= 1
    ensures RequestRead(s, n, after, request, server).slots == s.slots
    ensures RequestRead(s, n, after, request, server).cached == s.cached
  {
    hide Hit, Without, InsertBeforeLast, NewServer;
  }

  lemma OthersLeaveQueue<N, C>(s: State<N, C>, e: Event<N, C>)
    requires Enabled(s, e) && !Ends(s, e)
    ensures Step(s, e).slots == s.slots && Step(s, e).cached == s.cached
  {
    hide Hit, HeadRead, Stores, Enqueued, NewServer, SendSize, ResponseRead, RequestRead, Without, InsertBeforeLast, Confirmed;
    match e {
      case ReadResponse(n, chunk, after, head) => PartReadLeavesQueue(s, n, chunk, after, head);
      case ReadRequest(n, _, after, request, server) => RequestLeavesQueue(s, n, after, request, server);
      case _ =>
    }
  }

  lemma EndsIsRead<N, C>(s: State<N, C>, e: Event<N, C>) returns (c: C)
    requires Inv(s) && Enabled(s, e) && Ends(s, e)
    ensures s.conns[e.n].buf == Some(c) && c !in s.cached
    ensures Step(s, e) == ResponseRead(s, e.n, e.chunk, e.after, e.head)
  {
    hide ResponseRead, ListOk, PartnersOk, ConnsOk, CacheOk, KeysAreUnique, Stores;
    var p;
    p, c := ServerOfRead(s, e.n, e.chunk, e.after);
  }

  lemma StepIsQueue<N, C>(s: State<N, C>, e: Event<N, C>)
    requires Inv(s) && Enabled(s, e)
    ensures var xs := EnqueuedBy(s, e);
      && Step(s, e).slots == (if xs == [] then s.slots else Enqueued(s.slots, xs[0]))
      && Step(s, e).cached == s.cached + Elements(xs)
      && forall x | x in xs :: x !in s.cached
  {
    hide Hit, Step, ResponseRead, Inv, Enabled, Enqueued, BufOf, Confirmed;
    if Ends(s, e) {
      var c := EndsIsRead(s, e);
      ConfirmedIff(s, e.n, e.chunk, e.after, e.head);
      ResponseIsCachedIff(s, e.n, e.chunk, e.after, e.head);
    } else {
      OthersLeaveQueue(s, e);
    }
  }

  /** The buffers that a run puts into the queue, in this order. */
  ghost function EnqueuedIn<N, C>(s: State<N, C>, events: seq<Event<N, C>>): seq<C>
    decreases |events|
  {
    if events == [] || !Enabled(s, events[0]) then []
    else EnqueuedBy(s, events[0]) + EnqueuedIn(Step(s, events[0]), events[1..])
  }

  lemma {:induction false} EnqueueAllConcat<T>(slots: seq<T>, xs: seq<T>, ys: seq<T>)
    requires slots != []
    ensures EnqueueAll(EnqueueAll(slots, xs), ys) == EnqueueAll(slots, xs + ys)
    decreases |ys|
  {
    if ys == [] {
      assert xs + ys == xs;
    } else {
      var front := ys[..|ys| - 1];
      assert (xs + ys)[..|xs + ys| - 1] == xs + front;
      EnqueueAllConcat(slots, xs, front);
    }
  }

  lemma EnqueueOne<T>(slots: seq<T>, xs: seq<T>)
    requires slots != [] && |xs| <= 1
    ensures EnqueueAll(slots, xs) == if xs == [] then slots else Enqueued(slots, xs[0])
  {
    assert xs != [] ==> xs[..0] == [];
  }

  ghost predicate NewTo<T>(xs: seq<T>, known: set<T>) {
    Distinct(xs) && forall x | x in xs :: x !in known
  }

  lemma NewToMore<T>(xs: seq<T>, ys: seq<T>, known: set<T>)
    requires |xs| <= 1 && (forall x | x in xs :: x !in known) && NewTo(ys, known + Elements(xs))
    ensures NewTo(xs + ys, known) && Elements(xs + ys) == Elements(xs) + Elements(ys)
  {
    assert forall i | 0 <= i < |ys| :: ys[i] in ys;
    assert forall i | 0 <= i < |xs| :: xs[i] in Elements(xs);
  }

  /** Over a run the queue takes the buffers that are enqueued, each for the first time. */
  lemma {:induction false} RunIsQueue<N, C>(s: State<N, C>, events: seq<Event<N, C>>, s': State<N, C>)
    requires Inv(s) && Reaches(s, events, s')
    ensures s.slots != [] && NewTo(EnqueuedIn(s, events), s.cached)
    ensures s'.slots == EnqueueAll(s.slots, EnqueuedIn(s, events))
    ensures s'.cached == s.cached + Elements(EnqueuedIn(s, events))
    decreases |events|
  {
    hide Step, Enabled, Inv, EnqueueAll, EnqueuedBy;
    HasSlots(s);
    if events == [] {
      NothingEnqueued(s.slots);
    } else {
      var e := events[0];
      var t, xs := Step(s, e), EnqueuedBy(s, e);
      var ys := EnqueuedIn(t, events[1..]);
      OneOrNone(s, e);
      StepIsQueue(s, e);
      StepKeepsInv(s, e);
      RunIsQueue(t, events[1..], s');
      EnqueueOne(s.slots, xs);
      EnqueueAllConcat(s.slots, xs, ys);
      NewToMore(xs, ys, s.cached);
    }
  }

  lemma HasSlots<N, C>(s: State<N, C>)
    requires Inv(s)
    ensures s.slots != [] && Distinct(s.slots) && Elements(s.slots) <= s.cached
  {
  }

  lemma OneOrNone<N, C>(s: State<N, C>, e: Event<N, C>)
    requires Enabled(s, e)
    ensures |EnqueuedBy(s, e)| <= 1
  {
  }

  // ---- when a node is freed ----

  lemma DistinctTogether<T>(slots: seq<T>, xs: seq<T>, known: set<T>)
    requires Distinct(slots) && NewTo(xs, known) && Elements(slots) <= known
    ensures Distinct(slots + xs) && Distinct(xs + slots)
  {
    assert forall i | 0 <= i < |slots| :: slots[i] in Elements(slots);
    assert forall i | 0 <= i < |xs| :: xs[i] in xs;
  }

  /** A buffer that a run enqueues is freed if and only if at least as many were enqueued after it as there are slots. */
  lemma EnqueuedIsFreedIff<N, C>(s: State<N, C>, events: seq<Event<N, C>>, s': State<N, C>, i: nat)
    requires Inv(s) && Reaches(s, events, s') && i < |EnqueuedIn(s, events)|
    ensures var xs := EnqueuedIn(s, events); xs[i] in Freed(s') <==> |xs| - 1 - i >= |s.slots|
  {
    hide Inv, Reaches, EnqueuedIn, EnqueueAll;
    var xs := EnqueuedIn(s, events);
    RunIsQueue(s, events, s');
    HasSlots(s);
    DistinctTogether(s.slots, xs, s.cached);
    StaysUntilPushedOut(s.slots, xs, i);
    assert xs[i] in Elements(xs);
  }

  /** A node in slot j is freed by a run if and only if the run enqueues enough to push it out. */
  lemma SlotIsFreedIff<N, C>(s: State<N, C>, events: seq<Event<N, C>>, s': State<N, C>, j: nat)
    requires Inv(s) && Reaches(s, events, s') && j < |s.slots|
    ensures s.slots[j] in Freed(s') <==> j + |EnqueuedIn(s, events)| >= |s.slots|
  {
    hide Inv, Reaches, EnqueuedIn, EnqueueAll, Reverse;
    var slots, xs := s.slots, EnqueuedIn(s, events);
    RunIsQueue(s, events, s');
    HasSlots(s);
    DistinctTogether(slots, xs, s.cached);
    QueueIsNewestFirst(slots, xs);
    ReverseMirrors(xs);
    MirrorIsDistinct(xs, Reverse(xs), slots);
    InFrontIff(Reverse(xs) + slots, |xs| + j, |slots|);
    assert slots[j] in Elements(slots);
  }

  lemma InFrontIff<T>(order: seq<T>, k: nat, n: nat)
    requires Distinct(order) && k < |order| && n <= |order|
    ensures order[k] in order[..n] <==> k < n
  {
    if k < n {
      assert order[..n][k] == order[k];
    }
  }

  /** What is freed stays freed. */
  lemma FreedForEver<N, C>(s: State<N, C>, events: seq<Event<N, C>>, s': State<N, C>)
    requires Inv(s) && Reaches(s, events, s')
    ensures Freed(s) <= Freed(s')
  {
    hide Inv, Reaches, EnqueuedIn, EnqueueAll, Evicted;
    var xs := EnqueuedIn(s, events);
    RunIsQueue(s, events, s');
    forall c | c in Freed(s)
      ensures c in Freed(s')
    {
      MembersOfRun(s.slots, xs, c);
    }
  }

  /**
    In every reachable state: a complete document is freed if and only if at least as many responses were
    enqueued since it was as the queue has slots. Whether a client is being sent it makes no difference.
   */
  lemma DocumentIsFreedIff<N, C>(s0: State<N, C>, events: seq<Event<N, C>>, s: State<N, C>, c: C)
    requires Initial(s0) && Reaches(s0, events, s) && c in s.bufs && s.bufs[c].info.complete
    ensures var xs := EnqueuedIn(s0, events);
      c in Freed(s) <==> exists i | 0 <= i < |xs| :: xs[i] == c && |xs| - 1 - i >= |s0.slots|
  {
    hide Reaches, EnqueuedIn, EnqueueAll;
    var xs := EnqueuedIn(s0, events);
    InitialInv(s0);
    RunIsQueue(s0, events, s);
    CompleteIsNoDummy(s0, events, s, c);
    hide Inv, Initial;
    forall i | 0 <= i < |xs|
      ensures xs[i] in Freed(s) <==> |xs| - 1 - i >= |s0.slots|
    {
      EnqueuedIsFreedIff(s0, events, s, i);
    }
    if c in Freed(s) {
      assert c in xs;
    }
  }

  lemma CompleteIsNoDummy<N, C>(s0: State<N, C>, events: seq<Event<N, C>>, s: State<N, C>, c: C)
    requires Initial(s0) && Reaches(s0, events, s) && c in s.bufs && s.bufs[c].info.complete
    ensures c !in s0.cached
  {
    InitialInv(s0);
    hide Inv, Reaches;
    RunKeepsRecords(s0, events, s);
  }

  /** The same for the buffer that a client is being sent. */
  lemma ServedBufferIsFreedIff<N, C>(s0: State<N, C>, events: seq<Event<N, C>>, s: State<N, C>, n: N)
    requires Initial(s0) && Reaches(s0, events, s) && Is(s, n, Client, Writing)
    ensures var c, xs := s.conns[n].buf.value, EnqueuedIn(s0, events);
      c in Freed(s) <==> exists i | 0 <= i < |xs| :: xs[i] == c && |xs| - 1 - i >= |s0.slots|
  {
    hide Reaches, EnqueuedIn, Initial;
    InitialInv(s0);
    RunKeepsInv(s0, events, s);
    assert ConnOk(n, s.conns[n], s.bufs, s.cached, s.orphans);
    hide Inv;
    DocumentIsFreedIff(s0, events, s, s.conns[n].buf.value);
  }

  // ---- who uses it ----

  /** The nodes that a handler reads or writes: its buffer, the entry of a conditional request, and in a lookup the queue. */
  ghost function Uses<N, C>(s: State<N, C>, e: Event<N, C>): set<C>
    requires Enabled(s, e)
  {
    match e
    case Accept(_, buf) => {buf}
    case ReadRequest(n, _, _, _, server) => {s.conns[n].buf.value} + (if server.Some? then Elements(s.slots) else {})
    case WriteRequest(n, _) => {s.conns[n].buf.value} + Entry(s, n, s.conns[n].flag == 1)
    case ReadResponse(n, _, _, head) =>
      {s.conns[n].buf.value} + Entry(s, n, Confirmed(s, n, head)) + (if Ends(s, e) then Elements(s.slots) else {})
    case WriteResponse(n, _) => {s.conns[n].buf.value}
  }

  ghost function Entry<N, C>(s: State<N, C>, n: N, used: bool): set<C>
    requires n in s.conns
  {
    if used && s.conns[n].backup.Some? then {s.conns[n].backup.value} else {}
  }

  /**
    A handler uses freed memory if and only if it sends a client a freed buffer, prints a conditional request
    from a freed entry, or takes a confirmation of one. Nothing else ever touches a freed node.
   */
  lemma UsesFreedIff<N, C>(s: State<N, C>, e: Event<N, C>)
    requires Inv(s) && Enabled(s, e)
    ensures !(Uses(s, e) !! Freed(s)) <==>
      || (e.WriteResponse? && s.conns[e.n].buf.value in Freed(s))
      || (e.WriteRequest? && s.conns[e.n].flag == 1 && s.conns[e.n].backup.value in Freed(s))
      || (&& e.ReadResponse? && s.conns[e.n].flag == 1 && !BufOf(s, e.n).info.complete && e.head.notModified
          && s.conns[e.n].backup.value in Freed(s))
  {
    hide ListOk, PartnersOk, KeysAreUnique, Stores;
    match e {
      case Accept(_, buf) => assert buf !in s.cached;
      case ReadRequest(n, _, _, _, _) => FilledIsNotCached(s, e);
      case WriteRequest(n, _) => RequestIsNotCached(s, n);
      case ReadResponse(n, chunk, after, head) =>
        FilledIsNotCached(s, e);
        ConfirmedIff(s, n, chunk, after, head);
      case WriteResponse(n, _) =>
    }
  }

  lemma RequestIsNotCached<N, C>(s: State<N, C>, n: N)
    requires Inv(s) && Is(s, n, Server, Writing)
    ensures s.conns[n].buf.value !in s.cached && (s.conns[n].flag == 1 ==> s.conns[n].backup.Some?)
  {
    assert HasPartner(s.conns, n);
    ServerBuffer(s, n, s.conns[n].partner.value, s.conns[n].buf.value, BufOf(s, n));
    assert ConnOk(n, s.conns[n], s.bufs, s.cached, s.orphans);
  }

  /** As long as no more responses were enqueued than there are slots, no handler uses freed memory. */
  lemma SafeWhileQueueHoldsAll<N, C>(s0: State<N, C>, events: seq<Event<N, C>>, s: State<N, C>, e: Event<N, C>)
    requires Initial(s0) && Reaches(s0, events, s) && Enabled(s, e)
    requires |EnqueuedIn(s0, events)| <= |s0.slots|
    ensures Uses(s, e) !! Freed(s)
  {
    hide Reaches, EnqueuedIn, Uses, Freed, Stores;
    InitialInv(s0);
    RunKeepsInv(s0, events, s);
    UsesFreedIff(s, e);
    if e.WriteResponse? {
      ServedBufferIsFreedIff(s0, events, s, e.n);
    } else if (e.WriteRequest? || e.ReadResponse?) && s.conns[e.n].backup.Some? {
      assert ConnOk(e.n, s.conns[e.n], s.bufs, s.cached, s.orphans);
      DocumentIsFreedIff(s0, events, s, s.conns[e.n].backup.value);
    }
  }

  // ---- documents and deliveries ----

  /**
    Over any run: a document stays in the queue, unchanged but for its date, as long as no more responses are
    enqueued than there are slots behind it; with one more it is freed.
   */
  lemma RunKeepsDocuments<N, C>(s: State<N, C>, events: seq<Event<N, C>>, s': State<N, C>, j: nat)
    requires Inv(s) && Reaches(s, events, s') && j < |s.slots|
    ensures var c := s.slots[j];
      if j + |EnqueuedIn(s, events)| < |s.slots|
      then c in s'.slots && c in s.bufs && c in s'.bufs && SameDocument(s.bufs[c], s'.bufs[c])
      else c in Freed(s')
  {
    hide Reaches, EnqueuedIn;
    SlotIsFreedIff(s, events, s', j);
    RunKeepsRecords(s, events, s');
    assert s.slots[j] in Elements(s.slots);
  }

  lemma StepFreesIff<N, C>(s: State<N, C>, e: Event<N, C>, c: C)
    requires Inv(s) && Enabled(s, e)
    ensures s.slots != []
    ensures c in Freed(Step(s, e)) <==> c in Freed(s) || (EnqueuedBy(s, e) != [] && c == s.slots[|s.slots| - 1])
  {
    hide Enabled, Step, EnqueuedBy, ListOk, PartnersOk, ConnsOk, KeysAreUnique;
    StepIsQueue(s, e);
    var xs, slots := EnqueuedBy(s, e), s.slots;
    OneOrNone(s, e);
    assert forall i | 0 <= i < |slots| :: slots[i] in Elements(slots);
    if xs != [] {
      var front := slots[..|slots| - 1];
      assert xs == [xs[0]] && slots == front + [slots[|slots| - 1]];
      assert slots[|slots| - 1] !in front;
      assert Elements(Step(s, e).slots) == {xs[0]} + Elements(front);
    }
  }

  /**
    While a client is written to, no handler for anyone else changes its connection; and none changes its
    buffer, but for the one that pushes it out of the last slot and so frees it.
   */
  lemma StepKeepsServedBuffer<N, C>(s: State<N, C>, e: Event<N, C>, n: N)
    requires Inv(s) && Enabled(s, e) && Is(s, n, Client, Writing) && n in Step(s, e).conns
    ensures var conn, conn' := s.conns[n], Step(s, e).conns[n];
      && conn'.kind == Client && conn'.status == Writing && conn'.buf == conn.buf
      && conn'.asked == conn.asked && conn.output <= conn'.output
    ensures var c := s.conns[n].buf.value;
      && (c in Freed(Step(s, e)) <==>
            c in Freed(s) || (EnqueuedBy(s, e) != [] && c == s.slots[|s.slots| - 1]))
      && (c !in Freed(Step(s, e)) ==> c in Step(s, e).bufs && SameDocument(s.bufs[c], Step(s, e).bufs[c]))
  {
    hide Enabled, EnqueuedBy;
    var c := s.conns[n].buf.value;
    FilledIsNotServed(s, e, n);
    StepTouchesOnlyFilled(s, e, c);
    if !(e.WriteResponse? && e.n == n) {
      StepKeepsServedConn(s, e, n);
    }
    StepIsQueue(s, e);
    StepFreesIff(s, e, c);
  }

  /**
    The send that ends a connection, from a buffer that is not freed by then (nor was it at any send before):
    what the client has got is the whole buffer, which starts with the whole response of a server to the URL
    that the client asked for.
   */
  lemma DeliveredIsWhole<N, C>(s: State<N, C>, n: N, count: nat)
    requires Inv(s) && Enabled(s, WriteResponse(n, count)) && n !in ResponseWritten(s, n, count).conns
    ensures var conn, buf := s.conns[n], BufOf(s, n);
      conn.buf.value !in Freed(s) ==>
        && conn.offset + count == |buf.bytes|
        && conn.output + buf.bytes[conn.offset..conn.offset + count] == buf.bytes
        && buf.response <= buf.bytes && Key(buf.info) == conn.asked
        && (buf.closed || conn.buf.value in s.orphans)
  {
    assert ConnOk(n, s.conns[n], s.bufs, s.cached, s.orphans);
  }

  /** In terms of the run: it is so as long as fewer responses than there are slots were enqueued since this one was. */
  lemma DeliveredIsWholeIfRecent<N, C>(s0: State<N, C>, events: seq<Event<N, C>>, s: State<N, C>, n: N, count: nat)
    requires Initial(s0) && Reaches(s0, events, s)
    requires Enabled(s, WriteResponse(n, count)) && n !in ResponseWritten(s, n, count).conns
    ensures var conn, buf, xs := s.conns[n], BufOf(s, n), EnqueuedIn(s0, events);
      (forall i | 0 <= i < |xs| && xs[i] == conn.buf.value :: |xs| - 1 - i < |s0.slots|) ==>
        && conn.buf.value !in Freed(s) && conn.offset + count == |buf.bytes|
        && conn.output + buf.bytes[conn.offset..conn.offset + count] == buf.bytes
        && buf.response <= buf.bytes && Key(buf.info) == conn.asked
        && (buf.closed || conn.buf.value in s.orphans)
  {
    InitialInv(s0);
    RunKeepsInv(s0, events, s);
    ServedBufferIsFreedIff(s0, events, s, n);
    DeliveredIsWhole(s, n, count);
  }
}
