/** The chat server: its linked list of clients, and the router that passes over the list. */
module ChatServers {
  import opened Options
  import opened Roster

  /** What reading a client's socket gives in one pass. */
  datatype Received =
    | Nothing | Closed | JoinMessage(name: string) | SendMessage(text: string) | IdleMessage | OtherMessage

  /** One call of select: a new connection, if there is one, and what each socket has to read. */
  datatype Round = Round(accepted: Option<int>, inbox: map<int, Received>)

  // ---- which events a round is ----

  function EventOf(fd: int, inbox: map<int, Received>): seq<Event> {
    if fd !in inbox then []
    else
      match inbox[fd]
      case Nothing => []
      case Closed => [Leave(fd)]
      case JoinMessage(name) => [Join(fd, name)]
      case SendMessage(text) => [Send(fd, text)]
      case IdleMessage => [Idle(fd)]
      case OtherMessage => []
  }

  /** One event at most for every socket of the list, in the list's order. */
  function PassEvents(fds: seq<int>, inbox: map<int, Received>): seq<Event> {
    if fds == [] then [] else EventOf(fds[0], inbox) + PassEvents(fds[1..], inbox)
  }

  lemma {:induction false} PassEventsConcat(a: seq<int>, b: seq<int>, inbox: map<int, Received>)
    ensures PassEvents(a + b, inbox) == PassEvents(a, inbox) + PassEvents(b, inbox)
  {
    if a == [] {
      assert a + b == b;
    } else {
      assert (a + b)[1..] == a[1..] + b;
      PassEventsConcat(a[1..], b, inbox);
    }
  }

  function RoundEvents(r: seq<Client>, round: Round): seq<Event> {
    match round.accepted
    case None => PassEvents(Fds(r), round.inbox)
    case Some(fd) => [Connect(fd)] + PassEvents(Fds(r + [Client(fd, "")]), round.inbox)
  }

  function ServerEvents(r: seq<Client>, maxClients: int, rounds: seq<Round>): seq<Event>
    decreases |rounds|
  {
    if rounds == [] then []
    else
      var events := RoundEvents(r, rounds[0]);
      events + ServerEvents(After(r, maxClients, events), maxClients, rounds[1..])
  }

  /** A new connection has a socket that is not open. */
  predicate IsFresh(r: seq<Client>, listenFd: int, accepted: Option<int>) {
    accepted.Some? ==> accepted.value != listenFd && accepted.value !in Fds(r)
  }

  predicate AcceptsAreFresh(r: seq<Client>, maxClients: int, listenFd: int, rounds: seq<Round>)
    decreases |rounds|
  {
    rounds == []
    || (&& IsFresh(r, listenFd, rounds[0].accepted)
        && AcceptsAreFresh(After(r, maxClients, RoundEvents(r, rounds[0])), maxClients, listenFd, rounds[1..]))
  }

  lemma NoRun(r: seq<Client>, maxClients: int)
    ensures CanRun(r, maxClients, []) && After(r, maxClients, []) == r && Sent(r, maxClients, []) == []
  {
  }

  /** What a node of the pass does, event or not. */
  lemma OneEvent(r: seq<Client>, maxClients: int, fd: int, inbox: map<int, Received>)
    requires fd in Fds(r)
    ensures var events := EventOf(fd, inbox);
      && CanRun(r, maxClients, events)
      && After(r, maxClients, events) == (if events == [] then r else Step(r, maxClients, events[0]))
      && Sent(r, maxClients, events) == (if events == [] then [] else Posts(r, maxClients, events[0]))
  {
    hide Step, Posts;
    var events := EventOf(fd, inbox);
    NoRun(r, maxClients);
    if events != [] {
      assert events[1..] == [];
      NoRun(Step(r, maxClients, events[0]), maxClients);
    }
  }

  lemma AfterConnect(r: seq<Client>, maxClients: int, round: Round)
    requires round.accepted.Some? && round.accepted.value !in Fds(r)
    ensures var r0 := r + [Client(round.accepted.value, "")];
      var events := PassEvents(Fds(r0), round.inbox);
      && RoundEvents(r, round) == [Connect(round.accepted.value)] + events
      && (CanRun(r, maxClients, RoundEvents(r, round)) <==> CanRun(r0, maxClients, events))
      && After(r, maxClients, RoundEvents(r, round)) == After(r0, maxClients, events)
      && Sent(r, maxClients, RoundEvents(r, round)) == Sent(r0, maxClients, events)
  {
    var connect := Connect(round.accepted.value);
    var events := PassEvents(Fds(Step(r, maxClients, connect)), round.inbox);
    RunConcat(r, maxClients, [connect], events);
    assert [connect][1..] == [];
  }

  // ---- what the events of a pass are ----

  lemma {:induction false} PassEventIff(fds: seq<int>, inbox: map<int, Received>, e: Event)
    ensures e in PassEvents(fds, inbox) <==> e.fd in fds && e in EventOf(e.fd, inbox)
  {
    if fds != [] {
      PassEventIff(fds[1..], inbox, e);
      assert fds == [fds[0]] + fds[1..];
    }
  }

  /** In the list, one socket comes before another. */
  ghost predicate Precedes(fds: seq<int>, x: int, y: int) {
    exists i, j | 0 <= i < j < |fds| :: fds[i] == x && fds[j] == y
  }

  lemma PrecedesInFront(fds: seq<int>, x: int, y: int)
    requires fds != [] && (Precedes(fds[1..], x, y) || (fds[0] == x && y in fds[1..]))
    ensures Precedes(fds, x, y)
  {
    if Precedes(fds[1..], x, y) {
      var i, j :| 0 <= i < j < |fds[1..]| && fds[1..][i] == x && fds[1..][j] == y;
      assert fds[i + 1] == x && fds[j + 1] == y;
    } else {
      var j :| 0 <= j < |fds[1..]| && fds[1..][j] == y;
      assert fds[0] == x && fds[j + 1] == y;
    }
  }

  /** The events of a pass are in the order of the list. */
  lemma {:induction false} PassEventsInOrder(fds: seq<int>, inbox: map<int, Received>, i: nat, j: nat)
    requires i < j < |PassEvents(fds, inbox)|
    ensures var events := PassEvents(fds, inbox);
      Precedes(fds, events[i].fd, events[j].fd)
  {
    hide Precedes;
    var first, rest := EventOf(fds[0], inbox), PassEvents(fds[1..], inbox);
    var e := PassEvents(fds, inbox)[j];
    assert e == rest[j - |first|] && e in rest;
    PassEventIff(fds[1..], inbox, e);
    if i >= |first| {
      PassEventsInOrder(fds[1..], inbox, i - |first|, j - |first|);
    }
    PrecedesInFront(fds, PassEvents(fds, inbox)[i].fd, e.fd);
  }

  ghost predicate HasRead(fds: seq<int>, inbox: map<int, Received>, fd: int, received: Received) {
    fd in fds && fd in inbox && inbox[fd] == received
  }

  /** What a client has written when this happens to it. */
  function Cause(e: Event): Received {
    match e
    case Connect(_) => Nothing
    case Leave(_) => Closed
    case Join(_, name) => JoinMessage(name)
    case Send(_, text) => SendMessage(text)
    case Idle(_) => IdleMessage
  }

  lemma PassEventCause(fds: seq<int>, inbox: map<int, Received>, e: Event)
    ensures e in PassEvents(fds, inbox) <==> !e.Connect? && HasRead(fds, inbox, e.fd, Cause(e))
  {
    hide PassEvents;
    PassEventIff(fds, inbox, e);
  }

  /**
    The events of a pass: a listed client leaves exactly when its socket is closed, and it joins, sends or idles
    exactly when that is what it has written. Nothing else happens, and what happens is in the list's order.
   */
  lemma PassEventsAre(fds: seq<int>, inbox: map<int, Received>)
    ensures var events := PassEvents(fds, inbox);
      && (forall fd :: Event.Leave(fd) in events <==> HasRead(fds, inbox, fd, Closed))
      && (forall fd, name :: Event.Join(fd, name) in events <==> HasRead(fds, inbox, fd, JoinMessage(name)))
      && (forall fd, text :: Send(fd, text) in events <==> HasRead(fds, inbox, fd, SendMessage(text)))
      && (forall fd :: Idle(fd) in events <==> HasRead(fds, inbox, fd, IdleMessage))
      && (forall i | 0 <= i < |events| :: !events[i].Connect?)
      && (forall i, j | 0 <= i < j < |events| :: Precedes(fds, events[i].fd, events[j].fd))
  {
    hide PassEvents, Precedes, HasRead;
    var events := PassEvents(fds, inbox);
    forall e: Event
      ensures e in events <==> !e.Connect? && HasRead(fds, inbox, e.fd, Cause(e))
    {
      PassEventCause(fds, inbox, e);
    }
    forall i, j | 0 <= i < j < |events|
      ensures Precedes(fds, events[i].fd, events[j].fd)
    {
      PassEventsInOrder(fds, inbox, i, j);
    }
    assert forall i | 0 <= i < |events| :: events[i] in events;
  }

  /** A listed client whose socket is closed is gone after the pass. */
  lemma ClosedAreGone(r: seq<Client>, maxClients: int, inbox: map<int, Received>, fd: int)
    requires FdsDistinct(r) && CanRun(r, maxClients, PassEvents(Fds(r), inbox))
    requires fd in inbox && inbox[fd] == Closed
    ensures !IsListed(After(r, maxClients, PassEvents(Fds(r), inbox)), fd)
  {
    hide CanRun, After, PassEvents, Fds, IsListed, FdsDistinct;
    PassEventsAre(Fds(r), inbox);
    ListedIff(r, fd);
    GoneAfter(r, maxClients, PassEvents(Fds(r), inbox), fd);
  }

  lemma DistinctWithNew(r: seq<Client>, fd: int)
    requires FdsDistinct(r) && fd !in Fds(r)
    ensures FdsDistinct(r + [Client(fd, "")])
  {
    hide Fds;
    FdsAt(r);
    assert forall i | 0 <= i < |r| :: Fds(r)[i] in Fds(r);
  }

  ghost predicate ClosedAreOut(r: seq<Client>, inbox: map<int, Received>) {
    forall fd | fd in inbox && inbox[fd] == Closed :: !IsListed(r, fd)
  }

  /** No client whose socket is closed is listed after a round. */
  lemma ClosedAreOutAfter(r: seq<Client>, maxClients: int, listenFd: int, round: Round)
    requires FdsDistinct(r) && IsFresh(r, listenFd, round.accepted) && CanRun(r, maxClients, RoundEvents(r, round))
    ensures ClosedAreOut(After(r, maxClients, RoundEvents(r, round)), round.inbox)
  {
    hide CanRun, After, PassEvents, Fds, IsListed, FdsDistinct;
    if round.accepted.Some? {
      AfterConnect(r, maxClients, round);
      DistinctWithNew(r, round.accepted.value);
    }
    var r0 := if round.accepted.Some? then r + [Client(round.accepted.value, "")] else r;
    forall fd | fd in round.inbox && round.inbox[fd] == Closed
      ensures !IsListed(After(r, maxClients, RoundEvents(r, round)), fd)
    {
      ClosedAreGone(r0, maxClients, round.inbox, fd);
    }
  }

  // ---- the list ----

  class Node {
    const fd: int
    var username: string
    var next: Node?

    constructor (fd: int)
      ensures this.fd == fd && username == "" && next == null
    {
      this.fd, username, next := fd, "", null;
    }
  }

  /** The roster that a list of nodes stands for. */
  ghost function Clients(nodes: seq<Node>): seq<Client>
    reads nodes
  {
    seq(|nodes|, i requires 0 <= i < |nodes| reads nodes => Client(nodes[i].fd, nodes[i].username))
  }

  /** The nodes are the next chain behind the head. */
  ghost predicate Linked(head: Node, nodes: seq<Node>)
    reads head, nodes
  {
    && head.next == At(nodes, 0)
    && (forall i {:trigger nodes[i].next} | 0 <= i < |nodes| :: nodes[i].next == At(nodes, i + 1))
  }

  ghost function At(nodes: seq<Node>, k: nat): Node? {
    if k < |nodes| then nodes[k] else null
  }

  ghost predicate Separate(head: Node, nodes: seq<Node>) {
    && head !in nodes
    && (forall i, j | 0 <= i < j < |nodes| :: nodes[i].fd != nodes[j].fd)
    && (forall i | 0 <= i < |nodes| :: nodes[i].fd != head.fd)
  }

  lemma SeparateAt(head: Node, nodes: seq<Node>, k: nat)
    requires Separate(head, nodes) && k < |nodes|
    ensures nodes[k] != head && head !in nodes && (forall i | 0 <= i < |nodes| && i != k :: nodes[i].fd != nodes[k].fd)
  {
  }

  lemma AppendSeparate(head: Node, nodes: seq<Node>, node: Node)
    requires Separate(head, nodes) && node != head && node.fd != head.fd && node.fd !in Fds(Clients(nodes))
    ensures Separate(head, nodes + [node])
  {
    var r := Clients(nodes);
    FdsAt(r);
    assert forall i | 0 <= i < |nodes| :: Fds(r)[i] == nodes[i].fd;
  }

  lemma RemoveSeparate(head: Node, nodes: seq<Node>, k: nat)
    requires Separate(head, nodes) && k < |nodes|
    ensures Separate(head, nodes[..k] + nodes[k + 1..])
  {
    var rest := nodes[..k] + nodes[k + 1..];
    assert forall i | 0 <= i < |rest| :: rest[i] == nodes[if i < k then i else i + 1];
  }

  /** The list is as before, or without the node at k. */
  ghost predicate Kept(before: seq<Node>, k: nat, after: seq<Node>) {
    k < |before| && (after == before || after == before[..k] + before[k + 1..])
  }

  /** The nodes from k on are those from i on of the list at the start, and the cursor is on the first of them. */
  ghost predicate OnTrack(nodes: seq<Node>, k: nat, start: seq<Node>, i: nat, node: Node?) {
    k <= |nodes| && i <= |start| && nodes[k..] == start[i..] && node == At(start, i)
  }

  lemma TrackAt(nodes: seq<Node>, k: nat, start: seq<Node>, i: nat, node: Node?)
    requires OnTrack(nodes, k, start, i, node) && node != null
    ensures k < |nodes| && i < |start| && nodes[k] == node == start[i]
    ensures nodes[k + 1..] == start[i + 1..] && At(nodes, k + 1) == At(start, i + 1)
  {
    assert nodes[k] == nodes[k..][0];
    assert nodes[k..][1..] == start[i..][1..];
    assert |nodes| - k == |start| - i;
    if k + 1 < |nodes| {
      assert nodes[k + 1..][0] == start[i + 1..][0];
    }
  }

  /** What is ahead of the cursor stays in the list, and nothing new comes in. */
  lemma AheadIsKept(before: seq<Node>, k: nat, after: seq<Node>, start: seq<Node>, i: nat)
    requires Kept(before, k, after) && i < |start| && before[k + 1..] == start[i + 1..]
    ensures OnTrack(after, if after == before then k + 1 else k, start, i + 1, At(start, i + 1))
    ensures forall x | x in after :: x in before
  {
    assert after != before ==> after[k..] == before[k + 1..];
  }

  class Server {
    const head: Node
    const maxClients: int
    ghost var nodes: seq<Node>

    ghost predicate Valid()
      reads this, head, nodes
    {
      Separate(head, nodes) && Linked(head, nodes)
    }

    ghost function Linkable(): set<Node>
      reads this
    {
      set x | x in nodes
    }

    ghost function View(): seq<Client>
      reads this, nodes
    {
      Clients(nodes)
    }

    constructor (listenFd: int, maxClients: int)
      ensures Valid() && fresh(head) && View() == [] && head.fd == listenFd && this.maxClients == maxClients
    {
      head := new Node(listenFd);
      this.maxClients := maxClients;
      nodes := [];
    }

    // ---- reading the list ----

    method ClientCount() returns (count: int)
      requires Valid()
      ensures count == |View()|
    {
      count := 0;
      var node := head.next;
      while node != null
        invariant 0 <= count <= |nodes| && node == At(nodes, count)
        decreases |nodes| - count
      {
        count := count + 1;
        node := node.next;
      }
    }

    method IsDuplicateName(name: string) returns (duplicate: bool)
      requires Valid()
      ensures duplicate <==> name in Names(View())
    {
      FdsAt(View());
      var node := head.next;
      ghost var k := 0;
      while node != null
        invariant 0 <= k <= |nodes| && node == At(nodes, k)
        invariant forall i | 0 <= i < k :: Names(View())[i] != name
        decreases |nodes| - k
      {
        assert Names(View())[k] == nodes[k].username;
        if node.username == name {
          return true;
        }
        node := node.next;
        k := k + 1;
      }
      return false;
    }

    method GetUsernames() returns (names: seq<string>)
      requires Valid()
      ensures names == Names(View())
    {
      FdsAt(View());
      names := [];
      var node := head.next;
      ghost var k := 0;
      while node != null
        invariant 0 <= k <= |nodes| && node == At(nodes, k)
        invariant names == Names(View())[..k]
        decreases |nodes| - k
      {
        names := names + [node.username];
        node := node.next;
        k := k + 1;
      }
    }

    /** The message goes to every node but the one that it came from. */
    method MsgBroadcast(current: Node, message: Message) returns (posts: seq<Post>)
      requires Valid()
      ensures posts == Broadcast(View(), current.fd, message)
    {
      hide Separate, Broadcast;
      BroadcastNobody(current.fd, message);
      posts := [];
      var node := head.next;
      ghost var k := 0;
      while node != null
        invariant 0 <= k <= |nodes| && node == At(nodes, k)
        invariant posts == Broadcast(View()[..k], current.fd, message)
        decreases |nodes| - k
      {
        assert View()[..k + 1] == View()[..k] + [View()[k]];
        BroadcastSplit(View()[..k], View()[k], current.fd, message);
        if node.fd != current.fd {
          posts := posts + [Post(node.fd, message)];
        }
        node := node.next;
        k := k + 1;
      }
      assert View()[..k] == View();
    }

    // ---- changing the list ----

    method AppendNode(fd: int)
      requires Valid() && fd != head.fd && fd !in Fds(View())
      modifies this, head, Linkable()
      ensures Valid() && View() == old(View()) + [Client(fd, "")]
      ensures |nodes| == |old(nodes)| + 1 && nodes[..|nodes| - 1] == old(nodes) && fresh(nodes[|nodes| - 1])
    {
      hide Fds, Separate;
      var node := new Node(fd);
      var last := head;
      ghost var k := 0;
      while last.next != null
        invariant 0 <= k <= |nodes| && node.next == null && node.username == "" && last == if k == 0 then head else nodes[k - 1]
        decreases |nodes| - k
      {
        last := last.next;
        k := k + 1;
      }
      AppendSeparate(head, nodes, node);
      last.next := node;
      nodes := nodes + [node];
    }

    method RemoveNode(node: Node, ghost k: nat)
      requires Valid() && k < |nodes| && nodes[k] == node
      modifies this, head`next, Linkable()`next
      ensures Valid() && nodes == old(nodes)[..k] + old(nodes)[k + 1..] && node.next == old(node.next)
      ensures View() == old(View())[..k] + old(View())[k + 1..]
    {
      hide Separate;
      RemoveSeparate(head, nodes, k);
      SeparateAt(head, nodes, k);
      var before := head;
      ghost var i := 0;
      while before.next.fd != node.fd
        invariant 0 <= i <= k && before == if i == 0 then head else nodes[i - 1]
        decreases k - i
      {
        before := before.next;
        i := i + 1;
      }
      before.next := node.next;
      nodes := nodes[..k] + nodes[k + 1..];
      assert forall j | 0 <= j < k :: nodes[j] == old(nodes)[j];
      assert forall j | k <= j < |nodes| :: nodes[j] == old(nodes)[j + 1];
    }

    // ---- the events ----

    /** The client's place in the roster. */
    lemma PlaceOf(k: nat)
      requires Valid() && k < |nodes|
      ensures |View()| == |nodes| && FdsDistinct(View()) && nodes[k].fd in Fds(View())
      ensures View()[k] == Client(nodes[k].fd, nodes[k].username)
      ensures NameOf(View(), nodes[k].fd) == nodes[k].username
    {
      FdsAt(View());
      assert Fds(View())[k] == nodes[k].fd;
      NameAt(View(), k);
    }

    /** A client has closed its connection: the others are told, and it is unlinked. */
    method Leave(node: Node, ghost k: nat) returns (posts: seq<Post>)
      requires Valid() && k < |nodes| && nodes[k] == node
      modifies this, head`next, Linkable()`next
      ensures Valid() && Kept(old(nodes), k, nodes) && node.next == old(node.next)
      ensures View() == Step(old(View()), maxClients, Event.Leave(node.fd))
      ensures posts == Posts(old(View()), maxClients, Event.Leave(node.fd))
    {
      PlaceOf(k);
      RemovedAt(View(), k);
      posts := MsgBroadcast(node, Offline(node.username));
      RemoveNode(node, k);
    }

    /** A client is refused: it is told why, and it is unlinked. */
    method Refuse(node: Node, full: bool, ghost k: nat) returns (posts: seq<Post>)
      requires Valid() && k < |nodes| && nodes[k] == node
      modifies this, head`next, Linkable()`next
      ensures Valid() && Kept(old(nodes), k, nodes) && node.next == old(node.next)
      ensures View() == Removed(old(View()), node.fd) && posts == [Post(node.fd, Nak(full))]
    {
      hide Removed;
      PlaceOf(k);
      RemovedAt(View(), k);
      posts := [Post(node.fd, Nak(full))];
      RemoveNode(node, k);
    }

    /** A client takes a name: it gets the roster, and the others are told. */
    method Accept(node: Node, name: string, ghost k: nat) returns (posts: seq<Post>)
      requires Valid() && k < |nodes| && nodes[k] == node
      modifies node`username
      ensures Valid()
      ensures View() == Renamed(old(View()), node.fd, name)
      ensures posts == [Post(node.fd, Ack(|View()| - 1, Names(View())))] + Broadcast(View(), node.fd, Online(name))
    {
      hide Renamed, Broadcast, Names, Separate, Linked;
      PlaceOf(k);
      RenamedAt(View(), k, name);
      SetName(node, name, k);
      var names := GetUsernames();
      var count := ClientCount();
      var others := MsgBroadcast(node, Online(name));
      posts := [Post(node.fd, Ack(count - 1, names))] + others;
    }

    method SetName(node: Node, name: string, ghost k: nat)
      requires Valid() && k < |nodes| && nodes[k] == node
      modifies node`username
      ensures Valid() && View() == old(View())[k := Client(node.fd, name)]
    {
      node.username := name;
    }

    /** A client asks to join: it is turned away, or it takes the name and the others are told. */
    method Join(node: Node, name: string, ghost k: nat) returns (posts: seq<Post>)
      requires Valid() && k < |nodes| && nodes[k] == node
      modifies this, head`next, Linkable()
      ensures Valid() && Kept(old(nodes), k, nodes) && node.next == old(node.next)
      ensures View() == Step(old(View()), maxClients, Event.Join(node.fd, name))
      ensures posts == Posts(old(View()), maxClients, Event.Join(node.fd, name))
    {
      hide Renamed, Removed, Broadcast, Names, Separate, Linked, Clients;
      var count := ClientCount();
      if count - 1 >= maxClients {
        posts := Refuse(node, true, k);
        return;
      }
      var duplicate := IsDuplicateName(name);
      if !duplicate {
        RenamedKeepsLength(View(), node.fd, name);
        posts := Accept(node, name, k);
      } else {
        posts := Refuse(node, false, k);
      }
    }

    /** One node of the pass: what its socket has to read decides what happens. */
    method Handle(node: Node, received: Received, ghost inbox: map<int, Received>, ghost k: nat) returns (posts: seq<Post>)
      requires Valid() && k < |nodes| && nodes[k] == node
      requires received == if node.fd in inbox then inbox[node.fd] else Nothing
      modifies this, head`next, Linkable()
      ensures Valid() && Kept(old(nodes), k, nodes) && node.next == old(node.next)
      ensures CanRun(old(View()), maxClients, EventOf(node.fd, inbox))
      ensures View() == After(old(View()), maxClients, EventOf(node.fd, inbox))
      ensures posts == Sent(old(View()), maxClients, EventOf(node.fd, inbox))
    {
      hide CanRun, After, Sent, Separate, Linked, Clients, Broadcast, Removed;
      PlaceOf(k);
      OneEvent(View(), maxClients, node.fd, inbox);
      match received {
        case Closed => posts := Leave(node, k);
        case JoinMessage(name) => posts := Join(node, name, k);
        case SendMessage(text) => posts := MsgBroadcast(node, Forward(node.username, text));
        case IdleMessage => posts := MsgBroadcast(node, Message.IdleNote(node.username));
        case Nothing => posts := [];
        case OtherMessage => posts := [];
      }
    }

    /** The next node of the pass, with the run up to here made longer by what happens to it. */
    method Visit(node: Node, inbox: map<int, Received>, ghost k: nat, ghost r0: seq<Client>, ghost fds: seq<int>)
      returns (posts: seq<Post>)
      requires Valid() && k < |nodes| && nodes[k] == node
      requires CanRun(r0, maxClients, PassEvents(fds, inbox)) && View() == After(r0, maxClients, PassEvents(fds, inbox))
      modifies this, head`next, Linkable()
      ensures Valid() && Kept(old(nodes), k, nodes) && node.next == old(node.next)
      ensures var events := PassEvents(fds + [node.fd], inbox);
        && CanRun(r0, maxClients, events) && View() == After(r0, maxClients, events)
        && Sent(r0, maxClients, events) == Sent(r0, maxClients, PassEvents(fds, inbox)) + posts
    {
      hide Separate, Linked, CanRun, After, Sent;
      posts := Handle(node, if node.fd in inbox then inbox[node.fd] else Nothing, inbox, k);
      PassEventsConcat(fds, [node.fd], inbox);
      assert PassEvents([node.fd], inbox) == EventOf(node.fd, inbox) + [] == EventOf(node.fd, inbox);
      RunConcat(r0, maxClients, PassEvents(fds, inbox), EventOf(node.fd, inbox));
    }

    lemma NextOf(k: nat)
      requires Valid()
      ensures head.next == At(nodes, 0) && (k < |nodes| ==> nodes[k].next == At(nodes, k + 1))
    {
    }

    /** Every node that is in the list at the start is visited exactly once, whatever is unlinked on the way. */
    method Pass(inbox: map<int, Received>) returns (posts: seq<Post>)
      requires Valid()
      modifies this, head`next, Linkable()
      ensures Valid() && Linkable() <= old(Linkable())
      ensures var events := PassEvents(Fds(old(View())), inbox);
        && CanRun(old(View()), maxClients, events) && View() == After(old(View()), maxClients, events)
        && posts == Sent(old(View()), maxClients, events)
    {
      hide Separate, Linked, CanRun, After, Sent;
      ghost var start, r0, fds := nodes, View(), Fds(View());
      FdsAt(r0);
      NoRun(r0, maxClients);
      NextOf(0);
      posts := [];
      var node := head.next;
      ghost var i, k := 0, 0;
      while node != null
        invariant Valid() && Linkable() <= old(Linkable()) && OnTrack(nodes, k, start, i, node)
        invariant CanRun(r0, maxClients, PassEvents(fds[..i], inbox))
        invariant View() == After(r0, maxClients, PassEvents(fds[..i], inbox))
        invariant posts == Sent(r0, maxClients, PassEvents(fds[..i], inbox))
        decreases |start| - i
      {
        TrackAt(nodes, k, start, i, node);
        assert fds[..i + 1] == fds[..i] + [node.fd];
        NextOf(k);
        ghost var before := nodes;
        var more := Visit(node, inbox, k, r0, fds[..i]);
        AheadIsKept(before, k, nodes, start, i);
        posts := posts + more;
        node := node.next;
        k := if nodes == before then k + 1 else k;
        i := i + 1;
      }
      assert fds[..i] == fds;
    }

    lemma ViewIsDistinct()
      requires Valid()
      ensures FdsDistinct(View())
    {
    }

    /** One call of the router: the new connection, and then every node that is in the list by then; whoever has closed is out. */
    method MsgRouter(round: Round) returns (posts: seq<Post>)
      requires Valid() && IsFresh(View(), head.fd, round.accepted)
      modifies this, head, Linkable()
      ensures Valid() && forall x | x in nodes :: x in old(nodes) || fresh(x)
      ensures CanRun(old(View()), maxClients, RoundEvents(old(View()), round))
      ensures View() == After(old(View()), maxClients, RoundEvents(old(View()), round))
      ensures posts == Sent(old(View()), maxClients, RoundEvents(old(View()), round))
      ensures ClosedAreOut(View(), round.inbox)
    {
      hide ClosedAreOut, FdsDistinct, Valid, View, CanRun, After, Sent, PassEvents, Fds;
      ghost var r := View();
      ViewIsDistinct();
      match round.accepted {
        case None =>
          assert RoundEvents(r, round) == PassEvents(Fds(r), round.inbox);
        case Some(fd) =>
          AfterConnect(r, maxClients, round);
          AppendNode(fd);
          assert View() == r + [Client(fd, "")];
      }
      assert forall x | x in Linkable() :: x in old(nodes) || fresh(x);
      posts := Pass(round.inbox);
      assert After(r, maxClients, RoundEvents(r, round)) == View();
      ClosedAreOutAfter(r, maxClients, head.fd, round);
      assert forall x | x in nodes :: x in Linkable();
    }

    /** The server's main loop: whole runs of the router. */
    method Serve(rounds: seq<Round>) returns (posts: seq<Post>)
      requires Valid() && AcceptsAreFresh(View(), maxClients, head.fd, rounds)
      modifies this, head, Linkable()
      ensures Valid() && CanRun(old(View()), maxClients, ServerEvents(old(View()), maxClients, rounds))
      ensures View() == After(old(View()), maxClients, ServerEvents(old(View()), maxClients, rounds))
      ensures posts == Sent(old(View()), maxClients, ServerEvents(old(View()), maxClients, rounds))
      ensures old(Inv(View(), maxClients)) ==> Inv(View(), maxClients)
    {
      hide Separate, Linked, CanRun, After, Sent, Inv, RoundEvents;
      ghost var r0 := View();
      ghost var events := [];
      NoRun(r0, maxClients);
      posts := [];
      assert rounds[0..] == rounds && events + ServerEvents(r0, maxClients, rounds) == ServerEvents(r0, maxClients, rounds);
      for n := 0 to |rounds|
        invariant Valid() && (forall x | x in nodes :: x in old(nodes) || fresh(x))
        invariant AcceptsAreFresh(View(), maxClients, head.fd, rounds[n..])
        invariant ServerEvents(r0, maxClients, rounds) == events + ServerEvents(View(), maxClients, rounds[n..])
        invariant CanRun(r0, maxClients, events) && View() == After(r0, maxClients, events)
        invariant posts == Sent(r0, maxClients, events)
      {
        ghost var r := View();
        ghost var more := RoundEvents(r, rounds[n]);
        assert rounds[n..][0] == rounds[n] && rounds[n..][1..] == rounds[n + 1..];
        var sent := MsgRouter(rounds[n]);
        RunConcat(r0, maxClients, events, more);
        assert events + (more + ServerEvents(View(), maxClients, rounds[n + 1..]))
            == (events + more) + ServerEvents(View(), maxClients, rounds[n + 1..]);
        posts, events := posts + sent, events + more;
      }
      assert rounds[|rounds|..] == [] && events + [] == events;
      if Inv(r0, maxClients) {
        RunKeepsInv(r0, maxClients, events);
      }
    }
  }
}
