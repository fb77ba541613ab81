/** The chat server's roster as a state machine: who is connected, under which name, and who is sent what. */
module Roster {

  /** A connected client; it has joined when its name is not empty. */
  datatype Client = Client(fd: int, name: string)

  datatype Message =
    | Ack(count: int, names: seq<string>) | Nak(full: bool) | Online(name: string) | Offline(name: string)
    | Forward(name: string, text: string) | IdleNote(name: string)

  datatype Event =
    | Connect(fd: int) | Join(fd: int, name: string) | Send(fd: int, text: string) | Idle(fd: int) | Leave(fd: int)

  /** A message and the socket that it is written to. */
  datatype Post = Post(fd: int, message: Message)

  function Fds(r: seq<Client>): seq<int> {
    if r == [] then [] else [r[0].fd] + Fds(r[1..])
  }

  function Names(r: seq<Client>): seq<string> {
    if r == [] then [] else [r[0].name] + Names(r[1..])
  }

  function NameOf(r: seq<Client>, fd: int): string {
    if r == [] then "" else if r[0].fd == fd then r[0].name else NameOf(r[1..], fd)
  }

  function Removed(r: seq<Client>, fd: int): seq<Client> {
    if r == [] then [] else if r[0].fd == fd then r[1..] else [r[0]] + Removed(r[1..], fd)
  }

  function Renamed(r: seq<Client>, fd: int, name: string): seq<Client> {
    if r == [] then [] else if r[0].fd == fd then [Client(fd, name)] + r[1..] else [r[0]] + Renamed(r[1..], fd, name)
  }

  /** A broadcast goes to every node of the list but its origin. */
  function Broadcast(r: seq<Client>, origin: int, message: Message): seq<Post> {
    if r == [] then []
    else (if r[0].fd != origin then [Post(r[0].fd, message)] else []) + Broadcast(r[1..], origin, message)
  }

  /** What an event does to the roster. */
  function Step(r: seq<Client>, maxClients: int, e: Event): seq<Client> {
    match e
    case Connect(fd) => r + [Client(fd, "")]
    case Leave(fd) => Removed(r, fd)
    case Join(fd, name) =>
      if |r| - 1 >= maxClients || name in Names(r) then Removed(r, fd) else Renamed(r, fd, name)
    case _ => r
  }

  /** What is written to whom. */
  function Posts(r: seq<Client>, maxClients: int, e: Event): seq<Post> {
    match e
    case Connect(fd) => []
    case Leave(fd) => Broadcast(r, fd, Offline(NameOf(r, fd)))
    case Join(fd, name) =>
      if |r| - 1 >= maxClients then [Post(fd, Nak(true))]
      else if name in Names(r) then [Post(fd, Nak(false))]
      else
        var r' := Renamed(r, fd, name);
        [Post(fd, Ack(|r| - 1, Names(r')))] + Broadcast(r', fd, Online(name))
    case Send(fd, text) => Broadcast(r, fd, Forward(NameOf(r, fd), text))
    case Idle(fd) => Broadcast(r, fd, IdleNote(NameOf(r, fd)))
  }

  predicate Enabled(r: seq<Client>, e: Event) {
    if e.Connect? then e.fd !in Fds(r) else e.fd in Fds(r)
  }

  // ---- the invariant ----

  ghost predicate FdsDistinct(r: seq<Client>) {
    forall i, j | 0 <= i < j < |r| :: r[i].fd != r[j].fd
  }

  /** The number of clients that have joined. */
  function Joined(r: seq<Client>): nat {
    if r == [] then 0 else (if r[0].name != "" then 1 else 0) + Joined(r[1..])
  }

  /** The number of clients that are connected and have not joined. */
  function Unjoined(r: seq<Client>): nat {
    if r == [] then 0 else (if r[0].name == "" then 1 else 0) + Unjoined(r[1..])
  }

  lemma {:induction false} JoinedOrNot(r: seq<Client>)
    ensures Joined(r) + Unjoined(r) == |r|
  {
    if r != [] {
      JoinedOrNot(r[1..]);
    }
  }

  ghost predicate Inv(r: seq<Client>, maxClients: int) {
    && FdsDistinct(r)
    && (forall i, j | 0 <= i < j < |r| :: r[i].name == r[j].name ==> r[i].name == "")
    && (Joined(r) == 0 || Joined(r) <= maxClients)
  }

  lemma {:induction false} FdsAt(r: seq<Client>)
    ensures |Fds(r)| == |Names(r)| == |r|
    ensures forall i | 0 <= i < |r| :: Fds(r)[i] == r[i].fd && Names(r)[i] == r[i].name
  {
    if r != [] {
      FdsAt(r[1..]);
      forall i | 0 <= i < |r|
        ensures Fds(r)[i] == r[i].fd && Names(r)[i] == r[i].name
      {
        if i > 0 {
          assert r[i] == r[1..][i - 1];
        }
      }
    }
  }

  /** The place of a client in the roster. */
  lemma IndexOf(r: seq<Client>, fd: int) returns (k: nat)
    requires fd in Fds(r)
    ensures k < |r| && r[k].fd == fd
  {
    FdsAt(r);
    k :| 0 <= k < |Fds(r)| && Fds(r)[k] == fd;
  }

  lemma {:induction false} RemovedAt(r: seq<Client>, k: nat)
    requires k < |r| && FdsDistinct(r)
    ensures Removed(r, r[k].fd) == r[..k] + r[k + 1..]
  {
    if k > 0 {
      RemovedAt(r[1..], k - 1);
    }
  }

  lemma {:induction false} RenamedKeepsLength(r: seq<Client>, fd: int, name: string)
    ensures |Renamed(r, fd, name)| == |r|
  {
    if r != [] {
      RenamedKeepsLength(r[1..], fd, name);
    }
  }

  lemma {:induction false} NameAt(r: seq<Client>, k: nat)
    requires k < |r| && FdsDistinct(r)
    ensures NameOf(r, r[k].fd) == r[k].name
  {
    if k > 0 {
      NameAt(r[1..], k - 1);
    }
  }

  lemma {:induction false} RenamedAt(r: seq<Client>, k: nat, name: string)
    requires k < |r| && FdsDistinct(r)
    ensures Renamed(r, r[k].fd, name) == r[k := Client(r[k].fd, name)]
  {
    if k > 0 {
      RenamedAt(r[1..], k - 1, name);
    } else {
      assert r[0 := Client(r[0].fd, name)] == [Client(r[0].fd, name)] + r[1..];
    }
  }

  lemma {:induction false} JoinedConcat(r: seq<Client>, t: seq<Client>)
    ensures Joined(r + t) == Joined(r) + Joined(t)
  {
    if r == [] {
      assert r + t == t;
    } else {
      assert (r + t)[1..] == r[1..] + t;
      JoinedConcat(r[1..], t);
    }
  }

  lemma {:induction false} JoinedAtMostAll(r: seq<Client>)
    ensures Joined(r) <= |r|
  {
    if r != [] {
      JoinedAtMostAll(r[1..]);
    }
  }

  lemma JoinedWithout(r: seq<Client>, k: nat)
    requires k < |r|
    ensures Joined(r[..k] + r[k + 1..]) <= Joined(r)
  {
    assert r == r[..k] + r[k..];
    JoinedConcat(r[..k], r[k..]);
    assert r[k..][1..] == r[k + 1..];
    JoinedConcat(r[..k], r[k + 1..]);
  }

  lemma RemovedKeepsInv(r: seq<Client>, maxClients: int, fd: int)
    requires Inv(r, maxClients) && fd in Fds(r)
    ensures Inv(Removed(r, fd), maxClients)
  {
    hide Joined, Removed, Fds;
    var k := IndexOf(r, fd);
    RemovedAt(r, k);
    JoinedWithout(r, k);
    var r' := Removed(r, fd);
    assert forall i | 0 <= i < k :: r'[i] == r[i];
    assert forall i | k <= i < |r'| :: r'[i] == r[i + 1];
  }

  lemma RenamedKeepsInv(r: seq<Client>, maxClients: int, fd: int, name: string)
    requires Inv(r, maxClients) && fd in Fds(r) && |r| <= maxClients && name !in Names(r)
    ensures Inv(Renamed(r, fd, name), maxClients)
  {
    var k := IndexOf(r, fd);
    FdsAt(r);
    RenamedAt(r, k, name);
    JoinedAtMostAll(Renamed(r, fd, name));
    assert forall i | 0 <= i < |r| :: r[i].name in Names(r) by {
      assert forall i | 0 <= i < |r| :: Names(r)[i] == r[i].name;
    }
  }

  lemma ConnectKeepsInv(r: seq<Client>, maxClients: int, fd: int)
    requires Inv(r, maxClients) && fd !in Fds(r)
    ensures Inv(r + [Client(fd, "")], maxClients)
  {
    FdsAt(r);
    assert forall i | 0 <= i < |r| :: Fds(r)[i] in Fds(r);
    JoinedConcat(r, [Client(fd, "")]);
  }

  lemma StepKeepsInv(r: seq<Client>, maxClients: int, e: Event)
    requires Inv(r, maxClients) && Enabled(r, e)
    ensures Inv(Step(r, maxClients, e), maxClients)
  {
    match e
    case Connect(fd) => ConnectKeepsInv(r, maxClients, fd);
    case Leave(fd) => RemovedKeepsInv(r, maxClients, fd);
    case Join(fd, name) =>
      if |r| - 1 >= maxClients || name in Names(r) {
        RemovedKeepsInv(r, maxClients, fd);
      } else {
        RenamedKeepsInv(r, maxClients, fd, name);
      }
    case _ =>
  }

  /** Every event of the run is possible where it happens. */
  predicate CanRun(r: seq<Client>, maxClients: int, events: seq<Event>)
    decreases |events|
  {
    events == [] || (Enabled(r, events[0]) && CanRun(Step(r, maxClients, events[0]), maxClients, events[1..]))
  }

  /** The roster after a run. */
  function After(r: seq<Client>, maxClients: int, events: seq<Event>): seq<Client>
    decreases |events|
  {
    if events == [] then r else After(Step(r, maxClients, events[0]), maxClients, events[1..])
  }

  /** All that is written during a run. */
  function Sent(r: seq<Client>, maxClients: int, events: seq<Event>): seq<Post>
    decreases |events|
  {
    if events == [] then []
    else Posts(r, maxClients, events[0]) + Sent(Step(r, maxClients, events[0]), maxClients, events[1..])
  }

  /** A run followed by another. */
  lemma {:induction false} RunConcat(r: seq<Client>, maxClients: int, a: seq<Event>, b: seq<Event>)
    ensures var r' := After(r, maxClients, a);
      && After(r, maxClients, a + b) == After(r', maxClients, b)
      && Sent(r, maxClients, a + b) == Sent(r, maxClients, a) + Sent(r', maxClients, b)
      && (CanRun(r, maxClients, a + b) <==> CanRun(r, maxClients, a) && CanRun(r', maxClients, b))
    decreases |a|
  {
    hide Step, Posts, Enabled;
    if a == [] {
      assert a + b == b;
    } else {
      assert (a + b)[1..] == a[1..] + b;
      RunConcat(Step(r, maxClients, a[0]), maxClients, a[1..], b);
    }
  }

  lemma {:induction false} RunKeepsInv(r: seq<Client>, maxClients: int, events: seq<Event>)
    requires Inv(r, maxClients) && CanRun(r, maxClients, events)
    ensures Inv(After(r, maxClients, events), maxClients)
    decreases |events|
  {
    hide Step, Posts, Enabled, Inv;
    if events != [] {
      StepKeepsInv(r, maxClients, events[0]);
      RunKeepsInv(Step(r, maxClients, events[0]), maxClients, events[1..]);
    }
  }

  /** In every reachable roster nonempty names are pairwise distinct and at most maxClients clients have joined. */
  lemma RosterIsSafe(maxClients: int, events: seq<Event>)
    requires CanRun([], maxClients, events)
    ensures var r := After([], maxClients, events);
      && FdsDistinct(r) && (Joined(r) == 0 || Joined(r) <= maxClients)
      && (forall i, j | 0 <= i < j < |r| :: r[i].name != "" ==> r[i].name != r[j].name)
  {
    RunKeepsInv([], maxClients, events);
  }

  /** The cap counts connections: a client can be turned away as one too many while nobody has joined. */
  lemma CapCountsConnections()
    ensures var events := [Connect(4), Connect(5), Join(4, "ann")];
      && CanRun([], 1, events) && After([], 1, events) == [Client(5, "")] && Sent([], 1, events) == [Post(4, Nak(true))]
  {
    var r1, r2 := [Client(4, "")], [Client(4, ""), Client(5, "")];
    var events := [Connect(4), Connect(5), Join(4, "ann")];
    assert Fds(r1) == [4] && Fds(r2) == [4, 5] by {
      assert r2[1..] == [Client(5, "")];
    }
    assert r1 + [Client(5, "")] == r2 && [] + [Client(4, "")] == r1;
    assert events[1..] == [Connect(5), Join(4, "ann")] && events[1..][1..] == [Join(4, "ann")];
    assert CanRun(r2, 1, [Join(4, "ann")]);
    assert CanRun(r1, 1, events[1..]);
    assert Removed(r2, 4) == [Client(5, "")];
    assert After(r2, 1, [Join(4, "ann")]) == [Client(5, "")] && Sent(r2, 1, [Join(4, "ann")]) == [Post(4, Nak(true))];
    assert After(r1, 1, events[1..]) == [Client(5, "")] && Sent(r1, 1, events[1..]) == [Post(4, Nak(true))];
  }

  /** A JOIN is turned away as one too many exactly when the other connections, joined or not, fill the cap. */
  lemma TurnedAwayIffOthersFillTheCap(r: seq<Client>, maxClients: int, fd: int, name: string)
    requires Inv(r, maxClients) && fd in Fds(r)
    ensures var others := Removed(r, fd);
      Posts(r, maxClients, Join(fd, name)) == [Post(fd, Nak(true))] <==> Joined(others) + Unjoined(others) >= maxClients
  {
    hide Broadcast, Names, Renamed, Joined, Unjoined;
    var k := IndexOf(r, fd);
    RemovedAt(r, k);
    JoinedOrNot(Removed(r, fd));
    var posts := Posts(r, maxClients, Join(fd, name));
    assert posts[0] == Post(fd, Nak(true)) <==> |r| - 1 >= maxClients;
  }

  lemma OthersInRemoved(r: seq<Client>, k: nat, c: Client)
    requires k < |r| && c != r[k]
    ensures c in r[..k] + r[k + 1..] <==> c in r
  {
    assert r == r[..k] + [r[k]] + r[k + 1..];
  }

  lemma OthersInRenamed(r: seq<Client>, k: nat, client: Client, c: Client)
    requires k < |r| && c != r[k] && c != client
    ensures c in r[k := client] <==> c in r
  {
    assert r == r[..k] + [r[k]] + r[k + 1..];
    assert r[k := client] == r[..k] + [client] + r[k + 1..];
  }

  /** Whatever a client does, all the others stay connected under their names. */
  lemma StepTouchesOnlyItsClient(r: seq<Client>, maxClients: int, e: Event, c: Client)
    requires FdsDistinct(r) && Enabled(r, e) && c.fd != e.fd
    ensures c in Step(r, maxClients, e) <==> c in r
  {
    hide Fds, Names;
    if e.Join? || e.Leave? {
      var k := IndexOf(r, e.fd);
      RemovedAt(r, k);
      OthersInRemoved(r, k, c);
      if e.Join? {
        RenamedAt(r, k, e.name);
        OthersInRenamed(r, k, Client(e.fd, e.name), c);
      }
    }
  }

  /** A JOIN is granted if and only if there is room and nobody has the name; otherwise the client is disconnected. */
  lemma JoinIsGrantedIff(r: seq<Client>, maxClients: int, fd: int, name: string)
    requires FdsDistinct(r) && fd in Fds(r)
    ensures var r' := Step(r, maxClients, Join(fd, name));
      && (Client(fd, name) in r' <==> |r| <= maxClients && name !in Names(r))
      && (Client(fd, name) !in r' <==> forall c | c in r' :: c.fd != fd)
  {
    hide Fds, Names, Removed, Renamed, FdsDistinct;
    var k := IndexOf(r, fd);
    RemovedAt(r, k);
    RenamedAt(r, k, name);
    RemovedIsGone(r, k);
    assert Renamed(r, fd, name)[k] == Client(fd, name);
  }

  lemma RemovedIsGone(r: seq<Client>, k: nat)
    requires k < |r| && FdsDistinct(r)
    ensures forall c | c in r[..k] + r[k + 1..] :: c.fd != r[k].fd
  {
    var removed := r[..k] + r[k + 1..];
    assert forall i | 0 <= i < |removed| :: removed[i] == r[if i < k then i else i + 1];
  }

  // ---- broadcasts ----

  lemma BroadcastNobody(origin: int, message: Message)
    ensures Broadcast([], origin, message) == []
  {
  }

  lemma {:induction false} BroadcastSplit(r: seq<Client>, last: Client, origin: int, message: Message)
    ensures Broadcast(r + [last], origin, message)
         == Broadcast(r, origin, message) + (if last.fd != origin then [Post(last.fd, message)] else [])
  {
    if r == [] {
      assert [last][1..] == [];
    } else {
      assert (r + [last])[1..] == r[1..] + [last];
      BroadcastSplit(r[1..], last, origin, message);
      var first := if r[0].fd != origin then [Post(r[0].fd, message)] else [];
      var end := if last.fd != origin then [Post(last.fd, message)] else [];
      assert Broadcast(r + [last], origin, message) == first + (Broadcast(r[1..], origin, message) + end);
    }
  }

  /** A broadcast goes to a socket at most once, never to its origin, and to every other listed one. */
  lemma {:induction false} BroadcastReachesTheOthers(r: seq<Client>, origin: int, message: Message)
    requires FdsDistinct(r)
    ensures var posts := Broadcast(r, origin, message);
      && (forall i, j | 0 <= i < j < |posts| :: posts[i].fd != posts[j].fd)
      && (forall fd :: Post(fd, message) in posts <==> fd in Fds(r) && fd != origin)
      && (forall i | 0 <= i < |posts| :: posts[i].message == message && posts[i].fd in Fds(r))
  {
    if r != [] {
      BroadcastReachesTheOthers(r[1..], origin, message);
      FdsAt(r[1..]);
      var rest, head := Broadcast(r[1..], origin, message), r[0].fd;
      assert head !in Fds(r[1..]) by {
        assert forall i | 0 <= i < |r[1..]| :: r[1..][i] == r[i + 1];
        assert forall i | 0 <= i < |r[1..]| :: Fds(r[1..])[i] == r[1..][i].fd;
      }
      assert forall i | 0 <= i < |rest| :: rest[i].fd != head;
    }
  }

  // ---- who is written what ----

  ghost predicate IsListed(r: seq<Client>, fd: int) {
    exists i | 0 <= i < |r| :: r[i].fd == fd
  }

  /** Every listed socket but the origin gets the message, exactly once, and nothing else is written. */
  ghost predicate ToAllOthers(posts: seq<Post>, r: seq<Client>, origin: int, message: Message) {
    && (forall p: Post :: p in posts <==> IsListed(r, p.fd) && p.fd != origin && p.message == message)
    && (forall i, j | 0 <= i < j < |posts| :: posts[i] != posts[j])
  }

  lemma BroadcastIsToAllOthers(r: seq<Client>, origin: int, message: Message)
    requires FdsDistinct(r)
    ensures ToAllOthers(Broadcast(r, origin, message), r, origin, message)
  {
    hide Broadcast, Fds;
    BroadcastReachesTheOthers(r, origin, message);
    FdsAt(r);
    forall fd: int
      ensures fd in Fds(r) <==> IsListed(r, fd)
    {
      ListedIff(r, fd);
    }
    forall p: Post
      ensures p in Broadcast(r, origin, message) <==> IsListed(r, p.fd) && p.fd != origin && p.message == message
    {
      assert p == Post(p.fd, p.message);
    }
  }

  lemma ListedIff(r: seq<Client>, fd: int)
    ensures fd in Fds(r) <==> IsListed(r, fd)
  {
    FdsAt(r);
    if fd in Fds(r) {
      var i := IndexOf(r, fd);
    }
    if IsListed(r, fd) {
      var i :| 0 <= i < |r| && r[i].fd == fd;
      assert Fds(r)[i] == fd;
    }
  }

  lemma OneEventSends(r: seq<Client>, maxClients: int, e: Event)
    ensures Sent(r, maxClients, [e]) == Posts(r, maxClients, e)
  {
    hide Step, Posts;
    assert [e][1..] == [];
    assert Sent(Step(r, maxClients, e), maxClients, []) == [];
  }

  lemma NameOfClient(r: seq<Client>, client: Client)
    requires FdsDistinct(r) && client in r
    ensures NameOf(r, client.fd) == client.name && client.fd in Fds(r)
  {
    var k :| 0 <= k < |r| && r[k] == client;
    NameAt(r, k);
    FdsAt(r);
    assert Fds(r)[k] == client.fd;
  }

  /** A chat message is forwarded to every other client, under the sender's name. */
  lemma MessageIsForwarded(r: seq<Client>, maxClients: int, sender: Client, text: string)
    requires FdsDistinct(r) && sender in r
    ensures ToAllOthers(Sent(r, maxClients, [Send(sender.fd, text)]), r, sender.fd, Forward(sender.name, text))
  {
    OneEventSends(r, maxClients, Send(sender.fd, text));
    NameOfClient(r, sender);
    BroadcastIsToAllOthers(r, sender.fd, Forward(sender.name, text));
  }

  /** Every other client is told who has gone idle. */
  lemma IdleIsTold(r: seq<Client>, maxClients: int, client: Client)
    requires FdsDistinct(r) && client in r
    ensures ToAllOthers(Sent(r, maxClients, [Idle(client.fd)]), r, client.fd, IdleNote(client.name))
  {
    OneEventSends(r, maxClients, Idle(client.fd));
    NameOfClient(r, client);
    BroadcastIsToAllOthers(r, client.fd, IdleNote(client.name));
  }

  /** Every other client is told who has left. */
  lemma LeaveIsTold(r: seq<Client>, maxClients: int, client: Client)
    requires FdsDistinct(r) && client in r
    ensures ToAllOthers(Sent(r, maxClients, [Leave(client.fd)]), r, client.fd, Offline(client.name))
  {
    OneEventSends(r, maxClients, Leave(client.fd));
    NameOfClient(r, client);
    BroadcastIsToAllOthers(r, client.fd, Offline(client.name));
  }

  /** The names of a roster in which one client has taken a new one. */
  ghost predicate NamesWith(r: seq<Client>, fd: int, name: string, names: seq<string>) {
    |names| == |r| && forall i | 0 <= i < |r| :: names[i] == if r[i].fd == fd then name else r[i].name
  }

  ghost predicate NameIsFree(r: seq<Client>, name: string) {
    forall i | 0 <= i < |r| :: r[i].name != name
  }

  lemma NameIsFreeIff(r: seq<Client>, name: string)
    ensures NameIsFree(r, name) <==> name !in Names(r)
  {
    FdsAt(r);
  }

  lemma NamesOfRenamed(r: seq<Client>, k: nat, name: string)
    requires k < |r| && FdsDistinct(r)
    ensures var r' := Renamed(r, r[k].fd, name);
      NamesWith(r, r[k].fd, name, Names(r')) && FdsDistinct(r') && forall fd :: IsListed(r', fd) <==> IsListed(r, fd)
  {
    hide Renamed, Names;
    var r' := Renamed(r, r[k].fd, name);
    RenamedAt(r, k, name);
    FdsAt(r');
    assert forall i | 0 <= i < |r| :: r'[i].fd == r[i].fd;
  }

  /**
    A JOIN is answered: with the number of the other connections and all the names when it is granted, and
    then every other client is told; otherwise with the reason, the lack of room first, and nobody else is.
   */
  lemma JoinIsAnswered(r: seq<Client>, maxClients: int, fd: int, name: string)
    requires FdsDistinct(r) && IsListed(r, fd)
    ensures var posts := Sent(r, maxClients, [Join(fd, name)]);
      if |r| > maxClients then posts == [Post(fd, Nak(true))]
      else if !NameIsFree(r, name) then posts == [Post(fd, Nak(false))]
      else
        && posts != [] && posts[0].fd == fd && posts[0].message.Ack? && posts[0].message.count == |r| - 1
        && NamesWith(r, fd, name, posts[0].message.names)
        && ToAllOthers(posts[1..], r, fd, Online(name))
  {
    hide Renamed, Names, Broadcast, Fds, NameOf;
    OneEventSends(r, maxClients, Join(fd, name));
    NameIsFreeIff(r, name);
    ListedIff(r, fd);
    var k := IndexOf(r, fd);
    NamesOfRenamed(r, k, name);
    var r' := Renamed(r, fd, name);
    BroadcastIsToAllOthers(r', fd, Online(name));
    var ack, rest := [Post(fd, Ack(|r| - 1, Names(r')))], Broadcast(r', fd, Online(name));
    assert (ack + rest)[1..] == rest;
  }

  /** Nothing is written for a new connection. */
  lemma ConnectIsSilent(r: seq<Client>, maxClients: int, fd: int)
    ensures Sent(r, maxClients, [Connect(fd)]) == []
  {
    OneEventSends(r, maxClients, Connect(fd));
  }

  // ---- who is gone ----

  lemma ListedAt(r: seq<Client>, i: nat)
    requires i < |r|
    ensures IsListed(r, r[i].fd)
  {
  }

  lemma RemovedIndex(r: seq<Client>, k: nat)
    requires k < |r|
    ensures var rest := r[..k] + r[k + 1..];
      && |rest| == |r| - 1 && (forall i | 0 <= i < |rest| :: rest[i] == r[if i < k then i else i + 1])
  {
  }

  lemma RemovedIsDistinct(r: seq<Client>, k: nat)
    requires k < |r| && FdsDistinct(r)
    ensures FdsDistinct(r[..k] + r[k + 1..])
  {
    RemovedIndex(r, k);
    var rest := r[..k] + r[k + 1..];
    forall i, j | 0 <= i < j < |rest|
      ensures rest[i].fd != rest[j].fd
    {
      assert rest[i] == r[if i < k then i else i + 1] && rest[j] == r[if j < k then j else j + 1];
    }
  }

  /** Without a node its socket is not listed, and no other socket comes in. */
  lemma ListedInRemoved(r: seq<Client>, k: nat, fd: int)
    requires k < |r| && FdsDistinct(r) && IsListed(r[..k] + r[k + 1..], fd)
    ensures IsListed(r, fd) && fd != r[k].fd
  {
    RemovedIndex(r, k);
    var rest := r[..k] + r[k + 1..];
    var i :| 0 <= i < |rest| && rest[i].fd == fd;
    var j := if i < k then i else i + 1;
    assert rest[i] == r[j];
    ListedAt(r, j);
  }

  /** No event but a new connection brings a socket into the roster, and a leave takes one out. */
  lemma SocketsAfter(r: seq<Client>, maxClients: int, e: Event, fd: int)
    requires FdsDistinct(r) && Enabled(r, e) && !e.Connect?
    ensures FdsDistinct(Step(r, maxClients, e))
    ensures IsListed(Step(r, maxClients, e), fd) ==> IsListed(r, fd)
    ensures e.Leave? ==> !IsListed(Step(r, maxClients, e), e.fd)
  {
    hide Fds, Names, Removed, Renamed;
    var k := IndexOf(r, e.fd);
    RemovedAt(r, k);
    RemovedIsDistinct(r, k);
    var rest := r[..k] + r[k + 1..];
    if IsListed(rest, fd) {
      ListedInRemoved(r, k, fd);
    }
    if IsListed(rest, e.fd) {
      ListedInRemoved(r, k, e.fd);
    }
    if e.Join? {
      NamesOfRenamed(r, k, e.name);
    }
  }

  /** Who has left during a run without new connections is gone at its end. */
  lemma {:induction false} GoneAfter(r: seq<Client>, maxClients: int, events: seq<Event>, fd: int)
    requires FdsDistinct(r) && CanRun(r, maxClients, events) && forall i | 0 <= i < |events| :: !events[i].Connect?
    requires Leave(fd) in events || !IsListed(r, fd)
    ensures !IsListed(After(r, maxClients, events), fd)
    decreases |events|
  {
    hide Step, Enabled, FdsDistinct, IsListed;
    if events != [] {
      var next := Step(r, maxClients, events[0]);
      SocketsAfter(r, maxClients, events[0], fd);
      assert forall i | 0 <= i < |events[1..]| :: events[1..][i] == events[i + 1];
      assert events == [events[0]] + events[1..];
      GoneAfter(next, maxClients, events[1..], fd);
    }
  }
}
