/** What the two transfer handlers share: the events of their loops, their outcome, and the receive buffer. */
module Sessions {
  import opened Bytes
  import opened Packets

  const MAX_RETRY := 10

  // Shorter datagrams than a header make the C code read bytes of an earlier one; recvfrom cuts off longer ones.
  type Datagram = s: seq<byte> | 4 <= |s| <= PACKET_SIZE witness [0, 0, 0, 0]

  /** What one select in the loop leads to. */
  datatype Event = Timeout | Receive(datagram: Datagram)

  datatype Status = Running | Succeeded | Failed

  function CountTimeouts(events: seq<Event>): nat
    decreases |events|
  {
    if events == [] then 0 else (if events[0].Timeout? then 1 else 0) + CountTimeouts(events[1..])
  }

  lemma {:induction false} CountSnoc(events: seq<Event>, e: Event)
    ensures CountTimeouts(events + [e]) == CountTimeouts(events) + if e.Timeout? then 1 else 0
    decreases |events|
  {
    if events == [] {
      assert [e][1..] == [];
    } else {
      assert (events + [e])[1..] == events[1..] + [e];
      CountSnoc(events[1..], e);
    }
  }

  lemma {:induction false} CountOfPrefix(events: seq<Event>, n: nat)
    requires n <= |events|
    ensures CountTimeouts(events[..n]) <= CountTimeouts(events)
    decreases |events|
  {
    if n > 0 {
      assert events[..n][1..] == events[1..][..n - 1];
      CountOfPrefix(events[1..], n - 1);
    }
  }

  /** recvfrom into the handler's buffer. */
  method ReceiveInto(buf: array<byte>, datagram: Datagram)
    requires buf.Length == PACKET_SIZE
    modifies buf
    ensures buf[..|datagram|] == datagram
  {
    forall i | 0 <= i < |datagram| {
      buf[i] := datagram[i];
    }
  }
}
