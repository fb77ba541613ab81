/** The write-request handler: what it does with every sequence of datagrams and timeouts. */
module WriteServer {
  import opened Bytes
  import opened Netascii
  import opened FileIO
  import opened Packets
  import opened Sessions

  /** The transfer at the select in the loop; acks are the block numbers of all the ACKs sent so far. */
  datatype Server = Server(status: Status, last: uint16, timeouts: nat, file: seq<byte>, acks: seq<uint16>)

  const Begin := Server(Running, 0, 0, [], [0])

  function Step(mode: Mode, s: Server, e: Event): Server {
    if s.status != Running then s
    else match e
      case Timeout =>
        if s.timeouts + 1 == MAX_RETRY then s.(status := Failed, timeouts := MAX_RETRY)
        else s.(timeouts := s.timeouts + 1, acks := s.acks + [s.last])
      case Receive(datagram) =>
        match Parse(datagram)
        case Data(num, payload) => Accept(mode, s, num, payload)
        case _ => s.(status := Failed)
  }

  /** Every DATA packet is acknowledged; it is written if its number is higher than the last one. */
  function Accept(mode: Mode, s: Server, num: uint16, payload: seq<byte>): Server {
    Server(
      if |payload| < BLOCK_SIZE then Succeeded else Running,
      num,
      s.timeouts,
      s.file + if num > s.last then Written(mode, payload, Ahead(num, payload)) else [],
      s.acks + [num])
  }

  function Run(mode: Mode, s: Server, events: seq<Event>): Server
    decreases |events|
  {
    if events == [] then s else Run(mode, Step(mode, s, events[0]), events[1..])
  }

  lemma {:induction false} RunStopped(mode: Mode, s: Server, events: seq<Event>)
    requires s.status != Running
    ensures Run(mode, s, events) == s
    decreases |events|
  {
    if events != [] {
      RunStopped(mode, s, events[1..]);
    }
  }

  /** In binary mode a DATA packet is appended as it is, if it is new. */
  lemma StepOnBlock(s: Server, num: uint16, block: seq<byte>)
    requires |block| <= BLOCK_SIZE && s.status == Running
    ensures Step(OctetMode, s, Receive(WireData(num, block)))
         == Server(if |block| < BLOCK_SIZE then Succeeded else Running, num, s.timeouts,
                   s.file + (if num > s.last then block else []), s.acks + [num])
  {
    ParseWireData(num, block);
    hide WireData, Parse;
  }

  lemma {:induction false} RunSnoc(mode: Mode, s: Server, events: seq<Event>, e: Event)
    ensures Run(mode, s, events + [e]) == Step(mode, Run(mode, s, events), e)
    decreases |events|
  {
    if events == [] {
      assert [] + [e] == [e] && [e][1..] == [];
      assert Run(mode, Step(mode, s, e), []) == Step(mode, s, e);
    } else {
      assert (events + [e])[1..] == events[1..] + [e];
      RunSnoc(mode, Step(mode, s, events[0]), events[1..], e);
    }
  }

  lemma RunOne(mode: Mode, s: Server, events: seq<Event>)
    requires events != []
    ensures Run(mode, s, events) == Run(mode, Step(mode, s, events[0]), events[1..])
  {
  }

  /** A late copy of an old block lowers the last number, and the copy of the next block is then written again. */
  lemma StaleBlockCausesRewrite(first: seq<byte>, second: seq<byte>)
    requires |first| == |second| == BLOCK_SIZE
    ensures var d1, d2 := Receive(WireData(1, first)), Receive(WireData(2, second));
      Run(OctetMode, Begin, [d1, d2, d1, d2]).file == first + second + second
  {
    hide Step, Run, NetworkOrder;
    var d1, d2 := Receive(WireData(1, first)), Receive(WireData(2, second));
    StepOnBlock(Begin, 1, first);
    var s1 := Step(OctetMode, Begin, d1);
    StepOnBlock(s1, 2, second);
    var s2 := Step(OctetMode, s1, d2);
    StepOnBlock(s2, 1, first);
    var s3 := Step(OctetMode, s2, d1);
    StepOnBlock(s3, 2, second);
    var s4 := Step(OctetMode, s3, d2);
    RunOne(OctetMode, Begin, [d1, d2, d1, d2]);
    RunOne(OctetMode, s1, [d2, d1, d2]);
    RunOne(OctetMode, s2, [d1, d2]);
    RunOne(OctetMode, s3, [d2]);
    RunNone(OctetMode, s4);
    assert [d1, d2, d1, d2][1..] == [d2, d1, d2] && [d2, d1, d2][1..] == [d1, d2];
    assert [d1, d2][1..] == [d2] && [d2][1..] == [];
    assert [] + first == first && s3.file + [] == s3.file;
  }

  lemma RunNone(mode: Mode, s: Server)
    ensures Run(mode, s, []) == s
  {
  }

  ghost predicate IsFullBlock(e: Event) {
    e.Receive? && Parse(e.datagram).Data? && |Parse(e.datagram).payload| == BLOCK_SIZE
  }

  /** The cap is on all the timeouts of a transfer, however many blocks arrive in between. */
  lemma {:induction false} CapCountsAllTimeouts(mode: Mode, s: Server, events: seq<Event>)
    requires s.status == Running && s.timeouts < MAX_RETRY
    requires forall i | 0 <= i < |events| :: events[i].Timeout? || IsFullBlock(events[i])
    ensures Run(mode, s, events).status == if s.timeouts + CountTimeouts(events) >= MAX_RETRY then Failed else Running
    decreases |events|
  {
    if events != [] {
      var s' := Step(mode, s, events[0]);
      assert forall i | 0 <= i < |events[1..]| :: events[1..][i] == events[i + 1];
      if s'.status == Running {
        CapCountsAllTimeouts(mode, s', events[1..]);
      } else {
        RunStopped(mode, s', events[1..]);
      }
    }
  }

  // ---- how a transfer ends ----

  /** A datagram whose opcode word is not that of DATA. */
  predicate IsNoData(e: Event) {
    e.Receive? && ReadWord(e.datagram, 0) != 3
  }

  /** A DATA datagram with less than 512 bytes behind its four bytes of header. */
  predicate IsShortData(e: Event) {
    e.Receive? && ReadWord(e.datagram, 0) == 3 && |e.datagram| < 516
  }

  /** Before any short block, a datagram that is no DATA or the tenth timeout in all. */
  ghost predicate FailsAt(events: seq<Event>, i: nat) {
    && i < |events| && (forall j | 0 <= j < i :: !IsShortData(events[j]))
    && (IsNoData(events[i]) || CountTimeouts(events[..i + 1]) >= 10)
  }

  /** A short block, before any other datagram than DATA and the tenth timeout. */
  ghost predicate SucceedsAt(events: seq<Event>, i: nat) {
    && i < |events| && IsShortData(events[i])
    && (forall j | 0 <= j < i :: !IsNoData(events[j])) && CountTimeouts(events[..i]) < 10
  }

  /** Neither has happened yet. */
  ghost predicate GoesOn(events: seq<Event>) {
    && (forall j | 0 <= j < |events| :: !IsShortData(events[j]) && !IsNoData(events[j]))
    && CountTimeouts(events) < 10
  }

  lemma StepByBytes(mode: Mode, s: Server, e: Event)
    requires s.status == Running && s.timeouts < 10
    ensures var s' := Step(mode, s, e);
      && (e.Timeout? ==> s'.timeouts == s.timeouts + 1 && (s'.status == Failed <==> s'.timeouts == 10) && s'.status != Succeeded)
      && (e.Receive? ==> s'.timeouts == s.timeouts)
      && (IsNoData(e) ==> s' == s.(status := Failed))
      && (e.Receive? && !IsNoData(e) ==> s'.status == if IsShortData(e) then Succeeded else Running)
  {
    hide Written, Ahead;
  }

  lemma EndOfPrefix(front: seq<Event>, e: Event, i: nat)
    requires i < |front|
    ensures FailsAt(front + [e], i) <==> FailsAt(front, i)
    ensures SucceedsAt(front + [e], i) <==> SucceedsAt(front, i)
  {
    var events := front + [e];
    assert events[..i + 1] == front[..i + 1] && events[..i] == front[..i];
    assert forall j | 0 <= j <= i :: events[j] == front[j];
  }

  lemma EndAtLast(front: seq<Event>, e: Event)
    ensures FailsAt(front + [e], |front|) <==>
      (forall j | 0 <= j < |front| :: !IsShortData(front[j])) && (IsNoData(e) || CountTimeouts(front + [e]) >= 10)
    ensures SucceedsAt(front + [e], |front|) <==>
      IsShortData(e) && (forall j | 0 <= j < |front| :: !IsNoData(front[j])) && CountTimeouts(front) < 10
  {
    var events := front + [e];
    assert events[..|front| + 1] == events && events[..|front|] == front;
    assert forall j | 0 <= j < |front| :: events[j] == front[j];
  }

  /** Once a transfer has ended one way, it cannot end the other way later on. */
  lemma EndedBefore(front: seq<Event>, e: Event, i: nat)
    requires FailsAt(front, i) || SucceedsAt(front, i)
    ensures FailsAt(front, i) ==> !SucceedsAt(front + [e], |front|)
    ensures SucceedsAt(front, i) ==> !FailsAt(front + [e], |front|)
    ensures !GoesOn(front + [e])
  {
    EndAtLast(front, e);
    CountOfPrefix(front, i + 1);
    CountSnoc(front, e);
    assert (front + [e])[i] == front[i];
  }

  lemma GoesOnSnoc(front: seq<Event>, e: Event)
    ensures GoesOn(front + [e]) <==>
      GoesOn(front) && !IsShortData(e) && !IsNoData(e) && CountTimeouts(front + [e]) < 10
  {
    var events := front + [e];
    CountSnoc(front, e);
    assert forall j | 0 <= j < |front| :: events[j] == front[j];
    assert events[|front|] == e;
  }

  ghost predicate IsAsTheBytesSay(events: seq<Event>, s: Server) {
    && (s.status == Failed <==> exists i: nat :: FailsAt(events, i))
    && (s.status == Succeeded <==> exists i: nat :: SucceedsAt(events, i))
    && (s.status == Running <==> GoesOn(events))
    && (s.status == Running ==> s.timeouts == CountTimeouts(events))
  }

  lemma StoppedStays(front: seq<Event>, e: Event, s: Server)
    requires IsAsTheBytesSay(front, s) && s.status != Running
    ensures IsAsTheBytesSay(front + [e], s)
  {
    var events := front + [e];
    forall i: nat | i < |front|
      ensures (FailsAt(events, i) <==> FailsAt(front, i)) && (SucceedsAt(events, i) <==> SucceedsAt(front, i))
    {
      EndOfPrefix(front, e, i);
    }
    var k: nat :| FailsAt(front, k) || SucceedsAt(front, k);
    EndedBefore(front, e, k);
    assert forall i: nat :: FailsAt(events, i) ==> i < |front| || i == |front|;
    assert forall i: nat :: SucceedsAt(events, i) ==> i < |front| || i == |front|;
  }

  lemma OneMoreEvent(mode: Mode, front: seq<Event>, e: Event, s: Server)
    requires IsAsTheBytesSay(front, s) && s.status == Running
    ensures IsAsTheBytesSay(front + [e], Step(mode, s, e))
  {
    hide Step, IsShortData, IsNoData;
    var events := front + [e];
    StepByBytes(mode, s, e);
    CountSnoc(front, e);
    GoesOnSnoc(front, e);
    EndAtLast(front, e);
    ShortIsReceived(e);
    forall i: nat | i < |front|
      ensures !FailsAt(events, i) && !SucceedsAt(events, i)
    {
      EndOfPrefix(front, e, i);
    }
  }

  lemma ShortIsReceived(e: Event)
    ensures IsShortData(e) ==> e.Receive? && !IsNoData(e)
    ensures IsNoData(e) ==> e.Receive? && !IsShortData(e)
  {
  }

  /**
    For every sequence of events: the transfer fails exactly by the tenth timeout in all or by a datagram that is
    no DATA, before any short block; and it succeeds exactly by a short block before those.
   */
  lemma {:induction false} UploadEndsIff(mode: Mode, events: seq<Event>)
    ensures var s := Run(mode, Begin, events);
      && (s.status == Failed <==> exists i: nat :: FailsAt(events, i))
      && (s.status == Succeeded <==> exists i: nat :: SucceedsAt(events, i))
      && (s.status == Running ==> s.timeouts == CountTimeouts(events))
      && (s.status == Running <==> GoesOn(events))
    decreases |events|
  {
    hide Step, FailsAt, SucceedsAt, GoesOn;
    if events == [] {
      NothingHasEnded();
      RunNone(mode, Begin);
    } else {
      var front, e := events[..|events| - 1], events[|events| - 1];
      assert events == front + [e];
      UploadEndsIff(mode, front);
      RunSnoc(mode, Begin, front, e);
      var s := Run(mode, Begin, front);
      if s.status == Running {
        OneMoreEvent(mode, front, e, s);
      } else {
        StoppedStays(front, e, s);
        RunStopped(mode, s, [e]);
        RunOne(mode, s, [e]);
        assert [e][1..] == [];
        RunNone(mode, Step(mode, s, e));
      }
    }
  }

  lemma NothingHasEnded()
    ensures (forall i: nat :: !FailsAt([], i) && !SucceedsAt([], i)) && GoesOn([]) && CountTimeouts([]) == 0
  {
  }

  /** A datagram that is no DATA ends a running transfer and leaves the file and the ACKs as they were, whatever follows. */
  lemma NoDataEndsUpload(mode: Mode, before: seq<Event>, e: Event, rest: seq<Event>)
    requires Run(mode, Begin, before).status == Running && IsNoData(e)
    ensures var s, s' := Run(mode, Begin, before), Run(mode, Begin, before + [e] + rest);
      s'.status == Failed && s'.file == s.file && s'.acks == s.acks
  {
    var s := Run(mode, Begin, before);
    UploadEndsIff(mode, before);
    hide Run, Step;
    RunSnoc(mode, Begin, before, e);
    StepByBytes(mode, s, e);
    RunConcat(mode, Begin, before + [e], rest);
    RunStopped(mode, s.(status := Failed), rest);
  }

  lemma {:induction false} RunConcat(mode: Mode, s: Server, first: seq<Event>, second: seq<Event>)
    ensures Run(mode, s, first + second) == Run(mode, Run(mode, s, first), second)
    decreases |first|
  {
    hide Step;
    if first == [] {
      assert first + second == second;
    } else {
      assert (first + second)[1..] == first[1..] + second;
      RunConcat(mode, Step(mode, s, first[0]), first[1..], second);
    }
  }

  ghost predicate AreAcks(sent: seq<seq<byte>>, nums: seq<uint16>) {
    |sent| == |nums| && forall k :: 0 <= k < |sent| ==> sent[k] == WireAck(nums[k])
  }

  /** The DATA branch: the payload moves to the front of the buffer and is written if the block is new. */
  method HandleData(buf: array<byte>, datagram: Datagram, last: uint16, mode: Mode, writer: FileWriter)
    returns (num: uint16, short: bool)
    requires buf.Length == PACKET_SIZE && buf[..|datagram|] == datagram && Parse(datagram).Data?
    requires writer.Valid() && writer.nextchar == -1
    modifies buf, writer
    ensures writer.Valid() && writer.nextchar == -1
    ensures var p := Parse(datagram);
      && num == p.num && (short <==> |p.payload| < BLOCK_SIZE)
      && writer.contents == old(writer.contents) + if num > last then Written(mode, p.payload, Ahead(num, p.payload)) else []
  {
    ghost var payload := datagram[4..];
    var n := |datagram| - 4;
    assert buf[2] == datagram[2] && buf[3] == datagram[3];
    assert buf[4..4 + n] == payload;
    ghost var behind := buf[n];
    assert behind == datagram[n];
    num := ParseDataPacket(buf, n);
    WireDataOfParse(datagram);
    assert behind == Ahead(num, payload);
    assert buf[n] == behind by { assert buf[n..][0] == old(buf[n..])[0]; }
    if num > last {
      writer.WriteData(buf, n, mode);
    }
    short := n < BLOCK_SIZE;
  }

  /** The handler's loop, given what each select returns; with no more events it is still waiting. */
  method WrqHandler(mode: Mode, events: seq<Event>) returns (status: Status, file: seq<byte>, sent: seq<seq<byte>>)
    ensures var s := Run(mode, Begin, events);
      status == s.status && file == s.file && AreAcks(sent, s.acks)
  {
    var bufSend, bufRecv := new byte[PACKET_SIZE], new byte[PACKET_SIZE];
    var writer := new FileWriter();
    var blockNum: uint16, last: uint16 := 0, 0;
    var timeouts, eof, i := 0, false, 0;
    sent := [];
    // the transfer at the next select, if the handler gets there
    ghost var s := Begin;
    while true
      invariant 0 <= i <= |events| && fresh(bufSend) && fresh(bufRecv) && fresh(writer) && bufSend != bufRecv
      invariant writer.Valid() && writer.nextchar == -1
      invariant s == Server(if eof then Succeeded else Running, blockNum, timeouts, writer.contents, s.acks)
      invariant s.acks != [] && s.acks[|s.acks| - 1] == blockNum && AreAcks(sent, s.acks[..|s.acks| - 1])
      invariant timeouts < MAX_RETRY
      invariant Run(mode, s, events[i..]) == Run(mode, Begin, events)
      decreases |events| - i
    {
      AckToBuffer(bufSend, blockNum);
      sent := sent + [bufSend[..4]];
      last := blockNum;
      assert AreAcks(sent, s.acks);
      if eof {
        RunStopped(mode, s, events[i..]);
        return Succeeded, writer.contents, sent;
      }
      if i == |events| {
        return Running, writer.contents, sent;
      }
      var event := events[i];
      ghost var s' := Step(mode, s, event);
      assert Run(mode, s', events[i + 1..]) == Run(mode, s, events[i..]) by { assert events[i..][1..] == events[i + 1..]; }
      i := i + 1;
      match event {
      case Timeout =>
        timeouts := timeouts + 1;
        if timeouts == MAX_RETRY {
          RunStopped(mode, s', events[i..]);
          return Failed, writer.contents, sent;
        }
      case Receive(datagram) =>
        ReceiveInto(bufRecv, datagram);
        assert bufRecv[0] == datagram[0] && bufRecv[1] == datagram[1];
        var opcode := ReadSwapped(bufRecv, 0);
        if opcode != DATA_OPCODE && opcode != ERROR_OPCODE {
          RunStopped(mode, s', events[i..]);
          return Failed, writer.contents, sent;
        }
        if opcode == ERROR_OPCODE {
          RunStopped(mode, s', events[i..]);
          return Failed, writer.contents, sent;
        }
        blockNum, eof := HandleData(bufRecv, datagram, last, mode, writer);
      }
      s := s';
    }
  }
}
