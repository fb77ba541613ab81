/** The read-request handler: what it sends, and when the client has got the file. */
module ReadServer {
  import opened Bytes
  import opened Netascii
  import opened Blocks
  import opened FileIO
  import opened Packets
  import opened Sessions

  /**
    The transfer at the select in the loop. Besides the handler's own variables: the datagrams
    sent so far, the data that was acknowledged, and the data that went by without a matching ACK.
   */
  datatype Server = Server(
    status: Status, num: uint16, timeouts: nat, source: Stream, payload: seq<byte>, eof: bool,
    sent: seq<seq<byte>>, acked: seq<byte>, lost: seq<byte>)

  // In an unknown mode no packet is made: three bytes of a zeroed buffer are sent.
  const NO_PACKET: seq<byte> := [NUL, NUL, NUL]

  /** The top of the loop: whatever happened before, the next block of the file is read and sent. */
  function Offer(mode: Mode, s: Server): Server {
    if mode == OtherMode then s.(payload := [], eof := false, sent := s.sent + [NO_PACKET])
    else
      var (p, source) := Take(s.source);
      s.(source := source, payload := p, eof := |p| < BLOCK_SIZE, sent := s.sent + [WireData(s.num, p)])
  }

  function Begin(mode: Mode, file: seq<byte>): Server {
    Offer(mode, Server(Running, 1, 0, Open(mode, file), [], false, [], [], []))
  }

  function Step(mode: Mode, s: Server, e: Event): Server {
    if s.status != Running then s
    else match e
      case Timeout => GiveUp(mode, s, s.timeouts + 1, s.timeouts + 1 == MAX_RETRY)
      case Receive(datagram) =>
        match Parse(datagram)
        case Error => GiveUp(mode, s, s.timeouts, true)
        case Ack(num) => if num == s.num then Advance(mode, s) else GiveUp(mode, s, s.timeouts, false)
        case _ => GiveUp(mode, s, s.timeouts, false)
  }

  /** Without the matching ACK the waiting block is dropped: the loop stops, or goes on with the next block. */
  function GiveUp(mode: Mode, s: Server, timeouts: nat, stop: bool): Server {
    var s' := s.(lost := s.lost + s.payload, timeouts := timeouts);
    if stop then s'.(status := Failed) else Offer(mode, s')
  }

  /** The matching ACK: the last block ends the transfer, any other is followed by the next number. */
  function Advance(mode: Mode, s: Server): Server {
    var s' := s.(num := (s.num + 1) % 0x1_0000, acked := s.acked + s.payload);
    if s.eof then s'.(status := Succeeded) else Offer(mode, s')
  }

  function Run(mode: Mode, s: Server, events: seq<Event>): Server
    decreases |events|
  {
    if events == [] then s else Run(mode, Step(mode, s, events[0]), events[1..])
  }

  lemma {:induction false} RunStopped(mode: Mode, s: Server, events: seq<Event>)
    requires s.status != Running
    ensures Run(mode, s, events) == s
    decreases |events|
  {
    if events != [] {
      RunStopped(mode, s, events[1..]);
    }
  }

  // ---- conservation ----

  /** The data in a sequence of datagrams. */
  function Payloads(sent: seq<seq<byte>>): seq<byte> {
    if sent == [] then []
    else
      var last := sent[|sent| - 1];
      Payloads(sent[..|sent| - 1]) + if |last| >= 4 then last[4..] else []
  }

  /** What RFC 1350 asks the server to send for a file. */
  function Encoding(mode: Mode, file: seq<byte>): seq<byte> {
    match mode
    case NetasciiMode => Encode(file)
    case OctetMode => file
    case OtherMode => []
  }

  /** The data that the handler has in store: the encoding without the bytes that read as EOF. */
  function Store(mode: Mode, file: seq<byte>): seq<byte> {
    if mode == NetasciiMode then Encode(Strip(file)) else Encoding(mode, file)
  }

  lemma OpenHoldsStore(mode: Mode, file: seq<byte>)
    ensures Total(Open(mode, file)) == Store(mode, file)
  {
    if mode == NetasciiMode {
      StripIsCutThenAfter(file);
      EncodeConcat(Cut(file), Strip(After(file)));
    } else {
      assert Encode(Strip([])) == [];
      assert Encoding(mode, file) + [] == Encoding(mode, file);
    }
  }

  /** Every byte of the store is either sent or still to be read. */
  ghost predicate Conserved(s: Server, store: seq<byte>) {
    Payloads(s.sent) + Total(s.source) == store
  }

  /** The data sent is what was acknowledged and what was not, but for a block that is still waiting. */
  ghost predicate Accounted(s: Server, waiting: seq<byte>) {
    && |s.acked| + |s.lost| + |waiting| == |Payloads(s.sent)|
    && (s.lost == [] ==> s.acked + waiting == Payloads(s.sent))
  }

  /** No data that is read, sent or acknowledged holds a byte that reads as EOF. */
  ghost predicate EofFree(s: Server) {
    EOF_BYTE !in s.source.rest && EOF_BYTE !in s.payload && EOF_BYTE !in s.acked
  }

  /** The file has no part behind an end-of-file condition, so a short block was the last of it. */
  ghost predicate InOnePart(s: Server) {
    s.source.behind == [] && (s.eof ==> s.source.rest == [])
  }

  ghost predicate Inv(mode: Mode, file: seq<byte>, s: Server) {
    && Conserved(s, Store(mode, file))
    && Accounted(s, if s.status == Running then s.payload else [])
    && (mode == NetasciiMode ==> EofFree(s))
    && (mode != NetasciiMode || EOF_BYTE !in file ==> InOnePart(s))
    && (mode == OtherMode ==> !s.eof && s.source == Stream([], []))
    && (s.status == Succeeded ==> s.eof)
  }

  lemma PayloadsOfNext(sent: seq<seq<byte>>, num: uint16, payload: seq<byte>)
    ensures Payloads(sent + [WireData(num, payload)]) == Payloads(sent) + payload
    ensures Payloads(sent + [NO_PACKET]) == Payloads(sent)
  {
    var next, junk := sent + [WireData(num, payload)], sent + [NO_PACKET];
    assert next[..|next| - 1] == sent && junk[..|junk| - 1] == sent;
    assert WireData(num, payload)[4..] == payload;
    assert Payloads(sent) + [] == Payloads(sent);
  }

  lemma OfferConserves(mode: Mode, s: Server, store: seq<byte>)
    requires Conserved(s, store) && Accounted(s, [])
    ensures Conserved(Offer(mode, s), store) && Accounted(Offer(mode, s), Offer(mode, s).payload)
  {
    var (p, source) := Take(s.source);
    PayloadsOfNext(s.sent, s.num, p);
    TakeConserves(s.source);
    Regroup(Payloads(s.sent), p, Total(source));
    assert s.acked + [] == s.acked;
  }

  lemma TakeIsEofFree(s: Stream)
    requires EOF_BYTE !in s.rest
    ensures EOF_BYTE !in Take(s).0 && EOF_BYTE !in Take(s).1.rest
  {
    CutHasNoEofByte(s.behind);
    EncodeEofByte(Cut(s.behind));
  }

  lemma {:induction false} CutHasNoEofByte(s: seq<byte>)
    ensures EOF_BYTE !in Cut(s)
  {
    if s != [] {
      CutHasNoEofByte(s[1..]);
    }
  }

  /** Reading and sending the next block, once the one before is accounted for. */
  lemma OfferKeepsInv(mode: Mode, file: seq<byte>, s: Server)
    requires Inv(mode, file, s.(status := Failed)) && s.status == Running
    ensures Inv(mode, file, Offer(mode, s))
  {
    OfferConserves(mode, s, Store(mode, file));
    if mode == NetasciiMode {
      TakeIsEofFree(s.source);
    }
  }

  lemma GiveUpKeepsInv(mode: Mode, file: seq<byte>, s: Server, timeouts: nat, stop: bool)
    requires Inv(mode, file, s) && s.status == Running
    ensures Inv(mode, file, GiveUp(mode, s, timeouts, stop))
  {
    var s' := s.(lost := s.lost + s.payload, timeouts := timeouts);
    assert s'.lost == [] ==> s.acked + s.payload == s.acked + [];
    if !stop {
      OfferKeepsInv(mode, file, s');
    }
  }

  lemma AckKeepsInv(mode: Mode, file: seq<byte>, s: Server, num: uint16, status: Status)
    requires Inv(mode, file, s) && s.status == Running && status != Running && (status == Succeeded ==> s.eof)
    ensures Inv(mode, file, s.(num := num, acked := s.acked + s.payload, status := status))
  {
    assert s.acked + s.payload + [] == s.acked + s.payload;
  }

  lemma AdvanceKeepsInv(mode: Mode, file: seq<byte>, s: Server)
    requires Inv(mode, file, s) && s.status == Running
    ensures Inv(mode, file, Advance(mode, s))
  {
    hide Inv, Offer;
    var num := (s.num + 1) % 0x1_0000;
    AckKeepsInv(mode, file, s, num, if s.eof then Succeeded else Failed);
    if !s.eof {
      var s' := s.(num := num, acked := s.acked + s.payload);
      assert s'.(status := Failed) == s.(num := num, acked := s.acked + s.payload, status := Failed);
      OfferKeepsInv(mode, file, s');
    }
  }

  lemma StepKeepsInv(mode: Mode, file: seq<byte>, s: Server, e: Event)
    requires Inv(mode, file, s)
    ensures Inv(mode, file, Step(mode, s, e))
  {
    hide Inv, GiveUp, Advance;
    if s.status == Running {
      if e.Receive? && Parse(e.datagram) == Ack(s.num) {
        AdvanceKeepsInv(mode, file, s);
      } else if e.Timeout? {
        GiveUpKeepsInv(mode, file, s, s.timeouts + 1, s.timeouts + 1 == MAX_RETRY);
      } else {
        GiveUpKeepsInv(mode, file, s, s.timeouts, Parse(e.datagram) == Error);
      }
    }
  }

  lemma BeginKeepsInv(mode: Mode, file: seq<byte>)
    ensures Inv(mode, file, Begin(mode, file))
  {
    var s := Server(Running, 1, 0, Open(mode, file), [], false, [], [], []);
    OpenHoldsStore(mode, file);
    assert [] + Total(s.source) == Total(s.source);
    if mode == NetasciiMode {
      CutHasNoEofByte(file);
      EncodeEofByte(Cut(file));
      StripFacts(file);
    }
    OfferKeepsInv(mode, file, s);
  }

  lemma {:induction false} RunKeepsInv(mode: Mode, file: seq<byte>, s: Server, events: seq<Event>)
    requires Inv(mode, file, s)
    ensures Inv(mode, file, Run(mode, s, events))
    decreases |events|
  {
    if events != [] {
      StepKeepsInv(mode, file, s, events[0]);
      RunKeepsInv(mode, file, Step(mode, s, events[0]), events[1..]);
    }
  }

  /** Over every run, the data of all the packets sent, lost ones included, is a prefix of the store. */
  lemma SentIsPrefixOfStore(mode: Mode, file: seq<byte>, events: seq<Event>)
    ensures Payloads(Run(mode, Begin(mode, file), events).sent) <= Store(mode, file)
  {
    BeginKeepsInv(mode, file);
    RunKeepsInv(mode, file, Begin(mode, file), events);
  }

  /** At the end of a successful transfer everything was acknowledged exactly if nothing went by without its ACK. */
  lemma AckedOrLost(mode: Mode, file: seq<byte>, events: seq<Event>)
    ensures var s := Run(mode, Begin(mode, file), events);
      s.status == Succeeded ==>
        (s.acked == Encoding(mode, file) <==> s.lost == [] && (mode == OctetMode || EOF_BYTE !in file))
  {
    BeginKeepsInv(mode, file);
    RunKeepsInv(mode, file, Begin(mode, file), events);
    var s := Run(mode, Begin(mode, file), events);
    if s.status == Succeeded {
      if mode == NetasciiMode && EOF_BYTE in file {
        EncodeEofByte(file);
      } else {
        StripFacts(file);
        EverythingWasSent(s, Encoding(mode, file));
      }
    }
  }

  lemma EverythingWasSent(s: Server, store: seq<byte>)
    requires Conserved(s, store) && Accounted(s, []) && s.source == Stream([], [])
    ensures s.acked == store <==> s.lost == []
  {
    assert Total(s.source) == [];
    assert s.acked + [] == s.acked;
  }

  // ---- a run without timeouts and stray packets ----

  /** The ACKs of k blocks from block i on. */
  function CleanAcks(i: nat, k: nat): seq<Event>
    decreases k
  {
    if k == 0 then [] else [Receive(WireAck(Num(i)))] + CleanAcks(i + 1, k - 1)
  }

  /** The DATA packets of the first k blocks of a stream. */
  function DataPackets(stream: seq<byte>, k: nat): seq<seq<byte>>
    requires k <= BlockCount(stream)
  {
    if k == 0 then [] else DataPackets(stream, k - 1) + [WireData(Num(k), Block(stream, k))]
  }

  /** The transfer when k blocks have been acknowledged and block k + 1 has been sent. */
  ghost predicate CleanAt(stream: seq<byte>, s: Server, k: nat) {
    && k < BlockCount(stream) && (s.eof <==> k + 1 == BlockCount(stream))
    && s.status == Running && s.num == Num(k + 1) && s.timeouts == 0
    && (!s.eof ==> s.source.rest == stream[(k + 1) * 512..])
    && s.payload == Block(stream, k + 1)
    && s.sent == DataPackets(stream, k + 1)
    && s.acked == stream[..End(stream, k)] && s.lost == []
  }

  lemma OfferCleanly(mode: Mode, stream: seq<byte>, s: Server, k: nat)
    requires mode != OtherMode && k < BlockCount(stream) && s.status == Running && s.timeouts == 0
    requires s.num == Num(k + 1) && s.source.rest == stream[k * 512..] && s.sent == DataPackets(stream, k)
    requires s.acked == stream[..End(stream, k)] && s.lost == []
    ensures CleanAt(stream, Offer(mode, s), k)
  {
  }

  lemma AdvanceCleanly(mode: Mode, stream: seq<byte>, s: Server, k: nat)
    requires mode != OtherMode && CleanAt(stream, s, k)
    ensures k + 1 < BlockCount(stream) ==> CleanAt(stream, Advance(mode, s), k + 1)
    ensures k + 1 == BlockCount(stream) ==>
      var s' := Advance(mode, s); s'.status == Succeeded && s'.acked == stream && s'.sent == s.sent
  {
    hide Offer, DataPackets;
    assert s.acked + s.payload == stream[..End(stream, k + 1)];
    if k + 1 < BlockCount(stream) {
      OfferCleanly(mode, stream, s.(num := Num(k + 2), acked := s.acked + s.payload), k + 1);
    } else {
      assert stream[..End(stream, k + 1)] == stream;
    }
  }

  lemma {:induction false} CleanRunFrom(mode: Mode, stream: seq<byte>, s: Server, k: nat, n: nat)
    requires mode != OtherMode && CleanAt(stream, s, k) && k + n <= BlockCount(stream)
    ensures var s' := Run(mode, s, CleanAcks(k + 1, n));
      if k + n < BlockCount(stream) then CleanAt(stream, s', k + n)
      else s'.status == Succeeded && s'.acked == stream && s'.sent == DataPackets(stream, BlockCount(stream))
    decreases n
  {
    hide Offer, DataPackets, Advance;
    if n > 0 {
      RunAck(mode, s, k + 1, n);
      AdvanceCleanly(mode, stream, s, k);
      if k + 1 < BlockCount(stream) {
        CleanRunFrom(mode, stream, Advance(mode, s), k + 1, n - 1);
      } else {
        RunStopped(mode, Advance(mode, s), CleanAcks(k + 2, n - 1));
      }
    }
  }

  lemma RunAck(mode: Mode, s: Server, i: nat, n: nat)
    requires s.status == Running && s.num == Num(i) && n > 0
    ensures Run(mode, s, CleanAcks(i, n)) == Run(mode, Advance(mode, s), CleanAcks(i + 1, n - 1))
  {
    ParseWireAck(Num(i));
    assert CleanAcks(i, n)[1..] == CleanAcks(i + 1, n - 1);
  }

  /**
    Without timeouts and stray packets a transfer takes exactly one block per 512 bytes of the encoding
    and a short one, numbered from 1 modulo 65536, and succeeds with the last ACK and not before.
   */
  lemma CleanRun(mode: Mode, file: seq<byte>, n: nat)
    requires mode != OtherMode && n <= BlockCount(Open(mode, file).rest)
    ensures var stream := Open(mode, file).rest;
      var s := Run(mode, Begin(mode, file), CleanAcks(1, n));
      && (s.status == Succeeded <==> n == BlockCount(stream))
      && (n < BlockCount(stream) ==> s.status == Running && s.sent == DataPackets(stream, n + 1))
      && (n == BlockCount(stream) ==> s.sent == DataPackets(stream, n) && s.acked == stream)
  {
    hide Offer, Run, CleanAcks, Open;
    var stream := Open(mode, file).rest;
    var s := Server(Running, 1, 0, Open(mode, file), [], false, [], [], []);
    assert stream[0 * 512..] == stream;
    OfferCleanly(mode, stream, s, 0);
    CleanRunFrom(mode, stream, Begin(mode, file), 0, n);
  }

  // ---- which events a complete transfer takes ----

  /** The ACK of block i, whatever else is in the datagram. */
  predicate IsAckOf(e: Event, i: nat) {
    e.Receive? && Parse(e.datagram) == Ack(Num(i))
  }

  /** From block i on, each of the first k blocks is acknowledged right after it was sent. */
  ghost predicate AckedInTurn(events: seq<Event>, i: nat, k: nat) {
    i <= k + 1 && k + 1 - i <= |events| && forall j | 0 <= j < k + 1 - i :: IsAckOf(events[j], i + j)
  }

  /** The number of blocks that hold data. */
  function DataBlocks(length: nat): nat {
    (length + 511) / 512
  }

  lemma {:induction false} LostStays(mode: Mode, s: Server, events: seq<Event>)
    requires s.lost != []
    ensures Run(mode, s, events).lost != []
    decreases |events|
  {
    if events != [] {
      LostStays(mode, Step(mode, s, events[0]), events[1..]);
    }
  }

  /** When only an empty last block is waiting, nothing can be lost any more. */
  lemma {:induction false} NothingLeftToLose(mode: Mode, s: Server, events: seq<Event>)
    requires mode != OtherMode && s.lost == [] && s.payload == [] && s.source == Stream([], [])
    ensures Run(mode, s, events).lost == []
    decreases |events|
  {
    if events != [] {
      assert Take(s.source) == ([], s.source);
      assert s.lost + s.payload == [];
      NothingLeftToLose(mode, Step(mode, s, events[0]), events[1..]);
    }
  }

  lemma AckedInTurnOfMore(events: seq<Event>, i: nat, k: nat)
    requires i <= k
    ensures AckedInTurn(events, i, k) <==> events != [] && IsAckOf(events[0], i) && AckedInTurn(events[1..], i + 1, k)
  {
    if events != [] && IsAckOf(events[0], i) {
      assert forall j | 1 <= j < |events| :: events[j] == events[1..][j - 1];
      if AckedInTurn(events[1..], i + 1, k) {
        forall j | 0 <= j < k + 1 - i
          ensures IsAckOf(events[j], i + j)
        {
          assert j > 0 ==> IsAckOf(events[1..][j - 1], i + 1 + (j - 1));
        }
      }
      if AckedInTurn(events, i, k) {
        forall j | 0 <= j < k - i
          ensures IsAckOf(events[1..][j], i + 1 + j)
        {
          assert IsAckOf(events[j + 1], i + (j + 1));
        }
      }
    }
  }

  /** A waiting block that is not acknowledged is lost. */
  lemma OtherEventLoses(mode: Mode, s: Server, e: Event)
    requires s.status == Running && s.payload != []
    requires !(e.Receive? && Parse(e.datagram) == Ack(s.num))
    ensures Step(mode, s, e).lost != []
  {
    assert |s.lost + s.payload| > 0;
  }

  lemma PayloadOf(stream: seq<byte>, s: Server, i: nat)
    requires CleanAt(stream, s, i)
    ensures s.payload != [] <==> i < DataBlocks(|stream|)
    ensures i + 1 == BlockCount(stream) ==> DataBlocks(|stream|) <= i + 1
    ensures i == DataBlocks(|stream|) ==> s.eof
    ensures i <= DataBlocks(|stream|)
  {
    hide DataPackets;
  }

  lemma OfferInOnePart(mode: Mode, s: Server)
    requires mode != OtherMode && s.source.behind == []
    ensures InOnePart(Offer(mode, s))
  {
  }

  /** After i blocks in turn: nothing is lost in the end exactly if the other blocks are acknowledged in turn as well. */
  lemma {:induction false} LostIff(mode: Mode, stream: seq<byte>, s: Server, i: nat, events: seq<Event>)
    requires mode != OtherMode && CleanAt(stream, s, i) && InOnePart(s)
    requires Run(mode, s, events).status == Succeeded
    ensures Run(mode, s, events).lost == [] <==> AckedInTurn(events, i + 1, DataBlocks(|stream|))
    decreases |events|
  {
    hide Offer, DataPackets, DataBlocks, BlockCount, AckedInTurn;
    var k := DataBlocks(|stream|);
    PayloadOf(stream, s, i);
    if i == k {
      NothingLeftToLose(mode, s, events);
      NoneInTurn(events, k);
    } else {
      AckedInTurnOfMore(events, i + 1, k);
      if IsAckOf(events[0], i + 1) {
        LostIffAfterAck(mode, stream, s, i, events);
      } else {
        OtherEventLoses(mode, s, events[0]);
        LostStays(mode, Step(mode, s, events[0]), events[1..]);
      }
    }
  }

  lemma NoneInTurn(events: seq<Event>, k: nat)
    ensures AckedInTurn(events, k + 1, k)
  {
  }

  lemma LostIffAfterAck(mode: Mode, stream: seq<byte>, s: Server, i: nat, events: seq<Event>)
    requires mode != OtherMode && CleanAt(stream, s, i) && InOnePart(s) && i < DataBlocks(|stream|)
    requires events != [] && IsAckOf(events[0], i + 1) && Run(mode, s, events).status == Succeeded
    ensures Run(mode, s, events).lost == [] <==> AckedInTurn(events[1..], i + 2, DataBlocks(|stream|))
    decreases |events|, 0
  {
    hide Offer, DataPackets, DataBlocks, AckedInTurn, InOnePart;
    var s' := Advance(mode, s);
    AdvanceCleanly(mode, stream, s, i);
    PayloadOf(stream, s, i);
    if i + 1 < BlockCount(stream) {
      AdvanceInOnePart(mode, s);
      LostIff(mode, stream, s', i + 1, events[1..]);
    } else {
      RunStopped(mode, s', events[1..]);
      NoneInTurn(events[1..], i + 1);
    }
  }

  lemma AdvanceInOnePart(mode: Mode, s: Server)
    requires mode != OtherMode && InOnePart(s) && !s.eof
    ensures InOnePart(Advance(mode, s))
  {
    OfferInOnePart(mode, s.(num := (s.num + 1) % 0x1_0000, acked := s.acked + s.payload));
  }

  /**
    A client that keeps what it acknowledges has the encoding of the file at the end of a successful
    transfer if and only if each block with data was acknowledged right after it was sent, without a timeout
    or any other packet in between, and a text file has no byte that reads as EOF.
   */
  lemma ReadIsExactIff(mode: Mode, file: seq<byte>, events: seq<Event>)
    ensures var s := Run(mode, Begin(mode, file), events);
      var k := DataBlocks(|Encoding(mode, file)|);
      s.status == Succeeded ==>
        (s.acked == Encoding(mode, file) <==>
          && (mode == OctetMode || EOF_BYTE !in file)
          && k <= |events| && forall i | 0 <= i < k :: events[i].Receive? && Parse(events[i].datagram) == Ack(Num(i + 1)))
  {
    AckedOrLost(mode, file, events);
    if Run(mode, Begin(mode, file), events).status == Succeeded && (mode == OctetMode || EOF_BYTE !in file) {
      NoOtherMode(mode, file, events);
      var stream := Encoding(mode, file);
      BeginCleanly(mode, file);
      LostIff(mode, stream, Begin(mode, file), 0, events);
      assert AckedInTurn(events, 1, DataBlocks(|stream|)) <==>
        DataBlocks(|stream|) <= |events| && forall i | 0 <= i < DataBlocks(|stream|) :: IsAckOf(events[i], 1 + i);
    }
  }

  lemma NoOtherMode(mode: Mode, file: seq<byte>, events: seq<Event>)
    requires Run(mode, Begin(mode, file), events).status == Succeeded
    ensures mode != OtherMode
  {
    BeginKeepsInv(mode, file);
    RunKeepsInv(mode, file, Begin(mode, file), events);
  }

  lemma BeginCleanly(mode: Mode, file: seq<byte>)
    requires mode == OctetMode || (mode == NetasciiMode && EOF_BYTE !in file)
    ensures CleanAt(Encoding(mode, file), Begin(mode, file), 0) && InOnePart(Begin(mode, file))
  {
    hide Offer;
    var stream := Encoding(mode, file);
    StripFacts(file);
    var s := Server(Running, 1, 0, Open(mode, file), [], false, [], [], []);
    assert stream[0 * 512..] == stream && s.source == Stream(stream, []);
    OfferCleanly(mode, stream, s, 0);
    OfferInOnePart(mode, s);
  }

  /** One timeout on a full block: the transfer succeeds with the ACK of the next block, and the client has nothing. */
  lemma TimedOutBlockIsMissing(file: seq<byte>, ack: Datagram)
    requires |file| == BLOCK_SIZE && ack == WireAck(1)
    ensures var s := Run(OctetMode, Begin(OctetMode, file), [Timeout, Receive(ack)]);
      s.status == Succeeded && s.acked == [] && s.lost == file
  {
    var e := Receive(ack);
    ParseWireAck(1);
    var s0 := Begin(OctetMode, file);
    assert s0.payload == file && s0.source.rest == [];
    var s1 := Step(OctetMode, s0, Timeout);
    assert [] + file == file && s1.payload == [] && s1.eof && s1.lost == file;
    var s2 := Step(OctetMode, s1, e);
    assert [Timeout, e][1..] == [e] && [e][1..] == [];
    assert Run(OctetMode, s1, [e]) == Run(OctetMode, s2, []) == s2;
  }

  // ---- when a transfer fails ----

  lemma {:induction false} RunSnoc(mode: Mode, s: Server, events: seq<Event>, e: Event)
    ensures Run(mode, s, events + [e]) == Step(mode, Run(mode, s, events), e)
    decreases |events|
  {
    hide Step;
    if events == [] {
      assert [] + [e] == [e] && [e][1..] == [];
      assert Run(mode, Step(mode, s, e), []) == Step(mode, s, e);
    } else {
      assert (events + [e])[1..] == events[1..] + [e];
      RunSnoc(mode, Step(mode, s, events[0]), events[1..], e);
    }
  }

  /** A datagram whose opcode word is that of ERROR. */
  predicate IsError(e: Event) {
    e.Receive? && ReadWord(e.datagram, 0) == 5
  }

  /** When the transfer has not succeeded before: a datagram with opcode 5, or the tenth timeout in all. */
  ghost predicate FailsAt(mode: Mode, file: seq<byte>, events: seq<Event>, i: nat) {
    && i < |events| && Run(mode, Begin(mode, file), events[..i]).status != Succeeded
    && (IsError(events[i]) || CountTimeouts(events[..i + 1]) >= 10)
  }

  lemma StepByBytes(mode: Mode, s: Server, e: Event)
    requires s.status == Running && s.timeouts < 10
    ensures var s' := Step(mode, s, e);
      && (e.Timeout? ==> s'.timeouts == s.timeouts + 1 && s'.status == if s'.timeouts == 10 then Failed else Running)
      && (e.Receive? ==> s'.timeouts == s.timeouts && (s'.status == Failed <==> IsError(e)))
  {
    hide Take, WireData;
    OfferKeepsStatus(mode, s.(lost := s.lost + s.payload, timeouts := s.timeouts + 1));
    OfferKeepsStatus(mode, s.(lost := s.lost + s.payload));
    OfferKeepsStatus(mode, s.(num := (s.num + 1) % 0x1_0000, acked := s.acked + s.payload));
  }

  lemma OfferKeepsStatus(mode: Mode, s: Server)
    ensures Offer(mode, s).status == s.status && Offer(mode, s).timeouts == s.timeouts
  {
  }

  lemma FailsAtOfPrefix(mode: Mode, file: seq<byte>, front: seq<Event>, e: Event, i: nat)
    requires i < |front|
    ensures FailsAt(mode, file, front + [e], i) <==> FailsAt(mode, file, front, i)
  {
    hide Run, Begin;
    var events := front + [e];
    assert events[..i + 1] == front[..i + 1] && events[..i] == front[..i] && events[i] == front[i];
  }

  lemma FailsAtLast(mode: Mode, file: seq<byte>, front: seq<Event>, e: Event)
    ensures FailsAt(mode, file, front + [e], |front|) <==>
      Run(mode, Begin(mode, file), front).status != Succeeded && (IsError(e) || CountTimeouts(front + [e]) >= 10)
  {
    hide Run, Begin;
    var events := front + [e];
    assert events[..|front| + 1] == events && events[..|front|] == front;
  }

  lemma BeginIsRunning(mode: Mode, file: seq<byte>)
    ensures Begin(mode, file).status == Running && Begin(mode, file).timeouts == 0
    ensures Run(mode, Begin(mode, file), []) == Begin(mode, file) && CountTimeouts([]) == 0
    ensures forall i: nat :: !FailsAt(mode, file, [], i)
  {
  }

  lemma StoppedStays(mode: Mode, s: Server, e: Event)
    requires s.status != Running
    ensures Step(mode, s, e) == s
  {
  }

  /**
    For every sequence of events: the transfer fails exactly if, before the event that it succeeds with, there is a
    datagram with opcode 5 or the tenth timeout in all; ACKs and stray packets in between change nothing.
   */
  lemma {:induction false} ReadFailsIff(mode: Mode, file: seq<byte>, events: seq<Event>)
    ensures var s := Run(mode, Begin(mode, file), events);
      && (s.status == Failed <==> exists i: nat :: FailsAt(mode, file, events, i))
      && (s.status == Running ==> s.timeouts == CountTimeouts(events) < 10)
    decreases |events|
  {
    hide Step, Run, Begin, FailsAt;
    BeginIsRunning(mode, file);
    if events != [] {
      var front, e := events[..|events| - 1], events[|events| - 1];
      assert events == front + [e];
      var s := Run(mode, Begin(mode, file), front);
      ReadFailsIff(mode, file, front);
      RunSnoc(mode, Begin(mode, file), front, e);
      CountSnoc(front, e);
      FailsAtLast(mode, file, front, e);
      forall i: nat | i < |front|
        ensures FailsAt(mode, file, events, i) <==> FailsAt(mode, file, front, i)
      {
        FailsAtOfPrefix(mode, file, front, e, i);
      }
      FailsWithin(mode, file, events);
      FailsWithin(mode, file, front);
      if s.status == Running {
        StepByBytes(mode, s, e);
        ErrorIsReceived(e);
      } else {
        StoppedStays(mode, s, e);
        if s.status == Failed {
          var i: nat :| FailsAt(mode, file, front, i);
          assert FailsAt(mode, file, events, i);
        }
      }
    }
  }

  lemma ErrorIsReceived(e: Event)
    ensures IsError(e) ==> e.Receive?
  {
  }

  lemma FailsWithin(mode: Mode, file: seq<byte>, events: seq<Event>)
    ensures forall i: nat :: FailsAt(mode, file, events, i) ==> i < |events|
  {
  }

  // ---- the handler ----

  /** Reads the next block into the payload of a zeroed packet and sends what there is. */
  method MakeDataPacket(reader: BlockReader, mode: Mode, num: uint16, bufSend: array<byte>)
    returns (n: int, datagram: seq<byte>)
    requires reader.Valid() && bufSend.Length == PACKET_SIZE && (mode == OtherMode ==> bufSend[..3] == NO_PACKET)
    modifies reader, bufSend
    ensures reader.Valid() && (mode == OtherMode ==> bufSend[..3] == NO_PACKET)
    ensures mode == OtherMode ==> n == -1 && datagram == NO_PACKET && reader.View(mode) == old(reader.View(mode))
    ensures mode != OtherMode ==>
      var (p, stream) := Take(old(reader.View(mode)));
      n == |p| && datagram == WireData(num, p) && reader.View(mode) == stream
  {
    var payload := new byte[BLOCK_SIZE];
    n := reader.ReadBlock(payload, mode);
    if n == -1 {
      datagram := bufSend[..3];
      return;
    }
    DataToBuffer(bufSend, num, payload);
    assert bufSend[..4 + n] == WireData(num, payload[..n]);
    datagram := bufSend[..4 + n];
  }

  /** Receives a datagram and reads its opcode and the block number an ACK has. */
  method ReceiveReply(buf: array<byte>, datagram: Datagram) returns (opcode: uint16, num: uint16)
    requires buf.Length == PACKET_SIZE
    modifies buf
    ensures opcode == ReadWord(datagram, 0) && num == ReadWord(datagram, 2)
  {
    ReceiveInto(buf, datagram);
    assert forall k | 0 <= k < 4 :: buf[k] == buf[..|datagram|][k];
    opcode := ReadSwapped(buf, 0);
    num := ReadSwapped(buf, 2);
  }

  /**
    What the loop does with the outcome of select. While the transfer goes on, next is the transfer
    before the block is read at the top of the loop.
   */
  method HandleEvent(mode: Mode, ghost s: Server, event: Event, num: uint16, eof: bool, timeouts: nat, buf: array<byte>)
    returns (status: Status, num': uint16, timeouts': nat, ghost next: Server)
    requires s.status == Running && s.num == num && s.eof == eof && s.timeouts == timeouts < MAX_RETRY
    requires buf.Length == PACKET_SIZE
    modifies buf
    ensures status == Running ==>
      && Step(mode, s, event) == Offer(mode, next)
      && next.status == Running && next.num == num' && next.timeouts == timeouts' < MAX_RETRY
      && next.source == s.source && next.sent == s.sent
    ensures status != Running ==> Step(mode, s, event).status == status && Step(mode, s, event).sent == s.sent
  {
    hide Offer, Step, ReadWord;
    num', timeouts', status := num, timeouts, Running;
    match event {
      case Timeout =>
        StepOnTimeout(mode, s);
        timeouts' := timeouts + 1;
        if timeouts' == MAX_RETRY {
          status := Failed;
        }
      case Receive(datagram) =>
        var opcode, ackNum := ReceiveReply(buf, datagram);
        StepOnDatagram(mode, s, datagram);
        if opcode == ERROR_OPCODE {
          status := Failed;
        } else if opcode == ACK_OPCODE && ackNum == num {
          num' := (num + 1) % 0x1_0000;
          if eof {
            status := Succeeded;
          }
          next := s.(num := num', acked := s.acked + s.payload);
          return;
        }
    }
    next := s.(lost := s.lost + s.payload, timeouts := timeouts');
  }

  lemma StepOnTimeout(mode: Mode, s: Server)
    requires s.status == Running
    ensures Step(mode, s, Timeout) == GiveUp(mode, s, s.timeouts + 1, s.timeouts + 1 == MAX_RETRY)
  {
  }

  lemma StepOnDatagram(mode: Mode, s: Server, datagram: Datagram)
    requires s.status == Running
    ensures var opcode, num := ReadWord(datagram, 0), ReadWord(datagram, 2);
      Step(mode, s, Receive(datagram)) ==
        if opcode == ACK_OPCODE && num == s.num then Advance(mode, s)
        else GiveUp(mode, s, s.timeouts, opcode == ERROR_OPCODE)
  {
  }

  lemma RunOne(mode: Mode, s: Server, events: seq<Event>, i: nat)
    requires i < |events|
    ensures Run(mode, s, events[i..]) == Run(mode, Step(mode, s, events[i]), events[i + 1..])
  {
    assert events[i..][1..] == events[i + 1..];
  }

  /** The handler's loop, given what each select returns; with no more events it is still waiting. */
  method RrqHandler(mode: Mode, file: seq<byte>, events: seq<Event>) returns (status: Status, sent: seq<seq<byte>>)
    ensures var s := Run(mode, Begin(mode, file), events); status == s.status && sent == s.sent
  {
    var bufSend, bufRecv := new byte[PACKET_SIZE](_ => NUL), new byte[PACKET_SIZE];
    var reader := new BlockReader(file);
    var blockNum: uint16 := 1;
    var timeouts, i := 0, 0;
    sent := [];
    // the transfer before the block is read at the top of the loop
    ghost var next := Server(Running, 1, 0, Open(mode, file), [], false, [], [], []);
    assert bufSend[..3] == NO_PACKET;
    while true
      invariant 0 <= i <= |events| && fresh(bufSend) && fresh(bufRecv) && fresh(reader) && bufSend != bufRecv
      invariant reader.Valid() && bufSend.Length == bufRecv.Length == PACKET_SIZE
      invariant mode == OtherMode ==> bufSend[..3] == NO_PACKET
      invariant next.status == Running && next.num == blockNum && next.timeouts == timeouts < MAX_RETRY
      invariant next.source == reader.View(mode) && next.sent == sent
      invariant Run(mode, Offer(mode, next), events[i..]) == Run(mode, Begin(mode, file), events)
      decreases |events| - i
    {
      var n, datagram := MakeDataPacket(reader, mode, blockNum, bufSend);
      var eof := 0 <= n < BLOCK_SIZE;
      sent := sent + [datagram];
      ghost var s := Offer(mode, next);
      if i == |events| {
        return Running, sent;
      }
      RunOne(mode, s, events, i);
      status, blockNum, timeouts, next := HandleEvent(mode, s, events[i], blockNum, eof, timeouts, bufRecv);
      if status != Running {
        RunStopped(mode, Step(mode, s, events[i]), events[i + 1..]);
        return status, sent;
      }
      i := i + 1;
    }
  }
}
