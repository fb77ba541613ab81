/**
  A write transfer as a system of two parties: a sender that follows sections 2 and 6 of RFC 1350,
  the write-request handler, and a channel in each direction that may lose and repeat packets
  but keeps their order.
 */
module Upload {
  import opened Bytes
  import opened Netascii
  import opened Blocks
  import opened FileIO
  import opened Packets
  import opened Sessions
  import opened WriteServer

  /** The most bytes that fit in blocks with nonzero numbers before the numbers wrap around. */
  const LIMIT := 65535 * BLOCK_SIZE

  datatype DataPacket = DataPacket(num: uint16, payload: seq<byte>)

  function Packet(src: seq<byte>, i: nat): DataPacket
    requires 1 <= i <= BlockCount(src)
  {
    DataPacket(Num(i), Block(src, i))
  }

  /**
    cur is the block that the sender waits for the ACK of; at first it is the write request, number 0.
    Only what a real packet carries is in the channels.
   */
  datatype System = System(
    cur: nat, finished: bool, server: Server, toServer: seq<DataPacket>, toSender: seq<uint16>)

  datatype Action =
    | Retransmit | DeliverData | DeliverAck | ServerTimeout
    | LoseData(i: nat) | LoseAck(i: nat) | RepeatData(i: nat) | RepeatAck(i: nat)

  const Start := System(0, false, Begin, [], [0])

  /** The server handles an event, and the ACKs that it sends enter the channel. */
  function ServerStep(mode: Mode, s: System, e: Event): System {
    var server := Step(mode, s.server, e);
    var sent := if |server.acks| > |s.server.acks| then server.acks[|s.server.acks|..] else [];
    s.(server := server, toSender := s.toSender + sent)
  }

  /** The sender takes an ACK: the awaited one lets it send the next block, all others are ignored. */
  function SenderStep(src: seq<byte>, s: System, ack: uint16): System {
    if s.finished || ack != Num(s.cur) then s
    else if s.cur >= BlockCount(src) then s.(finished := true)
    else s.(cur := s.cur + 1, toServer := s.toServer + [Packet(src, s.cur + 1)])
  }

  function Without<T>(q: seq<T>, i: nat): seq<T> {
    if i < |q| then q[..i] + q[i + 1..] else q
  }

  function Repeated<T>(q: seq<T>, i: nat): seq<T> {
    if i < |q| then q[..i] + [q[i]] + q[i..] else q
  }

  function AsDatagram(p: DataPacket): Datagram {
    if |p.payload| <= BLOCK_SIZE then WireData(p.num, p.payload) else WireData(p.num, p.payload[..BLOCK_SIZE])
  }

  function Next(mode: Mode, src: seq<byte>, s: System, a: Action): System {
    match a
    case Retransmit =>
      if 1 <= s.cur <= BlockCount(src) && !s.finished then s.(toServer := s.toServer + [Packet(src, s.cur)]) else s
    case DeliverData =>
      if s.toServer == [] then s
      else ServerStep(mode, s.(toServer := s.toServer[1..]), Receive(AsDatagram(s.toServer[0])))
    case DeliverAck =>
      if s.toSender == [] then s else SenderStep(src, s.(toSender := s.toSender[1..]), s.toSender[0])
    case ServerTimeout => ServerStep(mode, s, Timeout)
    case LoseData(i) => s.(toServer := Without(s.toServer, i))
    case LoseAck(i) => s.(toSender := Without(s.toSender, i))
    case RepeatData(i) => s.(toServer := Repeated(s.toServer, i))
    case RepeatAck(i) => s.(toSender := Repeated(s.toSender, i))
  }

  function Execute(mode: Mode, src: seq<byte>, s: System, actions: seq<Action>): System
    decreases |actions|
  {
    if actions == [] then s else Execute(mode, src, Next(mode, src, s, actions[0]), actions[1..])
  }

  // ---- the invariant ----

  /** The file after the first l blocks: block numbers are compared, so every block numbered 0 is left out. */
  function Stored(mode: Mode, src: seq<byte>, l: nat): seq<byte>
    requires l <= BlockCount(src)
  {
    if l == 0 then []
    else Stored(mode, src, l - 1) + if Num(l) == 0 then [] else Written(mode, Block(src, l), Ahead(Num(l), Block(src, l)))
  }

  /** The number of blocks that the server has accepted: the sender's block or the one before. */
  function Accepted(s: System): nat {
    if s.cur == 0 || s.server.last == Num(s.cur) then s.cur else s.cur - 1
  }

  ghost predicate IsLastOrNext(src: seq<byte>, p: DataPacket, l: nat, cur: nat)
    requires cur <= BlockCount(src) && l <= cur
  {
    (l >= 1 && p == Packet(src, l)) || (cur >= 1 && p == Packet(src, cur))
  }

  /** Blocks in flight are the last accepted one and, behind it, the next one. */
  ghost predicate DataInFlight(src: seq<byte>, q: seq<DataPacket>, l: nat, cur: nat)
    requires cur <= BlockCount(src) && l <= cur
  {
    && (forall i | 0 <= i < |q| :: IsLastOrNext(src, q[i], l, cur))
    && (forall i, j | 0 <= i < j < |q| :: q[i].num == Num(cur) ==> q[j].num == Num(cur))
  }

  /** ACKs in flight are those of the block before the sender's and, behind them, of the last accepted one. */
  ghost predicate AcksInFlight(q: seq<uint16>, l: nat, cur: nat) {
    && (forall i | 0 <= i < |q| :: q[i] == Num(l) || (cur >= 1 && q[i] == Num(cur - 1)))
    && (forall i, j | 0 <= i < j < |q| :: q[i] == Num(l) ==> q[j] == Num(l))
  }

  ghost predicate Channels(src: seq<byte>, cur: nat, l: nat, toServer: seq<DataPacket>, toSender: seq<uint16>) {
    && cur <= BlockCount(src) && l <= cur <= l + 1
    && (cur == 0 ==> toServer == [])
    && DataInFlight(src, toServer, l, cur)
    && AcksInFlight(toSender, l, cur)
  }

  ghost predicate ServerAt(mode: Mode, src: seq<byte>, server: Server, l: nat)
    requires l <= BlockCount(src)
  {
    && server.last == Num(l)
    && server.file == Stored(mode, src, l)
    && (server.status == Succeeded <==> l == BlockCount(src))
    && (if server.status == Failed then server.timeouts == MAX_RETRY else server.timeouts < MAX_RETRY)
  }

  ghost predicate Inv(mode: Mode, src: seq<byte>, s: System) {
    var l := Accepted(s);
    && Channels(src, s.cur, l, s.toServer, s.toSender)
    && ServerAt(mode, src, s.server, l)
    && (s.finished ==> l == BlockCount(src))
  }

  // ---- every action keeps the invariant ----

  lemma UnfoldStored(mode: Mode, src: seq<byte>, l: nat)
    requires 1 <= l <= BlockCount(src)
    ensures Stored(mode, src, l)
         == Stored(mode, src, l - 1) + if Num(l) == 0 then [] else Written(mode, Block(src, l), Ahead(Num(l), Block(src, l)))
  {
  }

  lemma LoseOrRepeatData(src: seq<byte>, q: seq<DataPacket>, l: nat, cur: nat, i: nat)
    requires cur <= BlockCount(src) && l <= cur && DataInFlight(src, q, l, cur)
    ensures DataInFlight(src, Without(q, i), l, cur) && DataInFlight(src, Repeated(q, i), l, cur)
  {
    var w, r := Without(q, i), Repeated(q, i);
    assert forall k | 0 <= k < |w| :: w[k] == q[if k < i then k else k + 1];
    assert forall k | 0 <= k < |r| :: r[k] == q[if k <= i then k else k - 1];
  }

  lemma LoseOrRepeatAck(q: seq<uint16>, l: nat, cur: nat, i: nat)
    requires AcksInFlight(q, l, cur)
    ensures AcksInFlight(Without(q, i), l, cur) && AcksInFlight(Repeated(q, i), l, cur)
  {
    var w, r := Without(q, i), Repeated(q, i);
    assert forall k | 0 <= k < |w| :: w[k] == q[if k < i then k else k + 1];
    assert forall k | 0 <= k < |r| :: r[k] == q[if k <= i then k else k - 1];
  }

  lemma AckAgain(q: seq<uint16>, l: nat, cur: nat)
    requires AcksInFlight(q, l, cur)
    ensures AcksInFlight(q + [Num(l)], l, cur)
  {
  }

  /** The first ACK of the sender's own block goes behind those of the block before. */
  lemma AckNext(q: seq<uint16>, cur: nat)
    requires cur >= 1 && AcksInFlight(q, cur - 1, cur)
    ensures AcksInFlight(q + [Num(cur)], cur, cur)
  {
    ConsecutiveNums(cur - 1);
  }

  lemma TakeAck(q: seq<uint16>, l: nat, cur: nat)
    requires q != [] && AcksInFlight(q, l, cur)
    ensures AcksInFlight(q[1..], l, cur)
  {
  }

  /** Behind the awaited ACK there are only copies of it. */
  lemma TakeAwaitedAck(q: seq<uint16>, l: nat, cur: nat)
    requires q != [] && AcksInFlight(q, l, cur) && l <= cur <= l + 1 && q[0] == Num(cur)
    ensures l == cur && AcksInFlight(q[1..], cur, cur + 1)
  {
    ConsecutiveNums(cur);
    if cur >= 1 {
      ConsecutiveNums(cur - 1);
    }
  }

  lemma TakeData(src: seq<byte>, q: seq<DataPacket>, l: nat, cur: nat)
    requires cur <= BlockCount(src) && l <= cur && q != [] && DataInFlight(src, q, l, cur)
    ensures DataInFlight(src, q[1..], l, cur)
  {
  }

  /** Behind the sender's block there are only copies of it. */
  lemma TakeNewData(src: seq<byte>, q: seq<DataPacket>, cur: nat)
    requires 1 <= cur <= BlockCount(src) && q != [] && DataInFlight(src, q, cur - 1, cur) && q[0].num == Num(cur)
    ensures q[0] == Packet(src, cur) && DataInFlight(src, q[1..], cur, cur)
  {
    ConsecutiveNums(cur - 1);
  }

  lemma SendData(src: seq<byte>, q: seq<DataPacket>, l: nat, cur: nat)
    requires 1 <= cur <= BlockCount(src) && l <= cur && DataInFlight(src, q, l, cur)
    ensures DataInFlight(src, q + [Packet(src, cur)], l, cur)
  {
  }

  lemma SendNextData(src: seq<byte>, q: seq<DataPacket>, cur: nat)
    requires cur < BlockCount(src) && DataInFlight(src, q, cur, cur) && (cur == 0 ==> q == [])
    ensures DataInFlight(src, q + [Packet(src, cur + 1)], cur, cur + 1)
  {
    ConsecutiveNums(cur);
  }

  lemma TimeoutKeepsInv(mode: Mode, src: seq<byte>, s: System)
    requires Inv(mode, src, s)
    ensures Inv(mode, src, ServerStep(mode, s, Timeout))
  {
    var l := Accepted(s);
    var server := Step(mode, s.server, Timeout);
    if s.server.status == Running && s.server.timeouts + 1 < MAX_RETRY {
      assert server.acks[|s.server.acks|..] == [Num(l)];
      AckAgain(s.toSender, l, s.cur);
    } else {
      assert s.toSender + [] == s.toSender;
    }
  }

  lemma SendNextKeepsChannels(src: seq<byte>, cur: nat, toServer: seq<DataPacket>, toSender: seq<uint16>)
    requires cur < BlockCount(src) && Channels(src, cur, cur, toServer, toSender) && AcksInFlight(toSender, cur, cur + 1)
    ensures Channels(src, cur + 1, cur, toServer + [Packet(src, cur + 1)], toSender)
  {
    SendNextData(src, toServer, cur);
  }

  /** The awaited ACK lets the sender go on to the next block, or finish. */
  lemma AwaitedAckKeepsInv(mode: Mode, src: seq<byte>, s: System)
    requires Inv(mode, src, s) && !s.finished && Accepted(s) == s.cur && AcksInFlight(s.toSender, s.cur, s.cur + 1)
    ensures Inv(mode, src, SenderStep(src, s, Num(s.cur)))
  {
    if s.cur < BlockCount(src) {
      ConsecutiveNums(s.cur);
      SendNextKeepsChannels(src, s.cur, s.toServer, s.toSender);
      assert Accepted(SenderStep(src, s, Num(s.cur))) == s.cur;
    }
  }

  lemma DeliverAckKeepsInv(mode: Mode, src: seq<byte>, s: System)
    requires Inv(mode, src, s) && s.toSender != []
    ensures Inv(mode, src, SenderStep(src, s.(toSender := s.toSender[1..]), s.toSender[0]))
  {
    hide AcksInFlight, DataInFlight, Stored, Num, BlockCount;
    var s' := s.(toSender := s.toSender[1..]);
    TakeAck(s.toSender, Accepted(s), s.cur);
    AckChangeKeepsInv(mode, src, s, s'.toSender);
    if !s.finished && s.toSender[0] == Num(s.cur) {
      TakeAwaitedAck(s.toSender, Accepted(s), s.cur);
      AwaitedAckKeepsInv(mode, src, s');
    }
  }

  /** The server takes a DATA packet of the source. */
  lemma ServerTakesBlock(mode: Mode, src: seq<byte>, s: System, i: nat)
    requires 1 <= i <= BlockCount(src) && s.server.status == Running
    ensures ServerStep(mode, s, Receive(AsDatagram(Packet(src, i))))
         == s.(server := Accept(mode, s.server, Num(i), Block(src, i)), toSender := s.toSender + [Num(i)])
  {
    ParseWireData(Num(i), Block(src, i));
  }

  lemma AcceptRepeatedBlock(mode: Mode, src: seq<byte>, server: Server, i: nat)
    requires 1 <= i <= BlockCount(src) && ServerAt(mode, src, server, i) && server.status == Running
    ensures ServerAt(mode, src, Accept(mode, server, Num(i), Block(src, i)), i)
  {
    hide Stored, Block, Ahead, Written, BlockCount, Num;
    LastBlockIsShort(src, i);
    assert server.file + [] == server.file;
  }

  lemma RepeatedBlockKeepsChannels(src: seq<byte>, cur: nat, l: nat, toServer: seq<DataPacket>, toSender: seq<uint16>)
    requires Channels(src, cur, l, toServer, toSender) && toServer != []
    ensures Channels(src, cur, l, toServer[1..], toSender + [Num(l)])
  {
    TakeData(src, toServer, l, cur);
    AckAgain(toSender, l, cur);
  }

  /** A copy of the block accepted last is acknowledged and not written. */
  lemma RepeatedBlockKeepsInv(mode: Mode, src: seq<byte>, s: System)
    requires Inv(mode, src, s) && s.server.status == Running && s.toServer != []
    requires Accepted(s) >= 1 && s.toServer[0] == Packet(src, Accepted(s))
    ensures Inv(mode, src, Next(mode, src, s, DeliverData))
  {
    hide Stored, Block, Ahead, Written, BlockCount, DataInFlight, AcksInFlight;
    var l := Accepted(s);
    RepeatedBlockKeepsChannels(src, s.cur, l, s.toServer, s.toSender);
    ServerTakesBlock(mode, src, s.(toServer := s.toServer[1..]), l);
    AcceptRepeatedBlock(mode, src, s.server, l);
  }

  lemma NewBlockKeepsChannels(src: seq<byte>, cur: nat, toServer: seq<DataPacket>, toSender: seq<uint16>)
    requires cur >= 1 && Channels(src, cur, cur - 1, toServer, toSender)
    requires toServer != [] && toServer[0].num == Num(cur)
    ensures toServer[0] == Packet(src, cur)
    ensures Channels(src, cur, cur, toServer[1..], toSender + [Num(cur)])
  {
    TakeNewData(src, toServer, cur);
    AckNext(toSender, cur);
  }

  lemma AcceptNewBlock(mode: Mode, src: seq<byte>, server: Server, i: nat)
    requires 1 <= i <= BlockCount(src) && ServerAt(mode, src, server, i - 1) && server.status == Running
    ensures ServerAt(mode, src, Accept(mode, server, Num(i), Block(src, i)), i)
  {
    hide Stored, Block, Ahead, Written, BlockCount, Num;
    LastBlockIsShort(src, i);
    ConsecutiveNums(i - 1);
    UnfoldStored(mode, src, i);
  }

  /** The sender's block is acknowledged and, unless its number has wrapped around to 0, written. */
  lemma NewBlockKeepsInv(mode: Mode, src: seq<byte>, s: System)
    requires Inv(mode, src, s) && s.server.status == Running && s.toServer != []
    requires s.cur == Accepted(s) + 1 && s.toServer[0].num == Num(s.cur)
    ensures Inv(mode, src, Next(mode, src, s, DeliverData))
  {
    hide Stored, Block, Ahead, Written, BlockCount, DataInFlight, AcksInFlight;
    NewBlockKeepsChannels(src, s.cur, s.toServer, s.toSender);
    ServerTakesBlock(mode, src, s.(toServer := s.toServer[1..]), s.cur);
    AcceptNewBlock(mode, src, s.server, s.cur);
  }

  lemma DeliverDataKeepsInv(mode: Mode, src: seq<byte>, s: System)
    requires Inv(mode, src, s) && s.toServer != []
    ensures Inv(mode, src, Next(mode, src, s, DeliverData))
  {
    var l, p := Accepted(s), s.toServer[0];
    TakeData(src, s.toServer, l, s.cur);
    if s.server.status != Running {
      assert s.toSender + [] == s.toSender;
    } else {
      ConsecutiveNums(s.cur - 1);
      if l < s.cur && p.num == Num(s.cur) {
        NewBlockKeepsInv(mode, src, s);
      } else {
        RepeatedBlockKeepsInv(mode, src, s);
      }
    }
  }

  lemma DataChangeKeepsInv(mode: Mode, src: seq<byte>, s: System, q: seq<DataPacket>)
    requires Inv(mode, src, s) && DataInFlight(src, q, Accepted(s), s.cur) && (s.cur == 0 ==> q == [])
    ensures Inv(mode, src, s.(toServer := q))
  {
    hide DataInFlight, AcksInFlight, Stored, BlockCount;
  }

  lemma AckChangeKeepsInv(mode: Mode, src: seq<byte>, s: System, q: seq<uint16>)
    requires Inv(mode, src, s) && AcksInFlight(q, Accepted(s), s.cur)
    ensures Inv(mode, src, s.(toSender := q))
  {
    hide DataInFlight, AcksInFlight, Stored, BlockCount;
  }

  lemma ChannelActionKeepsInv(mode: Mode, src: seq<byte>, s: System, a: Action)
    requires Inv(mode, src, s) && !a.DeliverData? && !a.DeliverAck? && !a.ServerTimeout?
    ensures Inv(mode, src, Next(mode, src, s, a))
  {
    var l := Accepted(s);
    match a {
      case Retransmit =>
        if s.cur >= 1 && !s.finished {
          SendData(src, s.toServer, l, s.cur);
          DataChangeKeepsInv(mode, src, s, s.toServer + [Packet(src, s.cur)]);
        }
      case LoseData(i) =>
        LoseOrRepeatData(src, s.toServer, l, s.cur, i);
        DataChangeKeepsInv(mode, src, s, Without(s.toServer, i));
      case RepeatData(i) =>
        LoseOrRepeatData(src, s.toServer, l, s.cur, i);
        DataChangeKeepsInv(mode, src, s, Repeated(s.toServer, i));
      case LoseAck(i) =>
        LoseOrRepeatAck(s.toSender, l, s.cur, i);
        AckChangeKeepsInv(mode, src, s, Without(s.toSender, i));
      case RepeatAck(i) =>
        LoseOrRepeatAck(s.toSender, l, s.cur, i);
        AckChangeKeepsInv(mode, src, s, Repeated(s.toSender, i));
    }
  }

  lemma NextKeepsInv(mode: Mode, src: seq<byte>, s: System, a: Action)
    requires Inv(mode, src, s)
    ensures Inv(mode, src, Next(mode, src, s, a))
  {
    if a.DeliverData? {
      if s.toServer != [] { DeliverDataKeepsInv(mode, src, s); }
    } else if a.DeliverAck? {
      if s.toSender != [] { DeliverAckKeepsInv(mode, src, s); }
    } else if a.ServerTimeout? {
      TimeoutKeepsInv(mode, src, s);
    } else {
      ChannelActionKeepsInv(mode, src, s, a);
    }
  }

  lemma {:induction false} ExecuteKeepsInv(mode: Mode, src: seq<byte>, s: System, actions: seq<Action>)
    requires Inv(mode, src, s)
    ensures Inv(mode, src, Execute(mode, src, s, actions))
    decreases |actions|
  {
    if actions != [] {
      NextKeepsInv(mode, src, s, actions[0]);
      ExecuteKeepsInv(mode, src, Next(mode, src, s, actions[0]), actions[1..]);
    }
  }

  /** Safety over all runs, for a source of any length, whatever is lost, repeated or late. */
  lemma UploadIsSafe(mode: Mode, src: seq<byte>, actions: seq<Action>)
    ensures var s := Execute(mode, src, Start, actions);
      && s.cur <= BlockCount(src)
      && Accepted(s) <= s.cur <= Accepted(s) + 1
      && s.server.file == Stored(mode, src, Accepted(s))
      && (s.server.status == Succeeded || s.finished ==> s.server.file == Stored(mode, src, BlockCount(src)))
      && (s.server.status == Failed ==> s.server.timeouts == MAX_RETRY)
  {
    ExecuteKeepsInv(mode, src, Start, actions);
  }

  /** The events that the handler sees when the system takes an action: one or none. */
  function HeardOnce(s: System, a: Action): seq<Event> {
    if a.ServerTimeout? then [Timeout]
    else if a.DeliverData? && s.toServer != [] then [Receive(AsDatagram(s.toServer[0]))]
    else []
  }

  function Heard(mode: Mode, src: seq<byte>, s: System, actions: seq<Action>): seq<Event>
    decreases |actions|
  {
    if actions == [] then []
    else HeardOnce(s, actions[0]) + Heard(mode, src, Next(mode, src, s, actions[0]), actions[1..])
  }

  lemma OneActionIsHandler(mode: Mode, src: seq<byte>, s: System, a: Action, rest: seq<Event>)
    ensures Run(mode, Next(mode, src, s, a).server, rest) == Run(mode, s.server, HeardOnce(s, a) + rest)
  {
    var heard := HeardOnce(s, a);
    if heard == [] {
      assert heard + rest == rest;
    } else {
      assert (heard + rest)[1..] == rest;
    }
  }

  /** The server of the system is the handler, fed with what the channel delivers. */
  lemma {:induction false} ServerIsHandler(mode: Mode, src: seq<byte>, s: System, actions: seq<Action>)
    ensures Execute(mode, src, s, actions).server == Run(mode, s.server, Heard(mode, src, s, actions))
    decreases |actions|
  {
    if actions != [] {
      var next := Next(mode, src, s, actions[0]);
      ServerIsHandler(mode, src, next, actions[1..]);
      OneActionIsHandler(mode, src, s, actions[0], Heard(mode, src, next, actions[1..]));
    }
  }

  // ---- what the stored file is ----

  lemma StoredNothing(mode: Mode, src: seq<byte>)
    ensures Stored(mode, src, 0) == [] && End(src, 0) == 0 && src[..0] == []
  {
  }

  lemma OctetWritten(src: seq<byte>, l: nat)
    requires 1 <= l <= BlockCount(src)
    ensures Written(OctetMode, Block(src, l), Ahead(Num(l), Block(src, l))) == Block(src, l)
  {
  }

  /** One more block in binary mode, with the slices of the source. */
  lemma OctetOneMore(src: seq<byte>, l: nat, before: seq<byte>, after: seq<byte>)
    requires 1 <= l <= BlockCount(src)
    requires before == Stored(OctetMode, src, l - 1) && after == Stored(OctetMode, src, l)
    ensures after == before + if Num(l) == 0 then [] else Block(src, l)
  {
    UnfoldStored(OctetMode, src, l);
    OctetWritten(src, l);
  }

  lemma {:induction false} OctetPrefix(src: seq<byte>, l: nat)
    requires l <= BlockCount(src) && l < 0x1_0000
    ensures Stored(OctetMode, src, l) == src[..End(src, l)]
  {
    hide Stored, Block, End, BlockCount;
    if l == 0 {
      StoredNothing(OctetMode, src);
    } else {
      OctetPrefix(src, l - 1);
      OctetOneMore(src, l, Stored(OctetMode, src, l - 1), Stored(OctetMode, src, l));
      BlockExtendsFront(src, l);
      assert Num(l) == l;
    }
  }

  /** At the select point: no gap and no repeat in the file, up to the last block that was accepted. */
  lemma OctetFileIsFrontOfSource(src: seq<byte>, actions: seq<Action>)
    ensures var s := Execute(OctetMode, src, Start, actions);
      Accepted(s) <= BlockCount(src)
      && (Accepted(s) <= 65535 ==> s.server.file == src[..End(src, Accepted(s))])
  {
    hide Execute, Stored;
    UploadIsSafe(OctetMode, src, actions);
    var s := Execute(OctetMode, src, Start, actions);
    if Accepted(s) <= 65535 {
      OctetPrefix(src, Accepted(s));
    }
  }

  /** The wrapped block of a source beyond the limit holds data. */
  lemma WrappedBlockHasData(src: seq<byte>, l: nat)
    requires l == 0x1_0000 <= BlockCount(src) && |src| > LIMIT
    ensures |Block(src, l)| > 0
  {
  }

  lemma {:induction false} OctetBound(src: seq<byte>, l: nat)
    requires l <= BlockCount(src)
    ensures |Stored(OctetMode, src, l)| <= End(src, l)
    ensures l >= 0x1_0000 && |src| > LIMIT ==> |Stored(OctetMode, src, l)| < End(src, l)
  {
    hide Stored, Block, End, BlockCount;
    if l == 0 {
      StoredNothing(OctetMode, src);
    } else {
      OctetBound(src, l - 1);
      OctetOneMore(src, l, Stored(OctetMode, src, l - 1), Stored(OctetMode, src, l));
      BlockExtendsFront(src, l);
      if l == 0x1_0000 && |src| > LIMIT {
        WrappedBlockHasData(src, l);
      }
    }
  }

  lemma OctetStoredWithinLimit(src: seq<byte>)
    requires |src| <= LIMIT
    ensures Stored(OctetMode, src, BlockCount(src)) == src
  {
    var n := BlockCount(src);
    var l := if n < 0x1_0000 then n else n - 1;
    OctetPrefix(src, l);
    assert src[..End(src, l)] == src;
    if l < n {
      UnfoldStored(OctetMode, src, n);
    }
  }

  /** A finished binary upload is exact if and only if the source fits in 65535 full blocks. */
  lemma OctetUploadIsExactIff(src: seq<byte>, actions: seq<Action>)
    ensures var s := Execute(OctetMode, src, Start, actions);
      s.server.status == Succeeded || s.finished ==> (s.server.file == src <==> |src| <= LIMIT)
  {
    hide Execute, Stored;
    UploadIsSafe(OctetMode, src, actions);
    if |src| <= LIMIT {
      OctetStoredWithinLimit(src);
    } else {
      OctetBound(src, BlockCount(src));
    }
  }

  lemma StoredOfSlices(left: seq<byte>, block: seq<byte>, tail: seq<byte>, l: uint16)
    requires |left| >= BLOCK_SIZE && left[..BLOCK_SIZE] == block && left[BLOCK_SIZE..] == tail
    ensures StoredNetascii(left, l) == DecodeBlock(block, Ahead(l, block)) + StoredNetascii(tail, l + 1)
  {
    hide StoredNetascii, DecodeBlock, Ahead;
    Netascii.UnfoldStored(left, l);
  }

  lemma StoredOfNumbered(src: seq<byte>, l: nat, block: seq<byte>)
    requires 1 <= l <= BlockCount(src) && l < 0x1_0000 && block == Block(src, l)
    ensures Stored(NetasciiMode, src, l) == Stored(NetasciiMode, src, l - 1) + DecodeBlock(block, Ahead(l, block))
  {
    hide Stored, DecodeBlock, Ahead, Block;
    UnfoldStored(NetasciiMode, src, l);
  }

  lemma UnfoldStoredNetascii(src: seq<byte>, l: nat)
    requires 1 <= l < BlockCount(src) && l < 0x1_0000
    ensures var d := DecodeBlock(Block(src, l), Ahead(l, Block(src, l)));
      && Stored(NetasciiMode, src, l) == Stored(NetasciiMode, src, l - 1) + d
      && StoredNetascii(src[(l - 1) * 512..], l) == d + StoredNetascii(src[l * 512..], l + 1)
  {
    hide StoredNetascii, Stored, DecodeBlock, Ahead, Block;
    SliceBlock(src, l);
    StoredOfSlices(src[(l - 1) * 512..], Block(src, l), src[l * 512..], l);
    StoredOfNumbered(src, l, Block(src, l));
  }

  /** What is stored for l blocks, and behind it what decoding the rest gives. */
  function StoredThenLeft(src: seq<byte>, l: nat): seq<byte>
    requires l < BlockCount(src)
  {
    Stored(NetasciiMode, src, l) + StoredNetascii(src[l * 512..], l + 1)
  }

  lemma OneMoreStored(src: seq<byte>, l: nat)
    requires 1 <= l < BlockCount(src) && l < 0x1_0000
    ensures StoredThenLeft(src, l) == StoredThenLeft(src, l - 1)
  {
    UnfoldStoredNetascii(src, l);
    hide Stored, StoredNetascii, DecodeBlock, Ahead, Block, BlockCount;
    var before, left := Stored(NetasciiMode, src, l - 1), StoredNetascii(src[l * 512..], l + 1);
    Regroup(before, DecodeBlock(Block(src, l), Ahead(l, Block(src, l))), left);
  }

  lemma {:induction false} NetasciiPrefix(src: seq<byte>, l: nat)
    requires l < BlockCount(src) && l < 0x1_0000
    ensures StoredThenLeft(src, l) == StoredNetascii(src, 1)
  {
    if l == 0 {
      assert src[0 * 512..] == src;
      assert [] + StoredNetascii(src, 1) == StoredNetascii(src, 1);
    } else {
      hide StoredThenLeft, StoredNetascii;
      OneMoreStored(src, l);
      NetasciiPrefix(src, l - 1);
    }
  }

  lemma StoredShort(last: seq<byte>, n: nat)
    requires |last| < BLOCK_SIZE
    ensures StoredNetascii(last, n) == DecodeBlock(last, Ahead(Num(n), last))
    ensures last == [] ==> StoredNetascii(last, n) == []
  {
  }

  /** The short last block; if it is block 65536, which is not written, it is empty. */
  lemma UnfoldLastBlock(src: seq<byte>, n: nat, last: seq<byte>)
    requires n == BlockCount(src) && last == Block(src, n) && |last| < BLOCK_SIZE
    requires Num(n) == 0 ==> last == []
    ensures Stored(NetasciiMode, src, n) == Stored(NetasciiMode, src, n - 1) + StoredNetascii(last, n)
  {
    UnfoldStored(NetasciiMode, src, n);
    StoredShort(last, n);
  }

  lemma BlockZeroIsEmpty(src: seq<byte>)
    requires |src| <= LIMIT && Num(BlockCount(src)) == 0
    ensures Block(src, BlockCount(src)) == []
  {
  }

  lemma NetasciiStored(src: seq<byte>)
    requires |src| <= LIMIT
    ensures Stored(NetasciiMode, src, BlockCount(src)) == StoredNetascii(src, 1)
  {
    NetasciiPrefix(src, BlockCount(src) - 1);
    LastBlockOf(src);
    LastBlockIsShort(src, BlockCount(src));
    if Num(BlockCount(src)) == 0 {
      BlockZeroIsEmpty(src);
    }
    UnfoldLastBlock(src, BlockCount(src), Block(src, BlockCount(src)));
  }

  lemma LastBlockOf(src: seq<byte>)
    ensures src[(BlockCount(src) - 1) * 512..] == Block(src, BlockCount(src))
  {
  }

  lemma DecodedBlockIsNotEmpty(block: seq<byte>, ahead: byte)
    requires block != [] && EOF_BYTE !in block
    ensures DecodeBlock(block, ahead) != []
  {
    assert block[0] in block;
  }

  lemma BlockIsInSource(src: seq<byte>, l: nat)
    requires 1 <= l <= BlockCount(src) && EOF_BYTE !in src
    ensures EOF_BYTE !in Block(src, l)
  {
    var block := Block(src, l);
    assert forall k | 0 <= k < |block| :: block[k] == src[(l - 1) * 512 + k];
  }

  /** What a full block decodes to is stored, unless the block is numbered 0. */
  lemma DecodedFullBlock(src: seq<byte>, l: nat) returns (d: seq<byte>)
    requires 1 <= l < BlockCount(src) && EOF_BYTE !in src
    ensures d != []
    ensures Stored(NetasciiMode, src, l) == Stored(NetasciiMode, src, l - 1) + if Num(l) == 0 then [] else d
    ensures StoredNetascii(src[(l - 1) * 512..], l) == d + StoredNetascii(src[l * 512..], l + 1)
  {
    hide StoredNetascii, DecodeBlock, Ahead;
    var block := Block(src, l);
    d := DecodeBlock(block, Ahead(Num(l), block));
    SliceBlock(src, l);
    Netascii.UnfoldStored(src[(l - 1) * 512..], l);
    UnfoldStored(NetasciiMode, src, l);
    BlockIsInSource(src, l);
    DecodedBlockIsNotEmpty(block, Ahead(Num(l), block));
  }

  lemma OneMoreBlock(src: seq<byte>, l: nat)
    requires 1 <= l < BlockCount(src) && EOF_BYTE !in src
    ensures |StoredThenLeft(src, l)| <= |StoredThenLeft(src, l - 1)|
    ensures Num(l) == 0 ==> |StoredThenLeft(src, l)| < |StoredThenLeft(src, l - 1)|
  {
    var d := DecodedFullBlock(src, l);
    hide Stored, StoredNetascii, BlockCount;
    var before, left := Stored(NetasciiMode, src, l - 1), StoredNetascii(src[l * 512..], l + 1);
    assert |d + left| == |d| + |left|;
  }

  /** Beyond the limit the blocks numbered 0 are missing in the file. */
  lemma {:induction false} NetasciiBound(src: seq<byte>, l: nat)
    requires l < BlockCount(src) && EOF_BYTE !in src
    ensures |StoredThenLeft(src, l)| <= |StoredThenLeft(src, 0)|
    ensures l >= 0x1_0000 ==> |StoredThenLeft(src, l)| < |StoredThenLeft(src, 0)|
  {
    hide StoredThenLeft;
    if l > 0 {
      NetasciiBound(src, l - 1);
      OneMoreBlock(src, l);
    }
  }

  /** The last block, short and perhaps numbered 0. */
  lemma StoredAtEnd(src: seq<byte>, n: nat)
    requires n == BlockCount(src) && EOF_BYTE !in src
    ensures |Stored(NetasciiMode, src, n)| <= |StoredThenLeft(src, n - 1)|
    ensures Num(n) == 0 && Block(src, n) != [] ==> |Stored(NetasciiMode, src, n)| < |StoredThenLeft(src, n - 1)|
  {
    hide StoredNetascii, DecodeBlock, Ahead;
    var last := Block(src, n);
    LastBlockOf(src);
    LastBlockIsShort(src, n);
    StoredShort(last, n);
    UnfoldStored(NetasciiMode, src, n);
    BlockIsInSource(src, n);
    if last != [] {
      DecodedBlockIsNotEmpty(last, Ahead(Num(n), last));
    }
  }

  lemma NetasciiBeyondLimit(src: seq<byte>)
    requires |src| > LIMIT && EOF_BYTE !in src
    ensures |Stored(NetasciiMode, src, BlockCount(src))| < |StoredNetascii(src, 1)|
  {
    hide Stored, StoredNetascii;
    var n := BlockCount(src);
    NetasciiBound(src, n - 1);
    StoredAtEnd(src, n);
    NetasciiPrefix(src, 0);
  }

  lemma {:induction false} StoredHasNoEofByte(src: seq<byte>, l: nat)
    requires l <= BlockCount(src)
    ensures EOF_BYTE !in Stored(NetasciiMode, src, l)
  {
    hide Stored;
    StoredStep(src, l);
    if l > 0 {
      StoredHasNoEofByte(src, l - 1);
    }
  }

  /** One block more brings no byte that reads as EOF. */
  lemma StoredStep(src: seq<byte>, l: nat)
    requires l <= BlockCount(src)
    ensures l == 0 ==> Stored(NetasciiMode, src, l) == []
    ensures l > 0 && EOF_BYTE !in Stored(NetasciiMode, src, l - 1) ==> EOF_BYTE !in Stored(NetasciiMode, src, l)
  {
    hide DecodeBlock, Block, Ahead, BlockCount;
    if l > 0 {
      DecodeBlockHasNoEofByte(Block(src, l), Ahead(Num(l), Block(src, l)));
    }
  }

  /**
    A finished text upload, of the standard's encoding of f, is exact if and only if the encoding fits in
    65535 full blocks, no byte of f reads as EOF and no block ends in CR.
   */
  lemma NetasciiUploadIsExactIff(f: seq<byte>, actions: seq<Action>)
    requires |Encode(f)| <= LIMIT || BlocksEndingInCR(Encode(f)) == 0 || EOF_BYTE in f
    ensures var s := Execute(NetasciiMode, Encode(f), Start, actions);
      s.server.status == Succeeded || s.finished ==>
        (s.server.file == f <==> |Encode(f)| <= LIMIT && EOF_BYTE !in f && BlocksEndingInCR(Encode(f)) == 0)
  {
    hide Execute, Stored, BlocksEndingInCR;
    var src := Encode(f);
    UploadIsSafe(NetasciiMode, src, actions);
    if EOF_BYTE in f {
      StoredHasNoEofByte(src, BlockCount(src));
    } else if |src| <= LIMIT {
      NetasciiStored(src);
      UploadIsExactIff(f);
    } else {
      EncodeEofByte(f);
      NetasciiBeyondLimit(src);
      StoredIsDecode(src, 1);
      DecodeEncode(f);
    }
  }

  // ---- where a transfer can still succeed ----

  lemma {:induction false} ExecuteConcat(mode: Mode, src: seq<byte>, s: System, first: seq<Action>, second: seq<Action>)
    ensures Execute(mode, src, s, first + second) == Execute(mode, src, Execute(mode, src, s, first), second)
    decreases |first|
  {
    if first == [] {
      assert first + second == second;
    } else {
      assert (first + second)[1..] == first[1..] + second;
      ExecuteConcat(mode, src, Next(mode, src, s, first[0]), first[1..], second);
    }
  }

  lemma {:induction false} EmptyData(mode: Mode, src: seq<byte>, s: System) returns (actions: seq<Action>)
    ensures Execute(mode, src, s, actions) == s.(toServer := [])
    decreases |s.toServer|
  {
    actions := [];
    if s.toServer != [] {
      actions := EmptyData(mode, src, s.(toServer := Without(s.toServer, 0)));
      actions := [LoseData(0)] + actions;
    }
  }

  lemma {:induction false} EmptyAcks(mode: Mode, src: seq<byte>, s: System) returns (actions: seq<Action>)
    ensures Execute(mode, src, s, actions) == s.(toSender := [])
    decreases |s.toSender|
  {
    actions := [];
    if s.toSender != [] {
      actions := EmptyAcks(mode, src, s.(toSender := Without(s.toSender, 0)));
      actions := [LoseAck(0)] + actions;
    }
  }

  lemma ExecuteThree(mode: Mode, src: seq<byte>, s: System, a: Action, b: Action, c: Action)
    ensures Execute(mode, src, s, [a, b, c]) == Next(mode, src, Next(mode, src, Next(mode, src, s, a), b), c)
  {
    assert [a, b, c][1..] == [b, c] && [b, c][1..] == [c] && [c][1..] == [];
    var t := Next(mode, src, s, a);
    var u := Next(mode, src, t, b);
    assert Execute(mode, src, u, [c]) == Next(mode, src, u, c);
    assert Execute(mode, src, t, [b, c]) == Execute(mode, src, u, [c]);
  }

  /** With empty channels, one more copy of the sender's block and its ACK get through. */
  lemma OneRound(mode: Mode, src: seq<byte>, s: System)
    requires Inv(mode, src, s) && s.server.status == Running && !s.finished
    requires s.cur >= 1 && s.toServer == [] && s.toSender == []
    ensures var s' := Execute(mode, src, s, [Retransmit, DeliverData, DeliverAck]);
      && (s.cur < BlockCount(src) ==> s'.cur == s.cur + 1 && !s'.finished && s'.server.status == Running)
      && (s.cur == BlockCount(src) ==> s'.finished && s'.server.status == Succeeded)
  {
    ExecuteThree(mode, src, s, Retransmit, DeliverData, DeliverAck);
    var sent := Next(mode, src, s, Retransmit);
    assert sent == s.(toServer := [Packet(src, s.cur)]);
    ServerTakesBlock(mode, src, s, s.cur);
    assert sent.toServer[1..] == [] == s.toServer;
    var taken := Next(mode, src, sent, DeliverData);
    assert taken.toSender == [] + [Num(s.cur)] == [Num(s.cur)];
    LastBlockIsShort(src, s.cur);
  }

  lemma {:induction false} CanFinishFrom(mode: Mode, src: seq<byte>, s: System) returns (actions: seq<Action>)
    requires Inv(mode, src, s) && s.server.status == Running && s.cur >= 1
    ensures var s' := Execute(mode, src, s, actions); s'.server.status == Succeeded && s'.finished
    decreases BlockCount(src) - s.cur
  {
    assert !s.finished && s.cur <= BlockCount(src);
    hide Inv, Execute, Next;
    var first := EmptyData(mode, src, s);
    var second := EmptyAcks(mode, src, s.(toServer := []));
    var t := s.(toServer := [], toSender := []);
    var round := [Retransmit, DeliverData, DeliverAck];
    ExecuteConcat(mode, src, s, first, second);
    ExecuteConcat(mode, src, s, first + second, round);
    ExecuteKeepsInv(mode, src, s, first + second);
    OneRound(mode, src, t);
    actions := first + second + round;
    if s.cur < BlockCount(src) {
      var t' := Execute(mode, src, t, round);
      ExecuteKeepsInv(mode, src, t, round);
      var rest := CanFinishFrom(mode, src, t');
      ExecuteConcat(mode, src, s, actions, rest);
      actions := actions + rest;
    }
  }

  /** The first ACK is lost and one more timeout ends the transfer: the sender has nothing to send. */
  predicate Doomed(s: System) {
    s.cur == 0 && s.toSender == [] && s.server.timeouts + 1 == MAX_RETRY
  }

  lemma {:induction false} DoomedNeverSucceeds(mode: Mode, src: seq<byte>, s: System, actions: seq<Action>)
    requires s.cur == 0 && s.toServer == [] && s.toSender == []
    requires s.server.status == Failed || (s.server.status == Running && s.server.timeouts + 1 == MAX_RETRY)
    ensures Execute(mode, src, s, actions).server.status != Succeeded
    decreases |actions|
  {
    if actions != [] {
      var s' := Next(mode, src, s, actions[0]);
      assert s.toSender + [] == [];
      DoomedNeverSucceeds(mode, src, s', actions[1..]);
    }
  }

  /** From a reachable state with a waiting server the transfer can still succeed, unless it is doomed. */
  lemma CanSucceedIff(mode: Mode, src: seq<byte>, before: seq<Action>)
    ensures var s := Execute(mode, src, Start, before);
      s.server.status == Running ==>
        ((exists actions :: Execute(mode, src, s, actions).server.status == Succeeded) <==> !Doomed(s))
  {
    ExecuteKeepsInv(mode, src, Start, before);
    var s := Execute(mode, src, Start, before);
    if s.server.status == Running {
      if Doomed(s) {
        forall actions ensures Execute(mode, src, s, actions).server.status != Succeeded {
          DoomedNeverSucceeds(mode, src, s, actions);
        }
      } else if s.cur >= 1 {
        var actions := CanFinishFrom(mode, src, s);
      } else {
        var actions := CanStart(mode, src, s);
      }
    }
  }

  /** The first ACK, sent again if need be, starts the sender. */
  lemma CanStart(mode: Mode, src: seq<byte>, s: System) returns (actions: seq<Action>)
    requires Inv(mode, src, s) && s.server.status == Running && s.cur == 0 && !Doomed(s)
    ensures Execute(mode, src, s, actions).server.status == Succeeded
  {
    var first := if s.toSender == [] then [ServerTimeout, DeliverAck] else [DeliverAck];
    var s' := Execute(mode, src, s, first);
    ExecuteKeepsInv(mode, src, s, first);
    assert s'.cur == 1 && s'.server.status == Running by {
      assert [ServerTimeout, DeliverAck][1..] == [DeliverAck] && [DeliverAck][1..] == [];
      if s.toSender == [] {
        var t := Next(mode, src, s, ServerTimeout);
        assert t.toSender == [] + [Num(0)] == [Num(0)];
      }
    }
    var rest := CanFinishFrom(mode, src, s');
    ExecuteConcat(mode, src, s, first, rest);
    actions := first + rest;
  }
}
