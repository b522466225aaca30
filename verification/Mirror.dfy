/** A run of the protocol of one channel, made into a run of two connections.

    `Isolation` shows that a connection does nothing its channels do not do on their own. Here is the other direction,
    for showing what a connection can do: the steps of one reliable channel from end 0 to end 1, with messages as large
    as the codec makes them and packets as large as one buffer allows, are steps of two connections on which the other
    channels stay as they are. */
module Mirror {
  import opened Wrap16
  import opened Options
  import opened Configs
  import opened Codec
  import opened ReliableSpec
  import opened ConnectionSpec
  import opened ConnectionProtocol
  import opened PacketBudget
  import opened Isolation
  import opened Guarantees
  import ConnectionProgress
  import C = ChannelSpec
  import P = Protocol

  // ---- One state mirrors another -------------------------------------------------------------

  /** What a channel that is not in view holds, in the direction from end 0 to end 1. */
  datatype Rest<M> = Rest(processor: C.Processor<M>, accepted: seq<M>, receiver: Receiver<M>, received: seq<M>)

  /** A reliable channel in view, the size of the buffer, and what the other channels hold meanwhile, but for the
      time. */
  datatype View<!M(==)> = View(setup: Setup<M>, c: nat, bytes: nat, frame: seq<Rest<M>>) {
    ghost predicate Valid() {
      && setup.Reliable(c) && Config().Valid() && |frame| == |setup.configs|
      && forall i: nat :: setup.Reliable(i) ==> frame[i].processor.ReliableState?
    }

    ghost function Config(): Config
      requires setup.Reliable(c)
    {
      setup.configs[c]
    }
  }

  ghost function RestOf<M>(setup: Setup<M>, net: Net<M>, i: nat): Rest<M>
    requires WellFormedNet(setup, net) && i < |setup.configs|
  {
    Rest(net[0].connection.channels[i].processor, net[0].accepted[i],
         if setup.configs[i].kind.ReliableOrdered? then ReceiverOf(setup, net[1], i) else NewReceiver(),
         net[1].received[i])
  }

  ghost function FrameOf<M>(setup: Setup<M>, net: Net<M>): (r: seq<Rest<M>>)
    requires WellFormedNet(setup, net)
    ensures |r| == |setup.configs| && forall i: nat :: i < |r| ==> r[i] == RestOf(setup, net, i)
  {
    seq(|setup.configs|, i requires 0 <= i < |setup.configs| => RestOf(setup, net, i))
  }

  ghost predicate NoErrors<M>(end: End<M>) {
    && end.connection.errorLevel == NoError && !end.panicked
    && forall i :: 0 <= i < |end.connection.channels| ==> end.connection.channels[i].errorLevel == C.NoError
  }

  ghost function AtTime<M>(p: C.Processor<M>, time: real): C.Processor<M> {
    match p
    case ReliableState(sender, receiver) => C.ReliableState(sender.(time := time), receiver)
    case UnreliableState(_, _) => p
  }

  /** What another channel is at the sending end, at this time. */
  ghost function Framed<M>(v: View<M>, i: nat, time: real): C.ChannelState<M>
    requires v.Valid() && i < |v.setup.configs|
  {
    C.ChannelState(C.NoError, AtTime(v.frame[i].processor, time), 0, 0)
  }

  /** The other channels of the sending end are as the view has them. */
  ghost predicate SendsAsFramed<M>(v: View<M>, from: End<M>, time: real)
    requires v.Valid() && WellFormedEnd(v.setup, from)
  {
    forall i: nat :: i < |v.setup.configs| && i != v.c ==>
      && from.connection.channels[i].processor == AtTime(v.frame[i].processor, time)
      && (v.setup.Reliable(i) ==> from.accepted[i] == v.frame[i].accepted)
  }

  ghost predicate ReceivesAsFramed<M>(v: View<M>, to: End<M>)
    requires v.Valid() && WellFormedEnd(v.setup, to)
  {
    forall i: nat :: v.setup.Reliable(i) && i != v.c ==>
      ReceiverOf(v.setup, to, i) == v.frame[i].receiver && to.received[i] == v.frame[i].received
  }

  /** The other channels put nothing into a packet now, with `least` bits or more left for them. */
  ghost predicate OthersPassive<M>(v: View<M>, time: real, least: nat)
    requires v.Valid()
  {
    forall i: nat :: i < |v.setup.configs| && i != v.c ==> Passive(v.setup.configs[i], Framed(v, i, time), least)
  }

  /** No other reliable channel has a packet recorded with the 16-bit form of this number. */
  ghost predicate OthersClear<M>(v: View<M>, number: nat)
    requires v.Valid()
  {
    forall i: nat, p :: v.setup.Reliable(i) && i != v.c && p in v.frame[i].processor.sender.ledger ==>
      Wrap(p) != Wrap(number)
  }

  /** Packet `w` of the connection is `packet` for the channel in view, and has nothing for the other reliable ones. */
  ghost predicate Carries<M>(setup: Setup<M>, c: nat, w: WirePacket<M>, packet: P.Packet<M>)
    requires setup.Reliable(c)
  {
    && WireValid(setup, w) && w.number == packet.number
    && w.ids[c] == packet.ids && MessagesFor(w.data, c) == packet.messages
    && forall i: nat :: setup.Reliable(i) && i != c ==> w.ids[i] == [] && MessagesFor(w.data, i) == []
  }

  ghost predicate FlightMirrors<M>(setup: Setup<M>, c: nat, flight: set<WirePacket<M>>, packets: set<P.Packet<M>>)
    requires setup.Reliable(c)
  {
    forall packet :: packet in packets ==> exists w :: w in flight && Carries(setup, c, w, packet)
  }

  ghost predicate SenderMirrors<M>(v: View<M>, from: End<M>, sys: P.System<M>) {
    && v.Valid() && WellFormedEnd(v.setup, from) && NoErrors(from) && SendsAsFramed(v, from, sys.sender.time)
    && SenderOf(v.setup, from, v.c) == sys.sender && from.accepted[v.c] == sys.accepted
    && from.nextPacket == sys.nextPacket && from.processed == sys.processed && from.acked == sys.acked
    && FlightMirrors(v.setup, v.c, from.flight, sys.flight)
  }

  ghost predicate ReceiverMirrors<M>(v: View<M>, to: End<M>, sys: P.System<M>) {
    && v.Valid() && WellFormedEnd(v.setup, to) && NoErrors(to) && ReceivesAsFramed(v, to)
    && ReceiverOf(v.setup, to, v.c) == sys.receiver && to.received[v.c] == sys.delivered
  }

  ghost predicate Mirrors<M>(v: View<M>, net: Net<M>, sys: P.System<M>) {
    |net| == 2 && SenderMirrors(v, net[0], sys) && ReceiverMirrors(v, net[1], sys)
  }

  // ---- Steps of the sending end --------------------------------------------------------------

  lemma StillFramed<M>(v: View<M>, from: End<M>, r: End<M>, time: real, time': real)
    requires v.Valid() && WellFormedEnd(v.setup, from) && WellFormedEnd(v.setup, r) && SendsAsFramed(v, from, time)
    requires forall i: nat :: i < |v.setup.configs| && i != v.c ==>
               && r.connection.channels[i].processor == AtTime(from.connection.channels[i].processor, time')
               && r.accepted[i] == from.accepted[i]
    ensures SendsAsFramed(v, r, time')
  {
    forall i: nat | i < |v.setup.configs| && i != v.c
      ensures r.connection.channels[i].processor == AtTime(v.frame[i].processor, time')
    {
      TimeOverTime(v.frame[i].processor, time, time');
    }
  }

  lemma TimeOverTime<M>(p: C.Processor<M>, time: real, time': real)
    ensures AtTime(AtTime(p, time), time') == AtTime(p, time')
    ensures AtTime(AtTime(p, time), time) == AtTime(p, time)
  {
  }

  /** Nothing happened to the other channels, and no time passed. */
  lemma SameFrame<M>(v: View<M>, from: End<M>, r: End<M>, time: real)
    requires v.Valid() && WellFormedEnd(v.setup, from) && WellFormedEnd(v.setup, r) && SendsAsFramed(v, from, time)
    requires forall i: nat :: i < |v.setup.configs| && i != v.c ==>
               && r.connection.channels[i].processor == from.connection.channels[i].processor
               && r.accepted[i] == from.accepted[i]
    ensures SendsAsFramed(v, r, time)
  {
    forall i: nat | i < |v.setup.configs| && i != v.c
      ensures AtTime(from.connection.channels[i].processor, time) == from.connection.channels[i].processor
    {
      TimeOverTime(v.frame[i].processor, time, time);
    }
    StillFramed(v, from, r, time, time);
  }

  lemma TimeOnAll<M>(end: End<M>, time: real)
    requires NoErrors(end)
    ensures NoErrors(ApplyTime(end, time)) && |ApplyTime(end, time).connection.channels| == |end.connection.channels|
    ensures forall i :: 0 <= i < |end.connection.channels| ==>
              ApplyTime(end, time).connection.channels[i].processor
              == AtTime(end.connection.channels[i].processor, time)
  {
  }

  lemma SendMirrors<M(!new)>(v: View<M>, from: End<M>, sys: P.System<M>, message: M)
    requires SetupUsable(v.setup) && SenderMirrors(v, from, sys)
    requires CanSendMessage(v.Config(), sys.sender) && sys.sender.oldest <= sys.sender.next
    ensures SenderMirrors(v, ApplySend(v.setup, from, v.c, message),
                          P.Apply(v.Config(), sys, P.Send(message, 8 * v.setup.Size()(message))))
  {
    SendKeepsWellFormed(v.setup, from, v.c, message);
  }

  lemma TimeMirrors<M(!new)>(v: View<M>, from: End<M>, sys: P.System<M>, time: real)
    requires SetupUsable(v.setup) && SenderMirrors(v, from, sys) && sys.sender.oldest <= sys.sender.next
    ensures SenderMirrors(v, ApplyTime(from, time), P.Apply(v.Config(), sys, P.AdvanceTime(time)))
  {
    TimeKeepsFrame(v, from, sys.sender.time, time);
    TimeOnItsOwn(v, from, sys, time);
  }

  lemma TimeOnItsOwn<M>(v: View<M>, from: End<M>, sys: P.System<M>, time: real)
    requires v.Valid() && WellFormedEnd(v.setup, from) && NoErrors(from)
    requires SenderOf(v.setup, from, v.c) == sys.sender && sys.sender.oldest <= sys.sender.next
    ensures WellFormedEnd(v.setup, ApplyTime(from, time)) && NoErrors(ApplyTime(from, time))
    ensures SenderOf(v.setup, ApplyTime(from, time), v.c)
         == P.Apply(v.Config(), sys, P.AdvanceTime(time)).sender == sys.sender.(time := time)
    ensures ApplyTime(from, time) == from.(connection := ApplyTime(from, time).connection)
  {
    TimeKeepsWellFormed(v.setup, from, time);
    TimeOnAll(from, time);
  }

  lemma TimeKeepsFrame<M>(v: View<M>, from: End<M>, time: real, time': real)
    requires v.Valid() && WellFormedEnd(v.setup, from) && NoErrors(from) && SendsAsFramed(v, from, time)
    ensures WellFormedEnd(v.setup, ApplyTime(from, time')) && SendsAsFramed(v, ApplyTime(from, time'), time')
  {
    TimeKeepsWellFormed(v.setup, from, time');
    TimeOnAll(from, time');
    StillFramed(v, from, ApplyTime(from, time'), time, time');
  }

  /** A channel without such a packet does not see the ack. */
  lemma AckUnseen<M>(v: View<M>, from: End<M>, number: nat, time: real, i: nat)
    requires v.Valid() && WellFormedEnd(v.setup, from) && SendsAsFramed(v, from, time) && OthersClear(v, number)
    requires i < |v.setup.configs| && i != v.c
    ensures C.AckResultOf(from.connection.channels[i], Wrap(number)) == NotRecorded
    ensures C.ProcessAck(from.connection.channels[i], Wrap(number)).processor == from.connection.channels[i].processor
    ensures v.setup.Reliable(i) ==> P.AckIsClear(SenderOf(v.setup, from, i), number)
  {
    if v.setup.Reliable(i) {
      var s := SenderOf(v.setup, from, i);
      assert s.ledger == v.frame[i].processor.sender.ledger;
      BelowIsBehind(s.packetTop, number);
    }
  }

  lemma AckMirrors<M(!new)>(v: View<M>, from: End<M>, sys: P.System<M>, number: nat)
    requires SetupUsable(v.setup) && SenderMirrors(v, from, sys) && OthersClear(v, number)
    requires sys.sender.oldest <= sys.sender.next && AckOutcome(sys.sender, Wrap(number)) != AlreadyAcked
    ensures !AckPanics(from.connection.channels, Wrap(number))
    ensures SenderMirrors(v, AckedEnd(v.setup, from, number), P.Apply(v.Config(), sys, P.Ack(number)))
  {
    AckKeepsFrame(v, from, number, sys.sender.time);
    AckOnItsOwn(v, from, sys, number);
  }

  lemma AckKeepsFrame<M>(v: View<M>, from: End<M>, number: nat, time: real)
    requires v.Valid() && WellFormedEnd(v.setup, from) && SendsAsFramed(v, from, time) && OthersClear(v, number)
    requires C.AckResultOf(from.connection.channels[v.c], Wrap(number)) != AlreadyAcked
    ensures !AckPanics(from.connection.channels, Wrap(number))
    ensures WellFormedEnd(v.setup, AckedEnd(v.setup, from, number))
    ensures SendsAsFramed(v, AckedEnd(v.setup, from, number), time)
  {
    AckKeepsWellFormed(v.setup, from, number);
    forall i: nat | i < |v.setup.configs| && i != v.c
      ensures C.AckResultOf(from.connection.channels[i], Wrap(number)) == NotRecorded
      ensures AckedEnd(v.setup, from, number).connection.channels[i].processor == from.connection.channels[i].processor
    {
      AckUnseen(v, from, number, time, i);
    }
    SameFrame(v, from, AckedEnd(v.setup, from, number), time);
  }

  /** What the channel in view, and the connection, become. */
  lemma AckOnItsOwn<M>(v: View<M>, from: End<M>, sys: P.System<M>, number: nat)
    requires v.Valid() && WellFormedEnd(v.setup, from) && NoErrors(from)
    requires SenderOf(v.setup, from, v.c) == sys.sender && sys.sender.oldest <= sys.sender.next
    ensures WellFormedEnd(v.setup, AckedEnd(v.setup, from, number)) && NoErrors(AckedEnd(v.setup, from, number))
    ensures SenderOf(v.setup, AckedEnd(v.setup, from, number), v.c)
         == P.Apply(v.Config(), sys, P.Ack(number)).sender == ReliableSpec.ProcessAck(sys.sender, Wrap(number))
  {
    AckKeepsWellFormed(v.setup, from, number);
  }

  /** A channel that is passive puts nothing into a packet. */
  lemma PassiveAfterGenerate<M>(setup: Setup<M>, from: End<M>, bytes: nat, i: nat, least: nat)
    requires WellFormedEnd(setup, from) && Supported(setup.configs) && i < |setup.configs|
    requires GenerateAt(setup, from, bytes).Generated? && RoomFor(setup, from, bytes, i) >= least
    requires Passive(setup.configs[i], from.connection.channels[i], least)
    ensures |GenerateAt(setup, from, bytes).channels| == |setup.configs|
    ensures GenerateAt(setup, from, bytes).channels[i] == from.connection.channels[i]
    ensures MessagesFor(GenerateAt(setup, from, bytes).data, i) == [] && ChosenBy(setup, from, bytes, i) == []
  {
    ChannelAfterGenerate(setup, from, bytes, i);
    PassiveTurn(setup.configs[i], setup.Size(), from.connection.channels[i], Wrap(from.nextPacket),
                Packing(RoomFor(setup, from, bytes, i), []), i, least);
  }

  /** What is left of the packet when the channel in view had its turn first, if it left room for its header. */
  ghost predicate LeavesBits<M>(v: View<M>, s: Sender<M>, least: nat)
    requires v.setup.Reliable(v.c)
  {
    && 8 * v.bytes >= PACKET_HEADER_BITS
    && (HasMessagesToSend(s) ==> v.Config().BitsFor(BufferRoom(v.bytes)) >= MESSAGE_HEADER_BITS)
    && ChooseMessages(v.Config(), s, BufferRoom(v.bytes)).bits + CHANNEL_HEADER_BITS + least <= BufferRoom(v.bytes)
  }

  /** With the other channels passive, the channel in view has the whole buffer to itself. */
  lemma PackedAlone<M(!new)>(v: View<M>, from: End<M>, least: nat, n: nat)
    requires SetupUsable(v.setup) && v.Valid() && WellFormedEnd(v.setup, from) && n <= |v.setup.configs|
    requires forall i: nat :: i < |v.setup.configs| && i != v.c ==>
               Passive(v.setup.configs[i], from.connection.channels[i], least)
    requires LeavesBits(v, SenderOf(v.setup, from, v.c), least)
    ensures var packing := Packed(v.setup.configs, v.setup.Size(), from.connection.channels, Wrap(from.nextPacket),
                                  v.bytes, n);
            packing.Packing? && packing.room >= least && (n <= v.c ==> packing.room == BufferRoom(v.bytes))
  {
    OnlyOneTurn(v.setup.configs, v.setup.Size(), from.connection.channels, Wrap(from.nextPacket), v.bytes, v.c, least,
                n);
  }

  lemma GenerateAlone<M(!new)>(v: View<M>, from: End<M>, least: nat)
    requires SetupUsable(v.setup) && v.Valid() && WellFormedEnd(v.setup, from)
    requires forall i: nat :: i < |v.setup.configs| && i != v.c ==>
               Passive(v.setup.configs[i], from.connection.channels[i], least)
    requires LeavesBits(v, SenderOf(v.setup, from, v.c), least)
    ensures GenerateAt(v.setup, from, v.bytes).Generated?
    ensures RoomFor(v.setup, from, v.bytes, v.c) == BufferRoom(v.bytes)
    ensures forall i: nat :: i < |v.setup.configs| ==> RoomFor(v.setup, from, v.bytes, i) >= least
  {
    forall i: nat | i <= |v.setup.configs|
      ensures var packing := Packed(v.setup.configs, v.setup.Size(), from.connection.channels, Wrap(from.nextPacket),
                                    v.bytes, i);
              packing.Packing? && packing.room >= least && (i <= v.c ==> packing.room == BufferRoom(v.bytes))
    {
      PackedAlone(v, from, least, i);
    }
  }

  lemma OthersAfterGenerate<M(!new)>(v: View<M>, from: End<M>, least: nat)
    requires SetupUsable(v.setup) && v.Valid() && WellFormedEnd(v.setup, from) && NoErrors(from)
    requires forall i: nat :: i < |v.setup.configs| && i != v.c ==>
               Passive(v.setup.configs[i], from.connection.channels[i], least)
    requires GenerateAt(v.setup, from, v.bytes).Generated?
    requires forall i: nat :: i < |v.setup.configs| ==> RoomFor(v.setup, from, v.bytes, i) >= least
    ensures var from' := ApplyGenerate(v.setup, from, v.bytes);
            && NoErrors(from') && |from'.connection.channels| == |v.setup.configs|
            && from'.accepted == from.accepted && from'.processed == from.processed && from'.acked == from.acked
            && forall i: nat :: i < |v.setup.configs| && i != v.c ==>
                 from'.connection.channels[i] == from.connection.channels[i]
    ensures NothingForOthers(v, from)
  {
    ChannelAfterGenerate(v.setup, from, v.bytes, v.c);
    forall i: nat | i < |v.setup.configs| && i != v.c
      ensures GenerateAt(v.setup, from, v.bytes).channels[i] == from.connection.channels[i]
      ensures MessagesFor(GenerateAt(v.setup, from, v.bytes).data, i) == [] && ChosenBy(v.setup, from, v.bytes, i) == []
    {
      PassiveAfterGenerate(v.setup, from, v.bytes, i, least);
    }
    ChannelsOfEnd(v.setup, from, v.bytes);
  }

  /** What generating a packet does to the end but for the packet. */
  lemma ChannelsOfEnd<M>(setup: Setup<M>, from: End<M>, bytes: nat)
    requires WellFormedEnd(setup, from) && Supported(setup.configs) && GenerateAt(setup, from, bytes).Generated?
    ensures var r := ApplyGenerate(setup, from, bytes);
            && r.connection == from.connection.(channels := GenerateAt(setup, from, bytes).channels)
            && r.panicked == from.panicked && r.accepted == from.accepted
            && r.processed == from.processed && r.acked == from.acked
  {
  }

  /** The packet has nothing for the other channels. */
  ghost predicate NothingForOthers<M>(v: View<M>, from: End<M>)
    requires WellFormedEnd(v.setup, from) && GenerateAt(v.setup, from, v.bytes).Generated?
  {
    forall i: nat :: v.setup.Reliable(i) && i != v.c ==>
      MessagesFor(GenerateAt(v.setup, from, v.bytes).data, i) == [] && ChosenBy(v.setup, from, v.bytes, i) == []
  }

  lemma FlightGrows<M>(
    setup: Setup<M>, c: nat, flight: set<WirePacket<M>>, packets: set<P.Packet<M>>, w: WirePacket<M>,
    packet: P.Packet<M>)
    requires setup.Reliable(c) && FlightMirrors(setup, c, flight, packets) && Carries(setup, c, w, packet)
    ensures FlightMirrors(setup, c, flight + {w}, packets + {packet})
  {
    forall p | p in packets + {packet}
      ensures exists u :: u in flight + {w} && Carries(setup, c, u, p)
    {
      if p in packets {
        var u :| u in flight && Carries(setup, c, u, p);
        assert u in flight + {w};
      } else {
        assert w in flight + {w};
      }
    }
  }

  /** The packet that is sent carries what the channel chose, and nothing for the others. */
  lemma NewPacketCarries<M(!new)>(v: View<M>, from: End<M>)
    requires SetupUsable(v.setup) && v.Valid() && WellFormedEnd(v.setup, from)
    requires GenerateAt(v.setup, from, v.bytes).Generated? && NothingForOthers(v, from)
    ensures var s := SenderOf(v.setup, from, v.c);
            var ids := ChooseMessages(v.Config(), s, RoomFor(v.setup, from, v.bytes, v.c)).ids;
            && (forall k :: k in ids ==> k in s.queue)
            && Carries(v.setup, v.c, PacketOf(v.setup, from, v.bytes),
                       P.Packet(from.nextPacket, ids, WireMessages(s, ids)))
  {
    ReliablePart(v.setup, from, v.bytes, v.c);
    PacketFits(v.setup.configs, v.setup.codec, from.connection.channels, Wrap(from.nextPacket), v.bytes);
  }

  /** Generating a packet in the protocol, when the channel chooses `ids`. */
  lemma GenerateInProtocol<M>(config: Config, sys: P.System<M>, room: nat, ids: seq<int>)
    requires config.Valid() && sys.sender.oldest <= sys.sender.next
    requires ChooseMessages(config, sys.sender, room).ids == ids
    ensures forall k :: k in ids ==> k in sys.sender.queue
    ensures var r := P.Apply(config, sys, P.Generate(room));
            && r.sender == GeneratePacket(config, sys.sender, Wrap(sys.nextPacket), room)
            && r.nextPacket == sys.nextPacket + 1
            && r.flight == sys.flight + {P.Packet(sys.nextPacket, ids, WireMessages(sys.sender, ids))}
            && r == sys.(sender := r.sender, nextPacket := r.nextPacket, flight := r.flight, recorded := r.recorded)
  {
    ChooseMessagesIsSound(config, sys.sender, room);
  }

  /** The number of the packet is clear for the channel in view, and the others have no part in it. */
  lemma NumberIsClearAlone<M(!new)>(v: View<M>, from: End<M>)
    requires SetupUsable(v.setup) && v.Valid() && WellFormedEnd(v.setup, from)
    requires P.NumberIsClear(v.Config(), SenderOf(v.setup, from, v.c), from.nextPacket)
    requires GenerateAt(v.setup, from, v.bytes).Generated? && NothingForOthers(v, from)
    ensures NumberIsClear(v.setup, from, GenerateAt(v.setup, from, v.bytes))
  {
  }

  lemma GenerateKeepsTime<M>(config: Config, s: Sender<M>, number: u16, room: nat)
    ensures GeneratePacket(config, s, number, room).time == s.time
  {
  }

  lemma GenerateKeepsFrame<M>(v: View<M>, from: End<M>, time: real)
    requires Supported(v.setup.configs) && v.Valid() && WellFormedEnd(v.setup, from) && SendsAsFramed(v, from, time)
    requires GenerateAt(v.setup, from, v.bytes).Generated?
    requires |ApplyGenerate(v.setup, from, v.bytes).connection.channels| == |v.setup.configs|
    requires forall i: nat :: i < |v.setup.configs| && i != v.c ==>
               ApplyGenerate(v.setup, from, v.bytes).connection.channels[i] == from.connection.channels[i]
    ensures WellFormedEnd(v.setup, ApplyGenerate(v.setup, from, v.bytes))
    ensures SendsAsFramed(v, ApplyGenerate(v.setup, from, v.bytes), time)
  {
    GenerateKeepsWellFormed(v.setup, from, v.bytes);
    SameFrame(v, from, ApplyGenerate(v.setup, from, v.bytes), time);
  }

  /** The sending end after a packet, against a state of the protocol after the same packet. */
  lemma SentMirrors<M(!new)>(v: View<M>, from: End<M>, sys: P.System<M>, r: P.System<M>)
    requires SetupUsable(v.setup) && SenderMirrors(v, from, sys)
    requires GenerateAt(v.setup, from, v.bytes).Generated? && GenerateAt(v.setup, from, v.bytes).data != []
    requires NothingForOthers(v, from) && NoErrors(ApplyGenerate(v.setup, from, v.bytes))
    requires |ApplyGenerate(v.setup, from, v.bytes).connection.channels| == |v.setup.configs|
    requires forall i: nat :: i < |v.setup.configs| && i != v.c ==>
               ApplyGenerate(v.setup, from, v.bytes).connection.channels[i] == from.connection.channels[i]
    requires r == sys.(sender := r.sender, nextPacket := sys.nextPacket + 1, flight := r.flight, recorded := r.recorded)
    requires r.sender == GeneratePacket(v.Config(), sys.sender, Wrap(sys.nextPacket),
                                        RoomFor(v.setup, from, v.bytes, v.c))
    requires var ids := ChooseMessages(v.Config(), sys.sender, RoomFor(v.setup, from, v.bytes, v.c)).ids;
             && (forall k :: k in ids ==> k in sys.sender.queue)
             && r.flight == sys.flight + {P.Packet(sys.nextPacket, ids, WireMessages(sys.sender, ids))}
    ensures SenderMirrors(v, ApplyGenerate(v.setup, from, v.bytes), r)
  {
    var ids := ChooseMessages(v.Config(), sys.sender, RoomFor(v.setup, from, v.bytes, v.c)).ids;
    NewPacketCarries(v, from);
    FlightGrows(v.setup, v.c, from.flight, sys.flight, PacketOf(v.setup, from, v.bytes),
                P.Packet(sys.nextPacket, ids, WireMessages(sys.sender, ids)));
    SenderAfterGenerate(v.setup, from, v.bytes, v.c);
    GenerateKeepsFrame(v, from, sys.sender.time);
    GenerateKeepsTime(v.Config(), sys.sender, Wrap(sys.nextPacket), RoomFor(v.setup, from, v.bytes, v.c));
  }

  /** What it takes for the channel in view to send a packet of its own, leaving `least` bits for the others. */
  ghost predicate MaySend<M(!new)>(v: View<M>, s: Sender<M>, nextPacket: nat, least: nat)
    requires v.Valid()
  {
    && ChooseMessages(v.Config(), s, BufferRoom(v.bytes)).ids != [] && LeavesBits(v, s, least)
    && OthersPassive(v, s.time, least)
    && P.NumberIsClear(v.Config(), s, nextPacket)
  }

  lemma SendsAlone<M(!new)>(v: View<M>, from: End<M>, least: nat)
    requires SetupUsable(v.setup) && v.Valid() && WellFormedEnd(v.setup, from) && NoErrors(from)
    requires SendsAsFramed(v, from, SenderOf(v.setup, from, v.c).time)
    requires MaySend(v, SenderOf(v.setup, from, v.c), from.nextPacket, least)
    ensures GenerateAt(v.setup, from, v.bytes).Generated? && GenerateAt(v.setup, from, v.bytes).data != []
    ensures RoomFor(v.setup, from, v.bytes, v.c) == BufferRoom(v.bytes)
    ensures NumberIsClear(v.setup, from, GenerateAt(v.setup, from, v.bytes))
    ensures NothingForOthers(v, from) && NoErrors(ApplyGenerate(v.setup, from, v.bytes))
    ensures |ApplyGenerate(v.setup, from, v.bytes).connection.channels| == |v.setup.configs|
    ensures forall i: nat :: i < |v.setup.configs| && i != v.c ==>
              ApplyGenerate(v.setup, from, v.bytes).connection.channels[i] == from.connection.channels[i]
  {
    FramedArePassive(v, from, SenderOf(v.setup, from, v.c).time, least);
    GenerateAlone(v, from, least);
    ReliablePart(v.setup, from, v.bytes, v.c);
    ConnectionProgress.NothingWithoutData(GenerateAt(v.setup, from, v.bytes).data, v.c);
    OthersAfterGenerate(v, from, least);
    NumberIsClearAlone(v, from);
  }

  lemma FramedArePassive<M>(v: View<M>, from: End<M>, time: real, least: nat)
    requires v.Valid() && WellFormedEnd(v.setup, from) && SendsAsFramed(v, from, time) && OthersPassive(v, time, least)
    ensures forall i: nat :: i < |v.setup.configs| && i != v.c ==>
              Passive(v.setup.configs[i], from.connection.channels[i], least)
  {
    forall i: nat | i < |v.setup.configs| && i != v.c
      ensures Passive(v.setup.configs[i], from.connection.channels[i], least)
    {
      assert Passive(v.setup.configs[i], Framed(v, i, time), least);
    }
  }

  lemma GenerateMirrors<M(!new)>(v: View<M>, from: End<M>, sys: P.System<M>, least: nat)
    requires SetupUsable(v.setup) && SenderMirrors(v, from, sys) && sys.sender.oldest <= sys.sender.next
    requires MaySend(v, sys.sender, sys.nextPacket, least)
    ensures NumberIsClear(v.setup, from, GenerateAt(v.setup, from, v.bytes))
    ensures SenderMirrors(v, ApplyGenerate(v.setup, from, v.bytes),
                          P.Apply(v.Config(), sys, P.Generate(BufferRoom(v.bytes))))
  {
    var room := BufferRoom(v.bytes);
    SendsAlone(v, from, least);
    GenerateInProtocol(v.Config(), sys, room, ChooseMessages(v.Config(), sys.sender, room).ids);
    SentMirrors(v, from, sys, P.Apply(v.Config(), sys, P.Generate(room)));
  }

  // ---- Steps of the receiving end ------------------------------------------------------------

  lemma ReceiveMirrors<M(!new)>(v: View<M>, to: End<M>, sys: P.System<M>)
    requires SetupUsable(v.setup) && ReceiverMirrors(v, to, sys)
    requires NextMessage(sys.receiver).Some? && sys.sender.oldest <= sys.sender.next
    ensures ReceiverMirrors(v, ApplyReceive(v.setup, to, v.c), P.Apply(v.Config(), sys, P.Receive))
  {
    ReceiveOnOthers(v, to);
    ReceiveOnItsOwn(v, to);
    ReceiveInProtocol(v.Config(), sys);
  }

  lemma ReceiveInProtocol<M>(config: Config, sys: P.System<M>)
    requires config.Valid() && NextMessage(sys.receiver).Some? && sys.sender.oldest <= sys.sender.next
    ensures P.Apply(config, sys, P.Receive)
         == sys.(receiver := Delivered(sys.receiver), delivered := sys.delivered + [NextMessage(sys.receiver).value])
  {
  }

  lemma ReceiveOnItsOwn<M>(v: View<M>, to: End<M>)
    requires v.Valid() && WellFormedEnd(v.setup, to) && NoErrors(to)
    requires NextMessage(ReceiverOf(v.setup, to, v.c)).Some?
    ensures WellFormedEnd(v.setup, ApplyReceive(v.setup, to, v.c)) && NoErrors(ApplyReceive(v.setup, to, v.c))
    ensures ReceiverOf(v.setup, ApplyReceive(v.setup, to, v.c), v.c) == Delivered(ReceiverOf(v.setup, to, v.c))
    ensures ApplyReceive(v.setup, to, v.c).received[v.c]
         == to.received[v.c] + [NextMessage(ReceiverOf(v.setup, to, v.c)).value]
  {
    ReceiveKeepsWellFormed(v.setup, to, v.c);
  }

  lemma ReceiveOnOthers<M>(v: View<M>, to: End<M>)
    requires v.Valid() && WellFormedEnd(v.setup, to) && ReceivesAsFramed(v, to)
    ensures WellFormedEnd(v.setup, ApplyReceive(v.setup, to, v.c))
    ensures ReceivesAsFramed(v, ApplyReceive(v.setup, to, v.c))
  {
    ReceiveKeepsWellFormed(v.setup, to, v.c);
    forall i: nat | v.setup.Reliable(i) && i != v.c
      ensures ApplyReceive(v.setup, to, v.c).connection.channels[i] == to.connection.channels[i]
      ensures ApplyReceive(v.setup, to, v.c).received[i] == to.received[i]
    {
    }
  }

  /** A packet that the channel in view takes is taken in by the whole connection. */
  lemma DeliverIsAccepted<M(!new)>(setup: Setup<M>, c: nat, to: End<M>, w: WirePacket<M>, packet: P.Packet<M>)
    requires SetupUsable(setup) && setup.Reliable(c) && WellFormedEnd(setup, to) && NoErrors(to)
    requires Carries(setup, c, w, packet)
    requires ReceivePacket(setup.configs[c], ReceiverOf(setup, to, c), packet.messages).ok
    ensures ProcessPacket(setup.configs, setup.codec, to.connection, Wrap(w.number), w.bytes).Accepted?
  {
    var configs, channels := setup.configs, to.connection.channels;
    var arrived := AllOnArrival(configs, w.data);
    forall i: nat | i < |configs|
      ensures Takes(configs[i], channels[i], MessagesFor(arrived, i), Wrap(w.number))
    {
      ArrivalByChannel(configs, w.data, i);
      assert setup.Reliable(i) && i != c ==> MessagesFor(w.data, i) == [];
    }
    PacketRoundTrip(configs, setup.codec, w.data, []);
    assert w.bytes + [] == w.bytes;
    ArrivalIsWellFormed(configs, w.data, |configs|);
    AllTakeAccepts(configs, channels, arrived, Wrap(w.number));
  }

  /** Taking in a packet puts no channel in error. */
  lemma AcceptedKeepsNoErrors<M(!new)>(setup: Setup<M>, to: End<M>, w: WirePacket<M>, channels': seq<C.ChannelState<M>>)
    requires WellFormedEnd(setup, to) && NoErrors(to) && WireValid(setup, w) && Outcome(setup, to, w, true, channels')
    ensures NoErrors(TookIn(to, w, channels'))
  {
    var arrived := AllOnArrival(setup.configs, w.data);
    forall i: nat | i < |channels'|
      ensures channels'[i].errorLevel == C.NoError
    {
      if i in Handed(to, w) {
        assert Took(setup.configs[i], to.connection.channels[i], channels'[i], MessagesFor(arrived, i), Wrap(w.number));
      } else {
        assert channels'[i] == to.connection.channels[i];
      }
    }
  }

  lemma DeliverMirrorsReceiver<M(!new)>(
    v: View<M>, to: End<M>, sys: P.System<M>, w: WirePacket<M>, packet: P.Packet<M>)
    returns (channels': seq<C.ChannelState<M>>)
    requires SetupUsable(v.setup) && ReceiverMirrors(v, to, sys)
    requires Carries(v.setup, v.c, w, packet) && sys.sender.oldest <= sys.sender.next
    requires ReceivePacket(v.Config(), sys.receiver, packet.messages).ok
    ensures ProcessPacket(v.setup.configs, v.setup.codec, to.connection, Wrap(w.number), w.bytes) == Accepted(channels')
    ensures ReceiverMirrors(v, TookIn(to, w, channels'), P.Apply(v.Config(), sys, P.Deliver(packet)))
  {
    DeliverIsAccepted(v.setup, v.c, to, w, packet);
    DeliveryOutcome(v.setup, to, w);
    channels' := ProcessPacket(v.setup.configs, v.setup.codec, to.connection, Wrap(w.number), w.bytes).channels;
    AcceptedMirrors(v, to, sys, w, packet, channels');
  }

  lemma AcceptedMirrors<M(!new)>(
    v: View<M>, to: End<M>, sys: P.System<M>, w: WirePacket<M>, packet: P.Packet<M>, channels': seq<C.ChannelState<M>>)
    requires SetupUsable(v.setup) && ReceiverMirrors(v, to, sys)
    requires Carries(v.setup, v.c, w, packet) && sys.sender.oldest <= sys.sender.next
    requires Outcome(v.setup, to, w, true, channels')
    ensures ReceiverMirrors(v, TookIn(to, w, channels'), P.Apply(v.Config(), sys, P.Deliver(packet)))
  {
    DeliverKeepsWellFormed(v.setup, to, w, true, channels');
    ReceiverAfterDelivery(v.setup, to, w, true, channels', v.c);
    AcceptedKeepsNoErrors(v.setup, to, w, channels');
    forall i: nat | v.setup.Reliable(i) && i != v.c
      ensures ReceiverOf(v.setup, TookIn(to, w, channels'), i) == ReceiverOf(v.setup, to, i)
    {
      ReceiverAfterDelivery(v.setup, to, w, true, channels', i);
    }
  }

  lemma DeliverMirrorsSender<M(!new)>(v: View<M>, from: End<M>, sys: P.System<M>, packet: P.Packet<M>)
    requires SetupUsable(v.setup) && SenderMirrors(v, from, sys) && sys.sender.oldest <= sys.sender.next
    requires ReceivePacket(v.Config(), sys.receiver, packet.messages).ok
    ensures SenderMirrors(v, from.(processed := from.processed + {packet.number}),
                          P.Apply(v.Config(), sys, P.Deliver(packet)))
  {
  }

  // ---- Steps of the connection ---------------------------------------------------------------

  /** What `Mirrors` says, taken apart. */
  lemma MirrorParts<M(!new)>(v: View<M>, net: Net<M>, sys: P.System<M>)
    requires Mirrors(v, net, sys)
    ensures v.Valid() && WellFormedNet(v.setup, net) && net == [net[0], net[1]]
    ensures !net[0].panicked && !net[1].panicked
    ensures SenderMirrors(v, net[0], sys) && ReceiverMirrors(v, net[1], sys)
  {
  }

  lemma SendStep<M(!new)>(v: View<M>, net: Net<M>, sys: P.System<M>, message: M)
    requires SetupUsable(v.setup) && Mirrors(v, net, sys)
    requires CanSendMessage(v.Config(), sys.sender) && sys.sender.oldest <= sys.sender.next
    ensures Enabled(v.setup, net, Send(0, v.c, message))
    ensures Mirrors(v, Apply(v.setup, net, Send(0, v.c, message)),
                    P.Apply(v.Config(), sys, P.Send(message, 8 * v.setup.Size()(message))))
  {
    MirrorParts(v, net, sys);
    SendMirrors(v, net[0], sys, message);
  }

  lemma SendAtZero<M(!new)>(setup: Setup<M>, net: Net<M>, d: nat, message: M) returns (r: Net<M>)
    requires Supported(setup.configs) && WellFormedNet(setup, net) && !net[0].panicked && d < |setup.configs|
    ensures Enabled(setup, net, Send(0, d, message)) && Apply(setup, net, Send(0, d, message)) == r
    ensures WellFormedNet(setup, r) && r == [ApplySend(setup, net[0], d, message), net[1]]
  {
    SendKeepsWellFormed(setup, net[0], d, message);
    r := Apply(setup, net, Send(0, d, message));
  }

  lemma TimeStep<M(!new)>(v: View<M>, net: Net<M>, sys: P.System<M>, time: real)
    requires SetupUsable(v.setup) && Mirrors(v, net, sys) && sys.sender.oldest <= sys.sender.next
    ensures Enabled(v.setup, net, AdvanceTime(0, time))
    ensures Mirrors(v, Apply(v.setup, net, AdvanceTime(0, time)), P.Apply(v.Config(), sys, P.AdvanceTime(time)))
  {
    MirrorParts(v, net, sys);
    TimeMirrors(v, net[0], sys, time);
    TimeKeepsReceiver(v, net[1], sys, time);
    TimeIsApplied(v.setup, net, time);
  }

  lemma TimeKeepsReceiver<M(!new)>(v: View<M>, to: End<M>, sys: P.System<M>, time: real)
    requires SetupUsable(v.setup) && ReceiverMirrors(v, to, sys) && sys.sender.oldest <= sys.sender.next
    ensures ReceiverMirrors(v, to, P.Apply(v.Config(), sys, P.AdvanceTime(time)))
  {
  }

  lemma TimeIsApplied<M(!new)>(setup: Setup<M>, net: Net<M>, time: real)
    requires Supported(setup.configs) && WellFormedNet(setup, net) && !net[0].panicked
    ensures Enabled(setup, net, AdvanceTime(0, time))
    ensures Apply(setup, net, AdvanceTime(0, time)) == [ApplyTime(net[0], time), net[1]]
  {
  }

  lemma GenerateStep<M(!new)>(v: View<M>, net: Net<M>, sys: P.System<M>, least: nat)
    requires SetupUsable(v.setup) && Mirrors(v, net, sys) && sys.sender.oldest <= sys.sender.next
    requires MaySend(v, sys.sender, sys.nextPacket, least)
    ensures Enabled(v.setup, net, Generate(0, v.bytes))
    ensures Mirrors(v, Apply(v.setup, net, Generate(0, v.bytes)),
                    P.Apply(v.Config(), sys, P.Generate(BufferRoom(v.bytes))))
  {
    MirrorParts(v, net, sys);
    GenerateMirrors(v, net[0], sys, least);
  }

  lemma ReceiveStep<M(!new)>(v: View<M>, net: Net<M>, sys: P.System<M>)
    requires SetupUsable(v.setup) && Mirrors(v, net, sys)
    requires NextMessage(sys.receiver).Some? && sys.sender.oldest <= sys.sender.next
    ensures Enabled(v.setup, net, Receive(1, v.c))
    ensures Mirrors(v, Apply(v.setup, net, Receive(1, v.c)), P.Apply(v.Config(), sys, P.Receive))
  {
    MirrorParts(v, net, sys);
    ReceiveMirrors(v, net[1], sys);
    ReceiveKeepsSender(v, net[0], sys);
    ReceiveIsApplied(v.setup, v.c, net);
  }

  lemma ReceiveKeepsSender<M(!new)>(v: View<M>, from: End<M>, sys: P.System<M>)
    requires SetupUsable(v.setup) && SenderMirrors(v, from, sys) && sys.sender.oldest <= sys.sender.next
    ensures SenderMirrors(v, from, P.Apply(v.Config(), sys, P.Receive))
  {
  }

  lemma ReceiveIsApplied<M(!new)>(setup: Setup<M>, c: nat, net: Net<M>)
    requires Supported(setup.configs) && WellFormedNet(setup, net) && !net[1].panicked && setup.Reliable(c)
    ensures Enabled(setup, net, Receive(1, c))
    ensures Apply(setup, net, Receive(1, c)) == [net[0], ApplyReceive(setup, net[1], c)]
  {
  }

  lemma DeliverStep<M(!new)>(v: View<M>, net: Net<M>, sys: P.System<M>, packet: P.Packet<M>)
    returns (w: WirePacket<M>)
    requires SetupUsable(v.setup) && Mirrors(v, net, sys)
    requires packet in sys.flight && sys.sender.oldest <= sys.sender.next
    requires forall k :: k in packet.ids ==> sys.receiver.next - HALF < k
    requires ReceivePacket(v.Config(), sys.receiver, packet.messages).ok
    ensures Enabled(v.setup, net, Deliver(0, w))
    ensures Mirrors(v, Apply(v.setup, net, Deliver(0, w)), P.Apply(v.Config(), sys, P.Deliver(packet)))
  {
    MirrorParts(v, net, sys);
    w :| w in net[0].flight && Carries(v.setup, v.c, w, packet);
    DeliverCarried(v, net, sys, packet, w);
  }

  lemma DeliverCarried<M(!new)>(v: View<M>, net: Net<M>, sys: P.System<M>, packet: P.Packet<M>, w: WirePacket<M>)
    requires SetupUsable(v.setup) && Mirrors(v, net, sys) && sys.sender.oldest <= sys.sender.next
    requires w in net[0].flight && Carries(v.setup, v.c, w, packet)
    requires forall k :: k in packet.ids ==> sys.receiver.next - HALF < k
    requires ReceivePacket(v.Config(), sys.receiver, packet.messages).ok
    ensures Enabled(v.setup, net, Deliver(0, w))
    ensures Mirrors(v, Apply(v.setup, net, Deliver(0, w)), P.Apply(v.Config(), sys, P.Deliver(packet)))
  {
    MirrorParts(v, net, sys);
    CarriedIsNotTooLate(v.setup, v.c, net[1], w, packet);
    var channels' := DeliverMirrorsReceiver(v, net[1], sys, w, packet);
    DeliverMirrorsSender(v, net[0], sys, packet);
    DeliverIsAccepting(v.setup, net, w, channels');
  }

  lemma DeliverIsAccepting<M(!new)>(setup: Setup<M>, net: Net<M>, w: WirePacket<M>, channels': seq<C.ChannelState<M>>)
    requires Supported(setup.configs) && WellFormedNet(setup, net) && !net[1].panicked && w in net[0].flight
    requires NotTooLate(setup, net[1], w)
    requires ProcessPacket(setup.configs, setup.codec, net[1].connection, Wrap(w.number), w.bytes)
          == Accepted(channels')
    ensures Enabled(setup, net, Deliver(0, w))
    ensures Apply(setup, net, Deliver(0, w))
         == [net[0].(processed := net[0].processed + {w.number}), TookIn(net[1], w, channels')]
  {
  }

  lemma CarriedIsNotTooLate<M(!new)>(setup: Setup<M>, c: nat, to: End<M>, w: WirePacket<M>, packet: P.Packet<M>)
    requires setup.Reliable(c) && WellFormedEnd(setup, to) && Carries(setup, c, w, packet)
    requires forall k :: k in packet.ids ==> ReceiverOf(setup, to, c).next - HALF < k
    ensures NotTooLate(setup, to, w)
  {
  }

  lemma AckStep<M(!new)>(v: View<M>, net: Net<M>, sys: P.System<M>, number: nat)
    requires SetupUsable(v.setup) && Mirrors(v, net, sys) && OthersClear(v, number)
    requires number in sys.processed && number !in sys.acked && P.AckIsClear(sys.sender, number)
    requires sys.sender.oldest <= sys.sender.next && AckOutcome(sys.sender, Wrap(number)) != AlreadyAcked
    ensures Enabled(v.setup, net, Ack(0, number))
    ensures Mirrors(v, Apply(v.setup, net, Ack(0, number)), P.Apply(v.Config(), sys, P.Ack(number)))
  {
    MirrorParts(v, net, sys);
    AckMirrors(v, net[0], sys, number);
    MirroredAckIsDue(v, net[0], sys, number);
    AckIsApplied(v.setup, net, number);
    AckKeepsReceiver(v, net[1], sys, number);
  }

  /** The receiving end does not see what happens at the sending end. */
  lemma AckKeepsReceiver<M(!new)>(v: View<M>, to: End<M>, sys: P.System<M>, number: nat)
    requires SetupUsable(v.setup) && ReceiverMirrors(v, to, sys) && sys.sender.oldest <= sys.sender.next
    ensures ReceiverMirrors(v, to, P.Apply(v.Config(), sys, P.Ack(number)))
  {
  }

  lemma AckIsApplied<M(!new)>(setup: Setup<M>, net: Net<M>, number: nat)
    requires Supported(setup.configs) && WellFormedNet(setup, net) && !net[0].panicked
    requires AckIsDue(setup, net[0], number) && !AckPanics(net[0].connection.channels, Wrap(number))
    ensures Enabled(setup, net, Ack(0, number))
    ensures Apply(setup, net, Ack(0, number)) == [AckedEnd(setup, net[0], number), net[1]]
  {
    AckApplies(setup, net[0], number);
  }

  lemma MirroredAckIsDue<M(!new)>(v: View<M>, from: End<M>, sys: P.System<M>, number: nat)
    requires SenderMirrors(v, from, sys) && OthersClear(v, number)
    requires number in sys.processed && number !in sys.acked && P.AckIsClear(sys.sender, number)
    ensures AckIsDue(v.setup, from, number)
  {
    forall i: nat | v.setup.Reliable(i)
      ensures P.AckIsClear(SenderOf(v.setup, from, i), number)
    {
      if i != v.c {
        AckUnseen(v, from, number, sys.sender.time, i);
      }
    }
  }

  // ---- Runs ----------------------------------------------------------------------------------

  /** The steps of the protocol that a connection can take with messages as its codec writes them and packets made in a
      buffer of this size, while the other channels stay as they are. */
  ghost predicate Feasible<M(!new)>(v: View<M>, sys: P.System<M>, action: P.Action<M>)
    requires v.Valid()
  {
    var config := v.Config();
    match action
    case Send(message, measuredBits) =>
      CanSendMessage(config, sys.sender) && measuredBits == 8 * v.setup.Size()(message)
    case Generate(room) =>
      room == BufferRoom(v.bytes) && exists least: nat :: MaySend(v, sys.sender, sys.nextPacket, least)
    case Deliver(packet) =>
      && packet in sys.flight && (forall k :: k in packet.ids ==> sys.receiver.next - HALF < k)
      && ReceivePacket(config, sys.receiver, packet.messages).ok
    case Drop(_) => false
    case Ack(number) =>
      && number in sys.processed && number !in sys.acked && P.AckIsClear(sys.sender, number)
      && AckOutcome(sys.sender, Wrap(number)) != AlreadyAcked && OthersClear(v, number)
    case Receive => NextMessage(sys.receiver).Some?
    case AdvanceTime(_) => true
  }

  ghost predicate FeasibleRun<M(!new)>(v: View<M>, sys: P.System<M>, actions: seq<P.Action<M>>)
    requires v.Valid() && sys.sender.oldest <= sys.sender.next
    decreases |actions|
  {
    actions != [] ==>
      && Feasible(v, sys, actions[0])
      && FeasibleRun(v, P.Apply(v.Config(), sys, actions[0]), actions[1..])
  }

  /** Each such step is a step of the connection. */
  lemma FeasibleStep<M(!new)>(v: View<M>, net: Net<M>, sys: P.System<M>, action: P.Action<M>)
    returns (step: Action<M>)
    requires SetupUsable(v.setup) && Mirrors(v, net, sys)
    requires sys.sender.oldest <= sys.sender.next && Feasible(v, sys, action)
    ensures Enabled(v.setup, net, step) && (step.Generate? ==> step.bytes == v.bytes)
    ensures Mirrors(v, Apply(v.setup, net, step), P.Apply(v.Config(), sys, action))
  {
    match action {
      case Send(message, _) =>
        SendStep(v, net, sys, message);
        step := Send(0, v.c, message);
      case Generate(_) =>
        var least: nat :| MaySend(v, sys.sender, sys.nextPacket, least);
        GenerateStep(v, net, sys, least);
        step := Generate(0, v.bytes);
      case Deliver(packet) =>
        var w := DeliverStep(v, net, sys, packet);
        step := Deliver(0, w);
      case Ack(number) =>
        AckStep(v, net, sys, number);
        step := Ack(0, number);
      case Receive =>
        ReceiveStep(v, net, sys);
        step := Receive(1, v.c);
      case AdvanceTime(time) =>
        TimeStep(v, net, sys, time);
        step := AdvanceTime(0, time);
    }
  }

  /** Every packet of the run is made in a buffer of this size, as in both programs that use a connection. */
  ghost predicate OneBuffer<M>(actions: seq<Action<M>>, bytes: nat) {
    forall i :: 0 <= i < |actions| && actions[i].Generate? ==> actions[i].bytes == bytes
  }

  ghost predicate ReachedWith<M(!new)>(
    setup: Setup<M>, bytes: nat, time: real, time': real, actions: seq<Action<M>>, net: Net<M>)
    requires Supported(setup.configs)
  {
    ReachedBy(setup, time, time', actions, net) && OneBuffer(actions, bytes)
  }

  /** The states that two new connections can get to with buffers of this size. */
  ghost predicate ReachableWith<M(!new)>(setup: Setup<M>, bytes: nat, net: Net<M>)
    requires Supported(setup.configs)
  {
    exists time: real, time': real, actions: seq<Action<M>> :: ReachedWith(setup, bytes, time, time', actions, net)
  }

  lemma StepWith<M(!new)>(setup: Setup<M>, bytes: nat, net: Net<M>, action: Action<M>)
    requires Supported(setup.configs) && ReachableWith(setup, bytes, net) && Enabled(setup, net, action)
    requires action.Generate? ==> action.bytes == bytes
    ensures ReachableWith(setup, bytes, Apply(setup, net, action))
  {
    var time, time', actions :| ReachedWith<M>(setup, bytes, time, time', actions, net);
    ConnectionProgress.RunAndStep(setup, Initial(setup, time, time'), actions, action);
    assert ReachedWith(setup, bytes, time, time', actions + [action], Apply(setup, net, action));
  }

  /** Two connections in which nothing is wrong, and whose clocks agree, seen from one of their channels. */
  ghost function SystemOf<M>(setup: Setup<M>, c: nat, net: Net<M>): P.System<M>
    requires WellFormedNet(setup, net) && setup.Reliable(c)
  {
    P.System(SenderOf(setup, net[0], c), ReceiverOf(setup, net[1], c), net[0].accepted[c], net[1].received[c],
             net[0].nextPacket, {}, map[], net[0].processed, net[0].acked, false, false)
  }

  ghost predicate OneClock<M>(setup: Setup<M>, end: End<M>, time: real)
    requires WellFormedEnd(setup, end)
  {
    forall i: nat :: setup.Reliable(i) ==> SenderOf(setup, end, i).time == time
  }

  lemma TakeIntoView<M(!new)>(setup: Setup<M>, c: nat, bytes: nat, net: Net<M>, time: real)
    requires SetupUsable(setup) && setup.Reliable(c) && WellFormedNet(setup, net)
    requires NoErrors(net[0]) && NoErrors(net[1]) && OneClock(setup, net[0], time)
    ensures Mirrors(View(setup, c, bytes, FrameOf(setup, net)), net, SystemOf(setup, c, net))
  {
    var v := View(setup, c, bytes, FrameOf(setup, net));
    forall i: nat | i < |setup.configs| && i != c
      ensures net[0].connection.channels[i].processor == AtTime(v.frame[i].processor, time)
    {
      assert v.frame[i] == RestOf(setup, net, i);
      assert setup.Reliable(i) ==> SenderOf(setup, net[0], i).time == time;
    }
    assert SendsAsFramed(v, net[0], time);
  }

  /** Clocks agree as long as one of the channels is in view. */
  lemma ClocksAgree<M(!new)>(v: View<M>, net: Net<M>, sys: P.System<M>)
    requires Mirrors(v, net, sys)
    ensures WellFormedNet(v.setup, net) && NoErrors(net[0]) && NoErrors(net[1])
    ensures OneClock(v.setup, net[0], sys.sender.time)
  {
  }

  lemma InitialInView<M(!new)>(setup: Setup<M>, c: nat, bytes: nat, time: real)
    requires SetupUsable(setup) && setup.Reliable(c)
    ensures ReachableWith(setup, bytes, Initial(setup, time, time))
    ensures WellFormedNet(setup, Initial(setup, time, time))
    ensures var net := Initial(setup, time, time);
            Mirrors(View(setup, c, bytes, FrameOf(setup, net)), net, P.Initial<M>(time))
  {
    var net := Initial(setup, time, time);
    assert ReachedWith<M>(setup, bytes, time, time, [], net);
    NewEndIsWellFormed<M>(setup, time);
    TakeIntoView(setup, c, bytes, net, time);
  }

  /** So whatever such a run of the protocol comes to, two connections come to. */
  lemma {:induction false} RunIsMirrored<M(!new)>(
    v: View<M>, net: Net<M>, sys: P.System<M>, actions: seq<P.Action<M>>)
    returns (net': Net<M>)
    requires SetupUsable(v.setup) && sys.sender.oldest <= sys.sender.next
    requires ReachableWith(v.setup, v.bytes, net) && Mirrors(v, net, sys) && FeasibleRun(v, sys, actions)
    ensures ReachableWith(v.setup, v.bytes, net') && Mirrors(v, net', P.Run(v.Config(), sys, actions))
    decreases |actions|
  {
    if actions == [] {
      net' := net;
    } else {
      var step := FeasibleStep(v, net, sys, actions[0]);
      StepWith(v.setup, v.bytes, net, step);
      net' := RunIsMirrored(v, Apply(v.setup, net, step), P.Apply(v.Config(), sys, actions[0]), actions[1..]);
    }
  }

  // ---- Runs in pieces ------------------------------------------------------------------------

  /** The protocol gets from `sys` to `r` by steps that a connection can take. */
  ghost predicate Gets<M(!new)>(v: View<M>, sys: P.System<M>, actions: seq<P.Action<M>>, r: P.System<M>)
    requires v.Valid() && sys.sender.oldest <= sys.sender.next
  {
    FeasibleRun(v, sys, actions) && P.Run(v.Config(), sys, actions) == r
  }

  lemma GetsByOne<M(!new)>(v: View<M>, sys: P.System<M>, action: P.Action<M>)
    requires v.Valid() && sys.sender.oldest <= sys.sender.next && Feasible(v, sys, action)
    ensures Gets(v, sys, [action], P.Apply(v.Config(), sys, action))
  {
    assert [action][1..] == [];
    var r := P.Apply(v.Config(), sys, action);
    assert P.Run(v.Config(), r, []) == r;
  }

  lemma {:induction false} GetsFurther<M(!new)>(
    v: View<M>, sys: P.System<M>, first: seq<P.Action<M>>, mid: P.System<M>, second: seq<P.Action<M>>, r: P.System<M>)
    requires v.Valid() && sys.sender.oldest <= sys.sender.next && mid.sender.oldest <= mid.sender.next
    requires Gets(v, sys, first, mid) && Gets(v, mid, second, r)
    ensures Gets(v, sys, first + second, r)
    decreases |first|
  {
    if first == [] {
      assert first + second == second;
    } else {
      assert (first + second)[1..] == first[1..] + second;
      GetsFurther(v, P.Apply(v.Config(), sys, first[0]), first[1..], mid, second, r);
    }
  }
}
