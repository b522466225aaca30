/** Two connections over a network that drops, duplicates, delays and reorders packets, sending both ways at once.

    Packets travel as bytes. What `data` and `ids` of a packet say is for the proofs only. */
module ConnectionProtocol {
  import opened Wrap16
  import opened Options
  import opened Configs
  import opened Codec
  import opened ReliableSpec
  import opened ConnectionSpec
  import opened Lanes
  import opened PacketBudget
  import C = ChannelSpec
  import P = Protocol
  import U = UnreliableChannel

  /** `ids` holds, for every reliable channel, the messages the packet carries, counted without wrapping, and `clocks`
      the time the channel had when the packet was made. */
  datatype WirePacket<M> = WirePacket(
    number: nat, bytes: seq<byte>, data: seq<ChannelData<M>>, ids: seq<seq<int>>, clocks: seq<real>)

  /** One end. `accepted` and `received` are what its user sent and got, channel by channel, `labels` the ids under
      which the user got the messages, and `arrivals` the numbers of the packets whose messages for a channel it was
      handed, in the order they came; the other fields are about the packets this end has sent. */
  datatype End<M(==)> = End(
    connection: ConnectionState<M>,
    panicked: bool,
    accepted: seq<seq<M>>,
    received: seq<seq<M>>,
    labels: seq<seq<u16>>,
    arrivals: seq<seq<nat>>,
    nextPacket: nat,
    made: seq<WirePacket<M>>,    // every packet, under its number
    flight: set<WirePacket<M>>,  // what the network still holds
    processed: set<nat>,         // what the other end took in and will ack
    acked: set<nat>)             // what this end has seen acked

  type Net<M(==)> = seq<End<M>>

  datatype Action<M> =
    | Send(end: nat, channel: nat, message: M)
    | Receive(end: nat, channel: nat)
    | Generate(end: nat, bytes: nat)
    | Deliver(end: nat, packet: WirePacket<M>)
    | Drop(end: nat, packet: WirePacket<M>)
    | Ack(end: nat, number: nat)
    | AdvanceTime(end: nat, time: real)

  /** What both ends agree on. */
  datatype Setup<!M> = Setup(configs: seq<Config>, codec: MessageCodec<M>) {
    function Size(): M -> nat {
      SizeOf(codec)
    }

    ghost predicate Reliable(c: nat) {
      c < |configs| && configs[c].kind.ReliableOrdered?
    }
  }

  /** Every reliable channel is configured within the limits of the code. */
  ghost predicate SetupUsable<M(!new)>(setup: Setup<M>) {
    && Lawful(setup.codec) && Supported(setup.configs)
    && forall c: nat :: setup.Reliable(c) ==> setup.configs[c].Valid()
  }

  /** And within the bound on recycled ids. */
  ghost predicate SetupValid<M(!new)>(setup: Setup<M>) {
    SetupUsable(setup) && forall c: nat :: setup.Reliable(c) ==> P.IdsOutliveAcks(setup.configs[c])
  }

  // ---- Steps ---------------------------------------------------------------------------------

  ghost function NewEnd<M>(setup: Setup<M>, time: real): End<M> {
    var none := seq(|setup.configs|, _ => []);
    End(NewConnection(setup.configs, time), false, none, none,
        seq(|setup.configs|, _ => []), seq(|setup.configs|, _ => []), 0, [], {}, {}, {})
  }

  ghost function Initial<M>(setup: Setup<M>, time: real, time': real): Net<M> {
    [NewEnd(setup, time), NewEnd(setup, time')]
  }

  /** The shape of a state; `ReachableIsWellFormed` shows that it excludes none that can be reached. */
  ghost predicate WellFormedEnd<M>(setup: Setup<M>, end: End<M>) {
    && ChannelsValid(setup.configs, setup.Size(), end.connection.channels)
    && |end.accepted| == |setup.configs| && |end.received| == |setup.configs|
    && |end.labels| == |setup.configs| && |end.arrivals| == |setup.configs|
  }

  ghost predicate WellFormedNet<M>(setup: Setup<M>, net: Net<M>) {
    |net| == 2 && forall e: nat :: e < 2 ==> WellFormedEnd(setup, net[e])
  }

  /** The sending half of a reliable channel at this end. */
  ghost function SenderOf<M>(setup: Setup<M>, end: End<M>, c: nat): Sender<M>
    requires WellFormedEnd(setup, end) && setup.Reliable(c)
  {
    end.connection.channels[c].processor.sender
  }

  ghost function ReceiverOf<M>(setup: Setup<M>, end: End<M>, c: nat): Receiver<M>
    requires WellFormedEnd(setup, end) && setup.Reliable(c)
  {
    end.connection.channels[c].processor.receiver
  }

  ghost function GenerateAt<M>(setup: Setup<M>, end: End<M>, bytes: nat): Generated<M>
    requires WellFormedEnd(setup, end)
  {
    ConnectionSpec.Generate(setup.configs, setup.Size(), end.connection.channels, Wrap(end.nextPacket), bytes)
  }

  /** Each reliable channel that has a part in the packet reads its number as it is meant, or does not record it. */
  ghost predicate NumberIsClear<M>(setup: Setup<M>, end: End<M>, generated: Generated<M>)
    requires WellFormedEnd(setup, end)
  {
    generated.Generated? ==>
      forall c: nat :: setup.Reliable(c) && MessagesFor(generated.data, c) != [] ==>
        P.NumberIsClear(setup.configs[c], SenderOf(setup, end, c), end.nextPacket)
  }

  /** No message of the packet is half the number space behind its receiver. */
  ghost predicate NotTooLate<M>(setup: Setup<M>, to: End<M>, packet: WirePacket<M>)
    requires WellFormedEnd(setup, to)
  {
    && |packet.ids| == |setup.configs|
    && forall c: nat, k :: setup.Reliable(c) && k in packet.ids[c] ==> ReceiverOf(setup, to, c).next - HALF < k
  }

  /** The other end has acked this packet, for the first time, and no reliable channel has another packet recorded with
      the same 16-bit number. */
  ghost predicate AckIsDue<M>(setup: Setup<M>, end: End<M>, number: nat)
    requires WellFormedEnd(setup, end)
  {
    && number in end.processed && number !in end.acked
    && forall c: nat :: setup.Reliable(c) ==> P.AckIsClear(SenderOf(setup, end, c), number)
  }

  /** When a step may happen. A packet stays in flight after delivery, so it can be delivered again. The conditions on
      numbers are those of a channel on its own, for every reliable channel. */
  ghost predicate Enabled<M>(setup: Setup<M>, net: Net<M>, action: Action<M>) {
    && WellFormedNet(setup, net) && action.end < 2
    && match action
       case Send(e, channel, _) => !net[e].panicked && channel < |setup.configs|
       case Receive(e, channel) => !net[e].panicked && channel < |setup.configs|
       case Generate(e, bytes) =>
         !net[e].panicked && bytes > 0 && NumberIsClear(setup, net[e], GenerateAt(setup, net[e], bytes))
       case Deliver(e, packet) =>
         !net[1 - e].panicked && packet in net[e].flight && NotTooLate(setup, net[1 - e], packet)
       case Drop(e, packet) => packet in net[e].flight
       case Ack(e, number) => !net[e].panicked && AckIsDue(setup, net[e], number)
       case AdvanceTime(e, _) => !net[e].panicked
  }

  ghost function WithChannels<M>(end: End<M>, channels: seq<C.ChannelState<M>>): End<M> {
    end.(connection := end.connection.(channels := channels))
  }

  ghost function ApplySend<M>(setup: Setup<M>, end: End<M>, i: nat, message: M): End<M>
    requires WellFormedEnd(setup, end) && i < |setup.configs|
  {
    var channels := end.connection.channels;
    var taken := channels[i].errorLevel == C.NoError && C.CanSend(setup.configs[i], channels[i]);
    WithChannels(end, channels[i := C.Send(setup.configs[i], setup.Size(), channels[i], message)])
    .(accepted := if taken then end.accepted[i := end.accepted[i] + [message]] else end.accepted)
  }

  ghost function ApplyReceive<M>(setup: Setup<M>, end: End<M>, i: nat): End<M>
    requires WellFormedEnd(setup, end) && i < |setup.configs|
  {
    var channels := end.connection.channels;
    WithChannels(end, channels[i := C.Receive(channels[i])])
    .(received := match C.ReceiveNext(channels[i])
                  case None => end.received
                  case Some((_, message)) => end.received[i := end.received[i] + [message]],
      labels := match C.ReceiveNext(channels[i])
                case None => end.labels
                case Some((id, _)) => end.labels[i := end.labels[i] + [id]])
  }

  /** The ids of the messages each channel chooses when its turn comes. */
  ghost function ChosenIds<M>(setup: Setup<M>, end: End<M>, bytes: nat): (r: seq<seq<int>>)
    requires WellFormedEnd(setup, end) && GenerateAt(setup, end, bytes).Generated?
    ensures |r| == |setup.configs|
  {
    seq(|setup.configs|, c requires 0 <= c < |setup.configs| => ChosenBy(setup, end, bytes, c))
  }

  /** The bits left when the turn of channel `c` comes. */
  ghost function RoomFor<M>(setup: Setup<M>, end: End<M>, bytes: nat, c: nat): nat
    requires WellFormedEnd(setup, end) && GenerateAt(setup, end, bytes).Generated? && c < |setup.configs|
  {
    PackedBefore(setup.configs, setup.Size(), end.connection.channels, Wrap(end.nextPacket), bytes, |setup.configs|, c);
    Packed(setup.configs, setup.Size(), end.connection.channels, Wrap(end.nextPacket), bytes, c).room
  }

  ghost function ChosenBy<M>(setup: Setup<M>, end: End<M>, bytes: nat, c: nat): seq<int>
    requires WellFormedEnd(setup, end) && GenerateAt(setup, end, bytes).Generated? && c < |setup.configs|
  {
    if setup.configs[c].kind.ReliableOrdered? then
      ChooseMessages(setup.configs[c], SenderOf(setup, end, c), RoomFor(setup, end, bytes, c)).ids
    else []
  }

  /** The time of each channel; an unreliable one has none. */
  ghost function Clocks<M>(channels: seq<C.ChannelState<M>>): (r: seq<real>)
    ensures |r| == |channels|
    ensures forall c :: 0 <= c < |channels| && channels[c].processor.ReliableState? ==>
              r[c] == channels[c].processor.sender.time
  {
    seq(|channels|, c requires 0 <= c < |channels| =>
          if channels[c].processor.ReliableState? then channels[c].processor.sender.time else 0.0)
  }

  /** The packet that this end sends next, if it sends one. */
  ghost function PacketOf<M>(setup: Setup<M>, end: End<M>, bytes: nat): WirePacket<M>
    requires WellFormedEnd(setup, end) && Supported(setup.configs) && GenerateAt(setup, end, bytes).Generated?
  {
    PacketFits(setup.configs, setup.codec, end.connection.channels, Wrap(end.nextPacket), bytes);
    var data := GenerateAt(setup, end, bytes).data;
    WirePacket(end.nextPacket, EncodePacket(setup.configs, setup.codec, data), data, ChosenIds(setup, end, bytes),
               Clocks(end.connection.channels))
  }

  /** Nothing is sent when no channel has anything to say, and then the packet number is not used up. */
  ghost function ApplyGenerate<M>(setup: Setup<M>, end: End<M>, bytes: nat): End<M>
    requires WellFormedEnd(setup, end) && Supported(setup.configs)
  {
    match GenerateAt(setup, end, bytes)
    case Underflowed => end.(panicked := true)
    case Generated(channels, data) =>
      if data == [] then WithChannels(end, channels)
      else
        WithChannels(end, channels)
        .(nextPacket := end.nextPacket + 1, made := end.made + [PacketOf(setup, end, bytes)],
          flight := end.flight + {PacketOf(setup, end, bytes)})
  }

  /** The channels that are handed their messages of a packet. */
  ghost function Handed<M>(to: End<M>, packet: WirePacket<M>): set<nat> {
    if to.connection.errorLevel != ConnectionSpec.NoError then {}
    else HandedTo(to.connection.channels, packet.data)
  }

  /** The receiving end when its channels have become `channels`. */
  ghost function TookIn<M>(to: End<M>, packet: WirePacket<M>, channels: seq<C.ChannelState<M>>): End<M> {
    var handed := Handed(to, packet);
    WithChannels(to, channels)
    .(arrivals := seq(|to.arrivals|, c requires 0 <= c < |to.arrivals| =>
                        if c in handed then to.arrivals[c] + [packet.number] else to.arrivals[c]))
  }

  /** The other end takes in a packet of end `e`. A packet that is refused is not acked. */
  ghost function ApplyDeliver<M>(setup: Setup<M>, net: Net<M>, e: nat, packet: WirePacket<M>): Net<M>
    requires WellFormedNet(setup, net) && e < 2
  {
    var to := net[1 - e];
    match ProcessPacket(setup.configs, setup.codec, to.connection, Wrap(packet.number), packet.bytes)
    case Panicked => net[1 - e := to.(panicked := true)]
    case Refused(channels) => net[1 - e := TookIn(to, packet, channels)]
    case Accepted(channels) =>
      net[e := net[e].(processed := net[e].processed + {packet.number})][1 - e := TookIn(to, packet, channels)]
  }

  ghost function ApplyAck<M>(setup: Setup<M>, end: End<M>, number: nat): End<M>
    requires WellFormedEnd(setup, end)
  {
    match ProcessAcks(end.connection.channels, [Wrap(number)])
    case None => end.(panicked := true)
    case Some(channels) => WithChannels(end, channels).(acked := end.acked + {number})
  }

  ghost function ApplyTime<M>(end: End<M>, time: real): End<M> {
    end.(connection := ConnectionSpec.AdvanceTime(end.connection, time))
  }

  ghost function ApplyDrop<M>(end: End<M>, packet: WirePacket<M>): End<M> {
    end.(flight := end.flight - {packet})
  }

  ghost function Apply<M>(setup: Setup<M>, net: Net<M>, action: Action<M>): Net<M>
    requires Enabled(setup, net, action) && Supported(setup.configs)
  {
    match action
    case Send(e, channel, message) => net[e := ApplySend(setup, net[e], channel, message)]
    case Receive(e, channel) => net[e := ApplyReceive(setup, net[e], channel)]
    case Generate(e, bytes) => net[e := ApplyGenerate(setup, net[e], bytes)]
    case Deliver(e, packet) => ApplyDeliver(setup, net, e, packet)
    case Drop(e, packet) => net[e := ApplyDrop(net[e], packet)]
    case Ack(e, number) => net[e := ApplyAck(setup, net[e], number)]
    case AdvanceTime(e, time) => net[e := ApplyTime(net[e], time)]
  }
}
