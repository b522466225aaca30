/** Exactly what becomes of a packet that arrives. */
module Deliveries {
  import opened Wrap16
  import opened Options
  import opened Configs
  import opened Codec
  import opened ReliableSpec
  import opened ConnectionSpec
  import opened ConnectionProtocol
  import opened Lanes
  import opened Isolation
  import opened Guarantees
  import PacketBudget
  import C = ChannelSpec
  import P = Protocol
  import U = UnreliableChannel

  // ---- One connection ------------------------------------------------------------------------

  /** The reading of a packet ends at a channel that it has these messages for. */
  ghost predicate EndsAt<M>(config: Config, c: C.ChannelState<M>, messages: seq<(u16, M)>, number: u16) {
    messages != [] && (c.errorLevel != C.NoError || !C.ProcessPacketData(config, c, messages, number).ok)
  }

  /** The packet ends at none of the first `n` channels. */
  ghost predicate GoesPast<M>(
    configs: seq<Config>, channels: seq<C.ChannelState<M>>, data: seq<ChannelData<M>>, number: u16, n: nat)
    requires |configs| == |channels| && n <= |channels|
  {
    forall c: nat :: c < n ==> !EndsAt(configs[c], channels[c], MessagesFor(data, c), number)
  }

  /** Only the channels that a packet has messages for matter, and the first one it ends at decides: if that one is in
      error the packet is refused, and otherwise the program panics. */
  lemma {:induction false} ReadingIsExact<M>(
    configs: seq<Config>, channels: seq<C.ChannelState<M>>, data: seq<ChannelData<M>>, number: u16, c: nat)
    requires |configs| == |channels| && PacketBudget.WellFormed(data, |channels|) && c <= |channels|
    requires GoesPast(configs, channels, data, number, c)
    requires c < |channels| ==> EndsAt(configs[c], channels[c], MessagesFor(data, c), number)
    ensures var reading := ReadEntries(configs, channels, data, number);
            if c == |channels| then reading.Accepted?
            else if channels[c].errorLevel != C.NoError then reading.Refused?
            else reading.Panicked?
    decreases |data|
  {
    if data == [] {
    } else {
      var i := data[0].channelIndex;
      var result := C.ProcessPacketData(configs[i], channels[i], data[0].messages, number);
      NothingAfter(data);
      if c < i {
        NothingBelow(data, c);
      } else if i < c {
        assert !EndsAt(configs[i], channels[i], MessagesFor(data, i), number);
        var next := channels[i := result.channel];
        forall j: nat | j < c
          ensures !EndsAt(configs[j], next[j], MessagesFor(data[1..], j), number)
        {
          assert !EndsAt(configs[j], channels[j], MessagesFor(data, j), number);
        }
        ReadingIsExact(configs, next, data[1..], number, c);
      }
    }
  }

  /** The channels that are handed something are those that the packet has messages for, up to the first of them that is
      in error. */
  lemma {:induction false} HandedToIsExact<M>(channels: seq<C.ChannelState<M>>, data: seq<ChannelData<M>>, c: nat)
    requires PacketBudget.WellFormed(data, |channels|) && c < |channels|
    ensures c in HandedTo(channels, data)
       <==> && MessagesFor(data, c) != []
            && forall j: nat :: j <= c && MessagesFor(data, j) != [] ==> channels[j].errorLevel == C.NoError
    decreases |data|
  {
    if data == [] {
    } else {
      var i := data[0].channelIndex;
      HandedToIsExact(channels, data[1..], c);
      NothingAfter(data);
      if c < i {
        NothingBelow(data, c);
        NothingBelow(data[1..], c);
      } else {
        forall j: nat | j < i
          ensures MessagesFor(data, j) == []
        {
          NothingBelow(data, j);
        }
        assert MessagesFor(data, i) != [];
        assert forall j: nat :: j != i ==> MessagesFor(data[1..], j) == MessagesFor(data, j);
      }
    }
  }

  // ---- Two connections -----------------------------------------------------------------------

  /** Packet `w` has messages for channel `c`, and the channel is in error, or one of them lies past its window. */
  ghost predicate Blocks<M>(setup: Setup<M>, to: End<M>, w: WirePacket<M>, c: nat)
    requires WellFormedEnd(setup, to) && c < |setup.configs|
  {
    && MessagesFor(w.data, c) != []
    && (|| to.connection.channels[c].errorLevel != C.NoError
        || (&& setup.Reliable(c) && c < |w.ids|
            && exists k :: k in w.ids[c]
                           && ReceiverOf(setup, to, c).next + setup.configs[c].messageReceiveQueueSize <= k))
  }

  lemma ReliableTakesIff<M>(
    config: Config, size: M -> nat, lane: Lane<M>, shadow: P.System<M>, packet: P.Packet<M>)
    requires Follows(config, size, lane, shadow) && packet in lane.packets
    requires forall k :: k in packet.ids ==> lane.receiver.next - HALF < k
    ensures ReceivePacket(config, lane.receiver, packet.messages).ok
       <==> forall k :: k in packet.ids ==> k < lane.receiver.next + config.messageReceiveQueueSize
  {
    P.PacketIsReadable(config, shadow, packet);
    P.ReceiveGenuine(config, shadow.receiver, shadow.accepted, packet.ids, packet.messages);
  }

  /** A channel ends the reading of what arrives if and only if it blocks the packet. */
  lemma EndsWhereBlocked<M(!new)>(
    setup: Setup<M>, from: End<M>, to: End<M>, w: WirePacket<M>, c: nat, shadow: P.System<M>)
    requires SetupValid(setup) && WellFormedEnd(setup, from) && WellFormedEnd(setup, to) && c < |setup.configs|
    requires WireValid(setup, w) && w in from.flight && NotTooLate(setup, to, w)
    requires ChannelFollows(setup, from, to, c, shadow)
    ensures EndsAt(setup.configs[c], to.connection.channels[c], MessagesFor(AllOnArrival(setup.configs, w.data), c),
                   Wrap(w.number))
       <==> Blocks(setup, to, w, c)
  {
    ArrivalByChannel(setup.configs, w.data, c);
    assert |U.Contents(MessagesFor(w.data, c))| == |MessagesFor(w.data, c)|;
    if setup.Reliable(c) {
      var packet := P.Packet(w.number, w.ids[c], MessagesFor(w.data, c));
      ReliableTakesIff(setup.configs[c], setup.Size(), LaneOf(setup, from, to, c), shadow, packet);
    }
  }

  /** Channel `c` is the first that blocks the packet, or `c` is the number of channels and none does. */
  ghost predicate FirstBlock<M>(setup: Setup<M>, to: End<M>, w: WirePacket<M>, c: nat)
    requires WellFormedEnd(setup, to)
  {
    && c <= |setup.configs| && (c < |setup.configs| ==> Blocks(setup, to, w, c))
    && forall j: nat :: j < c ==> !Blocks(setup, to, w, j)
  }

  /** What the connection makes of the packet. */
  lemma ReadingOfPacket<M(!new)>(
    setup: Setup<M>, from: End<M>, to: End<M>, w: WirePacket<M>, c: nat, shadows: seq<P.System<M>>)
    requires SetupValid(setup) && Direction(setup, from, to, shadows)
    requires w in from.flight && NotTooLate(setup, to, w) && to.connection.errorLevel == NoError
    requires FirstBlock(setup, to, w, c)
    ensures WireValid(setup, w)
    ensures var reading := ProcessPacket(setup.configs, setup.codec, to.connection, Wrap(w.number), w.bytes);
            if c == |setup.configs| then reading.Accepted?
            else if to.connection.channels[c].errorLevel != C.NoError then reading.Refused?
            else reading.Panicked?
  {
    var configs, channels, arrived := setup.configs, to.connection.channels, AllOnArrival(setup.configs, w.data);
    forall j: nat | j < |configs|
      ensures EndsAt(configs[j], channels[j], MessagesFor(arrived, j), Wrap(w.number)) <==> Blocks(setup, to, w, j)
    {
      assert ChannelFollows(setup, from, to, j, shadows[j]);
      EndsWhereBlocked(setup, from, to, w, j, shadows[j]);
    }
    PacketRoundTrip(configs, setup.codec, w.data, []);
    assert w.bytes + [] == w.bytes;
    ArrivalIsWellFormed(configs, w.data, |configs|);
    ReadingIsExact(configs, channels, arrived, Wrap(w.number), c);
  }

  /** The first channels, up to the one that blocks the packet, are handed their messages. */
  lemma HandedBeforeBlock<M>(setup: Setup<M>, to: End<M>, w: WirePacket<M>, c: nat, j: nat)
    requires WellFormedEnd(setup, to) && WireValid(setup, w) && to.connection.errorLevel == NoError
    requires FirstBlock(setup, to, w, c) && j < |setup.configs|
    requires c < |setup.configs| ==> to.connection.channels[c].errorLevel != C.NoError
    ensures j in Handed(to, w) <==> j < c && MessagesFor(w.data, j) != []
  {
    HandedToIsExact(to.connection.channels, w.data, j);
    forall i: nat | i < c && MessagesFor(w.data, i) != []
      ensures to.connection.channels[i].errorLevel == C.NoError
    {
      assert !Blocks(setup, to, w, i);
    }
  }

  /** What a delivery comes to: `c` is the first channel that blocks the packet. If there is none, every channel is
      handed its messages and the packet is marked as processed. If that channel is in error, the channels before it
      are handed theirs, and the packet is not marked. Otherwise the program panics on the message that lies past
      the window. */
  ghost predicate ComesTo<M>(setup: Setup<M>, net: Net<M>, net': Net<M>, e: nat, w: WirePacket<M>, c: nat)
    requires WellFormedNet(setup, net) && e < 2 && c <= |setup.configs|
  {
    && WellFormedNet(setup, net')
    && if c < |setup.configs| && net[1 - e].connection.channels[c].errorLevel == C.NoError then net'[1 - e].panicked
       else
         && net'[1 - e].panicked == net[1 - e].panicked
         && net'[e].processed == net[e].processed + (if c == |setup.configs| then {w.number} else {})
         && forall j: nat :: j < |setup.configs| ==>
              net'[1 - e].arrivals[j]
              == net[1 - e].arrivals[j] + if j < c && MessagesFor(w.data, j) != [] then [w.number] else []
  }

  lemma ArrivalIsNoted<M>(
    setup: Setup<M>, to: End<M>, w: WirePacket<M>, channels': seq<C.ChannelState<M>>, c: nat, j: nat)
    requires WellFormedEnd(setup, to) && WireValid(setup, w) && to.connection.errorLevel == NoError
    requires FirstBlock(setup, to, w, c) && j < |setup.configs|
    requires c < |setup.configs| ==> to.connection.channels[c].errorLevel != C.NoError
    ensures |TookIn(to, w, channels').arrivals| == |to.arrivals|
    ensures TookIn(to, w, channels').arrivals[j]
         == to.arrivals[j] + if j < c && MessagesFor(w.data, j) != [] then [w.number] else []
  {
    HandedBeforeBlock(setup, to, w, c, j);
    assert to.arrivals[j] + [] == to.arrivals[j];
  }

  lemma MarkedOrNot<M>(from: End<M>, number: nat, accepted: bool)
    ensures MarkProcessed(from, number, accepted).processed == from.processed + if accepted then {number} else {}
  {
  }

  lemma TakenComesTo<M>(
    setup: Setup<M>, net: Net<M>, e: nat, w: WirePacket<M>, c: nat, channels': seq<C.ChannelState<M>>)
    requires WellFormedNet(setup, net) && e < 2 && WireValid(setup, w)
    requires net[1 - e].connection.errorLevel == NoError && FirstBlock(setup, net[1 - e], w, c)
    requires c < |setup.configs| ==> net[1 - e].connection.channels[c].errorLevel != C.NoError
    requires Outcome(setup, net[1 - e], w, c == |setup.configs|, channels')
    ensures ComesTo(setup, net, net[e := MarkProcessed(net[e], w.number, c == |setup.configs|)]
                                   [1 - e := TookIn(net[1 - e], w, channels')], e, w, c)
  {
    DeliverKeepsWellFormed(setup, net[1 - e], w, c == |setup.configs|, channels');
    MarkedOrNot(net[e], w.number, c == |setup.configs|);
    forall j: nat | j < |setup.configs|
      ensures TookIn(net[1 - e], w, channels').arrivals[j]
           == net[1 - e].arrivals[j] + if j < c && MessagesFor(w.data, j) != [] then [w.number] else []
    {
      ArrivalIsNoted(setup, net[1 - e], w, channels', c, j);
    }
  }

  lemma PanicComesTo<M>(setup: Setup<M>, net: Net<M>, e: nat, w: WirePacket<M>, c: nat)
    requires WellFormedNet(setup, net) && e < 2 && c < |setup.configs|
    requires net[1 - e].connection.channels[c].errorLevel == C.NoError
    ensures ComesTo(setup, net, net[1 - e := net[1 - e].(panicked := true)], e, w, c)
  {
  }

  lemma DeliveryComesTo<M(!new)>(
    setup: Setup<M>, net: Net<M>, e: nat, w: WirePacket<M>, c: nat, s: seq<seq<P.System<M>>>)
    requires SetupValid(setup) && Simulated(setup, net, s) && e < 2
    requires w in net[e].flight && NotTooLate(setup, net[1 - e], w)
    requires net[1 - e].connection.errorLevel == NoError && FirstBlock(setup, net[1 - e], w, c)
    ensures ComesTo(setup, net, ApplyDeliver(setup, net, e, w), e, w, c)
  {
    BothDirections(setup, net, e, s);
    ReadingOfPacket(setup, net[e], net[1 - e], w, c, s[e]);
    DeliveryOutcome(setup, net[1 - e], w);
    DeliverApplies(setup, net, e, w);
    match ProcessPacket(setup.configs, setup.codec, net[1 - e].connection, Wrap(w.number), w.bytes)
    case Panicked => PanicComesTo(setup, net, e, w, c);
    case Refused(channels') => TakenComesTo(setup, net, e, w, c, channels');
    case Accepted(channels') => TakenComesTo(setup, net, e, w, c, channels');
  }

  /** Exactly what becomes of a packet that arrives at a connection without error; one in error refuses it. */
  lemma DeliveryIsExact<M(!new)>(setup: Setup<M>, net: Net<M>, e: nat, w: WirePacket<M>, c: nat)
    requires SetupValid(setup) && Reachable(setup, net) && Enabled(setup, net, Deliver(e, w))
    requires net[1 - e].connection.errorLevel == NoError && FirstBlock(setup, net[1 - e], w, c)
    ensures ComesTo(setup, net, Apply(setup, net, Deliver(e, w)), e, w, c)
  {
    var s := ReachableIsSimulated(setup, net);
    DeliverIsAllowed(setup, net, e, w);
    DeliveryComesTo(setup, net, e, w, c, s);
  }
}
