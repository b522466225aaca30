/** A round without loss on a shared connection acks the oldest message of every reliable channel that had its turn. */
module ConnectionProgress {
  import opened Wrap16
  import opened Options
  import opened Configs
  import opened Codec
  import opened SequenceBuffers
  import opened ReliableSpec
  import opened ConnectionSpec
  import opened ConnectionProtocol
  import opened Lanes
  import opened Isolation
  import opened Guarantees
  import C = ChannelSpec
  import P = Protocol
  import Progress

  // ---- Runs grow by a step -------------------------------------------------------------------

  lemma {:induction false} RunAndStep<M>(setup: Setup<M>, net: Net<M>, actions: seq<Action<M>>, action: Action<M>)
    requires Supported(setup.configs) && Legal(setup, net, actions) && Enabled(setup, Run(setup, net, actions), action)
    ensures Legal(setup, net, actions + [action])
    ensures Run(setup, net, actions + [action]) == Apply(setup, Run(setup, net, actions), action)
    decreases |actions|
  {
    if actions == [] {
      assert actions + [action] == [action] && [action][1..] == [];
      assert Run(setup, Apply(setup, net, action), []) == Apply(setup, net, action);
    } else {
      assert (actions + [action])[1..] == actions[1..] + [action];
      RunAndStep(setup, Apply(setup, net, actions[0]), actions[1..], action);
    }
  }

  lemma ReachableStep<M(!new)>(setup: Setup<M>, net: Net<M>, action: Action<M>)
    requires Supported(setup.configs) && Reachable(setup, net) && Enabled(setup, net, action)
    ensures Reachable(setup, Apply(setup, net, action))
  {
    var time, time', actions :| ReachedBy<M>(setup, time, time', actions, net);
    RunAndStep(setup, Initial(setup, time, time'), actions, action);
    assert ReachedBy(setup, time, time', actions + [action], Apply(setup, net, action));
  }

  lemma InitialIsReachable<M(!new)>(setup: Setup<M>, time: real, time': real)
    requires Supported(setup.configs)
    ensures Reachable(setup, Initial(setup, time, time'))
  {
    assert ReachedBy<M>(setup, time, time', [], Initial(setup, time, time'));
  }

  // ---- One round -----------------------------------------------------------------------------

  /** Packet `w` of end `e` carries the oldest unacked message of channel `c`, and is recorded. */
  ghost predicate CarriesOldest<M>(setup: Setup<M>, from: End<M>, c: nat, w: WirePacket<M>)
    requires WellFormedEnd(setup, from) && setup.Reliable(c)
  {
    && w in from.flight && |w.ids| == |setup.configs|
    && SenderOf(setup, from, c).oldest in w.ids[c]
    && w.number in SenderOf(setup, from, c).ledger
    && HasMessagesToSend(SenderOf(setup, from, c))
  }

  /** When the turn of a channel comes, its oldest message is due and fits into the room that is left. */
  ghost predicate HasTurn<M>(setup: Setup<M>, from: End<M>, bytes: nat, c: nat)
    requires WellFormedEnd(setup, from) && setup.Reliable(c)
  {
    && GenerateAt(setup, from, bytes).Generated?
    && var config, s, room := setup.configs[c], SenderOf(setup, from, c), RoomFor(setup, from, bytes, c);
    && HasMessagesToSend(s) && s.oldest in s.queue && Due(config, s, s.oldest)
    && config.BitsFor(room) >= MESSAGE_HEADER_BITS + GIVE_UP_BITS
    && config.BitsFor(room) >= MESSAGE_HEADER_BITS + Cost(s, s.oldest)
  }

  /** And the number of the packet is one that its ring takes. */
  ghost predicate TurnComes<M>(setup: Setup<M>, from: End<M>, bytes: nat, c: nat)
    requires WellFormedEnd(setup, from) && setup.Reliable(c)
  {
    HasTurn(setup, from, bytes, c) && P.Kept(SenderOf(setup, from, c), from.nextPacket)
  }

  /** The packet that is generated then carries it. */
  lemma GenerateCarriesOldest<M(!new)>(setup: Setup<M>, from: End<M>, bytes: nat, c: nat)
    requires SetupValid(setup) && WellFormedEnd(setup, from) && setup.Reliable(c)
    requires TurnComes(setup, from, bytes, c) && NumberIsClear(setup, from, GenerateAt(setup, from, bytes))
    requires SenderOf(setup, from, c).packetTop <= from.nextPacket
    ensures WellFormedEnd(setup, ApplyGenerate(setup, from, bytes))
    ensures CarriesOldest(setup, ApplyGenerate(setup, from, bytes), c, PacketOf(setup, from, bytes))
    ensures SenderOf(setup, ApplyGenerate(setup, from, bytes), c).oldest == SenderOf(setup, from, c).oldest
    ensures SenderOf(setup, ApplyGenerate(setup, from, bytes), c).next == SenderOf(setup, from, c).next
  {
    var config, s, room := setup.configs[c], SenderOf(setup, from, c), RoomFor(setup, from, bytes, c);
    OldestComesFirst(config, s, room);
    ReliablePart(setup, from, bytes, c);
    NothingWithoutData(GenerateAt(setup, from, bytes).data, c);
    SenderAfterGenerate(setup, from, bytes, c);
  }

  lemma NothingWithoutData<M>(data: seq<ChannelData<M>>, c: nat)
    requires MessagesFor(data, c) != []
    ensures data != []
  {
  }

  /** The ack of such a packet moves the channel's oldest unacked id forward. */
  lemma AckMovesOldest<M(!new)>(setup: Setup<M>, net: Net<M>, e: nat, c: nat, w: WirePacket<M>)
    requires SetupValid(setup) && Reachable(setup, net) && Enabled(setup, net, Ack(e, w.number)) && setup.Reliable(c)
    requires CarriesOldest(setup, net[e], c, w)
    ensures var net' := Apply(setup, net, Ack(e, w.number));
            && WellFormedNet(setup, net')
            && SenderOf(setup, net'[e], c).oldest > SenderOf(setup, net[e], c).oldest
            && SenderOf(setup, net'[e], c).next == SenderOf(setup, net[e], c).next
  {
    var s := ReachableIsSimulated(setup, net);
    BothDirections(setup, net, e, s);
    assert ChannelFollows(setup, net[e], net[1 - e], c, s[e][c]);
    FollowedAckMovesOldest(setup.configs[c], setup.Size(), LaneOf(setup, net[e], net[1 - e], c), s[e][c],
                           P.Packet(w.number, w.ids[c], MessagesFor(w.data, c)));
    AckIsFresh(setup, net[e], net[1 - e], w.number, s[e]);
    AckIsLocal(setup, net, e, w.number);
    ReachableStep(setup, net, Ack(e, w.number));
    ReachableIsWellFormed(setup, Apply(setup, net, Ack(e, w.number)));
  }

  lemma AckIsLocal<M>(setup: Setup<M>, net: Net<M>, e: nat, number: nat)
    requires Enabled(setup, net, Ack(e, number)) && Supported(setup.configs)
    requires !AckPanics(net[e].connection.channels, Wrap(number))
    ensures Apply(setup, net, Ack(e, number)) == net[e := AckedEnd(setup, net[e], number)]
  {
    AckApplies(setup, net[e], number);
  }

  lemma FollowedAckMovesOldest<M>(
    config: Config, size: M -> nat, lane: Lane<M>, shadow: P.System<M>, packet: P.Packet<M>)
    requires Follows(config, size, lane, shadow) && P.IdsOutliveAcks(config)
    requires packet in lane.packets && packet.number in lane.processed && packet.number !in lane.acked
    requires P.AckIsClear(lane.sender, packet.number) && packet.number in lane.sender.ledger
    requires lane.sender.oldest in packet.ids && HasMessagesToSend(lane.sender)
    ensures lane.sender.oldest <= lane.sender.next
    ensures var s := ProcessAck(lane.sender, Wrap(packet.number));
            s.oldest > lane.sender.oldest && s.next == lane.sender.next
  {
    assert P.PacketInv(shadow, packet);
    Progress.AckAdvancesOldest(config, shadow, packet.number);
  }

  lemma PacketTopIsBehind<M(!new)>(setup: Setup<M>, net: Net<M>, e: nat, c: nat)
    requires SetupValid(setup) && Reachable(setup, net) && e < 2 && setup.Reliable(c)
    ensures WellFormedNet(setup, net) && SenderOf(setup, net[e], c).packetTop <= net[e].nextPacket
  {
    var s := ReachableIsSimulated(setup, net);
    BothDirections(setup, net, e, s);
    assert ChannelFollows(setup, net[e], net[1 - e], c, s[e][c]);
  }

  /** A delivery leaves the sending end alone, but for the packet being marked as processed. */
  lemma DeliverKeepsSender<M>(setup: Setup<M>, net: Net<M>, e: nat, w: WirePacket<M>)
    requires Enabled(setup, net, Deliver(e, w)) && Supported(setup.configs)
    ensures var net' := Apply(setup, net, Deliver(e, w));
            && |net'| == 2 && net'[e].connection == net[e].connection && net'[e].flight == net[e].flight
            && net'[e].acked == net[e].acked && net'[e].panicked == net[e].panicked
            && net'[e].nextPacket == net[e].nextPacket && net'[e].accepted == net[e].accepted
  {
    DeliverIsAllowed(setup, net, e, w);
  }

  // ---- The round as a whole ------------------------------------------------------------------

  /** A round without loss: end `e` sends a packet, the other end takes it in, and its ack comes back. */
  ghost function Round<M>(setup: Setup<M>, end: End<M>, e: nat, bytes: nat): seq<Action<M>>
    requires WellFormedEnd(setup, end) && Supported(setup.configs) && GenerateAt(setup, end, bytes).Generated?
  {
    [Generate(e, bytes), Deliver(e, PacketOf(setup, end, bytes)), Ack(e, end.nextPacket)]
  }

  lemma ThreeSteps<M>(setup: Setup<M>, net: Net<M>, a: Action<M>, b: Action<M>, c: Action<M>)
    requires Supported(setup.configs)
    requires Enabled(setup, net, a) && Enabled(setup, Apply(setup, net, a), b)
    requires Enabled(setup, Apply(setup, Apply(setup, net, a), b), c)
    ensures Legal(setup, net, [a, b, c])
    ensures Run(setup, net, [a, b, c]) == Apply(setup, Apply(setup, Apply(setup, net, a), b), c)
  {
    var nothing: seq<Action<M>> := [];
    assert nothing + [a] == [a] && [a] + [b] == [a, b] && [a, b] + [c] == [a, b, c];
    RunAndStep(setup, net, nothing, a);
    RunAndStep(setup, net, [a], b);
    RunAndStep(setup, net, [a, b], c);
  }

  /** No ack of this packet is mistaken by a channel that has been idle for long. */
  ghost predicate NobodyIdle<M>(setup: Setup<M>, end: End<M>, number: nat) {
    WellFormedEnd(setup, end) ==>
      forall c: nat :: setup.Reliable(c) ==> P.AckIsClear(SenderOf(setup, end, c), number)
  }

  /** A fresh packet is never too late, and its ack is new. */
  lemma FreshPacketIsReadable<M(!new)>(setup: Setup<M>, net: Net<M>, e: nat, bytes: nat)
    requires SetupValid(setup) && Reachable(setup, net) && Enabled(setup, net, Generate(e, bytes))
    requires GenerateAt(setup, net[e], bytes).Generated?
    ensures NotTooLate(setup, net[1 - e], PacketOf(setup, net[e], bytes))
  {
    var s := ReachableIsSimulated(setup, net);
    BothDirections(setup, net, e, s);
    forall c: nat, k | setup.Reliable(c) && k in PacketOf(setup, net[e], bytes).ids[c]
      ensures ReceiverOf(setup, net[1 - e], c).next - HALF < k
    {
      assert ChannelFollows(setup, net[e], net[1 - e], c, s[e][c]);
      ReliablePart(setup, net[e], bytes, c);
      ChooseMessagesIsSound(setup.configs[c], SenderOf(setup, net[e], c), RoomFor(setup, net[e], bytes, c));
    }
  }

  lemma FreshAckIsNew<M(!new)>(setup: Setup<M>, net: Net<M>, e: nat, c: nat)
    requires SetupValid(setup) && Reachable(setup, net) && e < 2 && setup.Reliable(c)
    ensures WellFormedNet(setup, net) && net[e].nextPacket !in net[e].acked
  {
    var s := ReachableIsSimulated(setup, net);
    BothDirections(setup, net, e, s);
    assert ChannelFollows(setup, net[e], net[1 - e], c, s[e][c]);
  }

  /** End `e` has a packet on the way that carries the oldest message of channel `c`, and nothing stands in its way. */
  ghost predicate UnderWay<M(!new)>(setup: Setup<M>, net: Net<M>, e: nat, c: nat, w: WirePacket<M>) {
    && Supported(setup.configs) && Reachable(setup, net) && WellFormedNet(setup, net) && e < 2 && setup.Reliable(c)
    && CarriesOldest(setup, net[e], c, w) && w.number !in net[e].acked
    && !net[e].panicked && NobodyIdle(setup, net[e], w.number)
  }

  lemma GenerateIsLocal<M>(setup: Setup<M>, net: Net<M>, e: nat, bytes: nat)
    requires Enabled(setup, net, Generate(e, bytes)) && Supported(setup.configs)
    ensures var sent := Apply(setup, net, Generate(e, bytes));
            |sent| == 2 && sent[e] == ApplyGenerate(setup, net[e], bytes) && sent[1 - e] == net[1 - e]
  {
  }

  lemma RoundSends<M(!new)>(setup: Setup<M>, net: Net<M>, e: nat, bytes: nat, c: nat)
    requires SetupValid(setup) && Reachable(setup, net) && Enabled(setup, net, Generate(e, bytes))
    requires setup.Reliable(c) && TurnComes(setup, net[e], bytes, c)
    requires NobodyIdle(setup, ApplyGenerate(setup, net[e], bytes), net[e].nextPacket)
    ensures var sent, w := Apply(setup, net, Generate(e, bytes)), PacketOf(setup, net[e], bytes);
            && UnderWay(setup, sent, e, c, w) && NotTooLate(setup, sent[1 - e], w)
            && SenderOf(setup, sent[e], c).oldest == SenderOf(setup, net[e], c).oldest
            && SenderOf(setup, sent[e], c).next == SenderOf(setup, net[e], c).next
  {
    PacketTopIsBehind(setup, net, e, c);
    GenerateCarriesOldest(setup, net[e], bytes, c);
    FreshPacketIsReadable(setup, net, e, bytes);
    FreshAckIsNew(setup, net, e, c);
    GenerateIsLocal(setup, net, e, bytes);
    ReachableStep(setup, net, Generate(e, bytes));
    ReachableIsWellFormed(setup, Apply(setup, net, Generate(e, bytes)));
  }

  lemma RoundArrives<M(!new)>(setup: Setup<M>, net: Net<M>, e: nat, c: nat, w: WirePacket<M>)
    requires SetupValid(setup) && UnderWay(setup, net, e, c, w)
    requires !net[1 - e].panicked && AllDrained(net[1 - e]) && NotTooLate(setup, net[1 - e], w)
    ensures Enabled(setup, net, Deliver(e, w))
    ensures var arrived := Apply(setup, net, Deliver(e, w));
            && UnderWay(setup, arrived, e, c, w) && Enabled(setup, arrived, Ack(e, w.number))
            && SenderOf(setup, arrived[e], c) == SenderOf(setup, net[e], c)
  {
    MayDeliver(setup, net, e, w);
    var arrived := Apply(setup, net, Deliver(e, w));
    DrainedEndAccepts(setup, net, e, w);
    ReachableStep(setup, net, Deliver(e, w));
    ReachableIsWellFormed(setup, arrived);
    DeliverKeepsSender(setup, net, e, w);
    StaysUnderWay(setup, net, arrived, e, c, w);
  }

  lemma StaysUnderWay<M(!new)>(setup: Setup<M>, net: Net<M>, r: Net<M>, e: nat, c: nat, w: WirePacket<M>)
    requires UnderWay(setup, net, e, c, w) && Reachable(setup, r) && WellFormedNet(setup, r)
    requires r[e].connection == net[e].connection && r[e].flight == net[e].flight
    requires r[e].acked == net[e].acked && r[e].panicked == net[e].panicked
    ensures UnderWay(setup, r, e, c, w) && SenderOf(setup, r[e], c) == SenderOf(setup, net[e], c)
    ensures w.number in r[e].processed ==> Enabled(setup, r, Ack(e, w.number))
  {
  }

  /** A round without loss can always happen when the other user has taken all messages, and every reliable channel
      whose turn came then has strictly fewer messages outstanding. */
  lemma RoundMakesProgress<M(!new)>(setup: Setup<M>, net: Net<M>, e: nat, bytes: nat, c: nat)
    requires SetupValid(setup) && Reachable(setup, net) && Enabled(setup, net, Generate(e, bytes))
    requires AllDrained(net[1 - e]) && !net[1 - e].panicked
    requires setup.Reliable(c) && TurnComes(setup, net[e], bytes, c)
    requires NobodyIdle(setup, ApplyGenerate(setup, net[e], bytes), net[e].nextPacket)
    ensures Legal(setup, net, Round(setup, net[e], e, bytes))
    ensures var r := Run(setup, net, Round(setup, net[e], e, bytes));
            && Reachable(setup, r) && WellFormedNet(setup, r)
            && SenderOf(setup, r[e], c).oldest > SenderOf(setup, net[e], c).oldest
            && SenderOf(setup, r[e], c).next == SenderOf(setup, net[e], c).next
  {
    var w := PacketOf(setup, net[e], bytes);
    var sent := Apply(setup, net, Generate(e, bytes));
    RoundSends(setup, net, e, bytes, c);
    GenerateIsLocal(setup, net, e, bytes);
    RoundArrives(setup, sent, e, c, w);
    var arrived := Apply(setup, sent, Deliver(e, w));
    AckMovesOldest(setup, arrived, e, c, w);
    ReachableStep(setup, arrived, Ack(e, w.number));
    ThreeSteps(setup, net, Generate(e, bytes), Deliver(e, w), Ack(e, w.number));
  }
}
