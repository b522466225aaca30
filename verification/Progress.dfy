/** A reliable channel whose packets get through empties its send queue. */
module Progress {
  import opened Wrap16
  import opened Options
  import opened Configs
  import opened ReliableSpec
  import opened SequenceBuffers
  import opened Protocol

  /** The choices left open by a round: the time it happens at, and the room in its packet. */
  datatype Plan = Plan(time: real, availableBits: nat)

  ghost function AtTime<M>(sys: System<M>, time: real): System<M> {
    sys.(sender := sys.sender.(time := time))
  }

  /** The packet a round generates. */
  ghost function RoundPacket<M>(config: Config, sys: System<M>, plan: Plan): Packet<M>
    requires config.Valid()
  {
    var s := AtTime(sys, plan.time).sender;
    ChooseMessagesIsSound(config, s, plan.availableBits);
    var ids := ChooseMessages(config, s, plan.availableBits).ids;
    Packet(sys.nextPacket, ids, WireMessages(s, ids))
  }

  ghost function Receives<M>(n: nat): seq<Action<M>> {
    seq(n, _ => Receive)
  }

  /** A round without loss: generate a packet, deliver it, deliver its messages to the user, ack it. */
  ghost function RoundActions<M>(config: Config, sys: System<M>, plan: Plan): seq<Action<M>>
    requires config.Valid()
  {
    [AdvanceTime(plan.time), Generate(plan.availableBits), Deliver(RoundPacket(config, sys, plan))]
    + Receives(config.messageReceiveQueueSize)
    + [Ack(sys.nextPacket)]
  }

  /** The oldest message is due and fits, and the packet number is one the ring will take. */
  ghost predicate GoodPlan<M>(config: Config, sys: System<M>, plan: Plan) {
    var s := AtTime(sys, plan.time).sender;
    && s.oldest in s.queue && Due(config, s, s.oldest)
    && config.BitsFor(plan.availableBits) >= MESSAGE_HEADER_BITS + GIVE_UP_BITS
    && config.BitsFor(plan.availableBits) >= MESSAGE_HEADER_BITS + Cost(s, s.oldest)
    && Kept(s, sys.nextPacket)
  }

  ghost predicate Ready<M>(config: Config, sys: System<M>) {
    Inv(config, sys) && !sys.desynced && NextMessage(sys.receiver) == None
  }

  /** How many messages are not yet known to have arrived. */
  ghost function Outstanding<M>(sys: System<M>): int {
    sys.sender.next - sys.sender.oldest
  }

  // ---- Runs in pieces ------------------------------------------------------------------------

  lemma {:induction false} RunInPieces<M>(config: Config, sys: System<M>, first: seq<Action<M>>, second: seq<Action<M>>)
    requires config.Valid() && sys.sender.oldest <= sys.sender.next
    ensures Run(config, sys, first + second) == Run(config, Run(config, sys, first), second)
    ensures Legal(config, sys, first + second)
            <==> Legal(config, sys, first) && Legal(config, Run(config, sys, first), second)
    decreases |first|
  {
    if first == [] {
      assert first + second == second;
    } else {
      assert (first + second)[1..] == first[1..] + second;
      RunInPieces(config, Apply(config, sys, first[0]), first[1..], second);
    }
  }

  lemma OneStep<M>(config: Config, sys: System<M>, action: Action<M>)
    requires config.Valid() && sys.sender.oldest <= sys.sender.next && Enabled(config, sys, action)
    ensures Legal(config, sys, [action]) && Run(config, sys, [action]) == Apply(config, sys, action)
  {
    assert [action][1..] == [];
    assert Run(config, Apply(config, sys, action), []) == Apply(config, sys, action);
  }

  lemma InitialIsReachable<M(!new)>(config: Config, time: real)
    requires config.Valid()
    ensures Reachable(config, Initial<M>(time))
  {
    assert ReachedBy<M>(config, time, [], Initial<M>(time));
  }

  lemma ReachableStep<M(!new)>(config: Config, sys: System<M>, action: Action<M>)
    requires config.Valid() && sys.sender.oldest <= sys.sender.next
    requires Reachable(config, sys) && Enabled(config, sys, action)
    ensures Reachable(config, Apply(config, sys, action))
  {
    var time, actions :| ReachedBy<M>(config, time, actions, sys);
    OneStep(config, sys, action);
    RunInPieces(config, Initial<M>(time), actions, [action]);
    assert ReachedBy(config, time, actions + [action], Apply(config, sys, action));
  }

  /** Enough calls of `receive_message` deliver all that can be delivered, and touch nothing else. */
  lemma {:induction false} ReceivesDrain<M>(config: Config, sys: System<M>, n: nat)
    requires Inv(config, sys) && !sys.desynced
    requires NextMessage(sys.receiver) == None || forall k :: k in sys.receiver.pending ==> k < sys.receiver.next + n
    ensures Legal(config, sys, Receives(n))
    ensures var r := Run(config, sys, Receives(n));
            && Ready(config, r)
            && r == sys.(receiver := r.receiver, delivered := r.delivered)
    decreases n
  {
    if n == 0 {
      assert sys.receiver.next !in sys.receiver.pending;
    } else {
      var next := Apply(config, sys, Receive);
      ReceiveInv(config, sys);
      ReceivesDrain(config, next, n - 1);
      assert Receives<M>(n) == [Receive] + Receives(n - 1);
      assert Receives<M>(n)[1..] == Receives(n - 1);
    }
  }

  // ---- One round -----------------------------------------------------------------------------

  /** The packet of a round is made, with the oldest message in it. */
  lemma RoundSends<M>(config: Config, sys: System<M>, plan: Plan)
    requires Ready(config, sys) && GoodPlan(config, sys, plan)
    ensures Enabled(config, sys, AdvanceTime(plan.time))
    ensures Enabled(config, AtTime(sys, plan.time), Generate(plan.availableBits))
    ensures var r := Apply(config, AtTime(sys, plan.time), Generate(plan.availableBits));
            && Inv(config, r) && r.receiver == sys.receiver && r.desynced == sys.desynced && r.acked == sys.acked
            && r.accepted == sys.accepted && r.sender.next == sys.sender.next && r.sender.oldest == sys.sender.oldest
            && r.nextPacket == sys.nextPacket + 1 == r.sender.packetTop
            && sys.nextPacket in r.sender.ledger && sys.nextPacket in r.recorded
            && sys.sender.oldest in r.recorded[sys.nextPacket].ids
            && RoundPacket(config, sys, plan) in r.flight
  {
    var timed := AtTime(sys, plan.time);
    TimeOrDropInv(config, sys, AdvanceTime(plan.time));
    OldestComesFirst(config, timed.sender, plan.availableBits);
    GenerateInv(config, timed, plan.availableBits);
    GenerateSenderInv(config, timed, plan.availableBits);
  }

  /** The first half of a round: the packet arrives, with the oldest message in it. */
  lemma RoundArrives<M>(config: Config, sys: System<M>, plan: Plan)
    requires Ready(config, sys) && IdsOutliveAcks(config) && GoodPlan(config, sys, plan)
    ensures var packet := RoundPacket(config, sys, plan);
            var actions := [AdvanceTime(plan.time), Generate(plan.availableBits), Deliver(packet)];
            var r := Run(config, sys, actions);
            && Legal(config, sys, actions)
            && Inv(config, r) && !r.desynced
            && r.accepted == sys.accepted && r.sender.next == sys.sender.next && r.sender.oldest == sys.sender.oldest
            && r.nextPacket == sys.nextPacket + 1 == r.sender.packetTop && r.acked == sys.acked
            && sys.nextPacket in r.processed && sys.nextPacket in r.sender.ledger
            && sys.nextPacket in r.recorded && sys.sender.oldest in r.recorded[sys.nextPacket].ids
  {
    var sent := Apply(config, AtTime(sys, plan.time), Generate(plan.availableBits));
    var packet := RoundPacket(config, sys, plan);
    RoundSends(config, sys, plan);
    RoundPacketIsReadable(config, sys, plan);
    DrainedDeliveryIsStored(config, sent, packet);
    DeliverInv(config, sent, packet);
    ThreeSteps(config, sys, AdvanceTime(plan.time), Generate(plan.availableBits), Deliver(packet));
  }

  lemma ThreeSteps<M>(config: Config, sys: System<M>, a: Action<M>, b: Action<M>, c: Action<M>)
    requires config.Valid() && sys.sender.oldest <= sys.sender.next
    ensures Run(config, sys, [a, b, c]) == Apply(config, Apply(config, Apply(config, sys, a), b), c)
    ensures Legal(config, sys, [a, b, c])
            <==> && Enabled(config, sys, a)
                 && Enabled(config, Apply(config, sys, a), b)
                 && Enabled(config, Apply(config, Apply(config, sys, a), b), c)
  {
    assert [a, b, c][1..] == [b, c] && [b, c][1..] == [c] && [c][1..] == [];
    var first := Apply(config, sys, a);
    var second := Apply(config, first, b);
    assert Run(config, second, [c]) == Apply(config, second, c);
    assert Run(config, first, [b, c]) == Apply(config, second, c);
    assert Legal(config, second, [c]) <==> Enabled(config, second, c);
    assert Legal(config, first, [b, c]) <==> Enabled(config, first, b) && Enabled(config, second, c);
  }

  /** A fresh packet carries nothing the receiver could take for a message of the other half of the numbers. */
  lemma RoundPacketIsReadable<M>(config: Config, sys: System<M>, plan: Plan)
    requires Ready(config, sys)
    ensures forall k :: k in RoundPacket(config, sys, plan).ids ==> sys.receiver.next - HALF < k
  {
    ChooseMessagesIsSound(config, AtTime(sys, plan.time).sender, plan.availableBits);
  }

  /** The second half: the ack takes the oldest message out of the send queue. */
  lemma AckAdvancesOldest<M>(config: Config, sys: System<M>, number: nat)
    requires Inv(config, sys) && IdsOutliveAcks(config) && Enabled(config, sys, Ack(number))
    requires number in sys.sender.ledger && number in sys.recorded && sys.sender.oldest in sys.recorded[number].ids
    requires HasMessagesToSend(sys.sender)
    ensures var r := Apply(config, sys, Ack(number));
            r.sender.oldest > sys.sender.oldest && r.sender.next == sys.sender.next
  {
    var s := sys.sender;
    var ids := sys.recorded[number].ids;
    AckFindsItsPacket(config, s, number);
    ProcessAckKeepsValid(config, s, Wrap(number));
    assert RecordInv(config, sys, number);
    var marked := s.(ledger := s.ledger[number := s.ledger[number].(acked := true)]);
    assert ProcessAck(s, Wrap(number)) == RemoveMessages(marked, WrapAll(ids));
    RemovingOldestAdvances(config, marked, ids);
  }

  lemma RemovingOldestAdvances<M>(config: Config, s: Sender<M>, ids: seq<int>)
    requires SenderValid(config, s) && s.oldest in ids && s.oldest != s.next
    requires forall k :: k in ids ==> s.next - MODULUS <= k < s.next
    ensures var r := RemoveMessages(s, WrapAll(ids));
            r.oldest > s.oldest && r.next == s.next
  {
    RemoveMessagesExactly(s, ids);
    RemoveMessagesKeepsValid(config, s, WrapAll(ids));
    assert s.oldest !in RemoveMessages(s, WrapAll(ids)).queue;
  }

  /** The packet with the oldest message has arrived and is about to be acked. */
  ghost predicate AckPending<M>(config: Config, sys: System<M>, number: nat) {
    && Inv(config, sys) && !sys.desynced && HasMessagesToSend(sys.sender)
    && number in sys.processed && number !in sys.acked && number + 1 == sys.sender.packetTop
    && number in sys.sender.ledger && number in sys.recorded && sys.sender.oldest in sys.recorded[number].ids
  }

  lemma AckCompletes<M>(config: Config, sys: System<M>, number: nat)
    requires AckPending(config, sys, number) && Ready(config, sys) && IdsOutliveAcks(config)
    ensures Enabled(config, sys, Ack(number))
    ensures var r := Apply(config, sys, Ack(number));
            Ready(config, r) && r.accepted == sys.accepted && Outstanding(r) < Outstanding(sys)
  {
    InWindowIsClear(config, sys.sender, number);
    AckInv(config, sys, number);
    AckFindsItsPacket(config, sys.sender, number);
    AckAdvancesOldest(config, sys, number);
  }

  /** The messages are delivered to the user, and the ack comes back. */
  lemma RoundCompletes<M>(config: Config, sys: System<M>, number: nat)
    requires AckPending(config, sys, number) && IdsOutliveAcks(config)
    ensures var actions := Receives<M>(config.messageReceiveQueueSize) + [Ack(number)];
            var r := Run(config, sys, actions);
            && Legal(config, sys, actions)
            && Ready(config, r) && r.accepted == sys.accepted && Outstanding(r) < Outstanding(sys)
  {
    var receives := Receives<M>(config.messageReceiveQueueSize);
    ReceivesDrain(config, sys, config.messageReceiveQueueSize);
    var drained := Run(config, sys, receives);
    AckCompletes(config, drained, number);
    OneStep(config, drained, Ack(number));
    RunInPieces(config, sys, receives, [Ack(number)]);
  }

  /** Every round without loss acks the oldest message. */
  lemma RoundMakesProgress<M>(config: Config, sys: System<M>, plan: Plan)
    requires Ready(config, sys) && IdsOutliveAcks(config) && GoodPlan(config, sys, plan)
    ensures Legal(config, sys, RoundActions(config, sys, plan))
    ensures var r := Run(config, sys, RoundActions(config, sys, plan));
            Ready(config, r) && r.accepted == sys.accepted && Outstanding(r) < Outstanding(sys)
  {
    var arrive := [AdvanceTime(plan.time), Generate(plan.availableBits), Deliver(RoundPacket(config, sys, plan))];
    var complete := Receives<M>(config.messageReceiveQueueSize) + [Ack(sys.nextPacket)];
    RoundArrives(config, sys, plan);
    RoundCompletes(config, Run(config, sys, arrive), sys.nextPacket);
    RunInPieces(config, sys, arrive, complete);
    assert RoundActions(config, sys, plan) == arrive + complete;
  }

  // ---- Many rounds ---------------------------------------------------------------------------

  ghost function Rounds<M>(config: Config, sys: System<M>, plans: seq<Plan>): (r: System<M>)
    requires config.Valid() && sys.sender.oldest <= sys.sender.next
    ensures r.sender.oldest <= r.sender.next
    decreases |plans|
  {
    if plans == [] || !HasMessagesToSend(sys.sender) then sys
    else Rounds(config, Run(config, sys, RoundActions(config, sys, plans[0])), plans[1..])
  }

  /** As long as messages are outstanding, the next plan is a good one. */
  ghost predicate GoodPlans<M>(config: Config, sys: System<M>, plans: seq<Plan>)
    requires config.Valid() && sys.sender.oldest <= sys.sender.next
    decreases |plans|
  {
    plans != [] && HasMessagesToSend(sys.sender) ==>
      && GoodPlan(config, sys, plans[0])
      && GoodPlans(config, Run(config, sys, RoundActions(config, sys, plans[0])), plans[1..])
  }

  /** As many rounds as there are messages outstanding empty the send queue and deliver everything. */
  lemma {:induction false} RoundsDeliverEverything<M>(config: Config, sys: System<M>, plans: seq<Plan>)
    requires Ready(config, sys) && IdsOutliveAcks(config) && GoodPlans(config, sys, plans)
    requires Outstanding(sys) <= |plans|
    ensures var r := Rounds(config, sys, plans);
            r.sender.queue == map[] && r.delivered == r.accepted == sys.accepted
    decreases |plans|
  {
    if plans == [] || !HasMessagesToSend(sys.sender) {
      assert sys.receiver.next < sys.sender.next ==> Has(sys.receiver, sys.receiver.next);
      assert forall k :: k !in sys.sender.queue;
    } else {
      RoundMakesProgress(config, sys, plans[0]);
      RoundsDeliverEverything(config, Run(config, sys, RoundActions(config, sys, plans[0])), plans[1..]);
    }
  }
}
