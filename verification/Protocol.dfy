/** Two ends of a reliable channel over a network that drops, duplicates, delays and reorders packets.

    One direction of a channel: the sending half at one end and the receiving half at the other. The halves
    work on 16-bit numbers; `Packet.ids` remembers, for the proofs only, which messages a packet carries. */
module Protocol {
  import opened Wrap16
  import opened Options
  import opened SequenceBuffers
  import opened Configs
  import opened ReliableSpec

  datatype Packet<M> = Packet(number: nat, ids: seq<int>, messages: seq<(u16, M)>)

  /** A packet that carried messages: which, the oldest unacked message when it was made, and whether the ring of sent
      packets took its number. */
  datatype Record = Record(ids: seq<int>, base: int, kept: bool)

  datatype System<M(==)> = System(
    sender: Sender<M>,
    receiver: Receiver<M>,
    accepted: seq<M>,            // every message `send_message` took, in order
    delivered: seq<M>,           // every message `receive_message` gave, in order
    nextPacket: nat,
    flight: set<Packet<M>>,      // packets the network still holds
    recorded: map<nat, Record>,  // every packet that carried messages of this channel
    processed: set<nat>,         // packets the receiver has processed
    acked: set<nat>,             // packets whose ack the sender has processed
    desynced: bool,              // the receiver has panicked
    ackPanicked: bool)           // the sender has panicked

  ghost function Initial<M>(time: real): System<M> {
    System(NewSender(time), NewReceiver(), [], [], 0, {}, map[], {}, {}, false, false)
  }

  datatype Action<M> =
    | Send(message: M, measuredBits: nat)
    | Generate(availableBits: nat)
    | Deliver(packet: Packet<M>)
    | Drop(packet: Packet<M>)
    | Ack(number: nat)
    | Receive
    | AdvanceTime(time: real)

  /** The ack of this packet is not mistaken for the ack of another one. */
  ghost predicate AckIsClear<M>(s: Sender<M>, number: int) {
    forall p :: p in s.ledger && Wrap(p) == Wrap(number) ==> p == number
  }

  /** The ring reads this number as it is meant, or takes it to be older than its window. */
  ghost predicate NumberIsClear<M>(config: Config, s: Sender<M>, number: int) {
    Kept(s, number) || InsertKey(s.packetTop, Wrap(number)) < s.packetTop - config.sentPacketBufferSize
  }

  ghost predicate Kept<M>(s: Sender<M>, number: int) {
    InsertKey(s.packetTop, Wrap(number)) == number
  }

  /** When a step may happen. A packet stays in flight after delivery, so it can be delivered again. */
  ghost predicate Enabled<M>(config: Config, sys: System<M>, action: Action<M>) {
    match action
    case Send(_, _) => !sys.ackPanicked && CanSendMessage(config, sys.sender)
    case Generate(availableBits) =>
      && !sys.ackPanicked
      && (HasMessagesToSend(sys.sender) ==> config.BitsFor(availableBits) >= MESSAGE_HEADER_BITS)
      && (ChooseMessages(config, sys.sender, availableBits).ids != [] ==>
            NumberIsClear(config, sys.sender, sys.nextPacket))
    case Deliver(packet) =>
      && !sys.desynced && packet in sys.flight
      && forall k :: k in packet.ids ==> sys.receiver.next - HALF < k
    case Drop(packet) => packet in sys.flight
    case Ack(number) =>
      && !sys.ackPanicked && number in sys.processed && number !in sys.acked
      && AckIsClear(sys.sender, number)
    case Receive => !sys.desynced
    case AdvanceTime(_) => !sys.ackPanicked
  }

  ghost function NextRecord<M>(sys: System<M>, ids: seq<int>): Record {
    Record(ids, sys.sender.oldest, Kept(sys.sender, sys.nextPacket))
  }

  ghost function ApplyGenerate<M>(config: Config, sys: System<M>, availableBits: nat): System<M>
    requires config.Valid()
  {
    ChooseMessagesIsSound(config, sys.sender, availableBits);
    var ids := ChooseMessages(config, sys.sender, availableBits).ids;
    var n := sys.nextPacket;
    sys.(sender := GeneratePacket(config, sys.sender, Wrap(n), availableBits),
         nextPacket := n + 1,
         flight := sys.flight + {Packet(n, ids, WireMessages(sys.sender, ids))},
         recorded := if ids == [] then sys.recorded else sys.recorded[n := NextRecord(sys, ids)])
  }

  ghost function ApplyDeliver<M>(config: Config, sys: System<M>, packet: Packet<M>): System<M> {
    var result := ReceivePacket(config, sys.receiver, packet.messages);
    sys.(receiver := result.receiver,
         processed := if result.ok then sys.processed + {packet.number} else sys.processed,
         desynced := !result.ok)
  }

  ghost function ApplyAck<M>(sys: System<M>, number: nat): System<M>
    requires sys.sender.oldest <= sys.sender.next
  {
    sys.(sender := ProcessAck(sys.sender, Wrap(number)),
         acked := sys.acked + {number},
         ackPanicked := AckOutcome(sys.sender, Wrap(number)) == AlreadyAcked)
  }

  ghost function ApplyReceive<M>(sys: System<M>): System<M> {
    match NextMessage(sys.receiver)
    case None => sys
    case Some(message) => sys.(receiver := Delivered(sys.receiver), delivered := sys.delivered + [message])
  }

  ghost function Apply<M>(config: Config, sys: System<M>, action: Action<M>): (r: System<M>)
    requires config.Valid() && sys.sender.oldest <= sys.sender.next
    ensures r.sender.oldest <= r.sender.next
  {
    match action
    case Send(message, measuredBits) =>
      sys.(sender := SendMessage(sys.sender, message, measuredBits), accepted := sys.accepted + [message])
    case Generate(availableBits) => ApplyGenerate(config, sys, availableBits)
    case Deliver(packet) => ApplyDeliver(config, sys, packet)
    case Drop(packet) => sys.(flight := sys.flight - {packet})
    case Ack(number) => ApplyAck(sys, number)
    case Receive => ApplyReceive(sys)
    case AdvanceTime(time) => sys.(sender := sys.sender.(time := time))
  }

  /** The state after a list of steps. */
  ghost function Run<M>(config: Config, sys: System<M>, actions: seq<Action<M>>): (r: System<M>)
    requires config.Valid() && sys.sender.oldest <= sys.sender.next
    ensures r.sender.oldest <= r.sender.next
    decreases |actions|
  {
    if actions == [] then sys else Run(config, Apply(config, sys, actions[0]), actions[1..])
  }

  ghost predicate Legal<M>(config: Config, sys: System<M>, actions: seq<Action<M>>)
    requires config.Valid() && sys.sender.oldest <= sys.sender.next
    decreases |actions|
  {
    actions != [] ==>
      Enabled(config, sys, actions[0]) && Legal(config, Apply(config, sys, actions[0]), actions[1..])
  }

  /** The most messages one packet can carry. */
  ghost function BatchLimit(config: Config): nat {
    if config.maxMessagesPerPacket < config.MessageLimit() then config.maxMessagesPerPacket
    else config.MessageLimit()
  }

  /** While a recorded packet is live, too few messages can be sent for an id to come round again. */
  ghost predicate IdsOutliveAcks(config: Config)
    requires config.Valid()
  {
    (config.sentPacketBufferSize - 1) * BatchLimit(config) + config.messageSendQueueSize + config.MessageLimit()
      <= MODULUS
  }

  // ---- The invariant -------------------------------------------------------------------------

  /** The receiver has message `k`: delivered, or waiting its turn. */
  ghost predicate Has<M>(r: Receiver<M>, k: int) {
    k < r.next || k in r.pending
  }

  ghost predicate SenderInv<M>(config: Config, sys: System<M>) {
    && SenderValid(config, sys.sender)
    && sys.sender.next == |sys.accepted|
    && sys.sender.packetTop <= sys.nextPacket
    && (forall k :: k in sys.sender.queue ==> sys.sender.queue[k].message == sys.accepted[k])
  }

  ghost predicate ReceiverInv<M>(config: Config, sys: System<M>) {
    && ReceiverValid(config, sys.receiver)
    && sys.receiver.next == |sys.delivered| <= |sys.accepted|
    && sys.delivered == sys.accepted[..|sys.delivered|]
    && (forall k :: k in sys.receiver.pending ==> k < |sys.accepted| && sys.receiver.pending[k] == sys.accepted[k])
  }

  ghost predicate RecordInv<M>(config: Config, sys: System<M>, n: nat)
    requires n in sys.recorded
  {
    var record := sys.recorded[n];
    && n < sys.nextPacket && (record.kept ==> n < sys.sender.packetTop)
    && |record.ids| <= BatchLimit(config)
    && 0 <= record.base <= sys.sender.oldest
    && (forall k :: k in record.ids ==> record.base <= k < record.base + config.MessageLimit() && k < sys.sender.next)
    && (n in sys.processed ==> forall k :: k in record.ids ==> Has(sys.receiver, k))
  }

  ghost predicate RecordsInv<M>(config: Config, sys: System<M>) {
    && (forall n :: n in sys.recorded ==> RecordInv(config, sys, n))
    && (forall m, n :: m in sys.recorded && n in sys.recorded && m <= n ==>
          sys.recorded[m].base <= sys.recorded[n].base)
  }

  /** The live ledger entries are recorded packets with their ids, marked acked only if they were. */
  ghost predicate LedgerInv<M>(sys: System<M>) {
    forall p :: p in sys.sender.ledger ==>
      && 0 <= p && p in sys.recorded && sys.recorded[p].kept
      && sys.sender.ledger[p].ids == WrapAll(sys.recorded[p].ids)
      && (sys.sender.ledger[p].acked ==> p in sys.acked)
  }

  ghost predicate PacketInv<M>(sys: System<M>, packet: Packet<M>) {
    && packet.number < sys.nextPacket
    && |packet.ids| == |packet.messages|
    && (packet.ids != [] ==> packet.number in sys.recorded && sys.recorded[packet.number].ids == packet.ids)
    && (packet.ids == [] ==> packet.number !in sys.recorded)
    && (forall i :: 0 <= i < |packet.ids| ==>
          && 0 <= packet.ids[i] < |sys.accepted|
          && packet.messages[i] == (Wrap(packet.ids[i]), sys.accepted[packet.ids[i]]))
  }

  ghost predicate FlightInv<M>(sys: System<M>) {
    && (forall packet :: packet in sys.flight ==> PacketInv(sys, packet))
    && (forall n :: n in sys.processed ==> n < sys.nextPacket)
    && sys.acked <= sys.processed
  }

  /** An accepted message that left the send queue was carried by a packet that the ring took, and the receiver has
      it. */
  ghost predicate AckedInv<M>(sys: System<M>) {
    forall k :: 0 <= k < sys.sender.next && k !in sys.sender.queue ==>
      Has(sys.receiver, k) && Carried(sys.recorded, k)
  }

  ghost predicate Carried(recorded: map<nat, Record>, k: int) {
    exists n :: n in recorded && recorded[n].kept && k in recorded[n].ids
  }

  ghost predicate Inv<M>(config: Config, sys: System<M>) {
    && config.Valid()
    && SenderInv(config, sys)
    && ReceiverInv(config, sys)
    && RecordsInv(config, sys)
    && LedgerInv(sys)
    && FlightInv(sys)
    && AckedInv(sys)
    && !sys.ackPanicked
  }

  lemma InitialInv<M>(config: Config, time: real)
    requires config.Valid()
    ensures Inv(config, Initial<M>(time))
  {
  }

  // ---- Steps other than acks -----------------------------------------------------------------

  lemma SendInv<M>(config: Config, sys: System<M>, message: M, measuredBits: nat)
    requires Inv(config, sys) && Enabled(config, sys, Send(message, measuredBits))
    ensures Inv(config, Apply(config, sys, Send(message, measuredBits)))
  {
    SendMessageKeepsValid(config, sys.sender, message, measuredBits);
  }

  lemma GenerateSenderInv<M>(config: Config, sys: System<M>, availableBits: nat)
    requires Inv(config, sys) && Enabled(config, sys, Generate(availableBits))
    ensures var r := Apply(config, sys, Generate(availableBits));
            && SenderInv(config, r) && LedgerInv(r)
            && r.sender.queue.Keys == sys.sender.queue.Keys
            && r.sender.oldest == sys.sender.oldest && r.sender.next == sys.sender.next
            && sys.sender.packetTop <= r.sender.packetTop
            && (ChooseMessages(config, sys.sender, availableBits).ids != [] && Kept(sys.sender, sys.nextPacket) ==>
                  r.sender.packetTop == sys.nextPacket + 1)
  {
    ChooseMessagesIsSound(config, sys.sender, availableBits);
    GeneratePacketKeepsValid(config, sys.sender, Wrap(sys.nextPacket), availableBits);
  }

  lemma GenerateRecordsInv<M>(config: Config, sys: System<M>, availableBits: nat)
    requires Inv(config, sys) && Enabled(config, sys, Generate(availableBits))
    ensures var r := Apply(config, sys, Generate(availableBits));
            RecordsInv(config, r) && AckedInv(r)
  {
    var r := Apply(config, sys, Generate(availableBits));
    ChooseMessagesIsSound(config, sys.sender, availableBits);
    GenerateSenderInv(config, sys, availableBits);
    RecordingInv(config, sys, r, ChooseMessages(config, sys.sender, availableBits).ids);
  }

  /** Recording one more packet keeps what is known about the recorded packets. */
  lemma RecordingInv<M>(config: Config, sys: System<M>, r: System<M>, ids: seq<int>)
    requires RecordsInv(config, sys) && AckedInv(sys)
    requires r.sender.queue.Keys == sys.sender.queue.Keys && r.receiver == sys.receiver && r.processed == sys.processed
    requires r.sender.oldest == sys.sender.oldest && r.sender.next == sys.sender.next
    requires sys.sender.packetTop <= r.sender.packetTop && 0 <= sys.sender.oldest
    requires sys.nextPacket !in sys.processed && sys.sender.packetTop <= sys.nextPacket
    requires r.recorded == if ids == [] then sys.recorded
                           else sys.recorded[sys.nextPacket := NextRecord(sys, ids)]
    requires r.nextPacket == sys.nextPacket + 1
    requires ids != [] && Kept(sys.sender, sys.nextPacket) ==> r.sender.packetTop == sys.nextPacket + 1
    requires |ids| <= BatchLimit(config)
    requires forall k :: k in ids ==>
               sys.sender.oldest <= k < sys.sender.oldest + config.MessageLimit() && k < sys.sender.next
    ensures RecordsInv(config, r) && AckedInv(r)
  {
    assert forall m :: m in sys.recorded ==> RecordInv(config, sys, m);
    forall k | 0 <= k < r.sender.next && k !in r.sender.queue
      ensures Has(r.receiver, k) && Carried(r.recorded, k)
    {
      assert Carried(sys.recorded, k);
      var m :| m in sys.recorded && sys.recorded[m].kept && k in sys.recorded[m].ids;
      assert k in r.recorded[m].ids;
    }
  }

  lemma GenerateFlightInv<M>(config: Config, sys: System<M>, availableBits: nat)
    requires Inv(config, sys) && Enabled(config, sys, Generate(availableBits))
    ensures FlightInv(Apply(config, sys, Generate(availableBits)))
  {
    var r := Apply(config, sys, Generate(availableBits));
    var ids := ChooseMessages(config, sys.sender, availableBits).ids;
    ChooseMessagesIsSound(config, sys.sender, availableBits);
    NumberIsUnused(config, sys);
    forall packet | packet in r.flight
      ensures PacketInv(r, packet)
    {
      if packet in sys.flight {
        OldPacketInv(sys, ids, r, packet);
      } else {
        NewPacketInv(config, sys, ids, r);
      }
    }
  }

  lemma NumberIsUnused<M>(config: Config, sys: System<M>)
    requires Inv(config, sys)
    ensures sys.nextPacket !in sys.recorded
  {
    assert sys.nextPacket in sys.recorded ==> RecordInv(config, sys, sys.nextPacket);
  }

  /** The next packet carried these messages, and a packet made before is as it was. */
  lemma OldPacketInv<M>(sys: System<M>, ids: seq<int>, r: System<M>, packet: Packet<M>)
    requires PacketInv(sys, packet) && sys.nextPacket !in sys.recorded
    requires r.nextPacket == sys.nextPacket + 1 && r.accepted == sys.accepted
    requires r.recorded == if ids == [] then sys.recorded
                           else sys.recorded[sys.nextPacket := NextRecord(sys, ids)]
    ensures PacketInv(r, packet)
  {
  }

  lemma NewPacketInv<M>(config: Config, sys: System<M>, ids: seq<int>, r: System<M>)
    requires SenderInv(config, sys) && (forall k :: k in ids ==> k in sys.sender.queue)
    requires sys.nextPacket !in sys.recorded && r.nextPacket == sys.nextPacket + 1 && r.accepted == sys.accepted
    requires r.recorded == if ids == [] then sys.recorded
                           else sys.recorded[sys.nextPacket := NextRecord(sys, ids)]
    ensures PacketInv(r, Packet(sys.nextPacket, ids, WireMessages(sys.sender, ids)))
  {
    assert forall i :: 0 <= i < |ids| ==> ids[i] in ids;
  }

  lemma GenerateInv<M>(config: Config, sys: System<M>, availableBits: nat)
    requires Inv(config, sys) && Enabled(config, sys, Generate(availableBits))
    ensures Inv(config, Apply(config, sys, Generate(availableBits)))
  {
    GenerateSenderInv(config, sys, availableBits);
    GenerateRecordsInv(config, sys, availableBits);
    GenerateFlightInv(config, sys, availableBits);
  }

  /** `r'` has everything `r` has. */
  ghost predicate KeepsAll<M>(r: Receiver<M>, r': Receiver<M>) {
    forall k :: Has(r, k) ==> Has(r', k)
  }

  /** A step of the receiver that loses nothing keeps what is known about the rest of the system. */
  lemma ReceiverStepInv<M>(config: Config, sys: System<M>, r: System<M>)
    requires Inv(config, sys) && ReceiverInv(config, r) && KeepsAll(sys.receiver, r.receiver)
    requires r == sys.(receiver := r.receiver, delivered := r.delivered, processed := r.processed,
                       desynced := r.desynced)
    requires sys.processed <= r.processed && forall n :: n in r.processed ==> n < sys.nextPacket
    requires forall n, k :: n in r.processed && n !in sys.processed && n in sys.recorded && k in sys.recorded[n].ids ==>
               Has(r.receiver, k)
    ensures Inv(config, r)
  {
    assert RecordsInv(config, r) by {
      assert forall n :: n in sys.recorded ==> RecordInv(config, sys, n);
    }
    assert forall packet :: packet in sys.flight ==> PacketInv(sys, packet);
  }

  lemma ReceiveReceiverInv<M>(config: Config, sys: System<M>)
    requires ReceiverInv(config, sys)
    ensures ReceiverInv(config, ApplyReceive(sys)) && KeepsAll(sys.receiver, ApplyReceive(sys).receiver)
  {
  }

  lemma ReceiveInv<M>(config: Config, sys: System<M>)
    requires Inv(config, sys) && Enabled(config, sys, Receive)
    ensures Inv(config, Apply(config, sys, Receive))
  {
    ReceiveReceiverInv(config, sys);
    ReceiverStepInv(config, sys, Apply(config, sys, Receive));
  }

  // ---- Delivery ------------------------------------------------------------------------------

  /** Messages that are what they claim to be: message `i` is the accepted message number `ids[i]`. */
  ghost predicate Genuine<M>(accepted: seq<M>, ids: seq<int>, messages: seq<(u16, M)>) {
    && |ids| == |messages|
    && forall i :: 0 <= i < |ids| ==> 0 <= ids[i] < |accepted| && messages[i] == (Wrap(ids[i]), accepted[ids[i]])
  }

  /** The accepted messages among `ids` that are not delivered yet. */
  ghost function Undelivered<M>(accepted: seq<M>, ids: seq<int>, next: int): map<int, M>
    requires forall k :: k in ids ==> 0 <= k < |accepted|
  {
    map k | k in ids && next <= k :: accepted[k]
  }

  /** Processing a genuine packet stores exactly its undelivered messages, whatever their order or number of
      repeats, and evicts nothing; it fails exactly when one lies past the receive window. */
  lemma {:induction false} ReceiveGenuine<M>(
    config: Config, r: Receiver<M>, accepted: seq<M>, ids: seq<int>, messages: seq<(u16, M)>)
    requires config.Valid() && ReceiverValid(config, r) && Genuine(accepted, ids, messages)
    requires forall k :: k in r.pending ==> k < |accepted| && r.pending[k] == accepted[k]
    requires forall i :: 0 <= i < |ids| ==> -HALF < ids[i] - r.next < HALF
    ensures forall k :: k in ids ==> 0 <= k < |accepted|
    ensures var result := ReceivePacket(config, r, messages);
            && (result.ok <==> forall k :: k in ids ==> k < r.next + config.messageReceiveQueueSize)
            && (result.ok ==> result.receiver == r.(pending := r.pending + Undelivered(accepted, ids, r.next)))
            && ReceiverValid(config, result.receiver) && result.receiver.next == r.next
            && r.pending.Keys <= result.receiver.pending.Keys
            && forall k :: k in result.receiver.pending ==> k < |accepted| && result.receiver.pending[k] == accepted[k]
    decreases |ids|
  {
    if ids == [] {
      assert r.pending + Undelivered(accepted, ids, r.next) == r.pending;
    } else {
      var k := ids[0];
      ReceiveOneByNumber(config, r, k, accepted[k]);
      assert k in ids && forall j :: j in ids <==> j == k || j in ids[1..];
      var one := ReceiveOne(config, r, messages[0].0, messages[0].1);
      if one.ok {
        assert Genuine(accepted, ids[1..], messages[1..]);
        ReceiveGenuine(config, one.receiver, accepted, ids[1..], messages[1..]);
        UndeliveredSplit(accepted, ids, r.next, r.pending);
      }
    }
  }

  lemma UndeliveredSplit<M>(accepted: seq<M>, ids: seq<int>, next: int, pending: map<int, M>)
    requires ids != [] && 0 <= ids[0] < |accepted| && forall k :: k in ids ==> 0 <= k < |accepted|
    ensures forall k :: k in ids[1..] ==> 0 <= k < |accepted|
    ensures var first := if next <= ids[0] then pending[ids[0] := accepted[ids[0]]] else pending;
            pending + Undelivered(accepted, ids, next) == first + Undelivered(accepted, ids[1..], next)
  {
    var first := if next <= ids[0] then pending[ids[0] := accepted[ids[0]]] else pending;
    assert forall j :: j in ids <==> j == ids[0] || j in ids[1..];
    var left, right := pending + Undelivered(accepted, ids, next), first + Undelivered(accepted, ids[1..], next);
    assert left.Keys == right.Keys;
    assert forall k :: k in left ==> left[k] == right[k];
  }

  /** The sender's window is never far ahead of the receiver: everything below `oldest` has been received. */
  lemma OldestIsNearReceiver<M>(config: Config, sys: System<M>)
    requires Inv(config, sys)
    ensures sys.sender.oldest <= sys.receiver.next + config.messageReceiveQueueSize
  {
    var k := sys.receiver.next + config.messageReceiveQueueSize;
    assert k < sys.sender.oldest ==> Has(sys.receiver, k);
  }

  /** The ids of a packet in flight are near enough to the receiver to be read as they were meant. */
  lemma PacketIsReadable<M>(config: Config, sys: System<M>, packet: Packet<M>)
    requires Inv(config, sys) && Enabled(config, sys, Deliver(packet))
    ensures Genuine(sys.accepted, packet.ids, packet.messages)
    ensures forall i :: 0 <= i < |packet.ids| ==> -HALF < packet.ids[i] - sys.receiver.next < HALF
    ensures forall k :: k in packet.ids ==> k < sys.sender.oldest + config.MessageLimit()
  {
    OldestIsNearReceiver(config, sys);
    assert PacketInv(sys, packet);
    if packet.ids != [] {
      assert RecordInv(config, sys, packet.number);
    }
    assert forall i :: 0 <= i < |packet.ids| ==> packet.ids[i] in packet.ids;
  }

  lemma DeliverInv<M>(config: Config, sys: System<M>, packet: Packet<M>)
    requires Inv(config, sys) && Enabled(config, sys, Deliver(packet))
    ensures Inv(config, Apply(config, sys, Deliver(packet)))
  {
    PacketIsReadable(config, sys, packet);
    ReceiveGenuine(config, sys.receiver, sys.accepted, packet.ids, packet.messages);
    assert PacketInv(sys, packet);
    ReceiverStepInv(config, sys, Apply(config, sys, Deliver(packet)));
  }

  // ---- Acks ----------------------------------------------------------------------------------

  /** The messages carried by packets numbered from `low` up to but not including `high`. */
  ghost function CarriedBetween(recorded: map<nat, Record>, low: nat, high: nat): (r: set<int>)
    requires low <= high
    ensures forall n, k :: n in recorded && low <= n < high && k in recorded[n].ids ==> k in r
    decreases high - low
  {
    if low == high then {}
    else
      CarriedBetween(recorded, low, high - 1)
      + if high - 1 in recorded then Elements(recorded[high - 1].ids) else {}
  }

  ghost function Elements(ids: seq<int>): set<int> {
    set k | k in ids
  }

  lemma {:induction false} ElementsAreFew(ids: seq<int>)
    ensures |Elements(ids)| <= |ids|
  {
    if ids == [] {
    } else {
      ElementsAreFew(ids[1..]);
      assert Elements(ids) == {ids[0]} + Elements(ids[1..]);
    }
  }

  /** No recorded packet carried more messages than this. */
  ghost predicate AllSmall(recorded: map<nat, Record>, batch: nat) {
    forall n :: n in recorded ==> |recorded[n].ids| <= batch
  }

  /** `n` times `each`, added up one by one. */
  ghost function Times(n: nat, each: nat): nat {
    if n == 0 then 0 else each + Times(n - 1, each)
  }

  lemma {:induction false} TimesIsProduct(n: nat, each: nat)
    ensures Times(n, each) == n * each
  {
    if n == 0 {
    } else {
      TimesIsProduct(n - 1, each);
      assert n * each == (n - 1) * each + each;
    }
  }

  lemma {:induction false} CarriedBetweenIsSmall(recorded: map<nat, Record>, low: nat, high: nat, batch: nat)
    requires low <= high && AllSmall(recorded, batch)
    ensures |CarriedBetween(recorded, low, high)| <= Times(high - low, batch)
    decreases high - low
  {
    if low == high {
    } else {
      CarriedBetweenIsSmall(recorded, low, high - 1, batch);
      if high - 1 in recorded {
        ElementsAreFew(recorded[high - 1].ids);
        UnionIsFew(CarriedBetween(recorded, low, high - 1), Elements(recorded[high - 1].ids));
      }
    }
  }

  lemma UnionIsFew(a: set<int>, b: set<int>)
    ensures |a + b| <= |a| + |b|
  {
    assert |a + b| == |a| + |b| - |a * b|;
  }

  ghost predicate Covers(s: set<int>, low: int, high: int) {
    forall k {:trigger k in s} :: low <= k < high ==> k in s
  }

  lemma {:induction false} CoveringSetIsLarge(s: set<int>, low: int, high: int)
    requires low <= high && Covers(s, low, high)
    ensures high - low <= |s|
    decreases high - low
  {
    if low == high {
    } else {
      CoveringSetIsLarge(s - {high - 1}, low, high - 1);
    }
  }

  /** Every message between the window of packet `p` and the oldest unacked message was carried by one of the
      packets after `p`. */
  lemma CarriedAfterPacket<M>(config: Config, sys: System<M>, p: nat)
    requires Inv(config, sys) && p in sys.recorded && p < sys.sender.packetTop
    ensures Covers(CarriedBetween(sys.recorded, p + 1, sys.sender.packetTop),
                   sys.recorded[p].base + config.MessageLimit(), sys.sender.oldest)
  {
    assert RecordInv(config, sys, p);
    var carried := CarriedBetween(sys.recorded, p + 1, sys.sender.packetTop);
    forall k {:trigger k in carried} | sys.recorded[p].base + config.MessageLimit() <= k < sys.sender.oldest
      ensures k in carried
    {
      assert Carried(sys.recorded, k);
      var n :| n in sys.recorded && sys.recorded[n].kept && k in sys.recorded[n].ids;
      assert RecordInv(config, sys, n);
    }
  }

  /** So there are few such messages: no more than fit in the packets that can follow a live one. */
  lemma FewMessagesSincePacket<M>(config: Config, sys: System<M>, p: nat)
    requires Inv(config, sys) && p in sys.sender.ledger
    ensures sys.sender.oldest - (sys.recorded[p].base + config.MessageLimit())
            <= (config.sentPacketBufferSize - 1) * BatchLimit(config)
  {
    var low, high, batch := sys.recorded[p].base + config.MessageLimit(), sys.sender.oldest, BatchLimit(config);
    var later := sys.sender.packetTop - (p + 1);
    var carried := CarriedBetween(sys.recorded, p + 1, sys.sender.packetTop);
    CarriedAfterPacket(config, sys, p);
    CarriedIsFew(config, sys, p);
    MultiplyMonotone(later, config.sentPacketBufferSize - 1, batch);
    if low < high {
      CoveringSetIsLarge(carried, low, high);
    }
  }

  lemma CarriedIsFew<M>(config: Config, sys: System<M>, p: nat)
    requires Inv(config, sys) && p in sys.sender.ledger
    ensures 0 <= sys.sender.packetTop - (p + 1) <= config.sentPacketBufferSize - 1
    ensures |CarriedBetween(sys.recorded, p + 1, sys.sender.packetTop)|
            <= (sys.sender.packetTop - (p + 1)) * BatchLimit(config)
  {
    RecordsAreSmall(config, sys);
    CarriedBetweenIsSmall(sys.recorded, p + 1, sys.sender.packetTop, BatchLimit(config));
    TimesIsProduct(sys.sender.packetTop - (p + 1), BatchLimit(config));
  }

  lemma RecordsAreSmall<M>(config: Config, sys: System<M>)
    requires Inv(config, sys)
    ensures AllSmall(sys.recorded, BatchLimit(config))
  {
    assert forall n :: n in sys.recorded ==> RecordInv(config, sys, n);
  }

  lemma MultiplyMonotone(a: nat, b: nat, c: nat)
    requires a <= b
    ensures a * c <= b * c
  {
  }

  /** A late ack never finds a recycled id: the only queued message with the 16-bit id of a message of a live
      packet is that message itself. */
  lemma NoRecycledId<M>(config: Config, sys: System<M>, p: nat, k: int, k': int)
    requires Inv(config, sys) && IdsOutliveAcks(config)
    requires p in sys.sender.ledger && k in sys.recorded[p].ids
    requires k' in sys.sender.queue && Wrap(k') == Wrap(k)
    ensures k' == k
  {
    assert RecordInv(config, sys, p);
    if k < k' {
      WrapStep(k, k');
      FewMessagesSincePacket(config, sys, p);
    } else if k' < k {
      WrapStep(k', k);
    }
  }

  /** Removing one message of a processed live packet keeps the invariant. */
  lemma RemoveMessageInv<M>(config: Config, sys: System<M>, p: nat, k: int)
    requires Inv(config, sys) && IdsOutliveAcks(config)
    requires p in sys.sender.ledger && k in sys.recorded[p].ids && Has(sys.receiver, k)
    ensures Inv(config, sys.(sender := RemoveMessage(sys.sender, Wrap(k))))
  {
    RemoveMessageKeepsValid(config, sys.sender, Wrap(k));
    var k' := Below(sys.sender.next, Wrap(k));
    if k' in sys.sender.queue {
      NoRecycledId(config, sys, p, k, k');
    }
    assert Carried(sys.recorded, k);
    FewerQueuedInv(config, sys, sys.(sender := RemoveMessage(sys.sender, Wrap(k))), k);
  }

  /** A state with message `k` taken out of the send queue, or nothing. */
  lemma FewerQueuedInv<M>(config: Config, sys: System<M>, r: System<M>, k: int)
    requires Inv(config, sys) && Has(sys.receiver, k) && Carried(sys.recorded, k)
    requires r == sys.(sender := r.sender) && SenderValid(config, r.sender)
    requires r.sender == sys.sender.(queue := r.sender.queue, oldest := r.sender.oldest)
    requires sys.sender.oldest <= r.sender.oldest
    requires r.sender.queue == sys.sender.queue || r.sender.queue == sys.sender.queue - {k}
    ensures Inv(config, r)
  {
    assert RecordsInv(config, r) by {
      assert forall n :: n in sys.recorded ==> RecordInv(config, sys, n);
    }
    assert forall packet :: packet in sys.flight ==> PacketInv(sys, packet);
  }

  lemma {:induction false} RemoveMessagesInv<M>(config: Config, sys: System<M>, p: nat, ids: seq<int>)
    requires Inv(config, sys) && IdsOutliveAcks(config)
    requires p in sys.sender.ledger && forall k :: k in ids ==> k in sys.recorded[p].ids && Has(sys.receiver, k)
    ensures Inv(config, sys.(sender := RemoveMessages(sys.sender, WrapAll(ids))))
    decreases |ids|
  {
    if ids == [] {
      assert sys.(sender := RemoveMessages(sys.sender, WrapAll(ids))) == sys;
    } else {
      assert ids[0] in ids && forall k :: k in ids[1..] ==> k in ids;
      var first := sys.(sender := RemoveMessage(sys.sender, Wrap(ids[0])));
      RemoveMessageInv(config, sys, p, ids[0]);
      RemoveMessagesInv(config, first, p, ids[1..]);
      assert WrapAll(ids)[1..] == WrapAll(ids[1..]);
      assert first.(sender := RemoveMessages(first.sender, WrapAll(ids[1..])))
          == sys.(sender := RemoveMessages(sys.sender, WrapAll(ids)));
    }
  }

  /** The lookup finds the entry recorded for the packet, or none if there is none. */
  ghost predicate LookupIsRight<M>(s: Sender<M>, number: int) {
    var p := Below(s.packetTop, Wrap(number));
    if number in s.ledger then p == number else p !in s.ledger
  }

  /** An ack finds the entry of its own packet, or none, exactly when no other recorded packet has the same 16-bit
      number. */
  lemma AckFindsItsPacketIff<M>(config: Config, s: Sender<M>, number: int)
    requires config.Valid() && SenderValid(config, s)
    ensures LookupIsRight(s, number) <==> AckIsClear(s, number)
  {
    forall p | p in s.ledger && Wrap(p) == Wrap(number)
      ensures Below(s.packetTop, Wrap(number)) == p
    {
      BelowIsUnique(s.packetTop, p);
    }
  }

  lemma AckFindsItsPacket<M>(config: Config, s: Sender<M>, number: int)
    requires config.Valid() && SenderValid(config, s) && AckIsClear(s, number)
    ensures Below(s.packetTop, Wrap(number)) in s.ledger <==> number in s.ledger
    ensures number in s.ledger ==> Below(s.packetTop, Wrap(number)) == number
  {
    AckFindsItsPacketIff(config, s, number);
  }

  /** The numbers whose ack is clear whatever is recorded: those in the window of live entries, and those whose 16-bit
      form no number in the window has. */
  ghost predicate AckInRange<M>(config: Config, s: Sender<M>, number: int) {
    || s.packetTop - config.sentPacketBufferSize <= number < s.packetTop
    || Wrap(s.packetTop - 1 - number) >= config.sentPacketBufferSize
  }

  lemma AckRangeIsExact<M(!new)>(config: Config, s: Sender<M>, number: int)
    requires config.Valid() && SenderValid(config, s)
    ensures (forall ledger :: SenderValid(config, s.(ledger := ledger)) ==> AckIsClear(s.(ledger := ledger), number))
       <==> AckInRange(config, s, number)
  {
    BelowIsBehind(s.packetTop, number);
    var p := Below(s.packetTop, Wrap(number));
    if AckInRange(config, s, number) {
      forall ledger | SenderValid(config, s.(ledger := ledger))
        ensures AckIsClear(s.(ledger := ledger), number)
      {
        InWindowIsClear(config, s.(ledger := ledger), number);
      }
    } else {
      assert SenderValid(config, s.(ledger := map[p := SentPacket(true, [])]));
      assert p in map[p := SentPacket(true, [])] && Wrap(p) == Wrap(number) && p != number;
    }
  }

  lemma WindowHasOne(config: Config, top: int, number: int, q: int)
    requires config.Valid() && top - config.sentPacketBufferSize <= q < top && Wrap(q) == Wrap(number)
    requires top - config.sentPacketBufferSize <= number < top || Wrap(top - 1 - number) >= config.sentPacketBufferSize
    ensures q == number
  {
    if top - config.sentPacketBufferSize <= number < top {
      WrapUnique(q, number);
    } else {
      BelowIsUnique(top, q);
      BelowIsBehind(top, number);
    }
  }

  lemma InWindowIsClear<M>(config: Config, s: Sender<M>, number: int)
    requires config.Valid() && SenderValid(config, s) && AckInRange(config, s, number)
    ensures AckIsClear(s, number)
  {
    forall q | q in s.ledger && Wrap(q) == Wrap(number)
      ensures q == number
    {
      WindowHasOne(config, s.packetTop, number, q);
    }
  }

  /** A number not too far past the last one recorded is clear, and it is recorded if less than half the number space
      past it. In between, the packet is sent and not recorded. */
  lemma NearNumberIsClear<M>(config: Config, s: Sender<M>, number: int)
    requires config.Valid() && s.packetTop <= number
    ensures number + 1 - s.packetTop <= MODULUS - config.sentPacketBufferSize ==> NumberIsClear(config, s, number)
    ensures number + 1 - s.packetTop < HALF ==> Kept(s, number)
    ensures HALF < number + 1 - s.packetTop ==> !Kept(s, number)
  {
    if number + 1 - s.packetTop < HALF {
      InsertKeyIsTheNumberMeant(s.packetTop, number);
    } else if number + 1 - s.packetTop <= MODULUS - config.sentPacketBufferSize && !Kept(s, number) {
      FarNumberIsOld(s.packetTop, number);
    }
  }

  /** Half the number space or more ahead, a number that is not read as meant is read as one wrap behind. */
  lemma FarNumberIsOld(top: int, number: int)
    requires HALF <= number + 1 - top <= MODULUS && InsertKey(top, Wrap(number)) != number
    ensures InsertKey(top, Wrap(number)) == number - MODULUS
  {
    WrapStep(InsertKey(top, Wrap(number)), number);
    WrapUnique(number - MODULUS, InsertKey(top, Wrap(number)));
  }

  lemma AckInv<M>(config: Config, sys: System<M>, number: nat)
    requires Inv(config, sys) && IdsOutliveAcks(config) && Enabled(config, sys, Ack(number))
    ensures Inv(config, Apply(config, sys, Ack(number)))
  {
    AckFindsItsPacket(config, sys.sender, number);
    var s := sys.sender;
    var acked := sys.acked + {number};
    if number in s.ledger {
      var marked := sys.(sender := s.(ledger := s.ledger[number := s.ledger[number].(acked := true)]), acked := acked);
      MarkAckedInv(config, sys, number);
      assert RecordInv(config, sys, number);
      RemoveMessagesInv(config, marked, number, sys.recorded[number].ids);
    } else {
      AckUnrecordedInv(config, sys, acked);
    }
  }

  lemma MarkAckedInv<M>(config: Config, sys: System<M>, number: nat)
    requires Inv(config, sys) && number in sys.sender.ledger && number in sys.processed
    ensures var s := sys.sender;
            Inv(config, sys.(sender := s.(ledger := s.ledger[number := s.ledger[number].(acked := true)]),
                             acked := sys.acked + {number}))
  {
    assert forall n :: n in sys.recorded ==> RecordInv(config, sys, n);
    assert forall packet :: packet in sys.flight ==> PacketInv(sys, packet);
  }

  lemma AckUnrecordedInv<M>(config: Config, sys: System<M>, acked: set<nat>)
    requires Inv(config, sys) && sys.acked <= acked <= sys.processed
    ensures Inv(config, sys.(acked := acked))
  {
    assert forall n :: n in sys.recorded ==> RecordInv(config, sys, n);
    assert forall packet :: packet in sys.flight ==> PacketInv(sys, packet);
  }

  // ---- Runs ----------------------------------------------------------------------------------

  lemma TimeOrDropInv<M>(config: Config, sys: System<M>, action: Action<M>)
    requires Inv(config, sys) && Enabled(config, sys, action) && (action.Drop? || action.AdvanceTime?)
    ensures Inv(config, Apply(config, sys, action))
  {
    var r := Apply(config, sys, action);
    forall n | n in r.recorded
      ensures RecordInv(config, r, n)
    {
      assert RecordInv(config, sys, n);
    }
    forall packet | packet in r.flight
      ensures PacketInv(r, packet)
    {
      assert PacketInv(sys, packet);
    }
  }

  /** Every step keeps the invariant. */
  lemma StepInv<M>(config: Config, sys: System<M>, action: Action<M>)
    requires Inv(config, sys) && IdsOutliveAcks(config) && Enabled(config, sys, action)
    ensures Inv(config, Apply(config, sys, action))
  {
    match action
    case Send(message, measuredBits) => SendInv(config, sys, message, measuredBits);
    case Generate(availableBits) => GenerateInv(config, sys, availableBits);
    case Deliver(packet) => DeliverInv(config, sys, packet);
    case Drop(_) => TimeOrDropInv(config, sys, action);
    case Ack(number) => AckInv(config, sys, number);
    case Receive => ReceiveInv(config, sys);
    case AdvanceTime(_) => TimeOrDropInv(config, sys, action);
  }

  lemma {:induction false} RunInv<M>(config: Config, sys: System<M>, actions: seq<Action<M>>)
    requires Inv(config, sys) && IdsOutliveAcks(config) && Legal(config, sys, actions)
    ensures Inv(config, Run(config, sys, actions))
    decreases |actions|
  {
    if actions == [] {
    } else {
      StepInv(config, sys, actions[0]);
      RunInv(config, Apply(config, sys, actions[0]), actions[1..]);
    }
  }

  /** The states a run from the start can reach. */
  ghost predicate Reachable<M(!new)>(config: Config, sys: System<M>)
    requires config.Valid()
  {
    exists time: real, actions: seq<Action<M>> :: ReachedBy(config, time, actions, sys)
  }

  ghost predicate ReachedBy<M>(config: Config, time: real, actions: seq<Action<M>>, sys: System<M>)
    requires config.Valid()
  {
    Legal(config, Initial<M>(time), actions) && Run(config, Initial<M>(time), actions) == sys
  }

  lemma ReachableInv<M(!new)>(config: Config, sys: System<M>)
    requires config.Valid() && IdsOutliveAcks(config) && Reachable(config, sys)
    ensures Inv(config, sys)
  {
    var time, actions :| ReachedBy<M>(config, time, actions, sys);
    InitialInv<M>(config, time);
    RunInv(config, Initial<M>(time), actions);
  }

  // ---- What users are promised ---------------------------------------------------------------

  /** Exactly once and in order: what was delivered is a prefix of what was accepted. */
  lemma DeliveredIsPrefix<M(!new)>(config: Config, sys: System<M>)
    requires config.Valid() && IdsOutliveAcks(config) && Reachable(config, sys)
    ensures sys.delivered <= sys.accepted
  {
    ReachableInv(config, sys);
  }

  /** No loss: an accepted message that is not delivered is still in the send queue or waits at the receiver, as
      itself and not merely under its 16-bit id; a message leaves the send queue only when the receiver has it. */
  lemma NothingIsLost<M(!new)>(config: Config, sys: System<M>, k: int)
    requires config.Valid() && IdsOutliveAcks(config) && Reachable(config, sys)
    requires |sys.delivered| <= k < |sys.accepted|
    ensures || (k in sys.sender.queue && sys.sender.queue[k].message == sys.accepted[k])
            || (k in sys.receiver.pending && sys.receiver.pending[k] == sys.accepted[k])
  {
    ReachableInv(config, sys);
    assert k in sys.sender.queue || Has(sys.receiver, k);
  }

  /** The assertion that no packet is acked twice never fails. */
  lemma NoDoubleAck<M(!new)>(config: Config, sys: System<M>, number: nat)
    requires config.Valid() && IdsOutliveAcks(config) && Reachable(config, sys) && Enabled(config, sys, Ack(number))
    ensures !sys.ackPanicked && AckOutcome(sys.sender, Wrap(number)) != AlreadyAcked
  {
    ReachableInv(config, sys);
    AckFindsItsPacket(config, sys.sender, number);
  }

  /** What the two ends hold back between them is bounded by their queues. */
  lemma BufferingIsBounded<M(!new)>(config: Config, sys: System<M>)
    requires config.Valid() && IdsOutliveAcks(config) && Reachable(config, sys)
    ensures |sys.accepted| - |sys.delivered| <= config.messageSendQueueSize + config.messageReceiveQueueSize
    ensures forall k :: k in sys.receiver.pending ==>
              |sys.delivered| <= k < |sys.delivered| + config.messageReceiveQueueSize
  {
    ReachableInv(config, sys);
    OldestIsNearReceiver(config, sys);
  }

  /** A receiver that has delivered all it can before the next packet comes stores that packet. */
  lemma DrainedDeliveryIsStored<M>(config: Config, sys: System<M>, packet: Packet<M>)
    requires Inv(config, sys)
    requires NextMessage(sys.receiver) == None && Enabled(config, sys, Deliver(packet))
    ensures var r := Apply(config, sys, Deliver(packet));
            !r.desynced && packet.number in r.processed && forall k :: k in packet.ids ==> Has(r.receiver, k)
  {
    assert sys.receiver.next < sys.sender.oldest ==> Has(sys.receiver, sys.receiver.next);
    PacketIsReadable(config, sys, packet);
    ReceiveGenuine(config, sys.receiver, sys.accepted, packet.ids, packet.messages);
  }

  /** Order and repeats do not matter: two lists of genuine messages with the same ids, all in the window, leave
      the receiver in the same state. */
  lemma OrderAndRepeatsDoNotMatter<M>(
    config: Config, r: Receiver<M>, accepted: seq<M>,
    ids: seq<int>, messages: seq<(u16, M)>, ids': seq<int>, messages': seq<(u16, M)>)
    requires config.Valid() && ReceiverValid(config, r)
    requires forall k :: k in r.pending ==> k < |accepted| && r.pending[k] == accepted[k]
    requires Genuine(accepted, ids, messages) && Genuine(accepted, ids', messages')
    requires forall k :: k in ids <==> k in ids'
    requires forall k :: k in ids ==> r.next - HALF < k < r.next + config.messageReceiveQueueSize
    ensures ReceivePacket(config, r, messages) == ReceivePacket(config, r, messages')
  {
    assert forall i :: 0 <= i < |ids| ==> ids[i] in ids;
    assert forall i :: 0 <= i < |ids'| ==> ids'[i] in ids';
    ReceiveGenuine(config, r, accepted, ids, messages);
    ReceiveGenuine(config, r, accepted, ids', messages');
    assert Undelivered(accepted, ids, r.next) == Undelivered(accepted, ids', r.next);
  }

  /** Every delivery of the run finds a receiver that has delivered all it can. */
  ghost predicate DrainsBeforeDelivery<M>(config: Config, sys: System<M>, actions: seq<Action<M>>)
    requires config.Valid() && sys.sender.oldest <= sys.sender.next
    decreases |actions|
  {
    actions != [] ==>
      && (actions[0].Deliver? ==> NextMessage(sys.receiver) == None)
      && DrainsBeforeDelivery(config, Apply(config, sys, actions[0]), actions[1..])
  }

  /** So a receiver that always drains first never panics, in any run. */
  lemma {:induction false} DrainingRunNeverDesyncs<M>(config: Config, sys: System<M>, actions: seq<Action<M>>)
    requires Inv(config, sys) && IdsOutliveAcks(config) && !sys.desynced
    requires Legal(config, sys, actions) && DrainsBeforeDelivery(config, sys, actions)
    ensures !Run(config, sys, actions).desynced
    decreases |actions|
  {
    if actions == [] {
    } else {
      if actions[0].Deliver? {
        DrainedDeliveryIsStored(config, sys, actions[0].packet);
      }
      StepInv(config, sys, actions[0]);
      DrainingRunNeverDesyncs(config, Apply(config, sys, actions[0]), actions[1..]);
    }
  }
}
