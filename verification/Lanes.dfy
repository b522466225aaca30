/** One channel of a connection, seen from both ends, follows the protocol of a channel on its own. */
module Lanes {
  import opened Wrap16
  import opened Options
  import opened Configs
  import opened ReliableSpec
  import P = Protocol
  import U = UnreliableChannel
  import Codec

  // ---- Reliable ------------------------------------------------------------------------------

  /** A reliable channel in one direction: the sending half at one end, the receiving half at the other, and what
      the packets between them have for this channel. */
  datatype Lane<M(==)> = Lane(
    sender: Sender<M>,
    receiver: Receiver<M>,
    accepted: seq<M>,
    delivered: seq<M>,
    nextPacket: nat,
    packets: set<P.Packet<M>>,
    processed: set<nat>,
    acked: set<nat>)

  /** The lane is where the protocol run `shadow` is. A packet may be lost, or refused, on the connection only. */
  ghost predicate Follows<M>(config: Config, size: M -> nat, lane: Lane<M>, shadow: P.System<M>) {
    && P.Inv(config, shadow) && !shadow.desynced
    && lane.sender == shadow.sender && Measured(lane.sender, size)
    && lane.receiver == shadow.receiver
    && lane.accepted == shadow.accepted && lane.delivered == shadow.delivered
    && lane.nextPacket == shadow.nextPacket
    && lane.packets <= shadow.flight
    && lane.processed <= shadow.processed && lane.acked == shadow.acked
  }

  lemma SendFollows<M>(config: Config, size: M -> nat, lane: Lane<M>, shadow: P.System<M>, message: M)
    requires Follows(config, size, lane, shadow) && P.IdsOutliveAcks(config)
    requires CanSendMessage(config, lane.sender)
    ensures P.Enabled(config, shadow, P.Send(message, 8 * size(message)))
    ensures Follows(config, size,
                    lane.(sender := SendMessage(lane.sender, message, 8 * size(message)),
                          accepted := lane.accepted + [message]),
                    P.Apply(config, shadow, P.Send(message, 8 * size(message))))
  {
    P.StepInv(config, shadow, P.Send(message, 8 * size(message)));
  }

  lemma ReceiveFollows<M>(config: Config, size: M -> nat, lane: Lane<M>, shadow: P.System<M>)
    requires Follows(config, size, lane, shadow) && P.IdsOutliveAcks(config)
    requires NextMessage(lane.receiver).Some?
    ensures P.Enabled(config, shadow, P.Receive)
    ensures Follows(config, size,
                    lane.(receiver := Delivered(lane.receiver),
                          delivered := lane.delivered + [NextMessage(lane.receiver).value]),
                    P.Apply(config, shadow, P.Receive))
  {
    P.StepInv(config, shadow, P.Receive);
  }

  lemma AdvanceTimeFollows<M>(config: Config, size: M -> nat, lane: Lane<M>, shadow: P.System<M>, time: real)
    requires Follows(config, size, lane, shadow) && P.IdsOutliveAcks(config)
    ensures P.Enabled(config, shadow, P.AdvanceTime(time))
    ensures Follows(config, size, lane.(sender := lane.sender.(time := time)),
                    P.Apply(config, shadow, P.AdvanceTime(time)))
  {
    P.StepInv(config, shadow, P.AdvanceTime(time));
  }

  /** The lane's part of a packet, with `available` bits left when its turn comes. */
  ghost function PartOf<M>(config: Config, lane: Lane<M>, available: nat): P.Packet<M>
    requires config.Valid()
  {
    ChooseMessagesIsSound(config, lane.sender, available);
    var ids := ChooseMessages(config, lane.sender, available).ids;
    P.Packet(lane.nextPacket, ids, WireMessages(lane.sender, ids))
  }

  lemma GenerateFollows<M>(config: Config, size: M -> nat, lane: Lane<M>, shadow: P.System<M>, available: nat)
    requires Follows(config, size, lane, shadow) && P.IdsOutliveAcks(config)
    requires P.Enabled(config, shadow, P.Generate(available))
    ensures Follows(config, size,
                    lane.(sender := GeneratePacket(config, lane.sender, Wrap(lane.nextPacket), available),
                          nextPacket := lane.nextPacket + 1,
                          packets := lane.packets + {PartOf(config, lane, available)}),
                    P.Apply(config, shadow, P.Generate(available)))
  {
    P.StepInv(config, shadow, P.Generate(available));
    ChooseMessagesIsSound(config, lane.sender, available);
  }

  lemma DeliverFollows<M>(config: Config, size: M -> nat, lane: Lane<M>, shadow: P.System<M>, packet: P.Packet<M>)
    requires Follows(config, size, lane, shadow) && P.IdsOutliveAcks(config)
    requires packet in lane.packets && ReceivePacket(config, lane.receiver, packet.messages).ok
    requires forall k :: k in packet.ids ==> lane.receiver.next - HALF < k
    ensures P.Enabled(config, shadow, P.Deliver(packet))
    ensures Follows(config, size,
                    lane.(receiver := ReceivePacket(config, lane.receiver, packet.messages).receiver,
                          processed := lane.processed + {packet.number}),
                    P.Apply(config, shadow, P.Deliver(packet)))
  {
    P.StepInv(config, shadow, P.Deliver(packet));
  }

  /** A packet the channel took may still be refused by the connection, and then is not acked. */
  lemma FewerProcessedFollows<M>(
    config: Config, size: M -> nat, lane: Lane<M>, shadow: P.System<M>, packets: set<P.Packet<M>>, processed: set<nat>)
    requires Follows(config, size, lane, shadow)
    requires packets <= lane.packets && processed <= lane.processed
    ensures Follows(config, size, lane.(packets := packets, processed := processed), shadow)
  {
  }

  lemma AckFollows<M>(config: Config, size: M -> nat, lane: Lane<M>, shadow: P.System<M>, number: nat)
    requires Follows(config, size, lane, shadow) && P.IdsOutliveAcks(config)
    requires number in lane.processed && number !in lane.acked && P.AckIsClear(lane.sender, number)
    ensures P.Enabled(config, shadow, P.Ack(number))
    ensures lane.sender.oldest <= lane.sender.next
    ensures AckOutcome(lane.sender, Wrap(number)) != AlreadyAcked
    ensures Follows(config, size,
                    lane.(sender := ProcessAck(lane.sender, Wrap(number)), acked := lane.acked + {number}),
                    P.Apply(config, shadow, P.Ack(number)))
  {
    P.StepInv(config, shadow, P.Ack(number));
    P.AckFindsItsPacket(config, lane.sender, number);
    ProcessAckKeepsMeasured(lane.sender, size, Wrap(number));
  }

  /** One run of the protocol comes from the other by one step, or by none. */
  ghost predicate AtMostOneStep<M(!new)>(config: Config, shadow: P.System<M>, shadow': P.System<M>)
    requires config.Valid() && shadow.sender.oldest <= shadow.sender.next
  {
    shadow' == shadow
    || exists action: P.Action<M> :: P.Enabled(config, shadow, action) && P.Apply(config, shadow, action) == shadow'
  }

  // ---- Unreliable ----------------------------------------------------------------------------

  /** An unreliable channel in one direction. `labels` are the ids under which the user got the messages, `made` holds
      what every packet, under its number, has for the channel, and `arrivals` the numbers of the packets whose messages
      it was handed at the other end. */
  datatype Loose<M(==)> = Loose(
    sendQueue: seq<M>,
    receiveQueue: seq<(u16, M)>,
    accepted: seq<M>,
    received: seq<M>,
    labels: seq<u16>,
    made: seq<seq<M>>,
    arrivals: seq<nat>)

  /** Which accepted messages went into each packet, how many messages were kept of each that arrived, and how many of
      the accepted messages have left the send queue. */
  datatype Log = Log(batches: seq<seq<int>>, kept: seq<nat>, taken: nat)

  ghost predicate AllWithin(ids: seq<int>, low: int, high: int) {
    forall i :: 0 <= i < |ids| ==> low <= ids[i] < high
  }

  /** The accepted messages with these numbers. */
  ghost function Pick<M>(accepted: seq<M>, ids: seq<int>): (r: seq<M>)
    requires AllWithin(ids, 0, |accepted|)
    ensures |r| == |ids| && forall i :: 0 <= i < |ids| ==> r[i] == accepted[ids[i]]
  {
    seq(|ids|, i requires 0 <= i < |ids| => accepted[ids[i]])
  }

  /** Every message went into at most one packet, and packets take messages in the order they were sent. */
  ghost predicate InSendingOrder(batches: seq<seq<int>>, taken: nat) {
    && (forall i :: 0 <= i < |batches| ==> Increasing(batches[i]) && AllWithin(batches[i], 0, taken))
    && (forall i, j, a, b :: 0 <= i < j < |batches| && 0 <= a < |batches[i]| && 0 <= b < |batches[j]| ==>
          batches[i][a] < batches[j][b])
  }

  /** Each packet holds the accepted messages of its batch. */
  ghost predicate HoldBatches<M>(made: seq<seq<M>>, accepted: seq<M>, batches: seq<seq<int>>) {
    && |made| == |batches|
    && forall i :: 0 <= i < |made| ==>
         AllWithin(batches[i], 0, |accepted|) && made[i] == Pick(accepted, batches[i])
  }

  /** Of each packet that arrived, some messages at its front were kept. */
  ghost predicate KeepsFronts<T>(parts: seq<seq<T>>, arrivals: seq<nat>, kept: seq<nat>) {
    && |kept| == |arrivals|
    && forall j :: 0 <= j < |arrivals| ==> arrivals[j] < |parts| && kept[j] <= |parts[arrivals[j]]|
  }

  /** What was kept of the packets that arrived, one after the other. */
  ghost function Fronts<T>(parts: seq<seq<T>>, arrivals: seq<nat>, kept: seq<nat>): seq<T>
    requires KeepsFronts(parts, arrivals, kept)
    decreases |arrivals|
  {
    var n := |arrivals|;
    if n == 0 then []
    else Fronts(parts, arrivals[..n - 1], kept[..n - 1]) + parts[arrivals[n - 1]][..kept[n - 1]]
  }

  /** For each message kept, the 16-bit form of the number of its packet. */
  ghost function Numbers(arrivals: seq<nat>, kept: seq<nat>): seq<u16>
    requires |kept| == |arrivals|
    decreases |arrivals|
  {
    var n := |arrivals|;
    if n == 0 then []
    else Numbers(arrivals[..n - 1], kept[..n - 1]) + seq(kept[n - 1], _ => Wrap(arrivals[n - 1]))
  }

  /** What the user got, and what waits, are the fronts of the packets that arrived, each message under the number
      of its packet. */
  ghost predicate HonestBy<M>(config: Config, loose: Loose<M>, log: Log) {
    && |loose.sendQueue| <= config.messageSendQueueSize && |loose.receiveQueue| <= config.messageReceiveQueueSize
    && log.taken <= |loose.accepted| && loose.sendQueue == loose.accepted[log.taken..]
    && InSendingOrder(log.batches, log.taken) && HoldBatches(loose.made, loose.accepted, log.batches)
    && KeepsFronts(loose.made, loose.arrivals, log.kept)
    && loose.received + U.Contents(loose.receiveQueue) == Fronts(loose.made, loose.arrivals, log.kept)
    && |loose.labels| == |loose.received|
    && loose.labels + Codec.IdsOf(loose.receiveQueue) == Numbers(loose.arrivals, log.kept)
  }

  ghost predicate Honest<M>(config: Config, loose: Loose<M>) {
    exists log :: HonestBy(config, loose, log)
  }

  lemma NewIsHonest<M>(config: Config)
    ensures Honest<M>(config, Loose([], [], [], [], [], [], []))
  {
    assert HonestBy<M>(config, Loose([], [], [], [], [], [], []), Log([], [], 0));
  }

  lemma PickGrows<M>(accepted: seq<M>, message: M, made: seq<seq<M>>, batches: seq<seq<int>>)
    requires HoldBatches(made, accepted, batches)
    ensures HoldBatches(made, accepted + [message], batches)
  {
    forall i | 0 <= i < |made|
      ensures AllWithin(batches[i], 0, |accepted| + 1) && made[i] == Pick(accepted + [message], batches[i])
    {
      assert made[i] == Pick(accepted, batches[i]);
    }
  }

  lemma SendIsHonest<M>(config: Config, loose: Loose<M>, message: M)
    requires Honest(config, loose) && |loose.sendQueue| < config.messageSendQueueSize
    ensures Honest(config, loose.(sendQueue := loose.sendQueue + [message], accepted := loose.accepted + [message]))
  {
    var log :| HonestBy(config, loose, log);
    PickGrows(loose.accepted, message, loose.made, log.batches);
    assert HonestBy(config,
                    loose.(sendQueue := loose.sendQueue + [message], accepted := loose.accepted + [message]), log);
  }

  lemma ReceiveIsHonest<M>(config: Config, loose: Loose<M>)
    requires Honest(config, loose) && loose.receiveQueue != []
    ensures Honest(config, loose.(receiveQueue := loose.receiveQueue[1..],
                                  received := loose.received + [loose.receiveQueue[0].1],
                                  labels := loose.labels + [loose.receiveQueue[0].0]))
  {
    var log :| HonestBy(config, loose, log);
    var r := loose.(receiveQueue := loose.receiveQueue[1..], received := loose.received + [loose.receiveQueue[0].1],
                    labels := loose.labels + [loose.receiveQueue[0].0]);
    assert r.received + U.Contents(r.receiveQueue) == loose.received + U.Contents(loose.receiveQueue);
    assert r.labels + Codec.IdsOf(r.receiveQueue) == loose.labels + Codec.IdsOf(loose.receiveQueue);
    assert HonestBy(config, r, log);
  }

  /** What is sent are accepted messages, each once and in order. */
  lemma {:induction false} FillTakesInOrder<M>(
    maxMessages: nat, size: M -> nat, accepted: seq<M>, taken: nat, available: nat, used: nat, count: nat)
    returns (ids: seq<int>)
    requires taken <= |accepted|
    ensures var filling := U.Fill(maxMessages, size, accepted[taken..], available, used, count);
            && |filling.rest| <= |accepted| - taken && filling.rest == accepted[|accepted| - |filling.rest|..]
            && Increasing(ids) && AllWithin(ids, taken, |accepted| - |filling.rest|)
            && filling.sent == Pick(accepted, ids)
    decreases |accepted| - taken
  {
    var queue := accepted[taken..];
    if available < used + GIVE_UP_BITS || count == maxMessages || queue == [] {
      ids := [];
    } else {
      var bits := 8 * size(queue[0]);
      assert queue[1..] == accepted[taken + 1..];
      if used + bits > available {
        ids := FillTakesInOrder(maxMessages, size, accepted, taken + 1, available, used, count);
      } else {
        var later := FillTakesInOrder(maxMessages, size, accepted, taken + 1, available, used + bits, count + 1);
        ids := [taken] + later;
        PrependKeepsIncreasing(taken, later);
        assert Pick(accepted, ids) == [accepted[taken]] + Pick(accepted, later);
      }
    }
  }

  /** The same for a whole packet. */
  lemma FillPacketTakesInOrder<M>(config: Config, size: M -> nat, loose: Loose<M>, taken: nat, available: nat)
    returns (ids: seq<int>)
    requires taken <= |loose.accepted| && loose.sendQueue == loose.accepted[taken..]
    ensures var filling := U.FillPacket(config, size, loose.sendQueue, available);
            && |filling.rest| <= |loose.accepted| - taken
            && filling.rest == loose.accepted[|loose.accepted| - |filling.rest|..]
            && Increasing(ids) && AllWithin(ids, taken, |loose.accepted| - |filling.rest|)
            && filling.sent == Pick(loose.accepted, ids)
  {
    if loose.sendQueue == [] {
      ids := [];
    } else {
      ids := FillTakesInOrder(config.maxMessagesPerPacket, size, loose.accepted, taken, config.BitsFor(available),
                              MESSAGE_HEADER_BITS, 0);
    }
  }

  /** The fronts of packets that were made before do not depend on those made later. */
  lemma {:induction false} FrontsOfEarlier<T>(
    parts: seq<seq<T>>, more: seq<T>, arrivals: seq<nat>, kept: seq<nat>)
    requires KeepsFronts(parts, arrivals, kept)
    ensures KeepsFronts(parts + [more], arrivals, kept)
    ensures Fronts(parts + [more], arrivals, kept) == Fronts(parts, arrivals, kept)
    decreases |arrivals|
  {
    var n := |arrivals|;
    if n == 0 {
    } else {
      FrontsOfEarlier(parts, more, arrivals[..n - 1], kept[..n - 1]);
    }
  }

  /** A packet is made. */
  lemma GenerateIsHonest<M>(config: Config, size: M -> nat, loose: Loose<M>, available: nat)
    requires Honest(config, loose)
    ensures var filling := U.FillPacket(config, size, loose.sendQueue, available);
            Honest(config, loose.(sendQueue := filling.rest, made := loose.made + [filling.sent]))
  {
    var log :| HonestBy(config, loose, log);
    var filling := U.FillPacket(config, size, loose.sendQueue, available);
    var ids := FillPacketTakesInOrder(config, size, loose, log.taken, available);
    FrontsOfEarlier(loose.made, filling.sent, loose.arrivals, log.kept);
    OneMoreBatch(log.batches, log.taken, ids, |loose.accepted| - |filling.rest|);
    OneMoreHeld(loose.made, loose.accepted, log.batches, filling.sent, ids);
    assert HonestBy(config, loose.(sendQueue := filling.rest, made := loose.made + [filling.sent]),
                    Log(log.batches + [ids], log.kept, |loose.accepted| - |filling.rest|));
  }

  /** A later batch takes later messages. */
  lemma OneMoreBatch(batches: seq<seq<int>>, taken: nat, ids: seq<int>, taken': nat)
    requires InSendingOrder(batches, taken) && Increasing(ids) && AllWithin(ids, taken, taken') && taken <= taken'
    ensures InSendingOrder(batches + [ids], taken')
  {
    var more := batches + [ids];
    forall i, j, a, b | 0 <= i < j < |more| && 0 <= a < |more[i]| && 0 <= b < |more[j]|
      ensures more[i][a] < more[j][b]
    {
      assert more[i] == batches[i];
      if j == |batches| {
        assert batches[i][a] < taken;
      } else {
        assert more[j] == batches[j];
      }
    }
  }

  lemma OneMoreHeld<M>(made: seq<seq<M>>, accepted: seq<M>, batches: seq<seq<int>>, sent: seq<M>, ids: seq<int>)
    requires HoldBatches(made, accepted, batches)
    requires AllWithin(ids, 0, |accepted|) && sent == Pick(accepted, ids)
    ensures HoldBatches(made + [sent], accepted, batches + [ids])
  {
  }

  /** No packet is made, but messages that would never fit are gone. */
  lemma NothingMadeIsHonest<M>(config: Config, size: M -> nat, loose: Loose<M>, available: nat)
    requires Honest(config, loose)
    ensures Honest(config, loose.(sendQueue := U.FillPacket(config, size, loose.sendQueue, available).rest))
  {
    var log :| HonestBy(config, loose, log);
    var filling := U.FillPacket(config, size, loose.sendQueue, available);
    var ids := FillPacketTakesInOrder(config, size, loose, log.taken, available);
    assert HonestBy(config, loose.(sendQueue := filling.rest), log.(taken := |loose.accepted| - |filling.rest|));
  }

  /** Of a packet that arrives, the messages that the queue has room for are kept. */
  lemma FrontIsKept<M>(config: Config, queue: seq<(u16, M)>, part: seq<M>, number: u16) returns (n: nat)
    requires |queue| <= config.messageReceiveQueueSize
    ensures n <= |part|
    ensures U.Contents(U.Received(config, queue, part, number)) == U.Contents(queue) + part[..n]
    ensures Codec.IdsOf(U.Received(config, queue, part, number)) == Codec.IdsOf(queue) + seq(n, _ => number)
  {
    var room := config.messageReceiveQueueSize - |queue|;
    n := if |part| < room then |part| else room;
    U.ReceivedIsPrefix(config, queue, part, number);
    ContentsAppended(queue, part[..n], number);
  }

  lemma ContentsAppended<M>(queue: seq<(u16, M)>, part: seq<M>, number: u16)
    ensures U.Contents(queue + U.Numbered(part, number)) == U.Contents(queue) + part
    ensures Codec.IdsOf(queue + U.Numbered(part, number)) == Codec.IdsOf(queue) + seq(|part|, _ => number)
  {
  }

  lemma DeliverIsHonest<M>(config: Config, loose: Loose<M>, number: nat)
    requires Honest(config, loose) && number < |loose.made|
    ensures Honest(config, loose.(
                   receiveQueue := U.Received(config, loose.receiveQueue, loose.made[number], Wrap(number)),
                   arrivals := loose.arrivals + [number]))
  {
    var log :| HonestBy(config, loose, log);
    var n := FrontIsKept(config, loose.receiveQueue, loose.made[number], Wrap(number));
    var r := loose.(receiveQueue := U.Received(config, loose.receiveQueue, loose.made[number], Wrap(number)),
                    arrivals := loose.arrivals + [number]);
    DeliverBy(config, loose, log, number, n, r);
  }

  lemma Regroup<T>(a: seq<T>, b: seq<T>, c: seq<T>)
    ensures a + (b + c) == (a + b) + c
  {
  }

  lemma DeliverBy<M>(config: Config, loose: Loose<M>, log: Log, number: nat, n: nat, r: Loose<M>)
    requires HonestBy(config, loose, log) && number < |loose.made| && n <= |loose.made[number]|
    requires r == loose.(receiveQueue := r.receiveQueue, arrivals := loose.arrivals + [number])
    requires |r.receiveQueue| <= config.messageReceiveQueueSize
    requires U.Contents(r.receiveQueue) == U.Contents(loose.receiveQueue) + loose.made[number][..n]
    requires Codec.IdsOf(r.receiveQueue) == Codec.IdsOf(loose.receiveQueue) + seq(n, _ => Wrap(number))
    ensures HonestBy(config, r, log.(kept := log.kept + [n]))
  {
    OneMoreFront(loose.made, loose.arrivals, log.kept, number, n);
    Regroup(loose.received, U.Contents(loose.receiveQueue), loose.made[number][..n]);
    Regroup(loose.labels, Codec.IdsOf(loose.receiveQueue), seq(n, _ => Wrap(number)));
    assert r.labels + Codec.IdsOf(r.receiveQueue)
        == (loose.labels + Codec.IdsOf(loose.receiveQueue)) + seq(n, _ => Wrap(number));
  }

  lemma OneMoreFront<T>(parts: seq<seq<T>>, arrivals: seq<nat>, kept: seq<nat>, number: nat, n: nat)
    requires KeepsFronts(parts, arrivals, kept) && number < |parts| && n <= |parts[number]|
    ensures KeepsFronts(parts, arrivals + [number], kept + [n])
    ensures Fronts(parts, arrivals + [number], kept + [n]) == Fronts(parts, arrivals, kept) + parts[number][..n]
    ensures Numbers(arrivals + [number], kept + [n]) == Numbers(arrivals, kept) + seq(n, _ => Wrap(number))
  {
    var more, more' := arrivals + [number], kept + [n];
    assert more[..|arrivals|] == arrivals && more'[..|arrivals|] == kept;
  }

  // ---- Order and multiplicity ----------------------------------------------------------------

  ghost predicate Distinct<T>(s: seq<T>) {
    forall i, j :: 0 <= i < j < |s| ==> s[i] != s[j]
  }

  /** The messages that came out are the accepted ones with these numbers. */
  lemma {:induction false} FrontsArePicked<M>(
    made: seq<seq<M>>, accepted: seq<M>, batches: seq<seq<int>>, arrivals: seq<nat>, kept: seq<nat>)
    requires HoldBatches(made, accepted, batches) && KeepsFronts(made, arrivals, kept)
    ensures KeepsFronts(batches, arrivals, kept) && AllWithin(Fronts(batches, arrivals, kept), 0, |accepted|)
    ensures Fronts(made, arrivals, kept) == Pick(accepted, Fronts(batches, arrivals, kept))
    decreases |arrivals|
  {
    var n := |arrivals|;
    if n == 0 {
    } else {
      FrontsArePicked(made, accepted, batches, arrivals[..n - 1], kept[..n - 1]);
      PickFront(made, accepted, batches, arrivals[n - 1], kept[n - 1]);
      PickAppend(accepted, Fronts(batches, arrivals[..n - 1], kept[..n - 1]), batches[arrivals[n - 1]][..kept[n - 1]]);
    }
  }

  lemma PickFront<M>(made: seq<seq<M>>, accepted: seq<M>, batches: seq<seq<int>>, number: nat, n: nat)
    requires HoldBatches(made, accepted, batches) && number < |made| && n <= |made[number]|
    ensures n <= |batches[number]| && AllWithin(batches[number][..n], 0, |accepted|)
    ensures made[number][..n] == Pick(accepted, batches[number][..n])
  {
    assert made[number] == Pick(accepted, batches[number]);
  }

  lemma PickAppend<M>(accepted: seq<M>, ids: seq<int>, more: seq<int>)
    requires AllWithin(ids, 0, |accepted|) && AllWithin(more, 0, |accepted|)
    ensures AllWithin(ids + more, 0, |accepted|)
    ensures Pick(accepted, ids + more) == Pick(accepted, ids) + Pick(accepted, more)
  {
  }

  /** Where a message that came out came from. */
  lemma {:induction false} FrontsComeFrom(batches: seq<seq<int>>, arrivals: seq<nat>, kept: seq<nat>, i: nat)
    returns (j: nat, a: nat)
    requires KeepsFronts(batches, arrivals, kept) && i < |Fronts(batches, arrivals, kept)|
    ensures j < |arrivals| && a < |batches[arrivals[j]]|
    ensures batches[arrivals[j]][a] == Fronts(batches, arrivals, kept)[i]
    decreases |arrivals|
  {
    var n := |arrivals|;
    var before := Fronts(batches, arrivals[..n - 1], kept[..n - 1]);
    if i < |before| {
      j, a := FrontsComeFrom(batches, arrivals[..n - 1], kept[..n - 1], i);
    } else {
      j, a := n - 1, i - |before|;
    }
  }

  /** When no packet arrives twice, no message comes twice. */
  lemma {:induction false} NoMessageComesTwice(
    batches: seq<seq<int>>, taken: nat, arrivals: seq<nat>, kept: seq<nat>)
    requires InSendingOrder(batches, taken) && KeepsFronts(batches, arrivals, kept) && Distinct(arrivals)
    ensures Distinct(Fronts(batches, arrivals, kept))
    decreases |arrivals|
  {
    var n := |arrivals|;
    if n == 0 {
    } else {
      NoMessageComesTwice(batches, taken, arrivals[..n - 1], kept[..n - 1]);
      var before, last := Fronts(batches, arrivals[..n - 1], kept[..n - 1]), batches[arrivals[n - 1]][..kept[n - 1]];
      forall i, j | 0 <= i < |before| && 0 <= j < |last|
        ensures before[i] != last[j]
      {
        var m, a := FrontsComeFrom(batches, arrivals[..n - 1], kept[..n - 1], i);
        BatchesAreApart(batches, taken, arrivals[m], arrivals[n - 1], a, j);
      }
      assert Increasing(batches[arrivals[n - 1]]);
    }
  }

  lemma BatchesAreApart(batches: seq<seq<int>>, taken: nat, m: nat, n: nat, a: nat, b: nat)
    requires InSendingOrder(batches, taken) && m < |batches| && n < |batches| && m != n
    requires a < |batches[m]| && b < |batches[n]|
    ensures m < n ==> batches[m][a] < batches[n][b]
    ensures n < m ==> batches[n][b] < batches[m][a]
  {
  }

  ghost predicate Ascending(numbers: seq<nat>) {
    forall i, j :: 0 <= i < j < |numbers| ==> numbers[i] < numbers[j]
  }

  /** When packets arrive in the order they were made, messages come in the order they were sent. */
  lemma {:induction false} MessagesComeInOrder(
    batches: seq<seq<int>>, taken: nat, arrivals: seq<nat>, kept: seq<nat>)
    requires InSendingOrder(batches, taken) && KeepsFronts(batches, arrivals, kept) && Ascending(arrivals)
    ensures Increasing(Fronts(batches, arrivals, kept))
    decreases |arrivals|
  {
    var n := |arrivals|;
    if n == 0 {
    } else {
      MessagesComeInOrder(batches, taken, arrivals[..n - 1], kept[..n - 1]);
      var before, last := Fronts(batches, arrivals[..n - 1], kept[..n - 1]), batches[arrivals[n - 1]][..kept[n - 1]];
      forall i, j | 0 <= i < |before| && 0 <= j < |last|
        ensures before[i] < last[j]
      {
        var m, a := FrontsComeFrom(batches, arrivals[..n - 1], kept[..n - 1], i);
        BatchesAreApart(batches, taken, arrivals[m], arrivals[n - 1], a, j);
      }
      assert Increasing(batches[arrivals[n - 1]]);
    }
  }
}
