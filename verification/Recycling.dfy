/** The bound on recycled ids is exact: a connection that breaks it has a run that loses a message.

    The run is one of two connections, with messages of one size and packets in one buffer. It keeps one packet that
    carried message 0 unacked while it sends and acks as many messages as the packets that can follow a live one will
    hold. When 65536 messages have been sent, the late ack of that packet takes message 65536 out of the send queue,
    which has the same 16-bit id and was never received. */
module Recycling {
  import opened Wrap16
  import opened Options
  import opened SequenceBuffers
  import opened Configs
  import opened Codec
  import opened ReliableSpec
  import opened ConnectionSpec
  import opened PacketBudget
  import opened Protocol
  import opened Mirror
  import opened Batches
  import C = ChannelSpec
  import G = Guarantees
  import N = ConnectionProtocol

  /** What the run sends: copies of one message on the channel in view, as many as `batch` in a packet. */
  datatype Traffic<!M(==)> = Traffic(view: View<M>, message: M, batch: nat, start: real) {
    ghost predicate Valid() {
      && view.Valid() && BatchFits(Config(), Cost(), view.bytes, batch)
      && 0.0 <= start && Config().messageResendTime - 1.0 <= start
    }

    ghost function Config(): Config
      requires view.setup.Reliable(view.c)
    {
      view.setup.configs[view.c]
    }

    ghost function MeasuredBits(): nat {
      8 * view.setup.Size()(message)
    }

    ghost function Cost(): nat {
      MeasuredBits() + MESSAGE_ID_BITS
    }

    /** What a full packet leaves for the other channels. */
    ghost function Left(): nat {
      var taken := MESSAGE_HEADER_BITS + Times(batch, Cost()) + CHANNEL_HEADER_BITS;
      if taken <= BufferRoom(view.bytes) then BufferRoom(view.bytes) - taken else 0
    }

    /** The other channels put nothing into a packet at this time. */
    ghost predicate Quiet(time: real)
      requires view.Valid()
    {
      OthersPassive(view, time, Left())
    }

    /** The other channels have nothing queued and nothing recorded. */
    ghost predicate Alone()
      requires view.Valid()
    {
      forall i: nat :: i < |view.setup.configs| && i != view.c ==> Idle(view.frame[i].processor)
    }
  }

  /** A channel that has nothing to send and no packet recorded. */
  ghost predicate Idle<M>(p: C.Processor<M>) {
    match p
    case ReliableState(sender, _) => !HasMessagesToSend(sender) && sender.ledger == map[]
    case UnreliableState(sendQueue, _) => sendQueue == []
  }

  lemma AloneIsQuiet<M>(t: Traffic<M>, time: real, number: nat)
    requires t.view.Valid() && t.Alone()
    ensures t.Quiet(time) && OthersClear(t.view, number)
  {
    forall i: nat | i < |t.view.setup.configs| && i != t.view.c
      ensures Passive(t.view.setup.configs[i], Framed(t.view, i, time), t.Left())
    {
      assert Idle(t.view.frame[i].processor);
    }
    forall i: nat | t.view.setup.Reliable(i) && i != t.view.c
      ensures t.view.frame[i].processor.sender.ledger == map[]
    {
      assert Idle(t.view.frame[i].processor);
    }
  }

  // ---- Choosing a run of messages ------------------------------------------------------------

  ghost function Range(low: int, n: nat): (r: seq<int>)
    ensures |r| == n && forall i :: 0 <= i < n ==> r[i] == low + i
    ensures forall k :: k in r <==> low <= k < low + n
  {
    var r := seq(n, i requires 0 <= i < n => low + i);
    assert forall k :: low <= k < low + n ==> k in r by {
      forall k | low <= k < low + n
        ensures k in r
      {
        assert r[k - low] == k;
      }
    }
    r
  }

  /** The due messages from offset `i` on are exactly the `n` from `low`, all of one size. */
  ghost predicate DueRun<M>(config: Config, s: Sender<M>, i: nat, low: int, n: nat, measuredBits: nat) {
    && s.oldest + i <= low && low + n <= s.oldest + config.MessageLimit()
    && (forall k :: low <= k < low + n ==> k in s.queue && Due(config, s, k) && s.queue[k].measuredBits == measuredBits)
    && (forall k :: k in s.queue && s.oldest + i <= k && Due(config, s, k) ==> low <= k < low + n)
  }

  lemma {:induction false} SelectDueRun<M>(
    config: Config, s: Sender<M>, available: nat, i: nat, used: nat, count: nat, low: int, n: nat, measuredBits: nat)
    requires DueRun(config, s, i, low, n, measuredBits) && count + n <= config.maxMessagesPerPacket
    requires used + Times(n, measuredBits + MESSAGE_ID_BITS) <= available
    requires n > 0 ==> used + Times(n - 1, measuredBits + MESSAGE_ID_BITS) + GIVE_UP_BITS <= available
    ensures Select(config, s, available, i, used, count)
         == Selection(Range(low, n), used + Times(n, measuredBits + MESSAGE_ID_BITS))
    decreases config.MessageLimit() - i
  {
    var cost := measuredBits + MESSAGE_ID_BITS;
    if n == 0 {
      SelectNothingDue(config, s, available, i, used, count);
      assert Range(low, n) == [];
    } else if s.oldest + i == low {
      SelectDueRun(config, s, available, i + 1, used + cost, count + 1, low + 1, n - 1, measuredBits);
      assert Range(low, n) == [low] + Range(low + 1, n - 1);
    } else {
      SelectDueRun(config, s, available, i + 1, used, count, low, n, measuredBits);
    }
  }

  /** A packet carries exactly the run of due messages, and leaves bits for the others. */
  lemma ChooseDueRun<M(!new)>(t: Traffic<M>, s: Sender<M>, low: int, n: nat)
    requires t.Valid() && HasMessagesToSend(s) && 1 <= n <= t.batch
    requires DueRun(t.Config(), s, 0, low, n, t.MeasuredBits())
    ensures ChooseMessages(t.Config(), s, BufferRoom(t.view.bytes)).ids == Range(low, n)
    ensures LeavesBits(t.view, s, t.Left())
  {
    var config := t.Config();
    FewerFit(config, t.Cost(), t.view.bytes, n, t.batch);
    SelectDueRun(config, s, config.BitsFor(BufferRoom(t.view.bytes)), 0, MESSAGE_HEADER_BITS, 0, low, n,
                 t.MeasuredBits());
  }

  // ---- Stretches of a run --------------------------------------------------------------------

  /** The protocol gets from `sys` to `r` in steps that a connection can take. */
  ghost predicate Reaches<M(!new)>(t: Traffic<M>, sys: System<M>, run: seq<Action<M>>, r: System<M>)
    requires t.Valid() && sys.sender.oldest <= sys.sender.next
  {
    Gets(t.view, sys, run, r)
  }

  lemma ReachesFurther<M(!new)>(
    t: Traffic<M>, sys: System<M>, first: seq<Action<M>>, mid: System<M>, second: seq<Action<M>>, r: System<M>)
    requires t.Valid() && sys.sender.oldest <= sys.sender.next && mid.sender.oldest <= mid.sender.next
    requires Reaches(t, sys, first, mid) && Reaches(t, mid, second, r)
    ensures Reaches(t, sys, first + second, r)
  {
    GetsFurther(t.view, sys, first, mid, second, r);
  }

  lemma ReachesByOne<M(!new)>(t: Traffic<M>, sys: System<M>, action: Action<M>)
    requires t.Valid() && sys.sender.oldest <= sys.sender.next && Feasible(t.view, sys, action)
    ensures Reaches(t, sys, [action], Apply(t.Config(), sys, action))
  {
    GetsByOne(t.view, sys, action);
  }

  /** All messages are copies of the one that is sent, the next packet is recorded, and new messages are due. */
  ghost predicate Tidy<M>(t: Traffic<M>, sys: System<M>) {
    && t.Valid()
    && SenderValid(t.Config(), sys.sender) && ReceiverValid(t.Config(), sys.receiver)
    && sys.sender.packetTop <= sys.nextPacket && sys.nextPacket + 1 - sys.sender.packetTop < HALF
    && sys.sender.next == |sys.accepted| && sys.receiver.next == |sys.delivered|
    && (forall k :: k in sys.sender.queue ==>
          sys.sender.queue[k].message == sys.accepted[k] && sys.sender.queue[k].measuredBits == t.MeasuredBits())
    && (forall k :: k in sys.receiver.pending ==> k < |sys.accepted| && sys.receiver.pending[k] == sys.accepted[k])
    && (forall n :: n in sys.processed ==> n < sys.nextPacket)
    && (forall p :: p in sys.sender.ledger ==> p >= 0)
    && sys.acked <= sys.processed
    && t.Config().messageResendTime - 1.0 <= sys.sender.time && t.Quiet(sys.sender.time)
  }

  ghost function NewEntries<M>(t: Traffic<M>, low: int, n: nat): map<int, SendEntry<M>> {
    map k | low <= k < low + n :: SendEntry(Wrap(k), t.message, t.MeasuredBits(), -1.0)
  }

  /** What sending `n` messages leaves behind. */
  ghost predicate Sent<M>(t: Traffic<M>, sys: System<M>, n: nat, r: System<M>) {
    && r == sys.(sender := r.sender, accepted := r.accepted)
    && r.sender == sys.sender.(queue := r.sender.queue, next := sys.sender.next + n)
    && r.sender.queue == sys.sender.queue + NewEntries(t, sys.sender.next, n)
  }

  lemma SendOneIsTidy<M>(t: Traffic<M>, sys: System<M>, r: System<M>)
    requires Tidy(t, sys) && CanSendMessage(t.Config(), sys.sender)
    requires r == sys.(sender := SendMessage(sys.sender, t.message, t.MeasuredBits()),
                       accepted := sys.accepted + [t.message])
    ensures Tidy(t, r) && Sent(t, sys, 1, r)
  {
    SendMessageKeepsValid(t.Config(), sys.sender, t.message, t.MeasuredBits());
    assert NewEntries(t, sys.sender.next, 1)
        == map[sys.sender.next := SendEntry(Wrap(sys.sender.next), t.message, t.MeasuredBits(), -1.0)];
  }

  lemma SendOne<M(!new)>(t: Traffic<M>, sys: System<M>) returns (r: System<M>, run: seq<Action<M>>)
    requires Tidy(t, sys) && sys.sender.next < sys.sender.oldest + t.Config().messageSendQueueSize
    ensures Tidy(t, r) && Reaches(t, sys, run, r) && Sent(t, sys, 1, r)
  {
    CanSendMessageIff(t.Config(), sys.sender);
    run := [Send(t.message, t.MeasuredBits())];
    ReachesByOne(t, sys, run[0]);
    r := Apply(t.Config(), sys, run[0]);
    SendOneIsTidy(t, sys, r);
  }

  lemma SendOneMore<M(!new)>(t: Traffic<M>, sys: System<M>, n: nat, mid: System<M>, run: seq<Action<M>>)
    returns (r: System<M>, run': seq<Action<M>>)
    requires Tidy(t, sys) && sys.sender.next + n < sys.sender.oldest + t.Config().messageSendQueueSize
    requires Tidy(t, mid) && Reaches(t, sys, run, mid) && Sent(t, sys, n, mid)
    ensures Tidy(t, r) && Reaches(t, sys, run', r) && Sent(t, sys, n + 1, r)
  {
    var step;
    r, step := SendOne(t, mid);
    ReachesFurther(t, sys, run, mid, step, r);
    SentOneMore(t, sys, n, mid, r);
    run' := run + step;
  }

  lemma SendMany<M(!new)>(t: Traffic<M>, sys: System<M>, n: nat) returns (r: System<M>, run: seq<Action<M>>)
    requires Tidy(t, sys) && sys.sender.next + n <= sys.sender.oldest + t.Config().messageSendQueueSize
    ensures Tidy(t, r) && Reaches(t, sys, run, r) && Sent(t, sys, n, r)
  {
    r, run := sys, [];
    SentNone(t, sys);
    for i := 0 to n
      invariant Tidy(t, r) && Reaches(t, sys, run, r) && Sent(t, sys, i, r)
    {
      r, run := SendOneMore(t, sys, i, r, run);
    }
  }

  lemma SentNone<M>(t: Traffic<M>, sys: System<M>)
    ensures Sent(t, sys, 0, sys)
  {
    assert sys.sender.queue + NewEntries(t, sys.sender.next, 0) == sys.sender.queue;
  }

  lemma SentOneMore<M>(t: Traffic<M>, sys: System<M>, n: nat, mid: System<M>, r: System<M>)
    requires Sent(t, sys, n, mid) && Sent(t, mid, 1, r)
    ensures Sent(t, sys, n + 1, r)
  {
    NewEntriesSplit(t, sys.sender.queue, sys.sender.next, n);
  }

  lemma NewEntriesSplit<M>(t: Traffic<M>, queue: map<int, SendEntry<M>>, low: int, n: nat)
    ensures (queue + NewEntries(t, low, n)) + NewEntries(t, low + n, 1) == queue + NewEntries(t, low, n + 1)
  {
    var left, right := (queue + NewEntries(t, low, n)) + NewEntries(t, low + n, 1), queue + NewEntries(t, low, n + 1);
    assert left.Keys == right.Keys;
    assert forall k :: k in right ==> left[k] == right[k];
  }

  /** What a packet with messages `ids` leaves behind when it is generated and delivered. */
  ghost predicate Transmitted<M>(config: Config, sys: System<M>, ids: seq<int>, r: System<M>)
    requires forall k :: k in ids ==> 0 <= k < |sys.accepted|
  {
    var n := sys.nextPacket;
    && r.accepted == sys.accepted && r.delivered == sys.delivered
    && r.nextPacket == n + 1 && r.processed == sys.processed + {n} && r.acked == sys.acked
    && r.receiver == sys.receiver.(pending := sys.receiver.pending + Undelivered(sys.accepted, ids, sys.receiver.next))
    && r.sender.oldest == sys.sender.oldest && r.sender.next == sys.sender.next && r.sender.time == sys.sender.time
    && r.sender.queue == Stamp(sys.sender, ids).queue
    && (n in r.sender.ledger && r.sender.ledger[n] == SentPacket(false, WrapAll(ids)))
    && (forall p :: p in sys.sender.ledger && n + 1 - config.sentPacketBufferSize <= p ==>
          p in r.sender.ledger && r.sender.ledger[p] == sys.sender.ledger[p])
  }

  /** Recording the next packet number puts it on top of the ring. */
  lemma RecordedAtTop<M>(t: Traffic<M>, sys: System<M>, ids: seq<int>)
    requires Tidy(t, sys)
    ensures var s := Stamp(sys.sender, ids);
            var r := RecordPacket(t.Config(), s, Wrap(sys.nextPacket), ids);
            && r.packetTop == sys.nextPacket + 1
            && r == s.(packetTop := r.packetTop, ledger := r.ledger)
            && sys.nextPacket in r.ledger && r.ledger[sys.nextPacket] == SentPacket(false, WrapAll(ids))
            && (forall p :: p in r.ledger ==> p >= 0)
            && (forall p :: p in sys.sender.ledger && sys.nextPacket + 1 - t.Config().sentPacketBufferSize <= p ==>
                  p in r.ledger && r.ledger[p] == sys.sender.ledger[p])
  {
    InsertKeyIsTheNumberMeant(sys.sender.packetTop, sys.nextPacket);
  }

  /** A packet with the run of due messages is generated. */
  lemma GenerateDueRun<M(!new)>(t: Traffic<M>, sys: System<M>, low: int, n: nat)
    returns (r: System<M>, packet: Packet<M>, run: seq<Action<M>>)
    requires Tidy(t, sys) && 1 <= n <= t.batch
    requires DueRun(t.Config(), sys.sender, 0, low, n, t.MeasuredBits())
    ensures Reaches(t, sys, run, r) && SenderValid(t.Config(), r.sender)
    ensures forall k :: k in Range(low, n) ==> k in sys.sender.queue
    ensures r == sys.(sender := r.sender, nextPacket := sys.nextPacket + 1, flight := sys.flight + {packet},
                      recorded := r.recorded)
    ensures packet == Packet(sys.nextPacket, Range(low, n), WireMessages(sys.sender, Range(low, n)))
    ensures r.sender == RecordPacket(t.Config(), Stamp(sys.sender, Range(low, n)), Wrap(sys.nextPacket), Range(low, n))
  {
    var config, room := t.Config(), BufferRoom(t.view.bytes);
    assert low in sys.sender.queue;
    ChooseDueRun(t, sys.sender, low, n);
    NearNumberIsClear(config, sys.sender, sys.nextPacket);
    assert MaySend(t.view, sys.sender, sys.nextPacket, t.Left());
    GeneratePacketKeepsValid(config, sys.sender, Wrap(sys.nextPacket), room);
    GenerateInProtocol(config, sys, room, Range(low, n));
    run := [Generate(room)];
    ReachesByOne(t, sys, run[0]);
    r := Apply(config, sys, run[0]);
    packet := Packet(sys.nextPacket, Range(low, n), WireMessages(sys.sender, Range(low, n)));
  }

  lemma DeliverGenuine<M(!new)>(t: Traffic<M>, sys: System<M>, packet: Packet<M>)
    returns (r: System<M>, run: seq<Action<M>>)
    requires t.Valid() && sys.sender.oldest <= sys.sender.next
    requires ReceiverValid(t.Config(), sys.receiver) && packet in sys.flight
    requires Genuine(sys.accepted, packet.ids, packet.messages)
    requires forall k :: k in sys.receiver.pending ==> k < |sys.accepted| && sys.receiver.pending[k] == sys.accepted[k]
    requires forall k :: k in packet.ids ==>
               sys.receiver.next - HALF < k < sys.receiver.next + t.Config().messageReceiveQueueSize
    ensures Reaches(t, sys, run, r) && ReceiverValid(t.Config(), r.receiver)
    ensures forall k :: k in packet.ids ==> 0 <= k < |sys.accepted|
    ensures r == sys.(
                   receiver := sys.receiver.(
                     pending := sys.receiver.pending + Undelivered(sys.accepted, packet.ids, sys.receiver.next)),
                   processed := sys.processed + {packet.number}, desynced := false)
  {
    assert forall i :: 0 <= i < |packet.ids| ==> packet.ids[i] in packet.ids;
    ReceiveGenuine(t.Config(), sys.receiver, sys.accepted, packet.ids, packet.messages);
    run := [Deliver(packet)];
    ReachesByOne(t, sys, run[0]);
    r := Apply(t.Config(), sys, run[0]);
  }

  /** A packet with the run of due messages gets through. */
  lemma Transmit<M(!new)>(t: Traffic<M>, sys: System<M>, low: int, n: nat) returns (r: System<M>, run: seq<Action<M>>)
    requires Tidy(t, sys) && 1 <= n <= t.batch
    requires DueRun(t.Config(), sys.sender, 0, low, n, t.MeasuredBits())
    requires sys.receiver.next - HALF < low && low + n <= sys.receiver.next + t.Config().messageReceiveQueueSize
    ensures forall k :: k in Range(low, n) ==> 0 <= k < |sys.accepted|
    ensures Tidy(t, r) && Reaches(t, sys, run, r) && Transmitted(t.Config(), sys, Range(low, n), r)
  {
    var sent, packet, first := GenerateDueRun(t, sys, low, n);
    assert packet in sent.flight;
    var second;
    r, second := DeliverGenuine(t, sent, packet);
    run := first + second;
    ReachesFurther(t, sys, first, sent, second, r);
    RecordedAtTop(t, sys, Range(low, n));
    TransmitIsTidy(t, sys, Range(low, n), sent, r);
  }

  lemma TransmitIsTidy<M>(t: Traffic<M>, sys: System<M>, ids: seq<int>, sent: System<M>, r: System<M>)
    requires Tidy(t, sys) && forall k :: k in ids ==> 0 <= k < |sys.accepted|
    requires SenderValid(t.Config(), sent.sender) && ReceiverValid(t.Config(), r.receiver)
    requires sent.sender == RecordPacket(t.Config(), Stamp(sys.sender, ids), Wrap(sys.nextPacket), ids)
    requires r == sys.(sender := sent.sender, nextPacket := sys.nextPacket + 1, flight := r.flight,
                       recorded := r.recorded,
                       receiver := sys.receiver.(
                         pending := sys.receiver.pending + Undelivered(sys.accepted, ids, sys.receiver.next)),
                       processed := sys.processed + {sys.nextPacket}, desynced := r.desynced)
    ensures Tidy(t, r) && Transmitted(t.Config(), sys, ids, r)
  {
    RecordedAtTop(t, sys, ids);
  }

  /** Deliver the first of an unbroken run. */
  lemma ReceiveNext<M(!new)>(t: Traffic<M>, sys: System<M>, n: nat) returns (one: System<M>)
    requires Tidy(t, sys) && 0 < n && sys.receiver.next + n <= |sys.accepted|
    requires forall k :: k in sys.receiver.pending <==> sys.receiver.next <= k < sys.receiver.next + n
    ensures Tidy(t, one) && Reaches(t, sys, [Receive], one)
    ensures one == sys.(receiver := one.receiver, delivered := one.delivered)
    ensures one.receiver.next == sys.receiver.next + 1
    ensures forall k :: k in one.receiver.pending <==> sys.receiver.next + 1 <= k < sys.receiver.next + n
  {
    one := Apply(t.Config(), sys, Receive);
    ReachesByOne(t, sys, Receive);
  }

  /** Deliver everything that is pending, when it is an unbroken run. */
  lemma {:induction false} ReceiveAll<M(!new)>(t: Traffic<M>, sys: System<M>, n: nat)
    returns (r: System<M>, run: seq<Action<M>>)
    requires Tidy(t, sys) && sys.receiver.next + n <= |sys.accepted|
    requires forall k :: k in sys.receiver.pending <==> sys.receiver.next <= k < sys.receiver.next + n
    ensures Tidy(t, r) && Reaches(t, sys, run, r)
    ensures r == sys.(receiver := Receiver(sys.receiver.next + n, map[]), delivered := r.delivered)
    decreases n
  {
    if n == 0 {
      assert forall k :: k !in sys.receiver.pending;
      assert sys.receiver.pending == map[];
      r, run := sys, [];
    } else {
      var one := ReceiveNext(t, sys, n);
      var second;
      r, second := ReceiveAll(t, one, n - 1);
      run := [Receive] + second;
      ReachesFurther(t, sys, [Receive], one, second, r);
    }
  }

  /** Ack a packet whose ids stand for messages of the last number space. */
  lemma AckExactly<M(!new)>(t: Traffic<M>, sys: System<M>, number: nat, ids: seq<int>)
    returns (r: System<M>, run: seq<Action<M>>)
    requires Tidy(t, sys) && number in sys.processed && number !in sys.acked && OthersClear(t.view, number)
    requires number in sys.sender.ledger && sys.sender.ledger[number] == SentPacket(false, WrapAll(ids))
    requires forall k :: k in ids ==> sys.sender.next - MODULUS <= k < sys.sender.next
    ensures Tidy(t, r) && Reaches(t, sys, run, r)
    ensures r == sys.(sender := r.sender, acked := sys.acked + {number}, ackPanicked := false)
    ensures r.sender.queue == sys.sender.queue - Elements(ids)
    ensures r.sender == sys.sender.(queue := r.sender.queue, oldest := r.sender.oldest, ledger := r.sender.ledger)
    ensures number in r.sender.ledger && r.sender.ledger[number].acked
    ensures forall p :: p in sys.sender.ledger && p != number ==>
              p in r.sender.ledger && r.sender.ledger[p] == sys.sender.ledger[p]
  {
    var s := sys.sender;
    InWindowIsClear(t.Config(), s, number);
    AckFindsItsPacket(t.Config(), s, number);
    ProcessAckKeepsValid(t.Config(), s, Wrap(number));
    RemoveMessagesExactly(s.(ledger := s.ledger[number := s.ledger[number].(acked := true)]), ids);
    run := [Ack(number)];
    ReachesByOne(t, sys, run[0]);
    r := Apply(t.Config(), sys, run[0]);
  }

  /** The clock is set. */
  lemma SetClock<M(!new)>(t: Traffic<M>, sys: System<M>, time: real) returns (r: System<M>, run: seq<Action<M>>)
    requires Tidy(t, sys) && t.Alone() && t.Config().messageResendTime - 1.0 <= time
    ensures Tidy(t, r) && Reaches(t, sys, run, r)
    ensures r == sys.(sender := sys.sender.(time := time))
  {
    AloneIsQuiet(t, time, 0);
    run := [AdvanceTime(time)];
    ReachesByOne(t, sys, run[0]);
    r := Apply(t.Config(), sys, run[0]);
  }

  // ---- The run that loses a message ----------------------------------------------------------

  /** The receiver has delivered everything accepted so far. */
  ghost predicate CaughtUp<M>(sys: System<M>) {
    sys.receiver == Receiver(sys.sender.next, map[])
  }

  /** The only queued message is message 0, which was sent before. */
  ghost predicate OnlyZero<M>(s: Sender<M>) {
    s.oldest == 0 < s.next && s.queue.Keys == {0} && s.queue[0].timeLastSent >= 0.0
  }

  /** And it is not due now. */
  ghost predicate HoldsZero<M>(config: Config, s: Sender<M>) {
    OnlyZero(s) && !Due(config, s, 0)
  }

  /** The `n` messages sent after `sys` have arrived in one packet. */
  ghost predicate LastArrived<M>(config: Config, sys: System<M>, n: nat, r: System<M>) {
    && LastSent(config, sys, n, r)
    && r.sender.next == |r.accepted|
    && r.receiver.next == sys.sender.next
    && (forall k :: k in r.receiver.pending <==> sys.sender.next <= k < sys.sender.next + n)
  }

  /** The `n` messages sent after `sys` were carried by the next packet, which was processed and is not acked. */
  ghost predicate LastSent<M>(config: Config, sys: System<M>, n: nat, r: System<M>) {
    && r.sender.next == sys.sender.next + n && r.sender.time == sys.sender.time
    && r.sender.queue.Keys == sys.sender.queue.Keys + Elements(Range(sys.sender.next, n))
    && (forall k :: k in sys.sender.queue ==> r.sender.queue[k] == sys.sender.queue[k])
    && (forall k :: k in r.sender.queue && sys.sender.next <= k ==> r.sender.queue[k].timeLastSent == r.sender.time)
    && r.nextPacket == sys.nextPacket + 1
    && r.processed == sys.processed + {sys.nextPacket} && r.acked == sys.acked
    && sys.nextPacket in r.sender.ledger
    && r.sender.ledger[sys.nextPacket] == SentPacket(false, WrapAll(Range(sys.sender.next, n)))
    && KeepsLedger(config, sys, r)
  }

  /** The recorded packets that are still live are recorded as before. */
  ghost predicate KeepsLedger<M>(config: Config, sys: System<M>, r: System<M>) {
    forall p :: p in sys.sender.ledger && r.nextPacket - config.sentPacketBufferSize <= p < sys.nextPacket ==>
      p in r.sender.ledger && r.sender.ledger[p] == sys.sender.ledger[p]
  }

  /** Room for `n` more messages, when nothing but message 0 may be queued. */
  ghost predicate MayCycle<M>(t: Traffic<M>, sys: System<M>, n: nat) {
    && Tidy(t, sys) && CaughtUp(sys) && (sys.sender.queue == map[] || HoldsZero(t.Config(), sys.sender))
    && 1 <= n <= t.batch && sys.sender.next + n <= sys.sender.oldest + t.Config().MessageLimit()
  }

  /** The messages just queued are due, and message 0 is not. */
  lemma LastAreDue<M>(t: Traffic<M>, sys: System<M>, n: nat, s: Sender<M>)
    requires MayCycle(t, sys, n)
    requires s == sys.sender.(queue := sys.sender.queue + NewEntries(t, sys.sender.next, n),
                              next := sys.sender.next + n)
    ensures DueRun(t.Config(), s, 0, sys.sender.next, n, t.MeasuredBits())
  {
  }

  lemma SendLast<M(!new)>(t: Traffic<M>, sys: System<M>, n: nat) returns (r: System<M>, run: seq<Action<M>>)
    requires MayCycle(t, sys, n)
    ensures Tidy(t, r) && Reaches(t, sys, run, r) && LastArrived(t.Config(), sys, n, r)
  {
    var sent, first := SendMany(t, sys, n);
    LastAreDue(t, sys, n, sent.sender);
    var second;
    r, second := Transmit(t, sent, sys.sender.next, n);
    run := first + second;
    ReachesFurther(t, sys, first, sent, second, r);
    TransmittedLast(t, sys, n, sent, r);
  }

  lemma TransmittedLast<M>(t: Traffic<M>, sys: System<M>, n: nat, sent: System<M>, r: System<M>)
    requires t.Valid() && CaughtUp(sys) && SenderValid(t.Config(), sys.sender) && |r.accepted| == sent.sender.next
    requires sent == sys.(sender := sent.sender, accepted := sent.accepted)
    requires sent.sender == sys.sender.(queue := sys.sender.queue + NewEntries(t, sys.sender.next, n),
                                        next := sys.sender.next + n)
    requires forall k :: k in Range(sys.sender.next, n) ==> 0 <= k < |sent.accepted|
    requires Transmitted(t.Config(), sent, Range(sys.sender.next, n), r)
    ensures LastArrived(t.Config(), sys, n, r)
  {
  }

  /** Send `n` messages, get them through and deliver them. */
  lemma GetThrough<M(!new)>(t: Traffic<M>, sys: System<M>, n: nat) returns (r: System<M>, run: seq<Action<M>>)
    requires MayCycle(t, sys, n)
    ensures Tidy(t, r) && CaughtUp(r) && Reaches(t, sys, run, r) && LastSent(t.Config(), sys, n, r)
  {
    var arrived, first := SendLast(t, sys, n);
    var second;
    r, second := ReceiveAll(t, arrived, n);
    run := first + second;
    ReachesFurther(t, sys, first, arrived, second, r);
  }

  /** Send `n` messages, get them through, deliver them and ack their packet. */
  lemma Cycle<M(!new)>(t: Traffic<M>, sys: System<M>, n: nat) returns (r: System<M>, run: seq<Action<M>>)
    requires MayCycle(t, sys, n) && OthersClear(t.view, sys.nextPacket)
    ensures Tidy(t, r) && CaughtUp(r) && Reaches(t, sys, run, r)
    ensures r.sender.queue == sys.sender.queue && r.sender.next == sys.sender.next + n
    ensures r.sender.time == sys.sender.time
    ensures r.nextPacket == sys.nextPacket + 1 && KeepsLedger(t.Config(), sys, r)
    ensures r.processed == sys.processed + {sys.nextPacket} && r.acked == sys.acked + {sys.nextPacket}
  {
    var drained, first := GetThrough(t, sys, n);
    var second;
    r, second := AckLast(t, sys, n, drained);
    run := first + second;
    ReachesFurther(t, sys, first, drained, second, r);
  }

  /** The packet of the last messages is acked. */
  lemma AckLast<M(!new)>(t: Traffic<M>, sys: System<M>, n: nat, drained: System<M>)
    returns (r: System<M>, run: seq<Action<M>>)
    requires MayCycle(t, sys, n) && OthersClear(t.view, sys.nextPacket)
    requires Tidy(t, drained) && CaughtUp(drained) && LastSent(t.Config(), sys, n, drained)
    ensures Tidy(t, r) && CaughtUp(r) && Reaches(t, drained, run, r)
    ensures r.sender.queue == sys.sender.queue && r.sender.next == sys.sender.next + n
    ensures r.sender.time == sys.sender.time
    ensures r.nextPacket == sys.nextPacket + 1 && KeepsLedger(t.Config(), sys, r)
    ensures r.processed == sys.processed + {sys.nextPacket} && r.acked == sys.acked + {sys.nextPacket}
  {
    var ids := Range(sys.sender.next, n);
    r, run := AckExactly(t, drained, sys.nextPacket, ids);
    QueueRestored(sys.sender.queue, drained.sender.queue, Elements(ids));
  }

  lemma QueueRestored<M>(before: map<int, SendEntry<M>>, during: map<int, SendEntry<M>>, sent: set<int>)
    requires during.Keys == before.Keys + sent && before.Keys !! sent
    requires forall k :: k in before ==> during[k] == before[k]
    ensures during - sent == before
  {
    var left := during - sent;
    assert left.Keys == before.Keys;
    assert forall k :: k in before ==> left[k] == before[k];
  }

  /** Send message 0 and get it through, without acking its packet. */
  lemma Start<M(!new)>(t: Traffic<M>) returns (r: System<M>, run: seq<Action<M>>)
    requires t.Valid() && t.Quiet(t.start)
    ensures Reaches(t, Initial(t.start), run, r)
    ensures Tidy(t, r) && CaughtUp(r) && OnlyZero(r.sender) && r.sender.queue[0].timeLastSent == r.sender.time
    ensures r.sender.next == 1
  {
    var initial := Initial<M>(t.start);
    r, run := GetThrough(t, initial, 1);
    ZeroWasJustSent(t, initial, r);
  }

  lemma ZeroWasJustSent<M>(t: Traffic<M>, initial: System<M>, r: System<M>)
    requires t.Valid() && initial == Initial<M>(t.start)
    requires Tidy(t, r) && LastSent(t.Config(), initial, 1, r)
    ensures OnlyZero(r.sender) && r.sender.queue[0].timeLastSent == r.sender.time && r.sender.next == 1
  {
    assert r.sender.queue.Keys == {0};
  }

  /** Message 0 was just sent; if that makes it due again at once, the clock is set back. */
  lemma Settle<M(!new)>(t: Traffic<M>, sys: System<M>) returns (r: System<M>, run: seq<Action<M>>)
    requires Tidy(t, sys) && t.Alone() && OnlyZero(sys.sender) && sys.sender.queue[0].timeLastSent == sys.sender.time
    ensures Tidy(t, r) && Reaches(t, sys, run, r) && HoldsZero(t.Config(), r.sender)
    ensures r == sys.(sender := sys.sender.(time := BeforeDue(t.Config(), sys.sender.time)))
  {
    r, run := SetClock(t, sys, BeforeDue(t.Config(), sys.sender.time));
  }

  /** A time at which a message just sent is not due. */
  function BeforeDue(config: Config, sent: real): real {
    if config.messageResendTime > 0.0 then sent else sent + config.messageResendTime - 1.0
  }

  /** Message 0 is due again. */
  lemma WaitForZero<M(!new)>(t: Traffic<M>, sys: System<M>) returns (r: System<M>, run: seq<Action<M>>)
    requires Tidy(t, sys) && t.Alone() && OnlyZero(sys.sender)
    ensures Tidy(t, r) && Reaches(t, sys, run, r) && OnlyZero(r.sender)
    ensures Due(t.Config(), r.sender, 0) && r.sender.time >= 0.0
    ensures r == sys.(sender := sys.sender.(time := r.sender.time))
  {
    var delay := t.Config().messageResendTime;
    var sent := sys.sender.queue[0].timeLastSent;
    r, run := SetClock(t, sys, if delay > 0.0 then sent + delay else sent);
  }

  /** One more packet that carries message 0 alone. */
  lemma ResendZero<M(!new)>(t: Traffic<M>, sys: System<M>) returns (r: System<M>, run: seq<Action<M>>)
    requires Tidy(t, sys) && t.Alone() && CaughtUp(sys) && OnlyZero(sys.sender)
    requires sys.sender.next <= t.Config().MessageLimit()
    ensures Tidy(t, r) && Reaches(t, sys, run, r) && ResentZero(t.Config(), sys, r)
  {
    var waited, first := WaitForZero(t, sys);
    assert DueRun(t.Config(), waited.sender, 0, 0, 1, t.MeasuredBits());
    assert Range(0, 1) == [0];
    var second;
    r, second := Transmit(t, waited, 0, 1);
    run := first + second;
    ReachesFurther(t, sys, first, waited, second, r);
    assert Undelivered(sys.accepted, [0], sys.receiver.next) == map[];
  }

  ghost predicate ResentZero<M>(config: Config, sys: System<M>, r: System<M>) {
    && CaughtUp(r) && OnlyZero(r.sender) && r.sender.queue[0].timeLastSent == r.sender.time
    && r.sender.next == sys.sender.next && r.nextPacket == sys.nextPacket + 1
    && r.processed == sys.processed + {sys.nextPacket} && r.acked == sys.acked
    && sys.nextPacket in r.sender.ledger && r.sender.ledger[sys.nextPacket] == SentPacket(false, WrapAll([0]))
    && KeepsLedger(config, sys, r)
  }

  /** Send messages one at a time past message 0, until the offered window is used up. */
  lemma {:induction false} Grow<M(!new)>(t: Traffic<M>, sys: System<M>) returns (r: System<M>, run: seq<Action<M>>)
    requires Tidy(t, sys) && t.Alone() && CaughtUp(sys) && HoldsZero(t.Config(), sys.sender)
    requires sys.sender.next <= t.Config().MessageLimit()
    ensures Tidy(t, r) && CaughtUp(r) && HoldsZero(t.Config(), r.sender)
    ensures r.sender.next == t.Config().MessageLimit()
    ensures Reaches(t, sys, run, r)
    decreases t.Config().MessageLimit() - sys.sender.next
  {
    if sys.sender.next == t.Config().MessageLimit() {
      r, run := sys, [];
    } else {
      AloneIsQuiet(t, 0.0, sys.nextPacket);
      var one, first := Cycle(t, sys, 1);
      var second;
      r, second := Grow(t, one);
      run := first + second;
      ReachesFurther(t, sys, first, one, second, r);
    }
  }

  /** Packet `p` carried message 0 alone, got through, and is live and not acked. */
  ghost predicate CarriedZero<M>(sys: System<M>, p: nat) {
    && p in sys.sender.ledger && sys.sender.ledger[p] == SentPacket(false, WrapAll([0]))
    && p in sys.processed && p !in sys.acked
  }

  /** The ack of packet `p` is late: nothing is queued any more. */
  ghost predicate LateAckDue<M>(t: Traffic<M>, sys: System<M>, p: nat) {
    Tidy(t, sys) && CaughtUp(sys) && sys.sender.queue == map[] && CarriedZero(sys, p)
  }

  /** Two more packets carry message 0 alone; the later one is the late packet. */
  lemma ResendTwice<M(!new)>(t: Traffic<M>, sys: System<M>) returns (r: System<M>, run: seq<Action<M>>)
    requires Tidy(t, sys) && t.Alone() && CaughtUp(sys) && OnlyZero(sys.sender)
    requires sys.sender.next == t.Config().MessageLimit()
    ensures Tidy(t, r) && CaughtUp(r) && OnlyZero(r.sender) && Reaches(t, sys, run, r)
    ensures r.sender.next == sys.sender.next && r.nextPacket == sys.nextPacket + 2
    ensures CarriedZero(r, sys.nextPacket) && CarriedZero(r, sys.nextPacket + 1)
  {
    var once, first := ResendZero(t, sys);
    var second;
    r, second := ResendZero(t, once);
    ReachesFurther(t, sys, first, once, second, r);
    run := first + second;
  }

  /** The late packet is made, and message 0 is acked through the packet before it. */
  lemma MakeLatePacket<M(!new)>(t: Traffic<M>, sys: System<M>) returns (r: System<M>, p: nat, run: seq<Action<M>>)
    requires Tidy(t, sys) && t.Alone() && CaughtUp(sys) && OnlyZero(sys.sender)
    requires sys.sender.next == t.Config().MessageLimit()
    ensures LateAckDue(t, r, p) && Reaches(t, sys, run, r)
    ensures r.sender.next == sys.sender.next && r.nextPacket == p + 1
  {
    var twice, first := ResendTwice(t, sys);
    var second;
    AloneIsQuiet(t, 0.0, sys.nextPacket);
    r, second := AckExactly(t, twice, sys.nextPacket, [0]);
    ReachesFurther(t, sys, first, twice, second, r);
    run, p := first + second, sys.nextPacket + 1;
    EmptiedOfZero(twice.sender.queue, r.sender.queue);
  }

  lemma EmptiedOfZero<M>(before: map<int, SendEntry<M>>, after: map<int, SendEntry<M>>)
    requires before.Keys == {0} && after == before - Elements([0])
    ensures after == map[]
  {
    assert after.Keys == {};
  }

  lemma FillBatch(missing: nat, room: nat, batch: nat) returns (n: nat)
    requires 1 <= missing <= room * batch
    ensures 1 <= n <= batch && n <= missing && 1 <= room && missing - n <= (room - 1) * batch
  {
    n := if missing < batch then missing else batch;
    assert (room - 1) * batch == room * batch - batch;
  }

  /** Get as many messages through as the packets that can follow `p` will hold. */
  lemma {:induction false} Fill<M(!new)>(t: Traffic<M>, sys: System<M>, p: nat, target: nat)
    returns (r: System<M>, run: seq<Action<M>>)
    requires LateAckDue(t, sys, p) && t.Alone() && sys.sender.next <= target
    requires p < sys.nextPacket <= p + t.Config().sentPacketBufferSize
    requires target - sys.sender.next <= (p + t.Config().sentPacketBufferSize - sys.nextPacket) * t.batch
    ensures LateAckDue(t, r, p) && r.sender.next == target && Reaches(t, sys, run, r)
    decreases target - sys.sender.next
  {
    var config := t.Config();
    if sys.sender.next == target {
      r, run := sys, [];
    } else {
      var room := p + config.sentPacketBufferSize - sys.nextPacket;
      var n := FillBatch(target - sys.sender.next, room, t.batch);
      AloneIsQuiet(t, 0.0, sys.nextPacket);
      var one, first := Cycle(t, sys, n);
      var second;
      r, second := Fill(t, one, p, target);
      run := first + second;
      ReachesFurther(t, sys, first, one, second, r);
    }
  }

  /** The late ack takes out message 65536, which the receiver never got. */
  lemma LateAckLoses<M(!new)>(t: Traffic<M>, sys: System<M>, p: nat) returns (r: System<M>, run: seq<Action<M>>)
    requires LateAckDue(t, sys, p) && t.Alone()
    requires sys.sender.next == MODULUS + 1 - t.Config().messageSendQueueSize
    ensures Reaches(t, sys, run, r) && r.receiver.next == |r.delivered|
    ensures MODULUS < |r.accepted| && MODULUS !in r.sender.queue && !Has(r.receiver, MODULUS)
  {
    var sent, first := SendMany(t, sys, t.Config().messageSendQueueSize);
    assert MODULUS in sent.sender.queue && Below(sent.sender.next, 0) == MODULUS;
    InWindowIsClear(t.Config(), sent.sender, p);
    AckFindsItsPacket(t.Config(), sent.sender, p);
    AloneIsQuiet(t, 0.0, p);
    ReachesByOne(t, sent, Ack(p));
    r, run := Apply(t.Config(), sent, Ack(p)), first + [Ack(p)];
    ReachesFurther(t, sys, first, sent, [Ack(p)], r);
    AckTakesLast(t.Config(), sent.sender, p);
  }

  /** Acking the 16-bit id 0 when message 65536 is the last one queued takes that message out. */
  lemma AckTakesLast<M>(config: Config, s: Sender<M>, p: nat)
    requires config.Valid() && SenderValid(config, s) && s.next == MODULUS + 1
    requires p in s.ledger && s.ledger[p] == SentPacket(false, WrapAll([0]))
    ensures MODULUS !in ProcessAck(s, Wrap(p)).queue
  {
    InWindowIsClear(config, s, p);
    AckFindsItsPacket(config, s, p);
    var marked := s.(ledger := s.ledger[p := s.ledger[p].(acked := true)]);
    assert WrapAll([0])[0] == Wrap(MODULUS) && WrapAll([0]) == WrapAll([MODULUS]);
    RemoveMessagesExactly(marked, [MODULUS]);
  }

  /** A run up to where the late packet is about to be made. */
  lemma Prepare<M(!new)>(t: Traffic<M>) returns (r: System<M>, run: seq<Action<M>>)
    requires t.Valid() && t.Alone()
    ensures Tidy(t, r) && CaughtUp(r) && OnlyZero(r.sender) && r.sender.next == t.Config().MessageLimit()
    ensures Reaches(t, Initial(t.start), run, r)
  {
    AloneIsQuiet(t, t.start, 0);
    var started, run0 := Start(t);
    var settled, run1 := Settle(t, started);
    ReachesFurther(t, Initial(t.start), run0, started, run1, settled);
    var run2;
    r, run2 := Grow(t, settled);
    run := run0 + run1 + run2;
    ReachesFurther(t, Initial(t.start), run0 + run1, settled, run2, r);
  }

  /** A channel beyond the bound has such a run. */
  lemma UnsafeChannelLoses<M(!new)>(t: Traffic<M>) returns (r: System<M>, run: seq<Action<M>>)
    requires t.Valid() && t.Alone() && !BatchOutlives(t.Config(), t.batch)
    ensures Reaches(t, Initial(t.start), run, r) && r.receiver.next == |r.delivered|
    ensures MODULUS < |r.accepted| && MODULUS !in r.sender.queue && !Has(r.receiver, MODULUS)
  {
    var initial := Initial<M>(t.start);
    var grown, run1 := Prepare(t);
    var due, p, run2 := MakeLatePacket(t, grown);
    ReachesFurther(t, initial, run1, grown, run2, due);
    var filled, run3 := Fill(t, due, p, MODULUS + 1 - t.Config().messageSendQueueSize);
    ReachesFurther(t, initial, run1 + run2, due, run3, filled);
    var run4;
    r, run4 := LateAckLoses(t, filled, p);
    run := run1 + run2 + run3 + run4;
    ReachesFurther(t, initial, run1 + run2 + run3, filled, run4, r);
  }

  // ---- Connections ---------------------------------------------------------------------------

  /** No reachable state of two connections has lost a message of a reliable channel. */
  ghost predicate NothingLost<M>(setup: N.Setup<M>, net: N.Net<M>) {
    N.WellFormedNet(setup, net) ==>
      forall e: nat, c: nat :: e < 2 && setup.Reliable(c) ==> G.LosesNothing(setup, net, e, c)
  }

  /** Two new connections whose clocks are at `start`, seen from channel `c`, with the other channels idle. */
  ghost function NewTraffic<M>(setup: N.Setup<M>, c: nat, bytes: nat, message: M, batch: nat, start: real): Traffic<M>
    requires N.WellFormedNet(setup, N.Initial(setup, start, start))
  {
    Traffic(View(setup, c, bytes, FrameOf(setup, N.Initial(setup, start, start))), message, batch, start)
  }

  lemma NewIsAlone<M(!new)>(setup: N.Setup<M>, c: nat, bytes: nat, message: M, batch: nat, start: real)
    requires N.SetupUsable(setup) && setup.Reliable(c)
    ensures N.WellFormedNet(setup, N.Initial(setup, start, start))
    ensures NewTraffic(setup, c, bytes, message, batch, start).view.Valid()
    ensures NewTraffic(setup, c, bytes, message, batch, start).Alone()
  {
    InitialInView<M>(setup, c, bytes, start);
  }

  /** A time that is late enough for messages to be due when they are new. */
  function StartOf(config: Config): (r: real)
    ensures 0.0 <= r && config.messageResendTime - 1.0 <= r
  {
    if config.messageResendTime > 0.0 then config.messageResendTime else 0.0
  }

  /** A connection with a channel beyond the bound, for some batch that fits, has a run that loses a message. */
  lemma UnsafeConnectionLoses<M(!new)>(setup: N.Setup<M>, c: nat, bytes: nat, message: M, batch: nat)
    returns (net: N.Net<M>)
    requires N.SetupUsable(setup) && setup.Reliable(c) && !BatchOutlives(setup.configs[c], batch)
    requires BatchFits(setup.configs[c], 8 * setup.Size()(message) + MESSAGE_ID_BITS, bytes, batch)
    ensures ReachableWith(setup, bytes, net) && N.WellFormedNet(setup, net) && !G.LosesNothing(setup, net, 0, c)
  {
    var start := StartOf(setup.configs[c]);
    NewIsReady(setup, c, bytes, message, batch, start);
    net := LosingNet(NewTraffic(setup, c, bytes, message, batch, start), N.Initial(setup, start, start));
  }

  lemma NewIsReady<M(!new)>(setup: N.Setup<M>, c: nat, bytes: nat, message: M, batch: nat, start: real)
    requires N.SetupUsable(setup) && setup.Reliable(c)
    requires BatchFits(setup.configs[c], 8 * setup.Size()(message) + MESSAGE_ID_BITS, bytes, batch)
    requires 0.0 <= start && setup.configs[c].messageResendTime - 1.0 <= start
    ensures N.WellFormedNet(setup, N.Initial(setup, start, start))
    ensures var initial, t := N.Initial(setup, start, start), NewTraffic(setup, c, bytes, message, batch, start);
            && ReachableWith(setup, bytes, initial) && t.Valid() && t.Alone()
            && Mirrors(t.view, initial, Initial<M>(start))
  {
    NewMaySend(setup, c, bytes, message, batch, start);
    InitialInView<M>(setup, c, bytes, start);
  }

  lemma NewMaySend<M(!new)>(setup: N.Setup<M>, c: nat, bytes: nat, message: M, batch: nat, start: real)
    requires N.SetupUsable(setup) && setup.Reliable(c)
    requires BatchFits(setup.configs[c], 8 * setup.Size()(message) + MESSAGE_ID_BITS, bytes, batch)
    requires 0.0 <= start && setup.configs[c].messageResendTime - 1.0 <= start
    ensures N.WellFormedNet(setup, N.Initial(setup, start, start))
    ensures var t := NewTraffic(setup, c, bytes, message, batch, start);
            t.Valid() && t.Alone()
  {
    var t := NewTraffic(setup, c, bytes, message, batch, start);
    NewIsAlone(setup, c, bytes, message, batch, start);
    NewCost(setup, c, bytes, message, batch, start);
    NewIsValid(t, t.Config(), t.Cost());
  }

  lemma NewCost<M(!new)>(setup: N.Setup<M>, c: nat, bytes: nat, message: M, batch: nat, start: real)
    requires setup.Reliable(c) && N.WellFormedNet(setup, N.Initial(setup, start, start))
    ensures var t := NewTraffic(setup, c, bytes, message, batch, start);
            t.Config() == setup.configs[c] && t.Cost() == 8 * setup.Size()(message) + MESSAGE_ID_BITS
  {
  }

  lemma NewIsValid<M(!new)>(t: Traffic<M>, config: Config, cost: nat)
    requires t.view.Valid() && t.Config() == config && t.Cost() == cost
    requires BatchFits(config, cost, t.view.bytes, t.batch)
    requires 0.0 <= t.start && config.messageResendTime - 1.0 <= t.start
    ensures t.Valid()
  {
  }

  lemma LosingNet<M(!new)>(t: Traffic<M>, initial: N.Net<M>) returns (net: N.Net<M>)
    requires N.SetupUsable(t.view.setup) && t.Valid() && t.Alone() && !BatchOutlives(t.Config(), t.batch)
    requires ReachableWith(t.view.setup, t.view.bytes, initial) && Mirrors(t.view, initial, Initial<M>(t.start))
    ensures ReachableWith(t.view.setup, t.view.bytes, net) && N.WellFormedNet(t.view.setup, net)
    ensures !G.LosesNothing(t.view.setup, net, 0, t.view.c)
  {
    var sys, run := UnsafeChannelLoses(t);
    net := RunIsMirrored(t.view, initial, Initial<M>(t.start), run);
    MirroredLoss(t.view, net, sys);
  }

  lemma MirroredLoss<M(!new)>(v: View<M>, net: N.Net<M>, sys: System<M>)
    requires Mirrors(v, net, sys) && sys.receiver.next == |sys.delivered|
    requires MODULUS < |sys.accepted| && MODULUS !in sys.sender.queue && !Has(sys.receiver, MODULUS)
    ensures N.WellFormedNet(v.setup, net) && !G.LosesNothing(v.setup, net, 0, v.c)
  {
    MirrorParts(v, net, sys);
    assert !G.IsKept(v.setup, net, 0, v.c, MODULUS);
  }

  /** No message is smaller. */
  ghost predicate Smallest<M(!new)>(size: M -> nat, message: M) {
    forall m: M :: size(message) <= size(m)
  }

  /** There is such a message, if there are any. */
  lemma {:induction false} SmallestExists<M(!new)>(size: M -> nat, any: M) returns (message: M)
    ensures Smallest(size, message)
    decreases size(any)
  {
    if m: M :| size(m) < size(any) {
      message := SmallestExists(size, m);
    } else {
      message := any;
    }
  }

  /** With buffers of one size, no connection ever loses a message if and only if, for every reliable channel and every
      number `n` of the smallest messages that a packet can hold,
      (sent_packet_buffer_size - 1) * n + message_send_queue_size + min(queue sizes) <= 65536. */
  lemma NoLossIffIdsOutliveAcks<M(!new)>(setup: N.Setup<M>, bytes: nat, message: M)
    requires N.SetupUsable(setup) && Smallest(setup.Size(), message)
    ensures (forall c: nat :: setup.Reliable(c) ==>
               BatchesOutlive(setup.configs[c], 8 * setup.Size()(message) + MESSAGE_ID_BITS, bytes))
            <==> (forall net: N.Net<M> :: ReachableWith(setup, bytes, net) ==> NothingLost(setup, net))
  {
    var cost := 8 * setup.Size()(message) + MESSAGE_ID_BITS;
    if c: nat :| setup.Reliable(c) && !BatchesOutlive(setup.configs[c], cost, bytes) {
      var batch: nat :| BatchFits(setup.configs[c], cost, bytes, batch) && !BatchOutlives(setup.configs[c], batch);
      var net := UnsafeConnectionLoses(setup, c, bytes, message, batch);
      assert !NothingLost(setup, net);
    } else {
      forall net: N.Net<M> | ReachableWith(setup, bytes, net)
        ensures NothingLost(setup, net)
      {
        SafeConnectionLosesNothing(setup, bytes, cost, net);
      }
    }
  }

  lemma SafeConnectionLosesNothing<M(!new)>(setup: N.Setup<M>, bytes: nat, cost: nat, net: N.Net<M>)
    requires MayReduce(setup, cost) && ReachableWith(setup, bytes, net)
    requires forall c: nat :: setup.Reliable(c) ==> BatchesOutlive(setup.configs[c], cost, bytes)
    ensures NothingLost(setup, net)
  {
    if N.WellFormedNet(setup, net) {
      forall e: nat, c: nat | e < 2 && setup.Reliable(c)
        ensures G.LosesNothing(setup, net, e, c)
      {
        BatchesLoseNothing(setup, cost, bytes, net, e, c);
      }
    }
  }

  /** One default channel. */
  ghost function DefaultSetup<M>(codec: MessageCodec<M>): N.Setup<M> {
    N.Setup([Config(ReliableOrdered, 1024, 1024, 1024, 256, None, 0.1)], codec)
  }

  /** In the default packet size of 8192 bytes, with any message of at most 127 bytes, it loses one. */
  lemma DefaultConfigLoses<M(!new)>(codec: MessageCodec<M>, message: M) returns (net: N.Net<M>)
    requires Lawful(codec) && |codec.encode(message)| <= 127
    ensures N.SetupUsable(DefaultSetup(codec)) && ReachableWith(DefaultSetup(codec), 8192, net)
    ensures N.WellFormedNet(DefaultSetup(codec), net) && DefaultSetup(codec).Reliable(0)
    ensures !G.LosesNothing(DefaultSetup(codec), net, 0, 0)
  {
    DefaultIsUsable(codec);
    TimesIsProduct(63, 8 * |codec.encode(message)| + MESSAGE_ID_BITS);
    TimesIsProduct(62, 8 * |codec.encode(message)| + MESSAGE_ID_BITS);
    net := UnsafeConnectionLoses(DefaultSetup(codec), 0, 8192, message, 63);
  }

  /** And it never does so if every message is longer. */
  lemma DefaultConfigLosesIff<M(!new)>(codec: MessageCodec<M>, message: M)
    requires Lawful(codec) && Smallest(SizeOf(codec), message)
    ensures N.SetupUsable(DefaultSetup(codec))
    ensures (forall net: N.Net<M> :: ReachableWith(DefaultSetup(codec), 8192, net) ==>
               NothingLost(DefaultSetup(codec), net))
            <==> |codec.encode(message)| >= 128
  {
    DefaultIsUsable(codec);
    if |codec.encode(message)| >= 128 {
      LargeMessagesLoseNothing(codec, message);
    } else {
      var net := DefaultConfigLoses(codec, message);
      assert !NothingLost(DefaultSetup(codec), net);
    }
  }

  lemma LargeMessagesLoseNothing<M(!new)>(codec: MessageCodec<M>, message: M)
    requires Lawful(codec) && Smallest(SizeOf(codec), message) && |codec.encode(message)| >= 128
    requires N.SetupUsable(DefaultSetup(codec))
    ensures forall net: N.Net<M> :: ReachableWith(DefaultSetup(codec), 8192, net) ==>
              NothingLost(DefaultSetup(codec), net)
  {
    var cost := 8 * |codec.encode(message)| + MESSAGE_ID_BITS;
    DefaultBatchesOutlive(codec, cost);
    MessagesCost(codec, message, cost);
    forall net: N.Net<M> | ReachableWith(DefaultSetup(codec), 8192, net)
      ensures NothingLost(DefaultSetup(codec), net)
    {
      SafeConnectionLosesNothing(DefaultSetup(codec), 8192, cost, net);
    }
  }

  lemma MessagesCost<M(!new)>(codec: MessageCodec<M>, message: M, cost: nat)
    requires Smallest(SizeOf(codec), message) && cost == 8 * |codec.encode(message)| + MESSAGE_ID_BITS
    ensures CostsAtLeast(DefaultSetup(codec).Size(), cost)
  {
    forall m: M
      ensures 8 * DefaultSetup(codec).Size()(m) + MESSAGE_ID_BITS >= cost
    {
      assert SizeOf(codec)(message) <= SizeOf(codec)(m);
    }
  }

  lemma DefaultIsUsable<M(!new)>(codec: MessageCodec<M>)
    requires Lawful(codec)
    ensures N.SetupUsable(DefaultSetup(codec))
  {
    SlotIsRemainder(MODULUS, 1024);
  }

  lemma DefaultBatchesOutlive<M(!new)>(codec: MessageCodec<M>, cost: nat)
    requires cost >= 1040 && N.SetupUsable(DefaultSetup(codec))
    ensures forall c: nat :: DefaultSetup(codec).Reliable(c) ==>
              BatchesOutlive(DefaultSetup(codec).configs[c], cost, 8192)
  {
    var config := DefaultSetup(codec).configs[0];
    assert DefaultSetup(codec).Reliable(0);
    forall n: nat | BatchFits(config, cost, 8192, n)
      ensures BatchOutlives(config, n)
    {
      FewLargeMessages(n, cost);
    }
  }

  /** No more than 62 messages of 128 bytes fit a packet of 8192. */
  lemma FewLargeMessages(n: nat, cost: nat)
    requires cost >= 1040 && MESSAGE_HEADER_BITS + Times(n, cost) + CHANNEL_HEADER_BITS <= BufferRoom(8192)
    ensures n <= 62
  {
    if n > 62 {
      TimesGrows(63, n, cost);
      TimesIsProduct(63, cost);
    }
  }
}
