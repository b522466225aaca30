/** What the packets of a whole run say about one reliable channel: which messages went into which packet, and when. */
module Histories {
  import opened Wrap16
  import opened Options
  import opened Configs
  import opened Codec
  import opened SequenceBuffers
  import opened ReliableSpec
  import opened ConnectionSpec
  import opened ConnectionProtocol
  import opened Isolation
  import opened Guarantees
  import PacketRules
  import Steps
  import C = ChannelSpec
  import P = Protocol

  // ---- One channel ---------------------------------------------------------------------------

  /** What a packet had for the channel, and the time the channel had when it was made. */
  datatype Shipment<M> = Shipment(ids: seq<int>, clock: real, messages: seq<(u16, M)>)

  /** The sending half of the channel, what its user sent, and what every packet, under its number, had for it. */
  datatype Outbox<M> = Outbox(sender: Sender<M>, accepted: seq<M>, log: seq<Shipment<M>>)

  /** What may happen to an outbox. */
  datatype Event<M> = Nothing | Takes(message: M, bits: nat) | Ships(room: nat) | Learns(ack: u16) | Waits(time: real)

  ghost function NextShipment<M>(config: Config, s: Sender<M>, room: nat): Shipment<M>
    requires config.Valid()
  {
    ChooseMessagesIsSound(config, s, room);
    var ids := ChooseMessages(config, s, room).ids;
    Shipment(ids, s.time, WireMessages(s, ids))
  }

  ghost predicate Becomes<M>(config: Config, a: Outbox<M>, event: Event<M>, b: Outbox<M>)
    requires config.Valid()
  {
    match event
    case Nothing => b == a
    case Takes(message, bits) =>
      CanSendMessage(config, a.sender)
      && b == Outbox(SendMessage(a.sender, message, bits), a.accepted + [message], a.log)
    case Ships(room) =>
      (NextShipment(config, a.sender, room).ids != [] ==> P.NumberIsClear(config, a.sender, |a.log|))
      && b == a.(sender := GeneratePacket(config, a.sender, Wrap(|a.log|), room),
                 log := a.log + [NextShipment(config, a.sender, room)])
    case Learns(ack) =>
      a.sender.oldest <= a.sender.next && b == a.(sender := ProcessAck(a.sender, ack))
    case Waits(time) => b == a.(sender := a.sender.(time := time))
  }

  /** When message `k` last went into a packet; -1 if it never did. */
  ghost function LastSent<M>(log: seq<Shipment<M>>, k: int): real
    decreases |log|
  {
    if log == [] then -1.0
    else if k in log[|log| - 1].ids then log[|log| - 1].clock
    else LastSent(log[..|log| - 1], k)
  }

  /** Every message of every packet had waited for its resend time since the last packet it was in. */
  ghost predicate AllWaited<M>(config: Config, log: seq<Shipment<M>>) {
    forall n, k :: 0 <= n < |log| && k in log[n].ids ==>
      LastSent(log[..n], k) + config.messageResendTime <= log[n].clock
  }

  /** The ledger is what the packets say. */
  ghost predicate LedgerIsLogged<M>(s: Sender<M>, log: seq<Shipment<M>>) {
    forall p :: p in s.ledger ==> 0 <= p < |log| && s.ledger[p].ids == WrapAll(log[p].ids)
  }

  ghost predicate QueueIsLogged<M>(o: Outbox<M>) {
    forall k :: k in o.sender.queue ==>
      && 0 <= k < |o.accepted| && o.sender.queue[k].message == o.accepted[k]
      && o.sender.queue[k].timeLastSent == LastSent(o.log, k)
  }

  ghost predicate AllGenuine<M>(accepted: seq<M>, log: seq<Shipment<M>>) {
    forall n :: 0 <= n < |log| ==> P.Genuine(accepted, log[n].ids, log[n].messages)
  }

  /** The sender is what the packets of the run say. */
  ghost predicate Remembered<M>(config: Config, o: Outbox<M>) {
    && SenderValid(config, o.sender) && o.sender.next == |o.accepted|
    && QueueIsLogged(o) && AllGenuine(o.accepted, o.log) && AllWaited(config, o.log) && LedgerIsLogged(o.sender, o.log)
  }

  lemma NewIsRemembered<M>(config: Config, time: real)
    requires config.Valid()
    ensures Remembered<M>(config, Outbox(NewSender(time), [], []))
  {
  }

  lemma {:induction false} NeverSent<M>(log: seq<Shipment<M>>, k: int)
    requires forall n :: 0 <= n < |log| ==> k !in log[n].ids
    ensures LastSent(log, k) == -1.0
    decreases |log|
  {
    if log == [] {
    } else {
      NeverSent(log[..|log| - 1], k);
    }
  }

  lemma TakesIsRemembered<M>(config: Config, a: Outbox<M>, message: M, bits: nat, b: Outbox<M>)
    requires config.Valid() && Remembered(config, a) && Becomes(config, a, Takes(message, bits), b)
    ensures Remembered(config, b)
  {
    SendMessageKeepsValid(config, a.sender, message, bits);
    forall n | 0 <= n < |a.log|
      ensures |a.accepted| !in a.log[n].ids && P.Genuine(b.accepted, a.log[n].ids, a.log[n].messages)
    {
      assert P.Genuine(a.accepted, a.log[n].ids, a.log[n].messages);
    }
    NeverSent(a.log, |a.accepted|);
  }

  lemma OneMoreShipment<M>(config: Config, log: seq<Shipment<M>>, shipment: Shipment<M>)
    requires AllWaited(config, log)
    requires forall k :: k in shipment.ids ==> LastSent(log, k) + config.messageResendTime <= shipment.clock
    ensures AllWaited(config, log + [shipment])
    ensures forall k :: LastSent(log + [shipment], k) == if k in shipment.ids then shipment.clock else LastSent(log, k)
  {
    var more := log + [shipment];
    assert more[..|more| - 1] == log;
    forall n, k | 0 <= n < |more| && k in more[n].ids
      ensures LastSent(more[..n], k) + config.messageResendTime <= more[n].clock
    {
      if n < |log| {
        assert more[..n] == log[..n] && k in log[n].ids;
      } else {
        assert more[..n] == log;
      }
    }
  }

  lemma NextIsGenuine<M>(config: Config, a: Outbox<M>, room: nat)
    requires config.Valid() && Remembered(config, a)
    ensures var shipment := NextShipment(config, a.sender, room);
            && P.Genuine(a.accepted, shipment.ids, shipment.messages)
            && shipment.clock == a.sender.time
            && forall k :: k in shipment.ids ==>
                 k in a.sender.queue && a.sender.queue[k].timeLastSent + config.messageResendTime <= a.sender.time
  {
    ChooseMessagesIsSound(config, a.sender, room);
    var ids := ChooseMessages(config, a.sender, room).ids;
    assert forall i :: 0 <= i < |ids| ==> ids[i] in ids;
  }

  /** The sender after it shipped: the ids are stamped, and the packet is recorded under its number if at all. */
  lemma ShippedSender<M>(config: Config, a: Outbox<M>, room: nat, b: Outbox<M>)
    requires config.Valid() && Remembered(config, a) && Becomes(config, a, Ships(room), b)
    ensures var ids := NextShipment(config, a.sender, room).ids;
            && b.sender.next == a.sender.next && b.sender.queue.Keys == a.sender.queue.Keys
            && (forall k :: k in a.sender.queue ==>
                  b.sender.queue[k] == if k in ids then a.sender.queue[k].(timeLastSent := a.sender.time)
                                       else a.sender.queue[k])
            && (forall p :: p in b.sender.ledger ==>
                  if p == |a.log| then b.sender.ledger[p].ids == WrapAll(ids)
                  else p in a.sender.ledger && b.sender.ledger[p] == a.sender.ledger[p])
  {
    var ids := NextShipment(config, a.sender, room).ids;
    assert a.sender.ledger.Keys !! {|a.log|};
    if ids == [] {
      assert b.sender == a.sender;
    } else {
      assert P.NumberIsClear(config, a.sender, |a.log|);
    }
  }

  lemma ShipsIsRemembered<M>(config: Config, a: Outbox<M>, room: nat, b: Outbox<M>)
    requires config.Valid() && Remembered(config, a) && Becomes(config, a, Ships(room), b)
    ensures Remembered(config, b)
  {
    GeneratePacketKeepsValid(config, a.sender, Wrap(|a.log|), room);
    NextIsGenuine(config, a, room);
    ShippedSender(config, a, room, b);
    OneMoreShipment(config, a.log, NextShipment(config, a.sender, room));
  }

  lemma LearnsIsRemembered<M>(config: Config, a: Outbox<M>, ack: u16, b: Outbox<M>)
    requires config.Valid() && Remembered(config, a) && Becomes(config, a, Learns(ack), b)
    ensures Remembered(config, b)
  {
    ProcessAckKeepsValid(config, a.sender, ack);
    var p := Below(a.sender.packetTop, ack);
    if AckOutcome(a.sender, ack) == Acked {
      RemovingKeeps(a.sender.(ledger := a.sender.ledger[p := a.sender.ledger[p].(acked := true)]),
                    a.sender.ledger[p].ids);
    }
  }

  lemma EventIsRemembered<M>(config: Config, a: Outbox<M>, event: Event<M>, b: Outbox<M>)
    requires config.Valid() && Remembered(config, a) && Becomes(config, a, event, b)
    ensures Remembered(config, b)
  {
    match event
    case Nothing =>
    case Takes(message, bits) => TakesIsRemembered(config, a, message, bits, b);
    case Ships(room) => ShipsIsRemembered(config, a, room, b);
    case Learns(ack) => LearnsIsRemembered(config, a, ack, b);
    case Waits(time) =>
  }

  lemma WaitedBefore<M>(config: Config, log: seq<Shipment<M>>, n: nat)
    requires AllWaited(config, log) && n <= |log|
    ensures AllWaited(config, log[..n])
  {
    forall i, k | 0 <= i < n && k in log[..n][i].ids
      ensures LastSent(log[..n][..i], k) + config.messageResendTime <= log[i].clock
    {
      assert log[..n][..i] == log[..i] && k in log[i].ids;
    }
  }

  lemma {:induction false} LastSentIsLatest<M>(config: Config, log: seq<Shipment<M>>, m: nat, k: int)
    requires AllWaited(config, log) && config.messageResendTime >= 0.0
    requires m < |log| && k in log[m].ids
    ensures log[m].clock <= LastSent(log, k)
    decreases |log|
  {
    var last: nat := |log| - 1;
    if m < last {
      WaitedBefore(config, log, last);
      LastSentIsLatest(config, log[..last], m, k);
    }
  }

  /** A message is in no two packets closer together than its resend time. */
  lemma SentApart<M>(config: Config, log: seq<Shipment<M>>, m: nat, n: nat, k: int)
    requires AllWaited(config, log) && config.messageResendTime >= 0.0
    requires m < n < |log| && k in log[m].ids && k in log[n].ids
    ensures log[m].clock + config.messageResendTime <= log[n].clock
  {
    WaitedBefore(config, log, n);
    LastSentIsLatest(config, log[..n], m, k);
  }

  // ---- Two connections -----------------------------------------------------------------------

  ghost function LogOf<M>(made: seq<WirePacket<M>>, c: nat): (r: seq<Shipment<M>>)
    requires forall i :: 0 <= i < |made| ==> c < |made[i].ids| && c < |made[i].clocks|
    ensures |r| == |made|
    ensures forall i :: 0 <= i < |made| ==>
              r[i] == Shipment(made[i].ids[c], made[i].clocks[c], MessagesFor(made[i].data, c))
  {
    seq(|made|, i requires 0 <= i < |made| =>
          Shipment(made[i].ids[c], made[i].clocks[c], MessagesFor(made[i].data, c)))
  }

  /** Reliable channel `c` as the sending end has it. */
  ghost function OutboxOf<M>(setup: Setup<M>, end: End<M>, c: nat): Outbox<M>
    requires WellFormedEnd(setup, end) && MadeValid(setup, end) && setup.Reliable(c)
  {
    Outbox(SenderOf(setup, end, c), end.accepted[c], LogOf(end.made, c))
  }

  lemma SendIsEvent<M>(setup: Setup<M>, end: End<M>, i: nat, message: M, c: nat) returns (event: Event<M>)
    requires WellFormedEnd(setup, end) && MadeValid(setup, end) && setup.Reliable(c) && i < |setup.configs|
    requires setup.configs[c].Valid()
    ensures WellFormedEnd(setup, ApplySend(setup, end, i, message))
    ensures MadeValid(setup, ApplySend(setup, end, i, message))
    ensures Becomes(setup.configs[c], OutboxOf(setup, end, c), event,
                    OutboxOf(setup, ApplySend(setup, end, i, message), c))
  {
    SendKeepsWellFormed(setup, end, i, message);
    var channel := end.connection.channels[i];
    if i == c && channel.errorLevel == C.NoError && C.CanSend(setup.configs[i], channel) {
      event := Takes(message, 8 * setup.Size()(message));
    } else {
      event := Nothing;
    }
  }

  lemma GenerateIsEvent<M>(setup: Setup<M>, end: End<M>, bytes: nat, c: nat) returns (event: Event<M>)
    requires WellFormedEnd(setup, end) && MadeValid(setup, end) && setup.Reliable(c) && Supported(setup.configs)
    requires setup.configs[c].Valid() && NumberIsClear(setup, end, GenerateAt(setup, end, bytes))
    ensures WellFormedEnd(setup, ApplyGenerate(setup, end, bytes))
    ensures MadeValid(setup, ApplyGenerate(setup, end, bytes))
    ensures Becomes(setup.configs[c], OutboxOf(setup, end, c), event,
                    OutboxOf(setup, ApplyGenerate(setup, end, bytes), c))
  {
    event := Nothing;
    if GenerateAt(setup, end, bytes).Generated? {
      GenerateKeepsWellFormed(setup, end, bytes);
      GenerateKeepsMade(setup, end, bytes);
      SenderAfterGenerate(setup, end, bytes, c);
      if GenerateAt(setup, end, bytes).data != [] {
        ReliablePart(setup, end, bytes, c);
        event := Ships(RoomFor(setup, end, bytes, c));
        OneMoreLogged(end.made, PacketOf(setup, end, bytes), c);
      }
    }
  }

  lemma OneMoreLogged<M>(made: seq<WirePacket<M>>, w: WirePacket<M>, c: nat)
    requires forall i :: 0 <= i < |made| ==> c < |made[i].ids| && c < |made[i].clocks|
    requires c < |w.ids| && c < |w.clocks|
    ensures LogOf(made + [w], c) == LogOf(made, c) + [Shipment(w.ids[c], w.clocks[c], MessagesFor(w.data, c))]
  {
  }

  lemma AckIsEvent<M>(setup: Setup<M>, end: End<M>, number: nat, c: nat) returns (event: Event<M>)
    requires WellFormedEnd(setup, end) && MadeValid(setup, end) && setup.Reliable(c)
    requires setup.configs[c].Valid()
    ensures WellFormedEnd(setup, ApplyAck(setup, end, number))
    ensures MadeValid(setup, ApplyAck(setup, end, number))
    ensures Becomes(setup.configs[c], OutboxOf(setup, end, c), event,
                    OutboxOf(setup, ApplyAck(setup, end, number), c))
  {
    if AckPanics(end.connection.channels, Wrap(number)) {
      assert ApplyAck(setup, end, number) == end.(panicked := true);
      event := Nothing;
    } else {
      AckApplies(setup, end, number);
      AckKeepsWellFormed(setup, end, number);
      event := Learns(Wrap(number));
    }
  }

  lemma TimeIsEvent<M>(setup: Setup<M>, end: End<M>, time: real, c: nat) returns (event: Event<M>)
    requires WellFormedEnd(setup, end) && MadeValid(setup, end) && setup.Reliable(c)
    requires setup.configs[c].Valid()
    ensures WellFormedEnd(setup, ApplyTime(end, time))
    ensures MadeValid(setup, ApplyTime(end, time))
    ensures Becomes(setup.configs[c], OutboxOf(setup, end, c), event, OutboxOf(setup, ApplyTime(end, time), c))
  {
    TimeKeepsWellFormed(setup, end, time);
    event := if c <= FirstInError(end.connection.channels, 0) then Waits(time) else Nothing;
  }

  /** What its own sending half depends on did not change. */
  lemma SameIsNothing<M>(setup: Setup<M>, a: End<M>, b: End<M>, c: nat)
    requires WellFormedEnd(setup, a) && MadeValid(setup, a) && setup.Reliable(c) && setup.configs[c].Valid()
    requires WellFormedEnd(setup, b) && SendsTheSame(setup, a, b)
    ensures MadeValid(setup, b) && Becomes(setup.configs[c], OutboxOf(setup, a, c), Nothing, OutboxOf(setup, b, c))
  {
  }

  /** The end's packets tell the story of this channel. */
  ghost predicate Tells<M>(setup: Setup<M>, end: End<M>, c: nat)
    requires setup.Reliable(c) && setup.configs[c].Valid()
  {
    WellFormedEnd(setup, end) && MadeValid(setup, end) && Remembered(setup.configs[c], OutboxOf(setup, end, c))
  }

  lemma OwnStepTells<M>(setup: Setup<M>, end: End<M>, action: Action<M>, c: nat) returns (end': End<M>)
    requires Supported(setup.configs) && setup.Reliable(c) && setup.configs[c].Valid() && Tells(setup, end, c)
    requires action.Send? || action.Generate? || action.Ack? || action.AdvanceTime?
    requires action.Send? ==> action.channel < |setup.configs|
    requires action.Generate? ==> NumberIsClear(setup, end, GenerateAt(setup, end, action.bytes))
    ensures end' == match action
                    case Send(_, i, message) => ApplySend(setup, end, i, message)
                    case Generate(_, bytes) => ApplyGenerate(setup, end, bytes)
                    case Ack(_, number) => ApplyAck(setup, end, number)
                    case AdvanceTime(_, time) => ApplyTime(end, time)
    ensures Tells(setup, end', c)
  {
    var event;
    if action.Send? {
      event := SendIsEvent(setup, end, action.channel, action.message, c);
      end' := ApplySend(setup, end, action.channel, action.message);
    } else if action.Generate? {
      event := GenerateIsEvent(setup, end, action.bytes, c);
      end' := ApplyGenerate(setup, end, action.bytes);
    } else if action.Ack? {
      event := AckIsEvent(setup, end, action.number, c);
      end' := ApplyAck(setup, end, action.number);
    } else {
      event := TimeIsEvent(setup, end, action.time, c);
      end' := ApplyTime(end, action.time);
    }
    EventIsRemembered(setup.configs[c], OutboxOf(setup, end, c), event, OutboxOf(setup, end', c));
  }

  lemma SameTells<M>(setup: Setup<M>, a: End<M>, b: End<M>, c: nat)
    requires setup.Reliable(c) && setup.configs[c].Valid() && Tells(setup, a, c)
    requires WellFormedEnd(setup, b) && SendsTheSame(setup, a, b)
    ensures Tells(setup, b, c)
  {
    SameIsNothing(setup, a, b, c);
  }

  lemma ReceiveTells<M>(setup: Setup<M>, end: End<M>, i: nat, c: nat)
    requires setup.Reliable(c) && setup.configs[c].Valid() && Tells(setup, end, c) && i < |setup.configs|
    ensures Tells(setup, ApplyReceive(setup, end, i), c)
  {
    ReceiveKeepsWellFormed(setup, end, i);
    SameTells(setup, end, ApplyReceive(setup, end, i), c);
  }

  lemma DropTells<M>(setup: Setup<M>, end: End<M>, w: WirePacket<M>, c: nat)
    requires setup.Reliable(c) && setup.configs[c].Valid() && Tells(setup, end, c)
    ensures Tells(setup, ApplyDrop(end, w), c)
  {
    assert OutboxOf(setup, ApplyDrop(end, w), c) == OutboxOf(setup, end, c);
  }

  lemma ProcessedTells<M>(setup: Setup<M>, end: End<M>, processed: set<nat>, c: nat)
    requires setup.Reliable(c) && setup.configs[c].Valid() && Tells(setup, end, c)
    ensures Tells(setup, end.(processed := processed), c)
  {
    assert OutboxOf(setup, end.(processed := processed), c) == OutboxOf(setup, end, c);
  }

  lemma ArrivalTells<M>(setup: Setup<M>, a: End<M>, b: End<M>, c: nat)
    requires setup.Reliable(c) && setup.configs[c].Valid() && Tells(setup, a, c) && WellFormedEnd(setup, b)
    requires b == a.(processed := b.processed) || SendsTheSame(setup, a, b)
    ensures Tells(setup, b, c)
  {
    if b == a.(processed := b.processed) {
      ProcessedTells(setup, a, b.processed, c);
    } else {
      SameTells(setup, a, b, c);
    }
  }

  lemma DeliveryTells<M(!new)>(setup: Setup<M>, net: Net<M>, i: nat, w: WirePacket<M>, e: nat, c: nat)
    requires SetupUsable(setup) && Enabled(setup, net, Deliver(i, w)) && WireValid(setup, w)
    requires e < 2 && setup.Reliable(c) && Tells(setup, net[e], c)
    ensures WellFormedNet(setup, Apply(setup, net, Deliver(i, w)))
    ensures Tells(setup, Apply(setup, net, Deliver(i, w))[e], c)
  {
    DeliverIsAllowed(setup, net, i, w);
    Steps.DeliverIsQuiet(setup, net, i, w, c);
    Steps.ArrivedAtEnd(setup, net, Apply(setup, net, Deliver(i, w)), i, e, c);
    ArrivalTells(setup, net[e], Apply(setup, net, Deliver(i, w))[e], c);
  }

  lemma EndStepTells<M>(setup: Setup<M>, net: Net<M>, action: Action<M>, e: nat, c: nat)
    requires Supported(setup.configs) && Enabled(setup, net, action) && !action.Deliver?
    requires e < 2 && setup.Reliable(c) && setup.configs[c].Valid() && Tells(setup, net[e], c)
    ensures |Apply(setup, net, action)| == 2 && Tells(setup, Apply(setup, net, action)[e], c)
  {
    var i := action.end;
    if e != i {
      assert Apply(setup, net, action)[e] == net[e];
    } else if action.Receive? {
      ReceiveTells(setup, net[i], action.channel, c);
    } else if action.Drop? {
      DropTells(setup, net[i], action.packet, c);
    } else {
      var end' := OwnStepTells(setup, net[i], action, c);
    }
  }

  lemma StepTells<M(!new)>(
    setup: Setup<M>, net: Net<M>, action: Action<M>, e: nat, c: nat)
    requires SetupUsable(setup) && Enabled(setup, net, action) && (action.Deliver? ==> WireValid(setup, action.packet))
    requires e < 2 && setup.Reliable(c) && Tells(setup, net[e], c)
    ensures |Apply(setup, net, action)| == 2 && Tells(setup, Apply(setup, net, action)[e], c)
  {
    if action.Deliver? {
      DeliveryTells(setup, net, action.end, action.packet, e, c);
    } else {
      EndStepTells(setup, net, action, e, c);
    }
  }

  lemma {:induction false} RunTells<M(!new)>(
    setup: Setup<M>, net: Net<M>, actions: seq<Action<M>>, s: seq<seq<P.System<M>>>, e: nat, c: nat)
    requires SetupValid(setup) && Simulated(setup, net, s) && Legal(setup, net, actions)
    requires e < 2 && setup.Reliable(c) && Tells(setup, net[e], c)
    ensures |Run(setup, net, actions)| == 2 && Tells(setup, Run(setup, net, actions)[e], c)
    decreases |actions|
  {
    if actions == [] {
    } else {
      if actions[0].Deliver? {
        FlightIsValid(setup, net, actions[0].end, s, actions[0].packet);
      }
      StepTells(setup, net, actions[0], e, c);
      var s' := StepSimulated(setup, net, actions[0], s);
      RunTells(setup, Apply(setup, net, actions[0]), actions[1..], s', e, c);
    }
  }

  lemma NewTells<M(!new)>(setup: Setup<M>, time: real, c: nat)
    requires SetupUsable(setup) && setup.Reliable(c)
    ensures Tells(setup, NewEnd(setup, time), c)
  {
    NewEndIsWellFormed(setup, time);
    NewIsRemembered<M>(setup.configs[c], time);
    assert OutboxOf(setup, NewEnd(setup, time), c) == Outbox(NewSender(time), [], []);
  }

  lemma InitialTells<M(!new)>(setup: Setup<M>, time: real, time': real, e: nat, c: nat)
    requires SetupUsable(setup) && setup.Reliable(c) && e < 2
    ensures Tells(setup, Initial(setup, time, time')[e], c)
  {
    NewTells(setup, time, c);
    NewTells(setup, time', c);
  }

  lemma StartTells<M(!new)>(setup: Setup<M>, time: real, time': real, actions: seq<Action<M>>, e: nat, c: nat)
    requires SetupValid(setup) && e < 2 && setup.Reliable(c) && Legal(setup, Initial(setup, time, time'), actions)
    ensures |Run(setup, Initial(setup, time, time'), actions)| == 2
    ensures Tells(setup, Run(setup, Initial(setup, time, time'), actions)[e], c)
  {
    var s := InitialSimulated<M>(setup, time, time');
    InitialTells(setup, time, time', e, c);
    RunTells(setup, Initial(setup, time, time'), actions, s, e, c);
  }

  /** In every reachable state each reliable channel is what the packets of its end say. */
  lemma ReachableTells<M(!new)>(setup: Setup<M>, net: Net<M>, e: nat, c: nat)
    requires SetupValid(setup) && Reachable(setup, net) && e < 2 && setup.Reliable(c)
    ensures |net| == 2 && Tells(setup, net[e], c)
  {
    var time, time', actions :| ReachedBy<M>(setup, time, time', actions, net);
    StartTells(setup, time, time', actions, e, c);
  }

  // ---- What packets hold, and when -----------------------------------------------------------

  /** Packet `n` of this end carries message `k` of channel `c`. */
  ghost predicate Carries<M>(end: End<M>, c: nat, n: nat, k: int) {
    n < |end.made| && c < |end.made[n].ids| && c < |end.made[n].clocks| && k in end.made[n].ids[c]
  }

  /** Every packet an end made is the encoding of its data, and what it has for a reliable channel are messages
      accepted on that channel, each under the 16-bit form of its number. */
  lemma PacketsAreGenuine<M(!new)>(setup: Setup<M>, net: Net<M>, e: nat, c: nat, n: nat)
    requires SetupValid(setup) && Reachable(setup, net) && e < 2 && setup.Reliable(c)
    requires |net| == 2 && n < |net[e].made|
    ensures var w := net[e].made[n];
            && w.number == n && WritablePacket(setup.configs, w.data)
            && w.bytes == EncodePacket(setup.configs, setup.codec, w.data)
            && |w.ids| == |w.clocks| == |setup.configs| && c < |net[e].accepted|
            && var ids, messages := w.ids[c], MessagesFor(w.data, c);
               && |messages| == |ids|
               && forall i :: 0 <= i < |ids| ==>
                    0 <= ids[i] < |net[e].accepted[c]| && messages[i] == (Wrap(ids[i]), net[e].accepted[c][ids[i]])
  {
    ReachableTells(setup, net, e, c);
    assert WireValid(setup, net[e].made[n]);
    var o := OutboxOf(setup, net[e], c);
    assert P.Genuine(o.accepted, o.log[n].ids, o.log[n].messages);
  }

  /** No message is in two packets unless its resend time passed from one to the next. */
  lemma MessagesWait<M(!new)>(setup: Setup<M>, net: Net<M>, e: nat, c: nat, m: nat, n: nat, k: int)
    requires SetupValid(setup) && Reachable(setup, net) && e < 2 && setup.Reliable(c)
    requires |net| == 2 && m < n && Carries(net[e], c, m, k) && Carries(net[e], c, n, k)
    requires setup.configs[c].messageResendTime >= 0.0
    ensures net[e].made[m].clocks[c] + setup.configs[c].messageResendTime <= net[e].made[n].clocks[c]
  {
    ReachableTells(setup, net, e, c);
    SentApart(setup.configs[c], OutboxOf(setup, net[e], c).log, m, n, k);
  }

  /** The next packet carries message `k` if and only if it is unacked, within the window that both queues allow, has
      waited for its resend time since the last packet it was in, and has room at its turn. */
  lemma NextPacketIsExact<M(!new)>(
    setup: Setup<M>, net: Net<M>, e: nat, bytes: nat, c: nat, share: nat, k: int)
    requires SetupValid(setup) && Reachable(setup, net) && e < 2 && setup.Reliable(c) && WellFormedNet(setup, net)
    requires GenerateAt(setup, net[e], bytes).Generated?
    requires IsShare(setup.configs[c], PacketRules.BitsLeft(setup, net[e], bytes, c), share)
    ensures MadeValid(setup, net[e])
    ensures var config, s := setup.configs[c], SenderOf(setup, net[e], c);
            var ids := ChosenBy(setup, net[e], bytes, c);
            && (forall j :: j in Earlier(ids, k) ==> j in s.queue)
            && (k in ids <==>
                  && k in s.queue
                  && k < s.oldest + config.messageSendQueueSize && k < s.oldest + config.messageReceiveQueueSize
                  && LastSent(LogOf(net[e].made, c), k) + config.messageResendTime <= s.time
                  && FitsAfter(config, s, share, 32, 0, Earlier(ids, k), k))
  {
    ReachableTells(setup, net, e, c);
    PacketRules.ReliablePartIsExact(setup, net[e], bytes, c, share, k);
  }

  lemma {:induction false} NotSentSince<M>(log: seq<Shipment<M>>, m: nat, k: int)
    requires m < |log| && k in log[m].ids && forall n :: m < n < |log| ==> k !in log[n].ids
    ensures LastSent(log, k) == log[m].clock
    decreases |log|
  {
    if m < |log| - 1 {
      NotSentSince(log[..|log| - 1], m, k);
    }
  }

  lemma NotCarriedSince<M>(setup: Setup<M>, end: End<M>, c: nat, m: nat, k: int)
    requires WellFormedEnd(setup, end) && MadeValid(setup, end) && setup.Reliable(c)
    requires Carries(end, c, m, k) && forall n :: m < n ==> !Carries(end, c, n, k)
    ensures LastSent(LogOf(end.made, c), k) == end.made[m].clocks[c]
  {
    var log := LogOf(end.made, c);
    forall n | m < n < |log|
      ensures k !in log[n].ids
    {
      assert !Carries(end, c, n, k);
    }
    NotSentSince(log, m, k);
  }

  /** So a message that was sent is in no packet before its resend time has passed. */
  lemma NotBeforeItsTime<M(!new)>(setup: Setup<M>, net: Net<M>, e: nat, bytes: nat, c: nat, m: nat, k: int)
    requires SetupValid(setup) && Reachable(setup, net) && e < 2 && setup.Reliable(c) && WellFormedNet(setup, net)
    requires GenerateAt(setup, net[e], bytes).Generated?
    requires Carries(net[e], c, m, k) && forall n :: m < n ==> !Carries(net[e], c, n, k)
    requires SenderOf(setup, net[e], c).time < net[e].made[m].clocks[c] + setup.configs[c].messageResendTime
    ensures k !in ChosenBy(setup, net[e], bytes, c)
  {
    ReachableTells(setup, net, e, c);
    NotCarriedSince(setup, net[e], c, m, k);
    NextPacketIsExact(setup, net, e, bytes, c,
                      setup.configs[c].BitsFor(PacketRules.BitsLeft(setup, net[e], bytes, c)), k);
  }
}
