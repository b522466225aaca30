/** What one step of two connections does to one channel of one end. */
module Steps {
  import opened Wrap16
  import opened Options
  import opened Configs
  import opened Codec
  import opened ReliableSpec
  import opened ConnectionSpec
  import opened ConnectionProtocol
  import opened Isolation
  import opened Guarantees
  import C = ChannelSpec
  import P = Protocol

  lemma StepKeepsWellFormed<M(!new)>(setup: Setup<M>, net: Net<M>, action: Action<M>, s: seq<seq<P.System<M>>>)
    requires SetupValid(setup) && Simulated(setup, net, s) && Enabled(setup, net, action)
    ensures WellFormedNet(setup, Apply(setup, net, action))
  {
    var s' := StepSimulated(setup, net, action, s);
  }

  // ---- Errors, counters and what users see ---------------------------------------------------

  /** The user of channel `c` at this end noticed nothing. */
  ghost predicate Quiet<M>(a: End<M>, b: End<M>, c: nat)
    requires c < |a.connection.channels| && c < |b.connection.channels|
    requires c < |a.accepted| && c < |a.received| && c < |a.labels|
    requires c < |b.accepted| && c < |b.received| && c < |b.labels|
  {
    var before, after := a.connection.channels[c], b.connection.channels[c];
    && after.errorLevel == before.errorLevel && after.sent == before.sent && after.received == before.received
    && b.accepted[c] == a.accepted[c] && b.received[c] == a.received[c] && b.labels[c] == a.labels[c]
  }

  /** The user of channel `c` at end `e` sends or receives. */
  ghost predicate IsCall<M>(action: Action<M>, e: nat, c: nat) {
    (action.Send? || action.Receive?) && action.end == e && action.channel == c
  }

  lemma GenerateIsQuiet<M>(setup: Setup<M>, end: End<M>, bytes: nat, c: nat)
    requires WellFormedEnd(setup, end) && Supported(setup.configs) && c < |setup.configs|
    ensures WellFormedEnd(setup, ApplyGenerate(setup, end, bytes))
    ensures Quiet(end, ApplyGenerate(setup, end, bytes), c)
  {
    if GenerateAt(setup, end, bytes).Generated? {
      GenerateKeepsWellFormed(setup, end, bytes);
      ChannelAfterGenerate(setup, end, bytes, c);
    }
  }

  lemma AckIsQuiet<M>(setup: Setup<M>, end: End<M>, number: nat, c: nat)
    requires WellFormedEnd(setup, end) && c < |setup.configs|
    ensures WellFormedEnd(setup, ApplyAck(setup, end, number))
    ensures Quiet(end, ApplyAck(setup, end, number), c)
  {
    if AckPanics(end.connection.channels, Wrap(number)) {
      assert ApplyAck(setup, end, number) == end.(panicked := true);
    } else {
      AckApplies(setup, end, number);
      AckKeepsWellFormed(setup, end, number);
    }
  }

  lemma HandedQuietly<M>(
    setup: Setup<M>, to: End<M>, w: WirePacket<M>, accepted: bool, channels': seq<C.ChannelState<M>>, c: nat)
    requires WellFormedEnd(setup, to) && WireValid(setup, w) && Outcome(setup, to, w, accepted, channels')
    requires c < |setup.configs|
    ensures |channels'| == |setup.configs| && Quiet(to, TookIn(to, w, channels'), c)
  {
    if c in Handed(to, w) {
      assert Took(setup.configs[c], to.connection.channels[c], channels'[c],
                  MessagesFor(AllOnArrival(setup.configs, w.data), c), Wrap(w.number));
    } else {
      assert channels'[c] == to.connection.channels[c];
    }
  }

  /** A packet of end `e` arrived: at the other end, what that end sends and what its users see did not change, and
      at end `e` only what was processed. */
  ghost predicate Arrived<M>(setup: Setup<M>, net: Net<M>, net': Net<M>, e: nat, c: nat)
    requires WellFormedNet(setup, net) && e < 2 && c < |setup.configs|
  {
    && WellFormedNet(setup, net')
    && Quiet(net[1 - e], net'[1 - e], c) && SendsTheSame(setup, net[1 - e], net'[1 - e])
    && net'[e] == net[e].(processed := net'[e].processed)
  }

  lemma PanickedQuietly<M>(setup: Setup<M>, net: Net<M>, e: nat, c: nat)
    requires WellFormedNet(setup, net) && e < 2 && c < |setup.configs|
    ensures Arrived(setup, net, net[1 - e := net[1 - e].(panicked := true)], e, c)
  {
  }

  lemma TookQuietly<M>(
    setup: Setup<M>, net: Net<M>, e: nat, w: WirePacket<M>, accepted: bool, channels': seq<C.ChannelState<M>>, c: nat)
    requires WellFormedNet(setup, net) && e < 2 && c < |setup.configs| && WireValid(setup, w)
    requires Outcome(setup, net[1 - e], w, accepted, channels')
    ensures Arrived(setup, net, net[e := MarkProcessed(net[e], w.number, accepted)]
                                   [1 - e := TookIn(net[1 - e], w, channels')], e, c)
  {
    DeliverKeepsWellFormed(setup, net[1 - e], w, accepted, channels');
    HandedQuietly(setup, net[1 - e], w, accepted, channels', c);
  }

  /** The packet is handed to channels that are not in error, and does not put them in error. */
  lemma DeliverIsQuiet<M(!new)>(setup: Setup<M>, net: Net<M>, e: nat, w: WirePacket<M>, c: nat)
    requires SetupUsable(setup) && WellFormedNet(setup, net) && e < 2 && c < |setup.configs| && WireValid(setup, w)
    ensures Arrived(setup, net, ApplyDeliver(setup, net, e, w), e, c)
  {
    DeliveryOutcome(setup, net[1 - e], w);
    DeliverApplies(setup, net, e, w);
    match ProcessPacket(setup.configs, setup.codec, net[1 - e].connection, Wrap(w.number), w.bytes)
    case Panicked => PanickedQuietly(setup, net, e, c);
    case Refused(channels') => TookQuietly(setup, net, e, w, false, channels', c);
    case Accepted(channels') => TookQuietly(setup, net, e, w, true, channels', c);
  }

  /** One end did something on its own that its user of channel `c` did not notice. */
  lemma OwnStepIsQuiet<M>(setup: Setup<M>, net: Net<M>, i: nat, end: End<M>, e: nat, c: nat)
    requires WellFormedNet(setup, net) && i < 2 && e < 2 && c < |setup.configs|
    requires WellFormedEnd(setup, end) && Quiet(net[i], end, c)
    ensures WellFormedNet(setup, net[i := end]) && Quiet(net[e], net[i := end][e], c)
  {
  }

  lemma CallIsQuiet<M>(setup: Setup<M>, net: Net<M>, action: Action<M>, e: nat, c: nat)
    requires Supported(setup.configs) && Enabled(setup, net, action) && (action.Send? || action.Receive?)
    requires e < 2 && c < |setup.configs| && !IsCall(action, e, c)
    ensures WellFormedNet(setup, Apply(setup, net, action))
    ensures Quiet(net[e], Apply(setup, net, action)[e], c)
  {
    if action.Send? {
      SendKeepsWellFormed(setup, net[action.end], action.channel, action.message);
    } else {
      ReceiveKeepsWellFormed(setup, net[action.end], action.channel);
    }
  }

  lemma TickIsQuiet<M>(setup: Setup<M>, net: Net<M>, action: Action<M>, e: nat, c: nat)
    requires Supported(setup.configs) && Enabled(setup, net, action)
    requires action.Generate? || action.Ack? || action.AdvanceTime? || action.Drop?
    requires e < 2 && c < |setup.configs|
    ensures WellFormedNet(setup, Apply(setup, net, action))
    ensures Quiet(net[e], Apply(setup, net, action)[e], c)
  {
    var i := action.end;
    if action.Generate? {
      GenerateIsQuiet(setup, net[i], action.bytes, c);
      OwnStepIsQuiet(setup, net, i, ApplyGenerate(setup, net[i], action.bytes), e, c);
    } else if action.Ack? {
      AckIsQuiet(setup, net[i], action.number, c);
      OwnStepIsQuiet(setup, net, i, ApplyAck(setup, net[i], action.number), e, c);
    } else if action.AdvanceTime? {
      TimeKeepsWellFormed(setup, net[i], action.time);
      OwnStepIsQuiet(setup, net, i, ApplyTime(net[i], action.time), e, c);
    } else {
      OwnStepIsQuiet(setup, net, i, ApplyDrop(net[i], action.packet), e, c);
    }
  }

  /** At each end either only what was processed changed, or nothing that it sends. */
  lemma ArrivedAtEnd<M>(setup: Setup<M>, net: Net<M>, net': Net<M>, i: nat, e: nat, c: nat)
    requires WellFormedNet(setup, net) && i < 2 && e < 2 && c < |setup.configs| && Arrived(setup, net, net', i, c)
    ensures |net'| == 2 && WellFormedEnd(setup, net[e]) && WellFormedEnd(setup, net'[e])
    ensures net'[e] == net[e].(processed := net'[e].processed) || SendsTheSame(setup, net[e], net'[e])
  {
    assert e == i || e == 1 - i;
  }

  lemma BothEndsAreQuiet<M>(setup: Setup<M>, net: Net<M>, net': Net<M>, i: nat, e: nat, c: nat)
    requires WellFormedNet(setup, net) && i < 2 && e < 2 && c < |setup.configs| && Arrived(setup, net, net', i, c)
    ensures WellFormedNet(setup, net') && Quiet(net[e], net'[e], c)
  {
    assert e == i || e == 1 - i;
  }

  lemma DeliveryIsQuiet<M(!new)>(setup: Setup<M>, net: Net<M>, i: nat, w: WirePacket<M>, e: nat, c: nat)
    requires SetupUsable(setup) && Enabled(setup, net, Deliver(i, w)) && WireValid(setup, w)
    requires e < 2 && c < |setup.configs|
    ensures WellFormedNet(setup, Apply(setup, net, Deliver(i, w)))
    ensures Quiet(net[e], Apply(setup, net, Deliver(i, w))[e], c)
  {
    DeliverIsAllowed(setup, net, i, w);
    DeliverIsQuiet(setup, net, i, w, c);
    BothEndsAreQuiet(setup, net, Apply(setup, net, Deliver(i, w)), i, e, c);
  }

  /** Only calls of its user change what a channel counts, its error level, and what its user sent and got. */
  lemma OnlyCallsShow<M(!new)>(setup: Setup<M>, net: Net<M>, action: Action<M>, e: nat, c: nat)
    requires SetupUsable(setup) && Enabled(setup, net, action) && (action.Deliver? ==> WireValid(setup, action.packet))
    requires e < 2 && c < |setup.configs| && !IsCall(action, e, c)
    ensures WellFormedNet(setup, Apply(setup, net, action))
    ensures Quiet(net[e], Apply(setup, net, action)[e], c)
  {
    if action.Send? || action.Receive? {
      CallIsQuiet(setup, net, action, e, c);
    } else if action.Deliver? {
      DeliveryIsQuiet(setup, net, action.end, action.packet, e, c);
    } else {
      TickIsQuiet(setup, net, action, e, c);
    }
  }
}
