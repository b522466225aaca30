/** What a connection promises its users, in every state that any run of two ends and the network can reach. */
module Guarantees {
  import opened Wrap16
  import opened Options
  import opened Configs
  import opened Codec
  import opened ReliableSpec
  import opened ConnectionSpec
  import opened ConnectionProtocol
  import opened Lanes
  import opened Isolation
  import PacketBudget
  import C = ChannelSpec
  import P = Protocol
  import Progress
  import U = UnreliableChannel

  // ---- Steps ---------------------------------------------------------------------------------

  /** Both directions follow their runs; `s[e]` are those of the channels that end `e` sends on. */
  ghost predicate Simulated<M>(setup: Setup<M>, net: Net<M>, s: seq<seq<P.System<M>>>) {
    && WellFormedNet(setup, net) && |s| == 2
    && Direction(setup, net[0], net[1], s[0]) && Direction(setup, net[1], net[0], s[1])
  }

  /** In both directions, every reliable channel took at most one step of its protocol. */
  ghost predicate Moves<M(!new)>(setup: Setup<M>, s: seq<seq<P.System<M>>>, s': seq<seq<P.System<M>>>) {
    |s| == 2 && |s'| == 2 && AllMoveOn(setup, s[0], s'[0]) && AllMoveOn(setup, s[1], s'[1])
  }

  lemma NoneMoves<M(!new)>(setup: Setup<M>, from: End<M>, to: End<M>, shadows: seq<P.System<M>>)
    requires Direction(setup, from, to, shadows)
    ensures AllMoveOn(setup, shadows, shadows)
  {
    forall c: nat | c < |setup.configs|
      ensures MovesOn(setup, c, shadows[c], shadows[c])
    {
      assert ChannelFollows(setup, from, to, c, shadows[c]);
      StaysStill(setup, from, to, c, shadows[c]);
    }
  }

  lemma NothingMoves<M(!new)>(setup: Setup<M>, net: Net<M>, s: seq<seq<P.System<M>>>)
    requires Simulated(setup, net, s)
    ensures Moves(setup, s, s)
  {
    NoneMoves(setup, net[0], net[1], s[0]);
    NoneMoves(setup, net[1], net[0], s[1]);
  }

  /** Only the channels of one direction took a step. */
  lemma OneDirectionMoves<M(!new)>(
    setup: Setup<M>, net: Net<M>, e: nat, s: seq<seq<P.System<M>>>, shadows: seq<P.System<M>>)
    requires Simulated(setup, net, s) && e < 2 && AllMoveOn(setup, s[e], shadows)
    ensures Moves(setup, s, s[e := shadows])
  {
    NothingMoves(setup, net, s);
  }

  /** End `e` took a step as a sender. */
  lemma SenderStep<M>(
    setup: Setup<M>, net: Net<M>, e: nat, end: End<M>, s: seq<seq<P.System<M>>>, shadows: seq<P.System<M>>)
    requires Simulated(setup, net, s) && e < 2
    requires Direction(setup, end, net[1 - e], shadows) && ReceivesTheSame(setup, net[e], end)
    ensures Simulated(setup, net[e := end], s[e := shadows])
  {
    DirectionFrame(setup, net[1 - e], net[e], net[1 - e], end, s[1 - e]);
  }

  /** End `e` took a step as a receiver. */
  lemma ReceiverStep<M>(
    setup: Setup<M>, net: Net<M>, e: nat, end: End<M>, s: seq<seq<P.System<M>>>, shadows: seq<P.System<M>>)
    requires Simulated(setup, net, s) && e < 2
    requires Direction(setup, net[1 - e], end, shadows) && SendsTheSame(setup, net[e], end)
    ensures Simulated(setup, net[e := end], s[1 - e := shadows])
  {
    DirectionFrame(setup, net[e], net[1 - e], end, net[1 - e], s[e]);
  }

  /** A packet of end `e` was taken in, or refused, at the other end. */
  lemma DeliveryStep<M>(
    setup: Setup<M>, net: Net<M>, e: nat, from: End<M>, to: End<M>, s: seq<seq<P.System<M>>>, shadows: seq<P.System<M>>)
    requires Simulated(setup, net, s) && e < 2
    requires Direction(setup, from, to, shadows)
    requires SendsTheSame(setup, net[1 - e], to) && ReceivesTheSame(setup, net[e], from)
    ensures Simulated(setup, net[e := from][1 - e := to], s[e := shadows])
  {
    DirectionFrame(setup, net[1 - e], net[e], to, from, s[1 - e]);
  }

  /** An end that panicked keeps its messages where they were. */
  lemma PanicStep<M>(setup: Setup<M>, net: Net<M>, e: nat, s: seq<seq<P.System<M>>>)
    requires Simulated(setup, net, s) && e < 2
    ensures Simulated(setup, net[e := net[e].(panicked := true)], s)
  {
    var end := net[e].(panicked := true);
    DirectionFrame(setup, net[e], net[1 - e], end, net[1 - e], s[e]);
    DirectionFrame(setup, net[1 - e], net[e], net[1 - e], end, s[1 - e]);
  }

  lemma DropKeepsDirection<M>(setup: Setup<M>, from: End<M>, to: End<M>, w: WirePacket<M>, shadows: seq<P.System<M>>)
    requires Direction(setup, from, to, shadows)
    ensures Direction(setup, ApplyDrop(from, w), to, shadows)
  {
    var from' := ApplyDrop(from, w);
    forall c: nat | c < |setup.configs|
      ensures ChannelFollows(setup, from', to, c, shadows[c])
    {
      assert ChannelFollows(setup, from, to, c, shadows[c]);
      DropOnChannel(setup, from, to, w, c, shadows[c]);
    }
  }

  lemma DropOnChannel<M>(setup: Setup<M>, from: End<M>, to: End<M>, w: WirePacket<M>, c: nat, shadow: P.System<M>)
    requires WellFormedEnd(setup, from) && WellFormedEnd(setup, to) && c < |setup.configs|
    requires ChannelFollows(setup, from, to, c, shadow)
    ensures ChannelFollows(setup, ApplyDrop(from, w), to, c, shadow)
  {
    if setup.Reliable(c) {
      var flight, lane := from.flight - {w}, LaneOf(setup, from, to, c);
      FewerProcessedFollows(setup.configs[c], setup.Size(), lane, shadow, PacketsFor(flight, c), lane.processed);
      assert LaneOf(setup, ApplyDrop(from, w), to, c)
          == lane.(packets := PacketsFor(flight, c), processed := lane.processed);
    } else {
      assert LooseOf(setup, ApplyDrop(from, w), to, c) == LooseOf(setup, from, to, c);
    }
  }

  lemma BothDirections<M>(setup: Setup<M>, net: Net<M>, e: nat, s: seq<seq<P.System<M>>>)
    requires Simulated(setup, net, s) && e < 2
    ensures Direction(setup, net[e], net[1 - e], s[e]) && Direction(setup, net[1 - e], net[e], s[1 - e])
  {
  }

  lemma SendSimulated<M(!new)>(setup: Setup<M>, net: Net<M>, e: nat, channel: nat, message: M, s: seq<seq<P.System<M>>>)
    returns (s': seq<seq<P.System<M>>>)
    requires SetupValid(setup) && Simulated(setup, net, s) && e < 2 && channel < |setup.configs|
    ensures Simulated(setup, net[e := ApplySend(setup, net[e], channel, message)], s') && Moves(setup, s, s')
  {
    BothDirections(setup, net, e, s);
    var shadows := SendKeepsDirection(setup, net[e], net[1 - e], channel, message, s[e]);
    SendKeepsWellFormed(setup, net[e], channel, message);
    SenderStep(setup, net, e, ApplySend(setup, net[e], channel, message), s, shadows);
    OneDirectionMoves(setup, net, e, s, shadows);
    s' := s[e := shadows];
  }

  lemma ReceiveSimulated<M(!new)>(setup: Setup<M>, net: Net<M>, e: nat, channel: nat, s: seq<seq<P.System<M>>>)
    returns (s': seq<seq<P.System<M>>>)
    requires SetupValid(setup) && Simulated(setup, net, s) && e < 2 && channel < |setup.configs|
    ensures Simulated(setup, net[e := ApplyReceive(setup, net[e], channel)], s') && Moves(setup, s, s')
  {
    BothDirections(setup, net, e, s);
    var shadows := ReceiveKeepsDirection(setup, net[1 - e], net[e], channel, s[1 - e]);
    ReceiveKeepsWellFormed(setup, net[e], channel);
    ReceiverStep(setup, net, e, ApplyReceive(setup, net[e], channel), s, shadows);
    OneDirectionMoves(setup, net, 1 - e, s, shadows);
    s' := s[1 - e := shadows];
  }

  lemma GenerateSimulated<M(!new)>(setup: Setup<M>, net: Net<M>, e: nat, bytes: nat, s: seq<seq<P.System<M>>>)
    returns (s': seq<seq<P.System<M>>>)
    requires SetupValid(setup) && Simulated(setup, net, s) && e < 2
    requires NumberIsClear(setup, net[e], GenerateAt(setup, net[e], bytes))
    ensures Simulated(setup, net[e := ApplyGenerate(setup, net[e], bytes)], s') && Moves(setup, s, s')
  {
    BothDirections(setup, net, e, s);
    if GenerateAt(setup, net[e], bytes).Underflowed? {
      PanicStep(setup, net, e, s);
      NothingMoves(setup, net, s);
      s' := s;
    } else {
      var shadows := GenerateKeepsDirection(setup, net[e], net[1 - e], bytes, s[e]);
      GenerateKeepsWellFormed(setup, net[e], bytes);
      SenderStep(setup, net, e, ApplyGenerate(setup, net[e], bytes), s, shadows);
      OneDirectionMoves(setup, net, e, s, shadows);
      s' := s[e := shadows];
    }
  }

  lemma TakenIn<M(!new)>(
    setup: Setup<M>, net: Net<M>, e: nat, w: WirePacket<M>, accepted: bool, channels': seq<C.ChannelState<M>>,
    s: seq<seq<P.System<M>>>)
    returns (s': seq<seq<P.System<M>>>)
    requires SetupValid(setup) && Simulated(setup, net, s) && e < 2
    requires WireValid(setup, w) && w in net[e].flight && NotTooLate(setup, net[1 - e], w)
    requires Outcome(setup, net[1 - e], w, accepted, channels')
    ensures Simulated(setup, net[e := MarkProcessed(net[e], w.number, accepted)]
                                [1 - e := TookIn(net[1 - e], w, channels')], s')
    ensures Moves(setup, s, s')
  {
    BothDirections(setup, net, e, s);
    var from, to := MarkProcessed(net[e], w.number, accepted), TookIn(net[1 - e], w, channels');
    var shadows := DeliverKeepsDirection(setup, net[e], net[1 - e], w, accepted, channels', s[e]);
    DeliverKeepsWellFormed(setup, net[1 - e], w, accepted, channels');
    DeliveryStep(setup, net, e, from, to, s, shadows);
    OneDirectionMoves(setup, net, e, s, shadows);
    s' := s[e := shadows];
  }

  lemma FlightIsValid<M>(setup: Setup<M>, net: Net<M>, e: nat, s: seq<seq<P.System<M>>>, w: WirePacket<M>)
    requires Simulated(setup, net, s) && e < 2 && w in net[e].flight
    ensures WireValid(setup, w)
  {
  }

  lemma DeliverApplies<M>(setup: Setup<M>, net: Net<M>, e: nat, w: WirePacket<M>)
    requires WellFormedNet(setup, net) && e < 2
    ensures var to := net[1 - e];
            ApplyDeliver(setup, net, e, w)
            == match ProcessPacket(setup.configs, setup.codec, to.connection, Wrap(w.number), w.bytes)
               case Panicked => net[1 - e := to.(panicked := true)]
               case Refused(channels) =>
                 net[e := MarkProcessed(net[e], w.number, false)][1 - e := TookIn(to, w, channels)]
               case Accepted(channels) =>
                 net[e := MarkProcessed(net[e], w.number, true)][1 - e := TookIn(to, w, channels)]
  {
    assert net[e := MarkProcessed(net[e], w.number, false)] == net;
  }

  lemma DeliverSimulated<M(!new)>(setup: Setup<M>, net: Net<M>, e: nat, w: WirePacket<M>, s: seq<seq<P.System<M>>>)
    returns (s': seq<seq<P.System<M>>>)
    requires SetupValid(setup) && Simulated(setup, net, s) && e < 2
    requires w in net[e].flight && NotTooLate(setup, net[1 - e], w)
    ensures Simulated(setup, ApplyDeliver(setup, net, e, w), s') && Moves(setup, s, s')
  {
    FlightIsValid(setup, net, e, s, w);
    DeliveryOutcome(setup, net[1 - e], w);
    DeliverApplies(setup, net, e, w);
    match ProcessPacket(setup.configs, setup.codec, net[1 - e].connection, Wrap(w.number), w.bytes)
    case Panicked =>
      PanicStep(setup, net, 1 - e, s);
      NothingMoves(setup, net, s);
      s' := s;
    case Refused(channels') =>
      s' := TakenIn(setup, net, e, w, false, channels', s);
    case Accepted(channels') =>
      s' := TakenIn(setup, net, e, w, true, channels', s);
  }

  lemma AckSimulated<M(!new)>(setup: Setup<M>, net: Net<M>, e: nat, number: nat, s: seq<seq<P.System<M>>>)
    returns (s': seq<seq<P.System<M>>>)
    requires SetupValid(setup) && Simulated(setup, net, s) && e < 2 && AckIsDue(setup, net[e], number)
    ensures Simulated(setup, net[e := ApplyAck(setup, net[e], number)], s') && Moves(setup, s, s')
  {
    BothDirections(setup, net, e, s);
    AckIsFresh(setup, net[e], net[1 - e], number, s[e]);
    AckApplies(setup, net[e], number);
    var shadows := AckKeepsDirection(setup, net[e], net[1 - e], number, s[e]);
    AckKeepsWellFormed(setup, net[e], number);
    SenderStep(setup, net, e, AckedEnd(setup, net[e], number), s, shadows);
    OneDirectionMoves(setup, net, e, s, shadows);
    s' := s[e := shadows];
  }

  lemma TimeSimulated<M(!new)>(setup: Setup<M>, net: Net<M>, e: nat, time: real, s: seq<seq<P.System<M>>>)
    returns (s': seq<seq<P.System<M>>>)
    requires SetupValid(setup) && Simulated(setup, net, s) && e < 2
    ensures Simulated(setup, net[e := ApplyTime(net[e], time)], s') && Moves(setup, s, s')
  {
    BothDirections(setup, net, e, s);
    var shadows := TimeKeepsDirection(setup, net[e], net[1 - e], time, s[e]);
    TimeKeepsWellFormed(setup, net[e], time);
    SenderStep(setup, net, e, ApplyTime(net[e], time), s, shadows);
    OneDirectionMoves(setup, net, e, s, shadows);
    s' := s[e := shadows];
  }

  lemma DropSimulated<M>(setup: Setup<M>, net: Net<M>, e: nat, w: WirePacket<M>, s: seq<seq<P.System<M>>>)
    requires Simulated(setup, net, s) && e < 2
    ensures Simulated(setup, net[e := ApplyDrop(net[e], w)], s)
  {
    BothDirections(setup, net, e, s);
    DropKeepsDirection(setup, net[e], net[1 - e], w, s[e]);
    SenderStep(setup, net, e, ApplyDrop(net[e], w), s, s[e]);
    assert s[e := s[e]] == s;
  }

  lemma UserStepSimulated<M(!new)>(setup: Setup<M>, net: Net<M>, action: Action<M>, s: seq<seq<P.System<M>>>)
    returns (s': seq<seq<P.System<M>>>)
    requires SetupValid(setup) && Simulated(setup, net, s) && Enabled(setup, net, action)
    requires action.Send? || action.Receive?
    ensures Simulated(setup, Apply(setup, net, action), s') && Moves(setup, s, s')
  {
    if action.Send? {
      s' := SendSimulated(setup, net, action.end, action.channel, action.message, s);
    } else {
      s' := ReceiveSimulated(setup, net, action.end, action.channel, s);
    }
  }

  lemma TickSimulated<M(!new)>(setup: Setup<M>, net: Net<M>, action: Action<M>, s: seq<seq<P.System<M>>>)
    returns (s': seq<seq<P.System<M>>>)
    requires SetupValid(setup) && Simulated(setup, net, s) && Enabled(setup, net, action)
    requires action.Generate? || action.Ack? || action.AdvanceTime? || action.Drop?
    ensures Simulated(setup, Apply(setup, net, action), s') && Moves(setup, s, s')
  {
    if action.Generate? {
      s' := GenerateSimulated(setup, net, action.end, action.bytes, s);
    } else if action.Ack? {
      s' := AckSimulated(setup, net, action.end, action.number, s);
    } else if action.Drop? {
      DropSimulated(setup, net, action.end, action.packet, s);
      NothingMoves(setup, net, s);
      s' := s;
    } else {
      s' := TimeSimulated(setup, net, action.end, action.time, s);
    }
  }

  lemma MayDeliver<M>(setup: Setup<M>, net: Net<M>, e: nat, w: WirePacket<M>)
    requires WellFormedNet(setup, net) && e < 2 && !net[1 - e].panicked && w in net[e].flight
    requires NotTooLate(setup, net[1 - e], w)
    ensures Enabled(setup, net, Deliver(e, w))
  {
  }

  lemma DeliverIsAllowed<M>(setup: Setup<M>, net: Net<M>, e: nat, w: WirePacket<M>)
    requires Enabled(setup, net, Deliver(e, w)) && Supported(setup.configs)
    ensures WellFormedNet(setup, net) && e < 2 && w in net[e].flight && NotTooLate(setup, net[1 - e], w)
    ensures !net[1 - e].panicked
    ensures Apply(setup, net, Deliver(e, w)) == ApplyDeliver(setup, net, e, w)
  {
  }

  lemma DeliverStepSimulated<M(!new)>(setup: Setup<M>, net: Net<M>, e: nat, w: WirePacket<M>, s: seq<seq<P.System<M>>>)
    returns (s': seq<seq<P.System<M>>>)
    requires SetupValid(setup) && Simulated(setup, net, s) && Enabled(setup, net, Deliver(e, w))
    ensures Simulated(setup, Apply(setup, net, Deliver(e, w)), s') && Moves(setup, s, s')
  {
    DeliverIsAllowed(setup, net, e, w);
    s' := DeliverSimulated(setup, net, e, w, s);
  }

  /** Every step of the two ends and the network is, for every reliable channel and direction, one step of the protocol
      of that channel, or none. */
  lemma StepSimulated<M(!new)>(setup: Setup<M>, net: Net<M>, action: Action<M>, s: seq<seq<P.System<M>>>)
    returns (s': seq<seq<P.System<M>>>)
    requires SetupValid(setup) && Simulated(setup, net, s) && Enabled(setup, net, action)
    ensures Simulated(setup, Apply(setup, net, action), s') && Moves(setup, s, s')
  {
    if action.Deliver? {
      s' := DeliverStepSimulated(setup, net, action.end, action.packet, s);
    } else if action.Send? || action.Receive? {
      s' := UserStepSimulated(setup, net, action, s);
    } else {
      s' := TickSimulated(setup, net, action, s);
    }
  }

  // ---- Runs ----------------------------------------------------------------------------------

  ghost predicate Legal<M>(setup: Setup<M>, net: Net<M>, actions: seq<Action<M>>)
    requires Supported(setup.configs)
    decreases |actions|
  {
    actions != [] ==>
      Enabled(setup, net, actions[0]) && Legal(setup, Apply(setup, net, actions[0]), actions[1..])
  }

  ghost function Run<M>(setup: Setup<M>, net: Net<M>, actions: seq<Action<M>>): Net<M>
    requires Supported(setup.configs) && Legal(setup, net, actions)
    decreases |actions|
  {
    if actions == [] then net else Run(setup, Apply(setup, net, actions[0]), actions[1..])
  }

  /** Each of these runs is one that the protocol of its channel can take from the start. */
  ghost predicate AllReachable<M(!new)>(setup: Setup<M>, s: seq<seq<P.System<M>>>) {
    forall e: nat, c: nat :: e < |s| && c < |s[e]| && setup.Reliable(c) ==>
      setup.configs[c].Valid() && P.Reachable(setup.configs[c], s[e][c])
  }

  lemma ReachableMovesOn<M(!new)>(setup: Setup<M>, c: nat, shadow: P.System<M>, shadow': P.System<M>)
    requires setup.Reliable(c) && MovesOn(setup, c, shadow, shadow') && P.Reachable(setup.configs[c], shadow)
    ensures P.Reachable(setup.configs[c], shadow')
  {
    var config := setup.configs[c];
    if shadow' != shadow {
      var action :| P.Enabled(config, shadow, action) && P.Apply(config, shadow, action) == shadow';
      Progress.ReachableStep(config, shadow, action);
    }
  }

  lemma AllReachableMove<M(!new)>(setup: Setup<M>, s: seq<seq<P.System<M>>>, s': seq<seq<P.System<M>>>)
    requires AllReachable(setup, s) && Moves(setup, s, s')
    ensures AllReachable(setup, s')
  {
    forall e: nat, c: nat | e < |s'| && c < |s'[e]| && setup.Reliable(c)
      ensures setup.configs[c].Valid() && P.Reachable(setup.configs[c], s'[e][c])
    {
      assert MovesOn(setup, c, s[e][c], s'[e][c]);
      ReachableMovesOn(setup, c, s[e][c], s'[e][c]);
    }
  }

  lemma {:induction false} RunSimulated<M(!new)>(
    setup: Setup<M>, net: Net<M>, actions: seq<Action<M>>, s: seq<seq<P.System<M>>>)
    returns (s': seq<seq<P.System<M>>>)
    requires SetupValid(setup) && Simulated(setup, net, s) && AllReachable(setup, s) && Legal(setup, net, actions)
    ensures Simulated(setup, Run(setup, net, actions), s') && AllReachable(setup, s')
    decreases |actions|
  {
    if actions == [] {
      s' := s;
    } else {
      var s1 := StepSimulated(setup, net, actions[0], s);
      AllReachableMove(setup, s, s1);
      s' := RunSimulated(setup, Apply(setup, net, actions[0]), actions[1..], s1);
    }
  }

  lemma InitialDirection<M(!new)>(setup: Setup<M>, time: real, time': real) returns (shadows: seq<P.System<M>>)
    requires SetupValid(setup)
    ensures Direction(setup, NewEnd(setup, time), NewEnd(setup, time'), shadows)
    ensures shadows == seq(|setup.configs|, _ => P.Initial<M>(time))
  {
    var from, to := NewEnd(setup, time), NewEnd(setup, time');
    NewEndIsWellFormed(setup, time);
    NewEndIsWellFormed(setup, time');
    shadows := seq(|setup.configs|, _ => P.Initial<M>(time));
    forall c: nat | c < |setup.configs|
      ensures ChannelFollows(setup, from, to, c, shadows[c])
    {
      InitialChannel(setup, time, time', c);
    }
  }

  lemma NewEndIsWellFormed<M>(setup: Setup<M>, time: real)
    requires forall c: nat :: setup.Reliable(c) ==> setup.configs[c].Valid()
    ensures WellFormedEnd(setup, NewEnd(setup, time))
  {
  }

  lemma InitialChannel<M(!new)>(setup: Setup<M>, time: real, time': real, c: nat)
    requires SetupValid(setup) && c < |setup.configs|
    ensures WellFormedEnd(setup, NewEnd(setup, time)) && WellFormedEnd(setup, NewEnd(setup, time'))
    ensures ChannelFollows(setup, NewEnd(setup, time), NewEnd(setup, time'), c, P.Initial<M>(time))
  {
    NewEndIsWellFormed(setup, time);
    NewEndIsWellFormed(setup, time');
    if setup.Reliable(c) {
      NewLaneFollows(setup.configs[c], setup.Size(), time);
      InitialLane(setup, time, time', c);
    } else {
      NewIsHonest<M>(setup.configs[c]);
      InitialLoose(setup, time, time', c);
    }
  }

  ghost function NewLane<M>(time: real): Lane<M> {
    Lane(NewSender(time), NewReceiver(), [], [], 0, {}, {}, {})
  }

  lemma NewLaneFollows<M>(config: Config, size: M -> nat, time: real)
    requires config.Valid()
    ensures Follows(config, size, NewLane(time), P.Initial<M>(time))
  {
    P.InitialInv<M>(config, time);
  }

  lemma InitialLane<M>(setup: Setup<M>, time: real, time': real, c: nat)
    requires WellFormedEnd(setup, NewEnd(setup, time)) && WellFormedEnd(setup, NewEnd(setup, time'))
    requires setup.Reliable(c)
    ensures LaneOf(setup, NewEnd(setup, time), NewEnd(setup, time'), c) == NewLane(time)
  {
  }

  lemma InitialLoose<M>(setup: Setup<M>, time: real, time': real, c: nat)
    requires WellFormedEnd(setup, NewEnd(setup, time)) && WellFormedEnd(setup, NewEnd(setup, time'))
    requires c < |setup.configs| && !setup.Reliable(c)
    ensures LooseOf(setup, NewEnd(setup, time), NewEnd(setup, time'), c) == Loose([], [], [], [], [], [], [])
  {
  }

  lemma InitialSimulated<M(!new)>(setup: Setup<M>, time: real, time': real) returns (s: seq<seq<P.System<M>>>)
    requires SetupValid(setup)
    ensures Simulated(setup, Initial(setup, time, time'), s) && AllReachable(setup, s)
  {
    var s0 := InitialDirection<M>(setup, time, time');
    var s1 := InitialDirection<M>(setup, time', time);
    TwoDirections(setup, NewEnd(setup, time), NewEnd(setup, time'), s0, s1);
    NewAreReachable<M>(setup, time, time');
    s := [s0, s1];
  }

  lemma TwoDirections<M>(setup: Setup<M>, a: End<M>, b: End<M>, s0: seq<P.System<M>>, s1: seq<P.System<M>>)
    requires Direction(setup, a, b, s0) && Direction(setup, b, a, s1)
    ensures Simulated(setup, [a, b], [s0, s1])
  {
  }

  lemma NewAreReachable<M(!new)>(setup: Setup<M>, time: real, time': real)
    requires SetupValid(setup)
    ensures AllReachable(setup, [seq(|setup.configs|, _ => P.Initial<M>(time)),
                                 seq(|setup.configs|, _ => P.Initial<M>(time'))])
  {
    NewIsReachable<M>(setup, time);
    NewIsReachable<M>(setup, time');
  }

  lemma NewIsReachable<M(!new)>(setup: Setup<M>, time: real)
    requires SetupValid(setup)
    ensures forall c: nat :: setup.Reliable(c) ==>
              setup.configs[c].Valid() && P.Reachable(setup.configs[c], P.Initial<M>(time))
  {
    forall c: nat | setup.Reliable(c)
      ensures setup.configs[c].Valid() && P.Reachable(setup.configs[c], P.Initial<M>(time))
    {
      Progress.InitialIsReachable<M>(setup.configs[c], time);
    }
  }

  ghost predicate ReachedBy<M(!new)>(setup: Setup<M>, time: real, time': real, actions: seq<Action<M>>, net: Net<M>)
    requires Supported(setup.configs)
  {
    Legal(setup, Initial(setup, time, time'), actions) && Run(setup, Initial(setup, time, time'), actions) == net
  }

  /** The states that two new connections can get to, whatever their users and the network do. */
  ghost predicate Reachable<M(!new)>(setup: Setup<M>, net: Net<M>)
    requires Supported(setup.configs)
  {
    exists time: real, time': real, actions: seq<Action<M>> :: ReachedBy(setup, time, time', actions, net)
  }

  lemma ReachableIsFollowed<M(!new)>(setup: Setup<M>, net: Net<M>) returns (s: seq<seq<P.System<M>>>)
    requires SetupValid(setup) && Reachable(setup, net)
    ensures Simulated(setup, net, s) && AllReachable(setup, s)
  {
    var time, time', actions :| ReachedBy<M>(setup, time, time', actions, net);
    var s0 := InitialSimulated<M>(setup, time, time');
    s := RunSimulated(setup, Initial(setup, time, time'), actions, s0);
  }

  lemma ReachableIsSimulated<M(!new)>(setup: Setup<M>, net: Net<M>) returns (s: seq<seq<P.System<M>>>)
    requires SetupValid(setup) && Reachable(setup, net)
    ensures Simulated(setup, net, s)
  {
    s := ReachableIsFollowed(setup, net);
  }

  /** Each reliable channel of a reachable state, in each direction, is where a run of its own protocol gets to: both
      halves, what was accepted and delivered, and the packets on the way. */
  lemma LaneFollowsProtocol<M(!new)>(setup: Setup<M>, net: Net<M>, e: nat, c: nat) returns (shadow: P.System<M>)
    requires SetupValid(setup) && Reachable(setup, net) && e < 2 && setup.Reliable(c)
    ensures WellFormedNet(setup, net) && P.Reachable(setup.configs[c], shadow)
    ensures Follows(setup.configs[c], setup.Size(), LaneOf(setup, net[e], net[1 - e], c), shadow)
  {
    var s := ReachableIsFollowed(setup, net);
    BothDirections(setup, net, e, s);
    assert ChannelFollows(setup, net[e], net[1 - e], c, s[e][c]);
    shadow := s[e][c];
  }

  /** Every reachable state has the shape that steps ask for. */
  lemma ReachableIsWellFormed<M(!new)>(setup: Setup<M>, net: Net<M>)
    requires SetupValid(setup) && Reachable(setup, net)
    ensures WellFormedNet(setup, net)
  {
    var s := ReachableIsSimulated(setup, net);
  }

  /** The hypotheses can be met: one reliable and one unreliable channel with messages of one byte. */
  lemma SomeSetupIsValid() returns (setup: Setup<byte>)
    ensures SetupValid(setup) && setup.Reliable(0) && |setup.configs| == 2 && !setup.Reliable(1)
    ensures PacketBudget.BudgetsFit(setup.configs, 1200)
  {
    var codec: MessageCodec<byte> :=
      MessageCodec(m => [m], input => if input == [] then None else Some((input[0], 1)));
    var reliable := Config(ReliableOrdered, 256, 1024, 1024, 64, Some(512), 0.1);
    var unreliable := Config(UnreliableUnordered, 256, 1024, 1024, 64, Some(512), 0.1);
    SlotIsRemainder(MODULUS, 256);
    SlotIsRemainder(MODULUS, 1024);
    setup := Setup([reliable, unreliable], codec);
    assert PacketBudget.BudgetBits(setup.configs, 1) == 8 * 512 + 32;
  }

  // ---- What users are promised ---------------------------------------------------------------

  /** Each reliable channel, in each direction, delivers a prefix of what was accepted on it: exactly once and in
      order, whatever happens to packets and on the other channels. */
  lemma ReliableDeliversPrefix<M(!new)>(setup: Setup<M>, net: Net<M>, e: nat, c: nat)
    requires SetupValid(setup) && Reachable(setup, net) && e < 2 && setup.Reliable(c)
    ensures WellFormedNet(setup, net) && net[1 - e].received[c] <= net[e].accepted[c]
  {
    var s := ReachableIsSimulated(setup, net);
    BothDirections(setup, net, e, s);
    assert ChannelFollows(setup, net[e], net[1 - e], c, s[e][c]);
  }

  /** Message `k` of a reliable channel waits in the send queue of its own channel, or as itself at the other end. */
  ghost predicate IsKept<M>(setup: Setup<M>, net: Net<M>, e: nat, c: nat, k: int)
    requires WellFormedNet(setup, net) && e < 2 && setup.Reliable(c) && 0 <= k < |net[e].accepted[c]|
  {
    var sender, receiver := SenderOf(setup, net[e], c), ReceiverOf(setup, net[1 - e], c);
    || (k in sender.queue && sender.queue[k].message == net[e].accepted[c][k])
    || (k in receiver.pending && receiver.pending[k] == net[e].accepted[c][k])
  }

  /** Every message of the channel that was accepted and is not delivered is kept. */
  ghost predicate LosesNothing<M>(setup: Setup<M>, net: Net<M>, e: nat, c: nat)
    requires WellFormedNet(setup, net) && e < 2 && setup.Reliable(c)
  {
    forall k :: |net[1 - e].received[c]| <= k < |net[e].accepted[c]| ==> IsKept(setup, net, e, c, k)
  }

  /** No message of a reliable channel is lost: no ack, of whatever packet, takes it away before it has arrived. */
  lemma ReliableLosesNothing<M(!new)>(setup: Setup<M>, net: Net<M>, e: nat, c: nat)
    requires SetupValid(setup) && Reachable(setup, net) && e < 2 && setup.Reliable(c)
    ensures WellFormedNet(setup, net) && LosesNothing(setup, net, e, c)
  {
    var s := ReachableIsSimulated(setup, net);
    SimulatedLosesNothing(setup, net, e, c, s);
  }

  lemma SimulatedLosesNothing<M>(setup: Setup<M>, net: Net<M>, e: nat, c: nat, s: seq<seq<P.System<M>>>)
    requires Simulated(setup, net, s) && e < 2 && setup.Reliable(c)
    ensures LosesNothing(setup, net, e, c)
  {
    BothDirections(setup, net, e, s);
    assert ChannelFollows(setup, net[e], net[1 - e], c, s[e][c]);
    forall k | |net[1 - e].received[c]| <= k < |net[e].accepted[c]|
      ensures IsKept(setup, net, e, c, k)
    {
      FollowingLosesNothing(setup.configs[c], setup.Size(), LaneOf(setup, net[e], net[1 - e], c), s[e][c], k);
    }
  }

  lemma FollowingLosesNothing<M>(config: Config, size: M -> nat, lane: Lane<M>, shadow: P.System<M>, k: int)
    requires Follows(config, size, lane, shadow) && |lane.delivered| <= k < |lane.accepted|
    ensures || (k in lane.sender.queue && lane.sender.queue[k].message == lane.accepted[k])
            || (k in lane.receiver.pending && lane.receiver.pending[k] == lane.accepted[k])
  {
    assert k in lane.sender.queue || P.Has(lane.receiver, k);
  }

  /** What a packet that end `e` made holds for an unreliable channel are the accepted messages of its batch; every
      message went into at most one packet, and packets take messages in the order they were sent. What the other
      user got, and what waits for that user, are the first messages of the packets that came, packet after packet,
      each under the 16-bit number of its packet. */
  lemma UnreliableGivesPackets<M(!new)>(setup: Setup<M>, net: Net<M>, e: nat, c: nat) returns (log: Log)
    requires SetupValid(setup) && Reachable(setup, net) && e < 2 && c < |setup.configs| && !setup.Reliable(c)
    ensures WellFormedNet(setup, net) && MadeValid(setup, net[e])
    ensures log.taken <= |net[e].accepted[c]|
    ensures net[e].connection.channels[c].processor.sendQueue == net[e].accepted[c][log.taken..]
    ensures var made, arrivals := MadeFor(net[e].made, c), net[1 - e].arrivals[c];
            && InSendingOrder(log.batches, log.taken) && HoldBatches(made, net[e].accepted[c], log.batches)
            && KeepsFronts(made, arrivals, log.kept)
            && net[1 - e].received[c] + U.Contents(net[1 - e].connection.channels[c].processor.receiveQueue)
               == Fronts(made, arrivals, log.kept)
            && |net[1 - e].labels[c]| == |net[1 - e].received[c]|
            && net[1 - e].labels[c] + IdsOf(net[1 - e].connection.channels[c].processor.receiveQueue)
               == Numbers(arrivals, log.kept)
  {
    var s := ReachableIsSimulated(setup, net);
    BothDirections(setup, net, e, s);
    assert ChannelFollows(setup, net[e], net[1 - e], c, s[e][c]);
    log := HonestLog(setup.configs[c], LooseOf(setup, net[e], net[1 - e], c));
  }

  lemma HonestLog<M>(config: Config, loose: Loose<M>) returns (log: Log)
    requires Honest(config, loose)
    ensures HonestBy(config, loose, log)
  {
    log :| HonestBy(config, loose, log);
  }

  /** So what the user got are messages that were accepted on the channel. No message comes twice unless its packet came
      twice, and messages come in order when packets do. */
  lemma UnreliableAtMostOnce<M(!new)>(setup: Setup<M>, net: Net<M>, e: nat, c: nat) returns (ids: seq<int>)
    requires SetupValid(setup) && Reachable(setup, net) && e < 2 && c < |setup.configs| && !setup.Reliable(c)
    ensures WellFormedNet(setup, net) && AllWithin(ids, 0, |net[e].accepted[c]|)
    ensures net[1 - e].received[c] <= Pick(net[e].accepted[c], ids)
    ensures Distinct(net[1 - e].arrivals[c]) ==> Distinct(ids)
    ensures Ascending(net[1 - e].arrivals[c]) ==> Increasing(ids)
  {
    var log := UnreliableGivesPackets(setup, net, e, c);
    var arrivals := net[1 - e].arrivals[c];
    FrontsArePicked(MadeFor(net[e].made, c), net[e].accepted[c], log.batches, arrivals, log.kept);
    ids := Fronts(log.batches, arrivals, log.kept);
    if Distinct(arrivals) {
      NoMessageComesTwice(log.batches, log.taken, arrivals, log.kept);
    }
    if Ascending(arrivals) {
      MessagesComeInOrder(log.batches, log.taken, arrivals, log.kept);
    }
  }

  /** No channel panics on an ack. */
  lemma AcksNeverPanic<M(!new)>(setup: Setup<M>, net: Net<M>, e: nat, number: nat)
    requires SetupValid(setup) && Reachable(setup, net) && Enabled(setup, net, Ack(e, number))
    ensures !Apply(setup, net, Ack(e, number))[e].panicked
  {
    var s := ReachableIsSimulated(setup, net);
    BothDirections(setup, net, e, s);
    AckIsFresh(setup, net[e], net[1 - e], number, s[e]);
    AckApplies(setup, net[e], number);
  }

  /** With budgets that fit the buffer, no end panics when it generates a packet. */
  lemma BudgetedNeverPanics<M(!new)>(setup: Setup<M>, net: Net<M>, e: nat, bytes: nat)
    requires SetupValid(setup) && Reachable(setup, net) && Enabled(setup, net, Generate(e, bytes))
    requires PacketBudget.BudgetsFit(setup.configs, bytes)
    ensures !Apply(setup, net, Generate(e, bytes))[e].panicked
  {
    PacketBudget.BudgetsNeverUnderflow(setup.configs, setup.Size(), net[e].connection.channels,
                                       Wrap(net[e].nextPacket), bytes);
  }

  /** Nothing that channel `c` could deliver is waiting, and nothing is wrong with it. */
  ghost predicate Drained<M>(c: C.ChannelState<M>) {
    c.errorLevel == C.NoError && (c.processor.ReliableState? ==> NextMessage(c.processor.receiver) == None)
  }

  ghost predicate AllDrained<M>(end: End<M>) {
    && end.connection.errorLevel == NoError
    && forall c :: 0 <= c < |end.connection.channels| ==> Drained(end.connection.channels[c])
  }

  /** A user who takes all messages before the next packet comes never sees a panic on it, nor a refusal: the packet is
      taken in, and will be acked. */
  lemma DrainedEndAccepts<M(!new)>(setup: Setup<M>, net: Net<M>, e: nat, w: WirePacket<M>)
    requires SetupValid(setup) && Reachable(setup, net) && Enabled(setup, net, Deliver(e, w))
    requires AllDrained(net[1 - e])
    ensures var net' := Apply(setup, net, Deliver(e, w));
            |net'| == 2 && !net'[1 - e].panicked && w.number in net'[e].processed
  {
    var s := ReachableIsSimulated(setup, net);
    BothDirections(setup, net, e, s);
    DeliverIsAllowed(setup, net, e, w);
    AcceptedWhenDrained(setup, net[e], net[1 - e], w, s[e]);
    AcceptedIsProcessed(setup, net, e, w);
  }

  lemma AcceptedIsProcessed<M>(setup: Setup<M>, net: Net<M>, e: nat, w: WirePacket<M>)
    requires WellFormedNet(setup, net) && e < 2 && !net[1 - e].panicked
    requires ProcessPacket(setup.configs, setup.codec, net[1 - e].connection, Wrap(w.number), w.bytes).Accepted?
    ensures var net' := ApplyDeliver(setup, net, e, w);
            |net'| == 2 && !net'[1 - e].panicked && w.number in net'[e].processed
  {
  }

  lemma AcceptedWhenDrained<M(!new)>(
    setup: Setup<M>, from: End<M>, to: End<M>, w: WirePacket<M>, shadows: seq<P.System<M>>)
    requires SetupValid(setup) && Direction(setup, from, to, shadows)
    requires w in from.flight && NotTooLate(setup, to, w) && AllDrained(to)
    ensures ProcessPacket(setup.configs, setup.codec, to.connection, Wrap(w.number), w.bytes).Accepted?
  {
    var configs, channels := setup.configs, to.connection.channels;
    var arrived := AllOnArrival(configs, w.data);
    forall c: nat | c < |configs|
      ensures Takes(configs[c], channels[c], MessagesFor(arrived, c), Wrap(w.number))
    {
      ArrivalByChannel(configs, w.data, c);
      assert ChannelFollows(setup, from, to, c, shadows[c]);
      if setup.Reliable(c) {
        var packet := P.Packet(w.number, w.ids[c], MessagesFor(w.data, c));
        P.DrainedDeliveryIsStored(configs[c], shadows[c], packet);
      }
    }
    PacketRoundTrip(configs, setup.codec, w.data, []);
    assert w.bytes + [] == w.bytes;
    ArrivalIsWellFormed(configs, w.data, |configs|);
    AllTakeAccepts(configs, channels, arrived, Wrap(w.number));
  }

  /** The channel is not in error and takes these messages without a panic. */
  ghost predicate Takes<M>(config: Config, c: C.ChannelState<M>, messages: seq<(u16, M)>, number: u16) {
    c.errorLevel == C.NoError && C.ProcessPacketData(config, c, messages, number).ok
  }

  lemma {:induction false} AllTakeAccepts<M>(
    configs: seq<Config>, channels: seq<C.ChannelState<M>>, data: seq<ChannelData<M>>, number: u16)
    requires |configs| == |channels| && PacketBudget.WellFormed(data, |channels|)
    requires forall c: nat :: c < |channels| ==> Takes(configs[c], channels[c], MessagesFor(data, c), number)
    ensures ReadEntries(configs, channels, data, number).Accepted?
    decreases |data|
  {
    if data == [] {
    } else {
      var i := data[0].channelIndex;
      assert Takes(configs[i], channels[i], data[0].messages, number);
      var next := channels[i := C.ProcessPacketData(configs[i], channels[i], data[0].messages, number).channel];
      NothingAfter(data);
      forall c: nat | c < |channels|
        ensures Takes(configs[c], next[c], MessagesFor(data[1..], c), number)
      {
        if c != i {
          assert Takes(configs[c], channels[c], MessagesFor(data, c), number);
        }
      }
      AllTakeAccepts(configs, next, data[1..], number);
    }
  }
}
