/** What acks come to: each takes exactly the messages of its own packet out of the send queue, one by one or in
    lists. */
module Acks {
  import opened Wrap16
  import opened Options
  import opened SequenceBuffers
  import opened Configs
  import opened ReliableSpec
  import opened ConnectionSpec
  import opened ConnectionProtocol
  import opened Lanes
  import opened Isolation
  import opened Guarantees
  import C = ChannelSpec
  import P = Protocol

  // ---- One channel ---------------------------------------------------------------------------

  /** The sender after the ack of packet `number`, which carried the messages `ids`. */
  ghost predicate AckedExactly<M>(s: Sender<M>, number: int, ids: seq<int>, s': Sender<M>) {
    if number !in s.ledger then s' == s
    else
      && s'.queue == s.queue - (set k | k in ids)
      && s'.ledger == s.ledger[number := s.ledger[number].(acked := true)]
      && s' == s.(queue := s'.queue, oldest := s'.oldest, ledger := s'.ledger)
  }

  /** The messages of a live packet are among the last 65536. */
  lemma LiveIdsAreRecent<M>(config: Config, sys: P.System<M>, number: nat, k: int)
    requires P.Inv(config, sys) && P.IdsOutliveAcks(config)
    requires number in sys.sender.ledger && k in sys.recorded[number].ids
    ensures sys.sender.next - MODULUS <= k < sys.sender.next
  {
    P.FewMessagesSincePacket(config, sys, number);
    assert P.RecordInv(config, sys, number);
  }

  /** An ack takes out of the send queue exactly the messages of its packet, if the packet is in the ledger, and does
      nothing otherwise. */
  lemma AckIsExact<M>(config: Config, sys: P.System<M>, number: nat)
    requires P.Inv(config, sys) && P.IdsOutliveAcks(config) && P.Enabled(config, sys, P.Ack(number))
    ensures number in sys.sender.ledger ==> number in sys.recorded
    ensures AckedExactly(sys.sender, number, if number in sys.sender.ledger then sys.recorded[number].ids else [],
                         P.Apply(config, sys, P.Ack(number)).sender)
  {
    var s := sys.sender;
    P.AckFindsItsPacket(config, s, number);
    if number in s.ledger {
      forall k | k in sys.recorded[number].ids
        ensures s.next - MODULUS <= k < s.next
      {
        LiveIdsAreRecent(config, sys, number, k);
      }
      RemoveMessagesExactly(s.(ledger := s.ledger[number := s.ledger[number].(acked := true)]),
                            sys.recorded[number].ids);
    }
  }

  /** The ledger has every packet whose number the ring took and that is not older than its window. */
  ghost predicate RecentAreRecorded<M>(config: Config, sys: P.System<M>) {
    forall n :: n in sys.recorded && sys.recorded[n].kept && sys.sender.packetTop - config.sentPacketBufferSize <= n ==>
      n in sys.sender.ledger
  }

  lemma GenerateRecords<M>(config: Config, sys: P.System<M>, room: nat)
    requires P.Inv(config, sys) && P.Enabled(config, sys, P.Generate(room)) && RecentAreRecorded(config, sys)
    ensures RecentAreRecorded(config, P.Apply(config, sys, P.Generate(room)))
  {
    ChooseMessagesIsSound(config, sys.sender, room);
  }

  lemma AckKeepsRecords<M>(config: Config, sys: P.System<M>, number: nat)
    requires P.Inv(config, sys) && P.Enabled(config, sys, P.Ack(number)) && RecentAreRecorded(config, sys)
    ensures RecentAreRecorded(config, P.Apply(config, sys, P.Ack(number)))
  {
    var s, p := sys.sender, Below(sys.sender.packetTop, Wrap(number));
    if AckOutcome(s, Wrap(number)) == Acked {
      RemovingKeeps(s.(ledger := s.ledger[p := s.ledger[p].(acked := true)]), s.ledger[p].ids);
    }
  }

  lemma StepRecords<M>(config: Config, sys: P.System<M>, action: P.Action<M>)
    requires P.Inv(config, sys) && P.Enabled(config, sys, action) && RecentAreRecorded(config, sys)
    ensures RecentAreRecorded(config, P.Apply(config, sys, action))
  {
    match action
    case Generate(room) => GenerateRecords(config, sys, room);
    case Ack(number) => AckKeepsRecords(config, sys, number);
    case _ =>
  }

  lemma {:induction false} RunRecords<M>(config: Config, sys: P.System<M>, actions: seq<P.Action<M>>)
    requires P.Inv(config, sys) && P.IdsOutliveAcks(config) && P.Legal(config, sys, actions)
    requires RecentAreRecorded(config, sys)
    ensures RecentAreRecorded(config, P.Run(config, sys, actions))
    decreases |actions|
  {
    if actions == [] {
    } else {
      StepRecords(config, sys, actions[0]);
      P.StepInv(config, sys, actions[0]);
      RunRecords(config, P.Apply(config, sys, actions[0]), actions[1..]);
    }
  }

  lemma ReachableRecords<M(!new)>(config: Config, sys: P.System<M>)
    requires config.Valid() && P.IdsOutliveAcks(config) && P.Reachable(config, sys)
    ensures P.Inv(config, sys) && RecentAreRecorded(config, sys)
  {
    P.ReachableInv(config, sys);
    var time, actions :| P.ReachedBy<M>(config, time, actions, sys);
    P.InitialInv<M>(config, time);
    RunRecords(config, P.Initial<M>(time), actions);
  }

  /** No ack is wasted: in every reachable state, the ack of a packet that the ring took and that is among the last ones
      takes all its messages out of the send queue, and no others. */
  lemma RecentAckCounts<M(!new)>(config: Config, sys: P.System<M>, number: nat)
    requires config.Valid() && P.IdsOutliveAcks(config) && P.Reachable(config, sys)
    requires P.Enabled(config, sys, P.Ack(number)) && number in sys.recorded && sys.recorded[number].kept
    requires sys.sender.packetTop - config.sentPacketBufferSize <= number
    ensures sys.sender.oldest <= sys.sender.next
    ensures P.Apply(config, sys, P.Ack(number)).sender.queue
         == sys.sender.queue - (set k | k in sys.recorded[number].ids)
  {
    ReachableRecords(config, sys);
    AckIsExact(config, sys, number);
  }

  // ---- Packets of a connection, and the protocol's records of them ---------------------------

  /** The messages of channel `c` that packet `n` of this end carries. */
  ghost function IdsOf<M>(made: seq<WirePacket<M>>, c: nat, n: int): seq<int> {
    if 0 <= n < |made| && c < |made[n].ids| then made[n].ids[c] else []
  }

  /** The run that the channel follows recorded each packet that was made with the messages it carries. */
  ghost predicate Linked<M>(made: seq<WirePacket<M>>, c: nat, shadow: P.System<M>) {
    && |made| == shadow.nextPacket
    && forall n: nat :: n < |made| ==>
         if IdsOf(made, c, n) == [] then n !in shadow.recorded
         else n in shadow.recorded && shadow.recorded[n].ids == IdsOf(made, c, n)
  }

  lemma StepKeepsRecords<M(!new)>(config: Config, shadow: P.System<M>, shadow': P.System<M>, n: nat)
    requires config.Valid() && shadow.sender.oldest <= shadow.sender.next && AtMostOneStep(config, shadow, shadow')
    requires n < shadow.nextPacket
    ensures n in shadow'.recorded <==> n in shadow.recorded
    ensures n in shadow.recorded ==> shadow'.recorded[n] == shadow.recorded[n]
  {
  }

  /** What a step does to the packets that were made. */
  ghost predicate MadeGrows<M>(from: End<M>, from': End<M>) {
    || from'.made == from.made
    || (from'.made != [] && var w := from'.made[|from'.made| - 1];
        from'.made == from.made + [w] && w in from'.flight)
  }

  lemma GenerateGrowsMade<M>(setup: Setup<M>, end: End<M>, bytes: nat)
    requires WellFormedEnd(setup, end) && Supported(setup.configs)
    ensures MadeGrows(end, ApplyGenerate(setup, end, bytes))
  {
  }

  lemma OwnStepGrowsMade<M>(net: Net<M>, i: nat, end: End<M>, e: nat)
    requires |net| == 2 && i < 2 && e < 2 && MadeGrows(net[i], end)
    ensures |net[i := end]| == 2 && MadeGrows(net[e], net[i := end][e])
  {
  }

  lemma DeliverKeepsMade<M>(setup: Setup<M>, net: Net<M>, i: nat, w: WirePacket<M>, e: nat)
    requires WellFormedNet(setup, net) && i < 2 && e < 2
    ensures |ApplyDeliver(setup, net, i, w)| == 2 && MadeGrows(net[e], ApplyDeliver(setup, net, i, w)[e])
  {
    DeliverApplies(setup, net, i, w);
  }

  lemma StepGrowsMade<M>(setup: Setup<M>, net: Net<M>, action: Action<M>, e: nat)
    requires Supported(setup.configs) && Enabled(setup, net, action) && e < 2
    ensures |Apply(setup, net, action)| == 2 && MadeGrows(net[e], Apply(setup, net, action)[e])
  {
    match action
    case Send(i, c, message) => OwnStepGrowsMade(net, i, ApplySend(setup, net[i], c, message), e);
    case Receive(i, c) => OwnStepGrowsMade(net, i, ApplyReceive(setup, net[i], c), e);
    case Generate(i, bytes) =>
      GenerateGrowsMade(setup, net[i], bytes);
      OwnStepGrowsMade(net, i, ApplyGenerate(setup, net[i], bytes), e);
    case Deliver(i, w) => DeliverKeepsMade(setup, net, i, w, e);
    case Ack(i, number) => OwnStepGrowsMade(net, i, ApplyAck(setup, net[i], number), e);
    case Drop(i, w) => OwnStepGrowsMade(net, i, ApplyDrop(net[i], w), e);
    case AdvanceTime(i, time) => OwnStepGrowsMade(net, i, ApplyTime(net[i], time), e);
  }

  /** A packet in flight is the one that the run recorded. */
  lemma FlightIsLinked<M>(setup: Setup<M>, from: End<M>, to: End<M>, c: nat, shadow: P.System<M>, w: WirePacket<M>)
    requires WellFormedEnd(setup, from) && WellFormedEnd(setup, to) && setup.Reliable(c)
    requires ChannelFollows(setup, from, to, c, shadow) && w in from.flight && c < |w.ids|
    ensures if w.ids[c] == [] then w.number !in shadow.recorded
            else w.number in shadow.recorded && shadow.recorded[w.number].ids == w.ids[c]
  {
    var packet := P.Packet(w.number, w.ids[c], MessagesFor(w.data, c));
    assert packet in LaneOf(setup, from, to, c).packets;
    assert P.PacketInv(shadow, packet);
  }

  lemma StaysLinked<M(!new)>(
    setup: Setup<M>, from: End<M>, from': End<M>, to': End<M>, c: nat, shadow: P.System<M>, shadow': P.System<M>)
    requires setup.Reliable(c) && Linked(from.made, c, shadow) && MovesOn(setup, c, shadow, shadow')
    requires MadeGrows(from, from') && MadeValid(setup, from')
    requires WellFormedEnd(setup, from') && WellFormedEnd(setup, to') && ChannelFollows(setup, from', to', c, shadow')
    ensures Linked(from'.made, c, shadow')
  {
    forall n: nat | n < |from'.made|
      ensures if IdsOf(from'.made, c, n) == [] then n !in shadow'.recorded
              else n in shadow'.recorded && shadow'.recorded[n].ids == IdsOf(from'.made, c, n)
    {
      if n < |from.made| {
        StepKeepsRecords(setup.configs[c], shadow, shadow', n);
        assert IdsOf(from'.made, c, n) == IdsOf(from.made, c, n);
      } else {
        FlightIsLinked(setup, from', to', c, shadow', from'.made[n]);
      }
    }
  }

  /** The run of channel `c` from end `e` recorded what end `e` made. */
  ghost predicate LaneIsLinked<M>(net: Net<M>, s: seq<seq<P.System<M>>>, e: nat, c: nat) {
    e < |net| && e < |s| && c < |s[e]| && Linked(net[e].made, c, s[e][c])
  }

  lemma LinkedGoesOn<M(!new)>(
    setup: Setup<M>, net: Net<M>, net': Net<M>, s: seq<seq<P.System<M>>>, s': seq<seq<P.System<M>>>, e: nat, c: nat)
    requires e < 2 && setup.Reliable(c) && |net| == 2 && |s| == 2
    requires Simulated(setup, net', s') && AllMoveOn(setup, s[e], s'[e]) && MadeGrows(net[e], net'[e])
    requires LaneIsLinked(net, s, e, c)
    ensures LaneIsLinked(net', s', e, c)
  {
    BothDirections(setup, net', e, s');
    assert MovesOn(setup, c, s[e][c], s'[e][c]);
    assert ChannelFollows(setup, net'[e], net'[1 - e], c, s'[e][c]);
    StaysLinked(setup, net[e], net'[e], net'[1 - e], c, s[e][c], s'[e][c]);
  }

  lemma LinkedStep<M(!new)>(
    setup: Setup<M>, net: Net<M>, net': Net<M>, s: seq<seq<P.System<M>>>, s': seq<seq<P.System<M>>>, e: nat, c: nat)
    requires Simulated(setup, net, s) && e < 2 && setup.Reliable(c) && LaneIsLinked(net, s, e, c)
    requires Simulated(setup, net', s') && Moves(setup, s, s') && MadeGrows(net[e], net'[e])
    ensures LaneIsLinked(net', s', e, c)
  {
    LinkedGoesOn(setup, net, net', s, s', e, c);
  }

  lemma StepIsLinked<M(!new)>(
    setup: Setup<M>, net: Net<M>, action: Action<M>, s: seq<seq<P.System<M>>>, e: nat, c: nat)
    returns (s': seq<seq<P.System<M>>>)
    requires SetupValid(setup) && Simulated(setup, net, s) && Enabled(setup, net, action) && e < 2 && setup.Reliable(c)
    requires LaneIsLinked(net, s, e, c)
    ensures Simulated(setup, Apply(setup, net, action), s') && LaneIsLinked(Apply(setup, net, action), s', e, c)
  {
    StepGrowsMade(setup, net, action, e);
    s' := StepSimulated(setup, net, action, s);
    LinkedStep(setup, net, Apply(setup, net, action), s, s', e, c);
  }

  lemma {:induction false} RunStaysLinked<M(!new)>(
    setup: Setup<M>, net: Net<M>, actions: seq<Action<M>>, s: seq<seq<P.System<M>>>, e: nat, c: nat)
    returns (s': seq<seq<P.System<M>>>)
    requires SetupValid(setup) && Simulated(setup, net, s) && Legal(setup, net, actions) && e < 2 && setup.Reliable(c)
    requires LaneIsLinked(net, s, e, c)
    ensures Simulated(setup, Run(setup, net, actions), s') && LaneIsLinked(Run(setup, net, actions), s', e, c)
    decreases |actions|
  {
    if actions == [] {
      s' := s;
    } else {
      var s1 := StepIsLinked(setup, net, actions[0], s, e, c);
      s' := RunStaysLinked(setup, Apply(setup, net, actions[0]), actions[1..], s1, e, c);
    }
  }

  lemma NewIsLinked<M(!new)>(setup: Setup<M>, time: real, time': real, s: seq<seq<P.System<M>>>, e: nat, c: nat)
    requires Simulated(setup, Initial(setup, time, time'), s) && e < 2 && setup.Reliable(c)
    ensures LaneIsLinked(Initial(setup, time, time'), s, e, c)
  {
    var net := Initial<M>(setup, time, time');
    BothDirections(setup, net, e, s);
    assert ChannelFollows(setup, net[e], net[1 - e], c, s[e][c]);
  }

  lemma StartIsLinked<M(!new)>(setup: Setup<M>, time: real, time': real, actions: seq<Action<M>>, e: nat, c: nat)
    returns (s: seq<seq<P.System<M>>>)
    requires SetupValid(setup) && Legal(setup, Initial(setup, time, time'), actions) && e < 2 && setup.Reliable(c)
    ensures Simulated(setup, Run(setup, Initial(setup, time, time'), actions), s)
    ensures LaneIsLinked(Run(setup, Initial(setup, time, time'), actions), s, e, c)
  {
    var s0 := InitialSimulated<M>(setup, time, time');
    NewIsLinked(setup, time, time', s0, e, c);
    s := RunStaysLinked(setup, Initial(setup, time, time'), actions, s0, e, c);
  }

  lemma ReachableIsLinked<M(!new)>(setup: Setup<M>, net: Net<M>, e: nat, c: nat) returns (s: seq<seq<P.System<M>>>)
    requires SetupValid(setup) && Reachable(setup, net) && e < 2 && setup.Reliable(c)
    ensures Simulated(setup, net, s) && LaneIsLinked(net, s, e, c)
  {
    var time, time', actions :| ReachedBy<M>(setup, time, time', actions, net);
    s := StartIsLinked(setup, time, time', actions, e, c);
  }

  // ---- Lists of acks -------------------------------------------------------------------------

  /** Each of these packets was taken in at the other end, and is acked for the first time. */
  ghost predicate AllDue<M>(setup: Setup<M>, end: End<M>, numbers: seq<nat>)
    requires WellFormedEnd(setup, end)
  {
    Distinct(numbers) && forall i :: 0 <= i < |numbers| ==> AckIsDue(setup, end, numbers[i])
  }

  /** The steps that ack these packets one by one. */
  ghost function AckSteps<M>(e: nat, numbers: seq<nat>): seq<Action<M>> {
    seq(|numbers|, i requires 0 <= i < |numbers| => Ack(e, numbers[i]))
  }

  ghost function Elements(numbers: seq<nat>): set<nat> {
    set n | n in numbers
  }

  /** The end after the program has processed the whole list. */
  ghost function AfterList<M>(end: End<M>, channels: seq<C.ChannelState<M>>, numbers: seq<nat>): End<M> {
    WithChannels(end, channels).(acked := end.acked + Elements(numbers))
  }

  lemma AckKeepsLedger<M>(s: Sender<M>, ack: u16)
    requires s.oldest <= s.next
    ensures ProcessAck(s, ack).ledger.Keys == s.ledger.Keys
  {
    var p := Below(s.packetTop, ack);
    if AckOutcome(s, ack) == Acked {
      RemovingKeeps(s.(ledger := s.ledger[p := s.ledger[p].(acked := true)]), s.ledger[p].ids);
    }
  }

  lemma OthersStayDue<M>(setup: Setup<M>, end: End<M>, number: nat, other: nat)
    requires WellFormedEnd(setup, end) && AckIsDue(setup, end, other) && other != number
    ensures WellFormedEnd(setup, AckedEnd(setup, end, number))
    ensures AckIsDue(setup, AckedEnd(setup, end, number), other)
  {
    AckKeepsWellFormed(setup, end, number);
    forall c: nat | setup.Reliable(c)
      ensures P.AckIsClear(SenderOf(setup, AckedEnd(setup, end, number), c), other)
    {
      AckKeepsLedger(SenderOf(setup, end, c), Wrap(number));
    }
  }

  lemma RestIsDue<M>(setup: Setup<M>, end: End<M>, numbers: seq<nat>)
    requires WellFormedEnd(setup, end) && AllDue(setup, end, numbers) && numbers != []
    ensures WellFormedEnd(setup, AckedEnd(setup, end, numbers[0]))
    ensures AllDue(setup, AckedEnd(setup, end, numbers[0]), numbers[1..])
  {
    AckKeepsWellFormed(setup, end, numbers[0]);
    forall i | 0 <= i < |numbers[1..]|
      ensures AckIsDue(setup, AckedEnd(setup, end, numbers[0]), numbers[1..][i])
    {
      OthersStayDue(setup, end, numbers[0], numbers[i + 1]);
    }
  }

  /** The first ack of a list, and then the others. */
  lemma FirstAck<M>(setup: Setup<M>, end: End<M>, numbers: seq<nat>, channels: seq<C.ChannelState<M>>)
    requires WellFormedEnd(setup, end) && numbers != [] && !AckPanics(end.connection.channels, Wrap(numbers[0]))
    ensures WellFormedEnd(setup, AckedEnd(setup, end, numbers[0]))
    ensures ApplyAck(setup, end, numbers[0]) == AckedEnd(setup, end, numbers[0])
    ensures ProcessAcks(end.connection.channels, WrapAll(numbers))
         == ProcessAcks(AckedEnd(setup, end, numbers[0]).connection.channels, WrapAll(numbers[1..]))
    ensures AfterList(AckedEnd(setup, end, numbers[0]), channels, numbers[1..]) == AfterList(end, channels, numbers)
  {
    AckKeepsWellFormed(setup, end, numbers[0]);
    AckApplies(setup, end, numbers[0]);
    assert WrapAll(numbers)[1..] == WrapAll(numbers[1..]);
    assert Elements(numbers) == {numbers[0]} + Elements(numbers[1..]);
  }

  /** The first ack of a list can be processed. */
  lemma FirstStep<M(!new)>(setup: Setup<M>, net: Net<M>, e: nat, numbers: seq<nat>, s: seq<seq<P.System<M>>>)
    requires SetupValid(setup) && Simulated(setup, net, s) && e < 2 && !net[e].panicked
    requires numbers != [] && AllDue(setup, net[e], numbers)
    ensures Enabled(setup, net, Ack(e, numbers[0])) && !AckPanics(net[e].connection.channels, Wrap(numbers[0]))
    ensures Apply(setup, net, Ack(e, numbers[0])) == net[e := AckedEnd(setup, net[e], numbers[0])]
  {
    BothDirections(setup, net, e, s);
    assert AckIsDue(setup, net[e], numbers[0]);
    AckIsFresh(setup, net[e], net[1 - e], numbers[0], s[e]);
    AckApplies(setup, net[e], numbers[0]);
  }

  lemma StepsFromFirst<M>(setup: Setup<M>, net: Net<M>, e: nat, numbers: seq<nat>, next: Net<M>)
    requires Supported(setup.configs) && numbers != [] && Enabled(setup, net, Ack(e, numbers[0]))
    requires next == Apply(setup, net, Ack(e, numbers[0])) && Legal(setup, next, AckSteps(e, numbers[1..]))
    ensures Legal(setup, net, AckSteps(e, numbers))
    ensures Run(setup, net, AckSteps(e, numbers)) == Run(setup, next, AckSteps(e, numbers[1..]))
  {
    assert AckSteps<M>(e, numbers)[1..] == AckSteps(e, numbers[1..]);
  }

  /** The list is processed without a panic, and brings the end where the single acks bring it, one after the other. */
  ghost predicate ListIsRun<M>(setup: Setup<M>, net: Net<M>, e: nat, numbers: seq<nat>)
    requires Supported(setup.configs) && WellFormedNet(setup, net) && e < 2
  {
    var processed := ProcessAcks(net[e].connection.channels, WrapAll(numbers));
    && processed.Some? && Legal(setup, net, AckSteps(e, numbers))
    && Run(setup, net, AckSteps(e, numbers)) == net[e := AfterList(net[e], processed.value, numbers)]
  }

  lemma NoAcksAreRun<M>(setup: Setup<M>, net: Net<M>, e: nat)
    requires Supported(setup.configs) && WellFormedNet(setup, net) && e < 2
    ensures ListIsRun(setup, net, e, [])
  {
    assert AckSteps<M>(e, []) == [];
    assert AfterList(net[e], net[e].connection.channels, []) == net[e];
    assert net[e := net[e]] == net;
  }

  lemma OneMoreAckIsRun<M>(setup: Setup<M>, net: Net<M>, e: nat, numbers: seq<nat>, next: Net<M>)
    requires Supported(setup.configs) && WellFormedNet(setup, net) && e < 2 && numbers != []
    requires !AckPanics(net[e].connection.channels, Wrap(numbers[0])) && Enabled(setup, net, Ack(e, numbers[0]))
    requires next == net[e := AckedEnd(setup, net[e], numbers[0])] == Apply(setup, net, Ack(e, numbers[0]))
    requires WellFormedNet(setup, next) && ListIsRun(setup, next, e, numbers[1..])
    ensures ListIsRun(setup, net, e, numbers)
  {
    var channels := ProcessAcks(next[e].connection.channels, WrapAll(numbers[1..])).value;
    FirstAck(setup, net[e], numbers, channels);
    StepsFromFirst(setup, net, e, numbers, next);
    var last := AfterList(net[e], channels, numbers);
    assert next[e := last] == net[e := last];
  }

  lemma {:induction false} ListIsSteps<M(!new)>(
    setup: Setup<M>, net: Net<M>, e: nat, numbers: seq<nat>, s: seq<seq<P.System<M>>>)
    requires SetupValid(setup) && Simulated(setup, net, s) && e < 2 && !net[e].panicked
    requires AllDue(setup, net[e], numbers)
    ensures ListIsRun(setup, net, e, numbers)
    decreases |numbers|
  {
    if numbers == [] {
      NoAcksAreRun(setup, net, e);
    } else {
      FirstStep(setup, net, e, numbers, s);
      RestIsDue(setup, net[e], numbers);
      var next := net[e := AckedEnd(setup, net[e], numbers[0])];
      var s' := StepSimulated(setup, net, Ack(e, numbers[0]), s);
      ListIsSteps(setup, next, e, numbers[1..], s');
      OneMoreAckIsRun(setup, net, e, numbers, next);
    }
  }

  /** The program is given its acks in lists: in every reachable state a list of due acks is processed without a panic,
      and brings the end where the single acks bring it, one after the other. */
  lemma AckListIsSteps<M(!new)>(setup: Setup<M>, net: Net<M>, e: nat, numbers: seq<nat>)
    requires SetupValid(setup) && Reachable(setup, net) && e < 2 && WellFormedNet(setup, net) && !net[e].panicked
    requires AllDue(setup, net[e], numbers)
    ensures ProcessAcks(net[e].connection.channels, WrapAll(numbers)).Some?
    ensures Legal(setup, net, AckSteps(e, numbers))
    ensures Run(setup, net, AckSteps(e, numbers))
         == net[e := AfterList(net[e], ProcessAcks(net[e].connection.channels, WrapAll(numbers)).value, numbers)]
  {
    var s := ReachableIsSimulated(setup, net);
    ListIsSteps(setup, net, e, numbers, s);
  }

  // ---- What a list of acks takes away --------------------------------------------------------

  /** Message `k` was in one of these packets, and the packet is in the ledger. */
  ghost predicate TakenBy<M>(s: Sender<M>, made: seq<WirePacket<M>>, c: nat, numbers: seq<nat>, k: int) {
    exists n :: n in numbers && n in s.ledger && k in IdsOf(made, c, n)
  }

  /** The sender after these acks: the messages of those packets are gone, the others are as they were, and the packets
      are marked as acked. */
  ghost predicate ListAckedExactly<M>(
    s: Sender<M>, made: seq<WirePacket<M>>, c: nat, numbers: seq<nat>, s': Sender<M>)
  {
    && (forall k :: k in s'.queue <==> k in s.queue && !TakenBy(s, made, c, numbers, k))
    && (forall k :: k in s'.queue ==> s'.queue[k] == s.queue[k])
    && s'.ledger.Keys == s.ledger.Keys
    && (forall p :: p in s.ledger ==>
          s'.ledger[p] == if p in numbers then s.ledger[p].(acked := true) else s.ledger[p])
    && s' == s.(queue := s'.queue, oldest := s'.oldest, ledger := s'.ledger)
  }

  lemma OneAckIsExact<M(!new)>(
    setup: Setup<M>, from: End<M>, to: End<M>, number: nat, c: nat, shadow: P.System<M>)
    requires SetupValid(setup) && WellFormedEnd(setup, from) && WellFormedEnd(setup, to) && setup.Reliable(c)
    requires ChannelFollows(setup, from, to, c, shadow) && AckIsDue(setup, from, number)
    requires Linked(from.made, c, shadow)
    ensures WellFormedEnd(setup, AckedEnd(setup, from, number))
    ensures AckedExactly(SenderOf(setup, from, c), number, IdsOf(from.made, c, number),
                         SenderOf(setup, AckedEnd(setup, from, number), c))
  {
    AckKeepsWellFormed(setup, from, number);
    AckFollows(setup.configs[c], setup.Size(), LaneOf(setup, from, to, c), shadow, number);
    AckIsExact(setup.configs[c], shadow, number);
    if number in shadow.sender.ledger {
      assert P.RecordInv(setup.configs[c], shadow, number);
    }
  }

  lemma ExactlyOneMore<M>(
    s: Sender<M>, made: seq<WirePacket<M>>, c: nat, numbers: seq<nat>, s1: Sender<M>, s2: Sender<M>)
    requires numbers != [] && AckedExactly(s, numbers[0], IdsOf(made, c, numbers[0]), s1)
    requires ListAckedExactly(s1, made, c, numbers[1..], s2) && numbers[0] !in numbers[1..]
    ensures ListAckedExactly(s, made, c, numbers, s2)
  {
    assert forall n :: n in numbers <==> n == numbers[0] || n in numbers[1..];
    assert s1.ledger.Keys == s.ledger.Keys;
    forall k | k in s.queue
      ensures TakenBy(s, made, c, numbers, k)
         <==> (numbers[0] in s.ledger && k in IdsOf(made, c, numbers[0])) || TakenBy(s1, made, c, numbers[1..], k)
    {
    }
  }

  lemma {:induction false} ListTakes<M(!new)>(
    setup: Setup<M>, net: Net<M>, e: nat, numbers: seq<nat>, s: seq<seq<P.System<M>>>, c: nat)
    requires SetupValid(setup) && Simulated(setup, net, s) && e < 2 && !net[e].panicked
    requires AllDue(setup, net[e], numbers) && setup.Reliable(c) && LaneIsLinked(net, s, e, c)
    ensures Legal(setup, net, AckSteps(e, numbers)) && WellFormedNet(setup, Run(setup, net, AckSteps(e, numbers)))
    ensures ListAckedExactly(SenderOf(setup, net[e], c), net[e].made, c, numbers,
                             SenderOf(setup, Run(setup, net, AckSteps(e, numbers))[e], c))
    decreases |numbers|
  {
    if numbers == [] {
      assert AckSteps<M>(e, numbers) == [];
    } else {
      FirstStep(setup, net, e, numbers, s);
      RestIsDue(setup, net[e], numbers);
      BothDirections(setup, net, e, s);
      assert ChannelFollows(setup, net[e], net[1 - e], c, s[e][c]);
      OneAckIsExact(setup, net[e], net[1 - e], numbers[0], c, s[e][c]);
      var next := net[e := AckedEnd(setup, net[e], numbers[0])];
      var s' := StepIsLinked(setup, net, Ack(e, numbers[0]), s, e, c);
      ListTakes(setup, next, e, numbers[1..], s', c);
      StepsFromFirst(setup, net, e, numbers, next);
      ExactlyOneMore(SenderOf(setup, net[e], c), net[e].made, c, numbers, SenderOf(setup, next[e], c),
                     SenderOf(setup, Run(setup, next, AckSteps(e, numbers[1..]))[e], c));
    }
  }

  /** And it takes out of the send queue of each reliable channel exactly the messages of the packets in the list
      that are in the ledger, and marks those packets. */
  lemma AckListIsExact<M(!new)>(setup: Setup<M>, net: Net<M>, e: nat, numbers: seq<nat>, c: nat)
    requires SetupValid(setup) && Reachable(setup, net) && e < 2 && WellFormedNet(setup, net) && !net[e].panicked
    requires AllDue(setup, net[e], numbers) && setup.Reliable(c)
    ensures var processed := ProcessAcks(net[e].connection.channels, WrapAll(numbers));
            && processed.Some? && c < |processed.value| && processed.value[c].processor.ReliableState?
            && ListAckedExactly(SenderOf(setup, net[e], c), net[e].made, c, numbers,
                                processed.value[c].processor.sender)
  {
    var s := ReachableIsLinked(setup, net, e, c);
    ListIsSteps(setup, net, e, numbers, s);
    ListTakes(setup, net, e, numbers, s, c);
  }
}
