/** Rounds without loss empty every reliable channel of a shared connection, and deliver everything. */
module ConnectionDelivery {
  import opened Wrap16
  import opened Options
  import opened Configs
  import opened Codec
  import opened SequenceBuffers
  import opened ReliableSpec
  import opened ConnectionSpec
  import opened ConnectionProtocol
  import opened PacketBudget
  import opened Lanes
  import opened Isolation
  import opened Guarantees
  import opened ConnectionProgress
  import opened Mirror
  import C = ChannelSpec
  import P = Protocol
  import Paths

  // ---- What a round does to a sender ---------------------------------------------------------

  /** Nothing was queued, and the window and the ring of packets only moved on. */
  ghost predicate MovedOn<M>(s: Sender<M>, r: Sender<M>) {
    && r.next == s.next && s.oldest <= r.oldest && s.packetTop <= r.packetTop
    && forall k :: k in r.queue ==> k in s.queue && r.queue[k].measuredBits == s.queue[k].measuredBits
  }

  lemma GenerateMovesOn<M>(config: Config, s: Sender<M>, number: u16, room: nat)
    ensures MovedOn(s, GeneratePacket(config, s, number, room))
  {
  }

  lemma {:induction false} RemoveMessagesMovesOn<M>(s: Sender<M>, ids: seq<u16>)
    requires s.oldest <= s.next
    ensures MovedOn(s, RemoveMessages(s, ids))
    decreases |ids|
  {
    if ids == [] {
    } else {
      RemoveMessagesMovesOn(RemoveMessage(s, ids[0]), ids[1..]);
    }
  }

  lemma AckMovesOn<M>(s: Sender<M>, ack: u16)
    requires s.oldest <= s.next
    ensures MovedOn(s, ReliableSpec.ProcessAck(s, ack))
  {
    var p := Below(s.packetTop, ack);
    if AckOutcome(s, ack) == Acked {
      RemoveMessagesMovesOn(s.(ledger := s.ledger[p := s.ledger[p].(acked := true)]), s.ledger[p].ids);
    }
  }

  // ---- Runs in pieces ------------------------------------------------------------------------

  ghost function StepOf<M>(setup: Setup<M>): (Net<M>, Action<M>, Net<M>) -> bool
    requires Supported(setup.configs)
  {
    (net, action, r) => Enabled(setup, net, action) && Apply(setup, net, action) == r
  }

  /** These steps lead from one state of the connections to another. */
  ghost predicate Leads<M(!new)>(setup: Setup<M>, net: Net<M>, actions: seq<Action<M>>, r: Net<M>)
    requires Supported(setup.configs)
  {
    Paths.Leads(StepOf(setup), net, actions, r)
  }

  lemma LeadsByOne<M(!new)>(setup: Setup<M>, net: Net<M>, action: Action<M>, r: Net<M>)
    requires Supported(setup.configs) && Enabled(setup, net, action) && Apply(setup, net, action) == r
    ensures Leads(setup, net, [action], r)
  {
    Paths.ByOne(StepOf(setup), net, action, r);
  }

  lemma LeadsFurther<M(!new)>(
    setup: Setup<M>, net: Net<M>, first: seq<Action<M>>, mid: Net<M>, second: seq<Action<M>>, r: Net<M>)
    requires Supported(setup.configs) && Leads(setup, net, first, mid) && Leads(setup, mid, second, r)
    ensures Leads(setup, net, first + second, r)
  {
    Paths.Further(StepOf(setup), net, first, mid, second, r);
  }

  lemma {:induction false} LeadsStaysReachable<M(!new)>(
    setup: Setup<M>, net: Net<M>, actions: seq<Action<M>>, r: Net<M>)
    requires Supported(setup.configs) && Reachable(setup, net) && Leads(setup, net, actions, r)
    ensures Reachable(setup, r)
    decreases |actions|
  {
    if actions == [] {
    } else {
      var one: Net<M> :| StepOf(setup)(net, actions[0], one) && Leads(setup, one, actions[1..], r);
      ReachableStep(setup, net, actions[0]);
      LeadsStaysReachable(setup, one, actions[1..], r);
    }
  }

  /** What such steps come to is what the run of them comes to. */
  lemma {:induction false} LeadsIsRun<M(!new)>(setup: Setup<M>, net: Net<M>, actions: seq<Action<M>>, r: Net<M>)
    requires Supported(setup.configs) && Leads(setup, net, actions, r)
    ensures Legal(setup, net, actions) && Run(setup, net, actions) == r
    decreases |actions|
  {
    if actions == [] {
    } else {
      var one: Net<M> :| StepOf(setup)(net, actions[0], one) && Leads(setup, one, actions[1..], r);
      LeadsIsRun(setup, one, actions[1..], r);
    }
  }

  // ---- Taking all messages -------------------------------------------------------------------

  /** Both ends are in order, and end `e` is as it was. */
  ghost predicate OnlyReceived<M>(setup: Setup<M>, net: Net<M>, e: nat, r: Net<M>) {
    && e < 2 && WellFormedNet(setup, net) && WellFormedNet(setup, r)
    && r[e] == net[e] && NoErrors(r[1 - e])
  }

  ghost predicate DrainedBelow<M>(end: End<M>, n: nat) {
    forall i :: 0 <= i < n && i < |end.connection.channels| ==> Drained(end.connection.channels[i])
  }

  lemma ReceiveIsLocal<M>(setup: Setup<M>, net: Net<M>, e: nat, c: nat)
    requires Supported(setup.configs) && WellFormedNet(setup, net) && e < 2 && !net[1 - e].panicked
    requires c < |setup.configs|
    ensures Enabled(setup, net, Receive(1 - e, c))
    ensures Apply(setup, net, Receive(1 - e, c)) == net[1 - e := ApplyReceive(setup, net[1 - e], c)]
  {
  }

  /** One call of `receive_message` on a channel that is not in error. */
  lemma ReceiveOne<M(!new)>(setup: Setup<M>, net: Net<M>, e: nat, c: nat) returns (r: Net<M>)
    requires Supported(setup.configs) && OnlyReceived(setup, net, e, net) && setup.Reliable(c)
    requires DrainedBelow(net[1 - e], c)
    ensures Leads(setup, net, [Receive(1 - e, c)], r) && OnlyReceived(setup, net, e, r)
    ensures DrainedBelow(r[1 - e], c)
    ensures ReceiverOf(setup, r[1 - e], c) == Delivered(ReceiverOf(setup, net[1 - e], c))
  {
    ReceiveIsLocal(setup, net, e, c);
    ReceiveKeepsWellFormed(setup, net[1 - e], c);
    r := Apply(setup, net, Receive(1 - e, c));
    LeadsByOne(setup, net, Receive(1 - e, c), r);
  }

  /** No message waits `n` or more ahead of its turn, or none has its turn. */
  ghost predicate DrainsIn<M>(r: Receiver<M>, n: nat) {
    r.next !in r.pending || forall k :: k in r.pending ==> k < r.next + n
  }

  ghost function ReceivesOf<M>(e: nat, c: nat, n: nat): seq<Action<M>>
    requires e < 2
  {
    if n == 0 then [] else [Receive(1 - e, c)] + ReceivesOf(e, c, n - 1)
  }

  lemma {:induction false} DrainChannel<M(!new)>(setup: Setup<M>, net: Net<M>, e: nat, c: nat, n: nat)
    returns (r: Net<M>)
    requires Supported(setup.configs) && OnlyReceived(setup, net, e, net) && setup.Reliable(c)
    requires DrainedBelow(net[1 - e], c) && DrainsIn(ReceiverOf(setup, net[1 - e], c), n)
    ensures Leads(setup, net, ReceivesOf(e, c, n), r) && OnlyReceived(setup, net, e, r)
    ensures DrainedBelow(r[1 - e], c + 1)
    decreases n
  {
    if n == 0 {
      r := net;
    } else {
      var one := ReceiveOne(setup, net, e, c);
      r := DrainChannel(setup, one, e, c, n - 1);
      LeadsFurther(setup, net, [Receive(1 - e, c)], one, ReceivesOf(e, c, n - 1), r);
    }
  }

  /** The user calls `receive_message` on each of the first `n` channels, as often as its queue is long. */
  ghost function AllReceives<M>(setup: Setup<M>, e: nat, n: nat): seq<Action<M>>
    requires e < 2 && n <= |setup.configs|
  {
    if n == 0 then []
    else
      AllReceives(setup, e, n - 1)
      + if setup.Reliable(n - 1) then ReceivesOf(e, n - 1, setup.configs[n - 1].messageReceiveQueueSize) else []
  }

  /** So the user takes everything there is, channel by channel. */
  lemma DrainOneMore<M(!new)>(setup: Setup<M>, net: Net<M>, before: Net<M>, e: nat, i: nat, n: nat) returns (r: Net<M>)
    requires Supported(setup.configs) && OnlyReceived(setup, net, e, before) && n == i + 1 <= |setup.configs|
    requires Leads(setup, net, AllReceives(setup, e, i), before) && DrainedBelow(before[1 - e], i)
    ensures Leads(setup, net, AllReceives(setup, e, n), r) && OnlyReceived(setup, net, e, r)
    ensures DrainedBelow(r[1 - e], n)
  {
    var first := AllReceives<M>(setup, e, i);
    if setup.Reliable(i) {
      var second := ReceivesOf<M>(e, i, setup.configs[i].messageReceiveQueueSize);
      r := DrainChannel(setup, before, e, i, setup.configs[i].messageReceiveQueueSize);
      LeadsFurther(setup, net, first, before, second, r);
      assert AllReceives(setup, e, n) == first + second;
    } else {
      r := before;
      assert AllReceives(setup, e, n) == first + [] == first;
    }
  }

  lemma {:induction false} DrainAll<M(!new)>(setup: Setup<M>, net: Net<M>, e: nat, n: nat) returns (r: Net<M>)
    requires Supported(setup.configs) && OnlyReceived(setup, net, e, net) && n <= |setup.configs|
    ensures Leads(setup, net, AllReceives(setup, e, n), r) && OnlyReceived(setup, net, e, r)
    ensures DrainedBelow(r[1 - e], n)
    decreases n
  {
    if n == 0 {
      r := net;
    } else {
      var before := DrainAll(setup, net, e, n - 1);
      r := DrainOneMore(setup, net, before, e, n - 1, n);
    }
  }

  // ---- A round -------------------------------------------------------------------------------

  /** The choices left open by a round: the time it happens at, and the size of the buffer. */
  datatype Plan = Plan(time: real, bytes: nat)

  /** Between two rounds nothing is wrong at either end, and the user at the other end has taken all messages. */
  ghost predicate Resting<M(!new)>(setup: Setup<M>, net: Net<M>, e: nat) {
    && Supported(setup.configs) && Reachable(setup, net) && WellFormedNet(setup, net) && e < 2
    && NoErrors(net[e]) && NoErrors(net[1 - e]) && AllDrained(net[1 - e])
  }

  /** The end that sends when the round happens. */
  ghost function Waited<M>(end: End<M>, plan: Plan): End<M> {
    ApplyTime(end, plan.time)
  }

  /** A packet can be made without an underflow, the oldest message of some reliable channel has its turn in it, and no
      channel mistakes its number, or the ack of it, for another. */
  ghost predicate GoodPlan<M(!new)>(setup: Setup<M>, end: End<M>, plan: Plan) {
    var waited := Waited(end, plan);
    && WellFormedEnd(setup, waited) && Supported(setup.configs) && plan.bytes > 0
    && GenerateAt(setup, waited, plan.bytes).Generated?
    && NumberIsClear(setup, waited, GenerateAt(setup, waited, plan.bytes))
    && NobodyIdle(setup, ApplyGenerate(setup, waited, plan.bytes), end.nextPacket)
    && exists c: nat :: setup.Reliable(c) && TurnComes(setup, waited, plan.bytes, c)
  }

  /** A round without loss: time passes, end `e` sends a packet, the other end takes it in, its ack comes back, and the
      other user takes all messages. */
  ghost function RoundActions<M(!new)>(setup: Setup<M>, end: End<M>, e: nat, plan: Plan): seq<Action<M>>
    requires e < 2 && GoodPlan(setup, end, plan)
  {
    [AdvanceTime(e, plan.time)] + Round(setup, Waited(end, plan), e, plan.bytes)
    + AllReceives(setup, e, |setup.configs|)
  }

  lemma TimePasses<M>(setup: Setup<M>, end: End<M>, time: real)
    requires WellFormedEnd(setup, end) && NoErrors(end)
    ensures WellFormedEnd(setup, ApplyTime(end, time)) && NoErrors(ApplyTime(end, time))
    ensures ApplyTime(end, time) == end.(connection := ApplyTime(end, time).connection)
    ensures forall c: nat :: setup.Reliable(c) ==>
              SenderOf(setup, ApplyTime(end, time), c) == SenderOf(setup, end, c).(time := time)
  {
    TimeKeepsWellFormed(setup, end, time);
  }

  /** Waiting changes nothing else. */
  lemma Wait<M(!new)>(setup: Setup<M>, net: Net<M>, e: nat, plan: Plan) returns (r: Net<M>)
    requires SetupValid(setup) && Resting(setup, net, e)
    ensures Leads(setup, net, [AdvanceTime(e, plan.time)], r) && Resting(setup, r, e)
    ensures r[e] == Waited(net[e], plan) && r[e].nextPacket == net[e].nextPacket && r[e].accepted == net[e].accepted
    ensures EndMovedOn(setup, net[e], r[e])
  {
    r := net[e := Waited(net[e], plan)];
    LeadsByOne(setup, net, AdvanceTime(e, plan.time), r);
    ReachableStep(setup, net, AdvanceTime(e, plan.time));
    TimePasses(setup, net[e], plan.time);
  }

  /** A packet that is taken in puts neither end in error. */
  lemma ArrivalKeepsNoErrors<M(!new)>(setup: Setup<M>, net: Net<M>, e: nat, w: WirePacket<M>)
    requires SetupValid(setup) && Reachable(setup, net) && Enabled(setup, net, Deliver(e, w))
    requires AllDrained(net[1 - e]) && NoErrors(net[1 - e])
    ensures var r := Apply(setup, net, Deliver(e, w));
            |r| == 2 && NoErrors(r[1 - e])
  {
    var s := ReachableIsSimulated(setup, net);
    BothDirections(setup, net, e, s);
    DeliverIsAllowed(setup, net, e, w);
    AcceptedWhenDrained(setup, net[e], net[1 - e], w, s[e]);
    DeliveryOutcome(setup, net[1 - e], w);
    AcceptedKeepsNoErrors(
      setup, net[1 - e], w,
      ProcessPacket(setup.configs, setup.codec, net[1 - e].connection, Wrap(w.number), w.bytes).channels);
  }

  /** What is sent, and what an ack does, at the sending end. */
  ghost predicate EndMovedOn<M>(setup: Setup<M>, end: End<M>, r: End<M>) {
    && WellFormedEnd(setup, end) && WellFormedEnd(setup, r) && (NoErrors(end) ==> NoErrors(r))
    && r.accepted == end.accepted
    && forall c: nat :: setup.Reliable(c) ==> MovedOn(SenderOf(setup, end, c), SenderOf(setup, r, c))
  }

  lemma GenerateMovesEndOn<M>(setup: Setup<M>, end: End<M>, bytes: nat)
    requires WellFormedEnd(setup, end) && Supported(setup.configs) && GenerateAt(setup, end, bytes).Generated?
    ensures EndMovedOn(setup, end, ApplyGenerate(setup, end, bytes))
  {
    GenerateKeepsWellFormed(setup, end, bytes);
    var r := ApplyGenerate(setup, end, bytes);
    forall c: nat | c < |setup.configs|
      ensures r.connection.channels[c].errorLevel == end.connection.channels[c].errorLevel
      ensures setup.Reliable(c) ==> MovedOn(SenderOf(setup, end, c), SenderOf(setup, r, c))
    {
      ChannelAfterGenerate(setup, end, bytes, c);
      if setup.Reliable(c) {
        SenderAfterGenerate(setup, end, bytes, c);
        GenerateMovesOn(setup.configs[c], SenderOf(setup, end, c), Wrap(end.nextPacket), RoomFor(setup, end, bytes, c));
      }
    }
  }

  lemma AckMovesEndOn<M>(setup: Setup<M>, end: End<M>, number: nat)
    requires WellFormedEnd(setup, end)
    ensures EndMovedOn(setup, end, AckedEnd(setup, end, number))
  {
    AckKeepsWellFormed(setup, end, number);
    forall c: nat | setup.Reliable(c)
      ensures MovedOn(SenderOf(setup, end, c), SenderOf(setup, AckedEnd(setup, end, number), c))
    {
      AckMovesOn(SenderOf(setup, end, c), Wrap(number));
    }
  }

  lemma EndMovedOnTwice<M>(setup: Setup<M>, end: End<M>, mid: End<M>, mid': End<M>, r: End<M>)
    requires EndMovedOn(setup, end, mid) && EndMovedOn(setup, mid', r)
    requires mid'.connection == mid.connection && mid'.panicked == mid.panicked && mid'.accepted == mid.accepted
    ensures EndMovedOn(setup, end, r)
  {
    forall c: nat | setup.Reliable(c)
      ensures MovedOn(SenderOf(setup, end, c), SenderOf(setup, r, c))
    {
      assert MovedOn(SenderOf(setup, end, c), SenderOf(setup, mid, c));
      assert MovedOn(SenderOf(setup, mid', c), SenderOf(setup, r, c));
    }
  }

  lemma DueAckDoesNotPanic<M(!new)>(setup: Setup<M>, net: Net<M>, e: nat, number: nat)
    requires SetupValid(setup) && Reachable(setup, net) && Enabled(setup, net, Ack(e, number))
    ensures Apply(setup, net, Ack(e, number)) == net[e := AckedEnd(setup, net[e], number)]
  {
    var s := ReachableIsSimulated(setup, net);
    BothDirections(setup, net, e, s);
    AckIsFresh(setup, net[e], net[1 - e], number, s[e]);
    AckIsLocal(setup, net, e, number);
  }

  /** Packet `w` arrives, and nothing goes wrong. */
  lemma Arrive<M(!new)>(setup: Setup<M>, net: Net<M>, e: nat, c: nat, w: WirePacket<M>) returns (r: Net<M>)
    requires SetupValid(setup) && UnderWay(setup, net, e, c, w)
    requires NoErrors(net[1 - e]) && AllDrained(net[1 - e]) && NotTooLate(setup, net[1 - e], w)
    ensures Enabled(setup, net, Deliver(e, w)) && Apply(setup, net, Deliver(e, w)) == r
    ensures Leads(setup, net, [Deliver(e, w)], r)
    ensures UnderWay(setup, r, e, c, w) && Enabled(setup, r, Ack(e, w.number)) && NoErrors(r[1 - e])
    ensures r[e].connection == net[e].connection && r[e].panicked == net[e].panicked
    ensures r[e].nextPacket == net[e].nextPacket && r[e].accepted == net[e].accepted
  {
    RoundArrives(setup, net, e, c, w);
    ArrivalKeepsNoErrors(setup, net, e, w);
    DeliverKeepsSender(setup, net, e, w);
    r := Apply(setup, net, Deliver(e, w));
    LeadsByOne(setup, net, Deliver(e, w), r);
  }

  /** Its ack comes back. */
  lemma AckBack<M(!new)>(setup: Setup<M>, net: Net<M>, e: nat, number: nat) returns (r: Net<M>)
    requires SetupValid(setup) && Reachable(setup, net) && Enabled(setup, net, Ack(e, number))
    ensures Apply(setup, net, Ack(e, number)) == r && Leads(setup, net, [Ack(e, number)], r)
    ensures Reachable(setup, r) && WellFormedNet(setup, r)
    ensures r[1 - e] == net[1 - e] && r[e].nextPacket == net[e].nextPacket && EndMovedOn(setup, net[e], r[e])
  {
    DueAckDoesNotPanic(setup, net, e, number);
    AckMovesEndOn(setup, net[e], number);
    ReachableStep(setup, net, Ack(e, number));
    r := Apply(setup, net, Ack(e, number));
    LeadsByOne(setup, net, Ack(e, number), r);
    ReachableIsWellFormed(setup, r);
  }

  /** A packet in which the oldest message of channel `c` has its turn is made. */
  lemma Depart<M(!new)>(setup: Setup<M>, net: Net<M>, e: nat, bytes: nat, c: nat) returns (r: Net<M>)
    requires SetupValid(setup) && Resting(setup, net, e) && Enabled(setup, net, Generate(e, bytes))
    requires setup.Reliable(c) && TurnComes(setup, net[e], bytes, c)
    requires NobodyIdle(setup, ApplyGenerate(setup, net[e], bytes), net[e].nextPacket)
    ensures Apply(setup, net, Generate(e, bytes)) == r && Leads(setup, net, [Generate(e, bytes)], r)
    ensures var w := PacketOf(setup, net[e], bytes);
            && w.number == net[e].nextPacket
            && UnderWay(setup, r, e, c, w) && NotTooLate(setup, r[1 - e], w)
    ensures r[1 - e] == net[1 - e] && EndMovedOn(setup, net[e], r[e]) && r[e].nextPacket == net[e].nextPacket + 1
  {
    RoundSends(setup, net, e, bytes, c);
    GenerateIsLocal(setup, net, e, bytes);
    GenerateMovesEndOn(setup, net[e], bytes);
    r := Apply(setup, net, Generate(e, bytes));
    PacketUsesNumber(setup, net[e], bytes, c);
    LeadsByOne(setup, net, Generate(e, bytes), r);
  }

  lemma PacketUsesNumber<M>(setup: Setup<M>, end: End<M>, bytes: nat, c: nat)
    requires WellFormedEnd(setup, end) && Supported(setup.configs) && setup.Reliable(c)
    requires GenerateAt(setup, end, bytes).Generated?
    requires TurnComes(setup, end, bytes, c)
    ensures ApplyGenerate(setup, end, bytes).nextPacket == end.nextPacket + 1
  {
    OldestComesFirst(setup.configs[c], SenderOf(setup, end, c), RoomFor(setup, end, bytes, c));
    ReliablePart(setup, end, bytes, c);
    NothingWithoutData(GenerateAt(setup, end, bytes).data, c);
  }

  lemma ThreeStepsLead<M(!new)>(
    setup: Setup<M>, net: Net<M>, a: Action<M>, first: Net<M>, b: Action<M>, second: Net<M>, c: Action<M>, r: Net<M>)
    requires Supported(setup.configs)
    requires Leads(setup, net, [a], first) && Leads(setup, first, [b], second) && Leads(setup, second, [c], r)
    ensures Leads(setup, net, [a, b, c], r)
  {
    LeadsFurther(setup, net, [a], first, [b], second);
    LeadsFurther(setup, net, [a] + [b], second, [c], r);
    assert [a] + [b] + [c] == [a, b, c];
  }

  /** The packet goes and its ack comes back. */
  lemma ThereAndBack<M(!new)>(setup: Setup<M>, net: Net<M>, e: nat, bytes: nat, c: nat) returns (r: Net<M>)
    requires SetupValid(setup) && Resting(setup, net, e) && Enabled(setup, net, Generate(e, bytes))
    requires setup.Reliable(c) && TurnComes(setup, net[e], bytes, c)
    requires NobodyIdle(setup, ApplyGenerate(setup, net[e], bytes), net[e].nextPacket)
    ensures Leads(setup, net, Round(setup, net[e], e, bytes), r)
    ensures Reachable(setup, r) && WellFormedNet(setup, r) && NoErrors(r[1 - e])
    ensures EndMovedOn(setup, net[e], r[e]) && r[e].nextPacket == net[e].nextPacket + 1
  {
    var sent := Depart(setup, net, e, bytes, c);
    var w := PacketOf(setup, net[e], bytes);
    var arrived := Arrive(setup, sent, e, c, w);
    r := AckBack(setup, arrived, e, w.number);
    ThreeStepsLead(setup, net, Generate(e, bytes), sent, Deliver(e, w), arrived, Ack(e, w.number), r);
    EndMovedOnTwice(setup, net[e], sent[e], arrived[e], r[e]);
  }

  /** The oldest id of every reliable channel that had its turn moved on. */
  lemma TurnsMoveOldest<M(!new)>(setup: Setup<M>, net: Net<M>, e: nat, bytes: nat, r: Net<M>, c: nat)
    requires SetupValid(setup) && Resting(setup, net, e) && Enabled(setup, net, Generate(e, bytes))
    requires GenerateAt(setup, net[e], bytes).Generated? && Leads(setup, net, Round(setup, net[e], e, bytes), r)
    requires NobodyIdle(setup, ApplyGenerate(setup, net[e], bytes), net[e].nextPacket)
    requires setup.Reliable(c) && TurnComes(setup, net[e], bytes, c)
    ensures WellFormedNet(setup, r) && SenderOf(setup, r[e], c).oldest > SenderOf(setup, net[e], c).oldest
  {
    RoundMakesProgress(setup, net, e, bytes, c);
    LeadsIsRun(setup, net, Round(setup, net[e], e, bytes), r);
  }

  /** The other user takes all messages. */
  lemma RestAgain<M(!new)>(setup: Setup<M>, net: Net<M>, e: nat) returns (r: Net<M>)
    requires Supported(setup.configs) && Reachable(setup, net) && WellFormedNet(setup, net) && e < 2
    requires NoErrors(net[e]) && NoErrors(net[1 - e])
    ensures Leads(setup, net, AllReceives(setup, e, |setup.configs|), r) && Resting(setup, r, e) && r[e] == net[e]
  {
    r := DrainAll(setup, net, e, |setup.configs|);
    LeadsStaysReachable(setup, net, AllReceives(setup, e, |setup.configs|), r);
  }

  /** The round of a good plan can happen. Nothing comes to be wrong, and every reliable channel that had its turn has
      strictly fewer messages outstanding. */
  lemma RoundGoesOn<M(!new)>(setup: Setup<M>, net: Net<M>, e: nat, plan: Plan) returns (r: Net<M>)
    requires SetupValid(setup) && Resting(setup, net, e) && GoodPlan(setup, net[e], plan)
    ensures Leads(setup, net, RoundActions(setup, net[e], e, plan), r) && Resting(setup, r, e)
    ensures EndMovedOn(setup, net[e], r[e]) && r[e].nextPacket == net[e].nextPacket + 1
    ensures forall c: nat :: setup.Reliable(c) && TurnComes(setup, Waited(net[e], plan), plan.bytes, c) ==>
              SenderOf(setup, r[e], c).oldest > SenderOf(setup, net[e], c).oldest
  {
    var waited := Wait(setup, net, e, plan);
    var first := [AdvanceTime(e, plan.time)];
    var second := Round(setup, Waited(net[e], plan), e, plan.bytes);
    var acked := RoundOfPlan(setup, waited, e, plan);
    r := RestAgain(setup, acked, e);
    LeadsFurther(setup, net, first, waited, second, acked);
    LeadsFurther(setup, net, first + second, acked, AllReceives(setup, e, |setup.configs|), r);
    EndMovedOnTwice(setup, net[e], waited[e], waited[e], acked[e]);
    TimePasses(setup, net[e], plan.time);
  }

  lemma RoundOfPlan<M(!new)>(setup: Setup<M>, net: Net<M>, e: nat, plan: Plan) returns (r: Net<M>)
    requires SetupValid(setup) && Resting(setup, net, e) && plan.bytes > 0
    requires GenerateAt(setup, net[e], plan.bytes).Generated?
    requires NumberIsClear(setup, net[e], GenerateAt(setup, net[e], plan.bytes))
    requires NobodyIdle(setup, ApplyGenerate(setup, net[e], plan.bytes), net[e].nextPacket)
    requires exists c: nat :: setup.Reliable(c) && TurnComes(setup, net[e], plan.bytes, c)
    ensures Leads(setup, net, Round(setup, net[e], e, plan.bytes), r)
    ensures Reachable(setup, r) && WellFormedNet(setup, r) && NoErrors(r[1 - e])
    ensures EndMovedOn(setup, net[e], r[e]) && r[e].nextPacket == net[e].nextPacket + 1
    ensures forall c: nat :: setup.Reliable(c) && TurnComes(setup, net[e], plan.bytes, c) ==>
              SenderOf(setup, r[e], c).oldest > SenderOf(setup, net[e], c).oldest
  {
    var first: nat :| setup.Reliable(first) && TurnComes(setup, net[e], plan.bytes, first);
    r := ThereAndBack(setup, net, e, plan.bytes, first);
    forall c: nat | setup.Reliable(c) && TurnComes(setup, net[e], plan.bytes, c)
      ensures SenderOf(setup, r[e], c).oldest > SenderOf(setup, net[e], c).oldest
    {
      TurnsMoveOldest(setup, net, e, plan.bytes, r, c);
    }
  }

  // ---- Many rounds ---------------------------------------------------------------------------

  /** The messages of the first `n` channels that are not yet known to have arrived. */
  ghost function OutstandingBelow<M>(setup: Setup<M>, end: End<M>, n: nat): nat
    requires WellFormedEnd(setup, end) && n <= |setup.configs|
  {
    if n == 0 then 0
    else
      OutstandingBelow(setup, end, n - 1)
      + if setup.Reliable(n - 1) then SenderOf(setup, end, n - 1).next - SenderOf(setup, end, n - 1).oldest else 0
  }

  ghost function Outstanding<M>(setup: Setup<M>, end: End<M>): nat
    requires WellFormedEnd(setup, end)
  {
    OutstandingBelow(setup, end, |setup.configs|)
  }

  lemma {:induction false} NeverMoreOutstanding<M>(setup: Setup<M>, end: End<M>, r: End<M>, n: nat)
    requires EndMovedOn(setup, end, r) && n <= |setup.configs|
    ensures OutstandingBelow(setup, r, n) <= OutstandingBelow(setup, end, n)
    ensures forall c: nat :: c < n && setup.Reliable(c) && SenderOf(setup, r, c).oldest > SenderOf(setup, end, c).oldest
              ==> OutstandingBelow(setup, r, n) < OutstandingBelow(setup, end, n)
  {
    if n == 0 {
    } else {
      NeverMoreOutstanding(setup, end, r, n - 1);
      assert setup.Reliable(n - 1) ==> MovedOn(SenderOf(setup, end, n - 1), SenderOf(setup, r, n - 1));
    }
  }

  lemma {:induction false} NoneOutstanding<M>(setup: Setup<M>, end: End<M>, n: nat, c: nat)
    requires WellFormedEnd(setup, end) && c < n <= |setup.configs| && setup.Reliable(c)
    requires OutstandingBelow(setup, end, n) == 0
    ensures !HasMessagesToSend(SenderOf(setup, end, c))
  {
    if c == n - 1 {
    } else {
      NoneOutstanding(setup, end, n - 1, c);
    }
  }

  /** As long as messages are outstanding, the next plan is a good one, and its round happens; this leads to `r`. */
  ghost predicate Rounds<M(!new)>(setup: Setup<M>, net: Net<M>, e: nat, plans: seq<Plan>, r: Net<M>)
    requires Supported(setup.configs) && e < 2
    decreases |plans|
  {
    && WellFormedNet(setup, net)
    && if plans == [] || Outstanding(setup, net[e]) == 0 then r == net
       else
         && GoodPlan(setup, net[e], plans[0]) && Legal(setup, net, RoundActions(setup, net[e], e, plans[0]))
         && Rounds(setup, Run(setup, net, RoundActions(setup, net[e], e, plans[0])), e, plans[1..], r)
  }

  /** One round of a good plan, as a run. */
  lemma RoundRuns<M(!new)>(setup: Setup<M>, net: Net<M>, e: nat, plan: Plan) returns (r: Net<M>)
    requires SetupValid(setup) && Resting(setup, net, e) && GoodPlan(setup, net[e], plan)
    ensures Legal(setup, net, RoundActions(setup, net[e], e, plan))
    ensures r == Run(setup, net, RoundActions(setup, net[e], e, plan)) && Resting(setup, r, e)
    ensures r[e].accepted == net[e].accepted && Outstanding(setup, r[e]) < Outstanding(setup, net[e])
  {
    r := RoundGoesOn(setup, net, e, plan);
    LeadsIsRun(setup, net, RoundActions(setup, net[e], e, plan), r);
    var c: nat :| setup.Reliable(c) && TurnComes(setup, Waited(net[e], plan), plan.bytes, c);
    FewerOutstanding(setup, net[e], r[e], c);
  }

  lemma FewerOutstanding<M>(setup: Setup<M>, end: End<M>, r: End<M>, c: nat)
    requires EndMovedOn(setup, end, r) && setup.Reliable(c)
    requires SenderOf(setup, r, c).oldest > SenderOf(setup, end, c).oldest
    ensures Outstanding(setup, r) < Outstanding(setup, end)
  {
    NeverMoreOutstanding(setup, end, r, |setup.configs|);
  }

  /** A channel with nothing outstanding has delivered everything, once the user has taken all messages. */
  lemma NothingLeft<M(!new)>(setup: Setup<M>, net: Net<M>, e: nat, c: nat)
    requires SetupValid(setup) && Reachable(setup, net) && WellFormedNet(setup, net) && e < 2 && setup.Reliable(c)
    requires AllDrained(net[1 - e]) && !HasMessagesToSend(SenderOf(setup, net[e], c))
    ensures SenderOf(setup, net[e], c).queue == map[] && net[1 - e].received[c] == net[e].accepted[c]
  {
    var s := ReachableIsSimulated(setup, net);
    BothDirections(setup, net, e, s);
    assert ChannelFollows(setup, net[e], net[1 - e], c, s[e][c]);
    NothingLeftOnLane(setup.configs[c], setup.Size(), LaneOf(setup, net[e], net[1 - e], c), s[e][c]);
  }

  lemma NothingLeftOnLane<M>(config: Config, size: M -> nat, lane: Lane<M>, shadow: P.System<M>)
    requires Follows(config, size, lane, shadow)
    requires NextMessage(lane.receiver) == None && !HasMessagesToSend(lane.sender)
    ensures lane.sender.queue == map[] && lane.delivered == lane.accepted
  {
    assert forall k :: k !in lane.sender.queue;
    if |lane.delivered| < |lane.accepted| {
      FollowingLosesNothing(config, size, lane, shadow, |lane.delivered|);
      assert false;
    }
  }

  /** Everything accepted at end `e` on a reliable channel was given to the other user, and nothing is outstanding. */
  ghost predicate AllDelivered<M>(setup: Setup<M>, net: Net<M>, e: nat, accepted: seq<seq<M>>)
    requires e < 2 && |accepted| == |setup.configs|
  {
    && WellFormedNet(setup, net)
    && forall c: nat :: setup.Reliable(c) ==>
         SenderOf(setup, net[e], c).queue == map[] && net[1 - e].received[c] == accepted[c]
  }

  lemma NothingLeftAtAll<M(!new)>(setup: Setup<M>, net: Net<M>, e: nat)
    requires SetupValid(setup) && Resting(setup, net, e) && Outstanding(setup, net[e]) == 0
    ensures AllDelivered(setup, net, e, net[e].accepted)
  {
    forall c: nat | setup.Reliable(c)
      ensures SenderOf(setup, net[e], c).queue == map[] && net[1 - e].received[c] == net[e].accepted[c]
    {
      NoneOutstanding(setup, net[e], |setup.configs|, c);
      NothingLeft(setup, net, e, c);
    }
  }

  /** Whatever the plans are, as long as they are good: as many rounds as messages are outstanding empty the send queue
      of every reliable channel, and the other user has got everything that was accepted. */
  lemma {:induction false} RoundsDeliverEverything<M(!new)>(
    setup: Setup<M>, net: Net<M>, e: nat, plans: seq<Plan>, r: Net<M>)
    requires SetupValid(setup) && Resting(setup, net, e) && Rounds(setup, net, e, plans, r)
    requires Outstanding(setup, net[e]) <= |plans|
    ensures AllDelivered(setup, r, e, net[e].accepted)
    decreases |plans|
  {
    if plans == [] || Outstanding(setup, net[e]) == 0 {
      NothingLeftAtAll(setup, net, e);
    } else {
      var one := RoundRuns(setup, net, e, plans[0]);
      RoundsDeliverEverything(setup, one, e, plans[1..], r);
    }
  }

  // ---- Rounds that there always are ----------------------------------------------------------

  /** When the oldest message of each of the first `n` channels is due. */
  ghost function AllDueAt<M>(setup: Setup<M>, end: End<M>, n: nat): real
    requires WellFormedEnd(setup, end) && n <= |setup.configs|
  {
    if n == 0 then 0.0
    else
      var before := AllDueAt(setup, end, n - 1);
      if setup.Reliable(n - 1) && HasMessagesToSend(SenderOf(setup, end, n - 1)) then
        var s := SenderOf(setup, end, n - 1);
        var due := s.queue[s.oldest].timeLastSent + setup.configs[n - 1].messageResendTime;
        if before < due then due else before
      else before
  }

  lemma {:induction false} AllDueAtIsLatest<M>(setup: Setup<M>, end: End<M>, n: nat, c: nat)
    requires WellFormedEnd(setup, end) && c < n <= |setup.configs|
    requires setup.Reliable(c) && HasMessagesToSend(SenderOf(setup, end, c))
    ensures SenderOf(setup, end, c).oldest in SenderOf(setup, end, c).queue
    ensures var s := SenderOf(setup, end, c);
            s.queue[s.oldest].timeLastSent + setup.configs[c].messageResendTime <= AllDueAt(setup, end, n)
  {
    if c == n - 1 {
    } else {
      AllDueAtIsLatest(setup, end, n - 1, c);
    }
  }

  /** The oldest messages of the channel fit its budget, at most `k` are outstanding, and packet numbers stay near for
      the `k` rounds to come. */
  ghost predicate Finishes<M>(config: Config, s: Sender<M>, nextPacket: nat, k: nat) {
    && config.packetBudget.Some? && 8 * config.packetBudget.value >= MESSAGE_HEADER_BITS + GIVE_UP_BITS
    && (forall j :: j in s.queue ==> MESSAGE_HEADER_BITS + Cost(s, j) <= 8 * config.packetBudget.value)
    && s.next - s.oldest <= k
    && nextPacket + k - s.packetTop < HALF
  }

  /** With budgets that fit, every channel has its whole budget when its turn comes. */
  lemma WholeBudgetAtTurn<M>(setup: Setup<M>, end: End<M>, bytes: nat, c: nat)
    requires WellFormedEnd(setup, end) && BudgetsFit(setup.configs, bytes) && c < |setup.configs|
    ensures GenerateAt(setup, end, bytes).Generated?
    ensures setup.configs[c].BitsFor(RoomFor(setup, end, bytes, c)) == 8 * setup.configs[c].packetBudget.value
  {
    var configs, channels, number := setup.configs, end.connection.channels, Wrap(end.nextPacket);
    BudgetsNeverUnderflow(configs, setup.Size(), channels, number, bytes);
    RoomForBudget(configs, setup.Size(), channels, number, bytes, c);
    PackedBefore(configs, setup.Size(), channels, number, bytes, |configs|, c);
  }

  lemma RoomForBudget<M>(
    configs: seq<Config>, size: M -> nat, channels: seq<C.ChannelState<M>>, number: u16, bytes: nat, c: nat)
    requires ChannelsValid(configs, size, channels) && BudgetsFit(configs, bytes) && c < |configs|
    ensures var packing := Packed(configs, size, channels, number, bytes, c);
            packing.Packing? && configs[c].BitsFor(packing.room) == 8 * configs[c].packetBudget.value
  {
    BudgetsLeaveRoom(configs, size, channels, number, bytes, c);
    BudgetBitsGrow(configs, c + 1, |configs|);
  }

  /** The oldest message of every reliable channel is due. */
  ghost predicate AllDue<M>(setup: Setup<M>, end: End<M>)
    requires WellFormedEnd(setup, end)
  {
    forall c: nat :: setup.Reliable(c) && HasMessagesToSend(SenderOf(setup, end, c)) ==>
      var s := SenderOf(setup, end, c);
      s.oldest in s.queue && Due(setup.configs[c], s, s.oldest)
  }

  lemma AllDueAfterWaiting<M>(setup: Setup<M>, end: End<M>)
    requires WellFormedEnd(setup, end) && NoErrors(end)
    ensures var waited := ApplyTime(end, AllDueAt(setup, end, |setup.configs|));
            WellFormedEnd(setup, waited) && AllDue(setup, waited)
  {
    var time := AllDueAt(setup, end, |setup.configs|);
    TimePasses(setup, end, time);
    forall c: nat | setup.Reliable(c) && HasMessagesToSend(SenderOf(setup, end, c))
      ensures var s := SenderOf(setup, end, c).(time := time);
              s.oldest in s.queue && Due(setup.configs[c], s, s.oldest)
    {
      AllDueAtIsLatest(setup, end, |setup.configs|, c);
    }
  }

  lemma EveryTurnComes<M>(setup: Setup<M>, end: End<M>, bytes: nat, c: nat, k: nat)
    requires WellFormedEnd(setup, end) && BudgetsFit(setup.configs, bytes) && setup.Reliable(c)
    requires Finishes(setup.configs[c], SenderOf(setup, end, c), end.nextPacket, k)
    requires HasMessagesToSend(SenderOf(setup, end, c)) && AllDue(setup, end)
    requires SenderOf(setup, end, c).packetTop <= end.nextPacket
    ensures TurnComes(setup, end, bytes, c)
  {
    WholeBudgetAtTurn(setup, end, bytes, c);
    P.NearNumberIsClear(setup.configs[c], SenderOf(setup, end, c), end.nextPacket);
  }

  lemma SameFinishes<M>(config: Config, s: Sender<M>, time: real, nextPacket: nat, k: nat)
    requires Finishes(config, s, nextPacket, k)
    ensures Finishes(config, s.(time := time), nextPacket, k)
  {
  }

  /** Every reliable channel can finish in `k` rounds. */
  ghost predicate CanFinish<M>(setup: Setup<M>, end: End<M>, k: nat)
    requires WellFormedEnd(setup, end)
  {
    forall c: nat :: setup.Reliable(c) ==> Finishes(setup.configs[c], SenderOf(setup, end, c), end.nextPacket, k)
  }

  /** A number just past those recorded is not mistaken, whether it is recorded now or not. */
  lemma FreshNumberIsClear<M>(config: Config, s: Sender<M>, number: nat, room: nat)
    requires config.Valid() && SenderValid(config, s)
    requires s.packetTop <= number && number + 1 - s.packetTop < HALF
    ensures P.AckIsClear(s, number)
    ensures P.AckIsClear(GeneratePacket(config, s, Wrap(number), room), number)
  {
    InsertKeyIsTheNumberMeant(s.packetTop, number);
    forall q | q in s.ledger
      ensures Wrap(q) != Wrap(number)
    {
      if Wrap(q) == Wrap(number) {
        WrapUnique(q, number);
        assert false;
      }
    }
  }

  /** The plan to wait until everything is due. */
  ghost function WaitingPlan<M>(setup: Setup<M>, end: End<M>, bytes: nat): Plan
    requires WellFormedEnd(setup, end)
  {
    Plan(AllDueAt(setup, end, |setup.configs|), bytes)
  }

  lemma WaitedCanFinish<M>(setup: Setup<M>, end: End<M>, plan: Plan, k: nat)
    requires WellFormedEnd(setup, end) && NoErrors(end) && CanFinish(setup, end, k)
    ensures WellFormedEnd(setup, Waited(end, plan)) && CanFinish(setup, Waited(end, plan), k)
  {
    TimePasses(setup, end, plan.time);
    forall c: nat | setup.Reliable(c)
      ensures Finishes(setup.configs[c], SenderOf(setup, end, c).(time := plan.time), end.nextPacket, k)
    {
      SameFinishes(setup.configs[c], SenderOf(setup, end, c), plan.time, end.nextPacket, k);
    }
  }

  /** No ring is ahead of the packet numbers. */
  ghost predicate NumbersAhead<M>(setup: Setup<M>, end: End<M>)
    requires WellFormedEnd(setup, end)
  {
    forall c: nat :: setup.Reliable(c) ==> SenderOf(setup, end, c).packetTop <= end.nextPacket
  }

  /** With budgets that fit, a packet can be made, and its number is clear for all. */
  lemma BudgetedPacket<M(!new)>(setup: Setup<M>, end: End<M>, bytes: nat, k: nat)
    requires SetupValid(setup) && WellFormedEnd(setup, end) && BudgetsFit(setup.configs, bytes) && k > 0
    requires CanFinish(setup, end, k) && NumbersAhead(setup, end)
    ensures GenerateAt(setup, end, bytes).Generated? && NumberIsClear(setup, end, GenerateAt(setup, end, bytes))
    ensures NobodyIdle(setup, ApplyGenerate(setup, end, bytes), end.nextPacket)
  {
    BudgetsNeverUnderflow(setup.configs, setup.Size(), end.connection.channels, Wrap(end.nextPacket), bytes);
    forall c: nat | setup.Reliable(c)
      ensures P.NumberIsClear(setup.configs[c], SenderOf(setup, end, c), end.nextPacket)
      ensures WellFormedEnd(setup, ApplyGenerate(setup, end, bytes))
      ensures P.AckIsClear(SenderOf(setup, ApplyGenerate(setup, end, bytes), c), end.nextPacket)
    {
      assert Finishes(setup.configs[c], SenderOf(setup, end, c), end.nextPacket, k);
      P.NearNumberIsClear(setup.configs[c], SenderOf(setup, end, c), end.nextPacket);
      SenderAfterGenerate(setup, end, bytes, c);
      FreshNumberIsClear(setup.configs[c], SenderOf(setup, end, c), end.nextPacket, RoomFor(setup, end, bytes, c));
    }
  }

  lemma {:induction false} SomeOutstanding<M>(setup: Setup<M>, end: End<M>, n: nat) returns (c: nat)
    requires WellFormedEnd(setup, end) && n <= |setup.configs| && OutstandingBelow(setup, end, n) > 0
    ensures setup.Reliable(c) && HasMessagesToSend(SenderOf(setup, end, c))
    decreases n
  {
    if setup.Reliable(n - 1) && HasMessagesToSend(SenderOf(setup, end, n - 1)) {
      c := n - 1;
    } else {
      c := SomeOutstanding(setup, end, n - 1);
    }
  }

  lemma RingsAreBehind<M(!new)>(setup: Setup<M>, net: Net<M>, e: nat)
    requires SetupValid(setup) && Resting(setup, net, e)
    ensures NumbersAhead(setup, net[e])
  {
    forall c: nat | setup.Reliable(c)
      ensures SenderOf(setup, net[e], c).packetTop <= net[e].nextPacket
    {
      PacketTopIsBehind(setup, net, e, c);
    }
  }

  /** And when everything is due, every channel with messages has its turn. */
  lemma WaitingPlanIsGood<M(!new)>(setup: Setup<M>, end: End<M>, bytes: nat, k: nat)
    requires SetupValid(setup) && WellFormedEnd(setup, end) && NoErrors(end) && BudgetsFit(setup.configs, bytes)
    requires CanFinish(setup, end, k) && NumbersAhead(setup, end) && Outstanding(setup, end) > 0
    ensures GoodPlan(setup, end, WaitingPlan(setup, end, bytes)) && k > 0
    ensures var waited := Waited(end, WaitingPlan(setup, end, bytes));
            forall c: nat :: setup.Reliable(c) && HasMessagesToSend(SenderOf(setup, end, c)) ==>
              TurnComes(setup, waited, bytes, c)
  {
    var plan := WaitingPlan(setup, end, bytes);
    var some := SomeOutstanding(setup, end, |setup.configs|);
    assert Finishes(setup.configs[some], SenderOf(setup, end, some), end.nextPacket, k);
    WaitedIsReady(setup, end, bytes, k);
    BudgetedPacket(setup, Waited(end, plan), bytes, k);
    assert setup.configs != [];
    assert TurnComes(setup, Waited(end, plan), bytes, some);
  }

  lemma WaitedIsReady<M(!new)>(setup: Setup<M>, end: End<M>, bytes: nat, k: nat)
    requires SetupValid(setup) && WellFormedEnd(setup, end) && NoErrors(end) && BudgetsFit(setup.configs, bytes)
    requires CanFinish(setup, end, k) && NumbersAhead(setup, end)
    ensures var waited := Waited(end, WaitingPlan(setup, end, bytes));
            && WellFormedEnd(setup, waited) && CanFinish(setup, waited, k) && NumbersAhead(setup, waited)
            && waited.nextPacket == end.nextPacket
            && forall c: nat :: setup.Reliable(c) && HasMessagesToSend(SenderOf(setup, end, c)) ==>
                 TurnComes(setup, waited, bytes, c)
  {
    var plan := WaitingPlan(setup, end, bytes);
    WaitedCanFinish(setup, end, plan, k);
    TimePasses(setup, end, plan.time);
    AllDueAfterWaiting(setup, end);
    forall c: nat | setup.Reliable(c) && HasMessagesToSend(SenderOf(setup, end, c))
      ensures TurnComes(setup, Waited(end, plan), bytes, c)
    {
      assert Finishes(setup.configs[c], SenderOf(setup, Waited(end, plan), c), end.nextPacket, k);
      EveryTurnComes(setup, Waited(end, plan), bytes, c, k);
    }
  }

  lemma FinishesSooner<M>(config: Config, s: Sender<M>, r: Sender<M>, nextPacket: nat, k: nat)
    requires Finishes(config, s, nextPacket, k) && k > 0 && MovedOn(s, r) && SenderValid(config, r)
    requires HasMessagesToSend(s) ==> s.oldest < r.oldest
    ensures Finishes(config, r, nextPacket + 1, k - 1)
  {
  }

  lemma AllFinishSooner<M>(setup: Setup<M>, end: End<M>, r: End<M>, k: nat)
    requires EndMovedOn(setup, end, r) && CanFinish(setup, end, k) && k > 0 && r.nextPacket == end.nextPacket + 1
    requires forall c: nat :: setup.Reliable(c) && HasMessagesToSend(SenderOf(setup, end, c)) ==>
               SenderOf(setup, end, c).oldest < SenderOf(setup, r, c).oldest
    ensures CanFinish(setup, r, k - 1)
  {
    forall c: nat | setup.Reliable(c)
      ensures Finishes(setup.configs[c], SenderOf(setup, r, c), r.nextPacket, k - 1)
    {
      assert Finishes(setup.configs[c], SenderOf(setup, end, c), end.nextPacket, k);
      FinishesSooner(setup.configs[c], SenderOf(setup, end, c), SenderOf(setup, r, c), end.nextPacket, k);
    }
  }

  /** One round of the plan to wait. */
  lemma WaitingRound<M(!new)>(setup: Setup<M>, net: Net<M>, e: nat, bytes: nat, k: nat) returns (r: Net<M>)
    requires SetupValid(setup) && Resting(setup, net, e) && BudgetsFit(setup.configs, bytes)
    requires CanFinish(setup, net[e], k) && Outstanding(setup, net[e]) > 0
    ensures k > 0 && GoodPlan(setup, net[e], WaitingPlan(setup, net[e], bytes))
    ensures var actions := RoundActions(setup, net[e], e, WaitingPlan(setup, net[e], bytes));
            Legal(setup, net, actions) && Run(setup, net, actions) == r
    ensures Resting(setup, r, e) && CanFinish(setup, r[e], k - 1) && r[e].accepted == net[e].accepted
  {
    var plan := WaitingPlan(setup, net[e], bytes);
    RingsAreBehind(setup, net, e);
    WaitingPlanIsGood(setup, net[e], bytes, k);
    r := RoundGoesOn(setup, net, e, plan);
    LeadsIsRun(setup, net, RoundActions(setup, net[e], e, plan), r);
    AllFinishSooner(setup, net[e], r[e], k);
  }

  /** These rounds deliver everything. */
  ghost predicate DeliverAll<M(!new)>(setup: Setup<M>, net: Net<M>, e: nat, plans: seq<Plan>, r: Net<M>)
    requires Supported(setup.configs) && e < 2 && WellFormedNet(setup, net)
  {
    Rounds(setup, net, e, plans, r) && AllDelivered(setup, r, e, net[e].accepted)
  }

  lemma OneMoreRound<M(!new)>(
    setup: Setup<M>, net: Net<M>, e: nat, plan: Plan, one: Net<M>, later: seq<Plan>, r: Net<M>)
    requires Supported(setup.configs) && e < 2 && WellFormedNet(setup, net) && Outstanding(setup, net[e]) > 0
    requires GoodPlan(setup, net[e], plan) && Legal(setup, net, RoundActions(setup, net[e], e, plan))
    requires Run(setup, net, RoundActions(setup, net[e], e, plan)) == one && WellFormedNet(setup, one)
    requires one[e].accepted == net[e].accepted && DeliverAll(setup, one, e, later, r)
    ensures DeliverAll(setup, net, e, [plan] + later, r)
  {
    assert ([plan] + later)[1..] == later;
  }

  lemma NoMoreRounds<M(!new)>(setup: Setup<M>, net: Net<M>, e: nat)
    requires SetupValid(setup) && Resting(setup, net, e) && Outstanding(setup, net[e]) == 0
    ensures DeliverAll(setup, net, e, [], net)
  {
    NothingLeftAtAll(setup, net, e);
  }

  /** Whatever delivers everything after that round does so with that round before it. */
  lemma FirstRound<M(!new)>(setup: Setup<M>, net: Net<M>, e: nat, bytes: nat, k: nat) returns (one: Net<M>)
    requires SetupValid(setup) && Resting(setup, net, e) && BudgetsFit(setup.configs, bytes)
    requires CanFinish(setup, net[e], k) && Outstanding(setup, net[e]) > 0
    ensures k > 0 && Resting(setup, one, e) && CanFinish(setup, one[e], k - 1)
    ensures forall later, r :: DeliverAll(setup, one, e, later, r) ==>
              DeliverAll(setup, net, e, [WaitingPlan(setup, net[e], bytes)] + later, r)
  {
    one := WaitingRound(setup, net, e, bytes, k);
    forall later, r | DeliverAll(setup, one, e, later, r)
      ensures DeliverAll(setup, net, e, [WaitingPlan(setup, net[e], bytes)] + later, r)
    {
      OneMoreRound(setup, net, e, WaitingPlan(setup, net[e], bytes), one, later, r);
    }
  }

  /** With budgets that fit the buffer and messages that fit their budget there are always such plans: when no reliable
      channel has more than `k` messages outstanding, `k` rounds are enough for all of them. */
  lemma {:induction false} BudgetedRounds<M(!new)>(setup: Setup<M>, net: Net<M>, e: nat, bytes: nat, k: nat)
    returns (plans: seq<Plan>, r: Net<M>)
    requires SetupValid(setup) && Resting(setup, net, e) && BudgetsFit(setup.configs, bytes)
    requires CanFinish(setup, net[e], k)
    ensures |plans| <= k && DeliverAll(setup, net, e, plans, r)
    decreases k
  {
    if Outstanding(setup, net[e]) == 0 {
      plans, r := [], net;
      NoMoreRounds(setup, net, e);
    } else {
      var one := FirstRound(setup, net, e, bytes, k);
      var later;
      later, r := BudgetedRounds(setup, one, e, bytes, k - 1);
      plans := [WaitingPlan(setup, net[e], bytes)] + later;
    }
  }
}
