/** What the calls of a user come to over whole runs: counters, ids, and errors that stay. */
module Calls {
  import opened Wrap16
  import opened Options
  import opened Configs
  import opened Codec
  import opened ReliableSpec
  import opened ConnectionSpec
  import opened ConnectionProtocol
  import opened Isolation
  import opened Guarantees
  import opened Steps
  import C = ChannelSpec
  import P = Protocol

  // ---- Counters and ids ----------------------------------------------------------------------

  /** The counters of channel `c` count what its user sent and got; a reliable channel numbers what it gives. */
  ghost predicate Counted<M>(setup: Setup<M>, end: End<M>, c: nat)
    requires WellFormedEnd(setup, end) && c < |setup.configs|
  {
    var channel := end.connection.channels[c];
    && channel.sent == |end.accepted[c]| && channel.received == |end.received[c]| == |end.labels[c]|
    && (setup.Reliable(c) ==> forall i :: 0 <= i < |end.labels[c]| ==> end.labels[c][i] == Wrap(i))
  }

  lemma QuietIsCounted<M>(setup: Setup<M>, a: End<M>, b: End<M>, c: nat)
    requires WellFormedEnd(setup, a) && WellFormedEnd(setup, b) && c < |setup.configs|
    requires Counted(setup, a, c) && Quiet(a, b, c)
    ensures Counted(setup, b, c)
  {
  }

  lemma SendIsCounted<M>(setup: Setup<M>, end: End<M>, c: nat, message: M)
    requires WellFormedEnd(setup, end) && c < |setup.configs| && Counted(setup, end, c)
    ensures WellFormedEnd(setup, ApplySend(setup, end, c, message))
    ensures Counted(setup, ApplySend(setup, end, c, message), c)
  {
    SendKeepsWellFormed(setup, end, c, message);
  }

  lemma ReceiveIsCounted<M>(setup: Setup<M>, end: End<M>, c: nat)
    requires WellFormedEnd(setup, end) && c < |setup.configs| && Counted(setup, end, c)
    requires setup.Reliable(c) ==> ReceiverOf(setup, end, c).next == |end.received[c]|
    ensures WellFormedEnd(setup, ApplyReceive(setup, end, c))
    ensures Counted(setup, ApplyReceive(setup, end, c), c)
  {
    ReceiveKeepsWellFormed(setup, end, c);
  }

  /** The next message of a reliable channel has the number of messages its user got. */
  lemma ReceiverCounts<M>(setup: Setup<M>, net: Net<M>, s: seq<seq<P.System<M>>>, e: nat, c: nat)
    requires Simulated(setup, net, s) && e < 2 && setup.Reliable(c)
    ensures ReceiverOf(setup, net[e], c).next == |net[e].received[c]|
  {
    BothDirections(setup, net, e, s);
    assert ChannelFollows(setup, net[1 - e], net[e], c, s[1 - e][c]);
  }

  lemma CallIsCounted<M>(setup: Setup<M>, net: Net<M>, action: Action<M>, e: nat, c: nat)
    requires Supported(setup.configs) && Enabled(setup, net, action) && e < 2 && c < |setup.configs|
    requires IsCall(action, e, c) && Counted(setup, net[e], c)
    requires setup.Reliable(c) ==> ReceiverOf(setup, net[e], c).next == |net[e].received[c]|
    ensures WellFormedNet(setup, Apply(setup, net, action)) && Counted(setup, Apply(setup, net, action)[e], c)
  {
    if action.Send? {
      SendIsCounted(setup, net[e], c, action.message);
    } else {
      ReceiveIsCounted(setup, net[e], c);
    }
  }

  lemma StepIsCounted<M(!new)>(setup: Setup<M>, net: Net<M>, action: Action<M>, e: nat, c: nat)
    requires SetupUsable(setup) && Enabled(setup, net, action) && (action.Deliver? ==> WireValid(setup, action.packet))
    requires e < 2 && c < |setup.configs| && Counted(setup, net[e], c)
    requires setup.Reliable(c) ==> ReceiverOf(setup, net[e], c).next == |net[e].received[c]|
    ensures WellFormedNet(setup, Apply(setup, net, action)) && Counted(setup, Apply(setup, net, action)[e], c)
  {
    if IsCall(action, e, c) {
      CallIsCounted(setup, net, action, e, c);
    } else {
      OnlyCallsShow(setup, net, action, e, c);
      QuietIsCounted(setup, net[e], Apply(setup, net, action)[e], c);
    }
  }

  lemma {:induction false} RunIsCounted<M(!new)>(
    setup: Setup<M>, net: Net<M>, actions: seq<Action<M>>, s: seq<seq<P.System<M>>>, e: nat, c: nat)
    requires SetupValid(setup) && Simulated(setup, net, s) && Legal(setup, net, actions)
    requires e < 2 && c < |setup.configs| && Counted(setup, net[e], c)
    ensures WellFormedNet(setup, Run(setup, net, actions)) && Counted(setup, Run(setup, net, actions)[e], c)
    decreases |actions|
  {
    if actions == [] {
    } else {
      var s' := CountedStep(setup, net, actions[0], s, e, c);
      RunIsCounted(setup, Apply(setup, net, actions[0]), actions[1..], s', e, c);
    }
  }

  lemma CountedStep<M(!new)>(
    setup: Setup<M>, net: Net<M>, action: Action<M>, s: seq<seq<P.System<M>>>, e: nat, c: nat)
    returns (s': seq<seq<P.System<M>>>)
    requires SetupValid(setup) && Simulated(setup, net, s) && Enabled(setup, net, action)
    requires e < 2 && c < |setup.configs| && Counted(setup, net[e], c)
    ensures Simulated(setup, Apply(setup, net, action), s') && Counted(setup, Apply(setup, net, action)[e], c)
  {
    if action.Deliver? {
      FlightIsValid(setup, net, action.end, s, action.packet);
    }
    if setup.Reliable(c) {
      ReceiverCounts(setup, net, s, e, c);
    }
    StepIsCounted(setup, net, action, e, c);
    s' := StepSimulated(setup, net, action, s);
  }

  lemma StartIsCounted<M(!new)>(
    setup: Setup<M>, time: real, time': real, actions: seq<Action<M>>, e: nat, c: nat)
    requires SetupValid(setup) && e < 2 && c < |setup.configs| && Legal(setup, Initial(setup, time, time'), actions)
    ensures WellFormedNet(setup, Run(setup, Initial(setup, time, time'), actions))
    ensures Counted(setup, Run(setup, Initial(setup, time, time'), actions)[e], c)
  {
    var s := InitialSimulated<M>(setup, time, time');
    RunIsCounted(setup, Initial(setup, time, time'), actions, s, e, c);
  }

  /** In every reachable state the counters of a channel are how many messages its user sent and got, and the `i`-th
      message of a reliable channel came under the 16-bit form of `i`. */
  lemma CountersCount<M(!new)>(setup: Setup<M>, net: Net<M>, e: nat, c: nat)
    requires SetupValid(setup) && Reachable(setup, net) && e < 2 && c < |setup.configs|
    ensures WellFormedNet(setup, net)
    ensures var end, channel := net[e], net[e].connection.channels[c];
            && channel.sent == |end.accepted[c]| && channel.received == |end.received[c]| == |end.labels[c]|
            && (setup.Reliable(c) ==> forall i :: 0 <= i < |end.labels[c]| ==> end.labels[c][i] == Wrap(i))
  {
    var time, time', actions :| ReachedBy<M>(setup, time, time', actions, net);
    StartIsCounted(setup, time, time', actions, e, c);
  }

  // ---- Channels in error ---------------------------------------------------------------------

  /** Channel `c` of this end is in error. */
  ghost predicate InError<M>(setup: Setup<M>, end: End<M>, c: nat)
    requires WellFormedEnd(setup, end) && c < |setup.configs|
  {
    end.connection.channels[c].errorLevel != C.NoError
  }

  lemma CallInErrorIsQuiet<M>(setup: Setup<M>, net: Net<M>, action: Action<M>, e: nat, c: nat)
    requires Supported(setup.configs) && Enabled(setup, net, action) && e < 2 && c < |setup.configs|
    requires IsCall(action, e, c) && InError(setup, net[e], c)
    ensures WellFormedNet(setup, Apply(setup, net, action)) && Quiet(net[e], Apply(setup, net, action)[e], c)
  {
    if action.Send? {
      SendKeepsWellFormed(setup, net[e], c, action.message);
    } else {
      ReceiveKeepsWellFormed(setup, net[e], c);
    }
  }

  lemma ErrorIsQuiet<M(!new)>(setup: Setup<M>, net: Net<M>, action: Action<M>, e: nat, c: nat)
    requires SetupUsable(setup) && Enabled(setup, net, action) && (action.Deliver? ==> WireValid(setup, action.packet))
    requires e < 2 && c < |setup.configs| && InError(setup, net[e], c)
    ensures WellFormedNet(setup, Apply(setup, net, action)) && Quiet(net[e], Apply(setup, net, action)[e], c)
  {
    if IsCall(action, e, c) {
      CallInErrorIsQuiet(setup, net, action, e, c);
    } else {
      OnlyCallsShow(setup, net, action, e, c);
    }
  }

  /** A channel in error stays in this error, and takes nothing from its user and gives nothing, whatever happens. */
  lemma {:induction false} ErrorStays<M(!new)>(
    setup: Setup<M>, net: Net<M>, actions: seq<Action<M>>, s: seq<seq<P.System<M>>>, e: nat, c: nat)
    requires SetupValid(setup) && Simulated(setup, net, s) && Legal(setup, net, actions)
    requires e < 2 && c < |setup.configs| && InError(setup, net[e], c)
    ensures WellFormedNet(setup, Run(setup, net, actions)) && Quiet(net[e], Run(setup, net, actions)[e], c)
    decreases |actions|
  {
    if actions == [] {
    } else {
      if actions[0].Deliver? {
        FlightIsValid(setup, net, actions[0].end, s, actions[0].packet);
      }
      ErrorIsQuiet(setup, net, actions[0], e, c);
      var s' := StepSimulated(setup, net, actions[0], s);
      ErrorStays(setup, Apply(setup, net, actions[0]), actions[1..], s', e, c);
    }
  }

  // ---- Connections in error ------------------------------------------------------------------

  /** End `e` takes in no packets: none was marked as processed, and no channel was handed anything. */
  ghost predicate TookNothing<M>(net: Net<M>, net': Net<M>, e: nat) {
    && |net| == 2 && |net'| == 2 && e < 2
    && net'[e].connection.errorLevel != NoError
    && net'[e].arrivals == net[e].arrivals && net'[1 - e].processed == net[1 - e].processed
  }

  lemma DeliveryIsRefused<M>(setup: Setup<M>, net: Net<M>, i: nat, w: WirePacket<M>, e: nat)
    requires WellFormedNet(setup, net) && i < 2 && e < 2 && net[e].connection.errorLevel != NoError
    ensures e == 1 - i ==> TookNothing(net, ApplyDeliver(setup, net, i, w), e)
  {
    DeliverApplies(setup, net, i, w);
    if e == 1 - i {
      var to := net[e];
      assert Handed(to, w) == {};
      assert TookIn(to, w, to.connection.channels).arrivals == to.arrivals;
    }
  }

  /** What end `e` sends out arrives, or not, at the other end. */
  lemma DeliveryElsewhere<M(!new)>(setup: Setup<M>, net: Net<M>, e: nat, w: WirePacket<M>)
    requires SetupUsable(setup) && WellFormedNet(setup, net) && e < 2 && WireValid(setup, w)
    requires net[e].connection.errorLevel != NoError && 0 < |setup.configs|
    ensures TookNothing(net, ApplyDeliver(setup, net, e, w), e)
  {
    DeliverIsQuiet(setup, net, e, w, 0);
  }

  lemma DeliverTakesNothing<M(!new)>(setup: Setup<M>, net: Net<M>, i: nat, w: WirePacket<M>, e: nat)
    requires SetupUsable(setup) && Enabled(setup, net, Deliver(i, w)) && WireValid(setup, w)
    requires e < 2 && net[e].connection.errorLevel != NoError && 0 < |setup.configs|
    ensures TookNothing(net, Apply(setup, net, Deliver(i, w)), e)
  {
    DeliverIsAllowed(setup, net, i, w);
    if e == i {
      DeliveryElsewhere(setup, net, e, w);
    } else {
      DeliveryIsRefused(setup, net, i, w, e);
    }
  }

  /** What an end does on its own takes nothing in, and leaves a connection in error. */
  ghost predicate KeepsStopped<M>(a: End<M>, b: End<M>) {
    && b.arrivals == a.arrivals && b.processed == a.processed
    && (a.connection.errorLevel != NoError ==> b.connection.errorLevel != NoError)
  }

  lemma OwnStepTakesNothing<M>(net: Net<M>, i: nat, end: End<M>, e: nat)
    requires |net| == 2 && i < 2 && e < 2 && net[e].connection.errorLevel != NoError && KeepsStopped(net[i], end)
    ensures TookNothing(net, net[i := end], e)
  {
  }

  lemma GenerateKeepsStopped<M>(setup: Setup<M>, end: End<M>, bytes: nat)
    requires WellFormedEnd(setup, end) && Supported(setup.configs)
    ensures KeepsStopped(end, ApplyGenerate(setup, end, bytes))
  {
  }

  lemma AckKeepsStopped<M>(setup: Setup<M>, end: End<M>, number: nat)
    requires WellFormedEnd(setup, end)
    ensures KeepsStopped(end, ApplyAck(setup, end, number))
  {
  }

  lemma OtherTakesNothing<M>(setup: Setup<M>, net: Net<M>, action: Action<M>, e: nat)
    requires Supported(setup.configs) && Enabled(setup, net, action) && !action.Deliver?
    requires e < 2 && net[e].connection.errorLevel != NoError
    ensures TookNothing(net, Apply(setup, net, action), e)
  {
    match action
    case Send(i, c, message) => OwnStepTakesNothing(net, i, ApplySend(setup, net[i], c, message), e);
    case Receive(i, c) => OwnStepTakesNothing(net, i, ApplyReceive(setup, net[i], c), e);
    case Generate(i, bytes) =>
      GenerateKeepsStopped(setup, net[i], bytes);
      OwnStepTakesNothing(net, i, ApplyGenerate(setup, net[i], bytes), e);
    case Ack(i, number) =>
      AckKeepsStopped(setup, net[i], number);
      OwnStepTakesNothing(net, i, ApplyAck(setup, net[i], number), e);
    case Drop(i, w) => OwnStepTakesNothing(net, i, ApplyDrop(net[i], w), e);
    case AdvanceTime(i, time) => OwnStepTakesNothing(net, i, ApplyTime(net[i], time), e);
  }

  lemma {:induction false} StoppedStays<M(!new)>(
    setup: Setup<M>, net: Net<M>, actions: seq<Action<M>>, s: seq<seq<P.System<M>>>, e: nat)
    requires SetupValid(setup) && Simulated(setup, net, s) && Legal(setup, net, actions)
    requires e < 2 && net[e].connection.errorLevel != NoError && 0 < |setup.configs|
    ensures TookNothing(net, Run(setup, net, actions), e)
    decreases |actions|
  {
    if actions == [] {
    } else {
      if actions[0].Deliver? {
        FlightIsValid(setup, net, actions[0].end, s, actions[0].packet);
        DeliverTakesNothing(setup, net, actions[0].end, actions[0].packet, e);
      } else {
        OtherTakesNothing(setup, net, actions[0], e);
      }
      var s' := StepSimulated(setup, net, actions[0], s);
      StoppedStays(setup, Apply(setup, net, actions[0]), actions[1..], s', e);
    }
  }

  // ---- A full queue --------------------------------------------------------------------------

  /** A message sent to a full queue is not taken, and the channel is in error. */
  lemma FullQueueRefuses<M>(setup: Setup<M>, net: Net<M>, e: nat, c: nat, message: M)
    requires Supported(setup.configs) && Enabled(setup, net, Send(e, c, message))
    requires !InError(setup, net[e], c) && C.IsFull(setup.configs[c], net[e].connection.channels[c])
    ensures var net' := Apply(setup, net, Send(e, c, message));
            && WellFormedNet(setup, net') && net'[e].connection.channels[c].errorLevel == C.SendQueueFull
            && net'[e].accepted == net[e].accepted && net'[e].received == net[e].received
  {
    SendKeepsWellFormed(setup, net[e], c, message);
    C.SendIsExact(setup.configs[c], setup.Size(), net[e].connection.channels[c], message);
  }

  /** The next time puts the connection in error. */
  lemma TimeStops<M>(setup: Setup<M>, net: Net<M>, e: nat, c: nat, time: real)
    requires Supported(setup.configs) && Enabled(setup, net, AdvanceTime(e, time))
    requires c < |setup.configs| && InError(setup, net[e], c)
    ensures var net' := Apply(setup, net, AdvanceTime(e, time));
            |net'| == 2 && net'[e].connection.errorLevel == ConnectionSpec.ChannelError
  {
    AdvanceTimeIsExact(net[e].connection, time);
  }

  /** From the state `refused`, whatever happens, the user gets nothing more on this channel; and from the next time on
      no packet is taken in at this end, nor marked as processed. */
  lemma ErrorStops<M(!new)>(
    setup: Setup<M>, refused: Net<M>, s: seq<seq<P.System<M>>>, e: nat, c: nat,
    between: seq<Action<M>>, time: real, after: seq<Action<M>>)
    requires SetupValid(setup) && Simulated(setup, refused, s) && AllReachable(setup, s)
    requires e < 2 && c < |setup.configs| && InError(setup, refused[e], c)
    requires Legal(setup, refused, between)
    requires Enabled(setup, Run(setup, refused, between), AdvanceTime(e, time))
    requires Legal(setup, Apply(setup, Run(setup, refused, between), AdvanceTime(e, time)), after)
    ensures var stopped := Apply(setup, Run(setup, refused, between), AdvanceTime(e, time));
            && WellFormedNet(setup, Run(setup, stopped, after)) && Quiet(refused[e], Run(setup, stopped, after)[e], c)
            && TookNothing(stopped, Run(setup, stopped, after), e)
  {
    var late := Run(setup, refused, between);
    ErrorStays(setup, refused, between, s, e, c);
    TimeStops(setup, late, e, c, time);
    var s1 := RunSimulated(setup, refused, between, s);
    var s2 := StepSimulated(setup, late, AdvanceTime(e, time), s1);
    var stopped := Apply(setup, late, AdvanceTime(e, time));
    OnlyCallsShow(setup, late, AdvanceTime(e, time), e, c);
    ErrorStays(setup, stopped, after, s2, e, c);
    StoppedStays(setup, stopped, after, s2, e);
  }

  /** Once a message was sent to a full queue, nothing more is taken from the user or given on that channel; and
      once time has advanced too, every packet that comes is refused, on all channels, and none is acked. */
  lemma FullQueueEndsTheConnection<M(!new)>(
    setup: Setup<M>, net: Net<M>, e: nat, c: nat, message: M,
    between: seq<Action<M>>, time: real, after: seq<Action<M>>)
    requires SetupValid(setup) && Reachable(setup, net) && Enabled(setup, net, Send(e, c, message))
    requires !InError(setup, net[e], c) && C.IsFull(setup.configs[c], net[e].connection.channels[c])
    requires var refused := Apply(setup, net, Send(e, c, message));
             && Legal(setup, refused, between)
             && Enabled(setup, Run(setup, refused, between), AdvanceTime(e, time))
             && Legal(setup, Apply(setup, Run(setup, refused, between), AdvanceTime(e, time)), after)
    ensures var refused := Apply(setup, net, Send(e, c, message));
            var stopped := Apply(setup, Run(setup, refused, between), AdvanceTime(e, time));
            var last := Run(setup, stopped, after);
            && WellFormedNet(setup, last) && TookNothing(stopped, last, e)
            && last[e].accepted[c] == net[e].accepted[c] && last[e].received[c] == net[e].received[c]
            && last[e].connection.channels[c].errorLevel == C.SendQueueFull
  {
    var s := ReachableIsFollowed(setup, net);
    var s' := StepSimulated(setup, net, Send(e, c, message), s);
    AllReachableMove(setup, s, s');
    FullQueueRefuses(setup, net, e, c, message);
    ErrorStops(setup, Apply(setup, net, Send(e, c, message)), s', e, c, between, time, after);
  }

  // ---- Starting again ------------------------------------------------------------------------

  /** An end that was reset and got the time: its connection is as the program leaves it, and its story begins anew. */
  ghost function Restarted<M>(setup: Setup<M>, end: End<M>, time: real): End<M> {
    NewEnd(setup, time).(connection := ConnectionSpec.AdvanceTime(ConnectionSpec.Reset(end.connection), time))
  }

  /** Two connections that are reset at both ends, in whatever state they are, start again as two new ones. */
  lemma ResetStartsAnew<M(!new)>(setup: Setup<M>, net: Net<M>, time: real, time': real)
    requires WellFormedNet(setup, net)
    ensures [Restarted(setup, net[0], time), Restarted(setup, net[1], time')] == Initial(setup, time, time')
  {
    ConnectionSpec.ResetIsNew(setup.configs, setup.Size(), net[0].connection, time);
    ConnectionSpec.ResetIsNew(setup.configs, setup.Size(), net[1].connection, time');
  }
}
