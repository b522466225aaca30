/** Every channel of a connection is a channel on its own: whatever the others send, lose, ack or fail at, a reliable
    channel follows a run of the protocol of one channel, and an unreliable one invents nothing. */
module Isolation {
  import opened Wrap16
  import opened Options
  import opened Configs
  import opened Codec
  import opened ReliableSpec
  import opened ConnectionSpec
  import opened ConnectionProtocol
  import opened Lanes
  import opened PacketBudget
  import C = ChannelSpec
  import P = Protocol
  import U = UnreliableChannel

  // ---- One direction -------------------------------------------------------------------------

  /** What the packets in flight have for channel `c`. */
  ghost function PacketsFor<M>(flight: set<WirePacket<M>>, c: nat): set<P.Packet<M>> {
    set w | w in flight && c < |w.ids| :: P.Packet(w.number, w.ids[c], MessagesFor(w.data, c))
  }

  /** What every packet that was made has for channel `c`. */
  ghost function MadeFor<M>(made: seq<WirePacket<M>>, c: nat): (r: seq<seq<M>>)
    ensures |r| == |made| && forall i :: 0 <= i < |made| ==> r[i] == U.Contents(MessagesFor(made[i].data, c))
  {
    seq(|made|, i requires 0 <= i < |made| => U.Contents(MessagesFor(made[i].data, c)))
  }

  /** Reliable channel `c` from `from` to `to`. */
  ghost function LaneOf<M>(setup: Setup<M>, from: End<M>, to: End<M>, c: nat): Lane<M>
    requires WellFormedEnd(setup, from) && WellFormedEnd(setup, to) && setup.Reliable(c)
  {
    Lane(SenderOf(setup, from, c), ReceiverOf(setup, to, c), from.accepted[c], to.received[c], from.nextPacket,
         PacketsFor(from.flight, c), from.processed, from.acked)
  }

  /** Unreliable channel `c` from `from` to `to`. */
  ghost function LooseOf<M>(setup: Setup<M>, from: End<M>, to: End<M>, c: nat): Loose<M>
    requires WellFormedEnd(setup, from) && WellFormedEnd(setup, to) && c < |setup.configs| && !setup.Reliable(c)
  {
    Loose(from.connection.channels[c].processor.sendQueue, to.connection.channels[c].processor.receiveQueue,
          from.accepted[c], to.received[c], to.labels[c], MadeFor(from.made, c), to.arrivals[c])
  }

  ghost predicate ChannelFollows<M>(setup: Setup<M>, from: End<M>, to: End<M>, c: nat, shadow: P.System<M>)
    requires WellFormedEnd(setup, from) && WellFormedEnd(setup, to) && c < |setup.configs|
  {
    if setup.configs[c].kind.ReliableOrdered? then
      Follows(setup.configs[c], setup.Size(), LaneOf(setup, from, to, c), shadow)
    else Honest(setup.configs[c], LooseOf(setup, from, to, c))
  }

  /** A packet is the bytes of its data, and its data is in order. */
  ghost predicate WireValid<M>(setup: Setup<M>, w: WirePacket<M>) {
    && WritablePacket(setup.configs, w.data) && WellFormed(w.data, |setup.configs|)
    && w.bytes == EncodePacket(setup.configs, setup.codec, w.data)
    && |w.ids| == |w.clocks| == |setup.configs|
  }

  /** Every packet is under its number, and what the network holds was made. */
  ghost predicate MadeValid<M>(setup: Setup<M>, from: End<M>) {
    && |from.made| == from.nextPacket
    && (forall i :: 0 <= i < |from.made| ==> from.made[i].number == i && WireValid(setup, from.made[i]))
    && forall w :: w in from.flight ==> w.number < |from.made| && from.made[w.number] == w
  }

  /** One direction of a connection: every channel follows its own run of the protocol. */
  ghost predicate Direction<M>(setup: Setup<M>, from: End<M>, to: End<M>, shadows: seq<P.System<M>>) {
    && WellFormedEnd(setup, from) && WellFormedEnd(setup, to)
    && |shadows| == |setup.configs|
    && MadeValid(setup, from)
    && forall c: nat :: c < |setup.configs| ==> ChannelFollows(setup, from, to, c, shadows[c])
  }

  /** The first `c` channels follow these runs. */
  ghost predicate FirstFollow<M>(setup: Setup<M>, from: End<M>, to: End<M>, shadows: seq<P.System<M>>, c: nat)
    requires WellFormedEnd(setup, from) && WellFormedEnd(setup, to)
  {
    && |shadows| == c <= |setup.configs|
    && forall i: nat :: i < c ==> ChannelFollows(setup, from, to, i, shadows[i])
  }

  lemma OneMoreFollows<M>(
    setup: Setup<M>, from: End<M>, to: End<M>, shadows: seq<P.System<M>>, c: nat, shadow: P.System<M>)
    requires WellFormedEnd(setup, from) && WellFormedEnd(setup, to)
    requires FirstFollow(setup, from, to, shadows, c) && c < |setup.configs|
    requires ChannelFollows(setup, from, to, c, shadow)
    ensures FirstFollow(setup, from, to, shadows + [shadow], c + 1)
  {
    forall i: nat | i < c
      ensures ChannelFollows(setup, from, to, i, (shadows + [shadow])[i])
    {
      assert ChannelFollows(setup, from, to, i, shadows[i]);
    }
  }

  /** A reliable channel took at most one step of its protocol, and no other run moved. */
  ghost predicate MovesOn<M(!new)>(setup: Setup<M>, c: nat, shadow: P.System<M>, shadow': P.System<M>)
    requires c < |setup.configs|
  {
    if setup.configs[c].kind.ReliableOrdered? then
      setup.configs[c].Valid() && shadow.sender.oldest <= shadow.sender.next
      && AtMostOneStep(setup.configs[c], shadow, shadow')
    else shadow' == shadow
  }

  ghost predicate FirstMoveOn<M(!new)>(
    setup: Setup<M>, shadows: seq<P.System<M>>, shadows': seq<P.System<M>>, n: nat)
  {
    && |shadows| == |setup.configs| && n <= |shadows'| <= |setup.configs|
    && forall c: nat :: c < n ==> MovesOn(setup, c, shadows[c], shadows'[c])
  }

  /** Every channel moved on so. */
  ghost predicate AllMoveOn<M(!new)>(setup: Setup<M>, shadows: seq<P.System<M>>, shadows': seq<P.System<M>>) {
    |shadows'| == |setup.configs| && FirstMoveOn(setup, shadows, shadows', |setup.configs|)
  }

  lemma OneMoreMovesOn<M(!new)>(
    setup: Setup<M>, shadows: seq<P.System<M>>, shadows': seq<P.System<M>>, shadow': P.System<M>)
    requires |shadows'| < |setup.configs| && FirstMoveOn(setup, shadows, shadows', |shadows'|)
    requires MovesOn(setup, |shadows'|, shadows[|shadows'|], shadow')
    ensures FirstMoveOn(setup, shadows, shadows' + [shadow'], |shadows'| + 1)
  {
    forall c: nat | c <= |shadows'|
      ensures MovesOn(setup, c, shadows[c], (shadows' + [shadow'])[c])
    {
      if c < |shadows'| {
        assert MovesOn(setup, c, shadows[c], shadows'[c]);
      }
    }
  }

  /** A run that stays where it is. */
  lemma StaysStill<M(!new)>(setup: Setup<M>, from: End<M>, to: End<M>, c: nat, shadow: P.System<M>)
    requires WellFormedEnd(setup, from) && WellFormedEnd(setup, to) && c < |setup.configs|
    requires ChannelFollows(setup, from, to, c, shadow)
    ensures MovesOn(setup, c, shadow, shadow)
  {
  }

  lemma OnlyOneMoves<M(!new)>(
    setup: Setup<M>, from: End<M>, to: End<M>, shadows: seq<P.System<M>>, i: nat, shadow': P.System<M>)
    requires Direction(setup, from, to, shadows) && i < |setup.configs| && MovesOn(setup, i, shadows[i], shadow')
    ensures AllMoveOn(setup, shadows, shadows[i := shadow'])
  {
    forall c: nat | c < |setup.configs|
      ensures MovesOn(setup, c, shadows[c], shadows[i := shadow'][c])
    {
      assert ChannelFollows(setup, from, to, c, shadows[c]);
      StaysStill(setup, from, to, c, shadows[c]);
    }
  }

  /** A reliable channel that took a step. */
  lemma Steps<M(!new)>(setup: Setup<M>, c: nat, shadow: P.System<M>, action: P.Action<M>)
    requires setup.Reliable(c) && setup.configs[c].Valid() && shadow.sender.oldest <= shadow.sender.next
    requires P.Enabled(setup.configs[c], shadow, action)
    ensures MovesOn(setup, c, shadow, P.Apply(setup.configs[c], shadow, action))
  {
  }

  /** What the direction depends on at the sending end: all but the receiving halves of the channels. */
  ghost predicate SendsTheSame<M>(setup: Setup<M>, a: End<M>, b: End<M>)
    requires WellFormedEnd(setup, a) && WellFormedEnd(setup, b)
  {
    && a.accepted == b.accepted && a.nextPacket == b.nextPacket && a.made == b.made && a.flight == b.flight
    && a.processed == b.processed && a.acked == b.acked
    && forall c: nat :: c < |setup.configs| ==>
         SendingHalf(a.connection.channels[c].processor) == SendingHalf(b.connection.channels[c].processor)
  }

  ghost predicate ReceivesTheSame<M>(setup: Setup<M>, a: End<M>, b: End<M>)
    requires WellFormedEnd(setup, a) && WellFormedEnd(setup, b)
  {
    && a.received == b.received && a.labels == b.labels && a.arrivals == b.arrivals
    && forall c: nat :: c < |setup.configs| ==>
         ReceivingHalf(a.connection.channels[c].processor) == ReceivingHalf(b.connection.channels[c].processor)
  }

  ghost function SendingHalf<M>(p: C.Processor<M>): C.Processor<M> {
    match p
    case ReliableState(sender, _) => C.ReliableState(sender, NewReceiver())
    case UnreliableState(sendQueue, _) => C.UnreliableState(sendQueue, [])
  }

  ghost function ReceivingHalf<M>(p: C.Processor<M>): C.Processor<M> {
    match p
    case ReliableState(_, receiver) => C.ReliableState(NewSender(0.0), receiver)
    case UnreliableState(_, receiveQueue) => C.UnreliableState([], receiveQueue)
  }

  /** The two directions of a connection do not disturb each other. */
  lemma DirectionFrame<M>(
    setup: Setup<M>, from: End<M>, to: End<M>, from': End<M>, to': End<M>, shadows: seq<P.System<M>>)
    requires Direction(setup, from, to, shadows)
    requires WellFormedEnd(setup, from') && WellFormedEnd(setup, to')
    requires SendsTheSame(setup, from, from') && ReceivesTheSame(setup, to, to')
    ensures Direction(setup, from', to', shadows)
  {
    forall c: nat | c < |setup.configs|
      ensures ChannelFollows(setup, from', to', c, shadows[c])
    {
      assert ChannelFollows(setup, from, to, c, shadows[c]);
      ChannelFrame(setup, from, to, from', to', c, shadows[c]);
    }
  }

  /** A channel whose own halves did not change still follows its run. */
  lemma ChannelFrame<M>(
    setup: Setup<M>, from: End<M>, to: End<M>, from': End<M>, to': End<M>, c: nat, shadow: P.System<M>)
    requires WellFormedEnd(setup, from) && WellFormedEnd(setup, to) && c < |setup.configs|
    requires ChannelFollows(setup, from, to, c, shadow)
    requires WellFormedEnd(setup, from') && WellFormedEnd(setup, to')
    requires SendingHalf(from'.connection.channels[c].processor) == SendingHalf(from.connection.channels[c].processor)
    requires ReceivingHalf(to'.connection.channels[c].processor) == ReceivingHalf(to.connection.channels[c].processor)
    requires from'.accepted[c] == from.accepted[c] && to'.received[c] == to.received[c]
    requires to'.labels[c] == to.labels[c] && to'.arrivals[c] == to.arrivals[c]
    requires from'.nextPacket == from.nextPacket && from'.made == from.made && from'.flight == from.flight
    requires from'.processed == from.processed && from'.acked == from.acked
    ensures ChannelFollows(setup, from', to', c, shadow)
  {
    if setup.configs[c].kind.ReliableOrdered? {
      assert LaneOf(setup, from', to', c) == LaneOf(setup, from, to, c);
    } else {
      assert LooseOf(setup, from', to', c) == LooseOf(setup, from, to, c);
    }
  }

  // ---- Sending and receiving -----------------------------------------------------------------

  lemma SendKeepsWellFormed<M>(setup: Setup<M>, end: End<M>, i: nat, message: M)
    requires WellFormedEnd(setup, end) && i < |setup.configs|
    ensures WellFormedEnd(setup, ApplySend(setup, end, i, message))
    ensures ReceivesTheSame(setup, end, ApplySend(setup, end, i, message))
  {
    C.SendKeepsValid(setup.configs[i], setup.Size(), end.connection.channels[i], message);
  }

  lemma SendOnChannel<M(!new)>(setup: Setup<M>, from: End<M>, to: End<M>, i: nat, message: M, shadow: P.System<M>)
    returns (shadow': P.System<M>)
    requires SetupValid(setup) && WellFormedEnd(setup, from) && WellFormedEnd(setup, to) && i < |setup.configs|
    requires ChannelFollows(setup, from, to, i, shadow)
    ensures WellFormedEnd(setup, ApplySend(setup, from, i, message))
    ensures ChannelFollows(setup, ApplySend(setup, from, i, message), to, i, shadow')
    ensures MovesOn(setup, i, shadow, shadow')
  {
    SendKeepsWellFormed(setup, from, i, message);
    var from' := ApplySend(setup, from, i, message);
    var config, c := setup.configs[i], from.connection.channels[i];
    if c.errorLevel != C.NoError || !C.CanSend(config, c) {
      ChannelFrame(setup, from, to, from', to, i, shadow);
      shadow' := shadow;
    } else if setup.Reliable(i) {
      var lane := LaneOf(setup, from, to, i);
      SendFollows(config, setup.Size(), lane, shadow, message);
      shadow' := P.Apply(config, shadow, P.Send(message, 8 * setup.Size()(message)));
      Steps(setup, i, shadow, P.Send(message, 8 * setup.Size()(message)));
      assert LaneOf(setup, from', to, i)
          == lane.(sender := SendMessage(lane.sender, message, 8 * setup.Size()(message)),
                   accepted := lane.accepted + [message]);
    } else {
      var loose := LooseOf(setup, from, to, i);
      SendIsHonest(config, loose, message);
      shadow' := shadow;
      assert LooseOf(setup, from', to, i)
          == loose.(sendQueue := loose.sendQueue + [message], accepted := loose.accepted + [message]);
    }
  }

  lemma SendKeepsDirection<M(!new)>(
    setup: Setup<M>, from: End<M>, to: End<M>, i: nat, message: M, shadows: seq<P.System<M>>)
    returns (shadows': seq<P.System<M>>)
    requires SetupValid(setup) && Direction(setup, from, to, shadows) && i < |setup.configs|
    ensures Direction(setup, ApplySend(setup, from, i, message), to, shadows') && AllMoveOn(setup, shadows, shadows')
  {
    var from' := ApplySend(setup, from, i, message);
    SendKeepsWellFormed(setup, from, i, message);
    assert ChannelFollows(setup, from, to, i, shadows[i]);
    var shadow' := SendOnChannel(setup, from, to, i, message, shadows[i]);
    shadows' := shadows[i := shadow'];
    forall c: nat | c < |setup.configs| && c != i
      ensures ChannelFollows(setup, from', to, c, shadows[c])
    {
      assert ChannelFollows(setup, from, to, c, shadows[c]);
      ChannelFrame(setup, from, to, from', to, c, shadows[c]);
    }
    OnlyOneMoves(setup, from, to, shadows, i, shadow');
  }

  lemma ReceiveKeepsWellFormed<M>(setup: Setup<M>, end: End<M>, i: nat)
    requires WellFormedEnd(setup, end) && i < |setup.configs|
    ensures WellFormedEnd(setup, ApplyReceive(setup, end, i))
    ensures SendsTheSame(setup, end, ApplyReceive(setup, end, i))
  {
    C.ReceiveKeepsValid(setup.configs[i], setup.Size(), end.connection.channels[i]);
  }

  lemma ReceiveOnChannel<M(!new)>(setup: Setup<M>, from: End<M>, to: End<M>, i: nat, shadow: P.System<M>)
    returns (shadow': P.System<M>)
    requires SetupValid(setup) && WellFormedEnd(setup, from) && WellFormedEnd(setup, to) && i < |setup.configs|
    requires ChannelFollows(setup, from, to, i, shadow)
    ensures WellFormedEnd(setup, ApplyReceive(setup, to, i))
    ensures ChannelFollows(setup, from, ApplyReceive(setup, to, i), i, shadow')
    ensures MovesOn(setup, i, shadow, shadow')
  {
    ReceiveKeepsWellFormed(setup, to, i);
    var to' := ApplyReceive(setup, to, i);
    var config, c := setup.configs[i], to.connection.channels[i];
    if C.ReceiveNext(c).None? {
      ChannelFrame(setup, from, to, from, to', i, shadow);
      shadow' := shadow;
    } else if setup.Reliable(i) {
      var lane := LaneOf(setup, from, to, i);
      ReceiveFollows(config, setup.Size(), lane, shadow);
      shadow' := P.Apply(config, shadow, P.Receive);
      Steps(setup, i, shadow, P.Receive);
      assert LaneOf(setup, from, to', i)
          == lane.(receiver := Delivered(lane.receiver),
                   delivered := lane.delivered + [NextMessage(lane.receiver).value]);
    } else {
      var loose := LooseOf(setup, from, to, i);
      ReceiveIsHonest(config, loose);
      shadow' := shadow;
      assert LooseOf(setup, from, to', i)
          == loose.(receiveQueue := loose.receiveQueue[1..], received := loose.received + [loose.receiveQueue[0].1],
                    labels := loose.labels + [loose.receiveQueue[0].0]);
    }
  }

  lemma ReceiveKeepsDirection<M(!new)>(setup: Setup<M>, from: End<M>, to: End<M>, i: nat, shadows: seq<P.System<M>>)
    returns (shadows': seq<P.System<M>>)
    requires SetupValid(setup) && Direction(setup, from, to, shadows) && i < |setup.configs|
    ensures Direction(setup, from, ApplyReceive(setup, to, i), shadows') && AllMoveOn(setup, shadows, shadows')
  {
    var to' := ApplyReceive(setup, to, i);
    ReceiveKeepsWellFormed(setup, to, i);
    assert ChannelFollows(setup, from, to, i, shadows[i]);
    var shadow' := ReceiveOnChannel(setup, from, to, i, shadows[i]);
    shadows' := shadows[i := shadow'];
    forall c: nat | c < |setup.configs| && c != i
      ensures ChannelFollows(setup, from, to', c, shadows[c])
    {
      assert ChannelFollows(setup, from, to, c, shadows[c]);
      ChannelFrame(setup, from, to, from, to', c, shadows[c]);
    }
    OnlyOneMoves(setup, from, to, shadows, i, shadow');
  }

  // ---- Time ----------------------------------------------------------------------------------

  lemma TimeKeepsWellFormed<M>(setup: Setup<M>, end: End<M>, time: real)
    requires WellFormedEnd(setup, end)
    ensures WellFormedEnd(setup, ApplyTime(end, time))
    ensures ReceivesTheSame(setup, end, ApplyTime(end, time))
  {
  }

  lemma TimeOnChannel<M(!new)>(setup: Setup<M>, from: End<M>, to: End<M>, time: real, c: nat, shadow: P.System<M>)
    returns (shadow': P.System<M>)
    requires SetupValid(setup) && WellFormedEnd(setup, from) && WellFormedEnd(setup, to) && c < |setup.configs|
    requires ChannelFollows(setup, from, to, c, shadow)
    ensures WellFormedEnd(setup, ApplyTime(from, time))
    ensures ChannelFollows(setup, ApplyTime(from, time), to, c, shadow')
    ensures MovesOn(setup, c, shadow, shadow')
  {
    TimeKeepsWellFormed(setup, from, time);
    var from' := ApplyTime(from, time);
    if setup.Reliable(c) && c <= FirstInError(from.connection.channels, 0) {
      var lane := LaneOf(setup, from, to, c);
      AdvanceTimeFollows(setup.configs[c], setup.Size(), lane, shadow, time);
      shadow' := P.Apply(setup.configs[c], shadow, P.AdvanceTime(time));
      Steps(setup, c, shadow, P.AdvanceTime(time));
      assert LaneOf(setup, from', to, c) == lane.(sender := lane.sender.(time := time));
    } else {
      ChannelFrame(setup, from, to, from', to, c, shadow);
      shadow' := shadow;
    }
  }

  lemma TimeKeepsDirection<M(!new)>(setup: Setup<M>, from: End<M>, to: End<M>, time: real, shadows: seq<P.System<M>>)
    returns (shadows': seq<P.System<M>>)
    requires SetupValid(setup) && Direction(setup, from, to, shadows)
    ensures Direction(setup, ApplyTime(from, time), to, shadows') && AllMoveOn(setup, shadows, shadows')
  {
    TimeKeepsWellFormed(setup, from, time);
    var from' := ApplyTime(from, time);
    shadows' := [];
    for c := 0 to |setup.configs|
      invariant FirstFollow(setup, from', to, shadows', c) && FirstMoveOn(setup, shadows, shadows', c)
    {
      assert ChannelFollows(setup, from, to, c, shadows[c]);
      var shadow' := TimeOnChannel(setup, from, to, time, c, shadows[c]);
      OneMoreFollows(setup, from', to, shadows', c, shadow');
      OneMoreMovesOn(setup, shadows, shadows', shadow');
      shadows' := shadows' + [shadow'];
    }
  }

  // ---- Acks ----------------------------------------------------------------------------------

  /** The sending end after an ack that no channel panics on. */
  ghost function AckedEnd<M>(setup: Setup<M>, end: End<M>, number: nat): End<M>
    requires WellFormedEnd(setup, end)
  {
    WithChannels(end, AckAll(end.connection.channels, Wrap(number))).(acked := end.acked + {number})
  }

  lemma AckKeepsWellFormed<M>(setup: Setup<M>, end: End<M>, number: nat)
    requires WellFormedEnd(setup, end)
    ensures WellFormedEnd(setup, AckedEnd(setup, end, number))
    ensures ReceivesTheSame(setup, end, AckedEnd(setup, end, number))
  {
    forall c | 0 <= c < |setup.configs|
      ensures C.ProcessorValid(setup.configs[c], setup.Size(),
                               AckAll(end.connection.channels, Wrap(number))[c].processor)
    {
      C.ProcessAckKeepsValid(setup.configs[c], setup.Size(), end.connection.channels[c], Wrap(number));
    }
  }

  lemma AckOnChannel<M(!new)>(setup: Setup<M>, from: End<M>, to: End<M>, number: nat, c: nat, shadow: P.System<M>)
    returns (shadow': P.System<M>)
    requires SetupValid(setup) && WellFormedEnd(setup, from) && WellFormedEnd(setup, to) && c < |setup.configs|
    requires ChannelFollows(setup, from, to, c, shadow) && AckIsDue(setup, from, number)
    ensures WellFormedEnd(setup, AckedEnd(setup, from, number))
    ensures ChannelFollows(setup, AckedEnd(setup, from, number), to, c, shadow')
    ensures MovesOn(setup, c, shadow, shadow')
    ensures setup.Reliable(c) ==> shadow' == P.Apply(setup.configs[c], shadow, P.Ack(number))
  {
    AckKeepsWellFormed(setup, from, number);
    var from' := AckedEnd(setup, from, number);
    if setup.Reliable(c) {
      var lane := LaneOf(setup, from, to, c);
      AckFollows(setup.configs[c], setup.Size(), lane, shadow, number);
      shadow' := P.Apply(setup.configs[c], shadow, P.Ack(number));
      Steps(setup, c, shadow, P.Ack(number));
      assert LaneOf(setup, from', to, c)
          == lane.(sender := ProcessAck(lane.sender, Wrap(number)), acked := lane.acked + {number});
    } else {
      assert LooseOf(setup, from', to, c) == LooseOf(setup, from, to, c);
      shadow' := shadow;
    }
  }

  /** No channel has seen this ack. */
  lemma AckIsFresh<M(!new)>(setup: Setup<M>, from: End<M>, to: End<M>, number: nat, shadows: seq<P.System<M>>)
    requires SetupValid(setup) && Direction(setup, from, to, shadows) && AckIsDue(setup, from, number)
    ensures !AckPanics(from.connection.channels, Wrap(number))
  {
    forall c: nat | c < |setup.configs|
      ensures C.AckResultOf(from.connection.channels[c], Wrap(number)) != AlreadyAcked
    {
      assert ChannelFollows(setup, from, to, c, shadows[c]);
      if setup.Reliable(c) {
        AckFollows(setup.configs[c], setup.Size(), LaneOf(setup, from, to, c), shadows[c], number);
      }
    }
  }

  lemma AckKeepsDirection<M(!new)>(setup: Setup<M>, from: End<M>, to: End<M>, number: nat, shadows: seq<P.System<M>>)
    returns (shadows': seq<P.System<M>>)
    requires SetupValid(setup) && Direction(setup, from, to, shadows) && AckIsDue(setup, from, number)
    ensures Direction(setup, AckedEnd(setup, from, number), to, shadows') && AllMoveOn(setup, shadows, shadows')
  {
    AckKeepsWellFormed(setup, from, number);
    var from' := AckedEnd(setup, from, number);
    shadows' := [];
    for c := 0 to |setup.configs|
      invariant FirstFollow(setup, from', to, shadows', c) && FirstMoveOn(setup, shadows, shadows', c)
    {
      assert ChannelFollows(setup, from, to, c, shadows[c]);
      var shadow' := AckOnChannel(setup, from, to, number, c, shadows[c]);
      OneMoreFollows(setup, from', to, shadows', c, shadow');
      OneMoreMovesOn(setup, shadows, shadows', shadow');
      shadows' := shadows' + [shadow'];
    }
  }

  /** So an ack is what it should be. */
  lemma AckApplies<M>(setup: Setup<M>, end: End<M>, number: nat)
    requires WellFormedEnd(setup, end) && !AckPanics(end.connection.channels, Wrap(number))
    ensures ApplyAck(setup, end, number) == AckedEnd(setup, end, number)
  {
    var acks := [Wrap(number)];
    assert acks[1..] == [];
    assert ProcessAcks(AckAll(end.connection.channels, acks[0]), []) == Some(AckAll(end.connection.channels, acks[0]));
  }

  // ---- Generating ----------------------------------------------------------------------------

  ghost predicate GenerateEnabled<M>(setup: Setup<M>, end: End<M>, bytes: nat)
    requires WellFormedEnd(setup, end)
  {
    GenerateAt(setup, end, bytes).Generated? && NumberIsClear(setup, end, GenerateAt(setup, end, bytes))
  }

  lemma GenerateKeepsWellFormed<M>(setup: Setup<M>, end: End<M>, bytes: nat)
    requires WellFormedEnd(setup, end) && Supported(setup.configs) && GenerateAt(setup, end, bytes).Generated?
    ensures WellFormedEnd(setup, ApplyGenerate(setup, end, bytes))
    ensures ReceivesTheSame(setup, end, ApplyGenerate(setup, end, bytes))
  {
    forall c: nat | c < |setup.configs|
      ensures var p := ApplyGenerate(setup, end, bytes).connection.channels[c].processor;
              && C.ProcessorValid(setup.configs[c], setup.Size(), p)
              && ReceivingHalf(p) == ReceivingHalf(end.connection.channels[c].processor)
    {
      ChannelAfterGenerate(setup, end, bytes, c);
      C.AfterPacketDataKeepsValid(setup.configs[c], setup.Size(), end.connection.channels[c], Wrap(end.nextPacket),
                                  RoomFor(setup, end, bytes, c));
    }
  }

  /** Channel `c` after a packet is generated, and what the packet has for it. */
  lemma ChannelAfterGenerate<M>(setup: Setup<M>, end: End<M>, bytes: nat, c: nat)
    requires WellFormedEnd(setup, end) && Supported(setup.configs) && c < |setup.configs|
    requires GenerateAt(setup, end, bytes).Generated?
    ensures var room, channel, config := RoomFor(setup, end, bytes, c), end.connection.channels[c], setup.configs[c];
            var generated := GenerateAt(setup, end, bytes);
            && C.HasRoom(config, channel, room)
            && |generated.channels| == |setup.configs|
            && generated.channels[c] == C.AfterPacketData(config, setup.Size(), channel, Wrap(end.nextPacket), room)
            && MessagesFor(generated.data, c)
               == C.PacketData(config, setup.Size(), channel, Wrap(end.nextPacket), room).messages
  {
    var channels, number := end.connection.channels, Wrap(end.nextPacket);
    PackedBefore(setup.configs, setup.Size(), channels, number, bytes, |channels|, c);
    PacketHasEveryPart(setup.configs, setup.codec, channels, number, bytes, |channels|, c);
  }

  lemma OneMorePacket<M>(flight: set<WirePacket<M>>, w: WirePacket<M>, c: nat)
    requires c < |w.ids|
    ensures PacketsFor(flight + {w}, c)
         == PacketsFor(flight, c) + {P.Packet(w.number, w.ids[c], MessagesFor(w.data, c))}
  {
  }

  lemma OneMoreMade<M>(made: seq<WirePacket<M>>, w: WirePacket<M>, c: nat)
    ensures MadeFor(made + [w], c) == MadeFor(made, c) + [U.Contents(MessagesFor(w.data, c))]
  {
  }

  /** The part of the packet that is for a reliable channel is what it chose. */
  lemma ReliablePart<M>(setup: Setup<M>, from: End<M>, bytes: nat, c: nat)
    requires WellFormedEnd(setup, from) && Supported(setup.configs) && setup.Reliable(c)
    requires GenerateAt(setup, from, bytes).Generated?
    ensures var config, sender, room := setup.configs[c], SenderOf(setup, from, c), RoomFor(setup, from, bytes, c);
            var ids := ChooseMessages(config, sender, room).ids;
            && (forall k :: k in ids ==> k in sender.queue)
            && ChosenBy(setup, from, bytes, c) == ids
            && MessagesFor(GenerateAt(setup, from, bytes).data, c) == WireMessages(sender, ids)
            && (HasMessagesToSend(sender) ==> config.BitsFor(room) >= MESSAGE_HEADER_BITS)
  {
    ChannelAfterGenerate(setup, from, bytes, c);
    ChooseMessagesIsSound(setup.configs[c], SenderOf(setup, from, c), RoomFor(setup, from, bytes, c));
  }

  /** The packets on the way for channel `c` after a packet is generated. */
  lemma PacketsAfterGenerate<M>(setup: Setup<M>, from: End<M>, bytes: nat, c: nat)
    requires WellFormedEnd(setup, from) && Supported(setup.configs) && setup.Reliable(c)
    requires GenerateAt(setup, from, bytes).Generated? && GenerateAt(setup, from, bytes).data != []
    ensures setup.configs[c].Valid()
    ensures var room := RoomFor(setup, from, bytes, c);
            var ids := ChooseMessages(setup.configs[c], SenderOf(setup, from, c), room).ids;
            && (forall k :: k in ids ==> k in SenderOf(setup, from, c).queue)
            && PacketsFor(ApplyGenerate(setup, from, bytes).flight, c)
               == PacketsFor(from.flight, c)
                  + {P.Packet(from.nextPacket, ids, WireMessages(SenderOf(setup, from, c), ids))}
  {
    ReliablePart(setup, from, bytes, c);
    OneMorePacket(from.flight, PacketOf(setup, from, bytes), c);
  }

  /** The lane of a reliable channel after a packet is sent. */
  lemma LaneAfterPacket<M>(setup: Setup<M>, from: End<M>, to: End<M>, bytes: nat, c: nat)
    requires WellFormedEnd(setup, from) && WellFormedEnd(setup, to) && Supported(setup.configs) && setup.Reliable(c)
    requires GenerateAt(setup, from, bytes).Generated? && GenerateAt(setup, from, bytes).data != []
    ensures WellFormedEnd(setup, ApplyGenerate(setup, from, bytes))
    ensures var lane, config, room := LaneOf(setup, from, to, c), setup.configs[c], RoomFor(setup, from, bytes, c);
            LaneOf(setup, ApplyGenerate(setup, from, bytes), to, c)
            == lane.(sender := GeneratePacket(config, lane.sender, Wrap(lane.nextPacket), room),
                     nextPacket := lane.nextPacket + 1,
                     packets := lane.packets + {Lanes.PartOf(config, lane, room)})
  {
    SenderAfterGenerate(setup, from, bytes, c);
    PacketsAfterGenerate(setup, from, bytes, c);
  }

  /** The lane of a reliable channel when there was nothing to send. */
  lemma LaneAfterNothing<M>(setup: Setup<M>, from: End<M>, to: End<M>, bytes: nat, c: nat)
    requires WellFormedEnd(setup, from) && WellFormedEnd(setup, to) && Supported(setup.configs) && setup.Reliable(c)
    requires GenerateAt(setup, from, bytes).Generated? && GenerateAt(setup, from, bytes).data == []
    ensures WellFormedEnd(setup, ApplyGenerate(setup, from, bytes))
    ensures LaneOf(setup, ApplyGenerate(setup, from, bytes), to, c) == LaneOf(setup, from, to, c)
  {
    SenderAfterGenerate(setup, from, bytes, c);
  }

  lemma SenderAfterGenerate<M>(setup: Setup<M>, from: End<M>, bytes: nat, c: nat)
    requires WellFormedEnd(setup, from) && Supported(setup.configs) && setup.Reliable(c)
    requires GenerateAt(setup, from, bytes).Generated?
    ensures WellFormedEnd(setup, ApplyGenerate(setup, from, bytes))
    ensures var sender, room := SenderOf(setup, from, c), RoomFor(setup, from, bytes, c);
            SenderOf(setup, ApplyGenerate(setup, from, bytes), c)
            == if GenerateAt(setup, from, bytes).data == [] then sender
               else GeneratePacket(setup.configs[c], sender, Wrap(from.nextPacket), room)
  {
    GenerateKeepsWellFormed(setup, from, bytes);
    ChannelAfterGenerate(setup, from, bytes, c);
    ReliablePart(setup, from, bytes, c);
  }

  /** A reliable channel generates a packet of its own with the room that is left to it, if there is a packet. */
  ghost function GeneratedShadow<M>(
    setup: Setup<M>, from: End<M>, bytes: nat, c: nat, shadow: P.System<M>): P.System<M>
    requires WellFormedEnd(setup, from) && setup.Reliable(c) && GenerateAt(setup, from, bytes).Generated?
    requires setup.configs[c].Valid() && shadow.sender.oldest <= shadow.sender.next
  {
    if GenerateAt(setup, from, bytes).data == [] then shadow
    else P.Apply(setup.configs[c], shadow, P.Generate(RoomFor(setup, from, bytes, c)))
  }

  lemma GenerateOnReliable<M(!new)>(
    setup: Setup<M>, from: End<M>, to: End<M>, bytes: nat, c: nat, shadow: P.System<M>)
    returns (shadow': P.System<M>)
    requires SetupValid(setup) && WellFormedEnd(setup, from) && WellFormedEnd(setup, to) && setup.Reliable(c)
    requires ChannelFollows(setup, from, to, c, shadow) && GenerateEnabled(setup, from, bytes)
    ensures WellFormedEnd(setup, ApplyGenerate(setup, from, bytes))
    ensures ChannelFollows(setup, ApplyGenerate(setup, from, bytes), to, c, shadow')
    ensures MovesOn(setup, c, shadow, shadow')
    ensures shadow' == GeneratedShadow(setup, from, bytes, c, shadow)
  {
    ReliablePart(setup, from, bytes, c);
    var lane, room := LaneOf(setup, from, to, c), RoomFor(setup, from, bytes, c);
    if GenerateAt(setup, from, bytes).data == [] {
      LaneAfterNothing(setup, from, to, bytes, c);
      shadow' := shadow;
    } else {
      LaneAfterPacket(setup, from, to, bytes, c);
      GenerateFollows(setup.configs[c], setup.Size(), lane, shadow, room);
      shadow' := P.Apply(setup.configs[c], shadow, P.Generate(room));
      Steps(setup, c, shadow, P.Generate(room));
    }
  }

  /** An unreliable channel after its turn; its messages go out only if there is a packet. */
  lemma LooseAfterGenerate<M>(setup: Setup<M>, from: End<M>, to: End<M>, bytes: nat, c: nat)
    requires WellFormedEnd(setup, from) && WellFormedEnd(setup, to) && Supported(setup.configs)
    requires c < |setup.configs| && !setup.Reliable(c) && GenerateAt(setup, from, bytes).Generated?
    ensures WellFormedEnd(setup, ApplyGenerate(setup, from, bytes))
    ensures var loose, room := LooseOf(setup, from, to, c), RoomFor(setup, from, bytes, c);
            var filling := U.FillPacket(setup.configs[c], setup.Size(), loose.sendQueue, room);
            LooseOf(setup, ApplyGenerate(setup, from, bytes), to, c)
            == loose.(sendQueue := filling.rest,
                      made := if GenerateAt(setup, from, bytes).data == [] then loose.made
                              else loose.made + [filling.sent])
  {
    GenerateKeepsWellFormed(setup, from, bytes);
    ChannelAfterGenerate(setup, from, bytes, c);
    if GenerateAt(setup, from, bytes).data != [] {
      OneMoreMade(from.made, PacketOf(setup, from, bytes), c);
      var filling := U.FillPacket(setup.configs[c], setup.Size(), LooseOf(setup, from, to, c).sendQueue,
                                  RoomFor(setup, from, bytes, c));
      assert U.Contents(U.Numbered(filling.sent, Wrap(from.nextPacket))) == filling.sent;
    }
  }

  lemma GenerateOnUnreliable<M(!new)>(
    setup: Setup<M>, from: End<M>, to: End<M>, bytes: nat, c: nat, shadow: P.System<M>)
    requires SetupValid(setup) && WellFormedEnd(setup, from) && WellFormedEnd(setup, to)
    requires c < |setup.configs| && !setup.Reliable(c)
    requires ChannelFollows(setup, from, to, c, shadow) && GenerateEnabled(setup, from, bytes)
    ensures WellFormedEnd(setup, ApplyGenerate(setup, from, bytes))
    ensures ChannelFollows(setup, ApplyGenerate(setup, from, bytes), to, c, shadow)
  {
    var loose, room := LooseOf(setup, from, to, c), RoomFor(setup, from, bytes, c);
    LooseAfterGenerate(setup, from, to, bytes, c);
    if GenerateAt(setup, from, bytes).data == [] {
      NothingMadeIsHonest(setup.configs[c], setup.Size(), loose, room);
    } else {
      GenerateIsHonest(setup.configs[c], setup.Size(), loose, room);
    }
  }

  lemma GenerateOnChannel<M(!new)>(
    setup: Setup<M>, from: End<M>, to: End<M>, bytes: nat, c: nat, shadow: P.System<M>)
    returns (shadow': P.System<M>)
    requires SetupValid(setup) && WellFormedEnd(setup, from) && WellFormedEnd(setup, to) && c < |setup.configs|
    requires ChannelFollows(setup, from, to, c, shadow) && GenerateEnabled(setup, from, bytes)
    ensures WellFormedEnd(setup, ApplyGenerate(setup, from, bytes))
    ensures ChannelFollows(setup, ApplyGenerate(setup, from, bytes), to, c, shadow')
    ensures MovesOn(setup, c, shadow, shadow')
    ensures setup.Reliable(c) ==> shadow' == GeneratedShadow(setup, from, bytes, c, shadow)
  {
    if setup.Reliable(c) {
      shadow' := GenerateOnReliable(setup, from, to, bytes, c, shadow);
    } else {
      GenerateOnUnreliable(setup, from, to, bytes, c, shadow);
      shadow' := shadow;
    }
  }

  /** The packet that is sent is the bytes of its data. */
  lemma GenerateKeepsMade<M>(setup: Setup<M>, from: End<M>, bytes: nat)
    requires WellFormedEnd(setup, from) && Supported(setup.configs) && GenerateAt(setup, from, bytes).Generated?
    requires MadeValid(setup, from)
    ensures MadeValid(setup, ApplyGenerate(setup, from, bytes))
  {
    PacketFits(setup.configs, setup.codec, from.connection.channels, Wrap(from.nextPacket), bytes);
    if GenerateAt(setup, from, bytes).data != [] {
      assert WireValid(setup, PacketOf(setup, from, bytes));
    }
  }

  lemma GenerateKeepsDirection<M(!new)>(
    setup: Setup<M>, from: End<M>, to: End<M>, bytes: nat, shadows: seq<P.System<M>>)
    returns (shadows': seq<P.System<M>>)
    requires SetupValid(setup) && Direction(setup, from, to, shadows) && GenerateEnabled(setup, from, bytes)
    ensures Direction(setup, ApplyGenerate(setup, from, bytes), to, shadows') && AllMoveOn(setup, shadows, shadows')
  {
    GenerateKeepsWellFormed(setup, from, bytes);
    GenerateKeepsMade(setup, from, bytes);
    var from' := ApplyGenerate(setup, from, bytes);
    shadows' := [];
    for c := 0 to |setup.configs|
      invariant FirstFollow(setup, from', to, shadows', c) && FirstMoveOn(setup, shadows, shadows', c)
    {
      assert ChannelFollows(setup, from, to, c, shadows[c]);
      var shadow' := GenerateOnChannel(setup, from, to, bytes, c, shadows[c]);
      OneMoreFollows(setup, from', to, shadows', c, shadow');
      OneMoreMovesOn(setup, shadows, shadows', shadow');
      shadows' := shadows' + [shadow'];
    }
  }

  // ---- Delivery ------------------------------------------------------------------------------

  /** Channel `c` took in these messages and became `c'`. */
  ghost predicate Took<M>(
    config: Config, c: C.ChannelState<M>, c': C.ChannelState<M>, messages: seq<(u16, M)>, number: u16)
  {
    C.ProcessPacketData(config, c, messages, number) == C.Processed(c', true)
  }

  /** The channels that were handed their messages took them in; the others are as they were. */
  ghost predicate HandedOut<M>(
    configs: seq<Config>, channels: seq<C.ChannelState<M>>, channels': seq<C.ChannelState<M>>,
    data: seq<ChannelData<M>>, handed: set<nat>, number: u16)
    requires |configs| == |channels|
  {
    && |channels'| == |channels|
    && forall c: nat :: c < |channels| ==>
         if c in handed then
           && channels[c].errorLevel == C.NoError
           && Took(configs[c], channels[c], channels'[c], MessagesFor(data, c), number)
         else channels'[c] == channels[c]
  }

  /** Every channel that the packet has messages for was handed them. */
  ghost predicate AllHanded<M>(data: seq<ChannelData<M>>, handed: set<nat>) {
    forall c: nat :: MessagesFor(data, c) != [] ==> c in handed
  }

  /** Taking in a packet is, for each channel, taking in its part: for all of them, or only for some if the packet is
      refused. */
  lemma {:induction false} ReadEntriesByChannel<M>(
    configs: seq<Config>, channels: seq<C.ChannelState<M>>, data: seq<ChannelData<M>>, number: u16)
    requires |configs| == |channels| && PacketBudget.WellFormed(data, |channels|)
    ensures match ReadEntries(configs, channels, data, number)
            case Panicked => true
            case Accepted(channels') =>
              HandedOut(configs, channels, channels', data, HandedTo(channels, data), number)
              && AllHanded(data, HandedTo(channels, data))
            case Refused(channels') =>
              HandedOut(configs, channels, channels', data, HandedTo(channels, data), number)
    decreases |data|
  {
    if data == [] {
    } else {
      var i := data[0].channelIndex;
      var result := C.ProcessPacketData(configs[i], channels[i], data[0].messages, number);
      if result.ok && result.channel.errorLevel == C.NoError {
        var next := channels[i := result.channel];
        ReadEntriesByChannel(configs, next, data[1..], number);
        NothingAfter(data);
        HandedByErrors(channels, next, data[1..]);
        HandedHaveEntries(channels, data[1..], i);
      }
    }
  }

  /** Only the error levels decide who is handed something. */
  lemma {:induction false} HandedByErrors<M>(
    channels: seq<C.ChannelState<M>>, channels': seq<C.ChannelState<M>>, data: seq<ChannelData<M>>)
    requires |channels'| == |channels|
    requires forall c :: 0 <= c < |channels| ==> channels'[c].errorLevel == channels[c].errorLevel
    ensures HandedTo(channels', data) == HandedTo(channels, data)
    decreases |data|
  {
    if data == [] {
    } else {
      HandedByErrors(channels, channels', data[1..]);
    }
  }

  lemma {:induction false} HandedHaveEntries<M>(channels: seq<C.ChannelState<M>>, data: seq<ChannelData<M>>, i: nat)
    requires forall k :: 0 <= k < |data| ==> i < data[k].channelIndex
    ensures i !in HandedTo(channels, data)
    decreases |data|
  {
    if data == [] {
    } else {
      HandedHaveEntries(channels, data[1..], i);
    }
  }

  /** What happens to the entries on the way does not change who is handed something. */
  lemma {:induction false} HandedOnArrival<M>(
    configs: seq<Config>, channels: seq<C.ChannelState<M>>, data: seq<ChannelData<M>>)
    requires AllWritable(configs, data) && forall k :: 0 <= k < |data| ==> data[k].messages != []
    ensures HandedTo(channels, AllOnArrival(configs, data)) == HandedTo(channels, data)
    decreases |data|
  {
    if data == [] {
    } else {
      var arrived := AllOnArrival(configs, data);
      assert arrived[0] == OnArrival(configs, data[0]) && arrived[1..] == AllOnArrival(configs, data[1..]);
      HandedOnArrival(configs, channels, data[1..]);
    }
  }

  /** The entries after the first are for other channels. */
  lemma NothingAfter<M>(data: seq<ChannelData<M>>)
    requires data != [] && forall j, k :: 0 <= j < k < |data| ==> data[j].channelIndex < data[k].channelIndex
    ensures MessagesFor(data[1..], data[0].channelIndex) == []
  {
    NothingBelow(data[1..], data[0].channelIndex);
  }

  lemma {:induction false} NothingBelow<M>(data: seq<ChannelData<M>>, i: nat)
    requires forall k :: 0 <= k < |data| ==> i < data[k].channelIndex
    ensures MessagesFor(data, i) == []
    decreases |data|
  {
    if data == [] {
    } else {
      NothingBelow(data[1..], i);
    }
  }

  /** What arrives for a channel is what was sent for it, but for the ids of unreliable messages. */
  lemma {:induction false} ArrivalByChannel<M>(configs: seq<Config>, data: seq<ChannelData<M>>, c: nat)
    requires AllWritable(configs, data) && c < |configs|
    requires forall k :: 0 <= k < |data| ==> data[k].messages != []
    ensures configs[c].kind.ReliableOrdered? ==> MessagesFor(AllOnArrival(configs, data), c) == MessagesFor(data, c)
    ensures U.Contents(MessagesFor(AllOnArrival(configs, data), c)) == U.Contents(MessagesFor(data, c))
    decreases |data|
  {
    if data == [] {
    } else {
      var arrived := AllOnArrival(configs, data);
      assert arrived[0] == OnArrival(configs, data[0]);
      assert arrived[1..] == AllOnArrival(configs, data[1..]);
      ArrivalByChannel(configs, data[1..], c);
    }
  }

  lemma ArrivalIsWellFormed<M>(configs: seq<Config>, data: seq<ChannelData<M>>, n: nat)
    requires AllWritable(configs, data) && PacketBudget.WellFormed(data, n)
    ensures PacketBudget.WellFormed(AllOnArrival(configs, data), n)
  {
    forall k | 0 <= k < |data|
      ensures var entry := AllOnArrival(configs, data)[k];
              entry.channelIndex == data[k].channelIndex && entry.messages != []
    {
      assert Writable(configs, data[k]) && data[k].messages != [];
    }
  }

  /** What the program may do with the parts of a packet that got this far. */
  ghost predicate Outcome<M>(
    setup: Setup<M>, to: End<M>, w: WirePacket<M>, accepted: bool, channels': seq<C.ChannelState<M>>)
    requires WellFormedEnd(setup, to) && WireValid(setup, w)
  {
    var arrived := AllOnArrival(setup.configs, w.data);
    && HandedOut(setup.configs, to.connection.channels, channels', arrived, Handed(to, w), Wrap(w.number))
    && (accepted ==> AllHanded(arrived, Handed(to, w)))
  }

  /** A packet that arrives is decoded to what was sent, and handed to its channels. */
  lemma DeliveryOutcome<M(!new)>(setup: Setup<M>, to: End<M>, w: WirePacket<M>)
    requires SetupUsable(setup) && WellFormedEnd(setup, to) && WireValid(setup, w)
    ensures match ProcessPacket(setup.configs, setup.codec, to.connection, Wrap(w.number), w.bytes)
            case Panicked => true
            case Accepted(channels') => Outcome(setup, to, w, true, channels')
            case Refused(channels') => Outcome(setup, to, w, false, channels')
  {
    var configs := setup.configs;
    PacketRoundTrip(configs, setup.codec, w.data, []);
    assert w.bytes + [] == w.bytes;
    ArrivalIsWellFormed(configs, w.data, |configs|);
    HandedOnArrival(configs, to.connection.channels, w.data);
    ReadEntriesByChannel(configs, to.connection.channels, AllOnArrival(configs, w.data), Wrap(w.number));
  }

  lemma DeliverKeepsWellFormed<M>(
    setup: Setup<M>, to: End<M>, w: WirePacket<M>, accepted: bool, channels': seq<C.ChannelState<M>>)
    requires WellFormedEnd(setup, to) && WireValid(setup, w) && Outcome(setup, to, w, accepted, channels')
    ensures WellFormedEnd(setup, TookIn(to, w, channels'))
    ensures SendsTheSame(setup, to, TookIn(to, w, channels'))
  {
    var arrived := AllOnArrival(setup.configs, w.data);
    forall c: nat | c < |setup.configs|
      ensures C.ProcessorValid(setup.configs[c], setup.Size(), channels'[c].processor)
      ensures SendingHalf(channels'[c].processor) == SendingHalf(to.connection.channels[c].processor)
    {
      C.ProcessPacketDataKeepsValid(setup.configs[c], setup.Size(), to.connection.channels[c],
                                    MessagesFor(arrived, c), Wrap(w.number));
    }
  }

  ghost function MarkProcessed<M>(from: End<M>, number: nat, accepted: bool): End<M> {
    if accepted then from.(processed := from.processed + {number}) else from
  }

  /** A reliable channel took in what was sent to it, or the packet was refused before or at its turn. */
  lemma ReceiverAfterDelivery<M>(
    setup: Setup<M>, to: End<M>, w: WirePacket<M>, accepted: bool, channels': seq<C.ChannelState<M>>, c: nat)
    requires WellFormedEnd(setup, to) && WireValid(setup, w) && Outcome(setup, to, w, accepted, channels')
    requires setup.Reliable(c)
    ensures channels'[c].processor.ReliableState?
    ensures var before, now := ReceiverOf(setup, to, c), channels'[c].processor.receiver;
            || (!accepted && now == before)
            || ReceivePacket(setup.configs[c], before, MessagesFor(w.data, c)) == ReceiveResult(now, true)
  {
    ArrivalByChannel(setup.configs, w.data, c);
    if c in Handed(to, w) {
      assert Took(setup.configs[c], to.connection.channels[c], channels'[c],
                  MessagesFor(AllOnArrival(setup.configs, w.data), c), Wrap(w.number));
    } else {
      assert channels'[c] == to.connection.channels[c];
    }
  }

  lemma DeliverOnReliable<M(!new)>(
    setup: Setup<M>, from: End<M>, to: End<M>, w: WirePacket<M>, accepted: bool, channels': seq<C.ChannelState<M>>,
    c: nat, shadow: P.System<M>)
    returns (shadow': P.System<M>)
    requires SetupValid(setup) && WellFormedEnd(setup, from) && WellFormedEnd(setup, to) && setup.Reliable(c)
    requires WireValid(setup, w) && w in from.flight && Outcome(setup, to, w, accepted, channels')
    requires NotTooLate(setup, to, w)
    requires ChannelFollows(setup, from, to, c, shadow)
    ensures WellFormedEnd(setup, TookIn(to, w, channels'))
    ensures ChannelFollows(setup, MarkProcessed(from, w.number, accepted), TookIn(to, w, channels'), c, shadow')
    ensures MovesOn(setup, c, shadow, shadow')
  {
    DeliverKeepsWellFormed(setup, to, w, accepted, channels');
    ReceiverAfterDelivery(setup, to, w, accepted, channels', c);
    var config, lane := setup.configs[c], LaneOf(setup, from, to, c);
    var lane' := LaneOf(setup, MarkProcessed(from, w.number, accepted), TookIn(to, w, channels'), c);
    if !accepted && lane'.receiver == lane.receiver {
      assert lane' == lane;
      shadow' := shadow;
    } else {
      var packet := P.Packet(w.number, w.ids[c], MessagesFor(w.data, c));
      DeliverFollows(config, setup.Size(), lane, shadow, packet);
      shadow' := P.Apply(config, shadow, P.Deliver(packet));
      Steps(setup, c, shadow, P.Deliver(packet));
      var all := lane.(receiver := lane'.receiver, processed := lane.processed + {packet.number});
      FewerProcessedFollows(config, setup.Size(), all, shadow', lane.packets, lane'.processed);
      assert lane' == all.(packets := lane.packets, processed := lane'.processed);
    }
  }

  lemma DeliverOnUnreliable<M(!new)>(
    setup: Setup<M>, from: End<M>, to: End<M>, w: WirePacket<M>, accepted: bool, channels': seq<C.ChannelState<M>>,
    c: nat, shadow: P.System<M>)
    requires SetupValid(setup) && WellFormedEnd(setup, from) && WellFormedEnd(setup, to)
    requires c < |setup.configs| && !setup.Reliable(c)
    requires WireValid(setup, w) && MadeValid(setup, from) && w in from.flight
    requires Outcome(setup, to, w, accepted, channels') && ChannelFollows(setup, from, to, c, shadow)
    ensures WellFormedEnd(setup, TookIn(to, w, channels'))
    ensures ChannelFollows(setup, MarkProcessed(from, w.number, accepted), TookIn(to, w, channels'), c, shadow)
  {
    DeliverKeepsWellFormed(setup, to, w, accepted, channels');
    ArrivalByChannel(setup.configs, w.data, c);
    var loose, channel := LooseOf(setup, from, to, c), to.connection.channels[c];
    var loose' := LooseOf(setup, MarkProcessed(from, w.number, accepted), TookIn(to, w, channels'), c);
    if c in Handed(to, w) {
      assert Took(setup.configs[c], channel, channels'[c], MessagesFor(AllOnArrival(setup.configs, w.data), c),
                  Wrap(w.number));
      DeliverIsHonest(setup.configs[c], loose, w.number);
      assert loose'
          == loose.(receiveQueue := U.Received(setup.configs[c], loose.receiveQueue, loose.made[w.number],
                                               Wrap(w.number)),
                    arrivals := loose.arrivals + [w.number]);
    } else {
      assert loose' == loose;
    }
  }

  lemma DeliverKeepsDirection<M(!new)>(
    setup: Setup<M>, from: End<M>, to: End<M>, w: WirePacket<M>, accepted: bool, channels': seq<C.ChannelState<M>>,
    shadows: seq<P.System<M>>)
    returns (shadows': seq<P.System<M>>)
    requires SetupValid(setup) && Direction(setup, from, to, shadows)
    requires WireValid(setup, w) && w in from.flight && Outcome(setup, to, w, accepted, channels')
    requires NotTooLate(setup, to, w)
    ensures Direction(setup, MarkProcessed(from, w.number, accepted), TookIn(to, w, channels'), shadows')
    ensures AllMoveOn(setup, shadows, shadows')
  {
    DeliverKeepsWellFormed(setup, to, w, accepted, channels');
    var from', to' := MarkProcessed(from, w.number, accepted), TookIn(to, w, channels');
    shadows' := [];
    for c := 0 to |setup.configs|
      invariant FirstFollow(setup, from', to', shadows', c) && FirstMoveOn(setup, shadows, shadows', c)
    {
      assert ChannelFollows(setup, from, to, c, shadows[c]);
      var shadow' := shadows[c];
      if setup.Reliable(c) {
        shadow' := DeliverOnReliable(setup, from, to, w, accepted, channels', c, shadows[c]);
      } else {
        DeliverOnUnreliable(setup, from, to, w, accepted, channels', c, shadows[c]);
      }
      OneMoreFollows(setup, from', to', shadows', c, shadow');
      OneMoreMovesOn(setup, shadows, shadows', shadow');
      shadows' := shadows' + [shadow'];
    }
  }
}
