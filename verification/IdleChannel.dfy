/** A channel that has been idle for long, while another channel of the connection sends.

    After 65536 packets it takes the ack of a packet it had no part in for one of its own. After 32768 packets its ring
    takes the numbers of its packets to be old, does not record them, and their acks change nothing. */
module IdleChannel {
  import opened Wrap16
  import opened Options
  import opened Configs
  import opened Codec
  import opened ReliableSpec
  import opened ConnectionSpec
  import opened ConnectionProtocol
  import opened PacketBudget
  import opened Isolation
  import opened Mirror
  import opened Batches
  import opened Recycling
  import C = ChannelSpec
  import ConnectionProgress
  import G = Guarantees
  import P = Protocol
  import U = UnreliableChannel

  /** Reliable channel `c` is idle, and sends `message` before or after. Meanwhile channel `d` sends copies of
      `filler`. */
  datatype Pair<!M(==)> = Pair(setup: Setup<M>, c: nat, d: nat, bytes: nat, message: M, filler: M) {
    ghost predicate Valid() {
      && setup.Reliable(c) && setup.configs[c].Valid() && d < |setup.configs| && d != c
      && BatchFits(setup.configs[c], CostOf(message), bytes, 1)
      && (if setup.configs[d].kind.ReliableOrdered? then
            setup.configs[d].Valid() && BatchFits(setup.configs[d], CostOf(filler), bytes, 1)
          else FillerFits())
      && setup.configs[c].BitsFor(RoomLeft()) >= MESSAGE_HEADER_BITS
    }

    ghost function CostOf(m: M): nat {
      8 * setup.Size()(m) + MESSAGE_ID_BITS
    }

    /** What a filler takes in a packet. */
    ghost function FillerBits(): nat
      requires d < |setup.configs|
    {
      MESSAGE_HEADER_BITS + if setup.configs[d].kind.ReliableOrdered? then CostOf(filler) else 8 * setup.Size()(filler)
    }

    /** What is left in the packet after it. */
    ghost function RoomLeft(): nat
      requires d < |setup.configs|
    {
      var taken := FillerBits() + CHANNEL_HEADER_BITS;
      if taken <= BufferRoom(bytes) then BufferRoom(bytes) - taken else 0
    }

    /** An unreliable channel can send a packet with a filler alone. */
    ghost predicate FillerFits()
      requires d < |setup.configs|
    {
      && setup.configs[d].messageSendQueueSize > 0 && 8 * bytes >= PACKET_HEADER_BITS
      && setup.configs[d].BitsFor(BufferRoom(bytes)) >= MESSAGE_HEADER_BITS + GIVE_UP_BITS
      && setup.configs[d].BitsFor(BufferRoom(bytes)) >= FillerBits()
      && FillerBits() + CHANNEL_HEADER_BITS <= BufferRoom(bytes)
    }

    /** The clocks start here, so that new messages of both channels are due, even with the clock set back. */
    ghost function Start(): real
      requires c < |setup.configs| && d < |setup.configs|
    {
      Size(setup.configs[c].messageResendTime) + Size(setup.configs[d].messageResendTime)
    }

    ghost function Initial(): Net<M>
      requires c < |setup.configs| && d < |setup.configs|
    {
      ConnectionProtocol.Initial(setup, Start(), Start())
    }
  }

  function Size(x: real): real {
    if x < 0.0 then -x else x
  }

  /** Channel `c` of new connections. */
  ghost function Idler<M>(p: Pair<M>): Traffic<M>
    requires p.Valid() && WellFormedNet(p.setup, p.Initial())
  {
    NewTraffic(p.setup, p.c, p.bytes, p.message, 1, p.Start())
  }

  /** Channel `d`, a reliable one, of the connections as they are. */
  ghost function Busy<M>(p: Pair<M>, net: Net<M>): Traffic<M>
    requires p.Valid() && WellFormedNet(p.setup, net)
  {
    Traffic(View(p.setup, p.d, p.bytes, FrameOf(p.setup, net)), p.filler, 1, StartOf(p.setup.configs[p.d]))
  }

  lemma NewConnections<M(!new)>(p: Pair<M>)
    requires SetupUsable(p.setup) && p.Valid()
    ensures ReachableWith(p.setup, p.bytes, p.Initial()) && WellFormedNet(p.setup, p.Initial())
    ensures Idler(p).Valid() && Idler(p).Alone()
    ensures Mirrors(Idler(p).view, p.Initial(), P.Initial<M>(p.Start()))
  {
    StartIsLate(p);
    NewIsReady(p.setup, p.c, p.bytes, p.message, 1, p.Start());
  }

  lemma StartIsLate<M>(p: Pair<M>)
    requires p.Valid()
    ensures 0.0 <= p.Start() && p.setup.configs[p.c].messageResendTime - 1.0 <= p.Start()
    ensures p.setup.configs[p.d].messageResendTime - 1.0 <= BeforeDue(p.setup.configs[p.c], p.Start())
  {
  }

  // ---- What idling keeps ---------------------------------------------------------------------

  /** The channels other than `c` are new, but for the clock. */
  ghost predicate OthersNew<M>(setup: Setup<M>, net: Net<M>, c: nat, time: real)
    requires WellFormedNet(setup, net)
  {
    forall i: nat :: i < |setup.configs| && i != c ==>
      && net[0].connection.channels[i].processor == C.NewProcessor(setup.configs[i], time)
      && (setup.Reliable(i) ==>
            ReceiverOf(setup, net[1], i) == NewReceiver() && net[0].accepted[i] == [] == net[1].received[i])
  }

  /** Nothing is wrong, only channel `c` has sent anything, at most in packet 0, and it has nothing to send now. */
  ghost predicate MayIdle<M>(p: Pair<M>, net: Net<M>, time: real) {
    && p.Valid() && WellFormedNet(p.setup, net) && NoErrors(net[0]) && NoErrors(net[1])
    && OneClock(p.setup, net[0], time) && OthersNew(p.setup, net, p.c, time)
    && (forall q :: q in SenderOf(p.setup, net[0], p.c).ledger ==> q == 0)
    && (forall k :: k in SenderOf(p.setup, net[0], p.c).queue ==>
          !Due(p.setup.configs[p.c], SenderOf(p.setup, net[0], p.c), k))
    && net[0].nextPacket <= 1 && (forall n :: n in net[0].processed ==> n < net[0].nextPacket)
    && net[0].acked <= net[0].processed
    && (p.setup.Reliable(p.d) ==> p.setup.configs[p.d].messageResendTime - 1.0 <= time)
  }

  /** Channel `c` is as it was, at both ends. */
  ghost predicate StayedIdle<M>(p: Pair<M>, net: Net<M>, r: Net<M>) {
    && p.setup.Reliable(p.c) && WellFormedNet(p.setup, net) && WellFormedNet(p.setup, r)
    && NoErrors(r[0]) && NoErrors(r[1])
    && SenderOf(p.setup, r[0], p.c) == SenderOf(p.setup, net[0], p.c)
    && ReceiverOf(p.setup, r[1], p.c) == ReceiverOf(p.setup, net[1], p.c)
    && r[0].accepted[p.c] == net[0].accepted[p.c] && r[1].received[p.c] == net[1].received[p.c]
  }

  /** The last packet has arrived and is not acked yet, and no other channel panics on its ack. */
  ghost predicate LastIsDue<M>(p: Pair<M>, r: Net<M>, number: nat)
    requires WellFormedNet(p.setup, r)
  {
    && r[0].nextPacket == number + 1 && number in r[0].processed && number !in r[0].acked
    && forall i: nat :: i < |p.setup.configs| && i != p.c ==>
         C.AckResultOf(r[0].connection.channels[i], Wrap(number)) != AlreadyAcked
  }

  /** The other channels have nothing queued, and no packet recorded that the ack of the next one could be taken for. */
  ghost predicate OthersRest<M>(p: Pair<M>, r: Net<M>, time: real)
    requires WellFormedNet(p.setup, r)
  {
    && OneClock(p.setup, r[0], time) && r[0].nextPacket !in r[0].acked
    && forall i: nat :: i < |p.setup.configs| && i != p.c ==>
         && Silent(r[0].connection.channels[i])
         && (p.setup.Reliable(i) ==>
               && NextMessage(ReceiverOf(p.setup, r[1], i)) == None
               && forall q :: q in SenderOf(p.setup, r[0], i).ledger ==> 0 <= q < r[0].nextPacket)
  }

  // ---- A reliable channel that sends meanwhile -----------------------------------------------

  /** Channel `d` has sent everything, and everything arrived, was taken and acked. */
  ghost predicate Finished<M>(t: Traffic<M>, sys: P.System<M>) {
    Tidy(t, sys) && CaughtUp(sys) && sys.sender.queue == map[] && sys.sender.oldest == sys.sender.next
  }

  /** From packet `low` to packet `high`, no number is taken for one that another channel recorded. */
  ghost predicate NumbersClear<M>(t: Traffic<M>, low: nat, high: nat)
    requires t.view.Valid()
  {
    forall n: nat :: low <= n < high ==> OthersClear(t.view, n)
  }

  lemma CycleOnce<M(!new)>(t: Traffic<M>, sys: P.System<M>) returns (r: P.System<M>, run: seq<P.Action<M>>)
    requires Finished(t, sys) && OthersClear(t.view, sys.nextPacket)
    ensures Finished(t, r) && Reaches(t, sys, run, r)
    ensures r.nextPacket == sys.nextPacket + 1 && r.sender.time == sys.sender.time
  {
    r, run := Cycle(t, sys, 1);
    assert r.sender.oldest !in r.sender.queue;
  }

  lemma {:induction false} CycleMany<M(!new)>(t: Traffic<M>, sys: P.System<M>, n: nat)
    returns (r: P.System<M>, run: seq<P.Action<M>>)
    requires Finished(t, sys) && NumbersClear(t, sys.nextPacket, sys.nextPacket + n)
    ensures Finished(t, r) && Reaches(t, sys, run, r)
    ensures r.nextPacket == sys.nextPacket + n && r.sender.time == sys.sender.time
    decreases n
  {
    if n == 0 {
      r, run := sys, [];
    } else {
      var one, first := CycleOnce(t, sys);
      var second;
      r, second := CycleMany(t, one, n - 1);
      run := first + second;
      ReachesFurther(t, sys, first, one, second, r);
    }
  }

  /** One more packet of channel `d` arrives, and is not acked. */
  lemma SendLastOne<M(!new)>(t: Traffic<M>, sys: P.System<M>) returns (r: P.System<M>, run: seq<P.Action<M>>)
    requires Finished(t, sys)
    ensures Reaches(t, sys, run, r) && r.nextPacket == sys.nextPacket + 1
    ensures sys.nextPacket in r.processed && sys.nextPacket !in r.acked && r.sender.time == sys.sender.time
    ensures AckOutcome(r.sender, Wrap(sys.nextPacket)) == Acked
  {
    r, run := GetThrough(t, sys, 1);
    P.InWindowIsClear(t.Config(), r.sender, sys.nextPacket);
    P.AckFindsItsPacket(t.Config(), r.sender, sys.nextPacket);
  }

  /** Channel `d` is ready to send, seen on its own. */
  lemma BusyIsReady<M(!new)>(p: Pair<M>, net: Net<M>, time: real)
    requires SetupUsable(p.setup) && MayIdle(p, net, time) && p.setup.Reliable(p.d)
    ensures Busy(p, net).Valid() && Finished(Busy(p, net), SystemOf(p.setup, p.d, net))
    ensures Mirrors(Busy(p, net).view, net, SystemOf(p.setup, p.d, net))
  {
    TakeIntoView(p.setup, p.d, p.bytes, net, time);
    BusyIsQuiet(p, net, time);
    NewIsValid(Busy(p, net), p.setup.configs[p.d], p.CostOf(p.filler));
    BusyIsNew(p, net, time);
    NewIsFinished(Busy(p, net), SystemOf(p.setup, p.d, net));
  }

  lemma BusyIsNew<M>(p: Pair<M>, net: Net<M>, time: real)
    requires MayIdle(p, net, time) && p.setup.Reliable(p.d)
    ensures var sys := SystemOf(p.setup, p.d, net);
            && sys.sender == NewSender(time) && sys.receiver == NewReceiver()
            && sys.accepted == [] == sys.delivered && sys.nextPacket <= 1
            && (forall n :: n in sys.processed ==> n < sys.nextPacket) && sys.acked <= sys.processed
  {
    assert net[0].connection.channels[p.d].processor == C.NewProcessor(p.setup.configs[p.d], time);
    assert ReceiverOf(p.setup, net[1], p.d) == NewReceiver();
  }

  lemma NewIsFinished<M>(t: Traffic<M>, sys: P.System<M>)
    requires t.Valid() && t.Quiet(sys.sender.time) && t.Config().messageResendTime - 1.0 <= sys.sender.time
    requires sys.sender == NewSender(sys.sender.time) && sys.receiver == NewReceiver()
    requires sys.accepted == [] == sys.delivered && sys.nextPacket <= 1
    requires (forall n :: n in sys.processed ==> n < sys.nextPacket) && sys.acked <= sys.processed
    ensures Finished(t, sys)
  {
  }

  lemma BusyIsQuiet<M(!new)>(p: Pair<M>, net: Net<M>, time: real)
    requires MayIdle(p, net, time) && p.setup.Reliable(p.d)
    ensures Busy(p, net).view.Valid() && Busy(p, net).Quiet(time)
  {
    var t := Busy(p, net);
    forall i: nat | i < |p.setup.configs| && i != p.d
      ensures Passive(p.setup.configs[i], Framed(t.view, i, time), t.Left())
    {
      assert t.view.frame[i] == RestOf(p.setup, net, i);
      if i != p.c {
        assert net[0].connection.channels[i].processor == C.NewProcessor(p.setup.configs[i], time);
      } else {
        assert SenderOf(p.setup, net[0], p.c).time == time;
        assert t.Left() == p.RoomLeft();
      }
    }
  }

  /** Up to packet 65536, no ack of channel `d` is taken for that of packet 0. */
  lemma BusyIsClear<M(!new)>(p: Pair<M>, net: Net<M>, time: real)
    requires MayIdle(p, net, time) && p.setup.Reliable(p.d)
    requires net[0].nextPacket == 0 ==> SenderOf(p.setup, net[0], p.c).ledger == map[]
    ensures Busy(p, net).view.Valid() && NumbersClear(Busy(p, net), net[0].nextPacket, MODULUS)
  {
    var v := Busy(p, net).view;
    forall i: nat | p.setup.Reliable(i) && i != p.d
      ensures v.frame[i].processor.sender.ledger
           == if i == p.c then SenderOf(p.setup, net[0], p.c).ledger else map[]
    {
      assert v.frame[i] == RestOf(p.setup, net, i);
      assert i != p.c ==> net[0].connection.channels[i].processor == C.NewProcessor(p.setup.configs[i], time);
    }
    forall n: nat | net[0].nextPacket <= n < MODULUS
      ensures OthersClear(v, n)
    {
    }
  }

  /** What channel `d` did, channel `c` did not see. */
  lemma BusyLeavesIdle<M(!new)>(p: Pair<M>, net: Net<M>, time: real, sys: P.System<M>, r: Net<M>)
    requires MayIdle(p, net, time) && p.setup.Reliable(p.d)
    requires Mirrors(Busy(p, net).view, r, sys) && sys.sender.time == time
    ensures StayedIdle(p, net, r) && OneClock(p.setup, r[0], time)
  {
    var v := Busy(p, net).view;
    MirrorParts(v, r, sys);
    ClocksAgree(v, r, sys);
    assert v.frame[p.c] == RestOf(p.setup, net, p.c) && SenderOf(p.setup, net[0], p.c).time == time;
  }

  /** Nor did the others. */
  lemma BusyLeavesOthers<M(!new)>(p: Pair<M>, net: Net<M>, time: real, sys: P.System<M>, r: Net<M>)
    requires MayIdle(p, net, time) && p.setup.Reliable(p.d)
    requires Mirrors(Busy(p, net).view, r, sys) && sys.sender.time == time
    ensures WellFormedNet(p.setup, r) && OthersStayNew(p, r, time)
  {
    var v := Busy(p, net).view;
    MirrorParts(v, r, sys);
    forall i: nat | i < |p.setup.configs| && i != p.d && i != p.c
      ensures r[0].connection.channels[i].processor == C.NewProcessor(p.setup.configs[i], time)
      ensures p.setup.Reliable(i) ==> ReceiverOf(p.setup, r[1], i) == NewReceiver()
    {
      assert v.frame[i] == RestOf(p.setup, net, i);
      assert net[0].connection.channels[i].processor == C.NewProcessor(p.setup.configs[i], time);
    }
  }

  ghost predicate OthersStayNew<M>(p: Pair<M>, r: Net<M>, time: real)
    requires WellFormedNet(p.setup, r)
  {
    forall i: nat :: i < |p.setup.configs| && i != p.d && i != p.c ==>
      && r[0].connection.channels[i].processor == C.NewProcessor(p.setup.configs[i], time)
      && (p.setup.Reliable(i) ==> ReceiverOf(p.setup, r[1], i) == NewReceiver())
  }

  lemma ReliableUntilDue<M(!new)>(p: Pair<M>, net: Net<M>, time: real) returns (r: Net<M>)
    requires SetupUsable(p.setup) && MayIdle(p, net, time) && net[0].nextPacket == 1 && p.setup.Reliable(p.d)
    requires ReachableWith(p.setup, p.bytes, net)
    ensures ReachableWith(p.setup, p.bytes, r) && StayedIdle(p, net, r) && LastIsDue(p, r, MODULUS)
  {
    var t, sys := Busy(p, net), SystemOf(p.setup, p.d, net);
    BusyIsReady(p, net, time);
    BusyIsClear(p, net, time);
    var many, first := CycleMany(t, sys, MODULUS - 1);
    var last, second := SendLastOne(t, many);
    ReachesFurther(t, sys, first, many, second, last);
    r := RunIsMirrored(t.view, net, sys, first + second);
    BusyLeavesIdle(p, net, time, last, r);
    BusyLeavesOthers(p, net, time, last, r);
    OnlyBusySees(p, r, last, t.view, time);
  }

  lemma OnlyBusySees<M(!new)>(p: Pair<M>, r: Net<M>, sys: P.System<M>, v: View<M>, time: real)
    requires p.Valid() && v.setup == p.setup && v.c == p.d && Mirrors(v, r, sys) && WellFormedNet(p.setup, r)
    requires sys.nextPacket == MODULUS + 1 && MODULUS in sys.processed && MODULUS !in sys.acked
    requires AckOutcome(sys.sender, Wrap(MODULUS)) == Acked
    requires p.setup.Reliable(p.d) && OthersStayNew(p, r, time)
    ensures LastIsDue(p, r, MODULUS)
  {
    forall i: nat | i < |p.setup.configs| && i != p.c
      ensures C.AckResultOf(r[0].connection.channels[i], Wrap(MODULUS)) != AlreadyAcked
    {
      assert i != p.d ==> r[0].connection.channels[i].processor == C.NewProcessor(p.setup.configs[i], time);
    }
  }

  lemma ReliableUntilFar<M(!new)>(p: Pair<M>, net: Net<M>, time: real) returns (r: Net<M>)
    requires SetupUsable(p.setup) && MayIdle(p, net, time) && net[0].nextPacket == 0 && p.setup.Reliable(p.d)
    requires ReachableWith(p.setup, p.bytes, net) && SenderOf(p.setup, net[0], p.c).ledger == map[]
    ensures ReachableWith(p.setup, p.bytes, r) && StayedIdle(p, net, r) && OthersRest(p, r, time)
    ensures r[0].nextPacket == HALF
  {
    var t, sys := Busy(p, net), SystemOf(p.setup, p.d, net);
    BusyIsReady(p, net, time);
    BusyIsClear(p, net, time);
    var many, run := CycleMany(t, sys, HALF);
    r := RunIsMirrored(t.view, net, sys, run);
    BusyLeavesIdle(p, net, time, many, r);
    BusyLeavesOthers(p, net, time, many, r);
    BusyRests(p, r, many, t, time);
  }

  lemma BusyRests<M(!new)>(p: Pair<M>, r: Net<M>, sys: P.System<M>, t: Traffic<M>, time: real)
    requires p.Valid() && t.view.setup == p.setup && t.view.c == p.d && Mirrors(t.view, r, sys) && Finished(t, sys)
    requires WellFormedNet(p.setup, r) && OneClock(p.setup, r[0], time)
    requires p.setup.Reliable(p.d) && OthersStayNew(p, r, time)
    ensures OthersRest(p, r, time)
  {
    forall i: nat | i < |p.setup.configs| && i != p.c
      ensures Silent(r[0].connection.channels[i])
      ensures p.setup.Reliable(i) ==> NextMessage(ReceiverOf(p.setup, r[1], i)) == None
      ensures p.setup.Reliable(i) ==>
                forall q :: q in SenderOf(p.setup, r[0], i).ledger ==> 0 <= q < r[0].nextPacket
    {
      assert i != p.d ==> r[0].connection.channels[i].processor == C.NewProcessor(p.setup.configs[i], time);
    }
  }

  // ---- An unreliable channel that sends meanwhile --------------------------------------------

  /** The sending end with the filler queued on channel `d`, and nothing to send elsewhere. */
  ghost predicate FillerQueued<M>(p: Pair<M>, from: End<M>) {
    && p.Valid() && !p.setup.Reliable(p.d) && WellFormedEnd(p.setup, from) && NoErrors(from)
    && from.connection.channels[p.d].processor.sendQueue == [p.filler]
    && forall i: nat :: i < |p.setup.configs| && i != p.d ==>
         Passive(p.setup.configs[i], from.connection.channels[i], p.RoomLeft())
  }

  /** The filler takes its turn, and the unreliable channel is idle again. */
  lemma FillerTurn<M>(p: Pair<M>, c: C.ChannelState<M>, number: u16)
    requires p.Valid() && !p.setup.Reliable(p.d) && p.setup.configs[p.d].maxMessagesPerPacket > 0
    requires c.processor.UnreliableState? && c.processor.sendQueue == [p.filler]
    ensures C.PacketData(p.setup.configs[p.d], p.setup.Size(), c, number, BufferRoom(p.bytes))
         == C.PacketPart([(number, p.filler)], p.FillerBits())
    ensures C.AfterPacketData(p.setup.configs[p.d], p.setup.Size(), c, number, BufferRoom(p.bytes))
         == c.(processor := C.UnreliableState([], c.processor.receiveQueue))
  {
    var config, available := p.setup.configs[p.d], p.setup.configs[p.d].BitsFor(BufferRoom(p.bytes));
    assert [p.filler][1..] == [];
    assert U.Fill(config.maxMessagesPerPacket, p.setup.Size(), [], available, p.FillerBits(), 1)
        == U.Filling([], [], p.FillerBits());
    assert U.FillPacket(config, p.setup.Size(), [p.filler], BufferRoom(p.bytes))
        == U.Filling([p.filler], [], p.FillerBits());
    assert U.Numbered([p.filler], number) == [(number, p.filler)];
  }

  /** A packet is generated with the filler alone. */
  lemma FillerPacked<M(!new)>(p: Pair<M>, from: End<M>, n: nat)
    requires SetupUsable(p.setup) && FillerQueued(p, from) && n <= |p.setup.configs|
    ensures var packing := Packed(p.setup.configs, p.setup.Size(), from.connection.channels, Wrap(from.nextPacket),
                                  p.bytes, n);
            packing == if n <= p.d then StartPacking(p.bytes)
                       else Packing(p.RoomLeft(), [ChannelData(p.d, [(Wrap(from.nextPacket), p.filler)])])
  {
    var channels, number := from.connection.channels, Wrap(from.nextPacket);
    FillerTurn(p, channels[p.d], number);
    assert [] + [ChannelData(p.d, [(number, p.filler)])] == [ChannelData(p.d, [(number, p.filler)])];
    OnlyOneTurn(p.setup.configs, p.setup.Size(), channels, number, p.bytes, p.d, p.RoomLeft(), n);
  }

  lemma GenerateFiller<M(!new)>(p: Pair<M>, from: End<M>)
    requires SetupUsable(p.setup) && FillerQueued(p, from)
    ensures GenerateAt(p.setup, from, p.bytes).Generated? && GenerateAt(p.setup, from, p.bytes).data != []
    ensures |GenerateAt(p.setup, from, p.bytes).channels| == |p.setup.configs|
    ensures forall i: nat :: i < |p.setup.configs| && i != p.d ==>
              && GenerateAt(p.setup, from, p.bytes).channels[i] == from.connection.channels[i]
              && MessagesFor(GenerateAt(p.setup, from, p.bytes).data, i) == []
              && (p.setup.Reliable(i) ==> ChosenBy(p.setup, from, p.bytes, i) == [])
    ensures var before, after := from.connection.channels[p.d], GenerateAt(p.setup, from, p.bytes).channels[p.d];
            after == before.(processor := C.UnreliableState([], before.processor.receiveQueue))
  {
    var channels, number := from.connection.channels, Wrap(from.nextPacket);
    FillerPacked(p, from, |channels|);
    forall i: nat | i < |channels| && i != p.d
      ensures GenerateAt(p.setup, from, p.bytes).channels[i] == from.connection.channels[i]
      ensures MessagesFor(GenerateAt(p.setup, from, p.bytes).data, i) == []
      ensures p.setup.Reliable(i) ==> ChosenBy(p.setup, from, p.bytes, i) == []
    {
      FillerPacked(p, from, i);
      PassiveAfterGenerate(p.setup, from, p.bytes, i, p.RoomLeft());
    }
    FillerPacked(p, from, p.d);
    ChannelAfterGenerate(p.setup, from, p.bytes, p.d);
    FillerTurn(p, channels[p.d], number);
  }

  /** The sending end after the filler. */
  lemma FillerSent<M(!new)>(p: Pair<M>, from: End<M>)
    requires SetupUsable(p.setup) && FillerQueued(p, from)
    ensures NumberIsClear(p.setup, from, GenerateAt(p.setup, from, p.bytes))
    ensures var r := ApplyGenerate(p.setup, from, p.bytes);
            && WellFormedEnd(p.setup, r) && NoErrors(r)
            && (forall i: nat :: i < |p.setup.configs| ==>
                  r.connection.channels[i].processor
                  == if i == p.d then C.UnreliableState([], from.connection.channels[i].processor.receiveQueue)
                     else from.connection.channels[i].processor)
            && GenerateAt(p.setup, from, p.bytes).Generated?
            && r.nextPacket == from.nextPacket + 1
            && r.flight == from.flight + {PacketOf(p.setup, from, p.bytes)}
            && r.accepted == from.accepted && r.processed == from.processed && r.acked == from.acked
  {
    GenerateFiller(p, from);
    GenerateKeepsWellFormed(p.setup, from, p.bytes);
  }

  /** A packet that has nothing for the channel. */
  ghost function Nothing<M>(number: nat): P.Packet<M> {
    P.Packet(number, [], [])
  }

  ghost function OnePacketOn<M>(sys: P.System<M>): P.System<M> {
    sys.(nextPacket := sys.nextPacket + 1, flight := sys.flight + {Nothing(sys.nextPacket)})
  }

  lemma FillerCarries<M(!new)>(p: Pair<M>, from: End<M>)
    requires SetupUsable(p.setup) && FillerQueued(p, from)
    ensures GenerateAt(p.setup, from, p.bytes).Generated?
    ensures Carries(p.setup, p.c, PacketOf(p.setup, from, p.bytes), Nothing(from.nextPacket))
  {
    GenerateFiller(p, from);
    PacketFits(p.setup.configs, p.setup.codec, from.connection.channels, Wrap(from.nextPacket), p.bytes);
  }

  /** Channel `c` in view, with nothing to send, and the others idle as at the start. */
  ghost predicate Idling<M(!new)>(p: Pair<M>, v: View<M>, sys: P.System<M>) {
    && p.Valid() && !p.setup.Reliable(p.d) && v.Valid() && v.setup == p.setup && v.c == p.c && v.bytes == p.bytes
    && (forall i: nat :: i < |p.setup.configs| && i != p.c ==> Idle(v.frame[i].processor))
    && v.frame[p.d].processor.UnreliableState?
    && forall k :: k in sys.sender.queue ==> !Due(p.setup.configs[p.c], sys.sender, k)
  }

  lemma QueueFiller<M(!new)>(p: Pair<M>, v: View<M>, from: End<M>, sys: P.System<M>)
    requires SetupUsable(p.setup) && Idling(p, v, sys) && SenderMirrors(v, from, sys)
    ensures var queued := ApplySend(p.setup, from, p.d, p.filler);
            && FillerQueued(p, queued)
            && (forall i: nat :: i < |p.setup.configs| && i != p.d ==>
                  queued.connection.channels[i] == from.connection.channels[i])
            && queued.connection.channels[p.d].processor.receiveQueue
               == from.connection.channels[p.d].processor.receiveQueue
            && (forall i: nat :: p.setup.Reliable(i) ==> queued.accepted[i] == from.accepted[i])
            && queued.nextPacket == from.nextPacket && queued.flight == from.flight
            && queued.processed == from.processed && queued.acked == from.acked
  {
    SendKeepsWellFormed(p.setup, from, p.d, p.filler);
    assert Idle(v.frame[p.d].processor);
    forall i: nat | i < |p.setup.configs| && i != p.d
      ensures Passive(p.setup.configs[i], from.connection.channels[i], p.RoomLeft())
    {
      assert i != p.c ==> Idle(v.frame[i].processor);
    }
  }

  /** The filler is queued and a packet made: nothing changes for channel `c` but the number of the next packet. */
  lemma FillerMirrors<M(!new)>(p: Pair<M>, v: View<M>, from: End<M>, sys: P.System<M>)
    requires SetupUsable(p.setup) && Idling(p, v, sys) && SenderMirrors(v, from, sys)
    ensures var queued := ApplySend(p.setup, from, p.d, p.filler);
            && WellFormedEnd(p.setup, queued) && !queued.panicked
            && NumberIsClear(p.setup, queued, GenerateAt(p.setup, queued, p.bytes))
            && SenderMirrors(v, ApplyGenerate(p.setup, queued, p.bytes), OnePacketOn(sys))
  {
    var queued := ApplySend(p.setup, from, p.d, p.filler);
    QueueFiller(p, v, from, sys);
    FillerSent(p, queued);
    FillerCarries(p, queued);
    FlightGrows(p.setup, p.c, from.flight, sys.flight, PacketOf(p.setup, queued, p.bytes), Nothing(from.nextPacket));
    FillerKeepsFrame(p, v, from, sys, ApplyGenerate(p.setup, queued, p.bytes));
    SameSender(p, v, from, sys, ApplyGenerate(p.setup, queued, p.bytes));
  }

  lemma SameSender<M(!new)>(p: Pair<M>, v: View<M>, from: End<M>, sys: P.System<M>, r: End<M>)
    requires p.Valid() && v.Valid() && v.setup == p.setup && v.c == p.c && p.d != p.c
    requires SenderMirrors(v, from, sys) && WellFormedEnd(p.setup, r) && NoErrors(r)
    requires SendsAsFramed(v, r, sys.sender.time)
    requires r.connection.channels[p.c].processor == from.connection.channels[p.c].processor
    requires r.accepted[p.c] == from.accepted[p.c]
    requires r.nextPacket == from.nextPacket + 1 && r.processed == from.processed && r.acked == from.acked
    requires FlightMirrors(p.setup, p.c, r.flight, sys.flight + {Nothing(from.nextPacket)})
    ensures SenderMirrors(v, r, OnePacketOn(sys))
  {
  }

  lemma FillerKeepsFrame<M(!new)>(p: Pair<M>, v: View<M>, from: End<M>, sys: P.System<M>, r: End<M>)
    requires Idling(p, v, sys) && WellFormedEnd(p.setup, from) && WellFormedEnd(p.setup, r)
    requires SendsAsFramed(v, from, sys.sender.time)
    requires forall i: nat :: i < |p.setup.configs| ==>
               r.connection.channels[i].processor
               == if i == p.d then C.UnreliableState([], from.connection.channels[i].processor.receiveQueue)
                  else from.connection.channels[i].processor
    requires forall i: nat :: p.setup.Reliable(i) ==> r.accepted[i] == from.accepted[i]
    ensures SendsAsFramed(v, r, sys.sender.time)
  {
    forall i: nat | i < |p.setup.configs| && i != p.c
      ensures r.connection.channels[i].processor == AtTime(v.frame[i].processor, sys.sender.time)
    {
      assert Idle(v.frame[i].processor);
    }
  }

  /** The other user queues the filler, and a packet is made. */
  lemma FillerStep<M(!new)>(p: Pair<M>, v: View<M>, net: Net<M>, sys: P.System<M>) returns (r: Net<M>)
    requires SetupUsable(p.setup) && Idling(p, v, sys)
    requires ReachableWith(p.setup, p.bytes, net) && Mirrors(v, net, sys)
    ensures ReachableWith(p.setup, p.bytes, r) && Mirrors(v, r, OnePacketOn(sys))
  {
    MirrorParts(v, net, sys);
    FillerMirrors(p, v, net[0], sys);
    var queued := SendAtZero(p.setup, net, p.d, p.filler);
    StepWith(p.setup, p.bytes, net, Send(0, p.d, p.filler));
    r := GenerateAtZero(p.setup, queued, p.bytes);
    StepWith(p.setup, p.bytes, queued, Generate(0, p.bytes));
  }

  lemma GenerateAtZero<M(!new)>(setup: Setup<M>, net: Net<M>, bytes: nat) returns (r: Net<M>)
    requires Supported(setup.configs) && WellFormedNet(setup, net) && !net[0].panicked && bytes > 0
    requires NumberIsClear(setup, net[0], GenerateAt(setup, net[0], bytes))
    ensures Enabled(setup, net, Generate(0, bytes)) && Apply(setup, net, Generate(0, bytes)) == r
    ensures r == [ApplyGenerate(setup, net[0], bytes), net[1]]
  {
    r := Apply(setup, net, Generate(0, bytes));
  }

  /** The channel has been idle for `n` packets. */
  ghost predicate IdleFor<M>(sys: P.System<M>, n: nat, r: P.System<M>) {
    && r == sys.(nextPacket := sys.nextPacket + n, flight := r.flight)
    && (n > 0 ==> Nothing(r.nextPacket - 1) in r.flight)
  }

  lemma FillOneMore<M(!new)>(p: Pair<M>, v: View<M>, sys: P.System<M>, n: nat, net: Net<M>, mid: P.System<M>)
    returns (r: Net<M>)
    requires SetupUsable(p.setup) && Idling(p, v, sys) && IdleFor(sys, n, mid)
    requires ReachableWith(p.setup, p.bytes, net) && Mirrors(v, net, mid)
    ensures ReachableWith(p.setup, p.bytes, r) && Mirrors(v, r, OnePacketOn(mid))
    ensures IdleFor(sys, n + 1, OnePacketOn(mid))
  {
    StillIdling(p, v, sys, n, mid);
    IdleForOneMore(sys, n, mid);
    r := FillerStep(p, v, net, mid);
  }

  lemma StillIdling<M(!new)>(p: Pair<M>, v: View<M>, sys: P.System<M>, n: nat, mid: P.System<M>)
    requires Idling(p, v, sys) && IdleFor(sys, n, mid)
    ensures Idling(p, v, mid)
  {
  }

  lemma IdleForOneMore<M>(sys: P.System<M>, n: nat, mid: P.System<M>)
    requires IdleFor(sys, n, mid)
    ensures IdleFor(sys, n + 1, OnePacketOn(mid))
  {
  }

  lemma FillMany<M(!new)>(p: Pair<M>, v: View<M>, net: Net<M>, sys: P.System<M>, n: nat)
    returns (r: Net<M>, sys': P.System<M>)
    requires SetupUsable(p.setup) && Idling(p, v, sys)
    requires ReachableWith(p.setup, p.bytes, net) && Mirrors(v, net, sys)
    ensures ReachableWith(p.setup, p.bytes, r) && Mirrors(v, r, sys') && IdleFor(sys, n, sys')
  {
    r, sys' := net, sys;
    for i := 0 to n
      invariant ReachableWith(p.setup, p.bytes, r) && Mirrors(v, r, sys') && IdleFor(sys, i, sys')
    {
      r := FillOneMore(p, v, sys, i, r, sys');
      sys' := OnePacketOn(sys');
    }
  }

  /** Channel `c` of the connections as they are. */
  ghost function IdleView<M>(p: Pair<M>, net: Net<M>): View<M>
    requires WellFormedNet(p.setup, net)
  {
    View(p.setup, p.c, p.bytes, FrameOf(p.setup, net))
  }

  lemma IdleIsInView<M(!new)>(p: Pair<M>, net: Net<M>, time: real)
    requires SetupUsable(p.setup) && MayIdle(p, net, time) && !p.setup.Reliable(p.d)
    ensures Idling(p, IdleView(p, net), SystemOf(p.setup, p.c, net))
    ensures Mirrors(IdleView(p, net), net, SystemOf(p.setup, p.c, net))
  {
    TakeIntoView(p.setup, p.c, p.bytes, net, time);
    forall i: nat | i < |p.setup.configs| && i != p.c
      ensures Idle(IdleView(p, net).frame[i].processor)
    {
      assert IdleView(p, net).frame[i] == RestOf(p.setup, net, i);
      assert net[0].connection.channels[i].processor == C.NewProcessor(p.setup.configs[i], time);
    }
  }

  /** Delivery of a packet that has nothing for the channel. */
  ghost function NothingArrives<M>(sys: P.System<M>, number: nat): P.System<M> {
    sys.(processed := sys.processed + {number}, desynced := false)
  }

  lemma NothingArrivesInProtocol<M>(config: Config, sys: P.System<M>, number: nat)
    requires config.Valid() && sys.sender.oldest <= sys.sender.next
    ensures P.Apply(config, sys, P.Deliver(Nothing(number))) == NothingArrives(sys, number)
  {
  }

  lemma DeliverNothing<M(!new)>(p: Pair<M>, v: View<M>, net: Net<M>, sys: P.System<M>, number: nat) returns (r: Net<M>)
    requires SetupUsable(p.setup) && v.setup == p.setup && v.bytes == p.bytes && Nothing(number) in sys.flight
    requires ReachableWith(p.setup, p.bytes, net) && Mirrors(v, net, sys) && sys.sender.oldest <= sys.sender.next
    ensures ReachableWith(p.setup, p.bytes, r) && Mirrors(v, r, NothingArrives(sys, number))
  {
    var w := DeliverStep(v, net, sys, Nothing(number));
    StepWith(p.setup, p.bytes, net, Deliver(0, w));
    NothingArrivesInProtocol(v.Config(), sys, number);
    r := Apply(p.setup, net, Deliver(0, w));
  }

  lemma UnreliableUntilDue<M(!new)>(p: Pair<M>, net: Net<M>, time: real) returns (r: Net<M>)
    requires SetupUsable(p.setup) && MayIdle(p, net, time) && net[0].nextPacket == 1 && !p.setup.Reliable(p.d)
    requires ReachableWith(p.setup, p.bytes, net)
    ensures ReachableWith(p.setup, p.bytes, r) && StayedIdle(p, net, r) && LastIsDue(p, r, MODULUS)
  {
    var v, sys := IdleView(p, net), SystemOf(p.setup, p.c, net);
    IdleIsInView(p, net, time);
    var last;
    r, last := FillAndArrive(p, v, net, sys, MODULUS);
    IdleSeesNothing(p, net, v, r, last);
    assert MODULUS !in net[0].processed;
    NobodyMinds(p, r, v, last);
  }

  /** After `n` packets the last one arrives. */
  lemma FillAndArrive<M(!new)>(p: Pair<M>, v: View<M>, net: Net<M>, sys: P.System<M>, n: nat)
    returns (r: Net<M>, last: P.System<M>)
    requires SetupUsable(p.setup) && Idling(p, v, sys) && sys.nextPacket == 1 && n > 0
    requires ReachableWith(p.setup, p.bytes, net) && Mirrors(v, net, sys) && sys.sender.oldest <= sys.sender.next
    ensures ReachableWith(p.setup, p.bytes, r) && Mirrors(v, r, last)
    ensures last == sys.(nextPacket := n + 1, flight := last.flight, processed := sys.processed + {n},
                         desynced := false)
  {
    var far, idled := FillMany(p, v, net, sys, n);
    r := DeliverNothing(p, v, far, idled, n);
    last := NothingArrives(idled, n);
  }

  lemma NobodyMinds<M(!new)>(p: Pair<M>, r: Net<M>, v: View<M>, sys: P.System<M>)
    requires v.setup == p.setup && Mirrors(v, r, sys) && WellFormedNet(p.setup, r)
    requires sys.nextPacket == MODULUS + 1 && MODULUS in sys.processed && MODULUS !in sys.acked
    requires forall i: nat :: i < |p.setup.configs| && i != p.c ==> Idle(r[0].connection.channels[i].processor)
    ensures LastIsDue(p, r, MODULUS)
  {
    forall i: nat | i < |p.setup.configs| && i != p.c
      ensures C.AckResultOf(r[0].connection.channels[i], Wrap(MODULUS)) != AlreadyAcked
    {
      assert Idle(r[0].connection.channels[i].processor);
    }
  }

  /** The channels but `c` are idle as at the start. */
  lemma IdleSeesNothing<M(!new)>(p: Pair<M>, net: Net<M>, v: View<M>, r: Net<M>, sys: P.System<M>)
    requires MayIdle(p, net, sys.sender.time) && v == IdleView(p, net)
    requires Mirrors(v, r, sys) && Idling(p, v, SystemOf(p.setup, p.c, net))
    requires sys.sender == SenderOf(p.setup, net[0], p.c) && sys.receiver == ReceiverOf(p.setup, net[1], p.c)
    requires sys.accepted == net[0].accepted[p.c] && sys.delivered == net[1].received[p.c]
    ensures StayedIdle(p, net, r) && OneClock(p.setup, r[0], sys.sender.time)
    ensures forall i: nat :: i < |p.setup.configs| && i != p.c ==>
              && Idle(r[0].connection.channels[i].processor)
              && (p.setup.Reliable(i) ==> ReceiverOf(p.setup, r[1], i) == NewReceiver())
  {
    MirrorParts(v, r, sys);
    ClocksAgree(v, r, sys);
    forall i: nat | i < |p.setup.configs| && i != p.c
      ensures Idle(r[0].connection.channels[i].processor)
      ensures p.setup.Reliable(i) ==> ReceiverOf(p.setup, r[1], i) == NewReceiver()
    {
      assert Idle(v.frame[i].processor);
      assert v.frame[i] == RestOf(p.setup, net, i);
      assert p.setup.Reliable(i) ==> ReceiverOf(p.setup, net[1], i) == NewReceiver();
    }
  }

  lemma UnreliableUntilFar<M(!new)>(p: Pair<M>, net: Net<M>, time: real) returns (r: Net<M>)
    requires SetupUsable(p.setup) && MayIdle(p, net, time) && net[0].nextPacket == 0 && !p.setup.Reliable(p.d)
    requires ReachableWith(p.setup, p.bytes, net)
    ensures ReachableWith(p.setup, p.bytes, r) && StayedIdle(p, net, r) && OthersRest(p, r, time)
    ensures r[0].nextPacket == HALF
  {
    var v, sys := IdleView(p, net), SystemOf(p.setup, p.c, net);
    IdleIsInView(p, net, time);
    var idled;
    r, idled := FillMany(p, v, net, sys, HALF);
    IdleSeesNothing(p, net, v, r, idled);
    assert HALF !in net[0].processed;
    IdleRests(p, r, time);
  }

  lemma IdleRests<M(!new)>(p: Pair<M>, r: Net<M>, time: real)
    requires WellFormedNet(p.setup, r) && OneClock(p.setup, r[0], time) && r[0].nextPacket !in r[0].acked
    requires forall i: nat :: i < |p.setup.configs| && i != p.c ==>
               && Idle(r[0].connection.channels[i].processor)
               && (p.setup.Reliable(i) ==> ReceiverOf(p.setup, r[1], i) == NewReceiver())
    ensures OthersRest(p, r, time)
  {
    forall i: nat | i < |p.setup.configs| && i != p.c
      ensures Silent(r[0].connection.channels[i])
      ensures p.setup.Reliable(i) ==> SenderOf(p.setup, r[0], i).ledger == map[]
    {
      assert Idle(r[0].connection.channels[i].processor);
    }
  }

  // ---- A channel of either kind that sends meanwhile -----------------------------------------

  /** 65536 packets on, the last of them is about to be acked. */
  lemma IdleUntilDue<M(!new)>(p: Pair<M>, net: Net<M>, time: real) returns (r: Net<M>)
    requires SetupUsable(p.setup) && MayIdle(p, net, time) && net[0].nextPacket == 1
    requires ReachableWith(p.setup, p.bytes, net)
    ensures ReachableWith(p.setup, p.bytes, r) && StayedIdle(p, net, r) && LastIsDue(p, r, MODULUS)
  {
    if p.setup.Reliable(p.d) {
      r := ReliableUntilDue(p, net, time);
    } else {
      r := UnreliableUntilDue(p, net, time);
    }
  }

  /** 32768 packets on, nothing is left to do. */
  lemma IdleUntilFar<M(!new)>(p: Pair<M>, net: Net<M>, time: real) returns (r: Net<M>)
    requires SetupUsable(p.setup) && MayIdle(p, net, time) && net[0].nextPacket == 0
    requires ReachableWith(p.setup, p.bytes, net) && SenderOf(p.setup, net[0], p.c).ledger == map[]
    ensures ReachableWith(p.setup, p.bytes, r) && StayedIdle(p, net, r) && OthersRest(p, r, time)
    ensures r[0].nextPacket == HALF
  {
    if p.setup.Reliable(p.d) {
      r := ReliableUntilFar(p, net, time);
    } else {
      r := UnreliableUntilFar(p, net, time);
    }
  }

  /** What a run of channel `c` comes to, two connections come to. */
  lemma IdlerReaches<M(!new)>(p: Pair<M>, run: seq<P.Action<M>>, sys: P.System<M>) returns (net: Net<M>)
    requires SetupUsable(p.setup) && p.Valid() && WellFormedNet(p.setup, p.Initial()) && Idler(p).Valid()
    requires Reaches(Idler(p), P.Initial(p.Start()), run, sys)
    ensures ReachableWith(p.setup, p.bytes, net) && Mirrors(Idler(p).view, net, sys)
  {
    NewConnections(p);
    net := RunIsMirrored(Idler(p).view, p.Initial(), P.Initial(p.Start()), run);
  }

  /** Only packet 0 was sent, and nothing is due. */
  ghost predicate Rests<M>(config: Config, sys: P.System<M>) {
    && (forall q :: q in sys.sender.ledger ==> q == 0)
    && (forall k :: k in sys.sender.queue ==> !Due(config, sys.sender, k))
    && sys.nextPacket <= 1 && (forall n :: n in sys.processed ==> n < sys.nextPacket)
    && sys.acked <= sys.processed
  }

  lemma IdlerShows<M(!new)>(p: Pair<M>, net: Net<M>, sys: P.System<M>)
    requires p.Valid() && WellFormedNet(p.setup, p.Initial()) && Mirrors(Idler(p).view, net, sys)
    ensures WellFormedNet(p.setup, net) && net[0].nextPacket == sys.nextPacket
    ensures SenderOf(p.setup, net[0], p.c) == sys.sender && ReceiverOf(p.setup, net[1], p.c) == sys.receiver
    ensures net[0].accepted[p.c] == sys.accepted && net[1].received[p.c] == sys.delivered
  {
    MirrorParts(Idler(p).view, net, sys);
  }

  /** Channel `c` may idle after a run of its own. */
  lemma IdlerMayIdle<M(!new)>(p: Pair<M>, net: Net<M>, sys: P.System<M>)
    requires p.Valid() && WellFormedNet(p.setup, p.Initial()) && Mirrors(Idler(p).view, net, sys)
    requires Rests(p.setup.configs[p.c], sys)
    requires sys.sender.time == p.Start() || sys.sender.time == BeforeDue(p.setup.configs[p.c], p.Start())
    ensures MayIdle(p, net, sys.sender.time)
  {
    var v := Idler(p).view;
    MirrorParts(v, net, sys);
    ClocksAgree(v, net, sys);
    forall i: nat | i < |p.setup.configs| && i != p.c
      ensures net[0].connection.channels[i].processor == C.NewProcessor(p.setup.configs[i], sys.sender.time)
      ensures p.setup.Reliable(i) ==>
                ReceiverOf(p.setup, net[1], i) == NewReceiver() && net[0].accepted[i] == [] == net[1].received[i]
    {
      assert v.frame[i] == RestOf(p.setup, p.Initial(), i);
    }
  }

  // ---- The ack that is mistaken --------------------------------------------------------------

  /** The other end took in this packet and acks it for the first time, but a channel that has been idle for too long
      takes the ack for that of a packet of its own. */
  ghost predicate MistakenAckDue<M>(setup: Setup<M>, net: Net<M>, c: nat, number: nat)
    requires setup.Reliable(c)
  {
    && WellFormedNet(setup, net) && !net[0].panicked
    && number in net[0].processed && number !in net[0].acked
    && !P.AckIsClear(SenderOf(setup, net[0], c), number)
  }

  /** Packet 0 carried message 0 of the channel, and packet 1 is next. */
  ghost predicate PacketZero<M>(s: Sender<M>) {
    s.oldest <= s.next == 1 && s.packetTop == 1 && s.ledger.Keys == {0} && s.ledger[0].ids == WrapAll([0])
  }

  lemma MistakeIsDue<M>(p: Pair<M>, net: Net<M>, r: Net<M>)
    requires StayedIdle(p, net, r) && LastIsDue(p, r, MODULUS) && PacketZero(SenderOf(p.setup, net[0], p.c))
    ensures MistakenAckDue(p.setup, r, p.c, MODULUS)
  {
    assert 0 in SenderOf(p.setup, r[0], p.c).ledger;
  }

  // ---- A message is lost ---------------------------------------------------------------------

  /** Message 0 is sent, and its packet is made but does not arrive. */
  lemma MakeZero<M(!new)>(t: Traffic<M>) returns (sys: P.System<M>, run: seq<P.Action<M>>)
    requires t.Valid() && t.Alone()
    ensures Reaches(t, P.Initial(t.start), run, sys) && ZeroIsMissing(t.Config(), sys)
    ensures sys.sender.time == BeforeDue(t.Config(), t.start)
  {
    var initial := P.Initial<M>(t.start);
    AloneIsQuiet(t, t.start, 0);
    var queued, first := SendMany(t, initial, 1);
    LastAreDue(t, initial, 1, queued.sender);
    var made, packet, second := GenerateDueRun(t, queued, 0, 1);
    ReachesFurther(t, initial, first, queued, second, made);
    MadeZero(t, initial, queued, made);
    var third;
    sys, third := Settle(t, made);
    ReachesFurther(t, initial, first + second, made, third, sys);
    run := first + second + third;
  }

  /** Message 0 was sent in packet 0 and never arrived, and is not due. */
  ghost predicate ZeroIsMissing<M>(config: Config, sys: P.System<M>) {
    ZeroIsMade(sys) && HoldsZero(config, sys.sender)
  }

  ghost predicate ZeroIsMade<M>(sys: P.System<M>) {
    && PacketZero(sys.sender) && !sys.sender.ledger[0].acked && OnlyZero(sys.sender)
    && sys.receiver == NewReceiver() && sys.delivered == [] && |sys.accepted| == 1
    && sys.nextPacket == 1 && sys.processed == {} == sys.acked
  }

  lemma MadeZero<M>(t: Traffic<M>, initial: P.System<M>, queued: P.System<M>, made: P.System<M>)
    requires t.Valid() && initial == P.Initial<M>(t.start) && Sent(t, initial, 1, queued) && Tidy(t, queued)
    requires SenderValid(t.Config(), made.sender)
    requires made == queued.(sender := made.sender, nextPacket := queued.nextPacket + 1, flight := made.flight,
                             recorded := made.recorded)
    requires made.sender == RecordPacket(t.Config(), Stamp(queued.sender, Range(0, 1)), Wrap(queued.nextPacket),
                                         Range(0, 1))
    ensures Tidy(t, made) && ZeroIsMade(made) && made.sender.time == t.start
    ensures made.sender.queue[0].timeLastSent == made.sender.time
  {
    RecordedAtTop(t, queued, Range(0, 1));
    assert Range(0, 1) == [0];
    assert made.sender.queue.Keys == {0};
    assert made.sender.ledger.Keys == {0};
  }

  /** The ack of packet 65536 is taken for that of packet 0, and takes message 0 out of the queue. */
  lemma ZeroIsTaken<M>(s: Sender<M>)
    requires PacketZero(s) && !s.ledger[0].acked && s.queue.Keys == {0}
    ensures AckOutcome(s, Wrap(MODULUS)) == Acked && 0 !in ReliableSpec.ProcessAck(s, Wrap(MODULUS)).queue
  {
    RemoveMessagesExactly(s.(ledger := s.ledger[0 := s.ledger[0].(acked := true)]), [0]);
  }

  lemma MistakenAckLoses<M(!new)>(p: Pair<M>, net: Net<M>, r: Net<M>)
    requires StayedIdle(p, net, r) && LastIsDue(p, r, MODULUS) && PacketZero(SenderOf(p.setup, net[0], p.c))
    requires !SenderOf(p.setup, net[0], p.c).ledger[0].acked && SenderOf(p.setup, net[0], p.c).queue.Keys == {0}
    requires ReceiverOf(p.setup, net[1], p.c) == NewReceiver() && net[1].received[p.c] == []
    requires |net[0].accepted[p.c]| == 1
    ensures var after := r[0 := ApplyAck(p.setup, r[0], MODULUS)];
            WellFormedNet(p.setup, after) && !G.LosesNothing(p.setup, after, 0, p.c)
  {
    ZeroIsTaken(SenderOf(p.setup, r[0], p.c));
    NobodyPanics(p, r);
    AckApplies(p.setup, r[0], MODULUS);
    AckKeepsWellFormed(p.setup, r[0], MODULUS);
    var after := r[0 := AckedEnd(p.setup, r[0], MODULUS)];
    assert SenderOf(p.setup, after[0], p.c) == ReliableSpec.ProcessAck(SenderOf(p.setup, r[0], p.c), Wrap(MODULUS));
    assert !G.IsKept(p.setup, after, 0, p.c, 0);
  }

  lemma NobodyPanics<M>(p: Pair<M>, r: Net<M>)
    requires p.setup.Reliable(p.c) && WellFormedNet(p.setup, r) && LastIsDue(p, r, MODULUS)
    requires AckOutcome(SenderOf(p.setup, r[0], p.c), Wrap(MODULUS)) != AlreadyAcked
    ensures !AckPanics(r[0].connection.channels, Wrap(MODULUS))
  {
  }

  /** Two connections come to where an ack that is due in every other respect loses a message of a channel that has been
      idle for 65536 packets, within the bound on recycled ids or not. So the guarantees need the condition that `Ack`
      puts on numbers. */
  lemma IdleChannelLoses<M(!new)>(p: Pair<M>) returns (net: Net<M>)
    requires SetupUsable(p.setup) && p.Valid()
    ensures ReachableWith(p.setup, p.bytes, net) && MistakenAckDue(p.setup, net, p.c, MODULUS)
    ensures var after := net[0 := ApplyAck(p.setup, net[0], MODULUS)];
            WellFormedNet(p.setup, after) && !G.LosesNothing(p.setup, after, 0, p.c)
  {
    var before := LoseZero(p);
    net := IdleUntilDue(p, before, BeforeDue(p.setup.configs[p.c], p.Start()));
    MistakeIsDue(p, before, net);
    MistakenAckLoses(p, before, net);
  }

  /** Two connections come to where packet 0 with message 0 is on the way. */
  lemma LoseZero<M(!new)>(p: Pair<M>) returns (net: Net<M>)
    requires SetupUsable(p.setup) && p.Valid()
    ensures ReachableWith(p.setup, p.bytes, net) && MayIdle(p, net, BeforeDue(p.setup.configs[p.c], p.Start()))
    ensures net[0].nextPacket == 1
    ensures PacketZero(SenderOf(p.setup, net[0], p.c)) && !SenderOf(p.setup, net[0], p.c).ledger[0].acked
    ensures SenderOf(p.setup, net[0], p.c).queue.Keys == {0}
    ensures ReceiverOf(p.setup, net[1], p.c) == NewReceiver() && net[1].received[p.c] == []
    ensures |net[0].accepted[p.c]| == 1
  {
    var sys;
    net, sys := GetToZero(p);
    MissingRests(p.setup.configs[p.c], sys);
    IdlerMayIdle(p, net, sys);
    IdlerShows(p, net, sys);
  }

  lemma MissingRests<M>(config: Config, sys: P.System<M>)
    requires ZeroIsMissing(config, sys)
    ensures Rests(config, sys)
  {
  }

  lemma GetToZero<M(!new)>(p: Pair<M>) returns (net: Net<M>, sys: P.System<M>)
    requires SetupUsable(p.setup) && p.Valid()
    ensures ReachableWith(p.setup, p.bytes, net) && WellFormedNet(p.setup, p.Initial())
    ensures Mirrors(Idler(p).view, net, sys) && ZeroIsMissing(p.setup.configs[p.c], sys)
    ensures sys.sender.time == BeforeDue(p.setup.configs[p.c], p.Start())
  {
    NewConnections(p);
    var run;
    sys, run := MakeZero(Idler(p));
    net := IdlerReaches(p, run, sys);
  }

  // ---- An assertion fails --------------------------------------------------------------------

  /** Message 0 is sent, delivered and acked. */
  lemma FinishZero<M(!new)>(t: Traffic<M>) returns (sys: P.System<M>, run: seq<P.Action<M>>)
    requires t.Valid() && t.Alone()
    ensures Reaches(t, P.Initial(t.start), run, sys) && ZeroIsFinished(sys) && sys.sender.time == t.start
  {
    var initial := P.Initial<M>(t.start);
    AloneIsQuiet(t, t.start, 0);
    var through, first := GetThrough(t, initial, 1);
    assert Range(0, 1) == [0];
    var second;
    sys, second := AckExactly(t, through, 0, [0]);
    run := first + second;
    ReachesFurther(t, initial, first, through, second, sys);
    EmptiedOfZero(through.sender.queue, sys.sender.queue);
  }

  ghost predicate ZeroIsFinished<M>(sys: P.System<M>) {
    && 0 in sys.sender.ledger && sys.sender.ledger[0].acked && (forall q :: q in sys.sender.ledger ==> q == 0)
    && sys.sender.packetTop == 1 && sys.sender.queue == map[]
    && sys.nextPacket == 1 && sys.processed == {0} == sys.acked
  }

  /** And where such an ack fails the assertion that no packet is acked twice. */
  lemma IdleChannelPanics<M(!new)>(p: Pair<M>) returns (net: Net<M>)
    requires SetupUsable(p.setup) && p.Valid()
    ensures ReachableWith(p.setup, p.bytes, net) && MistakenAckDue(p.setup, net, p.c, MODULUS)
    ensures ApplyAck(p.setup, net[0], MODULUS).panicked
  {
    var before := AckZero(p);
    net := IdleUntilDue(p, before, p.Start());
    MistakenAckPanics(p, before, net);
  }

  lemma MistakenAckPanics<M(!new)>(p: Pair<M>, net: Net<M>, r: Net<M>)
    requires StayedIdle(p, net, r) && LastIsDue(p, r, MODULUS)
    requires var s := SenderOf(p.setup, net[0], p.c);
             s.packetTop == 1 && 0 in s.ledger && s.ledger[0].acked
    ensures MistakenAckDue(p.setup, r, p.c, MODULUS) && ApplyAck(p.setup, r[0], MODULUS).panicked
  {
    assert 0 in SenderOf(p.setup, r[0], p.c).ledger;
    assert C.AckResultOf(r[0].connection.channels[p.c], Wrap(MODULUS)) == AlreadyAcked;
  }

  /** Two connections come to where packet 0 with message 0 is acked. */
  lemma AckZero<M(!new)>(p: Pair<M>) returns (net: Net<M>)
    requires SetupUsable(p.setup) && p.Valid()
    ensures ReachableWith(p.setup, p.bytes, net) && MayIdle(p, net, p.Start()) && net[0].nextPacket == 1
    ensures var s := SenderOf(p.setup, net[0], p.c);
            s.packetTop == 1 && 0 in s.ledger && s.ledger[0].acked
  {
    var sys;
    net, sys := GetPastZero(p);
    FinishedRests(p.setup.configs[p.c], sys);
    IdlerMayIdle(p, net, sys);
    IdlerShows(p, net, sys);
  }

  lemma FinishedRests<M>(config: Config, sys: P.System<M>)
    requires ZeroIsFinished(sys)
    ensures Rests(config, sys)
  {
  }

  lemma GetPastZero<M(!new)>(p: Pair<M>) returns (net: Net<M>, sys: P.System<M>)
    requires SetupUsable(p.setup) && p.Valid()
    ensures ReachableWith(p.setup, p.bytes, net) && WellFormedNet(p.setup, p.Initial())
    ensures Mirrors(Idler(p).view, net, sys) && ZeroIsFinished(sys) && sys.sender.time == p.Start()
  {
    NewConnections(p);
    var run;
    sys, run := FinishZero(Idler(p));
    net := IdlerReaches(p, run, sys);
  }

  // ---- A round that changes nothing ----------------------------------------------------------

  /** The packet that the channel in view makes next. */
  ghost function NextPacketOf<M>(v: View<M>, sys: P.System<M>): P.Packet<M>
    requires v.Valid()
  {
    ChooseMessagesIsSound(v.Config(), sys.sender, BufferRoom(v.bytes));
    var ids := ChooseMessages(v.Config(), sys.sender, BufferRoom(v.bytes)).ids;
    P.Packet(sys.nextPacket, ids, WireMessages(sys.sender, ids))
  }

  lemma RoundDeparts<M(!new)>(v: View<M>, net: Net<M>, sys: P.System<M>, least: nat) returns (sent: Net<M>)
    requires SetupUsable(v.setup) && Mirrors(v, net, sys) && sys.sender.oldest <= sys.sender.next
    requires MaySend(v, sys.sender, sys.nextPacket, least)
    ensures Enabled(v.setup, net, Generate(0, v.bytes)) && sent == Apply(v.setup, net, Generate(0, v.bytes))
    ensures Mirrors(v, sent, P.Apply(v.Config(), sys, P.Generate(BufferRoom(v.bytes))))
    ensures GenerateAt(v.setup, net[0], v.bytes).Generated?
    ensures RoomFor(v.setup, net[0], v.bytes, v.c) == BufferRoom(v.bytes)
    ensures PacketOf(v.setup, net[0], v.bytes) in sent[0].flight
    ensures Carries(v.setup, v.c, PacketOf(v.setup, net[0], v.bytes), NextPacketOf(v, sys))
  {
    MirrorParts(v, net, sys);
    SendsAlone(v, net[0], least);
    NewPacketCarries(v, net[0]);
    GenerateStep(v, net, sys, least);
    ConnectionProgress.GenerateIsLocal(v.setup, net, 0, v.bytes);
    sent := Apply(v.setup, net, Generate(0, v.bytes));
  }

  /** The receiving end can take the packet, and its ack is clear and new. */
  ghost predicate RoundIsClear<M(!new)>(v: View<M>, sys: P.System<M>, sent: P.System<M>)
    requires v.Valid()
  {
    var packet := NextPacketOf(v, sys);
    && (forall k :: k in packet.ids ==> sys.receiver.next - HALF < k)
    && ReceivePacket(v.Config(), sys.receiver, packet.messages).ok
    && sys.nextPacket !in sys.acked && P.AckIsClear(sent.sender, sys.nextPacket)
    && AckOutcome(sent.sender, Wrap(sys.nextPacket)) != AlreadyAcked && OthersClear(v, sys.nextPacket)
  }

  /** A round of the channel in view is a round of the connections. */
  lemma RoundIsMirrored<M(!new)>(v: View<M>, net: Net<M>, sys: P.System<M>, least: nat, sent: P.System<M>)
    returns (r: Net<M>)
    requires SetupUsable(v.setup) && Mirrors(v, net, sys) && sys.sender.oldest <= sys.sender.next
    requires MaySend(v, sys.sender, sys.nextPacket, least)
    requires sent == P.Apply(v.Config(), sys, P.Generate(BufferRoom(v.bytes))) && RoundIsClear(v, sys, sent)
    ensures Enabled(v.setup, net, Generate(0, v.bytes)) && GenerateAt(v.setup, net[0], v.bytes).Generated?
    ensures RoomFor(v.setup, net[0], v.bytes, v.c) == BufferRoom(v.bytes)
    ensures G.Legal(v.setup, net, ConnectionProgress.Round(v.setup, net[0], 0, v.bytes))
    ensures r == G.Run(v.setup, net, ConnectionProgress.Round(v.setup, net[0], 0, v.bytes))
    ensures Mirrors(v, r, P.Apply(v.Config(), P.Apply(v.Config(), sent, P.Deliver(NextPacketOf(v, sys))),
                                  P.Ack(sys.nextPacket)))
  {
    var departed := RoundDeparts(v, net, sys, least);
    var w := PacketOf(v.setup, net[0], v.bytes);
    SentKeepsReceiver(v, sys, sent);
    var arrived := RoundArrives(v, departed, sys, sent, w);
    r := RoundEnds(v, arrived, sys, sent);
    MirrorParts(v, net, sys);
    ConnectionProgress.ThreeSteps(v.setup, net, Generate(0, v.bytes), Deliver(0, w), Ack(0, sys.nextPacket));
  }

  lemma SentKeepsReceiver<M(!new)>(v: View<M>, sys: P.System<M>, sent: P.System<M>)
    requires v.Valid() && sys.sender.oldest <= sys.sender.next
    requires sent == P.Apply(v.Config(), sys, P.Generate(BufferRoom(v.bytes)))
    ensures sent.receiver == sys.receiver && sent.processed == sys.processed && sent.acked == sys.acked
    ensures sent.sender.oldest == sys.sender.oldest && sent.sender.next == sys.sender.next
  {
  }

  lemma RoundArrives<M(!new)>(v: View<M>, departed: Net<M>, sys: P.System<M>, sent: P.System<M>, w: WirePacket<M>)
    returns (arrived: Net<M>)
    requires SetupUsable(v.setup) && Mirrors(v, departed, sent) && sent.sender.oldest <= sent.sender.next
    requires w in departed[0].flight && Carries(v.setup, v.c, w, NextPacketOf(v, sys))
    requires sent.receiver == sys.receiver && RoundIsClear(v, sys, sent)
    ensures Enabled(v.setup, departed, Deliver(0, w)) && arrived == Apply(v.setup, departed, Deliver(0, w))
    ensures Mirrors(v, arrived, P.Apply(v.Config(), sent, P.Deliver(NextPacketOf(v, sys))))
  {
    DeliverCarried(v, departed, sent, NextPacketOf(v, sys), w);
    arrived := Apply(v.setup, departed, Deliver(0, w));
  }

  lemma RoundEnds<M(!new)>(v: View<M>, arrived: Net<M>, sys: P.System<M>, sent: P.System<M>) returns (r: Net<M>)
    requires SetupUsable(v.setup) && v.Valid() && sent.sender.oldest <= sent.sender.next
    requires Mirrors(v, arrived, P.Apply(v.Config(), sent, P.Deliver(NextPacketOf(v, sys))))
    requires sent.receiver == sys.receiver && sent.acked == sys.acked && RoundIsClear(v, sys, sent)
    ensures Enabled(v.setup, arrived, Ack(0, sys.nextPacket)) && r == Apply(v.setup, arrived, Ack(0, sys.nextPacket))
    ensures Mirrors(v, r, P.Apply(v.Config(), P.Apply(v.Config(), sent, P.Deliver(NextPacketOf(v, sys))),
                                  P.Ack(sys.nextPacket)))
  {
    AckStep(v, arrived, P.Apply(v.Config(), sent, P.Deliver(NextPacketOf(v, sys))), sys.nextPacket);
    r := Apply(v.setup, arrived, Ack(0, sys.nextPacket));
  }

  /** The first message of the channel is queued, after as many packets of others as make its number look old. */
  ghost predicate FirstIsLate<M>(t: Traffic<M>, sys: P.System<M>) {
    && t.Valid() && t.batch == 1 && t.Config().sentPacketBufferSize < HALF
    && sys.sender == SendMessage(NewSender(sys.sender.time), t.message, t.MeasuredBits())
    && t.Config().messageResendTime - 1.0 <= sys.sender.time && t.Quiet(sys.sender.time)
    && sys.receiver == NewReceiver() && sys.accepted == [t.message]
    && sys.nextPacket == HALF && sys.nextPacket !in sys.acked && OthersClear(t.view, HALF)
  }

  lemma FirstMaySend<M(!new)>(t: Traffic<M>, sys: P.System<M>)
    requires FirstIsLate(t, sys)
    ensures MaySend(t.view, sys.sender, sys.nextPacket, t.Left())
    ensures ChooseMessages(t.Config(), sys.sender, BufferRoom(t.view.bytes)).ids == [0]
    ensures !P.Kept(sys.sender, sys.nextPacket)
  {
    assert DueRun(t.Config(), sys.sender, 0, 0, 1, t.MeasuredBits());
    ChooseDueRun(t, sys.sender, 0, 1);
    assert Range(0, 1) == [0];
    P.NearNumberIsClear(t.Config(), sys.sender, sys.nextPacket);
  }

  /** Its packet is made, but not recorded. */
  lemma FirstIsNotRecorded<M(!new)>(t: Traffic<M>, sys: P.System<M>, sent: P.System<M>)
    requires FirstIsLate(t, sys) && sent == P.Apply(t.Config(), sys, P.Generate(BufferRoom(t.view.bytes)))
    ensures sent.sender.ledger == map[] && sent.sender.oldest == 0 && sent.sender.next == 1
    ensures 0 in sent.sender.queue
    ensures RoundIsClear(t.view, sys, sent)
  {
    FirstMaySend(t, sys);
    assert sent.sender == Stamp(sys.sender, [0]);
    FirstIsTaken(t, sys);
  }

  lemma FirstIsTaken<M(!new)>(t: Traffic<M>, sys: P.System<M>)
    requires FirstIsLate(t, sys)
    ensures var packet := NextPacketOf(t.view, sys);
            && packet.ids == [0]
            && ReceivePacket(t.Config(), sys.receiver, packet.messages)
               == ReceiveResult(Receiver(0, map[0 := t.message]), true)
  {
    FirstMaySend(t, sys);
    var packet := NextPacketOf(t.view, sys);
    assert packet.messages == [(Wrap(0), t.message)];
    assert packet.messages[1..] == [];
    ReceiveOneByNumber(t.Config(), sys.receiver, 0, t.message);
  }

  /** After the round the other end has the message, and this end does not know. */
  lemma FirstStalls<M(!new)>(t: Traffic<M>, sys: P.System<M>, sent: P.System<M>)
    requires FirstIsLate(t, sys) && sent == P.Apply(t.Config(), sys, P.Generate(BufferRoom(t.view.bytes)))
    ensures sent.sender.oldest <= sent.sender.next
    ensures var r := P.Apply(t.Config(), P.Apply(t.Config(), sent, P.Deliver(NextPacketOf(t.view, sys))), P.Ack(HALF));
            r.sender == sent.sender && 0 in r.receiver.pending && r.sender.queue.Keys == sys.sender.queue.Keys
  {
    FirstIsNotRecorded(t, sys, sent);
    FirstIsTaken(t, sys);
  }

  /** Channel `c` as it is 32768 packets on, about to send its first message. */
  ghost function LateTraffic<M>(p: Pair<M>, r: Net<M>): Traffic<M>
    requires p.Valid() && WellFormedNet(p.setup, r)
  {
    Traffic(IdleView(p, r), p.message, 1, p.Start())
  }

  lemma LateIsQuiet<M(!new)>(p: Pair<M>, r: Net<M>, time: real)
    requires p.Valid() && WellFormedNet(p.setup, r) && OthersRest(p, r, time) && r[0].nextPacket == HALF
    ensures LateTraffic(p, r).Valid() && LateTraffic(p, r).Quiet(time) && OthersClear(IdleView(p, r), HALF)
  {
    var t := LateTraffic(p, r);
    forall i: nat | i < |p.setup.configs| && i != p.c
      ensures Passive(p.setup.configs[i], Framed(t.view, i, time), t.Left())
      ensures p.setup.Reliable(i) ==>
                forall q :: q in t.view.frame[i].processor.sender.ledger ==> 0 <= q < HALF
    {
      assert t.view.frame[i] == RestOf(p.setup, r, i);
      assert Silent(r[0].connection.channels[i]);
    }
    forall i: nat, q | p.setup.Reliable(i) && i != p.c && q in t.view.frame[i].processor.sender.ledger
      ensures Wrap(q) != Wrap(HALF)
    {
      assert 0 <= q < HALF;
    }
  }

  /** The connections after 32768 packets of channel `d`. */
  lemma GetFar<M(!new)>(p: Pair<M>) returns (r: Net<M>)
    requires SetupUsable(p.setup) && p.Valid()
    ensures ReachableWith(p.setup, p.bytes, r) && WellFormedNet(p.setup, r) && NoErrors(r[0]) && NoErrors(r[1])
    ensures OthersRest(p, r, p.Start()) && r[0].nextPacket == HALF
    ensures SenderOf(p.setup, r[0], p.c) == NewSender(p.Start()) && ReceiverOf(p.setup, r[1], p.c) == NewReceiver()
    ensures r[0].accepted[p.c] == [] == r[1].received[p.c]
  {
    NewConnections(p);
    IdlerMayIdle(p, p.Initial(), P.Initial<M>(p.Start()));
    IdlerShows(p, p.Initial(), P.Initial<M>(p.Start()));
    r := IdleUntilFar(p, p.Initial(), p.Start());
  }

  /** And then its first message is sent. */
  lemma GetLate<M(!new)>(p: Pair<M>) returns (net: Net<M>, t: Traffic<M>, sys: P.System<M>)
    requires SetupUsable(p.setup) && p.Valid() && p.setup.configs[p.c].sentPacketBufferSize < HALF
    ensures ReachableWith(p.setup, p.bytes, net)
    ensures t.view.setup == p.setup && t.view.c == p.c && t.view.bytes == p.bytes
    ensures FirstIsLate(t, sys) && Mirrors(t.view, net, sys) && G.AllDrained(net[1])
  {
    var r := GetFar(p);
    t, sys := LateTraffic(p, r), SystemOf(p.setup, p.c, r);
    TakeIntoView(p.setup, p.c, p.bytes, r, p.Start());
    LateIsQuiet(p, r, p.Start());
    FarIsDrained(p, r);
    SendFirst(t, sys);
    SendStep(t.view, r, sys, p.message);
    net := SendAtZero(p.setup, r, p.c, p.message);
    StepWith(p.setup, p.bytes, r, Send(0, p.c, p.message));
    sys := P.Apply(t.Config(), sys, P.Send(p.message, t.MeasuredBits()));
  }

  lemma FarIsDrained<M(!new)>(p: Pair<M>, r: Net<M>)
    requires p.Valid() && WellFormedNet(p.setup, r) && NoErrors(r[1])
    requires OthersRest(p, r, p.Start()) && ReceiverOf(p.setup, r[1], p.c) == NewReceiver()
    ensures G.AllDrained(r[1])
  {
    forall i: nat | i < |p.setup.configs|
      ensures G.Drained(r[1].connection.channels[i])
    {
      assert i != p.c && p.setup.Reliable(i) ==> NextMessage(ReceiverOf(p.setup, r[1], i)) == None;
    }
  }

  lemma SendFirst<M(!new)>(t: Traffic<M>, sys: P.System<M>)
    requires t.Valid() && t.batch == 1 && t.Config().sentPacketBufferSize < HALF
    requires sys.sender == NewSender(sys.sender.time) && sys.receiver == NewReceiver() && sys.accepted == []
    requires t.Config().messageResendTime - 1.0 <= sys.sender.time && t.Quiet(sys.sender.time)
    requires sys.nextPacket == HALF && sys.nextPacket !in sys.acked && OthersClear(t.view, HALF)
    ensures CanSendMessage(t.Config(), sys.sender)
    ensures FirstIsLate(t, P.Apply(t.Config(), sys, P.Send(t.message, t.MeasuredBits())))
  {
  }

  /** 32768 packets of another channel on, a round without loss in which the channel's oldest message has its turn takes
      the message to the other end, and changes nothing for the sender: the packet is not recorded, so its ack says
      nothing. `ConnectionProgress.RoundMakesProgress` needs the ring to take the number. */
  lemma IdleChannelStalls<M(!new)>(p: Pair<M>) returns (net: Net<M>, r: Net<M>)
    requires SetupUsable(p.setup) && p.Valid() && p.setup.configs[p.c].sentPacketBufferSize < HALF
    ensures ReachableWith(p.setup, p.bytes, net) && Enabled(p.setup, net, Generate(0, p.bytes))
    ensures G.AllDrained(net[1]) && ConnectionProgress.HasTurn(p.setup, net[0], p.bytes, p.c)
    ensures G.Legal(p.setup, net, ConnectionProgress.Round(p.setup, net[0], 0, p.bytes))
    ensures r == G.Run(p.setup, net, ConnectionProgress.Round(p.setup, net[0], 0, p.bytes)) && WellFormedNet(p.setup, r)
    ensures var before, after := SenderOf(p.setup, net[0], p.c), SenderOf(p.setup, r[0], p.c);
            && after.oldest == before.oldest < after.next == before.next && after.queue.Keys == before.queue.Keys
            && before.oldest in ReceiverOf(p.setup, r[1], p.c).pending
  {
    var t, sys;
    net, t, sys := GetLate(p);
    r := StalledRound(t, net, sys);
  }

  lemma StalledRound<M(!new)>(t: Traffic<M>, net: Net<M>, sys: P.System<M>) returns (r: Net<M>)
    requires SetupUsable(t.view.setup) && FirstIsLate(t, sys) && Mirrors(t.view, net, sys)
    ensures var setup, c, bytes := t.view.setup, t.view.c, t.view.bytes;
            && Enabled(setup, net, Generate(0, bytes)) && ConnectionProgress.HasTurn(setup, net[0], bytes, c)
            && G.Legal(setup, net, ConnectionProgress.Round(setup, net[0], 0, bytes))
            && r == G.Run(setup, net, ConnectionProgress.Round(setup, net[0], 0, bytes)) && WellFormedNet(setup, r)
            && var before, after := SenderOf(setup, net[0], c), SenderOf(setup, r[0], c);
            && after.oldest == before.oldest < after.next == before.next && after.queue.Keys == before.queue.Keys
            && before.oldest in ReceiverOf(setup, r[1], c).pending
  {
    FirstMaySend(t, sys);
    var sent := P.Apply(t.Config(), sys, P.Generate(BufferRoom(t.view.bytes)));
    FirstIsNotRecorded(t, sys, sent);
    r := RoundIsMirrored(t.view, net, sys, t.Left(), sent);
    FirstHasTurn(t, net, sys);
    FirstStalls(t, sys, sent);
    StalledParts(t.view, net, sys, r,
                 P.Apply(t.Config(), P.Apply(t.Config(), sent, P.Deliver(NextPacketOf(t.view, sys))), P.Ack(HALF)));
  }

  lemma FirstHasTurn<M(!new)>(t: Traffic<M>, net: Net<M>, sys: P.System<M>)
    requires FirstIsLate(t, sys) && Mirrors(t.view, net, sys)
    requires GenerateAt(t.view.setup, net[0], t.view.bytes).Generated?
    requires RoomFor(t.view.setup, net[0], t.view.bytes, t.view.c) == BufferRoom(t.view.bytes)
    ensures ConnectionProgress.HasTurn(t.view.setup, net[0], t.view.bytes, t.view.c)
  {
    MirrorParts(t.view, net, sys);
  }

  lemma StalledParts<M(!new)>(v: View<M>, net: Net<M>, sys: P.System<M>, r: Net<M>, last: P.System<M>)
    requires Mirrors(v, net, sys) && Mirrors(v, r, last)
    ensures WellFormedNet(v.setup, net) && WellFormedNet(v.setup, r)
    ensures SenderOf(v.setup, net[0], v.c) == sys.sender && SenderOf(v.setup, r[0], v.c) == last.sender
    ensures ReceiverOf(v.setup, r[1], v.c) == last.receiver
  {
    MirrorParts(v, net, sys);
    MirrorParts(v, r, last);
  }

  // ---- The default configuration -------------------------------------------------------------

  /** Two default channels in the default packet size of 8192 bytes, with any message of at most 8176 bytes. */
  ghost function DefaultPair<M>(codec: MessageCodec<M>, message: M): Pair<M> {
    var config := Config(ReliableOrdered, 1024, 1024, 1024, 256, None, 0.1);
    Pair(Setup([config, config], codec), 0, 1, 8192, message, message)
  }

  lemma DefaultPairIsValid<M(!new)>(codec: MessageCodec<M>, message: M)
    requires Lawful(codec) && |codec.encode(message)| <= 8176
    ensures SetupUsable(DefaultPair(codec, message).setup) && DefaultPair(codec, message).Valid()
  {
    SlotIsRemainder(MODULUS, 1024);
    OneFits(DefaultPair(codec, message).setup.configs[0], 8 * |codec.encode(message)| + MESSAGE_ID_BITS, 8192);
  }

  lemma OneFits(config: Config, cost: nat, bytes: nat)
    requires config.Valid() && 8 * bytes >= PACKET_HEADER_BITS
    requires config.BitsFor(BufferRoom(bytes)) >= MESSAGE_HEADER_BITS + GIVE_UP_BITS
    requires config.BitsFor(BufferRoom(bytes)) >= MESSAGE_HEADER_BITS + cost
    requires BufferRoom(bytes) >= MESSAGE_HEADER_BITS + cost + CHANNEL_HEADER_BITS
    ensures BatchFits(config, cost, bytes, 1)
  {
    assert P.Times(0, cost) == 0 && P.Times(1, cost) == cost + P.Times(0, cost);
  }

  lemma DefaultPairLoses<M(!new)>(codec: MessageCodec<M>, message: M) returns (net: Net<M>)
    requires Lawful(codec) && |codec.encode(message)| <= 8176
    ensures var setup := DefaultPair(codec, message).setup;
            && SetupUsable(setup) && ReachableWith(setup, 8192, net) && MistakenAckDue(setup, net, 0, MODULUS)
            && var after := net[0 := ApplyAck(setup, net[0], MODULUS)];
            WellFormedNet(setup, after) && !G.LosesNothing(setup, after, 0, 0)
  {
    DefaultPairIsValid(codec, message);
    net := IdleChannelLoses(DefaultPair(codec, message));
  }

  lemma DefaultPairPanics<M(!new)>(codec: MessageCodec<M>, message: M) returns (net: Net<M>)
    requires Lawful(codec) && |codec.encode(message)| <= 8176
    ensures var setup := DefaultPair(codec, message).setup;
            && SetupUsable(setup) && ReachableWith(setup, 8192, net) && MistakenAckDue(setup, net, 0, MODULUS)
            && ApplyAck(setup, net[0], MODULUS).panicked
  {
    DefaultPairIsValid(codec, message);
    net := IdleChannelPanics(DefaultPair(codec, message));
  }
}
