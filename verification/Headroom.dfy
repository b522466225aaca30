/** When generating a packet underflows: exactly, from the configuration, for any number of channels.

    A configuration that is not safe has a run of two new connections, in which each channel sends one message at most,
    to where the next packet underflows. */
module Headroom {
  import opened Wrap16
  import opened Options
  import opened Configs
  import opened Codec
  import opened ReliableSpec
  import opened ConnectionSpec
  import opened ConnectionProtocol
  import opened PacketBudget
  import opened Isolation
  import opened Guarantees
  import opened Mirror
  import C = ChannelSpec
  import U = UnreliableChannel

  // ---- What a channel may take ---------------------------------------------------------------

  /** The bits of a message of `least` bytes. */
  function LeastBits(config: Config, least: nat): nat {
    MESSAGE_HEADER_BITS + 8 * least + if config.kind.ReliableOrdered? then MESSAGE_ID_BITS else 0
  }

  /** With `room` bits left the channel can put a message into the packet, when none is smaller than `least` bytes. */
  predicate MayFill(config: Config, least: nat, room: nat) {
    && config.BitsFor(room) >= MESSAGE_HEADER_BITS + GIVE_UP_BITS && config.BitsFor(room) >= LeastBits(config, least)
    && config.maxMessagesPerPacket > 0 && config.messageSendQueueSize > 0
  }

  /** The bits that messages of the channel can come to: whole bytes, within its budget. */
  predicate MayTake(config: Config, least: nat, room: nat, bits: nat) {
    MayFill(config, least, room) && LeastBits(config, least) <= bits <= config.BitsFor(room) && bits % 8 == 0
  }

  /** What the turn of a channel needs: a reliable channel needs room for the header of a message, and a channel that
      can send must leave room for its own header when it uses all it may. */
  predicate LeavesHeaderRoom(config: Config, least: nat, room: nat) {
    && (config.kind.ReliableOrdered? ==> config.BitsFor(room) >= MESSAGE_HEADER_BITS)
    && (MayFill(config, least, room) ==> config.BitsFor(room) + CHANNEL_HEADER_BITS <= room)
  }

  /** Every channel from `i` on leaves room for headers, whatever room the channels before it may have left. */
  ghost predicate SafeFrom(configs: seq<Config>, least: nat, i: nat, room: nat)
    requires i <= |configs|
    decreases |configs| - i
  {
    i < |configs| ==>
      && LeavesHeaderRoom(configs[i], least, room)
      && SafeFrom(configs, least, i + 1, room)
      && forall bits: nat :: MayTake(configs[i], least, room, bits) ==>
           SafeFrom(configs, least, i + 1, room - CHANNEL_HEADER_BITS - bits)
  }

  /** The buffer holds the header of the packet, and every channel leaves room for the others. */
  ghost predicate Safe(configs: seq<Config>, least: nat, bytes: nat) {
    8 * bytes >= PACKET_HEADER_BITS && SafeFrom(configs, least, 0, BufferRoom(bytes))
  }

  /** No message is smaller than this. */
  ghost predicate AtLeast<M(!new)>(size: M -> nat, least: nat) {
    forall m: M :: size(m) >= least
  }

  // ---- Safe configurations -------------------------------------------------------------------

  lemma {:induction false} CostIsBytes<M(!new)>(s: Sender<M>, size: M -> nat, least: nat, ids: seq<int>)
    requires AtLeast(size, least) && Measured(s, size) && forall k :: k in ids ==> k in s.queue
    ensures TotalCost(s, ids) % 8 == 0 && (ids != [] ==> TotalCost(s, ids) >= 8 * least + MESSAGE_ID_BITS)
    decreases |ids|
  {
    if ids == [] {
    } else {
      assert ids[0] in ids && forall k :: k in ids[1..] ==> k in ids;
      CostIsBytes(s, size, least, ids[1..]);
    }
  }

  lemma {:induction false} TotalIsBytes<M(!new)>(size: M -> nat, least: nat, messages: seq<M>)
    requires AtLeast(size, least)
    ensures U.TotalBits(size, messages) % 8 == 0 && (messages != [] ==> U.TotalBits(size, messages) >= 8 * least)
    decreases |messages|
  {
    if messages == [] {
    } else {
      TotalIsBytes(size, least, messages[1..]);
    }
  }

  /** What a channel reports is what it may take. */
  lemma PartMayBeTaken<M(!new)>(
    config: Config, size: M -> nat, least: nat, c: C.ChannelState<M>, number: u16, room: nat)
    requires AtLeast(size, least) && C.ProcessorValid(config, size, c.processor)
    ensures var bits := C.PacketData(config, size, c, number, room).bits;
            bits == 0 || MayTake(config, least, room, bits)
  {
    match c.processor
    case ReliableState(sender, _) =>
      ChooseMessagesIsSound(config, sender, room);
      CostIsBytes(sender, size, least, ChooseMessages(config, sender, room).ids);
    case UnreliableState(sendQueue, _) =>
      U.FillPacketIsSound(config, size, sendQueue, room);
      TotalIsBytes(size, least, U.FillPacket(config, size, sendQueue, room).sent);
  }

  lemma SafeTurn<M(!new)>(
    configs: seq<Config>, size: M -> nat, least: nat, c: C.ChannelState<M>, number: u16, packing: Packing<M>, i: nat)
    requires i < |configs| && AtLeast(size, least) && C.ProcessorValid(configs[i], size, c.processor)
    requires packing.Packing? && SafeFrom(configs, least, i, packing.room)
    ensures var turn := Turn(configs[i], size, c, number, packing, i);
            turn.Packing? && SafeFrom(configs, least, i + 1, turn.room)
  {
    PartMayBeTaken(configs[i], size, least, c, number, packing.room);
  }

  lemma {:induction false} SafeTurns<M(!new)>(
    configs: seq<Config>, size: M -> nat, least: nat, channels: seq<C.ChannelState<M>>, number: u16, bytes: nat, n: nat)
    requires AtLeast(size, least) && ChannelsValid(configs, size, channels) && n <= |configs|
    requires Safe(configs, least, bytes)
    ensures var packing := Packed(configs, size, channels, number, bytes, n);
            packing.Packing? && SafeFrom(configs, least, n, packing.room)
    decreases n
  {
    if n == 0 {
    } else {
      SafeTurns(configs, size, least, channels, number, bytes, n - 1);
      SafeTurn(configs, size, least, channels[n - 1], number, Packed(configs, size, channels, number, bytes, n - 1),
               n - 1);
    }
  }

  /** So no packet underflows, whatever the channels hold. */
  lemma SafeNeverUnderflows<M(!new)>(
    configs: seq<Config>, size: M -> nat, least: nat, channels: seq<C.ChannelState<M>>, number: u16, bytes: nat)
    requires AtLeast(size, least) && ChannelsValid(configs, size, channels) && Safe(configs, least, bytes)
    ensures ConnectionSpec.Generate(configs, size, channels, number, bytes).Generated?
  {
    SafeTurns(configs, size, least, channels, number, bytes, |configs|);
  }

  // ---- Unsafe configurations -----------------------------------------------------------------

  /** A time at which new messages are due on each of the first `n` channels. */
  function Clock(configs: seq<Config>, n: nat): (r: real)
    requires n <= |configs|
    ensures forall i :: 0 <= i < n ==> configs[i].messageResendTime <= r
  {
    if n == 0 then 0.0
    else
      var before := Clock(configs, n - 1);
      if before < configs[n - 1].messageResendTime then configs[n - 1].messageResendTime else before
  }

  /** A new channel, or one that just took a message. */
  function Picked<M>(config: Config, size: M -> nat, clock: real, pick: Option<M>): C.ChannelState<M> {
    match pick
    case None => C.NewChannel(config, clock)
    case Some(message) => C.Send(config, size, C.NewChannel(config, clock), message)
  }

  /** The first channels took these messages. */
  function ChannelsOf<M>(configs: seq<Config>, size: M -> nat, clock: real, picks: seq<Option<M>>)
    : (r: seq<C.ChannelState<M>>)
    requires |picks| <= |configs|
    ensures |r| == |configs|
    ensures forall i :: 0 <= i < |r| ==>
              r[i] == Picked(configs[i], size, clock, if i < |picks| then picks[i] else None)
  {
    seq(|configs|, i requires 0 <= i < |configs| =>
          Picked(configs[i], size, clock, if i < |picks| then picks[i] else None))
  }

  lemma PickedIsValid<M>(config: Config, size: M -> nat, clock: real, pick: Option<M>)
    requires config.kind.ReliableOrdered? ==> config.Valid()
    ensures C.ProcessorValid(config, size, Picked(config, size, clock, pick).processor)
  {
  }

  ghost predicate AllUsable(configs: seq<Config>) {
    forall i :: 0 <= i < |configs| && configs[i].kind.ReliableOrdered? ==> configs[i].Valid()
  }

  lemma ChannelsOfIsValid<M>(configs: seq<Config>, size: M -> nat, clock: real, picks: seq<Option<M>>)
    requires AllUsable(configs) && |picks| <= |configs|
    ensures ChannelsValid(configs, size, ChannelsOf(configs, size, clock, picks))
  {
    forall i | 0 <= i < |configs|
      ensures C.ProcessorValid(configs[i], size, ChannelsOf(configs, size, clock, picks)[i].processor)
    {
      PickedIsValid(configs[i], size, clock, if i < |picks| then picks[i] else None);
    }
  }

  /** One message of the right size takes exactly these bits. */
  lemma TakesExactly<M>(
    config: Config, size: M -> nat, least: nat, clock: real, message: M, number: u16, room: nat, bits: nat)
    requires config.kind.ReliableOrdered? ==> config.Valid()
    requires config.messageResendTime <= clock
    requires MayTake(config, least, room, bits) && LeastBits(config, size(message)) == bits
    ensures C.PacketData(config, size, Picked(config, size, clock, Some(message)), number, room).bits == bits
    ensures C.HasRoom(config, Picked(config, size, clock, Some(message)), room)
  {
    var available, channel := config.BitsFor(room), Picked(config, size, clock, Some(message));
    match config.kind
    case ReliableOrdered =>
      var s := SendMessage(NewSender(clock), message, 8 * size(message));
      assert 0 in s.queue && Due(config, s, 0) && MESSAGE_HEADER_BITS + Cost(s, 0) == bits;
      SelectNothingDue(config, s, available, 1, bits, 1);
    case UnreliableUnordered =>
      assert channel.processor.sendQueue == [message] && [message][1..] == [];
      assert U.Fill(config.maxMessagesPerPacket, size, [], available, bits, 1) == U.Filling([], [], bits);
  }

  lemma ExactTurn<M>(
    config: Config, size: M -> nat, least: nat, clock: real, message: M, packing: Packing<M>, i: nat, bits: nat)
    requires config.kind.ReliableOrdered? ==> config.Valid()
    requires config.messageResendTime <= clock && packing.Packing?
    requires MayTake(config, least, packing.room, bits) && LeastBits(config, size(message)) == bits
    ensures var turn := Turn(config, size, Picked(config, size, clock, Some(message)), 0, packing, i);
            if CHANNEL_HEADER_BITS + bits <= packing.room
            then turn.Packing? && turn.room == packing.room - CHANNEL_HEADER_BITS - bits
            else turn.Underflow?
  {
    TakesExactly(config, size, least, clock, message, 0, packing.room, bits);
  }

  /** Messages of every size from `least` on. */
  ghost predicate Sized<M(!new)>(size: M -> nat, sized: nat -> M, least: nat) {
    AtLeast(size, least) && forall n: nat :: n >= least ==> size(sized(n)) == n
  }

  lemma MessageOf<M(!new)>(config: Config, size: M -> nat, sized: nat -> M, least: nat, room: nat, bits: nat)
    returns (message: M)
    requires MayTake(config, least, room, bits) && Sized(size, sized, least)
    ensures LeastBits(config, size(message)) == bits
  {
    var bytes := BytesIn(bits, LeastBits(config, 0), least);
    message := sized(bytes);
  }

  /** Whole bytes past the headers. */
  lemma BytesIn(bits: nat, headers: nat, least: nat) returns (bytes: nat)
    requires bits % 8 == 0 && headers % 8 == 0 && headers + 8 * least <= bits
    ensures headers + 8 * bytes == bits && bytes >= least
  {
    bytes := (bits - headers) / 8;
  }

  /** The packing before the turn of channel `n` does not depend on what that channel or a later one holds. */
  lemma {:induction false} PackedDependsOnEarlier<M>(
    configs: seq<Config>, size: M -> nat, channels: seq<C.ChannelState<M>>, channels': seq<C.ChannelState<M>>,
    number: u16, bytes: nat, n: nat)
    requires ChannelsUsable(configs, channels) && ChannelsUsable(configs, channels') && n <= |channels|
    requires forall i :: 0 <= i < n ==> channels[i] == channels'[i]
    ensures Packed(configs, size, channels', number, bytes, n) == Packed(configs, size, channels, number, bytes, n)
    decreases n
  {
    if n == 0 {
    } else {
      PackedDependsOnEarlier(configs, size, channels, channels', number, bytes, n - 1);
    }
  }

  lemma UnderflowStays<M>(
    configs: seq<Config>, size: M -> nat, channels: seq<C.ChannelState<M>>, number: u16, bytes: nat, i: nat)
    requires ChannelsUsable(configs, channels) && i <= |channels|
    requires Packed(configs, size, channels, number, bytes, i).Underflow?
    ensures Packed(configs, size, channels, number, bytes, |channels|).Underflow?
  {
    if Packed(configs, size, channels, number, bytes, |channels|).Packing? {
      PackedBefore(configs, size, channels, number, bytes, |channels|, i);
    }
  }

  /** The packing after the turns of the channels that messages are picked for. */
  ghost function PackedBy<M>(configs: seq<Config>, size: M -> nat, picks: seq<Option<M>>, bytes: nat): Packing<M>
    requires AllUsable(configs) && |picks| <= |configs|
  {
    ChannelsOfIsValid(configs, size, Clock(configs, |configs|), picks);
    Packed(configs, size, ChannelsOf(configs, size, Clock(configs, |configs|), picks), 0, bytes, |picks|)
  }

  /** One more pick is one more turn. */
  lemma PickOneMore<M>(configs: seq<Config>, size: M -> nat, picks: seq<Option<M>>, pick: Option<M>, bytes: nat, i: nat)
    requires AllUsable(configs) && |picks| == i < |configs| && PackedBy(configs, size, picks, bytes).Packing?
    ensures PackedBy(configs, size, picks + [pick], bytes)
         == Turn(configs[i], size, Picked(configs[i], size, Clock(configs, |configs|), pick), 0,
                 PackedBy(configs, size, picks, bytes), i)
  {
    var clock, more := Clock(configs, |configs|), picks + [pick];
    ChannelsOfIsValid(configs, size, clock, picks);
    ChannelsOfIsValid(configs, size, clock, more);
    TurnOfPick(configs, size, ChannelsOf(configs, size, clock, picks), ChannelsOf(configs, size, clock, more), bytes, i,
               |more|);
  }

  /** The channels differ in what channel `i` holds. */
  lemma TurnOfPick<M>(
    configs: seq<Config>, size: M -> nat, channels: seq<C.ChannelState<M>>, channels': seq<C.ChannelState<M>>,
    bytes: nat, i: nat, n: nat)
    requires ChannelsUsable(configs, channels) && ChannelsUsable(configs, channels') && n == i + 1 <= |channels|
    requires forall j :: 0 <= j < i ==> channels[j] == channels'[j]
    requires Packed(configs, size, channels, 0, bytes, i).Packing?
    ensures Packed(configs, size, channels', 0, bytes, n)
         == Turn(configs[i], size, channels'[i], 0, Packed(configs, size, channels, 0, bytes, i), i)
  {
    PackedDependsOnEarlier(configs, size, channels, channels', 0, bytes, i);
    LastTurn(configs, size, channels', 0, bytes, i, n);
  }

  /** These picks leave `room` bits. */
  ghost predicate Leaves<M>(configs: seq<Config>, size: M -> nat, picks: seq<Option<M>>, bytes: nat, room: nat) {
    && AllUsable(configs) && |picks| <= |configs| && room % 8 == 0
    && PackedBy(configs, size, picks, bytes).Packing? && PackedBy(configs, size, picks, bytes).room == room
  }

  /** These picks make the packet underflow. */
  ghost predicate Underflows<M>(configs: seq<Config>, size: M -> nat, picks: seq<Option<M>>, bytes: nat) {
    AllUsable(configs) && |picks| <= |configs| && PackedBy(configs, size, picks, bytes).Underflow?
  }

  lemma TakeBits<M(!new)>(
    configs: seq<Config>, size: M -> nat, sized: nat -> M, least: nat, picks: seq<Option<M>>, bytes: nat,
    i: nat, room: nat, bits: nat)
    returns (r: seq<Option<M>>)
    requires Sized(size, sized, least) && Leaves(configs, size, picks, bytes, room) && |picks| == i < |configs|
    requires MayTake(configs[i], least, room, bits)
    ensures |r| == i + 1
    ensures if CHANNEL_HEADER_BITS + bits <= room
            then Leaves(configs, size, r, bytes, room - CHANNEL_HEADER_BITS - bits)
            else Underflows(configs, size, r, bytes)
  {
    var message := MessageOf(configs[i], size, sized, least, room, bits);
    PickOneMore(configs, size, picks, Some(message), bytes, i);
    var packing := PackedBy(configs, size, picks, bytes);
    ExactTurn(configs[i], size, least, Clock(configs, |configs|), message, packing, i, bits);
    BytesLeft(room, bits);
    r := picks + [Some(message)];
  }

  lemma BytesLeft(room: nat, bits: nat)
    requires room % 8 == 0 && bits % 8 == 0
    ensures (room - CHANNEL_HEADER_BITS - bits) % 8 == 0
  {
  }

  /** Where there is no room for a header, some message makes the turn underflow. */
  lemma TurnUnderflows<M(!new)>(
    configs: seq<Config>, size: M -> nat, sized: nat -> M, least: nat, picks: seq<Option<M>>, bytes: nat,
    i: nat, room: nat)
    returns (r: seq<Option<M>>)
    requires Sized(size, sized, least) && Leaves(configs, size, picks, bytes, room) && |picks| == i < |configs|
    requires !LeavesHeaderRoom(configs[i], least, room)
    ensures |r| == i + 1 && Underflows(configs, size, r, bytes)
  {
    if configs[i].kind.ReliableOrdered? && configs[i].BitsFor(room) < MESSAGE_HEADER_BITS {
      r := picks + [Some(sized(least))];
      PickOneMore(configs, size, picks, Some(sized(least)), bytes, i);
    } else {
      r := TakeBits(configs, size, sized, least, picks, bytes, i, room, configs[i].BitsFor(room));
    }
  }

  lemma TakeNothing<M(!new)>(
    configs: seq<Config>, size: M -> nat, picks: seq<Option<M>>, bytes: nat, i: nat, room: nat)
    requires Leaves(configs, size, picks, bytes, room) && |picks| == i < |configs|
    ensures Leaves(configs, size, picks + [None], bytes, room)
  {
    PickOneMore(configs, size, picks, None, bytes, i);
    PassiveTurn(configs[i], size, Picked(configs[i], size, Clock(configs, |configs|), None), 0,
                PackedBy(configs, size, picks, bytes), i, 0);
  }

  lemma {:induction false} FindUnderflow<M(!new)>(
    configs: seq<Config>, size: M -> nat, sized: nat -> M, least: nat, picks: seq<Option<M>>, bytes: nat,
    i: nat, room: nat)
    returns (r: seq<Option<M>>)
    requires Sized(size, sized, least) && Leaves(configs, size, picks, bytes, room) && |picks| == i <= |configs|
    requires !SafeFrom(configs, least, i, room)
    ensures Underflows(configs, size, r, bytes)
    decreases |configs| - i
  {
    if !LeavesHeaderRoom(configs[i], least, room) {
      r := TurnUnderflows(configs, size, sized, least, picks, bytes, i, room);
    } else if !SafeFrom(configs, least, i + 1, room) {
      TakeNothing(configs, size, picks, bytes, i, room);
      r := FindUnderflow(configs, size, sized, least, picks + [None], bytes, i + 1, room);
    } else {
      var bits: nat :| MayTake(configs[i], least, room, bits)
                       && !SafeFrom(configs, least, i + 1, room - CHANNEL_HEADER_BITS - bits);
      var taken := TakeBits(configs, size, sized, least, picks, bytes, i, room, bits);
      r := FindUnderflow(configs, size, sized, least, taken, bytes, i + 1, room - CHANNEL_HEADER_BITS - bits);
    }
  }

  // ---- Connections ---------------------------------------------------------------------------

  /** The channels of end 0 took these messages, and nothing else happened. */
  ghost predicate TookPicks<M>(setup: Setup<M>, net: Net<M>, picks: seq<Option<M>>) {
    && WellFormedNet(setup, net) && !net[0].panicked && net[0].nextPacket == 0 && |picks| <= |setup.configs|
    && net[0].connection.channels
       == ChannelsOf(setup.configs, setup.Size(), Clock(setup.configs, |setup.configs|), picks)
  }

  lemma StartTook<M(!new)>(setup: Setup<M>, bytes: nat) returns (net: Net<M>)
    requires SetupUsable(setup)
    ensures ReachableWith(setup, bytes, net) && TookPicks(setup, net, [])
  {
    var clock := Clock(setup.configs, |setup.configs|);
    net := Initial(setup, clock, clock);
    assert ReachedWith<M>(setup, bytes, clock, clock, [], net);
    NewEndIsWellFormed<M>(setup, clock);
  }

  lemma SendPick<M(!new)>(setup: Setup<M>, bytes: nat, net: Net<M>, picks: seq<Option<M>>, message: M, i: nat)
    returns (r: Net<M>)
    requires SetupUsable(setup) && ReachableWith(setup, bytes, net) && TookPicks(setup, net, picks)
    requires |picks| == i < |setup.configs|
    ensures ReachableWith(setup, bytes, r) && TookPicks(setup, r, picks + [Some(message)])
  {
    r := SendAtZero(setup, net, i, message);
    StepWith(setup, bytes, net, Send(0, i, message));
    ChannelsTook(setup, net[0].connection.channels, picks, message, i);
  }

  lemma ChannelsTook<M>(
    setup: Setup<M>, channels: seq<C.ChannelState<M>>, picks: seq<Option<M>>, message: M, i: nat)
    requires |picks| == i < |setup.configs|
    requires channels == ChannelsOf(setup.configs, setup.Size(), Clock(setup.configs, |setup.configs|), picks)
    ensures channels[i := C.Send(setup.configs[i], setup.Size(), channels[i], message)]
         == ChannelsOf(setup.configs, setup.Size(), Clock(setup.configs, |setup.configs|), picks + [Some(message)])
  {
  }

  lemma LastPick<T>(picks: seq<T>, i: nat)
    requires |picks| == i + 1
    ensures picks == picks[..i] + [picks[i]]
  {
  }

  /** Two new connections get there. */
  lemma {:induction false} SendPicks<M(!new)>(setup: Setup<M>, bytes: nat, picks: seq<Option<M>>)
    returns (net: Net<M>)
    requires SetupUsable(setup) && |picks| <= |setup.configs|
    ensures ReachableWith(setup, bytes, net) && TookPicks(setup, net, picks)
    decreases |picks|
  {
    if picks == [] {
      net := StartTook(setup, bytes);
    } else {
      var i := |picks| - 1;
      var before := SendPicks(setup, bytes, picks[..i]);
      LastPick(picks, i);
      if picks[i].Some? {
        net := SendPick(setup, bytes, before, picks[..i], picks[i].value, i);
      } else {
        net := before;
        SkipPick(setup, net, picks[..i], i);
      }
    }
  }

  lemma SkipPick<M>(setup: Setup<M>, net: Net<M>, picks: seq<Option<M>>, i: nat)
    requires TookPicks(setup, net, picks) && |picks| == i < |setup.configs|
    ensures TookPicks(setup, net, picks + [None])
  {
    assert ChannelsOf(setup.configs, setup.Size(), Clock(setup.configs, |setup.configs|), picks + [None])
        == ChannelsOf(setup.configs, setup.Size(), Clock(setup.configs, |setup.configs|), picks);
  }

  /** End `e` panics when it generates a packet in a buffer of this size. */
  ghost predicate PanicsAt<M(!new)>(setup: Setup<M>, net: Net<M>, e: nat, bytes: nat)
    requires Supported(setup.configs)
  {
    Enabled(setup, net, Generate(e, bytes)) && Apply(setup, net, Generate(e, bytes))[e].panicked
  }

  /** No state that two connections can get to panics so. */
  ghost predicate NeverPanics<M(!new)>(setup: Setup<M>, bytes: nat)
    requires Supported(setup.configs)
  {
    forall net: Net<M>, e: nat :: ReachableWith(setup, bytes, net) && e < 2 ==> !PanicsAt(setup, net, e, bytes)
  }

  lemma UnderflowPanics<M(!new)>(setup: Setup<M>, net: Net<M>, picks: seq<Option<M>>, bytes: nat)
    requires SetupUsable(setup) && TookPicks(setup, net, picks) && bytes > 0 && setup.configs != []
    requires Underflows(setup.configs, setup.Size(), picks, bytes)
    ensures PanicsAt(setup, net, 0, bytes)
  {
    UnderflowStays(setup.configs, setup.Size(), net[0].connection.channels, 0, bytes, |picks|);
  }

  lemma UsableConfigs<M(!new)>(setup: Setup<M>)
    requires SetupUsable(setup)
    ensures AllUsable(setup.configs)
  {
    forall i: nat | i < |setup.configs| && setup.configs[i].kind.ReliableOrdered?
      ensures setup.configs[i].Valid()
    {
      assert setup.Reliable(i);
    }
  }

  /** A configuration that is not safe has a run to where the next packet underflows. */
  lemma UnsafePanics<M(!new)>(setup: Setup<M>, sized: nat -> M, least: nat, bytes: nat) returns (net: Net<M>)
    requires SetupUsable(setup) && setup.configs != [] && bytes > 0 && Sized(setup.Size(), sized, least)
    requires !Safe(setup.configs, least, bytes)
    ensures ReachableWith(setup, bytes, net) && PanicsAt(setup, net, 0, bytes)
  {
    UsableConfigs(setup);
    var picks: seq<Option<M>> := [];
    if 8 * bytes >= PACKET_HEADER_BITS {
      assert Leaves(setup.configs, setup.Size(), picks, bytes, BufferRoom(bytes));
      picks := FindUnderflow(setup.configs, setup.Size(), sized, least, picks, bytes, 0, BufferRoom(bytes));
    } else {
      assert Underflows(setup.configs, setup.Size(), picks, bytes);
    }
    net := SendPicks(setup, bytes, picks);
    UnderflowPanics(setup, net, picks, bytes);
  }

  lemma SafeDoesNotPanic<M(!new)>(setup: Setup<M>, least: nat, net: Net<M>, e: nat, bytes: nat)
    requires SetupUsable(setup) && AtLeast(setup.Size(), least) && Safe(setup.configs, least, bytes) && e < 2
    ensures !PanicsAt(setup, net, e, bytes)
  {
    if Enabled(setup, net, Generate(e, bytes)) {
      SafeNeverUnderflows(setup.configs, setup.Size(), least, net[e].connection.channels, Wrap(net[e].nextPacket),
                          bytes);
    }
  }

  // ---- The exact condition -------------------------------------------------------------------

  /** When there are messages of every size from `least` bytes on and none smaller: no state that two connections can
      get to underflows if and only if the buffer holds the header of the packet and every channel, in turn, leaves room
      for headers whatever the channels before it took. */
  lemma NeverUnderflowsIff<M(!new)>(setup: Setup<M>, sized: nat -> M, least: nat, bytes: nat)
    requires SetupUsable(setup) && setup.configs != [] && bytes > 0 && Sized(setup.Size(), sized, least)
    ensures NeverPanics(setup, bytes) <==> Safe(setup.configs, least, bytes)
  {
    if Safe(setup.configs, least, bytes) {
      forall net: Net<M>, e: nat | ReachableWith(setup, bytes, net) && e < 2
        ensures !PanicsAt(setup, net, e, bytes)
      {
        SafeDoesNotPanic(setup, least, net, e, bytes);
      }
    } else {
      var net := UnsafePanics(setup, sized, least, bytes);
    }
  }

  lemma {:induction false} SafeWithoutEarlier(configs: seq<Config>, least: nat, i: nat, room: nat)
    requires i <= |configs| && SafeFrom(configs, least, 0, room)
    ensures SafeFrom(configs, least, i, room)
  {
    if i == 0 {
    } else {
      SafeWithoutEarlier(configs, least, i - 1, room);
    }
  }

  /** So every channel must leave room for headers in a buffer of its own, which it has when the others are empty. */
  lemma EveryChannelLeavesHeaderRoom<M(!new)>(setup: Setup<M>, sized: nat -> M, least: nat, bytes: nat, i: nat)
    requires SetupUsable(setup) && i < |setup.configs| && bytes > 0 && Sized(setup.Size(), sized, least)
    requires NeverPanics(setup, bytes)
    ensures 8 * bytes >= PACKET_HEADER_BITS && LeavesHeaderRoom(setup.configs[i], least, BufferRoom(bytes))
  {
    NeverUnderflowsIff(setup, sized, least, bytes);
    SafeWithoutEarlier(setup.configs, least, i, BufferRoom(bytes));
  }

  /** And one channel without a budget is enough for two connections to get to where a packet underflows, in a buffer
      that has room for a message. */
  lemma OneWithoutBudgetUnderflows<M(!new)>(setup: Setup<M>, sized: nat -> M, least: nat, bytes: nat, i: nat)
    returns (net: Net<M>)
    requires SetupUsable(setup) && Sized(setup.Size(), sized, least)
    requires i < |setup.configs| && setup.configs[i].packetBudget.None? && setup.configs[i].messageSendQueueSize > 0
    requires BufferRoom(bytes) >= MESSAGE_HEADER_BITS + GIVE_UP_BITS
    requires BufferRoom(bytes) >= LeastBits(setup.configs[i], least)
    ensures ReachableWith(setup, bytes, net) && PanicsAt(setup, net, 0, bytes)
  {
    if Safe(setup.configs, least, bytes) {
      SafeWithoutEarlier(setup.configs, least, i, BufferRoom(bytes));
      assert false;
    }
    net := UnsafePanics(setup, sized, least, bytes);
  }

  /** A channel alone never underflows exactly when its configuration leaves room for the headers. */
  lemma AloneNeverUnderflowsIff<M(!new)>(setup: Setup<M>, sized: nat -> M, least: nat, bytes: nat)
    requires SetupUsable(setup) && |setup.configs| == 1 && bytes > 0 && Sized(setup.Size(), sized, least)
    ensures NeverPanics(setup, bytes)
       <==> 8 * bytes >= PACKET_HEADER_BITS && LeavesHeaderRoom(setup.configs[0], least, BufferRoom(bytes))
  {
    NeverUnderflowsIff(setup, sized, least, bytes);
    AloneIsSafe(setup.configs, least, bytes);
  }

  lemma AloneIsSafe(configs: seq<Config>, least: nat, bytes: nat)
    requires |configs| == 1
    ensures Safe(configs, least, bytes)
       <==> 8 * bytes >= PACKET_HEADER_BITS && LeavesHeaderRoom(configs[0], least, BufferRoom(bytes))
  {
    if 8 * bytes >= PACKET_HEADER_BITS {
      LastIsSafe(configs, least, 0, 1, BufferRoom(bytes));
    }
  }

  lemma LastIsSafe(configs: seq<Config>, least: nat, i: nat, n: nat, room: nat)
    requires n == i + 1 == |configs|
    ensures SafeFrom(configs, least, i, room) <==> LeavesHeaderRoom(configs[i], least, room)
  {
    forall left: nat
      ensures SafeFrom(configs, least, n, left)
    {
    }
  }

  /** One default channel in the default packet size of 8192 bytes: a message of 8184 bytes fills the packet, and
      nothing is left for the header of the channel. */
  lemma DefaultConfigUnderflows<M(!new)>(codec: MessageCodec<M>, message: M) returns (net: Net<M>)
    requires Lawful(codec) && |codec.encode(message)| == 8184
    ensures var setup := Setup([Config(ReliableOrdered, 1024, 1024, 1024, 256, None, 0.1)], codec);
            SetupUsable(setup) && ReachableWith(setup, 8192, net) && PanicsAt(setup, net, 0, 8192)
  {
    SlotIsRemainder(MODULUS, 1024);
    var setup := Setup([Config(ReliableOrdered, 1024, 1024, 1024, 256, None, 0.1)], codec);
    UsableConfigs(setup);
    net := SendPicks(setup, 8192, [Some(message)]);
    FillsThePacket(setup.configs, setup.Size(), message);
    UnderflowPanics(setup, net, [Some(message)], 8192);
  }

  lemma FillsThePacket<M>(configs: seq<Config>, size: M -> nat, message: M)
    requires configs == [Config(ReliableOrdered, 1024, 1024, 1024, 256, None, 0.1)] && AllUsable(configs)
    requires size(message) == 8184
    ensures Underflows(configs, size, [Some(message)], 8192)
  {
    var none: seq<Option<M>> := [];
    PickOneMore(configs, size, none, Some(message), 8192, 0);
    assert none + [Some(message)] == [Some(message)];
    ExactTurn(configs[0], size, 8184, Clock(configs, 1), message, PackedBy(configs, size, none, 8192), 0,
              BufferRoom(8192));
  }

  // ---- Messages of every size ----------------------------------------------------------------

  /** Numbers in unary: as many ones, and a zero. */
  function Unary(n: nat): (r: seq<byte>)
    ensures |r| == n + 1
  {
    if n == 0 then [0] else [1] + Unary(n - 1)
  }

  function ReadUnary(input: seq<byte>): Option<(nat, nat)> {
    if input == [] then None
    else if input[0] == 0 then Some((0, 1))
    else
      match ReadUnary(input[1..])
      case None => None
      case Some((n, size)) => Some((n + 1, size + 1))
  }

  lemma {:induction false} UnaryRoundTrip(n: nat, rest: seq<byte>)
    ensures ReadUnary(Unary(n) + rest) == Some((n, n + 1))
    decreases n
  {
    if n == 0 {
    } else {
      assert (Unary(n) + rest)[1..] == Unary(n - 1) + rest;
      UnaryRoundTrip(n - 1, rest);
    }
  }

  lemma {:induction false} ReadUnaryStays(input: seq<byte>)
    ensures ReadUnary(input).Some? ==> ReadUnary(input).value.1 <= |input|
    decreases |input|
  {
    if input == [] {
    } else {
      ReadUnaryStays(input[1..]);
    }
  }

  /** The hypotheses on messages can be met. */
  lemma SomeMessagesAreSized() returns (codec: MessageCodec<nat>, sized: nat -> nat)
    ensures Lawful(codec) && Sized(SizeOf(codec), sized, 1)
  {
    codec := MessageCodec(Unary, ReadUnary);
    sized := n => if n == 0 then 0 else n - 1;
    forall n: nat
      ensures SizeOf(codec)(n) == n + 1
    {
      assert codec.encode(n) == Unary(n);
    }
    forall n: nat, rest: seq<byte>
      ensures codec.decode(codec.encode(n) + rest) == Some((n, |codec.encode(n)|))
    {
      UnaryRoundTrip(n, rest);
    }
    forall input: seq<byte>
      ensures codec.decode(input).Some? ==> codec.decode(input).value.1 <= |input|
    {
      ReadUnaryStays(input);
    }
  }
}
