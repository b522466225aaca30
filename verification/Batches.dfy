/** How many messages of a reliable channel a packet can hold, from the size of the buffer and of the smallest message,
    and what follows when that is fewer than the configuration allows.

    A connection whose packets never hold more than `n` messages of a channel does what it would do if the channel were
    configured for `n`: its runs are runs of the smaller configuration, but for panics. */
module Batches {
  import opened Wrap16
  import opened Options
  import opened Configs
  import opened Codec
  import opened ReliableSpec
  import opened ConnectionSpec
  import opened ConnectionProtocol
  import opened PacketBudget
  import opened Lanes
  import opened Isolation
  import opened Guarantees
  import opened Mirror
  import C = ChannelSpec
  import P = Protocol
  import U = UnreliableChannel

  /** A packet of `n` messages that take `cost` bits each, and the headers, fits the buffer and the budget, and fewer
      than 32 bits are not left before the last. */
  ghost predicate BatchFits(config: Config, cost: nat, bytes: nat, n: nat) {
    && 1 <= n <= P.BatchLimit(config) && 8 * bytes >= PACKET_HEADER_BITS
    && MESSAGE_HEADER_BITS + P.Times(n, cost) <= config.BitsFor(BufferRoom(bytes))
    && MESSAGE_HEADER_BITS + P.Times(n - 1, cost) + GIVE_UP_BITS <= config.BitsFor(BufferRoom(bytes))
    && MESSAGE_HEADER_BITS + P.Times(n, cost) + CHANNEL_HEADER_BITS <= BufferRoom(bytes)
  }

  /** With batches of this size too few messages can be sent while a recorded packet is live for an id to come round. */
  ghost predicate BatchOutlives(config: Config, n: nat)
    requires config.Valid()
  {
    (config.sentPacketBufferSize - 1) * n + config.messageSendQueueSize + config.MessageLimit() <= MODULUS
  }

  lemma FewerFit(config: Config, cost: nat, bytes: nat, m: nat, n: nat)
    requires BatchFits(config, cost, bytes, n) && 1 <= m <= n
    ensures BatchFits(config, cost, bytes, m) && P.Times(m, cost) <= P.Times(n, cost)
  {
    TimesGrows(m, n, cost);
    TimesGrows(m - 1, n - 1, cost);
  }

  lemma {:induction false} TimesGrows(m: nat, n: nat, cost: nat)
    requires m <= n
    ensures P.Times(m, cost) <= P.Times(n, cost)
    decreases n
  {
    if m == n {
    } else {
      TimesGrows(m, n - 1, cost);
    }
  }

  // ---- The largest batch ---------------------------------------------------------------------

  /** The largest batch of at most `n` messages that fits, or 0. */
  ghost function LargestUpTo(config: Config, cost: nat, bytes: nat, n: nat): (r: nat)
    ensures r <= n && (r > 0 ==> BatchFits(config, cost, bytes, r))
    ensures forall m: nat :: m <= n && BatchFits(config, cost, bytes, m) ==> m <= r
  {
    if n == 0 then 0
    else if BatchFits(config, cost, bytes, n) then n
    else LargestUpTo(config, cost, bytes, n - 1)
  }

  /** The configuration that allows no more messages in a packet than fit. */
  ghost function Reduced(config: Config, cost: nat, bytes: nat): Config {
    if config.kind.UnreliableUnordered? then config
    else
      var most := LargestUpTo(config, cost, bytes, P.BatchLimit(config));
      config.(maxMessagesPerPacket := if most == 0 then 1 else most)
  }

  /** The two differ in how many messages a packet may hold, at most. */
  ghost predicate Reduces(config: Config, r: Config) {
    && 1 <= r.maxMessagesPerPacket <= config.maxMessagesPerPacket
    && r == config.(maxMessagesPerPacket := r.maxMessagesPerPacket)
  }

  lemma ReducedReduces(config: Config, cost: nat, bytes: nat)
    requires config.kind.ReliableOrdered? ==> config.Valid()
    requires config.maxMessagesPerPacket >= 1
    ensures Reduces(config, Reduced(config, cost, bytes))
    ensures config.kind.ReliableOrdered? ==> Reduced(config, cost, bytes).Valid()
  {
  }

  /** Every batch that fits keeps the bound. */
  ghost predicate BatchesOutlive(config: Config, cost: nat, bytes: nat)
    requires config.Valid()
  {
    forall n: nat :: BatchFits(config, cost, bytes, n) ==> BatchOutlives(config, n)
  }

  /** Then so does the smaller configuration. */
  lemma ReducedOutlives(config: Config, cost: nat, bytes: nat)
    requires config.Valid() && BatchesOutlive(config, cost, bytes)
    ensures Reduced(config, cost, bytes).Valid() && P.IdsOutliveAcks(Reduced(config, cost, bytes))
  {
    var r, most := Reduced(config, cost, bytes), LargestUpTo(config, cost, bytes, P.BatchLimit(config));
    assert P.BatchLimit(r) == r.maxMessagesPerPacket;
    if most > 0 {
      assert BatchOutlives(config, most);
    }
  }

  // ---- Choosing messages ---------------------------------------------------------------------

  /** No queued message takes less than this. */
  ghost predicate AllCost<M>(s: Sender<M>, cost: nat) {
    forall k :: k in s.queue ==> Cost(s, k) >= cost
  }

  /** When few are chosen, it does not matter that no more may be. */
  lemma {:induction false} SelectReduced<M>(
    config: Config, r: Config, s: Sender<M>, available: nat, i: nat, used: nat, count: nat)
    requires Reduces(config, r) && used <= available && i <= config.MessageLimit()
    requires count + |Select(config, s, available, i, used, count).ids| <= r.maxMessagesPerPacket
    ensures Select(r, s, available, i, used, count) == Select(config, s, available, i, used, count)
    decreases config.MessageLimit() - i
  {
    var k := s.oldest + i;
    if i >= config.MessageLimit() || available < used + GIVE_UP_BITS || count >= config.maxMessagesPerPacket {
    } else if k in s.queue && Due(config, s, k) && used + Cost(s, k) <= available {
      SelectReduced(config, r, s, available, i + 1, used + Cost(s, k), count + 1);
    } else if count >= r.maxMessagesPerPacket {
      SelectIsSound(config, s, available, i, used, count);
    } else {
      SelectReduced(config, r, s, available, i + 1, used, count);
    }
  }

  /** What is chosen takes its room, and the last message is chosen only with 32 bits left before it. */
  lemma {:induction false} SelectTakesRoom<M>(
    config: Config, s: Sender<M>, available: nat, i: nat, used: nat, count: nat, cost: nat)
    requires AllCost(s, cost) && used <= available
    ensures var sel := Select(config, s, available, i, used, count);
            && used + P.Times(|sel.ids|, cost) <= sel.bits <= available
            && (sel.ids != [] ==> used + P.Times(|sel.ids| - 1, cost) + GIVE_UP_BITS <= available)
    decreases config.MessageLimit() - i
  {
    var k := s.oldest + i;
    if i >= config.MessageLimit() || available < used + GIVE_UP_BITS || count >= config.maxMessagesPerPacket {
    } else if k in s.queue && Due(config, s, k) && used + Cost(s, k) <= available {
      SelectTakesRoom(config, s, available, i + 1, used + Cost(s, k), count + 1, cost);
    } else {
      SelectTakesRoom(config, s, available, i + 1, used, count, cost);
    }
  }

  /** A choice that leaves room for the header of the channel is a batch that fits the buffer. */
  lemma ChoiceFits<M>(config: Config, s: Sender<M>, room: nat, cost: nat, bytes: nat)
    requires config.Valid() && AllCost(s, cost) && room <= BufferRoom(bytes)
    requires var chosen := ChooseMessages(config, s, room);
             chosen.ids != [] && chosen.bits + CHANNEL_HEADER_BITS <= room
    ensures BatchFits(config, cost, bytes, |ChooseMessages(config, s, room).ids|)
  {
    ChooseMessagesIsSound(config, s, room);
    SelectTakesRoom(config, s, config.BitsFor(room), 0, MESSAGE_HEADER_BITS, 0, cost);
  }

  lemma ChooseReduced<M>(config: Config, s: Sender<M>, room: nat, cost: nat, bytes: nat)
    requires config.Valid() && AllCost(s, cost) && room <= BufferRoom(bytes)
    requires HasMessagesToSend(s) ==> config.BitsFor(room) >= MESSAGE_HEADER_BITS
    requires var chosen := ChooseMessages(config, s, room);
             chosen.ids != [] ==> chosen.bits + CHANNEL_HEADER_BITS <= room
    ensures ChooseMessages(Reduced(config, cost, bytes), s, room) == ChooseMessages(config, s, room)
  {
    if HasMessagesToSend(s) {
      ReducedReduces(config, cost, bytes);
      ChooseMessagesIsSound(config, s, room);
      if ChooseMessages(config, s, room).ids != [] {
        ChoiceFits(config, s, room, cost, bytes);
      }
      SelectReduced(config, Reduced(config, cost, bytes), s, config.BitsFor(room), 0, MESSAGE_HEADER_BITS, 0);
    }
  }

  // ---- Packets -------------------------------------------------------------------------------

  /** No message takes less than this on a reliable channel. */
  ghost predicate CostsAtLeast<M(!new)>(size: M -> nat, cost: nat) {
    forall m: M :: 8 * size(m) + MESSAGE_ID_BITS >= cost
  }

  lemma TurnReduced<M(!new)>(
    config: Config, size: M -> nat, c: C.ChannelState<M>, number: u16, packing: Packing<M>, i: nat, cost: nat,
    bytes: nat)
    requires CostsAtLeast(size, cost) && C.ProcessorValid(config, size, c.processor)
    requires packing.Packing? && packing.room <= BufferRoom(bytes)
    requires Turn(config, size, c, number, packing, i).Packing?
    ensures c.processor.ReliableState? ==> Reduced(config, cost, bytes).Valid()
    ensures Turn(Reduced(config, cost, bytes), size, c, number, packing, i)
         == Turn(config, size, c, number, packing, i)
    ensures Turn(config, size, c, number, packing, i).room <= BufferRoom(bytes)
    ensures C.AfterPacketData(Reduced(config, cost, bytes), size, c, number, packing.room)
         == C.AfterPacketData(config, size, c, number, packing.room)
    ensures c.processor.ReliableState? ==>
              ChooseMessages(Reduced(config, cost, bytes), c.processor.sender, packing.room)
              == ChooseMessages(config, c.processor.sender, packing.room)
  {
    match c.processor
    case ReliableState(sender, _) =>
      ReducedReduces(config, cost, bytes);
      ChooseMessagesIsSound(config, sender, packing.room);
      ChooseReduced(config, sender, packing.room, cost, bytes);
    case UnreliableState(_, _) =>
  }

  /** The configurations in which no reliable channel may put more messages into a packet than fit. */
  ghost function ReducedAll(configs: seq<Config>, cost: nat, bytes: nat): (r: seq<Config>)
    ensures |r| == |configs| && forall i :: 0 <= i < |r| ==> r[i] == Reduced(configs[i], cost, bytes)
  {
    seq(|configs|, i requires 0 <= i < |configs| => Reduced(configs[i], cost, bytes))
  }

  /** What is asked of the configurations and the messages. */
  ghost predicate Fixed<M(!new)>(configs: seq<Config>, size: M -> nat, cost: nat) {
    && Supported(configs) && CostsAtLeast(size, cost)
    && forall i :: 0 <= i < |configs| && configs[i].kind.ReliableOrdered? ==> configs[i].Valid()
  }

  lemma ReducedIsUsable(configs: seq<Config>, cost: nat, bytes: nat)
    requires Supported(configs)
    requires forall i :: 0 <= i < |configs| && configs[i].kind.ReliableOrdered? ==> configs[i].Valid()
    ensures Supported(ReducedAll(configs, cost, bytes))
    ensures forall i :: 0 <= i < |configs| ==>
              && Reduces(configs[i], ReducedAll(configs, cost, bytes)[i])
              && (configs[i].kind.ReliableOrdered? ==> ReducedAll(configs, cost, bytes)[i].Valid())
  {
    forall i | 0 <= i < |configs|
      ensures Reduces(configs[i], Reduced(configs[i], cost, bytes))
      ensures configs[i].kind.ReliableOrdered? ==> Reduced(configs[i], cost, bytes).Valid()
    {
      ReducedReduces(configs[i], cost, bytes);
    }
  }

  lemma StillUsable<M(!new)>(
    configs: seq<Config>, size: M -> nat, cost: nat, bytes: nat, channels: seq<C.ChannelState<M>>)
    requires Fixed(configs, size, cost) && ChannelsValid(configs, size, channels)
    ensures ChannelsUsable(ReducedAll(configs, cost, bytes), channels)
  {
    ReducedIsUsable(configs, cost, bytes);
    forall i | 0 <= i < |channels| && channels[i].processor.ReliableState?
      ensures ReducedAll(configs, cost, bytes)[i].Valid()
    {
      assert C.ProcessorValid(configs[i], size, channels[i].processor);
    }
  }

  lemma {:induction false} PackedReduced<M(!new)>(
    configs: seq<Config>, size: M -> nat, cost: nat, bytes: nat, channels: seq<C.ChannelState<M>>, number: u16, n: nat)
    requires Fixed(configs, size, cost) && ChannelsValid(configs, size, channels) && n <= |channels|
    requires Packed(configs, size, channels, number, bytes, n).Packing?
    ensures ChannelsUsable(ReducedAll(configs, cost, bytes), channels)
    ensures Packed(ReducedAll(configs, cost, bytes), size, channels, number, bytes, n)
         == Packed(configs, size, channels, number, bytes, n)
    ensures Packed(configs, size, channels, number, bytes, n).room <= BufferRoom(bytes)
    decreases n
  {
    StillUsable(configs, size, cost, bytes, channels);
    if n == 0 {
    } else {
      var configs', i := ReducedAll(configs, cost, bytes), n - 1;
      LastTurn(configs, size, channels, number, bytes, i, n);
      LastTurn(configs', size, channels, number, bytes, i, n);
      PackedReduced(configs, size, cost, bytes, channels, number, i);
      TurnReduced(configs[i], size, channels[i], number, Packed(configs, size, channels, number, bytes, i), i, cost,
                  bytes);
    }
  }

  lemma EveryTurnPacks<M>(
    configs: seq<Config>, size: M -> nat, channels: seq<C.ChannelState<M>>, number: u16, bytes: nat, i: nat)
    requires ChannelsUsable(configs, channels) && i < |channels|
    requires Packed(configs, size, channels, number, bytes, |channels|).Packing?
    ensures var packing := Packed(configs, size, channels, number, bytes, i);
            packing.Packing? && Turn(configs[i], size, channels[i], number, packing, i).Packing?
  {
    PackedBefore(configs, size, channels, number, bytes, |channels|, i);
    var n := i + 1;
    PackedBefore(configs, size, channels, number, bytes, |channels|, n);
    LastTurn(configs, size, channels, number, bytes, i, n);
  }

  /** What channel `i` becomes. */
  lemma ChannelReduced<M(!new)>(
    configs: seq<Config>, size: M -> nat, cost: nat, bytes: nat, channels: seq<C.ChannelState<M>>, number: u16, i: nat)
    requires Fixed(configs, size, cost) && ChannelsValid(configs, size, channels) && i < |channels|
    requires Packed(configs, size, channels, number, bytes, |channels|).Packing?
    ensures Packed(configs, size, channels, number, bytes, i).Packing?
    ensures ChannelsUsable(ReducedAll(configs, cost, bytes), channels)
    ensures Packed(ReducedAll(configs, cost, bytes), size, channels, number, bytes, i)
         == Packed(configs, size, channels, number, bytes, i)
    ensures var room := Packed(configs, size, channels, number, bytes, i).room;
            && C.AfterPacketData(ReducedAll(configs, cost, bytes)[i], size, channels[i], number, room)
               == C.AfterPacketData(configs[i], size, channels[i], number, room)
            && (channels[i].processor.ReliableState? ==>
                  ChooseMessages(ReducedAll(configs, cost, bytes)[i], channels[i].processor.sender, room)
                  == ChooseMessages(configs[i], channels[i].processor.sender, room))
  {
    EveryTurnPacks(configs, size, channels, number, bytes, i);
    PackedReduced(configs, size, cost, bytes, channels, number, i);
    var packing := Packed(configs, size, channels, number, bytes, i);
    TurnReduced(configs[i], size, channels[i], number, packing, i, cost, bytes);
  }

  lemma GenerateReduced<M(!new)>(
    configs: seq<Config>, size: M -> nat, cost: nat, bytes: nat, channels: seq<C.ChannelState<M>>, number: u16)
    requires Fixed(configs, size, cost) && ChannelsValid(configs, size, channels)
    requires ConnectionSpec.Generate(configs, size, channels, number, bytes).Generated?
    ensures ChannelsUsable(ReducedAll(configs, cost, bytes), channels)
    ensures ConnectionSpec.Generate(ReducedAll(configs, cost, bytes), size, channels, number, bytes)
         == ConnectionSpec.Generate(configs, size, channels, number, bytes)
  {
    StillUsable(configs, size, cost, bytes, channels);
    if |channels| > 0 {
      PackedReduced(configs, size, cost, bytes, channels, number, |channels|);
      forall i | 0 <= i < |channels|
        ensures ConnectionSpec.Generate(ReducedAll(configs, cost, bytes), size, channels, number, bytes).channels[i]
             == ConnectionSpec.Generate(configs, size, channels, number, bytes).channels[i]
      {
        ChannelReduced(configs, size, cost, bytes, channels, number, i);
      }
    }
  }

  // ---- Reading -------------------------------------------------------------------------------

  /** The bytes of a packet do not depend on how many messages it might hold. */
  lemma {:induction false} EncodeReduced<M>(
    configs: seq<Config>, mc: MessageCodec<M>, cost: nat, bytes: nat, data: seq<ChannelData<M>>)
    requires AllWritable(ReducedAll(configs, cost, bytes), data)
    requires forall i :: 0 <= i < |configs| ==> Reduces(configs[i], ReducedAll(configs, cost, bytes)[i])
    ensures AllWritable(configs, data)
    ensures EncodeChannels(configs, mc, data) == EncodeChannels(ReducedAll(configs, cost, bytes), mc, data)
    decreases |data|
  {
    if data == [] {
    } else {
      EncodeReduced(configs, mc, cost, bytes, data[1..]);
      assert Writable(ReducedAll(configs, cost, bytes), data[0]);
      forall k | 0 <= k < |data|
        ensures Writable(configs, data[k])
      {
        assert Writable(ReducedAll(configs, cost, bytes), data[k]);
      }
    }
  }

  lemma ArrivalReduced<M>(configs: seq<Config>, cost: nat, bytes: nat, data: seq<ChannelData<M>>)
    requires AllWritable(ReducedAll(configs, cost, bytes), data) && AllWritable(configs, data)
    requires forall i :: 0 <= i < |configs| ==> Reduces(configs[i], ReducedAll(configs, cost, bytes)[i])
    ensures AllOnArrival(configs, data) == AllOnArrival(ReducedAll(configs, cost, bytes), data)
  {
    forall k | 0 <= k < |data|
      ensures OnArrival(configs, data[k]) == OnArrival(ReducedAll(configs, cost, bytes), data[k])
    {
    }
  }

  lemma {:induction false} ReceiveReduced<M>(config: Config, r: Config, receiver: Receiver<M>, messages: seq<(u16, M)>)
    requires Reduces(config, r)
    ensures ReceivePacket(r, receiver, messages) == ReceivePacket(config, receiver, messages)
    decreases |messages|
  {
    if messages == [] {
    } else {
      var one := ReceiveOne(config, receiver, messages[0].0, messages[0].1);
      if one.ok {
        ReceiveReduced(config, r, one.receiver, messages[1..]);
      }
    }
  }

  lemma ProcessReduced<M>(
    config: Config, cost: nat, bytes: nat, c: C.ChannelState<M>, messages: seq<(u16, M)>, number: u16)
    requires Reduces(config, Reduced(config, cost, bytes))
    requires c.processor.UnreliableState? ==> config.kind.UnreliableUnordered?
    ensures C.ProcessPacketData(Reduced(config, cost, bytes), c, messages, number)
         == C.ProcessPacketData(config, c, messages, number)
  {
    if c.processor.ReliableState? {
      ReceiveReduced(config, Reduced(config, cost, bytes), c.processor.receiver, messages);
    }
  }

  /** Every channel is of the kind it is configured for. */
  ghost predicate KindsMatch<M>(configs: seq<Config>, channels: seq<C.ChannelState<M>>) {
    && |channels| == |configs|
    && forall i :: 0 <= i < |channels| && channels[i].processor.UnreliableState? ==>
         configs[i].kind.UnreliableUnordered?
  }

  lemma {:induction false} ReadReduced<M>(
    configs: seq<Config>, cost: nat, bytes: nat, channels: seq<C.ChannelState<M>>, data: seq<ChannelData<M>>,
    number: u16)
    requires KindsMatch(configs, channels)
    requires forall i :: 0 <= i < |configs| ==> Reduces(configs[i], ReducedAll(configs, cost, bytes)[i])
    ensures ReadEntries(ReducedAll(configs, cost, bytes), channels, data, number)
         == ReadEntries(configs, channels, data, number)
    decreases |data|
  {
    if data == [] {
    } else {
      var i := data[0].channelIndex;
      if i > |channels| {
        ReadReduced(configs, cost, bytes, channels, data[1..], number);
      } else if i < |channels| {
        ProcessReduced(configs[i], cost, bytes, channels[i], data[0].messages, number);
        var result := C.ProcessPacketData(configs[i], channels[i], data[0].messages, number);
        if result.ok && result.channel.errorLevel == C.NoError {
          ReadReduced(configs, cost, bytes, channels[i := result.channel], data[1..], number);
        }
      }
    }
  }

  // ---- Steps ---------------------------------------------------------------------------------

  ghost function ReducedSetup<M>(setup: Setup<M>, cost: nat, bytes: nat): Setup<M> {
    setup.(configs := ReducedAll(setup.configs, cost, bytes))
  }

  ghost predicate MayReduce<M(!new)>(setup: Setup<M>, cost: nat) {
    SetupUsable(setup) && CostsAtLeast(setup.Size(), cost)
  }

  lemma SetupReduced<M(!new)>(setup: Setup<M>, cost: nat, bytes: nat)
    requires MayReduce(setup, cost)
    ensures SetupUsable(ReducedSetup(setup, cost, bytes)) && Fixed(setup.configs, setup.Size(), cost)
    ensures forall i :: 0 <= i < |setup.configs| ==>
              Reduces(setup.configs[i], ReducedSetup(setup, cost, bytes).configs[i])
    ensures forall i: nat :: setup.Reliable(i) <==> ReducedSetup(setup, cost, bytes).Reliable(i)
  {
    forall i: nat | i < |setup.configs| && setup.configs[i].kind.ReliableOrdered?
      ensures setup.configs[i].Valid()
    {
      assert setup.Reliable(i);
    }
    ReducedIsUsable(setup.configs, cost, bytes);
  }

  lemma EndReduced<M(!new)>(setup: Setup<M>, cost: nat, bytes: nat, end: End<M>)
    requires MayReduce(setup, cost) && WellFormedEnd(ReducedSetup(setup, cost, bytes), end)
    ensures WellFormedEnd(setup, end) && KindsMatch(setup.configs, end.connection.channels)
  {
    SetupReduced(setup, cost, bytes);
    var r := ReducedSetup(setup, cost, bytes);
    forall i | 0 <= i < |setup.configs|
      ensures C.ProcessorValid(setup.configs[i], setup.Size(), end.connection.channels[i].processor)
    {
      assert C.ProcessorValid(r.configs[i], setup.Size(), end.connection.channels[i].processor);
      assert setup.Reliable(i) ==> setup.configs[i].Valid();
    }
  }

  lemma NetReduced<M(!new)>(setup: Setup<M>, cost: nat, bytes: nat, net: Net<M>)
    requires MayReduce(setup, cost) && WellFormedNet(ReducedSetup(setup, cost, bytes), net)
    ensures WellFormedNet(setup, net)
  {
    forall e: nat | e < 2
      ensures WellFormedEnd(setup, net[e])
    {
      assert WellFormedEnd(ReducedSetup(setup, cost, bytes), net[e]);
      EndReduced(setup, cost, bytes, net[e]);
    }
  }

  lemma DeliverReduced<M(!new)>(setup: Setup<M>, cost: nat, bytes: nat, to: End<M>, w: WirePacket<M>)
    requires MayReduce(setup, cost) && WellFormedEnd(ReducedSetup(setup, cost, bytes), to)
    requires WireValid(ReducedSetup(setup, cost, bytes), w)
    ensures |to.connection.channels| == |setup.configs|
    ensures ProcessPacket(ReducedSetup(setup, cost, bytes).configs, setup.codec, to.connection, Wrap(w.number), w.bytes)
         == ProcessPacket(setup.configs, setup.codec, to.connection, Wrap(w.number), w.bytes)
  {
    SetupReduced(setup, cost, bytes);
    EndReduced(setup, cost, bytes, to);
    var configs, configs' := setup.configs, ReducedAll(setup.configs, cost, bytes);
    EncodeReduced(configs, setup.codec, cost, bytes, w.data);
    ArrivalReduced(configs, cost, bytes, w.data);
    PacketRoundTrip(configs, setup.codec, w.data, []);
    PacketRoundTrip(configs', setup.codec, w.data, []);
    assert w.bytes + [] == w.bytes;
    ReadReduced(configs, cost, bytes, to.connection.channels, AllOnArrival(configs, w.data), Wrap(w.number));
  }

  /** The packet an end makes, and what it becomes, are the same in both setups if nothing underflows. */
  lemma GenerateAtReduced<M(!new)>(setup: Setup<M>, cost: nat, bytes: nat, end: End<M>)
    requires MayReduce(setup, cost) && WellFormedEnd(ReducedSetup(setup, cost, bytes), end) && WellFormedEnd(setup, end)
    requires GenerateAt(setup, end, bytes).Generated?
    ensures GenerateAt(ReducedSetup(setup, cost, bytes), end, bytes) == GenerateAt(setup, end, bytes)
    ensures ChosenIds(ReducedSetup(setup, cost, bytes), end, bytes) == ChosenIds(setup, end, bytes)
  {
    SetupReduced(setup, cost, bytes);
    var channels := end.connection.channels;
    GenerateReduced(setup.configs, setup.Size(), cost, bytes, channels, Wrap(end.nextPacket));
    var r := ReducedSetup(setup, cost, bytes);
    assert GenerateAt(r, end, bytes) == GenerateAt(setup, end, bytes);
    forall c: nat | c < |setup.configs|
      ensures ChosenBy(r, end, bytes, c) == ChosenBy(setup, end, bytes, c)
    {
      ChannelReduced(setup.configs, setup.Size(), cost, bytes, channels, Wrap(end.nextPacket), c);
    }
  }

  lemma PacketReduced<M(!new)>(setup: Setup<M>, cost: nat, bytes: nat, end: End<M>)
    requires MayReduce(setup, cost) && WellFormedEnd(ReducedSetup(setup, cost, bytes), end) && WellFormedEnd(setup, end)
    requires GenerateAt(setup, end, bytes).Generated?
    ensures SetupUsable(ReducedSetup(setup, cost, bytes))
    ensures ApplyGenerate(ReducedSetup(setup, cost, bytes), end, bytes) == ApplyGenerate(setup, end, bytes)
  {
    SetupReduced(setup, cost, bytes);
    GenerateAtReduced(setup, cost, bytes, end);
    var r, data := ReducedSetup(setup, cost, bytes), GenerateAt(setup, end, bytes).data;
    if data != [] {
      PacketFits(r.configs, setup.codec, end.connection.channels, Wrap(end.nextPacket), bytes);
      EncodeReduced(setup.configs, setup.codec, cost, bytes, data);
      assert PacketOf(r, end, bytes) == PacketOf(setup, end, bytes);
    }
  }

  lemma NumberReduced<M(!new)>(setup: Setup<M>, cost: nat, bytes: nat, end: End<M>, generated: Generated<M>)
    requires MayReduce(setup, cost) && WellFormedEnd(ReducedSetup(setup, cost, bytes), end) && WellFormedEnd(setup, end)
    requires NumberIsClear(setup, end, generated)
    ensures NumberIsClear(ReducedSetup(setup, cost, bytes), end, generated)
  {
    SetupReduced(setup, cost, bytes);
    if generated.Generated? {
      forall c: nat | setup.Reliable(c) && MessagesFor(generated.data, c) != []
        ensures P.NumberIsClear(ReducedSetup(setup, cost, bytes).configs[c], SenderOf(setup, end, c), end.nextPacket)
      {
        assert P.NumberIsClear(setup.configs[c], SenderOf(setup, end, c), end.nextPacket);
      }
    }
  }

  /** The same step in both setups. */
  ghost predicate SameStep<M(!new)>(setup: Setup<M>, r: Setup<M>, net: Net<M>, action: Action<M>)
    requires Supported(setup.configs) && Supported(r.configs) && Enabled(setup, net, action)
  {
    Enabled(r, net, action) && Apply(r, net, action) == Apply(setup, net, action)
  }

  lemma GenerateStepReduced<M(!new)>(setup: Setup<M>, cost: nat, net: Net<M>, e: nat, bytes: nat)
    requires MayReduce(setup, cost) && WellFormedNet(ReducedSetup(setup, cost, bytes), net)
    requires Enabled(setup, net, Generate(e, bytes)) && GenerateAt(setup, net[e], bytes).Generated?
    ensures SetupUsable(ReducedSetup(setup, cost, bytes))
    ensures SameStep(setup, ReducedSetup(setup, cost, bytes), net, Generate(e, bytes))
  {
    PacketReduced(setup, cost, bytes, net[e]);
    GenerateAtReduced(setup, cost, bytes, net[e]);
    NumberReduced(setup, cost, bytes, net[e], GenerateAt(setup, net[e], bytes));
  }

  lemma DeliverStepReduced<M(!new)>(setup: Setup<M>, cost: nat, bytes: nat, net: Net<M>, e: nat, w: WirePacket<M>)
    requires MayReduce(setup, cost) && WellFormedNet(ReducedSetup(setup, cost, bytes), net)
    requires Enabled(setup, net, Deliver(e, w)) && WireValid(ReducedSetup(setup, cost, bytes), w)
    ensures SetupUsable(ReducedSetup(setup, cost, bytes))
    ensures SameStep(setup, ReducedSetup(setup, cost, bytes), net, Deliver(e, w))
  {
    SetupReduced(setup, cost, bytes);
    DeliverIsAllowed(setup, net, e, w);
    LateReduced(setup, cost, bytes, net[1 - e], w);
    MayDeliver(ReducedSetup(setup, cost, bytes), net, e, w);
    DeliverIsAllowed(ReducedSetup(setup, cost, bytes), net, e, w);
    ApplyReduced(setup, cost, bytes, net, e, w);
  }

  lemma ApplyReduced<M(!new)>(setup: Setup<M>, cost: nat, bytes: nat, net: Net<M>, e: nat, w: WirePacket<M>)
    requires MayReduce(setup, cost) && WellFormedNet(ReducedSetup(setup, cost, bytes), net) && WellFormedNet(setup, net)
    requires e < 2 && WireValid(ReducedSetup(setup, cost, bytes), w)
    ensures ApplyDeliver(ReducedSetup(setup, cost, bytes), net, e, w) == ApplyDeliver(setup, net, e, w)
  {
    DeliverReduced(setup, cost, bytes, net[1 - e], w);
    DeliverApplies(setup, net, e, w);
    DeliverApplies(ReducedSetup(setup, cost, bytes), net, e, w);
  }

  lemma LateReduced<M(!new)>(setup: Setup<M>, cost: nat, bytes: nat, to: End<M>, w: WirePacket<M>)
    requires MayReduce(setup, cost) && WellFormedEnd(ReducedSetup(setup, cost, bytes), to) && WellFormedEnd(setup, to)
    requires NotTooLate(setup, to, w)
    ensures NotTooLate(ReducedSetup(setup, cost, bytes), to, w)
  {
    SetupReduced(setup, cost, bytes);
    forall c: nat, k | setup.Reliable(c) && k in w.ids[c]
      ensures ReceiverOf(setup, to, c).next - HALF < k
    {
    }
  }

  lemma AckStepReduced<M(!new)>(setup: Setup<M>, cost: nat, bytes: nat, net: Net<M>, e: nat, number: nat)
    requires MayReduce(setup, cost) && WellFormedNet(ReducedSetup(setup, cost, bytes), net)
    requires Enabled(setup, net, Ack(e, number))
    ensures SetupUsable(ReducedSetup(setup, cost, bytes))
    ensures SameStep(setup, ReducedSetup(setup, cost, bytes), net, Ack(e, number))
  {
    SetupReduced(setup, cost, bytes);
    forall c: nat | setup.Reliable(c)
      ensures P.AckIsClear(SenderOf(setup, net[e], c), number)
    {
    }
  }

  lemma SendStepReduced<M(!new)>(
    setup: Setup<M>, cost: nat, bytes: nat, net: Net<M>, e: nat, channel: nat, message: M)
    requires MayReduce(setup, cost) && WellFormedNet(ReducedSetup(setup, cost, bytes), net)
    requires Enabled(setup, net, Send(e, channel, message))
    ensures SetupUsable(ReducedSetup(setup, cost, bytes))
    ensures SameStep(setup, ReducedSetup(setup, cost, bytes), net, Send(e, channel, message))
  {
    SetupReduced(setup, cost, bytes);
  }

  lemma OtherStepReduced<M(!new)>(setup: Setup<M>, cost: nat, bytes: nat, net: Net<M>, action: Action<M>)
    requires MayReduce(setup, cost) && WellFormedNet(ReducedSetup(setup, cost, bytes), net)
    requires Enabled(setup, net, action) && (action.Receive? || action.Drop? || action.AdvanceTime?)
    ensures SetupUsable(ReducedSetup(setup, cost, bytes))
    ensures SameStep(setup, ReducedSetup(setup, cost, bytes), net, action)
  {
    SetupReduced(setup, cost, bytes);
  }

  /** A step that the connections take is one that the smaller setup allows, or an end panics. */
  lemma StepReduced<M(!new)>(
    setup: Setup<M>, cost: nat, bytes: nat, net: Net<M>, action: Action<M>, s: seq<seq<P.System<M>>>)
    returns (s': seq<seq<P.System<M>>>)
    requires MayReduce(setup, cost) && SetupValid(ReducedSetup(setup, cost, bytes))
    requires Simulated(ReducedSetup(setup, cost, bytes), net, s) && Enabled(setup, net, action)
    requires action.Generate? ==> action.bytes == bytes
    ensures Simulated(ReducedSetup(setup, cost, bytes), Apply(setup, net, action), s')
  {
    var r := ReducedSetup(setup, cost, bytes);
    match action {
      case Generate(e, _) =>
        if GenerateAt(setup, net[e], bytes).Underflowed? {
          PanicStep(r, net, e, s);
          s' := s;
          return;
        }
        GenerateStepReduced(setup, cost, net, e, bytes);
      case Deliver(e, w) =>
        FlightIsValid(r, net, e, s, w);
        DeliverStepReduced(setup, cost, bytes, net, e, w);
      case Ack(e, number) => AckStepReduced(setup, cost, bytes, net, e, number);
      case Send(e, channel, message) => SendStepReduced(setup, cost, bytes, net, e, channel, message);
      case Receive(_, _) => OtherStepReduced(setup, cost, bytes, net, action);
      case Drop(_, _) => OtherStepReduced(setup, cost, bytes, net, action);
      case AdvanceTime(_, _) => OtherStepReduced(setup, cost, bytes, net, action);
    }
    s' := StepSimulated(r, net, action, s);
  }

  // ---- Runs ----------------------------------------------------------------------------------

  lemma {:induction false} RunReduced<M(!new)>(
    setup: Setup<M>, cost: nat, bytes: nat, net: Net<M>, actions: seq<Action<M>>, s: seq<seq<P.System<M>>>)
    returns (s': seq<seq<P.System<M>>>)
    requires MayReduce(setup, cost) && SetupValid(ReducedSetup(setup, cost, bytes))
    requires Simulated(ReducedSetup(setup, cost, bytes), net, s)
    requires Legal(setup, net, actions) && OneBuffer(actions, bytes)
    ensures Simulated(ReducedSetup(setup, cost, bytes), Run(setup, net, actions), s')
    decreases |actions|
  {
    if actions == [] {
      s' := s;
    } else {
      var s1 := StepReduced(setup, cost, bytes, net, actions[0], s);
      s' := RunReduced(setup, cost, bytes, Apply(setup, net, actions[0]), actions[1..], s1);
    }
  }

  lemma InitialReduced<M(!new)>(setup: Setup<M>, cost: nat, bytes: nat, time: real, time': real)
    requires MayReduce(setup, cost)
    ensures Initial(ReducedSetup(setup, cost, bytes), time, time') == Initial(setup, time, time')
  {
    SetupReduced(setup, cost, bytes);
    NewReduced(setup, cost, bytes, time);
    NewReduced(setup, cost, bytes, time');
  }

  lemma NewReduced<M(!new)>(setup: Setup<M>, cost: nat, bytes: nat, time: real)
    requires MayReduce(setup, cost)
    requires forall i :: 0 <= i < |setup.configs| ==>
               Reduces(setup.configs[i], ReducedSetup(setup, cost, bytes).configs[i])
    ensures NewEnd(ReducedSetup(setup, cost, bytes), time) == NewEnd(setup, time)
  {
    var r := ReducedSetup(setup, cost, bytes);
    forall i | 0 <= i < |setup.configs|
      ensures C.NewChannel<M>(r.configs[i], time) == C.NewChannel<M>(setup.configs[i], time)
    {
    }
    assert NewConnection<M>(r.configs, time) == NewConnection<M>(setup.configs, time);
  }

  /** When every batch that fits keeps the bound, connections with buffers of this size follow the protocols of the
      smaller setup, whatever the configuration allows. */
  lemma BatchesSimulated<M(!new)>(setup: Setup<M>, cost: nat, bytes: nat, net: Net<M>)
    returns (s: seq<seq<P.System<M>>>)
    requires MayReduce(setup, cost) && ReachableWith(setup, bytes, net)
    requires forall c: nat :: setup.Reliable(c) ==> BatchesOutlive(setup.configs[c], cost, bytes)
    ensures SetupValid(ReducedSetup(setup, cost, bytes)) && Simulated(ReducedSetup(setup, cost, bytes), net, s)
  {
    ReducedIsValid(setup, cost, bytes);
    var time, time', actions :| ReachedWith<M>(setup, bytes, time, time', actions, net);
    InitialReduced(setup, cost, bytes, time, time');
    var s0 := InitialSimulated<M>(ReducedSetup(setup, cost, bytes), time, time');
    s := RunReduced(setup, cost, bytes, Initial(setup, time, time'), actions, s0);
  }

  lemma ReducedIsValid<M(!new)>(setup: Setup<M>, cost: nat, bytes: nat)
    requires MayReduce(setup, cost)
    requires forall c: nat :: setup.Reliable(c) ==> BatchesOutlive(setup.configs[c], cost, bytes)
    ensures SetupValid(ReducedSetup(setup, cost, bytes))
  {
    SetupReduced(setup, cost, bytes);
    forall c: nat | setup.Reliable(c)
      ensures P.IdsOutliveAcks(ReducedSetup(setup, cost, bytes).configs[c])
    {
      ReducedOutlives(setup.configs[c], cost, bytes);
    }
  }

  /** And so they lose nothing. */
  lemma BatchesLoseNothing<M(!new)>(setup: Setup<M>, cost: nat, bytes: nat, net: Net<M>, e: nat, c: nat)
    requires MayReduce(setup, cost) && ReachableWith(setup, bytes, net) && e < 2 && setup.Reliable(c)
    requires forall c: nat :: setup.Reliable(c) ==> BatchesOutlive(setup.configs[c], cost, bytes)
    ensures WellFormedNet(setup, net) && LosesNothing(setup, net, e, c)
  {
    var s := BatchesSimulated(setup, cost, bytes, net);
    SetupReduced(setup, cost, bytes);
    NetReduced(setup, cost, bytes, net);
    SimulatedLosesNothing(ReducedSetup(setup, cost, bytes), net, e, c, s);
    KeptReduced(setup, cost, bytes, net, e, c);
  }

  lemma KeptReduced<M(!new)>(setup: Setup<M>, cost: nat, bytes: nat, net: Net<M>, e: nat, c: nat)
    requires WellFormedNet(ReducedSetup(setup, cost, bytes), net) && WellFormedNet(setup, net)
    requires e < 2 && setup.Reliable(c) && ReducedSetup(setup, cost, bytes).Reliable(c)
    requires LosesNothing(ReducedSetup(setup, cost, bytes), net, e, c)
    ensures LosesNothing(setup, net, e, c)
  {
    forall k | |net[1 - e].received[c]| <= k < |net[e].accepted[c]|
      ensures IsKept(setup, net, e, c, k)
    {
      assert IsKept(ReducedSetup(setup, cost, bytes), net, e, c, k);
    }
  }
}
