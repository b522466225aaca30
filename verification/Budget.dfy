/** What channels report, what the serializer writes, and the room in the packet. */
module PacketBudget {
  import opened Wrap16
  import opened Options
  import opened Configs
  import opened Codec
  import opened ReliableSpec
  import opened ConnectionSpec
  import C = ChannelSpec
  import U = UnreliableChannel

  /** The bits a buffer leaves for the channels. */
  function BufferRoom(bytes: nat): nat {
    if 8 * bytes < PACKET_HEADER_BITS then 0 else 8 * bytes - PACKET_HEADER_BITS
  }

  // ---- One channel ---------------------------------------------------------------------------

  /** The bits counted for chosen reliable messages are those of their contents and ids. */
  lemma {:induction false} CostIsContent<M>(s: Sender<M>, mc: MessageCodec<M>, ids: seq<int>)
    requires Measured(s, SizeOf(mc)) && forall k :: k in ids ==> k in s.queue
    ensures TotalCost(s, ids) == ContentBits(mc, WireMessages(s, ids)) + |ids| * MESSAGE_ID_BITS
    decreases |ids|
  {
    if ids == [] {
    } else {
      assert ids[0] in ids && forall k :: k in ids[1..] ==> k in ids;
      CostIsContent(s, mc, ids[1..]);
      assert WireMessages(s, ids)[1..] == WireMessages(s, ids[1..]);
    }
  }

  lemma {:induction false} TotalIsContent<M>(mc: MessageCodec<M>, messages: seq<M>, number: u16)
    ensures U.TotalBits(SizeOf(mc), messages) == ContentBits(mc, U.Numbered(messages, number))
    decreases |messages|
  {
    if messages == [] {
    } else {
      TotalIsContent(mc, messages[1..], number);
      assert U.Numbered(messages, number)[1..] == U.Numbered(messages[1..], number);
    }
  }

  /** A channel stays within its budget and its message limit, and reports bits exactly when it has messages. */
  lemma PartIsSound<M>(config: Config, size: M -> nat, c: C.ChannelState<M>, number: u16, available: nat)
    requires C.ProcessorValid(config, size, c.processor)
    ensures var part := C.PacketData(config, size, c, number, available);
            && |part.messages| <= config.maxMessagesPerPacket
            && (part.messages == [] <==> part.bits == 0)
            && part.bits <= config.BitsFor(available) <= available
            && (config.packetBudget.Some? ==> part.bits <= 8 * config.packetBudget.value)
  {
    match c.processor
    case ReliableState(sender, _) => ChooseMessagesIsSound(config, sender, available);
    case UnreliableState(sendQueue, _) => U.FillPacketIsSound(config, size, sendQueue, available);
  }

  /** What a channel reports is what the serializer predicts, so by `PredictionIsExact` what it writes. */
  lemma PartIsExact<M>(config: Config, mc: MessageCodec<M>, c: C.ChannelState<M>, number: u16, available: nat)
    requires C.ProcessorValid(config, SizeOf(mc), c.processor)
    ensures var part := C.PacketData(config, SizeOf(mc), c, number, available);
            part.messages != [] ==> part.bits == PredictedBits(config.kind, mc, part.messages)
  {
    match c.processor
    case ReliableState(sender, _) =>
      ChooseMessagesIsSound(config, sender, available);
      CostIsContent(sender, mc, ChooseMessages(config, sender, available).ids);
    case UnreliableState(sendQueue, _) =>
      U.FillPacketIsSound(config, SizeOf(mc), sendQueue, available);
      TotalIsContent(mc, U.FillPacket(config, SizeOf(mc), sendQueue, available).sent, number);
  }

  // ---- The packet ----------------------------------------------------------------------------

  /** Entries for channels below `n`, in order, none empty. */
  ghost predicate WellFormed<M>(data: seq<ChannelData<M>>, n: nat) {
    && (forall k :: 0 <= k < |data| ==> data[k].channelIndex < n && data[k].messages != [])
    && (forall j, k :: 0 <= j < k < |data| ==> data[j].channelIndex < data[k].channelIndex)
  }

  lemma {:induction false} MessagesForAppend<M>(data: seq<ChannelData<M>>, entry: ChannelData<M>, i: nat)
    requires WellFormed(data, entry.channelIndex)
    ensures MessagesFor(data + [entry], i)
         == if i == entry.channelIndex then entry.messages else MessagesFor(data, i)
    decreases |data|
  {
    if data == [] {
      assert data + [entry] == [entry];
    } else {
      assert (data + [entry])[1..] == data[1..] + [entry];
      MessagesForAppend(data[1..], entry, i);
    }
  }

  lemma {:induction false} NothingFor<M>(data: seq<ChannelData<M>>, n: nat, i: nat)
    requires WellFormed(data, n) && n <= i
    ensures MessagesFor(data, i) == []
    decreases |data|
  {
    if data == [] {
    } else {
      NothingFor(data[1..], n, i);
    }
  }

  lemma {:induction false} EncodeAppend<M>(
    configs: seq<Config>, mc: MessageCodec<M>, data: seq<ChannelData<M>>, entry: ChannelData<M>)
    requires AllWritable(configs, data) && Writable(configs, entry)
    ensures |EncodeChannels(configs, mc, data + [entry])|
         == |EncodeChannels(configs, mc, data)| + |EncodeChannel(configs, mc, entry)|
    decreases |data|
  {
    if data == [] {
      assert data + [entry] == [entry];
    } else {
      assert (data + [entry])[1..] == data[1..] + [entry];
      EncodeAppend(configs, mc, data[1..], entry);
    }
  }

  /** Every bit of the buffer is accounted for: the bits left over, the bits written, and a channel header set
      aside for each entry on top of what it takes. */
  ghost predicate Accounted<M>(configs: seq<Config>, mc: MessageCodec<M>, bytes: nat, packing: Packing<M>, n: nat) {
    packing.Packing? ==>
      && WellFormed(packing.data, n) && |packing.data| <= n && AllWritable(configs, packing.data)
      && packing.room + 8 * |EncodeChannels(configs, mc, packing.data)| + 32 * |packing.data| + 16 == 8 * bytes
  }

  lemma AddPartIsAccounted<M>(
    configs: seq<Config>, mc: MessageCodec<M>, bytes: nat, packing: Packing<M>, i: nat, part: C.PacketPart<M>)
    requires packing.Packing? && Accounted(configs, mc, bytes, packing, i) && i < |configs| && Supported(configs)
    requires part.bits != 0 ==> 1 <= |part.messages| <= configs[i].maxMessagesPerPacket
    requires part.bits != 0 ==> part.bits == PredictedBits(configs[i].kind, mc, part.messages)
    ensures Accounted(configs, mc, bytes, AddPart(packing, i, part), i + 1)
  {
    if part.bits != 0 {
      var entry := ChannelData(i, part.messages);
      PredictionIsExact(configs, mc, entry);
      EncodeAppend(configs, mc, packing.data, entry);
    }
  }

  /** One more channel has its turn. */
  lemma TurnIsAccounted<M>(
    configs: seq<Config>, mc: MessageCodec<M>, channels: seq<C.ChannelState<M>>, number: u16, bytes: nat, i: nat,
    packing: Packing<M>)
    requires ChannelsValid(configs, SizeOf(mc), channels) && i < |channels| && Supported(configs)
    requires packing.Packing? && Accounted(configs, mc, bytes, packing, i)
    ensures Accounted(configs, mc, bytes, Turn(configs[i], SizeOf(mc), channels[i], number, packing, i), i + 1)
  {
    var part := C.PacketData(configs[i], SizeOf(mc), channels[i], number, packing.room);
    PartIsSound(configs[i], SizeOf(mc), channels[i], number, packing.room);
    PartIsExact(configs[i], mc, channels[i], number, packing.room);
    AddPartIsAccounted(configs, mc, bytes, packing, i, part);
  }

  lemma StartIsAccounted<M>(configs: seq<Config>, mc: MessageCodec<M>, bytes: nat)
    ensures Accounted(configs, mc, bytes, StartPacking<M>(bytes), 0)
  {
  }

  lemma {:induction false} PackedIsAccounted<M>(
    configs: seq<Config>, mc: MessageCodec<M>, channels: seq<C.ChannelState<M>>, number: u16, bytes: nat, n: nat)
    requires ChannelsValid(configs, SizeOf(mc), channels) && n <= |channels| && Supported(configs)
    ensures Accounted(configs, mc, bytes, Packed(configs, SizeOf(mc), channels, number, bytes, n), n)
    decreases n
  {
    if n == 0 {
      StartIsAccounted(configs, mc, bytes);
    } else {
      PackedIsAccounted(configs, mc, channels, number, bytes, n - 1);
      var packing := Packed(configs, SizeOf(mc), channels, number, bytes, n - 1);
      if packing.Packing? {
        TurnIsAccounted(configs, mc, channels, number, bytes, n - 1, packing);
      }
    }
  }

  lemma MessagesForAdded<M>(packing: Packing<M>, n: nat, part: C.PacketPart<M>, i: nat)
    requires packing.Packing? && WellFormed(packing.data, n) && AddPart(packing, n, part).Packing?
    requires part.messages == [] <==> part.bits == 0
    ensures MessagesFor(AddPart(packing, n, part).data, i)
         == if i == n then part.messages else MessagesFor(packing.data, i)
  {
    if part.bits == 0 {
      if i == n {
        NothingFor(packing.data, n, i);
      }
    } else {
      MessagesForAppend(packing.data, ChannelData(n, part.messages), i);
    }
  }

  /** The turn of channel `n` puts its messages into the packet, and leaves those of the others alone. */
  lemma TurnAddsPart<M>(
    configs: seq<Config>, mc: MessageCodec<M>, channels: seq<C.ChannelState<M>>, number: u16, bytes: nat,
    n: nat, i: nat)
    requires ChannelsValid(configs, SizeOf(mc), channels) && n < |channels| && Supported(configs)
    requires Packed(configs, SizeOf(mc), channels, number, bytes, n + 1).Packing?
    ensures var packing := Packed(configs, SizeOf(mc), channels, number, bytes, n);
            && packing.Packing?
            && MessagesFor(Packed(configs, SizeOf(mc), channels, number, bytes, n + 1).data, i)
               == if i == n then C.PacketData(configs[n], SizeOf(mc), channels[n], number, packing.room).messages
                  else MessagesFor(packing.data, i)
  {
    var packing := Packed(configs, SizeOf(mc), channels, number, bytes, n);
    PackedIsAccounted(configs, mc, channels, number, bytes, n);
    PartIsSound(configs[n], SizeOf(mc), channels[n], number, packing.room);
    MessagesForAdded(packing, n, C.PacketData(configs[n], SizeOf(mc), channels[n], number, packing.room), i);
  }

  /** The packet has for each channel exactly what that channel gave. */
  lemma {:induction false} PacketHasEveryPart<M>(
    configs: seq<Config>, mc: MessageCodec<M>, channels: seq<C.ChannelState<M>>, number: u16, bytes: nat,
    n: nat, i: nat)
    requires ChannelsValid(configs, SizeOf(mc), channels) && i < n <= |channels| && Supported(configs)
    requires Packed(configs, SizeOf(mc), channels, number, bytes, n).Packing?
    ensures var packing := Packed(configs, SizeOf(mc), channels, number, bytes, i);
            && packing.Packing?
            && MessagesFor(Packed(configs, SizeOf(mc), channels, number, bytes, n).data, i)
               == C.PacketData(configs[i], SizeOf(mc), channels[i], number, packing.room).messages
    decreases n
  {
    TurnAddsPart(configs, mc, channels, number, bytes, n - 1, i);
    if i == n - 1 {
    } else {
      PacketHasEveryPart(configs, mc, channels, number, bytes, n - 1, i);
    }
  }

  /** A packet that was generated can be written and fits the buffer, with a channel header to spare for each entry. */
  lemma PacketFits<M>(
    configs: seq<Config>, mc: MessageCodec<M>, channels: seq<C.ChannelState<M>>, number: u16, bytes: nat)
    requires ChannelsValid(configs, SizeOf(mc), channels) && Supported(configs)
    requires Generate(configs, SizeOf(mc), channels, number, bytes).Generated?
    ensures var data := Generate(configs, SizeOf(mc), channels, number, bytes).data;
            && WritablePacket(configs, data)
            && WellFormed(data, |channels|)
            && (data != [] ==>
                  8 * |EncodePacket(configs, mc, data)| + 32 * |data| <= 8 * bytes)
  {
    if |channels| > 0 {
      PackedIsAccounted(configs, mc, channels, number, bytes, |channels|);
    }
  }

  // ---- When nothing underflows ---------------------------------------------------------------

  ghost predicate AllBudgeted(configs: seq<Config>) {
    forall i :: 0 <= i < |configs| ==> configs[i].packetBudget.Some? && configs[i].packetBudget.value >= 4
  }

  /** The bits the budgets of the first `n` channels, and their headers, come to. */
  ghost function BudgetBits(configs: seq<Config>, n: nat): nat
    requires n <= |configs| && AllBudgeted(configs)
  {
    if n == 0 then 0
    else BudgetBits(configs, n - 1) + 8 * configs[n - 1].packetBudget.value + 32
  }

  lemma {:induction false} BudgetBitsGrow(configs: seq<Config>, n: nat, m: nat)
    requires n <= m <= |configs| && AllBudgeted(configs)
    ensures BudgetBits(configs, n) <= BudgetBits(configs, m)
    decreases m
  {
    if n == m {
    } else {
      BudgetBitsGrow(configs, n, m - 1);
    }
  }

  /** The budgets and headers fit the buffer, and each budget has room for the header of a message. */
  ghost predicate BudgetsFit(configs: seq<Config>, bytes: nat) {
    AllBudgeted(configs) && BudgetBits(configs, |configs|) + 16 <= 8 * bytes
  }

  lemma {:induction false} BudgetsLeaveRoom<M>(
    configs: seq<Config>, size: M -> nat, channels: seq<C.ChannelState<M>>, number: u16, bytes: nat, n: nat)
    requires ChannelsValid(configs, size, channels) && n <= |channels| && BudgetsFit(configs, bytes)
    ensures var packing := Packed(configs, size, channels, number, bytes, n);
            packing.Packing? && packing.room + BudgetBits(configs, n) + 16 >= 8 * bytes
    decreases n
  {
    if n == 0 {
    } else {
      BudgetsLeaveRoom(configs, size, channels, number, bytes, n - 1);
      BudgetBitsGrow(configs, n, |configs|);
      PartIsSound(configs[n - 1], size, channels[n - 1], number,
                  Packed(configs, size, channels, number, bytes, n - 1).room);
    }
  }

  /** With budgets that fit, no subtraction underflows, whatever the channels hold. */
  lemma BudgetsNeverUnderflow<M>(
    configs: seq<Config>, size: M -> nat, channels: seq<C.ChannelState<M>>, number: u16, bytes: nat)
    requires ChannelsValid(configs, size, channels) && BudgetsFit(configs, bytes)
    ensures Generate(configs, size, channels, number, bytes).Generated?
  {
    BudgetsLeaveRoom(configs, size, channels, number, bytes, |channels|);
  }

  // ---- Channels with nothing to send ---------------------------------------------------------

  /** A channel with nothing queued. */
  predicate Silent<M>(c: C.ChannelState<M>) {
    match c.processor
    case ReliableState(sender, _) => !HasMessagesToSend(sender)
    case UnreliableState(sendQueue, _) => sendQueue == []
  }

  /** A channel that has nothing to say now: nothing is queued, or nothing that is due, and then there is room for the
      header of a message in `least` bits. */
  ghost predicate Passive<M>(config: Config, c: C.ChannelState<M>, least: nat) {
    || Silent(c)
    || (&& c.processor.ReliableState? && config.BitsFor(least) >= MESSAGE_HEADER_BITS
        && forall k :: k in c.processor.sender.queue ==> !Due(config, c.processor.sender, k))
  }

  /** Its turn changes nothing. */
  lemma PassiveTurn<M>(
    config: Config, size: M -> nat, c: C.ChannelState<M>, number: u16, packing: Packing<M>, i: nat, least: nat)
    requires Passive(config, c, least) && packing.Packing? && packing.room >= least
    requires c.processor.ReliableState? ==> config.Valid()
    ensures Turn(config, size, c, number, packing, i) == packing
    ensures C.AfterPacketData(config, size, c, number, packing.room) == c
    ensures C.PacketData(config, size, c, number, packing.room).messages == []
    ensures c.processor.ReliableState? ==> ChooseMessages(config, c.processor.sender, packing.room).ids == []
  {
    if !Silent(c) {
      SelectNothingDue(config, c.processor.sender, config.BitsFor(packing.room), 0, MESSAGE_HEADER_BITS, 0);
    }
  }

  lemma {:induction false} PassiveTurns<M>(
    configs: seq<Config>, size: M -> nat, channels: seq<C.ChannelState<M>>, number: u16, bytes: nat,
    i: nat, n: nat, least: nat)
    requires ChannelsUsable(configs, channels) && i <= n <= |channels|
    requires forall j :: i <= j < n ==> Passive(configs[j], channels[j], least)
    requires var packing := Packed(configs, size, channels, number, bytes, i);
             packing.Packing? && packing.room >= least
    ensures Packed(configs, size, channels, number, bytes, n) == Packed(configs, size, channels, number, bytes, i)
    decreases n
  {
    if i == n {
    } else {
      PassiveTurns(configs, size, channels, number, bytes, i, n - 1, least);
      PassiveTurn(configs[n - 1], size, channels[n - 1], number,
                  Packed(configs, size, channels, number, bytes, n - 1), n - 1, least);
    }
  }

  /** When only channel `i` has something to say, the packet is what that channel alone makes of it. */
  lemma OnlyOneTurn<M>(
    configs: seq<Config>, size: M -> nat, channels: seq<C.ChannelState<M>>, number: u16, bytes: nat,
    i: nat, least: nat, n: nat)
    requires ChannelsUsable(configs, channels) && i < |channels| && n <= |channels|
    requires forall j :: 0 <= j < |channels| && j != i ==> Passive(configs[j], channels[j], least)
    requires StartPacking<M>(bytes).Packing? && StartPacking<M>(bytes).room >= least
    requires var turn := Turn(configs[i], size, channels[i], number, StartPacking(bytes), i);
             turn.Packing? ==> turn.room >= least
    ensures Packed(configs, size, channels, number, bytes, n)
         == if n <= i then StartPacking(bytes)
            else Turn(configs[i], size, channels[i], number, StartPacking(bytes), i)
  {
    if n <= i {
      PassiveTurns(configs, size, channels, number, bytes, 0, n, least);
    } else {
      PassiveTurns(configs, size, channels, number, bytes, 0, i, least);
      RestIsPassive(configs, size, channels, number, bytes, i + 1, least, n);
    }
  }

  lemma RestIsPassive<M>(
    configs: seq<Config>, size: M -> nat, channels: seq<C.ChannelState<M>>, number: u16, bytes: nat,
    from: nat, least: nat, n: nat)
    requires ChannelsUsable(configs, channels) && from <= n <= |channels|
    requires forall j :: from <= j < |channels| ==> Passive(configs[j], channels[j], least)
    requires var packing := Packed(configs, size, channels, number, bytes, from);
             packing.Packing? ==> packing.room >= least
    ensures Packed(configs, size, channels, number, bytes, n) == Packed(configs, size, channels, number, bytes, from)
  {
    if Packed(configs, size, channels, number, bytes, from).Packing? {
      PassiveTurns(configs, size, channels, number, bytes, from, n, least);
    } else if Packed(configs, size, channels, number, bytes, n).Packing? {
      PackedBefore(configs, size, channels, number, bytes, n, from);
    }
  }
}
