/** What goes into a packet, in plain numbers: the queues, the clock, the budgets, and the bits left of the buffer. */
module PacketRules {
  import opened Wrap16
  import opened Options
  import opened Configs
  import opened Codec
  import opened ReliableSpec
  import opened ConnectionSpec
  import opened ConnectionProtocol
  import opened PacketBudget
  import Isolation
  import C = ChannelSpec
  import U = UnreliableChannel

  // ---- The bits left at a channel's turn -----------------------------------------------------

  /** The entries of the channels before `c`; entries come in the order of their channels. */
  ghost function EntriesBefore<M>(data: seq<ChannelData<M>>, c: nat): seq<ChannelData<M>> {
    if data == [] || data[0].channelIndex >= c then [] else [data[0]] + EntriesBefore(data[1..], c)
  }

  lemma {:induction false} EntriesBeforeIsFront<M>(data: seq<ChannelData<M>>, c: nat)
    ensures EntriesBefore(data, c) <= data
    decreases |data|
  {
    if data == [] || data[0].channelIndex >= c {
    } else {
      EntriesBeforeIsFront(data[1..], c);
    }
  }

  lemma {:induction false} AllAreBefore<M>(data: seq<ChannelData<M>>, c: nat)
    requires forall k :: 0 <= k < |data| ==> data[k].channelIndex < c
    ensures EntriesBefore(data, c) == data
    decreases |data|
  {
    if data == [] {
    } else {
      AllAreBefore(data[1..], c);
    }
  }

  lemma {:induction false} LaterEntryIsNotBefore<M>(data: seq<ChannelData<M>>, entry: ChannelData<M>, c: nat)
    requires c <= entry.channelIndex
    ensures EntriesBefore(data + [entry], c) == EntriesBefore(data, c)
    decreases |data|
  {
    if data == [] {
      assert data + [entry] == [entry];
    } else {
      assert (data + [entry])[1..] == data[1..] + [entry];
      LaterEntryIsNotBefore(data[1..], entry, c);
    }
  }

  /** What the packet holds when the turn of channel `c` comes are the entries of the channels before it. */
  lemma {:induction false} PackedAtTurn<M>(
    configs: seq<Config>, mc: MessageCodec<M>, channels: seq<C.ChannelState<M>>, number: u16, bytes: nat,
    c: nat, n: nat)
    requires ChannelsValid(configs, SizeOf(mc), channels) && c <= n <= |channels| && Supported(configs)
    requires Packed(configs, SizeOf(mc), channels, number, bytes, n).Packing?
    ensures Packed(configs, SizeOf(mc), channels, number, bytes, c).Packing?
    ensures EntriesBefore(Packed(configs, SizeOf(mc), channels, number, bytes, n).data, c)
         == Packed(configs, SizeOf(mc), channels, number, bytes, c).data
    decreases n
  {
    if n == c {
      PackedIsAccounted(configs, mc, channels, number, bytes, n);
      AllAreBefore(Packed(configs, SizeOf(mc), channels, number, bytes, n).data, c);
    } else {
      var i: nat := n - 1;
      LastTurn(configs, SizeOf(mc), channels, number, bytes, i, n);
      PackedAtTurn(configs, mc, channels, number, bytes, c, i);
      var packing := Packed(configs, SizeOf(mc), channels, number, bytes, i);
      var part := C.PacketData(configs[i], SizeOf(mc), channels[i], number, packing.room);
      LaterEntryIsNotBefore(packing.data, ChannelData(i, part.messages), c);
    }
  }

  /** The bits left when the turn of channel `c` comes are the buffer, but for 16 bits, the bytes of the entries before
      it, and 32 bits set aside for each of them. */
  lemma RoomIsWhatIsLeft<M>(setup: Setup<M>, end: End<M>, bytes: nat, c: nat)
    requires WellFormedEnd(setup, end) && Supported(setup.configs) && c < |setup.configs|
    requires GenerateAt(setup, end, bytes).Generated?
    ensures var before := EntriesBefore(GenerateAt(setup, end, bytes).data, c);
            && AllWritable(setup.configs, before)
            && RoomFor(setup, end, bytes, c)
               == 8 * bytes - 16 - 32 * |before| - 8 * |EncodeChannels(setup.configs, setup.codec, before)|
  {
    var channels, number, n := end.connection.channels, Wrap(end.nextPacket), |setup.configs|;
    PacketFits(setup.configs, setup.codec, channels, number, bytes);
    PackedAtTurn(setup.configs, setup.codec, channels, number, bytes, c, n);
    PackedIsAccounted(setup.configs, setup.codec, channels, number, bytes, c);
  }

  ghost function BitsLeft<M>(setup: Setup<M>, end: End<M>, bytes: nat, c: nat): nat
    requires WellFormedEnd(setup, end) && Supported(setup.configs) && c < |setup.configs|
    requires GenerateAt(setup, end, bytes).Generated?
  {
    RoomIsWhatIsLeft(setup, end, bytes, c);
    var before := EntriesBefore(GenerateAt(setup, end, bytes).data, c);
    8 * bytes - 16 - 32 * |before| - 8 * |EncodeChannels(setup.configs, setup.codec, before)|
  }

  // ---- What a reliable channel sends ---------------------------------------------------------

  /** What a packet that end `end` generates has for channel `c`. */
  ghost function PartFor<M>(setup: Setup<M>, end: End<M>, bytes: nat, c: nat): seq<(u16, M)>
    requires WellFormedEnd(setup, end) && GenerateAt(setup, end, bytes).Generated?
  {
    MessagesFor(GenerateAt(setup, end, bytes).data, c)
  }

  /** The part of a reliable channel: the messages with these ids, each under the 16-bit form of its id; a message is
      among them if and only if it is in the window that both queues allow, has waited for its resend time, and has
      room at its turn. */
  lemma ReliablePartIsExact<M>(setup: Setup<M>, end: End<M>, bytes: nat, c: nat, share: nat, k: int)
    requires WellFormedEnd(setup, end) && Supported(setup.configs) && setup.Reliable(c)
    requires GenerateAt(setup, end, bytes).Generated?
    requires IsShare(setup.configs[c], BitsLeft(setup, end, bytes, c), share)
    ensures var config, s := setup.configs[c], SenderOf(setup, end, c);
            var ids, part := ChosenBy(setup, end, bytes, c), PartFor(setup, end, bytes, c);
            && Increasing(ids) && |part| == |ids| && (forall j :: j in ids || j in Earlier(ids, k) ==> j in s.queue)
            && (forall i :: 0 <= i < |ids| ==> ids[i] in ids && part[i] == (Wrap(ids[i]), s.queue[ids[i]].message))
            && (k in ids <==>
                  && k < s.oldest + config.messageSendQueueSize && k < s.oldest + config.messageReceiveQueueSize
                  && HasItsTurn(config, s, share, 32, 0, Earlier(ids, k), k))
  {
    RoomIsWhatIsLeft(setup, end, bytes, c);
    Isolation.ReliablePart(setup, end, bytes, c);
    ChooseMessagesIsSound(setup.configs[c], SenderOf(setup, end, c), RoomFor(setup, end, bytes, c));
    ChoiceIsExact(setup.configs[c], SenderOf(setup, end, c), RoomFor(setup, end, bytes, c), share, k);
  }

  /** The oldest unacked message is in the packet when its resend time has passed, it fits the bits left and the budget,
      and 64 bits are left of both. */
  lemma OldestGoesOut<M>(setup: Setup<M>, end: End<M>, bytes: nat, c: nat, share: nat)
    requires WellFormedEnd(setup, end) && Supported(setup.configs) && setup.Reliable(c)
    requires GenerateAt(setup, end, bytes).Generated?
    requires IsShare(setup.configs[c], BitsLeft(setup, end, bytes, c), share)
    requires var s := SenderOf(setup, end, c);
             && s.oldest < s.next && s.oldest in s.queue
             && s.queue[s.oldest].timeLastSent + setup.configs[c].messageResendTime <= s.time
             && 64 <= share && 48 + 8 * |setup.codec.encode(s.queue[s.oldest].message)| <= share
    ensures var s, part := SenderOf(setup, end, c), PartFor(setup, end, bytes, c);
            part != [] && part[0] == (Wrap(s.oldest), s.queue[s.oldest].message)
  {
    var s := SenderOf(setup, end, c);
    var ids := ChosenBy(setup, end, bytes, c);
    ReliablePartIsExact(setup, end, bytes, c, share, s.oldest);
    Isolation.ReliablePart(setup, end, bytes, c);
    ChooseMessagesIsSound(setup.configs[c], s, RoomFor(setup, end, bytes, c));
    assert ids != [] ==> ids[0] in ids && s.oldest <= ids[0];
    assert s.oldest in ids;
  }

  // ---- What an unreliable channel sends ------------------------------------------------------

  /** The part of an unreliable channel: of the messages up to the first one without a turn, which leave the queue,
      those that fit at their turn, in order, all under the packet's number. */
  lemma UnreliablePartIsExact<M>(setup: Setup<M>, end: End<M>, bytes: nat, c: nat, share: nat)
    requires WellFormedEnd(setup, end) && Supported(setup.configs) && c < |setup.configs| && !setup.Reliable(c)
    requires GenerateAt(setup, end, bytes).Generated?
    requires IsShare(setup.configs[c], BitsLeft(setup, end, bytes, c), share)
    ensures |GenerateAt(setup, end, bytes).channels| == |setup.configs|
    ensures GenerateAt(setup, end, bytes).channels[c].processor.UnreliableState?
    ensures var queue, max := end.connection.channels[c].processor.sendQueue, setup.configs[c].maxMessagesPerPacket;
            var after := GenerateAt(setup, end, bytes).channels[c].processor.sendQueue;
            var part := PartFor(setup, end, bytes, c);
            && part == U.Numbered(U.Contents(part), Wrap(end.nextPacket))
            && U.TakesExactly(setup.configs[c], setup.Size(), queue, share, U.Contents(part), after)
  {
    var config, queue := setup.configs[c], end.connection.channels[c].processor.sendQueue;
    RoomIsWhatIsLeft(setup, end, bytes, c);
    Isolation.ChannelAfterGenerate(setup, end, bytes, c);
    U.FillPacketIsExact(config, setup.Size(), queue, RoomFor(setup, end, bytes, c), share);
    NumberedContents(U.FillPacket(config, setup.Size(), queue, RoomFor(setup, end, bytes, c)).sent,
                     Wrap(end.nextPacket));
  }

  lemma NumberedContents<M>(messages: seq<M>, number: u16)
    ensures U.Contents(U.Numbered(messages, number)) == messages
  {
  }

  /** The first queued message is in the packet when it fits the bits left and the budget, and 64 bits are left of
      both. */
  lemma FirstGoesOut<M>(setup: Setup<M>, end: End<M>, bytes: nat, c: nat, share: nat)
    requires WellFormedEnd(setup, end) && Supported(setup.configs) && c < |setup.configs| && !setup.Reliable(c)
    requires GenerateAt(setup, end, bytes).Generated?
    requires IsShare(setup.configs[c], BitsLeft(setup, end, bytes, c), share)
    requires var queue := end.connection.channels[c].processor.sendQueue;
             queue != [] && 64 <= share && 32 + 8 * |setup.codec.encode(queue[0])| <= share
    ensures var queue, part := end.connection.channels[c].processor.sendQueue, PartFor(setup, end, bytes, c);
            part != [] && part[0] == (Wrap(end.nextPacket), queue[0])
  {
    var config, queue := setup.configs[c], end.connection.channels[c].processor.sendQueue;
    RoomIsWhatIsLeft(setup, end, bytes, c);
    Isolation.ChannelAfterGenerate(setup, end, bytes, c);
    U.FirstIsSent(config, setup.Size(), queue, RoomFor(setup, end, bytes, c), share);
  }

  /** No channel takes more than its share, which is at most its budget, nor more messages than it may. */
  lemma PartKeepsToItsShare<M>(setup: Setup<M>, end: End<M>, bytes: nat, c: nat, share: nat)
    requires WellFormedEnd(setup, end) && Supported(setup.configs) && c < |setup.configs|
    requires GenerateAt(setup, end, bytes).Generated?
    requires IsShare(setup.configs[c], BitsLeft(setup, end, bytes, c), share)
    ensures var part := PartFor(setup, end, bytes, c);
            && |part| <= setup.configs[c].maxMessagesPerPacket && Writable(setup.configs, ChannelData(c, part))
            && (part != [] ==> 8 * |EncodeChannel(setup.configs, setup.codec, ChannelData(c, part))| <= share)
  {
    var channel := end.connection.channels[c];
    RoomIsWhatIsLeft(setup, end, bytes, c);
    Isolation.ChannelAfterGenerate(setup, end, bytes, c);
    PartIsSound(setup.configs[c], setup.Size(), channel, Wrap(end.nextPacket), RoomFor(setup, end, bytes, c));
    PartIsExact(setup.configs[c], setup.codec, channel, Wrap(end.nextPacket), RoomFor(setup, end, bytes, c));
    var part := PartFor(setup, end, bytes, c);
    if part != [] {
      PredictionIsExact(setup.configs, setup.codec, ChannelData(c, part));
    }
  }

  // ---- When no packet comes about ------------------------------------------------------------

  /** The channels before `c` had their turns, and at the turn of `c` a subtraction underflows: messages are outstanding
      and fewer than 32 bits are left, or in the budget; or what `c` gives needs 32 bits more than are left. */
  ghost predicate TurnUnderflows<M>(setup: Setup<M>, end: End<M>, bytes: nat, c: nat)
    requires WellFormedEnd(setup, end) && c < |setup.configs|
  {
    var config, channel, number := setup.configs[c], end.connection.channels[c], Wrap(end.nextPacket);
    var packing := Packed(setup.configs, setup.Size(), end.connection.channels, number, bytes, c);
    && packing.Packing? && AllWritable(setup.configs, packing.data)
    && var before := EncodeChannels(setup.configs, setup.codec, packing.data);
       var left := 8 * bytes - 16 - 32 * |packing.data| - 8 * |before|;
       var part := ChannelData(c, C.PacketData(config, setup.Size(), channel, number, packing.room).messages);
       || (&& setup.Reliable(c) && SenderOf(setup, end, c).oldest != SenderOf(setup, end, c).next
           && (left < 32 || (config.packetBudget.Some? && config.packetBudget.value < 4)))
       || (&& part.messages != [] && Writable(setup.configs, part)
           && left < 32 + 8 * |EncodeChannel(setup.configs, setup.codec, part)|)
  }

  lemma TurnUnderflowsIff<M>(setup: Setup<M>, end: End<M>, bytes: nat, c: nat, n: nat)
    requires WellFormedEnd(setup, end) && Supported(setup.configs) && n == c + 1 <= |setup.configs|
    requires Packed(setup.configs, setup.Size(), end.connection.channels, Wrap(end.nextPacket), bytes, c).Packing?
    ensures Packed(setup.configs, setup.Size(), end.connection.channels, Wrap(end.nextPacket), bytes, n).Underflow?
       <==> TurnUnderflows(setup, end, bytes, c)
  {
    var config, channel, number := setup.configs[c], end.connection.channels[c], Wrap(end.nextPacket);
    var packing := Packed(setup.configs, setup.Size(), end.connection.channels, number, bytes, c);
    var part := C.PacketData(config, setup.Size(), channel, number, packing.room);
    LastTurn(setup.configs, setup.Size(), end.connection.channels, number, bytes, c, n);
    PackedIsAccounted(setup.configs, setup.codec, end.connection.channels, number, bytes, c);
    PartIsSound(config, setup.Size(), channel, number, packing.room);
    PartIsExact(config, setup.codec, channel, number, packing.room);
    if part.messages != [] {
      PredictionIsExact(setup.configs, setup.codec, ChannelData(c, part.messages));
    }
  }

  lemma {:induction false} FirstUnderflow<M>(setup: Setup<M>, end: End<M>, bytes: nat, n: nat)
    requires WellFormedEnd(setup, end) && Supported(setup.configs) && n <= |setup.configs| && 16 <= 8 * bytes
    requires Packed(setup.configs, setup.Size(), end.connection.channels, Wrap(end.nextPacket), bytes, n).Underflow?
    ensures exists c: nat :: c < n && TurnUnderflows(setup, end, bytes, c)
    decreases n
  {
    if n == 0 {
    } else {
      var c: nat := n - 1;
      LastTurn(setup.configs, setup.Size(), end.connection.channels, Wrap(end.nextPacket), bytes, c, n);
      if Packed(setup.configs, setup.Size(), end.connection.channels, Wrap(end.nextPacket), bytes, c).Packing? {
        TurnUnderflowsIff(setup, end, bytes, c, n);
      } else {
        FirstUnderflow(setup, end, bytes, c);
      }
    }
  }

  /** Generating a packet panics if and only if the buffer is too small for 16 bits or some channel's turn
      underflows. */
  lemma GenerateUnderflowsIff<M>(setup: Setup<M>, end: End<M>, bytes: nat)
    requires WellFormedEnd(setup, end) && Supported(setup.configs) && setup.configs != []
    ensures GenerateAt(setup, end, bytes).Underflowed?
       <==> 8 * bytes < 16 || exists c: nat :: c < |setup.configs| && TurnUnderflows(setup, end, bytes, c)
  {
    var channels, number, all := end.connection.channels, Wrap(end.nextPacket), |setup.configs|;
    if 8 * bytes < 16 {
      assert Packed(setup.configs, setup.Size(), channels, number, bytes, 0).Underflow?;
      if GenerateAt(setup, end, bytes).Generated? {
        PackedBefore(setup.configs, setup.Size(), channels, number, bytes, all, 0);
      }
    } else if GenerateAt(setup, end, bytes).Underflowed? {
      FirstUnderflow(setup, end, bytes, all);
    } else {
      forall c: nat | c < all
        ensures !TurnUnderflows(setup, end, bytes, c)
      {
        var n := c + 1;
        PackedBefore(setup.configs, setup.Size(), channels, number, bytes, all, n);
        PackedBefore(setup.configs, setup.Size(), channels, number, bytes, all, c);
        TurnUnderflowsIff(setup, end, bytes, c, n);
      }
    }
  }
}
