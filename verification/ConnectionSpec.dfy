/** A connection on values: channels of both kinds that share packets and acks. */
module ConnectionSpec {
  import opened Wrap16
  import opened Options
  import opened Configs
  import opened Codec
  import opened ReliableSpec
  import C = ChannelSpec
  import U = UnreliableChannel

  datatype ConnectionErrorLevel = NoError | ChannelError | ReadPacketFailed

  datatype ConnectionState<M> = ConnectionState(errorLevel: ConnectionErrorLevel, channels: seq<C.ChannelState<M>>)

  ghost predicate ChannelsValid<M>(configs: seq<Config>, size: M -> nat, channels: seq<C.ChannelState<M>>) {
    && |channels| == |configs|
    && forall i :: 0 <= i < |channels| ==> C.ProcessorValid(configs[i], size, channels[i].processor)
  }

  function NewConnection<M>(configs: seq<Config>, time: real): ConnectionState<M> {
    ConnectionState(NoError, seq(|configs|, i requires 0 <= i < |configs| => C.NewChannel(configs[i], time)))
  }

  function SizeOf<M>(mc: MessageCodec<M>): M -> nat {
    m => |mc.encode(m)|
  }

  // ---- Generating a packet -------------------------------------------------------------------

  /** A packet being filled: the bits left, and the entries so far. */
  datatype Packing<M> = Underflow | Packing(room: nat, data: seq<ChannelData<M>>)

  function StartPacking<M>(bytes: nat): Packing<M> {
    if 8 * bytes < PACKET_HEADER_BITS then Underflow else Packing(8 * bytes - PACKET_HEADER_BITS, [])
  }

  /** What channel `i` adds when its part is `part`. */
  function AddPart<M>(packing: Packing<M>, i: nat, part: C.PacketPart<M>): Packing<M>
    requires packing.Packing?
  {
    if part.bits == 0 then packing
    else if packing.room < CHANNEL_HEADER_BITS + part.bits then Underflow
    else Packing(packing.room - CHANNEL_HEADER_BITS - part.bits, packing.data + [ChannelData(i, part.messages)])
  }

  /** The turn of channel `i`. */
  function Turn<M>(
    config: Config, size: M -> nat, c: C.ChannelState<M>, number: u16, packing: Packing<M>, i: nat): Packing<M>
    requires packing.Packing? && (c.processor.ReliableState? ==> config.Valid())
  {
    if !C.HasRoom(config, c, packing.room) then Underflow
    else AddPart(packing, i, C.PacketData(config, size, c, number, packing.room))
  }

  /** The packing after the turns of the first `n` channels, if no subtraction underflows on the way. */
  function Packed<M>(
    configs: seq<Config>, size: M -> nat, channels: seq<C.ChannelState<M>>, number: u16, bytes: nat, n: nat): Packing<M>
    requires ChannelsUsable(configs, channels) && n <= |channels|
    decreases n
  {
    if n == 0 then StartPacking(bytes)
    else
      var packing := Packed(configs, size, channels, number, bytes, n - 1);
      if packing.Underflow? then Underflow
      else Turn(configs[n - 1], size, channels[n - 1], number, packing, n - 1)
  }

  /** The packing after one more turn. */
  lemma LastTurn<M>(
    configs: seq<Config>, size: M -> nat, channels: seq<C.ChannelState<M>>, number: u16, bytes: nat, i: nat, n: nat)
    requires ChannelsUsable(configs, channels) && n == i + 1 <= |channels|
    ensures var before := Packed(configs, size, channels, number, bytes, i);
            Packed(configs, size, channels, number, bytes, n)
            == if before.Underflow? then Underflow else Turn(configs[i], size, channels[i], number, before, i)
  {
  }

  predicate ChannelsUsable<M>(configs: seq<Config>, channels: seq<C.ChannelState<M>>) {
    && |channels| == |configs|
    && forall i :: 0 <= i < |channels| ==> channels[i].processor.ReliableState? ==> configs[i].Valid()
  }

  /** If the first `n` channels had their turn, the ones before them had. */
  lemma {:induction false} PackedBefore<M>(
    configs: seq<Config>, size: M -> nat, channels: seq<C.ChannelState<M>>, number: u16, bytes: nat, n: nat, i: nat)
    requires ChannelsUsable(configs, channels) && i <= n <= |channels|
    requires Packed(configs, size, channels, number, bytes, n).Packing?
    ensures Packed(configs, size, channels, number, bytes, i).Packing?
    ensures i < n ==> C.HasRoom(configs[i], channels[i], Packed(configs, size, channels, number, bytes, i).room)
    decreases n
  {
    if i == n {
    } else {
      PackedBefore(configs, size, channels, number, bytes, n - 1, i);
    }
  }

  /** The channels after the turns of the first `n` of them, one turn after the other. */
  ghost function TurnsTaken<M>(
    configs: seq<Config>, size: M -> nat, channels: seq<C.ChannelState<M>>, number: u16, bytes: nat, n: nat)
    : (r: seq<C.ChannelState<M>>)
    requires ChannelsUsable(configs, channels) && n <= |channels|
    requires Packed(configs, size, channels, number, bytes, n).Packing?
    ensures |r| == |channels|
    decreases n
  {
    if n == 0 then channels
    else
      TurnsTaken(configs, size, channels, number, bytes, n - 1)
      [n - 1 := C.AfterPacketData(configs[n - 1], size, channels[n - 1], number,
                                  Packed(configs, size, channels, number, bytes, n - 1).room)]
  }

  lemma TakenOneByOne<M>(
    configs: seq<Config>, size: M -> nat, channels: seq<C.ChannelState<M>>, number: u16, bytes: nat, last: nat, n: nat)
    requires ChannelsUsable(configs, channels) && n == last + 1 <= |channels|
    requires Packed(configs, size, channels, number, bytes, n).Packing?
    ensures Packed(configs, size, channels, number, bytes, last).Packing?
    ensures TurnsTaken(configs, size, channels, number, bytes, n)
         == TurnsTaken(configs, size, channels, number, bytes, last)
            [last := C.AfterPacketData(configs[last], size, channels[last], number,
                                       Packed(configs, size, channels, number, bytes, last).room)]
  {
  }

  /** No channel's turn touches another. */
  lemma {:induction false} TurnsTakenAt<M>(
    configs: seq<Config>, size: M -> nat, channels: seq<C.ChannelState<M>>, number: u16, bytes: nat, n: nat, i: nat)
    requires ChannelsUsable(configs, channels) && n <= |channels| && i < |channels|
    requires Packed(configs, size, channels, number, bytes, n).Packing?
    ensures i < n ==> Packed(configs, size, channels, number, bytes, i).Packing?
    ensures TurnsTaken(configs, size, channels, number, bytes, n)[i]
         == if i < n then C.AfterPacketData(configs[i], size, channels[i], number,
                                            Packed(configs, size, channels, number, bytes, i).room)
            else channels[i]
    decreases n
  {
    PackedBefore(configs, size, channels, number, bytes, n, if i < n then i else n);
    if n == 0 {
    } else {
      var last := n - 1;
      TakenOneByOne(configs, size, channels, number, bytes, last, n);
      if i != last {
        TurnsTakenAt(configs, size, channels, number, bytes, last, i);
      }
    }
  }

  /** One more turn, in terms of the channels as they are by then. */
  lemma OneMoreTurn<M>(
    configs: seq<Config>, size: M -> nat, channels: seq<C.ChannelState<M>>, number: u16, bytes: nat, i: nat)
    requires ChannelsUsable(configs, channels) && i < |channels|
    requires Packed(configs, size, channels, number, bytes, i).Packing?
    ensures var packing, now := Packed(configs, size, channels, number, bytes, i),
                                TurnsTaken(configs, size, channels, number, bytes, i);
            && now[i] == channels[i]
            && Packed(configs, size, channels, number, bytes, i + 1)
               == Turn(configs[i], size, now[i], number, packing, i)
            && (Packed(configs, size, channels, number, bytes, i + 1).Packing? ==>
                  TurnsTaken(configs, size, channels, number, bytes, i + 1)
                  == now[i := C.AfterPacketData(configs[i], size, now[i], number, packing.room)])
  {
    TurnsTakenAt(configs, size, channels, number, bytes, i, i);
  }

  lemma GenerateTakesAllTurns<M>(
    configs: seq<Config>, size: M -> nat, channels: seq<C.ChannelState<M>>, number: u16, bytes: nat)
    requires ChannelsUsable(configs, channels) && channels != []
    requires Packed(configs, size, channels, number, bytes, |channels|).Packing?
    ensures Generate(configs, size, channels, number, bytes)
         == Generated(TurnsTaken(configs, size, channels, number, bytes, |channels|),
                      Packed(configs, size, channels, number, bytes, |channels|).data)
  {
    forall i | 0 <= i < |channels|
      ensures Generate(configs, size, channels, number, bytes).channels[i]
           == TurnsTaken(configs, size, channels, number, bytes, |channels|)[i]
    {
      TurnsTakenAt(configs, size, channels, number, bytes, |channels|, i);
    }
  }

  datatype Generated<M> = Underflowed | Generated(channels: seq<C.ChannelState<M>>, data: seq<ChannelData<M>>)

  /** The channels after a packet is generated, and what is in it. Channel `i` fills its part knowing what room the
      channels before it left. */
  function Generate<M>(
    configs: seq<Config>, size: M -> nat, channels: seq<C.ChannelState<M>>, number: u16, bytes: nat): Generated<M>
    requires ChannelsUsable(configs, channels)
  {
    var n := |channels|;
    if n == 0 then Generated([], [])
    else
      var packing := Packed(configs, size, channels, number, bytes, n);
      if packing.Underflow? then Underflowed
      else
        Generated(seq(n, i requires 0 <= i < n =>
                        PackedBefore(configs, size, channels, number, bytes, n, i);
                        C.AfterPacketData(configs[i], size, channels[i], number,
                                          Packed(configs, size, channels, number, bytes, i).room)),
                  packing.data)
  }

  /** What the serializer asserts of the configuration. */
  predicate Supported(configs: seq<Config>) {
    |configs| < 65535 && forall i :: 0 <= i < |configs| ==> 1 <= configs[i].maxMessagesPerPacket <= 256
  }

  /** The messages the packet has for channel `i`. */
  function MessagesFor<M>(data: seq<ChannelData<M>>, i: nat): seq<(u16, M)>
    decreases |data|
  {
    if data == [] then [] else if data[0].channelIndex == i then data[0].messages else MessagesFor(data[1..], i)
  }

  // ---- Taking in a packet --------------------------------------------------------------------

  /** Refused: the program gives up on the packet, and it is not acked. */
  datatype Reading<M> =
    | Panicked
    | Refused(channels: seq<C.ChannelState<M>>)
    | Accepted(channels: seq<C.ChannelState<M>>)

  /** Hand the data of a packet to its channels. One past the last index is not caught by the guard. */
  function ReadEntries<M>(
    configs: seq<Config>, channels: seq<C.ChannelState<M>>, data: seq<ChannelData<M>>, number: u16): Reading<M>
    requires |configs| == |channels|
    decreases |data|
  {
    if data == [] then Accepted(channels)
    else
      var i := data[0].channelIndex;
      if i > |channels| then ReadEntries(configs, channels, data[1..], number)
      else if i == |channels| then Panicked
      else
        var result := C.ProcessPacketData(configs[i], channels[i], data[0].messages, number);
        if !result.ok then Panicked
        else if result.channel.errorLevel != C.NoError then Refused(channels[i := result.channel])
        else ReadEntries(configs, channels[i := result.channel], data[1..], number)
  }

  /** The channels that are handed something before the reading ends. */
  ghost function HandedTo<M>(channels: seq<C.ChannelState<M>>, data: seq<ChannelData<M>>): set<nat>
    decreases |data|
  {
    if data == [] then {}
    else
      var i := data[0].channelIndex;
      if i > |channels| then HandedTo(channels, data[1..])
      else if i == |channels| || channels[i].errorLevel != C.NoError then {}
      else {i} + HandedTo(channels, data[1..])
  }

  function ProcessPacket<M>(
    configs: seq<Config>, mc: MessageCodec<M>, c: ConnectionState<M>, number: u16, packet: seq<byte>): Reading<M>
    requires |configs| == |c.channels|
  {
    if c.errorLevel != NoError then Refused(c.channels)
    else
      match DecodePacket(configs, mc, packet)
      case None => Panicked
      case Some((data, _)) => ReadEntries(configs, c.channels, data, number)
  }

  // ---- Acks and time -------------------------------------------------------------------------

  /** Some channel finds the packet acked already, and panics. */
  ghost predicate AckPanics<M>(channels: seq<C.ChannelState<M>>, ack: u16) {
    exists i :: 0 <= i < |channels| && C.AckResultOf(channels[i], ack) == AlreadyAcked
  }

  predicate InOrder<M>(c: C.ChannelState<M>) {
    c.processor.ReliableState? ==> c.processor.sender.oldest <= c.processor.sender.next
  }

  /** Every channel learns of every ack. */
  function AckAll<M>(channels: seq<C.ChannelState<M>>, ack: u16): (r: seq<C.ChannelState<M>>)
    requires forall i :: 0 <= i < |channels| ==> InOrder(channels[i])
    ensures |r| == |channels|
    ensures forall i :: 0 <= i < |channels| ==>
              InOrder(channels[i]) && InOrder(r[i]) && r[i] == C.ProcessAck(channels[i], ack)
  {
    seq(|channels|, i requires 0 <= i < |channels| && InOrder(channels[i]) => C.ProcessAck(channels[i], ack))
  }

  /** The channels after a list of acks; nothing if the program panics. */
  ghost function ProcessAcks<M>(channels: seq<C.ChannelState<M>>, acks: seq<u16>): Option<seq<C.ChannelState<M>>>
    requires forall i :: 0 <= i < |channels| ==> InOrder(channels[i])
    decreases |acks|
  {
    if acks == [] then Some(channels)
    else if AckPanics(channels, acks[0]) then None
    else ProcessAcks(AckAll(channels, acks[0]), acks[1..])
  }

  /** The first channel in error, or the number of channels. */
  function FirstInError<M>(channels: seq<C.ChannelState<M>>, from: nat): (r: nat)
    requires from <= |channels|
    ensures from <= r <= |channels|
    ensures r < |channels| ==> channels[r].errorLevel != C.NoError
    ensures forall i :: from <= i < r ==> channels[i].errorLevel == C.NoError
    decreases |channels| - from
  {
    if from == |channels| || channels[from].errorLevel != C.NoError then from
    else FirstInError(channels, from + 1)
  }

  /** Time passes for the channels up to the first one in error, which puts the connection in error. */
  function AdvanceTime<M>(c: ConnectionState<M>, time: real): ConnectionState<M> {
    var failed := FirstInError(c.channels, 0);
    ConnectionState(if failed < |c.channels| then ChannelError else c.errorLevel,
                    seq(|c.channels|, i requires 0 <= i < |c.channels| =>
                          if i <= failed then C.AdvanceTime(c.channels[i], time) else c.channels[i]))
  }

  /** Time has passed for the first `i` channels. */
  ghost predicate AdvancedBelow<M>(
    before: seq<C.ChannelState<M>>, now: seq<C.ChannelState<M>>, time: real, i: nat)
  {
    && i <= |before| == |now|
    && (forall j :: 0 <= j < i ==> now[j] == C.AdvanceTime(before[j], time))
    && forall j :: i <= j < |before| ==> now[j] == before[j]
  }

  lemma AdvanceOneMore<M>(before: seq<C.ChannelState<M>>, now: seq<C.ChannelState<M>>, time: real, i: nat)
    requires AdvancedBelow(before, now, time, i) && i < |before|
    ensures now[i] == before[i]
    ensures AdvancedBelow(before, now[i := C.AdvanceTime(now[i], time)], time, i + 1)
  {
  }

  /** The first `i` channels have learned of an ack, and none panicked on it. */
  ghost predicate AckedBelow<M>(before: seq<C.ChannelState<M>>, now: seq<C.ChannelState<M>>, ack: u16, i: nat) {
    && i <= |before| == |now| && (forall j :: 0 <= j < |before| ==> InOrder(before[j]))
    && (forall j :: 0 <= j < i ==>
          C.AckResultOf(before[j], ack) != AlreadyAcked && now[j] == C.ProcessAck(before[j], ack))
    && forall j :: i <= j < |before| ==> now[j] == before[j]
  }

  lemma AckOneMore<M>(before: seq<C.ChannelState<M>>, now: seq<C.ChannelState<M>>, ack: u16, i: nat)
    requires AckedBelow(before, now, ack, i) && i < |before|
    ensures now[i] == before[i]
    ensures if C.AckResultOf(now[i], ack) == AlreadyAcked then AckPanics(before, ack)
            else AckedBelow(before, now[i := C.ProcessAck(now[i], ack)], ack, i + 1)
  {
  }

  lemma AllAcked<M>(before: seq<C.ChannelState<M>>, now: seq<C.ChannelState<M>>, ack: u16)
    requires AckedBelow(before, now, ack, |before|)
    ensures !AckPanics(before, ack) && now == AckAll(before, ack)
  {
  }

  /** The same, channel by channel. */
  lemma AdvanceTimeByChannel<M>(c: ConnectionState<M>, time: real, channels: seq<C.ChannelState<M>>)
    requires |channels| == |c.channels|
    requires forall i :: 0 <= i < |channels| ==>
               channels[i] == if i <= FirstInError(c.channels, 0) then C.AdvanceTime(c.channels[i], time)
                              else c.channels[i]
    ensures AdvanceTime(c, time).channels == channels
  {
  }

  /** Every channel is reset, and the error is gone. */
  function Reset<M>(c: ConnectionState<M>): ConnectionState<M> {
    ConnectionState(NoError, seq(|c.channels|, i requires 0 <= i < |c.channels| => C.Reset(c.channels[i])))
  }

  // ---- Errors, time and resets, in plain terms -----------------------------------------------

  predicate NoErrorsBefore<M>(channels: seq<C.ChannelState<M>>, n: nat) {
    forall i :: 0 <= i < n && i < |channels| ==> channels[i].errorLevel == C.NoError
  }

  /** A channel in error, whichever it is, puts the connection in error. Every reliable channel before the first one in
      error, and that one, has the new time; nothing else changes. */
  lemma AdvanceTimeIsExact<M>(c: ConnectionState<M>, time: real)
    ensures var r := AdvanceTime(c, time);
            && r.errorLevel == (if NoErrorsBefore(c.channels, |c.channels|) then c.errorLevel else ChannelError)
            && |r.channels| == |c.channels|
            && forall i :: 0 <= i < |c.channels| ==>
                 r.channels[i] == if NoErrorsBefore(c.channels, i) && c.channels[i].processor.ReliableState?
                                  then SetClock(c.channels[i], time) else c.channels[i]
  {
    var failed := FirstInError(c.channels, 0);
    forall i | 0 <= i < |c.channels|
      ensures NoErrorsBefore(c.channels, i) <==> i <= failed
    {
      assert failed < i ==> c.channels[failed].errorLevel != C.NoError;
    }
  }

  function SetClock<M>(c: C.ChannelState<M>, time: real): C.ChannelState<M>
    requires c.processor.ReliableState?
  {
    c.(processor := c.processor.(sender := c.processor.sender.(time := time)))
  }

  /** A connection that is reset is a new one, but for the times of its channels. */
  lemma ResetIsNew<M>(configs: seq<Config>, size: M -> nat, c: ConnectionState<M>, time: real)
    requires ChannelsValid(configs, size, c.channels)
    ensures Reset(c).errorLevel == NoError && |Reset(c).channels| == |configs|
    ensures forall i :: 0 <= i < |configs| ==>
              var channel := c.channels[i];
              Reset(c).channels[i]
              == C.NewChannel(configs[i], if channel.processor.ReliableState? then channel.processor.sender.time else time)
    ensures AdvanceTime(Reset(c), time) == NewConnection<M>(configs, time)
  {
    forall i | 0 <= i < |c.channels|
      ensures var channel := c.channels[i];
              var clock := if channel.processor.ReliableState? then channel.processor.sender.time else time;
              && C.Reset(channel) == C.NewChannel(configs[i], clock)
              && C.AdvanceTime(C.Reset(channel), time) == C.NewChannel<M>(configs[i], time)
    {
      var channel := c.channels[i];
      C.ResetIsNew(configs[i], size, channel,
                   if channel.processor.ReliableState? then channel.processor.sender.time else time);
    }
  }
}
