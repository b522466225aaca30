/** The connection object: its channels, and the packets and acks they share. */
module Connections {
  import opened Wrap16
  import opened Options
  import opened Configs
  import opened Codec
  import opened ReliableSpec
  import opened Channels
  import opened Serializer
  import C = ChannelSpec
  import Spec = ConnectionSpec
  import PacketBudget

  datatype Outcome = Panicked | Refused | Accepted

  class Connection<!M> {
    const configs: seq<Config>
    const codec: MessageCodec<M>
    const channels: seq<Channel<M>>
    var errorLevel: Spec.ConnectionErrorLevel

    ghost function ChannelRepr(): set<object> {
      set i, o | 0 <= i < |channels| && o in channels[i].Repr() :: o
    }

    ghost function Repr(): set<object> {
      {this} + ChannelRepr()
    }

    static ghost predicate Apart(channels: seq<Channel<M>>) {
      forall i, j :: 0 <= i < j < |channels| ==> channels[i].Repr() !! channels[j].Repr()
    }

    static ghost predicate OwnedBy(channels: seq<Channel<M>>, owned: set<object>) {
      Apart(channels) && forall i :: 0 <= i < |channels| ==> channels[i].Repr() <= owned
    }

    static lemma OneMoreOwned(channels: seq<Channel<M>>, owned: set<object>, channel: Channel<M>)
      requires OwnedBy(channels, owned) && channel.Repr() !! owned
      ensures OwnedBy(channels + [channel], owned + channel.Repr())
    {
    }

    ghost predicate Separate() {
      this !in ChannelRepr() && Apart(channels)
    }

    ghost predicate Valid()
      reads Repr()
    {
      Separate() && ChannelsValid()
    }

    ghost predicate ChannelsValid()
      reads ChannelRepr()
    {
      && |channels| == |configs|
      && forall i :: 0 <= i < |channels| ==>
           && channels[i].Valid() && channels[i].config == configs[i] && channels[i].channelIndex == i
           && channels[i].encodedSize == Spec.SizeOf(codec)
    }

    ghost function States(): (r: seq<C.ChannelState<M>>)
      reads ChannelRepr()
      ensures |r| == |channels| && forall i :: 0 <= i < |channels| ==> r[i] == channels[i].State()
    {
      seq(|channels|, i requires 0 <= i < |channels| reads ChannelRepr() => channels[i].State())
    }

    ghost function State(): Spec.ConnectionState<M>
      reads Repr()
    {
      Spec.ConnectionState(errorLevel, States())
    }

    /** What a new channel is. */
    static ghost predicate Made(config: Config, time: real, size: M -> nat, channel: Channel<M>, i: nat)
      reads channel.Repr()
    {
      && (config.Usable() ==> channel.Valid())
      && channel.config == config && channel.channelIndex == i
      && channel.encodedSize == size && channel.State() == C.NewChannel(config, time)
    }

    static ghost predicate AllMade(configs: seq<Config>, time: real, size: M -> nat, channels: seq<Channel<M>>)
      reads set i, o | 0 <= i < |channels| && o in channels[i].Repr() :: o
    {
      |channels| == |configs| && forall i :: 0 <= i < |configs| ==> Made(configs[i], time, size, channels[i], i)
    }

    /** What building the channels asserts. */
    static ghost predicate Buildable(configs: seq<Config>) {
      forall i :: 0 <= i < |configs| ==> configs[i].Buildable()
    }

    static ghost predicate Usable(configs: seq<Config>) {
      forall i :: 0 <= i < |configs| ==> configs[i].Usable()
    }

    static method NewChannels(configs: seq<Config>, time: real, size: M -> nat)
      returns (channels: seq<Channel<M>>, ghost owned: set<object>)
      requires Buildable(configs)
      ensures fresh(owned) && OwnedBy(channels, owned) && AllMade(configs, time, size, channels)
    {
      channels, owned := [], {};
      for i := 0 to |configs|
        invariant |channels| == i && fresh(owned) && OwnedBy(channels, owned)
        invariant forall j :: 0 <= j < i ==> Made(configs[j], time, size, channels[j], j)
      {
        var channel := new Channel(configs[i], i, time, size);
        OneMoreOwned(channels, owned, channel);
        channels, owned := channels + [channel], owned + channel.Repr();
      }
    }

    constructor (configs: seq<Config>, time: real, codec: MessageCodec<M>)
      requires configs != [] && Buildable(configs)
      ensures Usable(configs) ==> Valid()
      ensures fresh(Repr()) && State() == Spec.NewConnection(configs, time)
      ensures this.configs == configs && this.codec == codec
    {
      var channels, owned := NewChannels(configs, time, Spec.SizeOf(codec));
      this.configs, this.codec, this.channels, errorLevel := configs, codec, channels, Spec.NoError;
      new;
      NewIsValid(time);
    }

    lemma NewIsValid(time: real)
      requires Separate() && AllMade(configs, time, Spec.SizeOf(codec), channels) && errorLevel == Spec.NoError
      ensures Usable(configs) ==> Valid()
      ensures State() == Spec.NewConnection(configs, time)
    {
    }

    lemma StatesAreValid()
      requires ChannelsValid()
      ensures Spec.ChannelsValid(configs, Spec.SizeOf(codec), States())
    {
      forall i | 0 <= i < |channels|
        ensures C.ProcessorValid(configs[i], Spec.SizeOf(codec), States()[i].processor)
      {
        channels[i].StateIsValid();
      }
    }

    /** When only channel `i` was touched, the others are as they were. */
    twostate lemma OnlyChannel(i: nat)
      requires i < |channels| && old(Valid()) && channels[i].Valid()
      requires forall j :: 0 <= j < |channels| && j != i ==> channels[j].Untouched()
      ensures Valid() && States() == old(States())[i := channels[i].State()]
    {
      forall j | 0 <= j < |channels| && j != i
        ensures channels[j].Valid() && channels[j].State() == old(channels[j].State())
      {
        assert channels[j].Untouched();
      }
    }

    /** When nothing of this connection was touched, it is as it was. */
    twostate lemma Untouched()
      requires old(Valid()) && unchanged(this) && forall o <- ChannelRepr() :: unchanged(o)
      ensures Valid() && State() == old(State())
    {
      forall i | 0 <= i < |channels|
        ensures channels[i].Valid() && channels[i].State() == old(channels[i].State())
      {
        assert forall o <- channels[i].Repr() :: o in ChannelRepr();
      }
    }

    method AdvanceChannel(i: nat, time: real)
      requires Valid() && i < |channels|
      modifies channels[i].Repr()
      ensures Valid() && States() == old(States())[i := C.AdvanceTime(old(States())[i], time)]
    {
      channels[i].AdvanceTime(time);
      OnlyChannel(i);
    }

    /** Advance the channels, up to the first one in error. */
    method AdvanceChannels(time: real) returns (failed: bool)
      requires Valid()
      modifies ChannelRepr()
      ensures Valid() && States() == Spec.AdvanceTime(old(State()), time).channels
      ensures failed == (Spec.FirstInError(old(States()), 0) < |channels|)
    {
      ghost var before := States();
      ghost var first := Spec.FirstInError(before, 0);
      for i := 0 to |channels|
        invariant Valid() && i <= first && Spec.AdvancedBelow(before, States(), time, i)
      {
        Spec.AdvanceOneMore(before, States(), time, i);
        AdvanceChannel(i, time);
        if channels[i].errorLevel != C.NoError {
          Spec.AdvanceTimeByChannel(old(State()), time, States());
          return true;
        }
      }
      Spec.AdvanceTimeByChannel(old(State()), time, States());
      failed := false;
    }

    method AdvanceTime(time: real)
      requires Valid()
      modifies Repr()
      ensures Valid() && State() == Spec.AdvanceTime(old(State()), time)
      ensures errorLevel
           == if Spec.NoErrorsBefore(old(States()), |channels|) then old(errorLevel) else Spec.ChannelError
    {
      Spec.AdvanceTimeIsExact(State(), time);
      var failed := AdvanceChannels(time);
      if failed {
        errorLevel := Spec.ChannelError;
      }
    }

    method ProcessAckOnChannel(i: nat, ack: u16) returns (result: AckResult)
      requires Valid() && i < |channels|
      modifies channels[i].Repr()
      ensures Valid() && Spec.InOrder(old(States())[i])
      ensures result == C.AckResultOf(old(States())[i], ack)
      ensures States() == old(States())[i := C.ProcessAck(old(States())[i], ack)]
    {
      ghost var before := channels[i].State();
      assert States()[i] == before;
      result := channels[i].ProcessAck(ack);
      OnlyChannel(i);
    }

    /** Tell every channel of one ack. */
    method ProcessAck(ack: u16) returns (ok: bool)
      requires Valid()
      modifies ChannelRepr()
      ensures Valid() && AllInOrder(old(States()))
      ensures ok == !Spec.AckPanics(old(States()), ack)
      ensures ok ==> States() == Spec.AckAll(old(States()), ack)
    {
      ghost var before := States();
      StatesInOrder();
      for i := 0 to |channels|
        invariant Valid() && Spec.AckedBelow(before, States(), ack, i)
      {
        Spec.AckOneMore(before, States(), ack, i);
        var result := ProcessAckOnChannel(i, ack);
        if result == AlreadyAcked {
          return false;
        }
      }
      Spec.AllAcked(before, States(), ack);
      ok := true;
    }

    static predicate AllInOrder(channels: seq<C.ChannelState<M>>) {
      forall i :: 0 <= i < |channels| ==> Spec.InOrder(channels[i])
    }

    lemma StatesInOrder()
      requires ChannelsValid()
      ensures AllInOrder(States())
    {
      StatesAreValid();
    }

    /** Not ok where the program panics. */
    method ProcessAcks(acks: seq<u16>) returns (ok: bool)
      requires Valid()
      modifies ChannelRepr()
      ensures Valid() && AllInOrder(old(States()))
      ensures Spec.ProcessAcks(old(States()), acks) == if ok then Some(States()) else None
    {
      StatesInOrder();
      for i := 0 to |acks|
        invariant Valid() && AllInOrder(States())
        invariant Spec.ProcessAcks(old(States()), acks) == Spec.ProcessAcks(States(), acks[i..])
      {
        assert acks[i..][1..] == acks[i + 1..];
        ok := ProcessAck(acks[i]);
        if !ok {
          return;
        }
      }
      ok := true;
    }

    method ProcessPacketDataOnChannel(i: nat, messages: seq<(u16, M)>, packetSequence: u16) returns (ok: bool)
      requires Valid() && i < |channels|
      modifies channels[i].Repr()
      ensures Valid()
      ensures var result := C.ProcessPacketData(configs[i], old(States())[i], messages, packetSequence);
              ok == result.ok && States() == old(States())[i := result.channel]
    {
      ok := channels[i].ProcessPacketData(messages, packetSequence);
      OnlyChannel(i);
    }

    ghost predicate Ended(reading: Spec.Reading<M>, outcome: Outcome)
      reads ChannelRepr()
    {
      match reading
      case Panicked => outcome == Panicked
      case Refused(states) => outcome == Refused && States() == states
      case Accepted(states) => outcome == Accepted && States() == states
    }

    method ReadEntries(data: seq<ChannelData<M>>, packetSequence: u16) returns (outcome: Outcome)
      requires Valid()
      modifies ChannelRepr()
      ensures Valid()
      ensures Ended(Spec.ReadEntries(configs, old(States()), data, packetSequence), outcome)
    {
      ghost var before := States();
      for k := 0 to |data|
        invariant Valid()
        invariant Spec.ReadEntries(configs, before, data, packetSequence)
               == Spec.ReadEntries(configs, States(), data[k..], packetSequence)
      {
        var i := data[k].channelIndex;
        assert data[k..][1..] == data[k + 1..];
        if i > |channels| {
          continue;
        }
        if i == |channels| {
          return Panicked;
        }
        var ok := ProcessPacketDataOnChannel(i, data[k].messages, packetSequence);
        if !ok {
          return Panicked;
        }
        if channels[i].errorLevel != C.NoError {
          return Refused;
        }
      }
      outcome := Accepted;
    }

    method ReadPacket(packet: seq<byte>) returns (data: Option<seq<ChannelData<M>>>)
      requires Valid()
      ensures Valid() && State() == old(State())
      ensures data == match DecodePacket(configs, codec, packet)
                      case None => None
                      case Some((entries, _)) => Some(entries)
    {
      data := DeserializePacket(configs, codec, packet);
      Untouched();
    }

    method ProcessPacket(packetSequence: u16, packet: seq<byte>) returns (outcome: Outcome)
      requires Valid() && packet != []
      modifies ChannelRepr()
      ensures Valid()
      ensures Ended(Spec.ProcessPacket(configs, codec, old(State()), packetSequence, packet), outcome)
    {
      if errorLevel != Spec.NoError {
        return Refused;
      }
      var data := ReadPacket(packet);
      if data.None? {
        return Panicked;
      }
      outcome := ReadEntries(data.value, packetSequence);
    }

    method PacketDataOfChannel(i: nat, packetSequence: u16, available: nat) returns (messages: seq<(u16, M)>, bits: nat)
      requires Valid() && i < |channels| && C.HasRoom(configs[i], States()[i], available)
      modifies channels[i].Repr()
      ensures Valid() && (old(States())[i].processor.ReliableState? ==> configs[i].Valid())
      ensures C.PacketPart(messages, bits)
           == C.PacketData(configs[i], Spec.SizeOf(codec), old(States())[i], packetSequence, available)
      ensures States() == old(States())[i := C.AfterPacketData(configs[i], Spec.SizeOf(codec), old(States())[i],
                                                               packetSequence, available)]
    {
      messages, bits := channels[i].PacketData(packetSequence, available);
      OnlyChannel(i);
    }

    predicate ChannelHasRoom(i: nat, available: nat)
      requires Valid() && i < |channels|
      reads Repr()
      ensures ChannelHasRoom(i, available) <==> C.HasRoom(configs[i], States()[i], available)
    {
      channels[i].HasRoom(available)
    }

    lemma StatesAreUsable()
      requires ChannelsValid()
      ensures Spec.ChannelsUsable(configs, States())
    {
      StatesAreValid();
    }

    /** The first `i` channels had their turn, and this is the packet so far. */
    ghost predicate Midway(
      before: seq<C.ChannelState<M>>, number: u16, bytes: nat, i: nat, room: nat, data: seq<ChannelData<M>>)
      requires Spec.ChannelsUsable(configs, before)
      reads ChannelRepr()
    {
      && i <= |before|
      && Spec.Packed(configs, Spec.SizeOf(codec), before, number, bytes, i) == Spec.Packing(room, data)
      && States() == Spec.TurnsTaken(configs, Spec.SizeOf(codec), before, number, bytes, i)
    }

    /** Let channel `i` add its part to the packet. */
    method TakeTurn(i: nat, packetSequence: u16, available: nat, data: seq<ChannelData<M>>) returns (r: Spec.Packing<M>)
      requires Valid() && i < |channels|
      modifies channels[i].Repr()
      ensures Valid() && (old(States())[i].processor.ReliableState? ==> configs[i].Valid())
      ensures r == Spec.Turn(configs[i], Spec.SizeOf(codec), old(States())[i], packetSequence,
                             Spec.Packing(available, data), i)
      ensures r.Packing? ==>
                States() == old(States())[i := C.AfterPacketData(configs[i], Spec.SizeOf(codec), old(States())[i],
                                                                 packetSequence, available)]
    {
      channels[i].StateIsValid();
      if !ChannelHasRoom(i, available) {
        return Spec.Underflow;
      }
      var messages, bits := PacketDataOfChannel(i, packetSequence, available);
      if bits == 0 {
        return Spec.Packing(available, data);
      }
      if available < CHANNEL_HEADER_BITS + bits {
        return Spec.Underflow;
      }
      r := Spec.Packing(available - CHANNEL_HEADER_BITS - bits, data + [ChannelData(i, messages)]);
    }

    lemma NoTurnsTaken(number: u16, bytes: nat)
      requires ChannelsValid() && 8 * bytes >= PACKET_HEADER_BITS
      ensures Spec.ChannelsUsable(configs, States())
      ensures Midway(States(), number, bytes, 0, 8 * bytes - PACKET_HEADER_BITS, [])
    {
      StatesAreUsable();
    }

    /** Give every channel its turn, as long as nothing underflows. */
    method TakeTurns(packetSequence: u16, bytes: nat, ghost before: seq<C.ChannelState<M>>) returns (r: Spec.Packing<M>)
      requires Valid() && 8 * bytes >= PACKET_HEADER_BITS
      requires before == States() && Spec.ChannelsUsable(configs, before)
      modifies ChannelRepr()
      ensures Valid() && r == Spec.Packed(configs, Spec.SizeOf(codec), before, packetSequence, bytes, |channels|)
      ensures r.Packing? ==> Midway(before, packetSequence, bytes, |channels|, r.room, r.data)
    {
      NoTurnsTaken(packetSequence, bytes);
      r := Spec.Packing(8 * bytes - PACKET_HEADER_BITS, []);
      var i: nat := 0;
      while i < |channels| && r.Packing?
        invariant Valid() && i <= |channels|
        invariant r == Spec.Packed(configs, Spec.SizeOf(codec), before, packetSequence, bytes, i)
        invariant r.Packing? ==> Midway(before, packetSequence, bytes, i, r.room, r.data)
        decreases |channels| - i
      {
        Spec.OneMoreTurn(configs, Spec.SizeOf(codec), before, packetSequence, bytes, i);
        r := TakeTurn(i, packetSequence, r.room, r.data);
        i := i + 1;
      }
      if r.Underflow? {
        Underflows(before, packetSequence, bytes, i);
      }
    }

    /** The parts of all channels. Nothing where the program panics. */
    method CollectPacketData(packetSequence: u16, bytes: nat) returns (r: Option<seq<ChannelData<M>>>)
      requires Valid() && channels != []
      modifies ChannelRepr()
      ensures Valid() && Spec.ChannelsUsable(configs, old(States()))
      ensures Collected(Spec.Generate(configs, Spec.SizeOf(codec), old(States()), packetSequence, bytes), r)
    {
      StatesAreUsable();
      ghost var before := States();
      if 8 * bytes < PACKET_HEADER_BITS {
        Underflows(before, packetSequence, bytes, 0);
        return None;
      }
      var packing := TakeTurns(packetSequence, bytes, before);
      if packing.Underflow? {
        return None;
      }
      Spec.GenerateTakesAllTurns(configs, Spec.SizeOf(codec), before, packetSequence, bytes);
      r := Some(packing.data);
    }

    ghost predicate Collected(generated: Spec.Generated<M>, r: Option<seq<ChannelData<M>>>)
      reads ChannelRepr()
    {
      match r
      case None => generated.Underflowed?
      case Some(data) => generated == Spec.Generated(States(), data)
    }

    lemma Underflows(before: seq<C.ChannelState<M>>, number: u16, bytes: nat, n: nat)
      requires Spec.ChannelsUsable(configs, before) && n <= |before|
      requires Spec.Packed(configs, Spec.SizeOf(codec), before, number, bytes, n).Underflow?
      ensures Spec.Packed(configs, Spec.SizeOf(codec), before, number, bytes, |before|).Underflow?
    {
      if Spec.Packed(configs, Spec.SizeOf(codec), before, number, bytes, |before|).Packing? {
        Spec.PackedBefore(configs, Spec.SizeOf(codec), before, number, bytes, |before|, n);
      }
    }

    /** Generate a packet into `dest`: the number of bytes written, or nothing where the program panics. */
    method GeneratePacket(packetSequence: u16, dest: array<byte>) returns (r: Option<nat>)
      requires Valid() && dest !in Repr() && dest.Length > 0
      modifies ChannelRepr(), dest
      ensures Valid() && Spec.ChannelsUsable(configs, old(States()))
      ensures Wrote(Spec.Generate(configs, Spec.SizeOf(codec), old(States()), packetSequence, dest.Length),
                    old(dest[..]), dest[..], r)
    {
      if channels == [] {
        return Some(0);
      }
      if Spec.Supported(configs) {
        GeneratedFits(packetSequence, dest.Length);
      }
      var data := CollectPacketData(packetSequence, dest.Length);
      if data.None? {
        return None;
      }
      if data.value == [] {
        return Some(0);
      }
      r := WritePacket(data.value, dest);
    }

    /** What is generated can be written into the buffer. */
    lemma GeneratedFits(number: u16, bytes: nat)
      requires ChannelsValid() && Spec.Supported(configs)
      ensures Spec.ChannelsUsable(configs, States())
      ensures var generated := Spec.Generate(configs, Spec.SizeOf(codec), States(), number, bytes);
              generated.Generated? ==>
                WritablePacket(configs, generated.data)
                && (generated.data != [] ==> |EncodePacket(configs, codec, generated.data)| <= bytes)
    {
      StatesAreValid();
      if Spec.Generate(configs, Spec.SizeOf(codec), States(), number, bytes).Generated? {
        PacketBudget.PacketFits(configs, codec, States(), number, bytes);
      }
    }

    method WritePacket(data: seq<ChannelData<M>>, dest: array<byte>) returns (r: Option<nat>)
      requires Valid() && dest !in Repr()
      modifies dest
      ensures Valid() && State() == old(State())
      ensures Written(data, old(dest[..]), dest[..], r)
    {
      r := SerializePacket(configs, codec, data, dest);
      Untouched();
    }

    /** The packet's bytes are at the front of the buffer, or the program panics because the serializer refuses the
        packet or it does not fit. */
    ghost predicate Written(data: seq<ChannelData<M>>, before: seq<byte>, after: seq<byte>, r: Option<nat>) {
      if WritablePacket(configs, data) && |EncodePacket(configs, codec, data)| <= |before| then
        var bytes := EncodePacket(configs, codec, data);
        r == Some(|bytes|) && after == bytes + before[|bytes|..]
      else r == None
    }

    /** Nothing where the program panics; no bytes when no channel has anything to say; otherwise the packet's bytes
        at the front of the buffer. For a configuration that the serializer supports, only an underflow panics. */
    ghost predicate Wrote(generated: Spec.Generated<M>, before: seq<byte>, after: seq<byte>, r: Option<nat>)
      reads ChannelRepr()
    {
      match generated
      case Underflowed => r == None
      case Generated(states, data) =>
        && States() == states
        && (if data == [] then r == Some(0) && after == before else Written(data, before, after, r))
        && (Spec.Supported(configs) ==> r.Some?)
    }

    method Reset()
      requires Valid()
      modifies Repr()
      ensures Valid() && State() == Spec.Reset(old(State()))
    {
      ghost var before := States();
      errorLevel := Spec.NoError;
      for i := 0 to |channels|
        invariant Valid() && errorLevel == Spec.NoError
        invariant forall j :: 0 <= j < i ==> States()[j] == C.Reset(before[j])
        invariant forall j :: i <= j < |channels| ==> States()[j] == before[j]
      {
        ResetChannel(i);
      }
    }

    method ResetChannel(i: nat)
      requires Valid() && i < |channels|
      modifies channels[i].Repr()
      ensures Valid() && States() == old(States())[i := C.Reset(old(States())[i])]
    {
      channels[i].Reset();
      OnlyChannel(i);
    }

    method SendMessage(channel: nat, message: M)
      requires Valid() && channel < |channels|
      modifies channels[channel].Repr()
      ensures Valid()
      ensures States() == old(States())[channel := C.Send(configs[channel], Spec.SizeOf(codec), old(States())[channel],
                                                          message)]
    {
      channels[channel].SendMessage(message);
      OnlyChannel(channel);
    }

    method ReceiveMessage(channel: nat) returns (r: Option<(u16, M)>)
      requires Valid() && channel < |channels|
      modifies channels[channel].Repr()
      ensures Valid() && r == C.ReceiveNext(old(States())[channel])
      ensures States() == old(States())[channel := C.Receive(old(States())[channel])]
    {
      ghost var before := channels[channel].State();
      assert States()[channel] == before;
      r := channels[channel].ReceiveMessage();
      assert r == C.ReceiveNext(before) && channels[channel].State() == C.Receive(before);
      OnlyChannel(channel);
    }
  }
}
