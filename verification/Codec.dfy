/** The bytes of a packet, on values. */
module Codec {
  import opened Wrap16
  import opened Options
  import opened Configs

  type byte = x: int | 0 <= x < 256

  /** How messages are written and read back. `decode` gives the message at the front of its input and the number
      of bytes it took. */
  datatype MessageCodec<!M> = MessageCodec(encode: M -> seq<byte>, decode: seq<byte> -> Option<(M, nat)>)

  /** Reading what was written gives the message back, whatever follows; reading never runs past the input. */
  ghost predicate Lawful<M(!new)>(mc: MessageCodec<M>) {
    && (forall m: M, rest: seq<byte> :: mc.decode(mc.encode(m) + rest) == Some((m, |mc.encode(m)|)))
    && (forall input: seq<byte> :: mc.decode(input).Some? ==> mc.decode(input).value.1 <= |input|)
  }

  /** The messages one channel puts into a packet, each with its id. */
  datatype ChannelData<M> = ChannelData(channelIndex: nat, messages: seq<(u16, M)>)

  /** What stands for no data: its index is no channel's. */
  const NO_CHANNEL: nat := 0xFFFF_FFFF_FFFF_FFFF

  function EmptyData<M>(): ChannelData<M> {
    ChannelData(NO_CHANNEL, [])
  }

  // ---- Writing -------------------------------------------------------------------------------

  /** Least significant byte first. */
  function EncodeU16(x: u16): (r: seq<byte>)
    ensures |r| == 2
  {
    [x % 256, x / 256]
  }

  function EncodeIds<M>(messages: seq<(u16, M)>): (r: seq<byte>)
    ensures |r| == 2 * |messages|
  {
    if messages == [] then [] else EncodeU16(messages[0].0) + EncodeIds(messages[1..])
  }

  function EncodeContents<M>(mc: MessageCodec<M>, messages: seq<(u16, M)>): seq<byte> {
    if messages == [] then [] else mc.encode(messages[0].1) + EncodeContents(mc, messages[1..])
  }

  /** What the serializer asserts of the data of a channel. */
  predicate Writable<M>(configs: seq<Config>, data: ChannelData<M>) {
    && data.channelIndex < |configs| && data.channelIndex < MODULUS
    && |data.messages| <= configs[data.channelIndex].maxMessagesPerPacket && |data.messages| <= 256
  }

  function EncodeMessages<M>(kind: ChannelType, mc: MessageCodec<M>, messages: seq<(u16, M)>): seq<byte> {
    match kind
    case UnreliableUnordered => EncodeContents(mc, messages)
    case ReliableOrdered => EncodeIds(messages) + EncodeContents(mc, messages)
  }

  /** The number of messages, less one, and the messages. */
  function EncodeBody<M>(kind: ChannelType, mc: MessageCodec<M>, messages: seq<(u16, M)>): seq<byte>
    requires 1 <= |messages| <= 256
  {
    [|messages| - 1] + EncodeMessages(kind, mc, messages)
  }

  function EncodeChannel<M>(configs: seq<Config>, mc: MessageCodec<M>, data: ChannelData<M>): seq<byte>
    requires Writable(configs, data)
  {
    EncodeU16(data.channelIndex)
    + if data.messages == [] then [0]
      else [1] + EncodeBody(configs[data.channelIndex].kind, mc, data.messages)
  }

  predicate AllWritable<M>(configs: seq<Config>, channels: seq<ChannelData<M>>) {
    forall i :: 0 <= i < |channels| ==> Writable(configs, channels[i])
  }

  function EncodeChannels<M>(configs: seq<Config>, mc: MessageCodec<M>, channels: seq<ChannelData<M>>): seq<byte>
    requires AllWritable(configs, channels)
  {
    if channels == [] then [] else EncodeChannel(configs, mc, channels[0]) + EncodeChannels(configs, mc, channels[1..])
  }

  /** What the serializer asserts of a packet. */
  predicate WritablePacket<M>(configs: seq<Config>, channels: seq<ChannelData<M>>) {
    |channels| < 65535 && AllWritable(configs, channels)
  }

  function EncodePacket<M>(configs: seq<Config>, mc: MessageCodec<M>, channels: seq<ChannelData<M>>): seq<byte>
    requires WritablePacket(configs, channels)
  {
    EncodeU16(|channels|) + EncodeChannels(configs, mc, channels)
  }

  // ---- Reading -------------------------------------------------------------------------------

  /** What was read, and the input after it; nothing when the program panics or gives up. */
  type Parsed<T> = Option<(T, seq<byte>)>

  /** `first`, and then what was parsed. */
  function After<T>(first: seq<T>, parsed: Parsed<seq<T>>): Parsed<seq<T>> {
    match parsed
    case None => None
    case Some((later, rest)) => Some((first + later, rest))
  }

  lemma AfterNothing<T>(parsed: Parsed<seq<T>>)
    ensures After([], parsed) == parsed
  {
    if parsed.Some? {
      assert [] + parsed.value.0 == parsed.value.0;
    }
  }

  lemma AfterMore<T>(first: seq<T>, one: T, parsed: Parsed<seq<T>>)
    ensures After(first, After([one], parsed)) == After(first + [one], parsed)
  {
    if parsed.Some? {
      assert first + ([one] + parsed.value.0) == (first + [one]) + parsed.value.0;
    }
  }

  function DecodeU16(input: seq<byte>): Parsed<u16> {
    if |input| < 2 then None else Some((input[0] as int + 256 * input[1] as int, input[2..]))
  }

  function DecodeMessage<M>(mc: MessageCodec<M>, input: seq<byte>): Parsed<M> {
    match mc.decode(input)
    case None => None
    case Some((m, n)) => if n <= |input| then Some((m, input[n..])) else None
  }

  function DecodeIds(input: seq<byte>, count: nat): Parsed<seq<u16>> {
    if count == 0 then Some(([], input))
    else
      match DecodeU16(input)
      case None => None
      case Some((id, rest)) => After([id], DecodeIds(rest, count - 1))
  }

  /** The messages of `ids`, one after the other. */
  function DecodeContents<M>(mc: MessageCodec<M>, input: seq<byte>, ids: seq<u16>): Parsed<seq<(u16, M)>>
    decreases |ids|
  {
    if ids == [] then Some(([], input))
    else
      match DecodeMessage(mc, input)
      case None => None
      case Some((m, rest)) => After([(ids[0], m)], DecodeContents(mc, rest, ids[1..]))
  }

  function Zeros(n: nat): (r: seq<u16>)
    ensures |r| == n && forall i :: 0 <= i < n ==> r[i] == 0
  {
    seq(n, _ => 0)
  }

  function DecodeMessages<M>(
    kind: ChannelType, mc: MessageCodec<M>, input: seq<byte>, count: nat): Parsed<seq<(u16, M)>>
  {
    match kind
    case UnreliableUnordered => DecodeContents(mc, input, Zeros(count))
    case ReliableOrdered =>
      match DecodeIds(input, count)
      case None => None
      case Some((ids, rest)) => DecodeContents(mc, rest, ids)
  }

  function DecodeChannel<M>(configs: seq<Config>, mc: MessageCodec<M>, input: seq<byte>): Parsed<ChannelData<M>> {
    match DecodeU16(input)
    case None => None
    case Some((index, rest)) =>
      if index >= |configs| || rest == [] then None
      else if rest[0] != 1 then Some((EmptyData(), rest[1..]))
      else if |rest| < 2 || rest[1] as int + 1 > configs[index].maxMessagesPerPacket then None
      else
        match DecodeMessages(configs[index].kind, mc, rest[2..], rest[1] as int + 1)
        case None => None
        case Some((messages, rest)) => Some((ChannelData(index, messages), rest))
  }

  function DecodeChannels<M>(
    configs: seq<Config>, mc: MessageCodec<M>, input: seq<byte>, count: nat): Parsed<seq<ChannelData<M>>>
    decreases count
  {
    if count == 0 then Some(([], input))
    else
      match DecodeChannel(configs, mc, input)
      case None => None
      case Some((data, rest)) => After([data], DecodeChannels(configs, mc, rest, count - 1))
  }

  function DecodePacket<M>(configs: seq<Config>, mc: MessageCodec<M>, input: seq<byte>): Parsed<seq<ChannelData<M>>> {
    match DecodeU16(input)
    case None => None
    case Some((count, rest)) => DecodeChannels(configs, mc, rest, count)
  }

  // ---- What can be read at all ---------------------------------------------------------------

  /** An entry that the reader can give: no data, or messages of a channel, no more than it may send. */
  ghost predicate Readable<M>(configs: seq<Config>, data: ChannelData<M>) {
    || data == EmptyData()
    || (data.channelIndex < |configs| && 1 <= |data.messages| <= configs[data.channelIndex].maxMessagesPerPacket)
  }

  lemma {:induction false} DecodedIdsAreCounted(input: seq<byte>, count: nat)
    ensures var parsed := DecodeIds(input, count);
            parsed.Some? ==> |parsed.value.0| == count
    decreases count
  {
    if count == 0 {
    } else {
      var first := DecodeU16(input);
      if first.Some? {
        DecodedIdsAreCounted(first.value.1, count - 1);
      }
    }
  }

  lemma {:induction false} DecodedContentsAreCounted<M>(mc: MessageCodec<M>, input: seq<byte>, ids: seq<u16>)
    ensures var parsed := DecodeContents(mc, input, ids);
            parsed.Some? ==> |parsed.value.0| == |ids|
    decreases |ids|
  {
    if ids == [] {
    } else {
      var first := DecodeMessage(mc, input);
      if first.Some? {
        DecodedContentsAreCounted(mc, first.value.1, ids[1..]);
      }
    }
  }

  lemma DecodedMessagesAreCounted<M>(kind: ChannelType, mc: MessageCodec<M>, input: seq<byte>, count: nat)
    ensures var parsed := DecodeMessages(kind, mc, input, count);
            parsed.Some? ==> |parsed.value.0| == count
  {
    match kind
    case UnreliableUnordered => DecodedContentsAreCounted(mc, input, Zeros(count));
    case ReliableOrdered =>
      DecodedIdsAreCounted(input, count);
      var ids := DecodeIds(input, count);
      if ids.Some? {
        DecodedContentsAreCounted(mc, ids.value.1, ids.value.0);
      }
  }

  lemma DecodedChannelIsReadable<M>(configs: seq<Config>, mc: MessageCodec<M>, input: seq<byte>)
    ensures var parsed := DecodeChannel(configs, mc, input);
            parsed.Some? ==> Readable(configs, parsed.value.0)
  {
    var first := DecodeU16(input);
    if first.Some? && first.value.0 < |configs| && |first.value.1| >= 2 {
      var rest := first.value.1;
      DecodedMessagesAreCounted(configs[first.value.0].kind, mc, rest[2..], rest[1] as int + 1);
    }
  }

  ghost predicate AllReadable<M>(configs: seq<Config>, channels: seq<ChannelData<M>>) {
    forall i :: 0 <= i < |channels| ==> Readable(configs, channels[i])
  }

  lemma {:induction false} DecodedChannelsAreReadable<M>(
    configs: seq<Config>, mc: MessageCodec<M>, input: seq<byte>, count: nat)
    ensures var parsed := DecodeChannels(configs, mc, input, count);
            parsed.Some? ==> AllReadable(configs, parsed.value.0)
    decreases count
  {
    if count == 0 {
    } else {
      DecodedChannelIsReadable(configs, mc, input);
      var first := DecodeChannel(configs, mc, input);
      if first.Some? {
        DecodedChannelsAreReadable(configs, mc, first.value.1, count - 1);
      }
    }
  }

  /** Whatever the bytes, an entry that is read names a channel of the connection, or none: never the index one past the
      last, which the guard of `process_packet` lets through. */
  lemma DecodedIndexesAreChannels<M>(configs: seq<Config>, mc: MessageCodec<M>, input: seq<byte>, i: nat)
    requires var parsed := DecodePacket(configs, mc, input);
             parsed.Some? && i < |parsed.value.0|
    ensures var data := DecodePacket(configs, mc, input).value.0[i];
            && Readable(configs, data)
            && (data.channelIndex < |configs| || data.channelIndex == NO_CHANNEL)
            && (|configs| < NO_CHANNEL ==> data.channelIndex != |configs|)
  {
    var count := DecodeU16(input);
    DecodedChannelsAreReadable(configs, mc, count.value.1, count.value.0);
  }

  // ---- Round trips ---------------------------------------------------------------------------

  /** What survives the wire: unreliable messages lose their ids, and empty data its channel. */
  function OnArrival<M>(configs: seq<Config>, data: ChannelData<M>): ChannelData<M>
    requires data.channelIndex < |configs|
  {
    if data.messages == [] then EmptyData()
    else
      match configs[data.channelIndex].kind
      case ReliableOrdered => data
      case UnreliableUnordered => data.(messages := WithIds(Zeros(|data.messages|), data.messages))
  }

  function WithIds<M>(ids: seq<u16>, messages: seq<(u16, M)>): (r: seq<(u16, M)>)
    requires |ids| == |messages|
    ensures |r| == |ids| && forall i :: 0 <= i < |ids| ==> r[i] == (ids[i], messages[i].1)
  {
    seq(|ids|, i requires 0 <= i < |ids| => (ids[i], messages[i].1))
  }

  function IdsOf<M>(messages: seq<(u16, M)>): (r: seq<u16>)
    ensures |r| == |messages| && forall i :: 0 <= i < |messages| ==> r[i] == messages[i].0
  {
    seq(|messages|, i requires 0 <= i < |messages| => messages[i].0)
  }

  lemma U16RoundTrip(x: u16, rest: seq<byte>)
    ensures DecodeU16(EncodeU16(x) + rest) == Some((x, rest))
  {
    assert (EncodeU16(x) + rest)[2..] == rest;
  }

  lemma {:induction false} IdsRoundTrip<M>(messages: seq<(u16, M)>, rest: seq<byte>)
    ensures DecodeIds(EncodeIds(messages) + rest, |messages|) == Some((IdsOf(messages), rest))
    decreases |messages|
  {
    if messages == [] {
      assert EncodeIds(messages) + rest == rest;
    } else {
      U16RoundTrip(messages[0].0, EncodeIds(messages[1..]) + rest);
      IdsRoundTrip(messages[1..], rest);
      assert EncodeIds(messages) + rest == EncodeU16(messages[0].0) + (EncodeIds(messages[1..]) + rest);
      assert IdsOf(messages) == [messages[0].0] + IdsOf(messages[1..]);
    }
  }

  lemma {:induction false} ContentsRoundTrip<M(!new)>(
    mc: MessageCodec<M>, messages: seq<(u16, M)>, ids: seq<u16>, rest: seq<byte>)
    requires Lawful(mc) && |ids| == |messages|
    ensures DecodeContents(mc, EncodeContents(mc, messages) + rest, ids) == Some((WithIds(ids, messages), rest))
    decreases |messages|
  {
    if messages == [] {
      assert EncodeContents(mc, messages) + rest == rest;
    } else {
      var first, later := mc.encode(messages[0].1), EncodeContents(mc, messages[1..]) + rest;
      assert EncodeContents(mc, messages) + rest == first + later;
      assert (first + later)[|first|..] == later;
      ContentsRoundTrip(mc, messages[1..], ids[1..], rest);
      assert WithIds(ids, messages) == [(ids[0], messages[0].1)] + WithIds(ids[1..], messages[1..]);
    }
  }

  lemma MessagesRoundTrip<M(!new)>(kind: ChannelType, mc: MessageCodec<M>, messages: seq<(u16, M)>, rest: seq<byte>)
    requires Lawful(mc)
    ensures DecodeMessages(kind, mc, EncodeMessages(kind, mc, messages) + rest, |messages|)
            == Some((if kind.ReliableOrdered? then messages else WithIds(Zeros(|messages|), messages), rest))
  {
    match kind
    case UnreliableUnordered => ContentsRoundTrip(mc, messages, Zeros(|messages|), rest);
    case ReliableOrdered =>
      assert EncodeIds(messages) + EncodeContents(mc, messages) + rest
          == EncodeIds(messages) + (EncodeContents(mc, messages) + rest);
      IdsRoundTrip(messages, EncodeContents(mc, messages) + rest);
      ContentsRoundTrip(mc, messages, IdsOf(messages), rest);
      assert WithIds(IdsOf(messages), messages) == messages;
  }

  /** The entry of a channel with messages, as bytes one after the other. */
  lemma EncodedWithMessages<M>(configs: seq<Config>, mc: MessageCodec<M>, data: ChannelData<M>, rest: seq<byte>)
    requires Writable(configs, data) && data.messages != []
    ensures EncodeChannel(configs, mc, data) + rest
         == EncodeU16(data.channelIndex)
            + ([1, |data.messages| - 1]
               + (EncodeMessages(configs[data.channelIndex].kind, mc, data.messages) + rest))
  {
  }

  lemma DecodeWithMessages<M>(
    configs: seq<Config>, mc: MessageCodec<M>, index: u16, count: nat, body: seq<byte>,
    messages: seq<(u16, M)>, rest: seq<byte>)
    requires index < |configs| && 1 <= count <= configs[index].maxMessagesPerPacket && count <= 256
    requires DecodeMessages(configs[index].kind, mc, body, count) == Some((messages, rest))
    ensures DecodeChannel(configs, mc, EncodeU16(index) + ([1, count - 1] + body))
         == Some((ChannelData(index, messages), rest))
  {
    var header: seq<byte> := [1, count - 1];
    U16RoundTrip(index, header + body);
    assert (header + body)[2..] == body;
    assert (header + body)[0] == 1 && (header + body)[1] == count - 1;
  }

  lemma ChannelRoundTrip<M(!new)>(configs: seq<Config>, mc: MessageCodec<M>, data: ChannelData<M>, rest: seq<byte>)
    requires Lawful(mc) && Writable(configs, data)
    ensures DecodeChannel(configs, mc, EncodeChannel(configs, mc, data) + rest)
            == Some((OnArrival(configs, data), rest))
  {
    var kind := configs[data.channelIndex].kind;
    if data.messages == [] {
      assert EncodeChannel(configs, mc, data) + rest == EncodeU16(data.channelIndex) + ([0] + rest);
      U16RoundTrip(data.channelIndex, [0] + rest);
    } else {
      EncodedWithMessages(configs, mc, data, rest);
      MessagesRoundTrip(kind, mc, data.messages, rest);
      DecodeWithMessages(configs, mc, data.channelIndex, |data.messages|,
                         EncodeMessages(kind, mc, data.messages) + rest, OnArrival(configs, data).messages, rest);
    }
  }

  lemma {:induction false} ChannelsRoundTrip<M(!new)>(
    configs: seq<Config>, mc: MessageCodec<M>, channels: seq<ChannelData<M>>, rest: seq<byte>)
    requires Lawful(mc) && AllWritable(configs, channels)
    ensures DecodeChannels(configs, mc, EncodeChannels(configs, mc, channels) + rest, |channels|)
            == Some((AllOnArrival(configs, channels), rest))
    decreases |channels|
  {
    if channels == [] {
      assert EncodeChannels(configs, mc, channels) + rest == rest;
    } else {
      var later := EncodeChannels(configs, mc, channels[1..]) + rest;
      assert EncodeChannels(configs, mc, channels) + rest == EncodeChannel(configs, mc, channels[0]) + later;
      ChannelRoundTrip(configs, mc, channels[0], later);
      ChannelsRoundTrip(configs, mc, channels[1..], rest);
      DecodeOneChannel(configs, mc, EncodeChannels(configs, mc, channels) + rest, |channels|,
                       OnArrival(configs, channels[0]), later);
    }
  }

  lemma DecodeOneChannel<M>(
    configs: seq<Config>, mc: MessageCodec<M>, input: seq<byte>, count: nat, data: ChannelData<M>, rest: seq<byte>)
    requires count > 0 && DecodeChannel(configs, mc, input) == Some((data, rest))
    ensures DecodeChannels(configs, mc, input, count) == After([data], DecodeChannels(configs, mc, rest, count - 1))
  {
  }

  lemma DecodedOneMore<M>(
    configs: seq<Config>, mc: MessageCodec<M>, before: seq<ChannelData<M>>, input: seq<byte>, count: nat,
    data: ChannelData<M>, rest: seq<byte>)
    requires count > 0 && DecodeChannel(configs, mc, input) == Some((data, rest))
    ensures After(before, DecodeChannels(configs, mc, input, count))
         == After(before + [data], DecodeChannels(configs, mc, rest, count - 1))
  {
    AfterMore(before, data, DecodeChannels(configs, mc, rest, count - 1));
  }

  function AllOnArrival<M>(configs: seq<Config>, channels: seq<ChannelData<M>>): (r: seq<ChannelData<M>>)
    requires AllWritable(configs, channels)
    ensures |r| == |channels|
    ensures forall i :: 0 <= i < |channels| ==> r[i] == OnArrival(configs, channels[i])
  {
    if channels == [] then []
    else
      [OnArrival(configs, channels[0])] + AllOnArrival(configs, channels[1..])
  }

  /** Reading a written packet gives back every channel, message and reliable id, and stops where it ends. */
  lemma PacketRoundTrip<M(!new)>(
    configs: seq<Config>, mc: MessageCodec<M>, channels: seq<ChannelData<M>>, rest: seq<byte>)
    requires Lawful(mc) && WritablePacket(configs, channels)
    ensures DecodePacket(configs, mc, EncodePacket(configs, mc, channels) + rest)
            == Some((AllOnArrival(configs, channels), rest))
  {
    var body := EncodeChannels(configs, mc, channels) + rest;
    assert EncodePacket(configs, mc, channels) + rest == EncodeU16(|channels|) + body;
    U16RoundTrip(|channels|, body);
    ChannelsRoundTrip(configs, mc, channels, rest);
  }

  // ---- Byte by byte --------------------------------------------------------------------------

  /** The number that two bytes stand for, the least significant one first. */
  function U16At(bytes: seq<byte>, i: nat): int
    requires i + 2 <= |bytes|
  {
    bytes[i] as int + 256 * bytes[i + 1] as int
  }

  lemma {:induction false} IdsLayout<M>(messages: seq<(u16, M)>, i: nat)
    requires i < |messages|
    ensures U16At(EncodeIds(messages), 2 * i) == messages[i].0
    decreases |messages|
  {
    if i == 0 {
    } else {
      IdsLayout(messages[1..], i - 1);
      assert EncodeIds(messages)[2..] == EncodeIds(messages[1..]);
    }
  }

  /** An entry, byte by byte: the index of its channel, whether it has messages, their number less one, the ids of a
      reliable channel, and the contents. */
  lemma ChannelLayout<M>(configs: seq<Config>, mc: MessageCodec<M>, data: ChannelData<M>)
    requires Writable(configs, data)
    ensures var bytes, n := EncodeChannel(configs, mc, data), |data.messages|;
            && 3 <= |bytes| && U16At(bytes, 0) == data.channelIndex && bytes[2] == (if n == 0 then 0 else 1)
            && (n == 0 ==> |bytes| == 3)
            && (n > 0 ==> 4 <= |bytes| && bytes[3] as int + 1 == n)
            && (n > 0 && configs[data.channelIndex].kind == ReliableOrdered ==>
                  && 4 + 2 * n <= |bytes| && bytes[4 + 2 * n..] == EncodeContents(mc, data.messages)
                  && forall i :: 0 <= i < n ==> U16At(bytes, 4 + 2 * i) == data.messages[i].0)
            && (n > 0 && configs[data.channelIndex].kind == UnreliableUnordered ==>
                  bytes[4..] == EncodeContents(mc, data.messages))
  {
    var n := |data.messages|;
    if n > 0 {
      var bytes, kind := EncodeChannel(configs, mc, data), configs[data.channelIndex].kind;
      assert bytes[4..] == EncodeMessages(kind, mc, data.messages);
      if kind == ReliableOrdered {
        assert bytes[4..][2 * n..] == EncodeContents(mc, data.messages);
        forall i | 0 <= i < n
          ensures U16At(bytes, 4 + 2 * i) == data.messages[i].0
        {
          IdsLayout(data.messages, i);
          assert bytes[4..][2 * i] == EncodeIds(data.messages)[2 * i];
          assert bytes[4..][2 * i + 1] == EncodeIds(data.messages)[2 * i + 1];
        }
      }
    }
  }

  /** A packet: the number of its entries, and the entries one after the other. */
  lemma PacketLayout<M>(configs: seq<Config>, mc: MessageCodec<M>, channels: seq<ChannelData<M>>)
    requires WritablePacket(configs, channels)
    ensures var bytes := EncodePacket(configs, mc, channels);
            2 <= |bytes| && U16At(bytes, 0) == |channels| && bytes[2..] == EncodeChannels(configs, mc, channels)
  {
  }

  lemma {:induction false} ReadIdsLayout(input: seq<byte>, count: nat)
    ensures var parsed := DecodeIds(input, count);
            && (parsed.Some? <==> 2 * count <= |input|)
            && (parsed.Some? ==>
                  && |parsed.value.0| == count && parsed.value.1 == input[2 * count..]
                  && forall i :: 0 <= i < count ==> parsed.value.0[i] == U16At(input, 2 * i))
    decreases count
  {
    if count == 0 {
    } else if 2 <= |input| {
      ReadIdsLayout(input[2..], count - 1);
    }
  }

  lemma {:induction false} ReadContentsKeepsIds<M>(mc: MessageCodec<M>, input: seq<byte>, ids: seq<u16>)
    ensures var parsed := DecodeContents(mc, input, ids);
            parsed.Some? ==> IdsOf(parsed.value.0) == ids
    decreases |ids|
  {
    if ids == [] {
    } else {
      var first := DecodeMessage(mc, input);
      if first.Some? {
        ReadContentsKeepsIds(mc, first.value.1, ids[1..]);
      }
    }
  }

  /** Reading an entry, byte by byte, whatever the bytes: it fails on a channel that does not exist, on more
      messages than the channel may send, and where the input ends; any flag but 1 means no messages. */
  lemma ReadLayout<M>(configs: seq<Config>, mc: MessageCodec<M>, input: seq<byte>)
    ensures var parsed := DecodeChannel(configs, mc, input);
            if |input| < 3 || U16At(input, 0) >= |configs| then parsed == None
            else if input[2] != 1 then parsed == Some((EmptyData(), input[3..]))
            else if |input| < 4 || input[3] as int + 1 > configs[U16At(input, 0)].maxMessagesPerPacket
            then parsed == None
            else
              parsed.Some? ==>
                var data := parsed.value.0;
                && data.channelIndex == U16At(input, 0) && |data.messages| == input[3] as int + 1
                && (configs[data.channelIndex].kind == UnreliableUnordered ==>
                      forall i :: 0 <= i < |data.messages| ==> data.messages[i].0 == 0)
                && (configs[data.channelIndex].kind == ReliableOrdered ==>
                      && 4 + 2 * |data.messages| <= |input|
                      && forall i :: 0 <= i < |data.messages| ==> data.messages[i].0 == U16At(input, 4 + 2 * i))
  {
    if 4 <= |input| && U16At(input, 0) < |configs| && input[2] == 1 {
      var kind, body, count := configs[U16At(input, 0)].kind, input[4..], input[3] as int + 1;
      assert input[2..][2..] == body;
      match kind
      case UnreliableUnordered => ReadContentsKeepsIds(mc, body, Zeros(count));
      case ReliableOrdered =>
        ReadIdsLayout(body, count);
        var ids := DecodeIds(body, count);
        if ids.Some? {
          ReadContentsKeepsIds(mc, ids.value.1, ids.value.0);
        }
    }
  }

  lemma {:induction false} ReadAllOrNothing<M>(configs: seq<Config>, mc: MessageCodec<M>, input: seq<byte>, count: nat)
    ensures var parsed := DecodeChannels(configs, mc, input, count);
            && (parsed.Some? ==> |parsed.value.0| == count)
            && (count > 0 && DecodeChannel(configs, mc, input) == None ==> parsed == None)
    decreases count
  {
    if count == 0 {
    } else {
      var first := DecodeChannel(configs, mc, input);
      if first.Some? {
        ReadAllOrNothing(configs, mc, first.value.1, count - 1);
      }
    }
  }

  /** A packet is read whole or not at all: as many entries as its first two bytes say. */
  lemma ReadPacketLayout<M>(configs: seq<Config>, mc: MessageCodec<M>, input: seq<byte>)
    ensures var parsed := DecodePacket(configs, mc, input);
            && (|input| < 2 ==> parsed == None)
            && (parsed.Some? ==> |parsed.value.0| == U16At(input, 0))
  {
    if 2 <= |input| {
      ReadAllOrNothing(configs, mc, input[2..], U16At(input, 0));
    }
  }

  // ---- Sizes ---------------------------------------------------------------------------------

  /** The bits of the messages' contents. */
  function ContentBits<M>(mc: MessageCodec<M>, messages: seq<(u16, M)>): nat {
    if messages == [] then 0 else 8 * |mc.encode(messages[0].1)| + ContentBits(mc, messages[1..])
  }

  lemma {:induction false} ContentBitsAreExact<M>(mc: MessageCodec<M>, messages: seq<(u16, M)>)
    ensures 8 * |EncodeContents(mc, messages)| == ContentBits(mc, messages)
    decreases |messages|
  {
    if messages == [] {
    } else {
      ContentBitsAreExact(mc, messages[1..]);
    }
  }

  /** The bits a channel reports for its data: a header, an id for every reliable message, and the contents. */
  function PredictedBits<M>(kind: ChannelType, mc: MessageCodec<M>, messages: seq<(u16, M)>): nat {
    MESSAGE_HEADER_BITS + ContentBits(mc, messages)
    + if kind.ReliableOrdered? then |messages| * MESSAGE_ID_BITS else 0
  }

  /** The prediction is exact: the data of a channel takes exactly the predicted bits. */
  lemma PredictionIsExact<M>(configs: seq<Config>, mc: MessageCodec<M>, data: ChannelData<M>)
    requires Writable(configs, data) && data.messages != []
    ensures 8 * |EncodeChannel(configs, mc, data)|
            == PredictedBits(configs[data.channelIndex].kind, mc, data.messages)
  {
    ContentBitsAreExact(mc, data.messages);
  }
}
