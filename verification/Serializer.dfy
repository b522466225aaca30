/** Packets written to and read from a buffer through a moving cursor. */
module Serializer {
  import opened Wrap16
  import opened Options
  import opened Configs
  import opened Codec

  /** `before` with `bytes` written over it from `position` on. */
  ghost function Splice(before: seq<byte>, position: nat, bytes: seq<byte>): seq<byte>
    requires position + |bytes| <= |before|
  {
    before[..position] + bytes + before[position + |bytes|..]
  }

  lemma SpliceTwice(before: seq<byte>, position: nat, first: seq<byte>, second: seq<byte>)
    requires position + |first| + |second| <= |before|
    ensures Splice(Splice(before, position, first), position + |first|, second)
         == Splice(before, position, first + second)
  {
  }

  /** Writes into a buffer of fixed size. A write that does not fit fills the buffer and fails. */
  class WriteCursor {
    const buffer: array<byte>
    var position: nat

    ghost predicate Valid()
      reads this
    {
      position <= buffer.Length
    }

    constructor (buffer: array<byte>)
      ensures Valid() && this.buffer == buffer && position == 0
    {
      this.buffer, position := buffer, 0;
    }

    /** The cursor moved over `bytes`, which are now in the buffer; nothing else in it changed. */
    twostate predicate Wrote(bytes: seq<byte>)
      requires old(Valid())
      reads this, buffer
    {
      && Valid() && position == old(position) + |bytes|
      && buffer[..] == Splice(old(buffer[..]), old(position), bytes)
    }

    method Write(bytes: seq<byte>) returns (ok: bool)
      requires Valid()
      modifies this, buffer
      ensures Valid() && ok == (old(position) + |bytes| <= buffer.Length)
      ensures ok ==> Wrote(bytes)
    {
      for i := 0 to |bytes|
        invariant Valid() && Wrote(bytes[..i])
      {
        if position == buffer.Length {
          return false;
        }
        buffer[position] := bytes[i];
        position := position + 1;
      }
      assert bytes[..|bytes|] == bytes;
      ok := true;
    }

    method WriteU8(x: byte) returns (ok: bool)
      requires Valid()
      modifies this, buffer
      ensures Valid() && ok == (old(position) + 1 <= buffer.Length)
      ensures ok ==> Wrote([x])
    {
      ok := Write([x]);
    }

    method WriteU16(x: u16) returns (ok: bool)
      requires Valid()
      modifies this, buffer
      ensures Valid() && ok == (old(position) + 2 <= buffer.Length)
      ensures ok ==> Wrote(EncodeU16(x))
    {
      ok := Write(EncodeU16(x));
    }

    /** Write the contents of the messages, one after the other. */
    method WriteContents<M>(mc: MessageCodec<M>, messages: seq<(u16, M)>) returns (ok: bool)
      requires Valid()
      modifies this, buffer
      ensures Valid() && ok == (old(position) + |EncodeContents(mc, messages)| <= buffer.Length)
      ensures ok ==> Wrote(EncodeContents(mc, messages))
    {
      ghost var written: seq<byte> := [];
      for i := 0 to |messages|
        invariant Valid() && Wrote(written)
        invariant EncodeContents(mc, messages) == written + EncodeContents(mc, messages[i..])
      {
        ghost var one := mc.encode(messages[i].1);
        assert messages[i..][1..] == messages[i + 1..];
        assert EncodeContents(mc, messages) == (written + one) + EncodeContents(mc, messages[i + 1..]);
        ok := Write(mc.encode(messages[i].1));
        if !ok {
          return;
        }
        SpliceTwice(old(buffer[..]), old(position), written, one);
        written := written + one;
      }
      assert messages[|messages|..] == [] && written + [] == written;
      ok := true;
    }

    method WriteIds<M>(messages: seq<(u16, M)>) returns (ok: bool)
      requires Valid()
      modifies this, buffer
      ensures Valid() && ok == (old(position) + |EncodeIds(messages)| <= buffer.Length)
      ensures ok ==> Wrote(EncodeIds(messages))
    {
      ghost var written: seq<byte> := [];
      for i := 0 to |messages|
        invariant Valid() && Wrote(written)
        invariant EncodeIds(messages) == written + EncodeIds(messages[i..])
      {
        ghost var one := EncodeU16(messages[i].0);
        assert messages[i..][1..] == messages[i + 1..];
        assert EncodeIds(messages) == (written + one) + EncodeIds(messages[i + 1..]);
        ok := WriteU16(messages[i].0);
        if !ok {
          return;
        }
        SpliceTwice(old(buffer[..]), old(position), written, one);
        written := written + one;
      }
      assert messages[|messages|..] == [] && written + [] == written;
      ok := true;
    }

    method WriteMessages<M>(kind: ChannelType, mc: MessageCodec<M>, messages: seq<(u16, M)>) returns (ok: bool)
      requires Valid()
      modifies this, buffer
      ensures Valid() && ok == (old(position) + |EncodeMessages(kind, mc, messages)| <= buffer.Length)
      ensures ok ==> Wrote(EncodeMessages(kind, mc, messages))
    {
      match kind
      case UnreliableUnordered =>
        ok := WriteContents(mc, messages);
      case ReliableOrdered =>
        // the ids come first, then the contents
        ok := WriteIds(messages);
        if ok {
          ok := WriteContents(mc, messages);
          if ok {
            SpliceTwice(old(buffer[..]), old(position), EncodeIds(messages), EncodeContents(mc, messages));
          }
        }
    }

    /** Write the data of one channel. */
    method WriteChannel<M>(configs: seq<Config>, mc: MessageCodec<M>, data: ChannelData<M>) returns (ok: bool)
      requires Valid() && Writable(configs, data)
      modifies this, buffer
      ensures Valid() && ok == (old(position) + |EncodeChannel(configs, mc, data)| <= buffer.Length)
      ensures ok ==> Wrote(EncodeChannel(configs, mc, data))
    {
      if data.messages == [] {
        ok := WriteHeader(data.channelIndex, 0);
      } else {
        ok := WriteFilled(configs[data.channelIndex].kind, mc, data);
      }
    }

    method WriteFilled<M>(kind: ChannelType, mc: MessageCodec<M>, data: ChannelData<M>) returns (ok: bool)
      requires Valid() && data.channelIndex < MODULUS && 1 <= |data.messages| <= 256
      modifies this, buffer
      ensures var bytes := EncodeU16(data.channelIndex) + ([1] + EncodeBody(kind, mc, data.messages));
              Valid() && ok == (old(position) + |bytes| <= buffer.Length) && (ok ==> Wrote(bytes))
    {
      ok := WriteHeader(data.channelIndex, 1);
      if ok {
        ok := WriteBody(kind, mc, data.messages);
        HeaderThenBody(data.channelIndex, EncodeBody(kind, mc, data.messages));
        if ok {
          SpliceTwice(old(buffer[..]), old(position), EncodeU16(data.channelIndex) + [1],
                      EncodeBody(kind, mc, data.messages));
        }
      }
    }

    static lemma HeaderThenBody(index: u16, body: seq<byte>)
      ensures EncodeU16(index) + ([1] + body) == (EncodeU16(index) + [1]) + body
    {
    }

    method WriteHeader(index: u16, flag: byte) returns (ok: bool)
      requires Valid()
      modifies this, buffer
      ensures Valid() && ok == (old(position) + 3 <= buffer.Length)
      ensures ok ==> Wrote(EncodeU16(index) + [flag])
    {
      ok := WriteU16(index);
      if ok {
        ok := WriteU8(flag);
        if ok {
          SpliceTwice(old(buffer[..]), old(position), EncodeU16(index), [flag]);
        }
      }
    }

    method WriteBody<M>(kind: ChannelType, mc: MessageCodec<M>, messages: seq<(u16, M)>) returns (ok: bool)
      requires Valid() && 1 <= |messages| <= 256
      modifies this, buffer
      ensures Valid() && ok == (old(position) + |EncodeBody(kind, mc, messages)| <= buffer.Length)
      ensures ok ==> Wrote(EncodeBody(kind, mc, messages))
    {
      ok := WriteU8(|messages| - 1);
      if ok {
        ok := WriteMessages(kind, mc, messages);
        if ok {
          SpliceTwice(old(buffer[..]), old(position), [|messages| - 1], EncodeMessages(kind, mc, messages));
        }
      }
    }

    method WriteChannels<M>(configs: seq<Config>, mc: MessageCodec<M>, channels: seq<ChannelData<M>>) returns (ok: bool)
      requires Valid() && AllWritable(configs, channels)
      modifies this, buffer
      ensures Valid() && ok == (old(position) + |EncodeChannels(configs, mc, channels)| <= buffer.Length)
      ensures ok ==> Wrote(EncodeChannels(configs, mc, channels))
    {
      ghost var written: seq<byte> := [];
      assert channels[0..] == channels;
      for i := 0 to |channels|
        invariant Valid() && Wrote(written)
        invariant EncodeChannels(configs, mc, channels) == written + EncodeChannels(configs, mc, channels[i..])
      {
        EncodeFirst(configs, mc, channels, i, written);
        ok := WriteChannel(configs, mc, channels[i]);
        if !ok {
          return;
        }
        SpliceTwice(old(buffer[..]), old(position), written, EncodeChannel(configs, mc, channels[i]));
        written := written + EncodeChannel(configs, mc, channels[i]);
      }
      assert channels[|channels|..] == [] && written + [] == written;
      ok := true;
    }

    method WritePacket<M>(configs: seq<Config>, mc: MessageCodec<M>, channels: seq<ChannelData<M>>) returns (ok: bool)
      requires Valid() && WritablePacket(configs, channels)
      modifies this, buffer
      ensures Valid() && ok == (old(position) + |EncodePacket(configs, mc, channels)| <= buffer.Length)
      ensures ok ==> Wrote(EncodePacket(configs, mc, channels))
    {
      ok := WriteU16(|channels|);
      if ok {
        ok := WriteChannels(configs, mc, channels);
        if ok {
          SpliceTwice(old(buffer[..]), old(position), EncodeU16(|channels|), EncodeChannels(configs, mc, channels));
        }
      }
    }

    static lemma EncodeFirst<M>(
      configs: seq<Config>, mc: MessageCodec<M>, channels: seq<ChannelData<M>>, i: nat, written: seq<byte>)
      requires AllWritable(configs, channels) && i < |channels|
      ensures written + EncodeChannels(configs, mc, channels[i..])
           == (written + EncodeChannel(configs, mc, channels[i])) + EncodeChannels(configs, mc, channels[i + 1..])
    {
      assert channels[i..][1..] == channels[i + 1..];
      assert EncodeChannels(configs, mc, channels[i..])
          == EncodeChannel(configs, mc, channels[i]) + EncodeChannels(configs, mc, channels[i + 1..]);
    }
  }

  /** Write a packet to the front of `dest`: the number of bytes written, or nothing where the program panics, because
      an assertion fails or the packet does not fit. */
  method SerializePacket<M>(configs: seq<Config>, mc: MessageCodec<M>, channels: seq<ChannelData<M>>, dest: array<byte>)
    returns (r: Option<nat>)
    modifies dest
    ensures if WritablePacket(configs, channels) && |EncodePacket(configs, mc, channels)| <= dest.Length then
              var bytes := EncodePacket(configs, mc, channels);
              r == Some(|bytes|) && dest[..] == bytes + old(dest[..])[|bytes|..]
            else r == None
  {
    if !WritablePacket(configs, channels) {
      return None;
    }
    var writer := new WriteCursor(dest);
    var ok := writer.WritePacket(configs, mc, channels);
    r := if ok then Some(writer.position) else None;
  }

  /** Reads from a received packet. */
  class ReadCursor {
    const data: seq<byte>
    var position: nat

    ghost predicate Valid()
      reads this
    {
      position <= |data|
    }

    ghost function Rest(): seq<byte>
      requires Valid()
      reads this
    {
      data[position..]
    }

    constructor (data: seq<byte>)
      ensures Valid() && Rest() == data
    {
      this.data, position := data, 0;
    }

    method ReadU8() returns (r: Option<byte>)
      requires Valid()
      modifies this
      ensures Valid()
      ensures if old(Rest()) == [] then r == None else r == Some(old(Rest())[0]) && Rest() == old(Rest())[1..]
    {
      if position == |data| {
        return None;
      }
      r := Some(data[position]);
      position := position + 1;
    }

    method ReadU16() returns (r: Option<u16>)
      requires Valid()
      modifies this
      ensures Valid() && Read(old(Rest()), DecodeU16(old(Rest())), r)
    {
      if position + 2 > |data| {
        return None;
      }
      r := Some(data[position] as int + 256 * data[position + 1] as int);
      position := position + 2;
    }

    /** The result of a read is that of the parser, and the cursor stands after what was read. */
    ghost predicate Read<T>(input: seq<byte>, parsed: Parsed<T>, r: Option<T>)
      requires Valid()
      reads this
    {
      match parsed
      case None => r == None
      case Some((value, rest)) => r == Some(value) && Rest() == rest
    }

    method ReadMessage<M>(mc: MessageCodec<M>) returns (r: Option<M>)
      requires Valid()
      modifies this
      ensures Valid() && Read(old(Rest()), DecodeMessage(mc, old(Rest())), r)
    {
      var decoded := mc.decode(data[position..]);
      if decoded.None? || position + decoded.value.1 > |data| {
        return None;
      }
      r := Some(decoded.value.0);
      position := position + decoded.value.1;
    }

    method ReadIds(count: nat) returns (r: Option<seq<u16>>)
      requires Valid()
      modifies this
      ensures Valid() && Read(old(Rest()), DecodeIds(old(Rest()), count), r)
    {
      var ids: seq<u16> := [];
      AfterNothing(DecodeIds(Rest(), count));
      for i := 0 to count
        invariant Valid()
        invariant DecodeIds(old(Rest()), count) == After(ids, DecodeIds(Rest(), count - i))
      {
        var id := ReadU16();
        if id.None? {
          return None;
        }
        AfterMore(ids, id.value, DecodeIds(Rest(), count - i - 1));
        ids := ids + [id.value];
      }
      assert ids + [] == ids;
      r := Some(ids);
    }

    method ReadContents<M>(mc: MessageCodec<M>, ids: seq<u16>) returns (r: Option<seq<(u16, M)>>)
      requires Valid()
      modifies this
      ensures Valid() && Read(old(Rest()), DecodeContents(mc, old(Rest()), ids), r)
    {
      var messages: seq<(u16, M)> := [];
      AfterNothing(DecodeContents(mc, Rest(), ids));
      assert ids[0..] == ids;
      for i := 0 to |ids|
        invariant Valid()
        invariant DecodeContents(mc, old(Rest()), ids) == After(messages, DecodeContents(mc, Rest(), ids[i..]))
      {
        assert ids[i..][1..] == ids[i + 1..];
        var message := ReadMessage(mc);
        if message.None? {
          return None;
        }
        AfterMore(messages, (ids[i], message.value), DecodeContents(mc, Rest(), ids[i + 1..]));
        messages := messages + [(ids[i], message.value)];
      }
      assert messages + [] == messages;
      r := Some(messages);
    }

    method ReadMessages<M>(kind: ChannelType, mc: MessageCodec<M>, count: nat) returns (r: Option<seq<(u16, M)>>)
      requires Valid()
      modifies this
      ensures Valid() && Read(old(Rest()), DecodeMessages(kind, mc, old(Rest()), count), r)
    {
      match kind
      case UnreliableUnordered =>
        r := ReadContents(mc, Zeros(count));
      case ReliableOrdered =>
        var ids := ReadIds(count);
        if ids.None? {
          return None;
        }
        r := ReadContents(mc, ids.value);
    }

    method ReadChannel<M>(configs: seq<Config>, mc: MessageCodec<M>) returns (r: Option<ChannelData<M>>)
      requires Valid()
      modifies this
      ensures Valid() && Read(old(Rest()), DecodeChannel(configs, mc, old(Rest())), r)
    {
      var index := ReadU16();
      if index.None? || index.value >= |configs| {
        return None;
      }
      var config := configs[index.value];
      var hasMessages := ReadU8();
      if hasMessages.None? {
        return None;
      }
      if hasMessages.value != 1 {
        return Some(EmptyData());
      }
      var count := ReadU8();
      if count.None? || count.value as int + 1 > config.maxMessagesPerPacket {
        return None;
      }
      var messages := ReadMessages(config.kind, mc, count.value as int + 1);
      if messages.None? {
        return None;
      }
      r := Some(ChannelData(index.value, messages.value));
    }

    method ReadChannels<M>(configs: seq<Config>, mc: MessageCodec<M>, count: nat)
      returns (r: Option<seq<ChannelData<M>>>)
      requires Valid()
      modifies this
      ensures Valid() && Read(old(Rest()), DecodeChannels(configs, mc, old(Rest()), count), r)
    {
      var channels: seq<ChannelData<M>> := [];
      AfterNothing(DecodeChannels(configs, mc, Rest(), count));
      for i := 0 to count
        invariant Valid()
        invariant DecodeChannels(configs, mc, old(Rest()), count)
               == After(channels, DecodeChannels(configs, mc, Rest(), count - i))
      {
        ghost var before := Rest();
        var data := ReadChannel(configs, mc);
        if data.None? {
          return None;
        }
        DecodedOneMore(configs, mc, channels, before, count - i, data.value, Rest());
        channels := channels + [data.value];
      }
      assert channels + [] == channels;
      r := Some(channels);
    }
  }

  /** Read a packet; nothing where the program panics. */
  method DeserializePacket<M>(configs: seq<Config>, mc: MessageCodec<M>, data: seq<byte>)
    returns (r: Option<seq<ChannelData<M>>>)
    ensures r == match DecodePacket(configs, mc, data)
                 case None => None
                 case Some((channels, _)) => Some(channels)
  {
    var reader := new ReadCursor(data);
    var count := reader.ReadU16();
    if count.None? {
      return None;
    }
    r := reader.ReadChannels(configs, mc, count.value);
  }
}
