/** How a channel is configured. Both ends of a connection use the same configuration. */
module Configs {
  import opened Wrap16
  import opened Options

  datatype ChannelType = ReliableOrdered | UnreliableUnordered

  datatype Config = Config(
    kind: ChannelType,
    sentPacketBufferSize: nat,
    messageSendQueueSize: nat,
    messageReceiveQueueSize: nat,
    maxMessagesPerPacket: nat,
    packetBudget: Option<nat>,
    messageResendTime: real)
  {
    /** What a reliable channel needs: ring sizes that survive the wrap of the number space, and windows small
        enough for two of them to be told apart. */
    predicate Valid() {
      && kind == ReliableOrdered
      && RingCapacity(sentPacketBufferSize)
      && RingCapacity(messageSendQueueSize) && messageSendQueueSize <= 16384
      && RingCapacity(messageReceiveQueueSize) && messageReceiveQueueSize <= 16384
      && 1 <= maxMessagesPerPacket
    }

    /** A channel of either kind within the limits of the code. */
    predicate Usable() {
      kind == ReliableOrdered ==> Valid()
    }

    /** What building a channel asserts: no ring is larger than the number space. */
    predicate Buildable() {
      kind == ReliableOrdered ==>
        sentPacketBufferSize <= 65535 && messageSendQueueSize <= 65535 && messageReceiveQueueSize <= 65535
    }

    /** How far past the oldest unacked message a packet may reach. */
    function MessageLimit(): nat {
      if messageReceiveQueueSize < messageSendQueueSize then messageReceiveQueueSize else messageSendQueueSize
    }

    /** The bits this channel may use out of what is left of the packet. */
    function BitsFor(availableBits: nat): nat {
      match packetBudget
      case None => availableBits
      case Some(bytes) => if bytes * 8 < availableBits then bytes * 8 else availableBits
    }
  }

  /** The bits a channel may use when `left` are left of the packet, in plain numbers. */
  ghost predicate IsShare(config: Config, left: nat, share: nat) {
    match config.packetBudget
    case None => share == left
    case Some(bytes) => share <= left && share <= 8 * bytes && (share == left || share == 8 * bytes)
  }

  const MESSAGE_HEADER_BITS: nat := 32
  const CHANNEL_HEADER_BITS: nat := 32
  const PACKET_HEADER_BITS: nat := 16
  const GIVE_UP_BITS: nat := 32
  const MESSAGE_ID_BITS: nat := 16
}
