/** A channel of either kind on values: a processor behind an error latch and counters. */
module ChannelSpec {
  import opened Wrap16
  import opened Options
  import opened Configs
  import opened ReliableSpec
  import U = UnreliableChannel

  datatype ChannelErrorLevel = NoError | Desync | SendQueueFull | BlocksDisabled | FailedToSerialize | OutOfMemory

  datatype Processor<M> =
    | ReliableState(sender: Sender<M>, receiver: Receiver<M>)
    | UnreliableState(sendQueue: seq<M>, receiveQueue: seq<(u16, M)>)

  datatype ChannelState<M> = ChannelState(
    errorLevel: ChannelErrorLevel,
    processor: Processor<M>,
    sent: nat,
    received: nat)

  /** The processor is of the configured kind, and in order. */
  ghost predicate ProcessorValid<M>(config: Config, size: M -> nat, p: Processor<M>) {
    match p
    case ReliableState(sender, receiver) =>
      config.Valid() && SenderValid(config, sender) && ReceiverValid(config, receiver) && Measured(sender, size)
    case UnreliableState(sendQueue, receiveQueue) =>
      && config.kind == UnreliableUnordered
      && |sendQueue| <= config.messageSendQueueSize && |receiveQueue| <= config.messageReceiveQueueSize
  }

  function NewProcessor<M>(config: Config, time: real): Processor<M> {
    match config.kind
    case ReliableOrdered => ReliableState(NewSender(time), NewReceiver())
    case UnreliableUnordered => UnreliableState([], [])
  }

  function NewChannel<M>(config: Config, time: real): ChannelState<M> {
    ChannelState(NoError, NewProcessor(config, time), 0, 0)
  }

  predicate CanSend<M>(config: Config, c: ChannelState<M>) {
    match c.processor
    case ReliableState(sender, _) => CanSendMessage(config, sender)
    case UnreliableState(sendQueue, _) => |sendQueue| < config.messageSendQueueSize
  }

  /** A full queue latches an error; a channel in error drops what it is given. */
  function Send<M>(config: Config, size: M -> nat, c: ChannelState<M>, message: M): ChannelState<M> {
    if c.errorLevel != NoError then c
    else if !CanSend(config, c) then c.(errorLevel := SendQueueFull)
    else
      c.(sent := c.sent + 1,
         processor := match c.processor
                      case ReliableState(sender, receiver) =>
                        ReliableState(SendMessage(sender, message, 8 * size(message)), receiver)
                      case UnreliableState(sendQueue, receiveQueue) =>
                        UnreliableState(sendQueue + [message], receiveQueue))
  }

  function ReceiveNext<M>(c: ChannelState<M>): Option<(u16, M)> {
    if c.errorLevel != NoError then None
    else
      match c.processor
      case ReliableState(_, receiver) =>
        (match NextMessage(receiver) case None => None case Some(message) => Some((Wrap(receiver.next), message)))
      case UnreliableState(_, receiveQueue) => if receiveQueue == [] then None else Some(receiveQueue[0])
  }

  function Receive<M>(c: ChannelState<M>): ChannelState<M> {
    if ReceiveNext(c) == None then c
    else
      c.(received := c.received + 1,
         processor := match c.processor
                      case ReliableState(sender, receiver) => ReliableState(sender, Delivered(receiver))
                      case UnreliableState(sendQueue, receiveQueue) =>
                        UnreliableState(sendQueue, if receiveQueue == [] then [] else receiveQueue[1..]))
  }

  /** Filling a packet with this many bits available does not underflow. */
  predicate HasRoom<M>(config: Config, c: ChannelState<M>, availableBits: nat) {
    c.processor.ReliableState? && HasMessagesToSend(c.processor.sender) ==>
      config.BitsFor(availableBits) >= MESSAGE_HEADER_BITS
  }

  datatype PacketPart<M> = PacketPart(messages: seq<(u16, M)>, bits: nat)

  function PacketData<M>(
    config: Config, size: M -> nat, c: ChannelState<M>, packetSequence: u16, availableBits: nat): PacketPart<M>
    requires c.processor.ReliableState? ==> config.Valid()
  {
    match c.processor
    case ReliableState(sender, _) =>
      ChooseMessagesIsSound(config, sender, availableBits);
      var sel := ChooseMessages(config, sender, availableBits);
      PacketPart(WireMessages(sender, sel.ids), sel.bits)
    case UnreliableState(sendQueue, _) =>
      var filling := U.FillPacket(config, size, sendQueue, availableBits);
      PacketPart(U.Numbered(filling.sent, packetSequence), filling.bits)
  }

  function AfterPacketData<M>(
    config: Config, size: M -> nat, c: ChannelState<M>, packetSequence: u16, availableBits: nat): ChannelState<M>
  {
    c.(processor := match c.processor
                    case ReliableState(sender, receiver) =>
                      ReliableState(GeneratePacket(config, sender, packetSequence, availableBits), receiver)
                    case UnreliableState(sendQueue, receiveQueue) =>
                      UnreliableState(U.FillPacket(config, size, sendQueue, availableBits).rest, receiveQueue))
  }

  datatype Processed<M> = Processed(channel: ChannelState<M>, ok: bool)

  /** Take in the messages of a packet; not ok where the program panics. A channel in error ignores them. */
  function ProcessPacketData<M>(
    config: Config, c: ChannelState<M>, messages: seq<(u16, M)>, packetSequence: u16): Processed<M>
  {
    if c.errorLevel != NoError then Processed(c, true)
    else
      match c.processor
      case ReliableState(sender, receiver) =>
        var result := ReceivePacket(config, receiver, messages);
        Processed(c.(processor := ReliableState(sender, result.receiver)), result.ok)
      case UnreliableState(sendQueue, receiveQueue) =>
        Processed(c.(processor := UnreliableState(
                       sendQueue, U.Received(config, receiveQueue, U.Contents(messages), packetSequence))), true)
  }

  function AckResultOf<M>(c: ChannelState<M>, ack: u16): AckResult {
    match c.processor
    case ReliableState(sender, _) => AckOutcome(sender, ack)
    case UnreliableState(_, _) => NotRecorded
  }

  function ProcessAck<M>(c: ChannelState<M>, ack: u16): ChannelState<M>
    requires c.processor.ReliableState? ==> c.processor.sender.oldest <= c.processor.sender.next
  {
    match c.processor
    case ReliableState(sender, receiver) =>
      c.(processor := ReliableState(ReliableSpec.ProcessAck(sender, ack), receiver))
    case UnreliableState(_, _) => c
  }

  function AdvanceTime<M>(c: ChannelState<M>, time: real): ChannelState<M> {
    match c.processor
    case ReliableState(sender, receiver) => c.(processor := ReliableState(sender.(time := time), receiver))
    case UnreliableState(_, _) => c
  }

  function Reset<M>(c: ChannelState<M>): ChannelState<M> {
    ChannelState(NoError,
                 match c.processor
                 case ReliableState(sender, _) => ReliableState(NewSender(sender.time), NewReceiver())
                 case UnreliableState(_, _) => UnreliableState([], []),
                 0, 0)
  }

  // ---- What calls come to --------------------------------------------------------------------

  /** As many messages are queued, or sent and unacked, as the send queue is long. */
  ghost predicate IsFull<M>(config: Config, c: ChannelState<M>) {
    match c.processor
    case ReliableState(sender, _) => sender.next == sender.oldest + config.messageSendQueueSize
    case UnreliableState(sendQueue, _) => |sendQueue| == config.messageSendQueueSize
  }

  /** A full queue puts the channel in error, and only that; otherwise the message is queued last, as never sent, and
      counted. A channel in error does nothing. */
  lemma SendIsExact<M>(config: Config, size: M -> nat, c: ChannelState<M>, message: M)
    requires ProcessorValid(config, size, c.processor)
    ensures var r := Send(config, size, c, message);
            if c.errorLevel != NoError then r == c
            else if IsFull(config, c) then r == c.(errorLevel := SendQueueFull)
            else
              && r.errorLevel == NoError && r.sent == c.sent + 1 && r.received == c.received
              && match c.processor
                 case ReliableState(sender, receiver) =>
                   var entry := SendEntry(Wrap(sender.next), message, 8 * size(message), -1.0);
                   r.processor == ReliableState(sender.(queue := sender.queue[sender.next := entry],
                                                        next := sender.next + 1), receiver)
                 case UnreliableState(sendQueue, receiveQueue) =>
                   r.processor == UnreliableState(sendQueue + [message], receiveQueue)
  {
    if c.processor.ReliableState? {
      CanSendMessageIff(config, c.processor.sender);
    }
  }

  /** A channel in error gives its user nothing. Otherwise a reliable channel gives the message whose turn it is,
      under the 16-bit form of its number, and an unreliable one the message that has waited longest; it is gone and
      counted. */
  lemma ReceiveIsExact<M>(config: Config, size: M -> nat, c: ChannelState<M>)
    requires ProcessorValid(config, size, c.processor)
    ensures c.errorLevel != NoError ==> ReceiveNext(c) == None
    ensures c.errorLevel == NoError ==>
              match c.processor
              case ReliableState(_, receiver) =>
                ReceiveNext(c) == (if receiver.next in receiver.pending
                                   then Some((Wrap(receiver.next), receiver.pending[receiver.next])) else None)
              case UnreliableState(_, receiveQueue) =>
                ReceiveNext(c) == if receiveQueue == [] then None else Some(receiveQueue[0])
    ensures if ReceiveNext(c) == None then Receive(c) == c
            else
              && Receive(c).errorLevel == c.errorLevel && Receive(c).sent == c.sent
              && Receive(c).received == c.received + 1
              && match c.processor
                 case ReliableState(sender, receiver) =>
                   Receive(c).processor
                   == ReliableState(sender, Receiver(receiver.next + 1, receiver.pending - {receiver.next}))
                 case UnreliableState(sendQueue, receiveQueue) =>
                   receiveQueue != [] && Receive(c).processor == UnreliableState(sendQueue, receiveQueue[1..])
  {
  }

  /** A channel that is reset is a new one that keeps its time, if it has one. */
  lemma ResetIsNew<M>(config: Config, size: M -> nat, c: ChannelState<M>, time: real)
    requires ProcessorValid(config, size, c.processor)
    requires c.processor.ReliableState? ==> c.processor.sender.time == time
    ensures Reset(c) == NewChannel(config, time)
  {
  }

  // ---- The processor stays in order ----------------------------------------------------------

  lemma SendKeepsValid<M>(config: Config, size: M -> nat, c: ChannelState<M>, message: M)
    requires ProcessorValid(config, size, c.processor)
    ensures ProcessorValid(config, size, Send(config, size, c, message).processor)
  {
    if c.errorLevel == NoError && CanSend(config, c) && c.processor.ReliableState? {
      SendMessageKeepsValid(config, c.processor.sender, message, 8 * size(message));
    }
  }

  lemma ReceiveKeepsValid<M>(config: Config, size: M -> nat, c: ChannelState<M>)
    requires ProcessorValid(config, size, c.processor)
    ensures ProcessorValid(config, size, Receive(c).processor)
  {
  }

  lemma AfterPacketDataKeepsValid<M>(
    config: Config, size: M -> nat, c: ChannelState<M>, packetSequence: u16, availableBits: nat)
    requires ProcessorValid(config, size, c.processor)
    ensures ProcessorValid(config, size, AfterPacketData(config, size, c, packetSequence, availableBits).processor)
  {
    match c.processor
    case ReliableState(sender, _) =>
      GeneratePacketKeepsValid(config, sender, packetSequence, availableBits);
      GeneratePacketKeepsMeasured(config, sender, size, packetSequence, availableBits);
    case UnreliableState(sendQueue, _) =>
      U.FillTakesPrefix(config.maxMessagesPerPacket, size, sendQueue, config.BitsFor(availableBits),
                        MESSAGE_HEADER_BITS, 0);
  }

  lemma ProcessPacketDataKeepsValid<M>(
    config: Config, size: M -> nat, c: ChannelState<M>, messages: seq<(u16, M)>, packetSequence: u16)
    requires ProcessorValid(config, size, c.processor)
    ensures ProcessorValid(config, size, ProcessPacketData(config, c, messages, packetSequence).channel.processor)
  {
    if c.errorLevel == NoError && c.processor.ReliableState? {
      ReceivePacketKeepsValid(config, c.processor.receiver, messages);
    }
  }

  lemma ProcessAckKeepsValid<M>(config: Config, size: M -> nat, c: ChannelState<M>, ack: u16)
    requires ProcessorValid(config, size, c.processor)
    ensures ProcessorValid(config, size, ProcessAck(c, ack).processor)
  {
    if c.processor.ReliableState? {
      ReliableSpec.ProcessAckKeepsValid(config, c.processor.sender, ack);
      ReliableSpec.ProcessAckKeepsMeasured(c.processor.sender, size, ack);
    }
  }
}
