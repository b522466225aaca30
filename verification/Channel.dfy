/** The channel object: a processor of either kind behind an error latch and counters. */
module Channels {
  import opened Wrap16
  import opened Options
  import opened Configs
  import opened ReliableSpec
  import opened ReliableChannel
  import opened UnreliableChannel
  import Spec = ChannelSpec

  datatype ProcessorObject<M> = ReliableObject(reliable: Reliable<M>) | UnreliableObject(unreliable: Unreliable<M>)

  class Channel<M> {
    const config: Config
    const encodedSize: M -> nat
    const channelIndex: nat
    const processor: ProcessorObject<M>
    var errorLevel: Spec.ChannelErrorLevel
    var sent: nat
    var received: nat

    ghost function Repr(): set<object> {
      {this} + match processor
               case ReliableObject(reliable) => reliable.Repr()
               case UnreliableObject(unreliable) => {unreliable}
    }

    twostate predicate Untouched()
      reads Repr()
    {
      forall o <- Repr() :: unchanged(o)
    }

    ghost predicate Valid()
      reads Repr()
    {
      match processor
      case ReliableObject(reliable) =>
        && this !in reliable.Repr() && reliable.Valid()
        && reliable.config == config && reliable.encodedSize == encodedSize
      case UnreliableObject(unreliable) =>
        && unreliable.Valid() && config.kind == UnreliableUnordered
        && unreliable.config == config && unreliable.encodedSize == encodedSize
    }

    ghost function State(): Spec.ChannelState<M>
      reads Repr()
    {
      Spec.ChannelState(errorLevel,
                        match processor
                        case ReliableObject(reliable) => Spec.ReliableState(reliable.sender, reliable.receiver)
                        case UnreliableObject(unreliable) =>
                          Spec.UnreliableState(unreliable.messageSendQueue, unreliable.messageReceiveQueue),
                        sent, received)
    }

    /** A valid channel has a valid state. */
    lemma StateIsValid()
      requires Valid()
      ensures Spec.ProcessorValid(config, encodedSize, State().processor)
    {
    }

    constructor (config: Config, channelIndex: nat, time: real, encodedSize: M -> nat)
      requires config.Buildable()
      ensures config.Usable() ==> Valid()
      ensures fresh(this) && State() == Spec.NewChannel(config, time)
      ensures this.config == config && this.channelIndex == channelIndex && this.encodedSize == encodedSize
      ensures fresh(Repr())
    {
      this.config, this.channelIndex, this.encodedSize := config, channelIndex, encodedSize;
      errorLevel, sent, received := Spec.NoError, 0, 0;
      if config.kind == ReliableOrdered {
        var reliable := new Reliable(config, time, encodedSize);
        processor := ReliableObject(reliable);
      } else {
        var unreliable := new Unreliable(config, encodedSize);
        processor := UnreliableObject(unreliable);
      }
    }

    method Reset()
      requires Valid()
      modifies Repr()
      ensures Valid() && State() == Spec.Reset(old(State()))
    {
      errorLevel := Spec.NoError;
      match processor {
        case ReliableObject(reliable) => reliable.Reset();
        case UnreliableObject(unreliable) => unreliable.Reset();
      }
      sent, received := 0, 0;
    }

    method AdvanceTime(time: real)
      requires Valid()
      modifies Repr()
      ensures Valid() && State() == Spec.AdvanceTime(old(State()), time)
    {
      match processor
      case ReliableObject(reliable) => reliable.AdvanceTime(time);
      case UnreliableObject(_) =>
    }

    predicate CanSendMessage()
      requires Valid()
      reads Repr()
      ensures CanSendMessage() <==> Spec.CanSend(config, State())
    {
      match processor
      case ReliableObject(reliable) => reliable.CanSendMessage()
      case UnreliableObject(unreliable) => unreliable.CanSendMessage()
    }

    method SendMessage(message: M)
      requires Valid()
      modifies Repr()
      ensures Valid() && State() == Spec.Send(config, encodedSize, old(State()), message)
    {
      if errorLevel != Spec.NoError {
        return;
      }
      if !CanSendMessage() {
        errorLevel := Spec.SendQueueFull;
        return;
      }
      match processor {
        case ReliableObject(reliable) => reliable.SendMessage(message);
        case UnreliableObject(unreliable) => unreliable.SendMessage(message);
      }
      sent := sent + 1;
    }

    method ReceiveMessage() returns (r: Option<(u16, M)>)
      requires Valid()
      modifies Repr()
      ensures Valid() && r == Spec.ReceiveNext(old(State())) && State() == Spec.Receive(old(State()))
    {
      if errorLevel != Spec.NoError {
        return None;
      }
      match processor {
        case ReliableObject(reliable) => r := reliable.ReceiveMessage();
        case UnreliableObject(unreliable) => r := unreliable.ReceiveMessage();
      }
      if r == None {
        return;
      }
      received := received + 1;
    }

    predicate HasRoom(availableBits: nat)
      requires Valid()
      reads Repr()
      ensures HasRoom(availableBits) <==> Spec.HasRoom(config, State(), availableBits)
    {
      match processor
      case ReliableObject(reliable) =>
        reliable.HasMessagesToSend() ==> config.BitsFor(availableBits) >= MESSAGE_HEADER_BITS
      case UnreliableObject(_) => true
    }

    method PacketData(packetSequence: u16, availableBits: nat) returns (messages: seq<(u16, M)>, bits: nat)
      requires Valid() && Spec.HasRoom(config, State(), availableBits)
      modifies Repr()
      ensures Valid()
      ensures State() == Spec.AfterPacketData(config, encodedSize, old(State()), packetSequence, availableBits)
      ensures old(State()).processor.ReliableState? ==> config.Valid()
      ensures Spec.PacketPart(messages, bits)
           == Spec.PacketData(config, encodedSize, old(State()), packetSequence, availableBits)
    {
      match processor
      case ReliableObject(reliable) => messages, bits := reliable.PacketData(packetSequence, availableBits);
      case UnreliableObject(unreliable) => messages, bits := unreliable.PacketData(packetSequence, availableBits);
    }

    method ProcessPacketData(messages: seq<(u16, M)>, packetSequence: u16) returns (ok: bool)
      requires Valid()
      modifies Repr()
      ensures Valid()
      ensures Spec.Processed(State(), ok) == Spec.ProcessPacketData(config, old(State()), messages, packetSequence)
    {
      if errorLevel != Spec.NoError {
        return true;
      }
      match processor
      case ReliableObject(reliable) => ok := reliable.ProcessPacketData(messages);
      case UnreliableObject(unreliable) =>
        unreliable.ProcessPacketData(messages, packetSequence);
        ok := true;
    }

    method ProcessAck(ack: u16) returns (result: AckResult)
      requires Valid()
      modifies Repr()
      ensures Valid() && result == Spec.AckResultOf(old(State()), ack)
      ensures old(State()).processor.ReliableState? ==>
                old(State()).processor.sender.oldest <= old(State()).processor.sender.next
      ensures State() == Spec.ProcessAck(old(State()), ack)
    {
      match processor
      case ReliableObject(reliable) => result := reliable.ProcessAck(ack);
      case UnreliableObject(_) => result := NotRecorded;
    }
  }
}
