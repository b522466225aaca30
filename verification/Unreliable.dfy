/** The unreliable channel: two bounded queues, and packets filled greedily from the front of one of them. */
module UnreliableChannel {
  import opened Wrap16
  import opened Options
  import opened Configs

  // ---- Filling a packet ----------------------------------------------------------------------

  /** What went into a packet, what is left in the queue, and the bits used. */
  datatype Filling<M> = Filling(sent: seq<M>, rest: seq<M>, bits: nat)

  function Fill<M>(
    maxMessages: nat, size: M -> nat, queue: seq<M>, available: nat, used: nat, count: nat): Filling<M>
    decreases |queue|
  {
    if available < used + GIVE_UP_BITS || count == maxMessages || queue == [] then Filling([], queue, used)
    else
      var bits := 8 * size(queue[0]);
      if used + bits > available then Fill(maxMessages, size, queue[1..], available, used, count)
      else
        var rest := Fill(maxMessages, size, queue[1..], available, used + bits, count + 1);
        rest.(sent := [queue[0]] + rest.sent)
  }

  /** The packet filled from `queue`; no bits when nothing was sent. */
  function FillPacket<M>(config: Config, size: M -> nat, queue: seq<M>, availableBits: nat): Filling<M> {
    if queue == [] then Filling([], [], 0)
    else
      var filling := Fill(config.maxMessagesPerPacket, size, queue, config.BitsFor(availableBits),
                          MESSAGE_HEADER_BITS, 0);
      if filling.sent == [] then filling.(bits := 0) else filling
  }

  function TotalBits<M>(size: M -> nat, messages: seq<M>): nat {
    if messages == [] then 0 else 8 * size(messages[0]) + TotalBits(size, messages[1..])
  }

  /** Whether message `i` of `messages` fits when the ones before it have had their turn. */
  predicate FitsAtItsTurn<M>(size: M -> nat, messages: seq<M>, available: nat, used: nat, i: nat)
    requires i < |messages|
  {
    UsedBefore(size, messages, available, used, i) + 8 * size(messages[i]) <= available
  }

  /** The bits in use when the turn of message `i` comes. */
  function UsedBefore<M>(size: M -> nat, messages: seq<M>, available: nat, used: nat, i: nat): nat
    requires i <= |messages|
    decreases i
  {
    if i == 0 then used
    else
      var before := UsedBefore(size, messages, available, used, i - 1);
      if before + 8 * size(messages[i - 1]) <= available then before + 8 * size(messages[i - 1]) else before
  }

  /** The messages among the first `n` that fit at their turn, in order. */
  function Fitting<M>(size: M -> nat, messages: seq<M>, available: nat, used: nat, n: nat): seq<M>
    requires n <= |messages|
    decreases n
  {
    if n == 0 then []
    else
      Fitting(size, messages, available, used, n - 1)
      + if FitsAtItsTurn(size, messages, available, used, n - 1) then [messages[n - 1]] else []
  }

  lemma {:induction false} UsedBeforeShift<M>(size: M -> nat, messages: seq<M>, available: nat, used: nat, i: nat)
    requires 0 < i <= |messages|
    ensures UsedBefore(size, messages, available, used, i)
         == UsedBefore(size, messages[1..], available, UsedBefore(size, messages, available, used, 1), i - 1)
    decreases i
  {
    if i == 1 {
    } else {
      UsedBeforeShift(size, messages, available, used, i - 1);
      assert messages[1..][i - 2] == messages[i - 1];
    }
  }

  lemma {:induction false} FittingShift<M>(size: M -> nat, messages: seq<M>, available: nat, used: nat, n: nat)
    requires 0 < n <= |messages|
    ensures Fitting(size, messages, available, used, n)
         == Fitting(size, messages, available, used, 1)
            + Fitting(size, messages[1..], available, UsedBefore(size, messages, available, used, 1), n - 1)
    decreases n
  {
    if n == 1 {
    } else {
      FittingShift(size, messages, available, used, n - 1);
      FitsShift(size, messages, available, used, n - 1);
    }
  }

  lemma FitsShift<M>(size: M -> nat, messages: seq<M>, available: nat, used: nat, i: nat)
    requires 0 < i < |messages|
    ensures FitsAtItsTurn(size, messages, available, used, i)
         == FitsAtItsTurn(size, messages[1..], available, UsedBefore(size, messages, available, used, 1), i - 1)
    ensures messages[1..][i - 1] == messages[i]
  {
    UsedBeforeShift(size, messages, available, used, i);
  }

  /** The packet takes a prefix off the queue, and stops when the queue is empty, the packet full, or too few bits
      are left. The bits reported are those of what was sent. */
  lemma {:induction false} FillTakesPrefix<M>(
    maxMessages: nat, size: M -> nat, queue: seq<M>, available: nat, used: nat, count: nat)
    requires count <= maxMessages
    ensures var filling := Fill(maxMessages, size, queue, available, used, count);
            var n := |queue| - |filling.rest|;
            && 0 <= n <= |queue| && filling.rest == queue[n..]
            && filling.bits == used + TotalBits(size, filling.sent)
            && (used <= available ==> filling.bits <= available)
            && count + |filling.sent| <= maxMessages
            && (filling.rest == [] || count + |filling.sent| == maxMessages || available < filling.bits + GIVE_UP_BITS)
    decreases |queue|
  {
    if available < used + GIVE_UP_BITS || count == maxMessages || queue == [] {
    } else {
      var bits := 8 * size(queue[0]);
      var fits := used + bits <= available;
      var used', count' := if fits then used + bits else used, if fits then count + 1 else count;
      var later := Fill(maxMessages, size, queue[1..], available, used', count');
      FillTakesPrefix(maxMessages, size, queue[1..], available, used', count');
      assert ([queue[0]] + later.sent)[1..] == later.sent;
    }
  }

  /** Of the prefix taken, exactly the messages that fit at their turn are sent; the others are gone. */
  lemma {:induction false} FillSendsFitting<M>(
    maxMessages: nat, size: M -> nat, queue: seq<M>, available: nat, used: nat, count: nat)
    requires count <= maxMessages
    ensures var filling := Fill(maxMessages, size, queue, available, used, count);
            var n := |queue| - |filling.rest|;
            && 0 <= n && filling.sent == Fitting(size, queue, available, used, n)
            && filling.bits == UsedBefore(size, queue, available, used, n)
    decreases |queue|
  {
    if available < used + GIVE_UP_BITS || count == maxMessages || queue == [] {
    } else {
      var fits := used + 8 * size(queue[0]) <= available;
      var used', count' := if fits then used + 8 * size(queue[0]) else used, if fits then count + 1 else count;
      FillSendsFitting(maxMessages, size, queue[1..], available, used', count');
      FillFromFirst(maxMessages, size, queue, available, used, count);
      var later := Fill(maxMessages, size, queue[1..], available, used', count');
      FittingFromFirst(size, queue, available, used, 1 + |queue[1..]| - |later.rest|);
    }
  }

  /** Message `i` has its turn: 32 bits are left and the packet is not full after the turns of the messages before
      it. */
  ghost predicate HasItsTurn<M>(
    maxMessages: nat, size: M -> nat, messages: seq<M>, available: nat, used: nat, count: nat, i: nat)
    requires i <= |messages|
  {
    && UsedBefore(size, messages, available, used, i) + 32 <= available
    && count + |Fitting(size, messages, available, used, i)| < maxMessages
  }

  /** Exactly the messages up to the first one without a turn are taken off the queue: none is dropped whose turn did
      not come, and none is left whose turn came. */
  lemma {:induction false} FillStopsInTime<M>(
    maxMessages: nat, size: M -> nat, queue: seq<M>, available: nat, used: nat, count: nat)
    requires count <= maxMessages
    ensures var n := |queue| - |Fill(maxMessages, size, queue, available, used, count).rest|;
            && 0 <= n <= |queue|
            && (forall i :: 0 <= i < n ==> HasItsTurn(maxMessages, size, queue, available, used, count, i))
            && (n < |queue| ==> !HasItsTurn(maxMessages, size, queue, available, used, count, n))
    decreases |queue|
  {
    if available < used + GIVE_UP_BITS || count == maxMessages || queue == [] {
    } else {
      var fits := used + 8 * size(queue[0]) <= available;
      var used', count' := if fits then used + 8 * size(queue[0]) else used, if fits then count + 1 else count;
      FillStopsInTime(maxMessages, size, queue[1..], available, used', count');
      FillFromFirst(maxMessages, size, queue, available, used, count);
      forall i | 0 < i <= |queue|
        ensures HasItsTurn(maxMessages, size, queue, available, used, count, i)
            <==> HasItsTurn(maxMessages, size, queue[1..], available, used', count', i - 1)
      {
        FittingFromFirst(size, queue, available, used, i);
      }
    }
  }

  /** Filling takes its turn with the first message, and goes on with the others. */
  lemma FillFromFirst<M>(maxMessages: nat, size: M -> nat, queue: seq<M>, available: nat, used: nat, count: nat)
    requires queue != [] && count != maxMessages && used + GIVE_UP_BITS <= available
    ensures var fits := used + 8 * size(queue[0]) <= available;
            var later := Fill(maxMessages, size, queue[1..], available,
                              if fits then used + 8 * size(queue[0]) else used, if fits then count + 1 else count);
            Fill(maxMessages, size, queue, available, used, count)
            == Filling((if fits then [queue[0]] else []) + later.sent, later.rest, later.bits)
  {
    if used + 8 * size(queue[0]) > available {
      var later := Fill(maxMessages, size, queue[1..], available, used, count);
      assert [] + later.sent == later.sent;
    }
  }

  /** The first message has its turn, and then the others. */
  lemma FittingFromFirst<M>(size: M -> nat, messages: seq<M>, available: nat, used: nat, n: nat)
    requires 0 < n <= |messages|
    ensures var fits := used + 8 * size(messages[0]) <= available;
            var used' := if fits then used + 8 * size(messages[0]) else used;
            && Fitting(size, messages, available, used, n)
               == (if fits then [messages[0]] else []) + Fitting(size, messages[1..], available, used', n - 1)
            && UsedBefore(size, messages, available, used, n)
               == UsedBefore(size, messages[1..], available, used', n - 1)
  {
    UsedBeforeShift(size, messages, available, used, n);
    FittingShift(size, messages, available, used, n);
    FirstFitting(size, messages, available, used);
  }

  lemma FirstFitting<M>(size: M -> nat, messages: seq<M>, available: nat, used: nat)
    requires messages != []
    ensures var fits := used + 8 * size(messages[0]) <= available;
            && Fitting(size, messages, available, used, 1) == (if fits then [messages[0]] else [])
            && UsedBefore(size, messages, available, used, 1) == if fits then used + 8 * size(messages[0]) else used
  {
    assert Fitting(size, messages, available, used, 0) == [];
  }

  /** `FillTakesPrefix` for a whole packet, and the bits it reports. */
  lemma FillPacketIsSound<M>(config: Config, size: M -> nat, queue: seq<M>, availableBits: nat)
    ensures var filling := FillPacket(config, size, queue, availableBits);
            && |filling.sent| <= config.maxMessagesPerPacket
            && (filling.sent == [] ==> filling.bits == 0)
            && (filling.sent != [] ==>
                  filling.bits == MESSAGE_HEADER_BITS + TotalBits(size, filling.sent) <= config.BitsFor(availableBits))
  {
    if queue != [] {
      FillTakesPrefix(config.maxMessagesPerPacket, size, queue, config.BitsFor(availableBits), MESSAGE_HEADER_BITS, 0);
    }
  }

  /** With `share` bits, these messages are sent and these are left: the messages up to the first one without a turn
      leave the queue, and of them those that fit at their turn are sent, in order. */
  ghost predicate TakesExactly<M>(
    config: Config, size: M -> nat, queue: seq<M>, share: nat, sent: seq<M>, rest: seq<M>)
  {
    var n := |queue| - |rest|;
    && 0 <= n && rest == queue[n..] && sent == Fitting(size, queue, share, 32, n)
    && (forall i :: 0 <= i < n ==> HasItsTurn(config.maxMessagesPerPacket, size, queue, share, 32, 0, i))
    && (rest != [] ==> !HasItsTurn(config.maxMessagesPerPacket, size, queue, share, 32, 0, n))
  }

  /** Exactly what a packet takes off the queue, in terms of the messages and the bits left. */
  lemma FillPacketIsExact<M>(config: Config, size: M -> nat, queue: seq<M>, left: nat, share: nat)
    requires IsShare(config, left, share)
    ensures var filling := FillPacket(config, size, queue, left);
            TakesExactly(config, size, queue, share, filling.sent, filling.rest)
  {
    assert share == config.BitsFor(left);
    FillTakesPrefix(config.maxMessagesPerPacket, size, queue, share, MESSAGE_HEADER_BITS, 0);
    FillSendsFitting(config.maxMessagesPerPacket, size, queue, share, MESSAGE_HEADER_BITS, 0);
    FillStopsInTime(config.maxMessagesPerPacket, size, queue, share, MESSAGE_HEADER_BITS, 0);
  }

  /** The first message is sent when it fits the bits left and the budget, and 64 bits are left of both. */
  lemma FirstIsSent<M>(config: Config, size: M -> nat, queue: seq<M>, left: nat, share: nat)
    requires IsShare(config, left, share) && queue != [] && 1 <= config.maxMessagesPerPacket
    requires 64 <= share && 32 + 8 * size(queue[0]) <= share
    ensures var filling := FillPacket(config, size, queue, left);
            filling.sent != [] && filling.sent[0] == queue[0]
  {
    FillPacketIsExact(config, size, queue, left, share);
    var n := |queue| - |FillPacket(config, size, queue, left).rest|;
    assert Fitting(size, queue, share, 32, 0) == [];
    assert HasItsTurn(config.maxMessagesPerPacket, size, queue, share, 32, 0, 0);
    FittingFromFirst(size, queue, share, 32, n);
  }

  // ---- Receiving -----------------------------------------------------------------------------

  /** As many messages as there is room for are queued, all under the packet's number; the others are dropped. */
  function Received<M>(config: Config, queue: seq<(u16, M)>, messages: seq<M>, packetSequence: u16): (r: seq<(u16, M)>)
    ensures |queue| <= config.messageReceiveQueueSize ==> |r| <= config.messageReceiveQueueSize
    ensures queue <= r
    decreases |messages|
  {
    if messages == [] then queue
    else
      var queue' := if |queue| < config.messageReceiveQueueSize then queue + [(packetSequence, messages[0])] else queue;
      Received(config, queue', messages[1..], packetSequence)
  }

  function Numbered<M>(messages: seq<M>, packetSequence: u16): (r: seq<(u16, M)>)
    ensures |r| == |messages| && forall i :: 0 <= i < |messages| ==> r[i] == (packetSequence, messages[i])
  {
    seq(|messages|, i requires 0 <= i < |messages| => (packetSequence, messages[i]))
  }

  lemma {:induction false} ReceivedWhenFull<M>(
    config: Config, queue: seq<(u16, M)>, messages: seq<M>, packetSequence: u16)
    requires |queue| >= config.messageReceiveQueueSize
    ensures Received(config, queue, messages, packetSequence) == queue
    decreases |messages|
  {
    if messages == [] {
    } else {
      ReceivedWhenFull(config, queue, messages[1..], packetSequence);
    }
  }

  /** What is kept is a prefix of the packet, as long as the queue has room. */
  lemma {:induction false} ReceivedIsPrefix<M>(
    config: Config, queue: seq<(u16, M)>, messages: seq<M>, packetSequence: u16)
    requires |queue| <= config.messageReceiveQueueSize
    ensures var room := config.messageReceiveQueueSize - |queue|;
            var n := if |messages| < room then |messages| else room;
            Received(config, queue, messages, packetSequence) == queue + Numbered(messages[..n], packetSequence)
    decreases |messages|
  {
    var room := config.messageReceiveQueueSize - |queue|;
    if messages == [] {
      assert queue + Numbered(messages[..0], packetSequence) == queue;
    } else if room == 0 {
      ReceivedWhenFull(config, queue, messages, packetSequence);
      assert queue + Numbered(messages[..0], packetSequence) == queue;
    } else {
      ReceivedIsPrefix(config, queue + [(packetSequence, messages[0])], messages[1..], packetSequence);
      NumberedFirst(queue, messages, if |messages| < room then |messages| else room, packetSequence);
    }
  }

  lemma NumberedFirst<M>(queue: seq<(u16, M)>, messages: seq<M>, n: nat, packetSequence: u16)
    requires 1 <= n <= |messages|
    ensures queue + Numbered(messages[..n], packetSequence)
         == (queue + [(packetSequence, messages[0])]) + Numbered(messages[1..][..n - 1], packetSequence)
  {
  }

  class Unreliable<M> {
    const config: Config
    const encodedSize: M -> nat
    var messageSendQueue: seq<M>
    var messageReceiveQueue: seq<(u16, M)>

    ghost predicate Valid()
      reads this
    {
      |messageSendQueue| <= config.messageSendQueueSize && |messageReceiveQueue| <= config.messageReceiveQueueSize
    }

    constructor (config: Config, encodedSize: M -> nat)
      ensures Valid() && this.config == config && this.encodedSize == encodedSize
      ensures messageSendQueue == [] && messageReceiveQueue == []
    {
      this.config, this.encodedSize := config, encodedSize;
      messageSendQueue, messageReceiveQueue := [], [];
    }

    method Reset()
      modifies this
      ensures Valid() && messageSendQueue == [] && messageReceiveQueue == []
    {
      messageSendQueue, messageReceiveQueue := [], [];
    }

    predicate CanSendMessage()
      reads this
    {
      |messageSendQueue| < config.messageSendQueueSize
    }

    /** A message is appended even to a full queue, which then is longer than configured. */
    method SendMessage(message: M)
      modifies this`messageSendQueue
      ensures messageSendQueue == old(messageSendQueue) + [message]
      ensures old(Valid() && CanSendMessage()) ==> Valid()
    {
      messageSendQueue := messageSendQueue + [message];
    }

    method ReceiveMessage() returns (r: Option<(u16, M)>)
      requires Valid()
      modifies this`messageReceiveQueue
      ensures Valid()
      ensures old(messageReceiveQueue) == match r
                                          case None => messageReceiveQueue
                                          case Some(message) => [message] + messageReceiveQueue
      ensures r == None ==> messageReceiveQueue == []
    {
      if messageReceiveQueue == [] {
        return None;
      }
      r := Some(messageReceiveQueue[0]);
      messageReceiveQueue := messageReceiveQueue[1..];
    }

    method PacketData(packetSequence: u16, availableBits: nat) returns (messages: seq<(u16, M)>, bits: nat)
      requires Valid()
      modifies this`messageSendQueue
      ensures Valid()
      ensures var filling := FillPacket(config, encodedSize, old(messageSendQueue), availableBits);
              && messages == Numbered(filling.sent, packetSequence) && bits == filling.bits
              && messageSendQueue == filling.rest
    {
      if messageSendQueue == [] {
        return [], 0;
      }
      var available, usedBits: nat := config.BitsFor(availableBits), MESSAGE_HEADER_BITS;
      messages := [];
      ghost var filling := Fill(config.maxMessagesPerPacket, encodedSize, messageSendQueue, available, usedBits, 0);
      ghost var sent: seq<M>, rest := [], filling;
      while true
        invariant messages == Numbered(sent, packetSequence) && |sent| <= config.maxMessagesPerPacket
        invariant rest == Fill(config.maxMessagesPerPacket, encodedSize, messageSendQueue, available, usedBits, |sent|)
        invariant filling == rest.(sent := sent + rest.sent)
        invariant Valid()
        decreases |messageSendQueue|
      {
        if (if usedBits < available then available - usedBits else 0) < GIVE_UP_BITS {
          break;
        }
        if |messages| == config.maxMessagesPerPacket {
          break;
        }
        if messageSendQueue == [] {
          break;
        }
        var message := messageSendQueue[0];
        messageSendQueue := messageSendQueue[1..];
        var messageBits := 8 * encodedSize(message);
        if usedBits + messageBits > available {
          continue;
        }
        usedBits := usedBits + messageBits;
        messages := messages + [(packetSequence, message)];
        rest := Fill(config.maxMessagesPerPacket, encodedSize, messageSendQueue, available, usedBits, |sent| + 1);
        assert sent + ([message] + rest.sent) == (sent + [message]) + rest.sent;
        sent := sent + [message];
      }
      assert rest.sent == [] && sent + [] == sent;
      bits := if messages == [] then 0 else usedBits;
    }

    /** The packet's number overrides whatever id the messages came with. */
    method ProcessPacketData(messages: seq<(u16, M)>, packetSequence: u16)
      requires Valid()
      modifies this`messageReceiveQueue
      ensures Valid()
      ensures messageReceiveQueue
              == Received(config, old(messageReceiveQueue), Contents(messages), packetSequence)
    {
      for i := 0 to |messages|
        invariant Valid()
        invariant Received(config, messageReceiveQueue, Contents(messages)[i..], packetSequence)
               == Received(config, old(messageReceiveQueue), Contents(messages), packetSequence)
      {
        assert Contents(messages)[i..][1..] == Contents(messages)[i + 1..];
        if |messageReceiveQueue| < config.messageReceiveQueueSize {
          messageReceiveQueue := messageReceiveQueue + [(packetSequence, messages[i].1)];
        }
      }
    }
  }

  function Contents<M>(messages: seq<(u16, M)>): (r: seq<M>)
    ensures |r| == |messages| && forall i :: 0 <= i < |messages| ==> r[i] == messages[i].1
  {
    seq(|messages|, i requires 0 <= i < |messages| => messages[i].1)
  }
}
