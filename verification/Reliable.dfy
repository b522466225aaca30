/** The reliable channel as the program keeps it: 16-bit ids, three rings and one array of sent ids. */
module ReliableChannel {
  import opened Wrap16
  import opened Options
  import opened SequenceBuffers
  import opened Configs
  import opened ReliableSpec

  datatype ReceiveEntry<M> = ReceiveEntry(id: u16, message: M)

  /** `start` and `count` refer to a slice of the shared array of sent message ids. */
  datatype SentPacketEntry = SentPacketEntry(acked: bool, timeSent: real, start: nat, count: nat)

  /** What became of one message while a packet was filled. A message that is larger than the whole packet counts
      as not due. */
  datatype Considered = NotQueued | NotDue | TooBig | Chosen

  /** Slices of different slots do not overlap, and all lie inside the array. */
  lemma SlicesAreApart(i: nat, j: nat, size: nat, width: nat)
    requires i < j < size
    ensures i * width + width <= j * width && j * width + width <= size * width
  {
    assert (i + 1) * width <= j * width;
    assert (j + 1) * width <= size * width;
  }

  lemma SliceIsInside(i: nat, size: nat, width: nat)
    requires i < size
    ensures i * width + width <= size * width
  {
    assert (i + 1) * width <= size * width;
  }

  /** Packets that are live together never share a slice. */
  lemma SlicesOfPacketsAreApart(p: int, q: int, size: nat, width: nat)
    requires p != q && p - q < size && q - p < size
    ensures var i, j := Slot(p, size), Slot(q, size);
            i * width + width <= j * width || j * width + width <= i * width
  {
    var i, j := Slot(p, size), Slot(q, size);
    if i == j {
      SlotIsInjective(p, q, size);
    } else if i < j {
      SlicesAreApart(i, j, size, width);
    } else {
      SlicesAreApart(j, i, size, width);
    }
  }

  /** The entry recorded for packet `p` refers to a slice of the shared array that holds exactly its ids. */
  ghost predicate EntryMatches(config: Config, p: int, entry: SentPacketEntry, packet: SentPacket, ids: seq<u16>)
    requires config.Valid()
  {
    && entry.acked == packet.acked
    && entry.start == Slot(p, config.sentPacketBufferSize) * config.maxMessagesPerPacket
    && entry.count == |packet.ids| <= config.maxMessagesPerPacket
    && entry.start + entry.count <= |ids|
    && ids[entry.start..entry.start + entry.count] == packet.ids
  }

  ghost predicate AgreeOutside(a: seq<u16>, b: seq<u16>, from: nat, width: nat) {
    |a| == |b| && forall j :: 0 <= j < |a| && (j < from || from + width <= j) ==> a[j] == b[j]
  }

  /** Writing the slice of packet `p` does not change the slice of another live packet. */
  lemma OtherStillMatches(
    config: Config, p: int, q: int, entry: SentPacketEntry, packet: SentPacket, before: seq<u16>, after: seq<u16>)
    requires config.Valid() && EntryMatches(config, q, entry, packet, before)
    requires p != q && p - q < config.sentPacketBufferSize && q - p < config.sentPacketBufferSize
    requires AgreeOutside(before, after, Slot(p, config.sentPacketBufferSize) * config.maxMessagesPerPacket,
                          config.maxMessagesPerPacket)
    ensures EntryMatches(config, q, entry, packet, after)
  {
    SlicesOfPacketsAreApart(q, p, config.sentPacketBufferSize, config.maxMessagesPerPacket);
    assert forall j :: entry.start <= j < entry.start + entry.count ==> before[j] == after[j];
  }

  class Reliable<M> {
    var time: real
    const config: Config
    /** The number of bytes a message serializes to. */
    const encodedSize: M -> nat

    var sendMessageId: u16
    var receiveMessageId: u16
    var oldestUnackedMessageId: u16

    const sentPacketMessageIds: array<u16>
    const sentPackets: SequenceBuffer<SentPacketEntry>
    const messageSendQueue: SequenceBuffer<SendEntry<M>>
    const messageReceiveQueue: SequenceBuffer<ReceiveEntry<M>>

    /** The two halves of the channel, counted without wrapping. */
    ghost var sender: Sender<M>
    ghost var receiver: Receiver<M>

    ghost function Repr(): set<object> {
      {this, sentPacketMessageIds} + sentPackets.Repr() + messageSendQueue.Repr() + messageReceiveQueue.Repr()
    }

    ghost predicate Separate() {
      && this !in sentPackets.Repr() + messageSendQueue.Repr() + messageReceiveQueue.Repr()
      && sentPacketMessageIds !in sentPackets.Repr() + messageSendQueue.Repr() + messageReceiveQueue.Repr()
      && sentPackets.Repr() !! messageSendQueue.Repr() !! messageReceiveQueue.Repr()
    }

    ghost predicate Valid()
      reads Repr()
    {
      && config.Valid() && Separate()
      && SendQueueValid() && SentPacketsValid() && ReceiveQueueValid()
    }

    ghost predicate SendQueueValid()
      reads this, messageSendQueue.Repr()
    {
      && SenderValid(config, sender)
      && time == sender.time
      && sendMessageId == Wrap(sender.next)
      && oldestUnackedMessageId == Wrap(sender.oldest)
      && messageSendQueue.Valid() && messageSendQueue.Capacity() == config.messageSendQueueSize
      && messageSendQueue.top == sender.next && messageSendQueue.view == sender.queue
      && Measured(sender, encodedSize)
    }

    /** The slice of every live sent-packet entry holds exactly the ids of that packet. */
    ghost predicate SentPacketsValid()
      requires config.Valid()
      reads this, sentPacketMessageIds, sentPackets.Repr()
    {
      && sentPackets.Valid() && sentPackets.Capacity() == config.sentPacketBufferSize
      && sentPacketMessageIds.Length == config.sentPacketBufferSize * config.maxMessagesPerPacket
      && sentPackets.top == sender.packetTop && sentPackets.view.Keys == sender.ledger.Keys
      && forall p :: p in sender.ledger ==>
           EntryMatches(config, p, sentPackets.view[p], sender.ledger[p], sentPacketMessageIds[..])
    }

    ghost predicate ReceiveQueueValid()
      reads this, messageReceiveQueue.Repr()
    {
      && ReceiverValid(config, receiver)
      && receiveMessageId == Wrap(receiver.next)
      && messageReceiveQueue.Valid() && messageReceiveQueue.Capacity() == config.messageReceiveQueueSize
      && receiver.next <= messageReceiveQueue.top <= receiver.next + config.messageReceiveQueueSize
      && messageReceiveQueue.view.Keys == receiver.pending.Keys
      && forall k :: k in receiver.pending ==>
           messageReceiveQueue.view[k] == ReceiveEntry(Wrap(k), receiver.pending[k])
    }

    /** What a change elsewhere leaves alone. */
    twostate lemma SendQueueFrame()
      requires old(SendQueueValid()) && messageSendQueue.Untouched()
      requires sender == old(sender) && time == old(time)
      requires sendMessageId == old(sendMessageId) && oldestUnackedMessageId == old(oldestUnackedMessageId)
      ensures SendQueueValid()
    {
    }

    twostate lemma SentPacketsFrame()
      requires config.Valid() && old(SentPacketsValid())
      requires sentPackets.Untouched() && unchanged(sentPacketMessageIds)
      requires sender.packetTop == old(sender).packetTop && sender.ledger == old(sender).ledger
      ensures SentPacketsValid()
    {
    }

    twostate lemma ReceiveQueueFrame()
      requires old(ReceiveQueueValid()) && messageReceiveQueue.Untouched()
      requires receiver == old(receiver) && receiveMessageId == old(receiveMessageId)
      ensures ReceiveQueueValid()
    {
    }

    constructor (config: Config, time: real, encodedSize: M -> nat)
      requires config.kind == ReliableOrdered && config.Buildable()
      ensures config.Valid() ==> Valid()
      ensures this.config == config && this.encodedSize == encodedSize
      ensures fresh(sentPacketMessageIds) && fresh(sentPackets.Repr())
      ensures fresh(messageSendQueue.Repr()) && fresh(messageReceiveQueue.Repr())
      ensures sender == NewSender(time) && receiver == NewReceiver()
    {
      this.config, this.time, this.encodedSize := config, time, encodedSize;
      sendMessageId, receiveMessageId, oldestUnackedMessageId := 0, 0, 0;
      sentPackets := new SequenceBuffer<SentPacketEntry>(config.sentPacketBufferSize);
      sentPacketMessageIds := new u16[config.maxMessagesPerPacket * config.sentPacketBufferSize](_ => 0);
      messageSendQueue := new SequenceBuffer<SendEntry<M>>(config.messageSendQueueSize);
      messageReceiveQueue := new SequenceBuffer<ReceiveEntry<M>>(config.messageReceiveQueueSize);
      sender, receiver := NewSender(time), NewReceiver();
      new;
      if config.Valid() {
        EmptyIsValid();
      }
    }

    lemma EmptyIsValid()
      requires config.Valid() && Separate() && EmptySending(time) && receiver == NewReceiver()
      requires receiveMessageId == 0
      requires messageReceiveQueue.Valid() && messageReceiveQueue.Capacity() == config.messageReceiveQueueSize
      requires messageReceiveQueue.top == 0 && messageReceiveQueue.view == map[]
      ensures Valid()
    {
      EmptySendingIsValid();
    }

    /** Nothing is queued and nothing recorded. */
    ghost predicate EmptySending(time: real)
      reads this, messageSendQueue.Repr(), sentPackets.Repr()
    {
      && this.time == time && sender == NewSender(time) && sendMessageId == oldestUnackedMessageId == 0
      && sentPacketMessageIds.Length == config.maxMessagesPerPacket * config.sentPacketBufferSize
      && sentPackets.Valid() && sentPackets.Capacity() == config.sentPacketBufferSize
      && sentPackets.top == 0 && sentPackets.view == map[]
      && messageSendQueue.Valid() && messageSendQueue.Capacity() == config.messageSendQueueSize
      && messageSendQueue.top == 0 && messageSendQueue.view == map[]
    }

    lemma EmptySendingIsValid()
      requires config.Valid() && EmptySending(time)
      ensures SendQueueValid() && SentPacketsValid()
    {
    }

    method AdvanceTime(newTime: real)
      requires Valid()
      modifies this
      ensures Valid() && sender == old(sender).(time := newTime) && receiver == old(receiver)
    {
      time := newTime;
      sender := sender.(time := newTime);
    }

    method Reset()
      requires Valid()
      modifies Repr()
      ensures Valid() && sender == NewSender(old(sender).time) && receiver == NewReceiver()
    {
      ResetSending();
      ResetReceiving();
    }

    method ResetSending()
      requires Valid()
      modifies this`sender, this`sendMessageId, this`oldestUnackedMessageId, sentPackets.Repr(), messageSendQueue.Repr()
      ensures Valid() && sender == NewSender(old(sender).time) && receiver == old(receiver)
    {
      EmptySender();
      EmptySendingIsValid();
      ReceiveQueueFrame();
    }

    method EmptySender()
      requires config.Valid() && SendQueueValid() && SentPacketsValid() && Separate()
      modifies this`sender, this`sendMessageId, this`oldestUnackedMessageId, sentPackets.Repr(), messageSendQueue.Repr()
      ensures EmptySending(old(sender).time)
    {
      sendMessageId, oldestUnackedMessageId := 0, 0;
      sentPackets.Reset();
      messageSendQueue.Reset();
      sender := NewSender(time);
    }

    method ResetReceiving()
      requires Valid()
      modifies this`receiver, this`receiveMessageId, messageReceiveQueue.Repr()
      ensures Valid() && sender == old(sender) && receiver == NewReceiver()
    {
      receiveMessageId := 0;
      messageReceiveQueue.Reset();
      receiver := NewReceiver();
      SendQueueFrame();
      SentPacketsFrame();
    }

    predicate HasMessagesToSend()
      requires Valid()
      reads Repr()
      ensures HasMessagesToSend() <==> ReliableSpec.HasMessagesToSend(sender)
    {
      if oldestUnackedMessageId == sendMessageId then
        WrapUnique(sender.next, sender.oldest);
        false
      else true
    }

    /** Messages can be sent exactly while fewer than the queue's size are outstanding. */
    predicate CanSendMessage()
      requires Valid()
      reads Repr()
      ensures CanSendMessage() <==> ReliableSpec.CanSendMessage(config, sender)
    {
      SlotOfWrap(sender.next, config.messageSendQueueSize);
      SlotIsOneTurnBack(sender.next, config.messageSendQueueSize);
      messageSendQueue.Available(sendMessageId)
    }

    static lemma SlotIsOneTurnBack(top: int, capacity: nat)
      requires capacity > 0
      ensures InWindow(top, capacity, Slot(top, capacity)) == top - capacity
    {
      var w := InWindow(top, capacity, Slot(top, capacity));
      SlotIsRemainder(top, capacity);
      SlotIsRemainder(top - capacity, capacity);
      RemainderShift(top - capacity, capacity, 1);
      SlotIsInjective(w, top - capacity, capacity);
    }

    method SendMessage(message: M)
      requires Valid() && CanSendMessage()
      modifies this`sender, this`sendMessageId, messageSendQueue.Repr()
      ensures Valid() && receiver == old(receiver)
      ensures sender == ReliableSpec.SendMessage(old(sender), message, 8 * encodedSize(message))
    {
      Enqueue(message, 8 * encodedSize(message));
      SentPacketsFrame();
      ReceiveQueueFrame();
    }

    method Enqueue(message: M, measuredBits: nat)
      requires config.Valid() && SendQueueValid() && this !in messageSendQueue.Repr()
      requires ReliableSpec.CanSendMessage(config, sender) && measuredBits == 8 * encodedSize(message)
      modifies this`sender, this`sendMessageId, messageSendQueue.Repr()
      ensures SendQueueValid() && sender == ReliableSpec.SendMessage(old(sender), message, measuredBits)
    {
      EnqueueParts(measuredBits, message);
      var result := messageSendQueue.InsertWith(sendMessageId, SendEntry(sendMessageId, message, measuredBits, -1.0));
      assert result;
      sendMessageId := Wrap(sendMessageId + 1);
      sender := ReliableSpec.SendMessage(sender, message, measuredBits);
    }

    lemma EnqueueParts(measuredBits: nat, message: M)
      requires config.Valid() && SendQueueValid() && ReliableSpec.CanSendMessage(config, sender)
      ensures InsertKey(sender.next, sendMessageId) == sender.next
      ensures DropBelow(sender.queue, sender.next + 1 - config.messageSendQueueSize) == sender.queue
      ensures SenderValid(config, ReliableSpec.SendMessage(sender, message, measuredBits))
      ensures Wrap(sendMessageId + 1) == Wrap(sender.next + 1)
    {
      CanSendMessageIff(config, sender);
      SendMessageKeepsValid(config, sender, message, measuredBits);
      InsertKeyIsTheNumberMeant(sender.next, sender.next);
      WrapPlus(sender.next, 1);
    }

    method ReceiveMessage() returns (r: Option<(u16, M)>)
      requires Valid()
      modifies this`receiver, this`receiveMessageId, messageReceiveQueue.Repr()
      ensures Valid() && sender == old(sender) && receiver == Delivered(old(receiver))
      ensures r == match NextMessage(old(receiver))
                   case None => None
                   case Some(message) => Some((Wrap(old(receiver.next)), message))
    {
      r := Dequeue();
      SendQueueFrame();
      SentPacketsFrame();
    }

    method Dequeue() returns (r: Option<(u16, M)>)
      requires config.Valid() && ReceiveQueueValid() && this !in messageReceiveQueue.Repr()
      modifies this`receiver, this`receiveMessageId, messageReceiveQueue.Repr()
      ensures ReceiveQueueValid() && receiver == Delivered(old(receiver))
      ensures r == match NextMessage(old(receiver))
                   case None => None
                   case Some(message) => Some((Wrap(old(receiver.next)), message))
    {
      NextIsFound();
      WrapPlus(receiver.next, 1);
      var entry := messageReceiveQueue.Take(receiveMessageId);
      if entry.None? {
        return None;
      }
      assert entry.value.id == receiveMessageId;
      receiveMessageId := Wrap(receiveMessageId + 1);
      r := Some((entry.value.id, entry.value.message));
      receiver := Delivered(receiver);
    }

    lemma NextIsFound()
      requires config.Valid() && ReceiveQueueValid()
      ensures Below(messageReceiveQueue.top, receiveMessageId) in messageReceiveQueue.view
              <==> receiver.next in receiver.pending
      ensures receiver.next in receiver.pending ==> Below(messageReceiveQueue.top, receiveMessageId) == receiver.next
    {
      var k := Below(messageReceiveQueue.top, receiveMessageId);
      if k in messageReceiveQueue.view {
        WrapUnique(k, receiver.next);
      }
      if receiver.next in receiver.pending {
        BelowIsUnique(messageReceiveQueue.top, receiver.next);
      }
    }

    /** Store the messages of a packet. The result is false where the program panics because a message lies
        past the window; its other panic, on a message the ring refuses, cannot happen. */
    method ProcessPacketData(messages: seq<(u16, M)>) returns (ok: bool)
      requires Valid()
      modifies this`receiver, messageReceiveQueue.Repr()
      ensures Valid() && sender == old(sender)
      ensures ReceiveResult(receiver, ok) == ReceivePacket(config, old(receiver), messages)
    {
      ok := StoreMessages(messages);
      SendQueueFrame();
      SentPacketsFrame();
    }

    method StoreMessages(messages: seq<(u16, M)>) returns (ok: bool)
      requires config.Valid() && ReceiveQueueValid() && this !in messageReceiveQueue.Repr()
      modifies this`receiver, messageReceiveQueue.Repr()
      ensures ReceiveQueueValid()
      ensures ReceiveResult(receiver, ok) == ReceivePacket(config, old(receiver), messages)
    {
      var minMessageId := receiveMessageId;
      var maxMessageId := Wrap(receiveMessageId + (messageReceiveQueue.Capacity() - 1));
      for i := 0 to |messages|
        invariant ReceiveQueueValid() && receiver.next == old(receiver).next
        invariant ReceivePacket(config, receiver, messages[i..]) == ReceivePacket(config, old(receiver), messages)
      {
        var (id, message) := messages[i];
        WindowDecides(config, receiver, id, message);
        ReceiveFirst(config, receiver, messages, i);
        if SequenceLessThan(id, minMessageId) {
          continue;
        }
        if SequenceGreaterThan(id, maxMessageId) {
          return false;
        }
        var result := StoreMessage(id, message);
        if !result {
          assert false;
        }
      }
      assert messages[|messages|..] == [];
      ok := true;
    }

    /** What the two checks against the window decide, for every 16-bit id. */
    static lemma WindowChecks(next: int, id: u16, capacity: nat)
      requires 2 <= capacity <= 16384
      ensures var ahead := Wrap(id - Wrap(next));
              var maxId := Wrap(Wrap(next) + (capacity - 1));
              && (SequenceLessThan(id, Wrap(next)) <==> HALF < ahead || (ahead == HALF && id < Wrap(next)))
              && (!SequenceLessThan(id, Wrap(next)) ==> (SequenceGreaterThan(id, maxId) <==> capacity <= ahead))
    {
      SequenceGreaterThanIsAhead(Wrap(next), id);
      SequenceGreaterThanIsAhead(id, Wrap(Wrap(next) + (capacity - 1)));
    }

    static lemma WindowDecides(config: Config, r: Receiver<M>, id: u16, message: M)
      requires config.Valid()
      ensures SequenceLessThan(id, Wrap(r.next)) <==> TooOld(r, id)
      ensures var maxId := Wrap(Wrap(r.next) + (config.messageReceiveQueueSize - 1));
              !TooOld(r, id) ==> (SequenceGreaterThan(id, maxId) <==> !ReceiveOne(config, r, id, message).ok)
    {
      WindowChecks(r.next, id, config.messageReceiveQueueSize);
    }

    method StoreMessage(id: u16, message: M) returns (result: bool)
      requires config.Valid() && ReceiveQueueValid() && this !in messageReceiveQueue.Repr()
      requires !TooOld(receiver, id) && ReceiveOne(config, receiver, id, message).ok
      modifies this`receiver, messageReceiveQueue.Repr()
      ensures ReceiveQueueValid()
      ensures result && receiver == ReceiveOne(config, old(receiver), id, message).receiver
    {
      ghost var k := receiver.next + Wrap(id - Wrap(receiver.next));
      WrapAhead(receiver.next, id);
      InsertKeyIsTheNumberMeant(messageReceiveQueue.top, k);
      result := messageReceiveQueue.InsertWith(id, ReceiveEntry(id, message));
      receiver := receiver.(pending := receiver.pending[k := message]);
    }

    // ---- Making a packet ---------------------------------------------------------------------

    /** Looking up the 16-bit form of a number near the window finds that number or nothing. */
    lemma QueueLookup(k: int)
      requires config.Valid() && SendQueueValid() && sender.oldest <= k < sender.oldest + HALF
      ensures Below(sender.next, Wrap(k)) in sender.queue <==> k in sender.queue
      ensures k in sender.queue ==> Below(sender.next, Wrap(k)) == k
    {
      var w := Below(sender.next, Wrap(k));
      if w in sender.queue {
        WrapUnique(w, k);
      }
      if k in sender.queue {
        BelowIsUnique(sender.next, k);
      }
    }

    /** The entry the loop below finds at offset `i`: the one queued at the start, not stamped yet. */
    lemma EntryAtOffset(s0: Sender<M>, chosen: seq<int>, i: nat)
      requires config.Valid() && SendQueueValid() && sender == Stamp(s0, chosen)
      requires i < config.MessageLimit() && forall k :: k in chosen ==> k < s0.oldest + i
      ensures var k, messageId := s0.oldest + i, Wrap(oldestUnackedMessageId + i);
              && messageId == Wrap(k)
              && messageSendQueue.Get(messageId) == (if k in s0.queue then Some(s0.queue[k]) else None)
              && (k in s0.queue ==> messageSendQueue.Exists(messageId) && Below(sender.next, messageId) == k)
    {
      WrapPlus(s0.oldest, i);
      QueueLookup(s0.oldest + i);
    }

    /** The choice made among the offsets below `i`, which the remaining offsets complete. */
    ghost predicate ChosenBelow(
      available: nat, s0: Sender<M>, i: nat, messageIds: seq<u16>, usedBits: nat, chosen: seq<int>)
      reads this
    {
      var rest := Select(config, s0, available, i, usedBits, |chosen|);
      && sender == Stamp(s0, chosen)
      && messageIds == WrapAll(chosen)
      && usedBits <= available && |chosen| <= config.maxMessagesPerPacket
      && (forall k :: k in chosen ==> k < s0.oldest + i)
      && Select(config, s0, available, 0, MESSAGE_HEADER_BITS, 0) == Selection(chosen + rest.ids, rest.bits)
    }

    lemma NothingChosenYet(available: nat)
      requires MESSAGE_HEADER_BITS <= available
      ensures ChosenBelow(available, sender, 0, [], MESSAGE_HEADER_BITS, [])
    {
      assert Stamp(sender, []) == sender;
      var rest := Select(config, sender, available, 0, MESSAGE_HEADER_BITS, 0);
      assert [] + rest.ids == rest.ids;
    }

    lemma NothingMoreToChoose(
      available: nat, s0: Sender<M>, i: nat, messageIds: seq<u16>, usedBits: nat, chosen: seq<int>)
      requires ChosenBelow(available, s0, i, messageIds, usedBits, chosen)
      requires || i >= config.MessageLimit() || available < usedBits + GIVE_UP_BITS
               || |messageIds| >= config.maxMessagesPerPacket
      ensures Select(config, s0, available, 0, MESSAGE_HEADER_BITS, 0) == Selection(chosen, usedBits)
    {
      assert chosen + [] == chosen;
    }

    /** Choose the messages of a packet, noting the time on exactly those. */
    method GetMessagesToSend(availableBits: nat) returns (messageIds: seq<u16>, usedBits: nat)
      requires config.Valid() && SendQueueValid() && this !in messageSendQueue.Repr()
      requires config.BitsFor(availableBits) >= MESSAGE_HEADER_BITS
      modifies this`sender, messageSendQueue`view, messageSendQueue.entries
      ensures SendQueueValid()
      ensures var sel := Select(config, old(sender), config.BitsFor(availableBits), 0, MESSAGE_HEADER_BITS, 0);
              && messageIds == WrapAll(sel.ids) && usedBits == sel.bits
              && sender == Stamp(old(sender), sel.ids)
    {
      var available := config.BitsFor(availableBits);
      var messageLimit := config.MessageLimit();
      messageIds, usedBits := [], MESSAGE_HEADER_BITS;
      var giveUpCounter, i := 0, 0;
      ghost var s0, chosen := sender, [];
      NothingChosenYet(available);
      while i < messageLimit
        invariant SendQueueValid() && giveUpCounter <= i
        invariant ChosenBelow(available, s0, i, messageIds, usedBits, chosen)
        invariant |messageIds| < config.maxMessagesPerPacket
      {
        if available - usedBits < GIVE_UP_BITS {
          break;
        }
        if giveUpCounter > messageSendQueue.Capacity() {
          break;
        }
        var result;
        result, messageIds, usedBits, chosen := ConsiderMessage(i, available, messageIds, usedBits, s0, chosen);
        i := i + 1;
        if result == TooBig {
          giveUpCounter := giveUpCounter + 1;
          continue;
        }
        if |messageIds| >= config.maxMessagesPerPacket {
          break;
        }
      }
      NothingMoreToChoose(available, s0, i, messageIds, usedBits, chosen);
    }

    /** Put the message at offset `i` into the packet, if it is queued, due and fits. */
    method ConsiderMessage(
      i: nat, available: nat, messageIds: seq<u16>, usedBits: nat, ghost s0: Sender<M>, ghost chosen: seq<int>)
      returns (result: Considered, messageIds': seq<u16>, usedBits': nat, ghost chosen': seq<int>)
      requires config.Valid() && SendQueueValid() && this !in messageSendQueue.Repr()
      requires ChosenBelow(available, s0, i, messageIds, usedBits, chosen)
      requires i < config.MessageLimit() && usedBits + GIVE_UP_BITS <= available
      requires |messageIds| < config.maxMessagesPerPacket
      modifies this`sender, messageSendQueue`view, messageSendQueue.entries
      ensures SendQueueValid()
      ensures ChosenBelow(available, s0, i + 1, messageIds', usedBits', chosen')
      ensures result == TooBig ==> messageIds' == messageIds
    {
      messageIds', usedBits', chosen' := messageIds, usedBits, chosen;
      EntryAtOffset(s0, chosen, i);
      var messageId := Wrap(oldestUnackedMessageId + i);
      var lookup := messageSendQueue.Get(messageId);
      if lookup.None? {
        return NotQueued, messageIds', usedBits', chosen';
      }
      var entry := lookup.value;
      if entry.timeLastSent + config.messageResendTime <= time && available >= entry.measuredBits {
        var messageBits := entry.measuredBits + MESSAGE_ID_BITS;
        if usedBits + messageBits > available {
          return TooBig, messageIds', usedBits', chosen';
        }
        ghost var k := s0.oldest + i;
        StampEntry(messageId, entry, s0, chosen, k);
        WrapAllAppend(chosen, k);
        SelectGrows(config, s0, available, i, usedBits, chosen);
        return Chosen, messageIds + [messageId], usedBits + messageBits, chosen + [k];
      }
      return NotDue, messageIds', usedBits', chosen';
    }

    /** The message at offset `i` is chosen next. */
    static lemma SelectGrows(config: Config, s0: Sender<M>, available: nat, i: nat, usedBits: nat, chosen: seq<int>)
      requires i < config.MessageLimit() && usedBits + GIVE_UP_BITS <= available
      requires |chosen| < config.maxMessagesPerPacket
      requires var k := s0.oldest + i; k in s0.queue && Due(config, s0, k) && usedBits + Cost(s0, k) <= available
      ensures var k := s0.oldest + i;
              var rest := Select(config, s0, available, i, usedBits, |chosen|);
              var later := Select(config, s0, available, i + 1, usedBits + Cost(s0, k), |chosen + [k]|);
              Selection(chosen + rest.ids, rest.bits) == Selection((chosen + [k]) + later.ids, later.bits)
    {
    }

    method StampEntry(messageId: u16, entry: SendEntry<M>, ghost s0: Sender<M>, ghost chosen: seq<int>, ghost k: int)
      requires config.Valid() && SendQueueValid() && this !in messageSendQueue.Repr()
      requires sender == Stamp(s0, chosen) && k in s0.queue && k !in chosen
      requires messageSendQueue.Exists(messageId) && Below(sender.next, messageId) == k && entry == sender.queue[k]
      modifies this`sender, messageSendQueue`view, messageSendQueue.entries
      ensures SendQueueValid() && sender == Stamp(s0, chosen + [k])
    {
      messageSendQueue.Update(messageId, entry.(timeLastSent := time));
      sender := sender.(queue := sender.queue[k := entry.(timeLastSent := time)]);
      assert sender.queue == Stamp(s0, chosen + [k]).queue;
    }

    /** Copy the chosen messages out of the send queue. */
    method GetMessagePacketData(messageIds: seq<u16>, ghost ids: seq<int>) returns (messages: seq<(u16, M)>)
      requires config.Valid() && SendQueueValid()
      requires messageIds == WrapAll(ids) && forall k :: k in ids ==> k in sender.queue
      ensures messages == WireMessages(sender, ids)
    {
      messages := [];
      for i := 0 to |messageIds|
        invariant messages == WireMessages(sender, ids)[..i]
      {
        assert ids[i] in ids;
        QueueLookup(ids[i]);
        var entry := messageSendQueue.Get(messageIds[i]);
        messages := messages + [(messageIds[i], entry.value.message)];
      }
    }

    /** Record the ids of packet `packetSequence`, unless the ring refuses the number. */
    method AddMessagePacketEntry(messageIds: seq<u16>, packetSequence: u16, ghost ids: seq<int>)
      requires config.Valid() && SentPacketsValid()
      requires sentPacketMessageIds !in sentPackets.Repr() && this !in sentPackets.Repr()
      requires messageIds == WrapAll(ids) && |ids| <= config.maxMessagesPerPacket
      modifies this`sender, sentPacketMessageIds, sentPackets.Repr()
      ensures SentPacketsValid() && sender == RecordPacket(config, old(sender), packetSequence, ids)
    {
      ghost var p, before := InsertKey(sender.packetTop, packetSequence), sentPacketMessageIds[..];
      SlotOfPacket(p);
      var messageIdsIndex := (packetSequence % config.sentPacketBufferSize) * config.maxMessagesPerPacket;
      var ok := sentPackets.InsertWith(packetSequence, SentPacketEntry(false, time, messageIdsIndex, |messageIds|));
      sender := RecordPacket(config, sender, packetSequence, ids);
      if ok {
        assert OthersMatch(p, before);
        WriteIds(messageIds, messageIdsIndex);
        OthersStillMatch(p, before);
      }
    }

    ghost predicate OthersMatch(p: int, ids: seq<u16>)
      requires config.Valid()
      reads this, sentPackets
    {
      && sentPackets.view.Keys == sender.ledger.Keys
      && forall q :: q in sender.ledger && q != p ==>
           && p - q < config.sentPacketBufferSize && q - p < config.sentPacketBufferSize
           && EntryMatches(config, q, sentPackets.view[q], sender.ledger[q], ids)
    }

    lemma OthersStillMatch(p: int, before: seq<u16>)
      requires config.Valid() && OthersMatch(p, before)
      requires AgreeOutside(before, sentPacketMessageIds[..],
                            Slot(p, config.sentPacketBufferSize) * config.maxMessagesPerPacket,
                            config.maxMessagesPerPacket)
      ensures OthersMatch(p, sentPacketMessageIds[..])
    {
      forall q | q in sender.ledger && q != p
        ensures EntryMatches(config, q, sentPackets.view[q], sender.ledger[q], sentPacketMessageIds[..])
      {
        OtherStillMatches(config, p, q, sentPackets.view[q], sender.ledger[q], before, sentPacketMessageIds[..]);
      }
    }

    lemma SlotOfPacket(p: int)
      requires config.Valid()
      requires sentPacketMessageIds.Length == config.sentPacketBufferSize * config.maxMessagesPerPacket
      ensures Wrap(p) % config.sentPacketBufferSize == Slot(p, config.sentPacketBufferSize)
      ensures Slot(p, config.sentPacketBufferSize) * config.maxMessagesPerPacket + config.maxMessagesPerPacket
              <= sentPacketMessageIds.Length
    {
      SlotIsRemainder(Wrap(p), config.sentPacketBufferSize);
      SlotOfWrap(p, config.sentPacketBufferSize);
      SliceIsInside(Slot(p, config.sentPacketBufferSize), config.sentPacketBufferSize, config.maxMessagesPerPacket);
    }

    method WriteIds(messageIds: seq<u16>, start: nat)
      requires start + |messageIds| <= sentPacketMessageIds.Length
      modifies sentPacketMessageIds
      ensures sentPacketMessageIds[start..start + |messageIds|] == messageIds
      ensures AgreeOutside(old(sentPacketMessageIds[..]), sentPacketMessageIds[..], start, |messageIds|)
    {
      for i := 0 to |messageIds|
        invariant sentPacketMessageIds[start..start + i] == messageIds[..i]
        invariant AgreeOutside(old(sentPacketMessageIds[..]), sentPacketMessageIds[..], start, i)
      {
        sentPacketMessageIds[start + i] := messageIds[i];
      }
    }

    /** Fill a packet: its messages, and the bits they take. The oldest messages that are due go first. */
    method PacketData(packetSequence: u16, availableBits: nat) returns (messages: seq<(u16, M)>, usedBits: nat)
      requires Valid()
      requires HasMessagesToSend() ==> config.BitsFor(availableBits) >= MESSAGE_HEADER_BITS
      modifies this`sender, sentPacketMessageIds, sentPackets.Repr(), messageSendQueue`view, messageSendQueue.entries
      ensures Valid() && receiver == old(receiver)
      ensures sender == GeneratePacket(config, old(sender), packetSequence, availableBits)
      ensures var sel := ChooseMessages(config, old(sender), availableBits);
              && (forall k :: k in sel.ids ==> k in old(sender).queue)
              && messages == WireMessages(old(sender), sel.ids) && usedBits == sel.bits
    {
      ChooseMessagesIsSound(config, sender, availableBits);
      if !HasMessagesToSend() {
        return [], 0;
      }
      ghost var ids := Select(config, sender, config.BitsFor(availableBits), 0, MESSAGE_HEADER_BITS, 0).ids;
      SelectIsSound(config, sender, config.BitsFor(availableBits), 0, MESSAGE_HEADER_BITS, 0);
      var messageIds, messageBits := ChooseAndFrame(availableBits, ids);
      StampKeepsMessages(old(sender), ids);
      if messageIds == [] {
        return [], 0;
      }
      messages := PackAndRecord(messageIds, packetSequence, ids);
      usedBits := messageBits;
    }

    method PackAndRecord(messageIds: seq<u16>, packetSequence: u16, ghost ids: seq<int>)
      returns (messages: seq<(u16, M)>)
      requires Valid() && messageIds == WrapAll(ids) && |ids| <= config.maxMessagesPerPacket
      requires forall k :: k in ids ==> k in sender.queue
      modifies this`sender, sentPacketMessageIds, sentPackets.Repr()
      ensures Valid() && receiver == old(receiver)
      ensures sender == RecordPacket(config, old(sender), packetSequence, ids)
      ensures messages == WireMessages(old(sender), ids)
    {
      messages := GetMessagePacketData(messageIds, ids);
      RecordAndFrame(messageIds, packetSequence, ids);
    }

    static lemma StampKeepsMessages(s: Sender<M>, ids: seq<int>)
      requires forall k :: k in ids ==> k in s.queue
      ensures WireMessages(Stamp(s, ids), ids) == WireMessages(s, ids)
      ensures ids == [] ==> Stamp(s, ids) == s
    {
      if ids == [] {
        assert Stamp(s, ids).queue == s.queue;
      }
    }

    method ChooseAndFrame(availableBits: nat, ghost ids: seq<int>) returns (messageIds: seq<u16>, messageBits: nat)
      requires Valid() && ReliableSpec.HasMessagesToSend(sender)
      requires config.BitsFor(availableBits) >= MESSAGE_HEADER_BITS
      requires ids == Select(config, sender, config.BitsFor(availableBits), 0, MESSAGE_HEADER_BITS, 0).ids
      modifies this`sender, messageSendQueue`view, messageSendQueue.entries
      ensures Valid() && receiver == old(receiver) && sender == Stamp(old(sender), ids) && messageIds == WrapAll(ids)
      ensures messageBits == Select(config, old(sender), config.BitsFor(availableBits), 0, MESSAGE_HEADER_BITS, 0).bits
    {
      messageIds, messageBits := GetMessagesToSend(availableBits);
      SentPacketsFrame();
      ReceiveQueueFrame();
    }

    method RecordAndFrame(messageIds: seq<u16>, packetSequence: u16, ghost ids: seq<int>)
      requires Valid() && messageIds == WrapAll(ids) && |ids| <= config.maxMessagesPerPacket
      modifies this`sender, sentPacketMessageIds, sentPackets.Repr()
      ensures Valid() && receiver == old(receiver)
      ensures sender == RecordPacket(config, old(sender), packetSequence, ids)
    {
      AddMessagePacketEntry(messageIds, packetSequence, ids);
      SenderValidAfterRecord(old(sender), packetSequence, ids);
      RecordLeavesQueue();
      ReceiveQueueFrame();
    }

    lemma SenderValidAfterRecord(s: Sender<M>, packetSequence: u16, ids: seq<int>)
      requires config.Valid() && SenderValid(config, s) && |ids| <= config.maxMessagesPerPacket
      ensures SenderValid(config, RecordPacket(config, s, packetSequence, ids))
    {
    }

    twostate lemma RecordLeavesQueue()
      requires old(SendQueueValid()) && messageSendQueue.Untouched() && SenderValid(config, sender)
      requires sender == old(sender).(packetTop := sender.packetTop, ledger := sender.ledger) && time == old(time)
      requires sendMessageId == old(sendMessageId) && oldestUnackedMessageId == old(oldestUnackedMessageId)
      ensures SendQueueValid()
    {
    }

    // ---- Acks --------------------------------------------------------------------------------

    /** Move from `oldest` to the first message still queued, or to the pointer when there is none. */
    method UpdateOldestUnackedMessageId(oldest: u16, ghost from: int) returns (r: u16)
      requires messageSendQueue.Valid() && messageSendQueue.Capacity() < HALF && oldest == Wrap(from)
      requires from <= messageSendQueue.top <= from + messageSendQueue.Capacity()
      ensures r == Wrap(FirstUnacked(messageSendQueue.view, from, messageSendQueue.top))
      ensures !SequenceGreaterThan(r, messageSendQueue.SequencePointer())
    {
      var stopMessageId := messageSendQueue.SequencePointer();
      ghost var at := from;
      r := oldest;
      while true
        invariant r == Wrap(at) && from <= at <= messageSendQueue.top
        invariant FirstUnacked(messageSendQueue.view, from, messageSendQueue.top)
               == FirstUnacked(messageSendQueue.view, at, messageSendQueue.top)
        decreases messageSendQueue.top - at
      {
        BelowOrTop(at, messageSendQueue.top);
        if r == stopMessageId || messageSendQueue.Exists(r) {
          break;
        }
        WrapPlus(at, 1);
        r := Wrap(r + 1);
        at := at + 1;
      }
      ComparisonAgreesBehind(at, messageSendQueue.top);
    }

    static lemma BelowOrTop(at: int, top: int)
      requires top - HALF <= at <= top
      ensures Wrap(at) == Wrap(top) <==> at == top
      ensures at < top ==> Below(top, Wrap(at)) == at
    {
      if Wrap(at) == Wrap(top) {
        WrapUnique(at, top);
      }
      if at < top {
        BelowIsUnique(top, at);
      }
    }

    static lemma ComparisonAgreesBehind(at: int, top: int)
      requires top - HALF <= at <= top
      ensures top - HALF < at ==> !SequenceGreaterThan(Wrap(at), Wrap(top))
    {
      if top - HALF < at {
        ComparisonAgrees(at, top);
      }
    }

    /** Take one acked message out of the send queue. */
    method RemoveAcked(id: u16)
      requires config.Valid() && SendQueueValid() && this !in messageSendQueue.Repr()
      modifies this`sender, this`oldestUnackedMessageId, messageSendQueue`view,
               messageSendQueue.entrySequence, messageSendQueue.entries
      ensures SendQueueValid() && sender == RemoveMessage(old(sender), id)
    {
      RemoveMessageKeepsValid(config, sender, id);
      var entry := messageSendQueue.Take(id);
      if entry.Some? {
        assert entry.value.id == id;
        oldestUnackedMessageId := UpdateOldestUnackedMessageId(oldestUnackedMessageId, sender.oldest);
      }
      sender := RemoveMessage(sender, id);
    }

    /** Ack a packet: its messages leave the send queue. */
    method ProcessAck(ack: u16) returns (result: AckResult)
      requires Valid()
      modifies this`sender, this`oldestUnackedMessageId, sentPackets`view, sentPackets.entries,
               messageSendQueue`view, messageSendQueue.entrySequence, messageSendQueue.entries
      ensures Valid() && receiver == old(receiver)
      ensures result == AckOutcome(old(sender), ack) && sender == ReliableSpec.ProcessAck(old(sender), ack)
    {
      var lookup := sentPackets.Get(ack);
      LookupIsOutcome(ack);
      if lookup.None? {
        return NotRecorded;
      }
      var entry := lookup.value;
      if entry.acked {
        return AlreadyAcked;
      }
      TakeAcked(ack, entry, Below(sender.packetTop, ack));
      result := Acked;
    }

    method TakeAcked(ack: u16, entry: SentPacketEntry, ghost p: int)
      requires Valid() && p == Below(sender.packetTop, ack) && p in sender.ledger && entry == sentPackets.view[p]
      requires !entry.acked
      modifies this`sender, this`oldestUnackedMessageId, sentPackets`view, sentPackets.entries,
               messageSendQueue`view, messageSendQueue.entrySequence, messageSendQueue.entries
      ensures Valid() && receiver == old(receiver) && sender == ReliableSpec.ProcessAck(old(sender), ack)
    {
      SliceOfEntry(p);
      ghost var ids := sender.ledger[p].ids;
      MarkAcked(ack, entry, p);
      RemoveAllAcked(entry.start, entry.count, ids);
      AckRemoves(old(sender), ack);
    }

    /** An ack that counts marks its packet, and removes the messages of it. */
    static lemma AckRemoves(s: Sender<M>, ack: u16)
      requires s.oldest <= s.next && AckOutcome(s, ack) == Acked
      ensures var p := Below(s.packetTop, ack);
              p in s.ledger && ReliableSpec.ProcessAck(s, ack) == RemoveMessages(Marked(s, p), s.ledger[p].ids)
    {
    }

    /** The entry found for an ack tells what the ack comes to. */
    lemma LookupIsOutcome(ack: u16)
      requires Valid()
      ensures var lookup, p := sentPackets.Get(ack), Below(sender.packetTop, ack);
              && AckOutcome(sender, ack)
                 == (if lookup.None? then NotRecorded else if lookup.value.acked then AlreadyAcked else Acked)
              && (lookup.Some? ==> p in sender.ledger && lookup.value == sentPackets.view[p])
    {
    }

    /** The entry recorded for a packet refers to the ids it carried. */
    lemma SliceOfEntry(p: int)
      requires config.Valid() && SentPacketsValid() && p in sender.ledger
      ensures var entry := sentPackets.view[p];
              && entry.acked == sender.ledger[p].acked && entry.start + entry.count <= sentPacketMessageIds.Length
              && sentPacketMessageIds[entry.start..entry.start + entry.count] == sender.ledger[p].ids
    {
      assert EntryMatches(config, p, sentPackets.view[p], sender.ledger[p], sentPacketMessageIds[..]);
    }

    /** Marking one entry leaves all slices as they are. */
    static lemma MarkedStillMatch(
      config: Config, view: map<int, SentPacketEntry>, ledger: map<int, SentPacket>, ids: seq<u16>, p: int)
      requires config.Valid() && view.Keys == ledger.Keys && p in ledger
      requires forall q :: q in ledger ==> EntryMatches(config, q, view[q], ledger[q], ids)
      ensures var view', ledger' := view[p := view[p].(acked := true)], ledger[p := ledger[p].(acked := true)];
              && view'.Keys == ledger'.Keys
              && forall q :: q in ledger' ==> EntryMatches(config, q, view'[q], ledger'[q], ids)
    {
    }

    method MarkEntry(ack: u16, entry: SentPacketEntry, ghost p: int)
      requires config.Valid() && SentPacketsValid()
      requires sentPacketMessageIds !in sentPackets.Repr() && this !in sentPackets.Repr()
      requires p == Below(sender.packetTop, ack) && p in sender.ledger && entry == sentPackets.view[p]
      modifies this`sender, sentPackets`view, sentPackets.entries
      ensures SentPacketsValid()
      ensures sender == Marked(old(sender), p)
    {
      MarkedStillMatch(config, sentPackets.view, sender.ledger, sentPacketMessageIds[..], p);
      sentPackets.Update(ack, entry.(acked := true));
      sender := Marked(sender, p);
    }

    method MarkAcked(ack: u16, entry: SentPacketEntry, ghost p: int)
      requires Valid() && p == Below(sender.packetTop, ack) && p in sender.ledger && entry == sentPackets.view[p]
      modifies this`sender, sentPackets`view, sentPackets.entries
      ensures Valid() && receiver == old(receiver)
      ensures sender == Marked(old(sender), p)
    {
      MarkEntry(ack, entry, p);
      QueuesAfterMark(p);
    }

    /** Marking a packet does not concern the queues. */
    twostate lemma QueuesAfterMark(p: int)
      requires old(Valid()) && messageSendQueue.Untouched() && messageReceiveQueue.Untouched()
      requires p in old(sender).ledger && sender == Marked(old(sender), p) && time == old(time)
      requires sendMessageId == old(sendMessageId) && oldestUnackedMessageId == old(oldestUnackedMessageId)
      requires receiver == old(receiver) && receiveMessageId == old(receiveMessageId)
      requires config.Valid() && SentPacketsValid()
      ensures Valid()
    {
      SenderValidAfterMark(old(sender), p);
    }

    static ghost function Marked(s: Sender<M>, p: int): Sender<M>
      requires p in s.ledger
    {
      s.(ledger := s.ledger[p := s.ledger[p].(acked := true)])
    }

    lemma SenderValidAfterMark(s: Sender<M>, p: int)
      requires SenderValid(config, s) && p in s.ledger
      ensures SenderValid(config, Marked(s, p))
    {
    }

    method RemoveAllAcked(start: nat, count: nat, ghost ids: seq<u16>)
      requires Valid() && start + count <= sentPacketMessageIds.Length
      requires sentPacketMessageIds[start..start + count] == ids
      modifies this`sender, this`oldestUnackedMessageId,
               messageSendQueue`view, messageSendQueue.entrySequence, messageSendQueue.entries
      ensures Valid() && receiver == old(receiver) && sender == RemoveMessages(old(sender), ids)
    {
      for i := 0 to count
        invariant SendQueueValid() && sentPacketMessageIds[start..start + count] == ids
        invariant sender.ledger == old(sender).ledger && sender.packetTop == old(sender).packetTop
        invariant RemoveMessages(sender, ids[i..]) == RemoveMessages(old(sender), ids)
      {
        assert ids[i..][1..] == ids[i + 1..] && ids[i] == sentPacketMessageIds[start + i];
        RemoveAcked(sentPacketMessageIds[start + i]);
      }
      SentPacketsFrame();
      ReceiveQueueFrame();
    }
  }
}
