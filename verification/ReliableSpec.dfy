/** What one reliable channel does, on values: the sending half and the receiving half of its state, with
    message ids and packet numbers counted without wrapping. Operations still take and give the 16-bit
    forms that travel on the wire. */
module ReliableSpec {
  import opened Wrap16
  import opened Options
  import opened SequenceBuffers
  import opened Configs

  datatype SendEntry<M> = SendEntry(id: u16, message: M, measuredBits: nat, timeLastSent: real)

  /** The ids a recorded packet carried, as the 16-bit numbers the program keeps. */
  datatype SentPacket = SentPacket(acked: bool, ids: seq<u16>)

  /** The sending half. `queue` holds the unacked messages, `ledger` the recorded packets. */
  datatype Sender<M> = Sender(
    time: real,
    oldest: int,
    next: int,
    queue: map<int, SendEntry<M>>,
    packetTop: int,
    ledger: map<int, SentPacket>)

  /** The receiving half: the id to deliver next, and the messages that arrived ahead of their turn. */
  datatype Receiver<M> = Receiver(next: int, pending: map<int, M>)

  function NewSender<M>(time: real): Sender<M> {
    Sender(time, 0, 0, map[], 0, map[])
  }

  function NewReceiver<M>(): Receiver<M> {
    Receiver(0, map[])
  }

  /** Unacked messages lie in a window of the queue's size; `oldest` is the first of them, or `next`. */
  ghost predicate SenderValid<M>(config: Config, s: Sender<M>) {
    && 0 <= s.oldest <= s.next <= s.oldest + config.messageSendQueueSize
    && (forall k :: k in s.queue ==> s.oldest <= k < s.next && s.queue[k].id == Wrap(k))
    && (s.oldest == s.next || s.oldest in s.queue)
    && 0 <= s.packetTop
    && (forall p :: p in s.ledger ==>
          s.packetTop - config.sentPacketBufferSize <= p < s.packetTop
          && |s.ledger[p].ids| <= config.maxMessagesPerPacket)
  }

  /** Every queued message is measured as the bits it serializes to. */
  ghost predicate Measured<M>(s: Sender<M>, encodedSize: M -> nat) {
    forall k :: k in s.queue ==> s.queue[k].measuredBits == 8 * encodedSize(s.queue[k].message)
  }

  ghost predicate ReceiverValid<M>(config: Config, r: Receiver<M>) {
    && 0 <= r.next
    && forall k :: k in r.pending ==> r.next <= k < r.next + config.messageReceiveQueueSize
  }

  // ---- Sending -------------------------------------------------------------------------------

  predicate HasMessagesToSend<M>(s: Sender<M>) {
    s.oldest != s.next
  }

  /** The slot of the next id is free: the message sent one queue size ago is acked. */
  predicate CanSendMessage<M>(config: Config, s: Sender<M>) {
    s.next - config.messageSendQueueSize !in s.queue
  }

  function SendMessage<M>(s: Sender<M>, message: M, measuredBits: nat): Sender<M> {
    s.(queue := s.queue[s.next := SendEntry(Wrap(s.next), message, measuredBits, -1.0)], next := s.next + 1)
  }

  /** A message can be sent exactly while fewer than the queue's size are outstanding. */
  lemma CanSendMessageIff<M>(config: Config, s: Sender<M>)
    requires config.Valid() && SenderValid(config, s)
    ensures CanSendMessage(config, s) <==> s.next < s.oldest + config.messageSendQueueSize
  {
  }

  lemma SendMessageKeepsValid<M>(config: Config, s: Sender<M>, message: M, measuredBits: nat)
    requires config.Valid() && SenderValid(config, s) && CanSendMessage(config, s)
    ensures SenderValid(config, SendMessage(s, message, measuredBits))
  {
    CanSendMessageIff(config, s);
  }

  // ---- Choosing the messages of a packet -----------------------------------------------------

  datatype Selection = Selection(ids: seq<int>, bits: nat)

  predicate Due<M>(config: Config, s: Sender<M>, k: int)
    requires k in s.queue
  {
    s.queue[k].timeLastSent + config.messageResendTime <= s.time
  }

  function Cost<M>(s: Sender<M>, k: int): nat
    requires k in s.queue
  {
    s.queue[k].measuredBits + MESSAGE_ID_BITS
  }

  /** The messages chosen among offsets `i` and up, when `count` are chosen already and use `used` bits. */
  function Select<M>(config: Config, s: Sender<M>, available: nat, i: nat, used: nat, count: nat): (r: Selection)
    decreases config.MessageLimit() - i
  {
    var k := s.oldest + i;
    if i >= config.MessageLimit() || available < used + GIVE_UP_BITS || count >= config.maxMessagesPerPacket then
      Selection([], used)
    else if k in s.queue && Due(config, s, k) && used + Cost(s, k) <= available then
      var rest := Select(config, s, available, i + 1, used + Cost(s, k), count + 1);
      Selection([k] + rest.ids, rest.bits)
    else
      Select(config, s, available, i + 1, used, count)
  }

  /** The messages of the next packet, and the bits they take; no bits when there are none. */
  function ChooseMessages<M>(config: Config, s: Sender<M>, availableBits: nat): Selection {
    if !HasMessagesToSend(s) then Selection([], 0)
    else
      var sel := Select(config, s, config.BitsFor(availableBits), 0, MESSAGE_HEADER_BITS, 0);
      if sel.ids == [] then Selection([], 0) else sel
  }

  function TotalCost<M>(s: Sender<M>, ids: seq<int>): nat
    requires forall k :: k in ids ==> k in s.queue
  {
    if ids == [] then 0 else Cost(s, ids[0]) + TotalCost(s, ids[1..])
  }

  predicate Increasing(ids: seq<int>) {
    forall i, j :: 0 <= i < j < |ids| ==> ids[i] < ids[j]
  }

  lemma PrependKeepsIncreasing(k: int, ids: seq<int>)
    requires Increasing(ids) && forall j :: j in ids ==> k < j
    ensures Increasing([k] + ids)
  {
    assert forall j :: 0 <= j < |ids| ==> ids[j] in ids;
  }

  lemma PrependAddsCost<M>(s: Sender<M>, k: int, ids: seq<int>)
    requires k in s.queue && forall j :: j in ids ==> j in s.queue
    ensures forall j :: j in [k] + ids ==> j in s.queue
    ensures TotalCost(s, [k] + ids) == Cost(s, k) + TotalCost(s, ids)
  {
    assert ([k] + ids)[1..] == ids;
  }

  /** Chosen messages are queued and due, in increasing order, within the offered window, as many as allowed at most,
      and the bits reported are those they cost and no more than available. */
  ghost predicate SoundChoice<M>(
    config: Config, s: Sender<M>, available: nat, i: nat, used: nat, count: nat, sel: Selection)
  {
    && (forall k :: k in sel.ids ==> k in s.queue && Due(config, s, k))
    && (forall k :: k in sel.ids ==> s.oldest + i <= k < s.oldest + config.MessageLimit())
    && Increasing(sel.ids)
    && count + |sel.ids| <= config.maxMessagesPerPacket
    && |sel.ids| <= config.MessageLimit() - i
    && sel.bits == used + TotalCost(s, sel.ids) <= available
  }

  lemma PrependIsSound<M>(
    config: Config, s: Sender<M>, available: nat, i: nat, used: nat, count: nat, rest: Selection)
    requires s.oldest + i in s.queue && Due(config, s, s.oldest + i) && i < config.MessageLimit()
    requires SoundChoice(config, s, available, i + 1, used + Cost(s, s.oldest + i), count + 1, rest)
    ensures SoundChoice(config, s, available, i, used, count, Selection([s.oldest + i] + rest.ids, rest.bits))
  {
    PrependAddsCost(s, s.oldest + i, rest.ids);
    PrependKeepsIncreasing(s.oldest + i, rest.ids);
  }

  lemma {:induction false} SelectIsSound<M>(config: Config, s: Sender<M>, available: nat, i: nat, used: nat, count: nat)
    requires used <= available && count <= config.maxMessagesPerPacket && i <= config.MessageLimit()
    ensures SoundChoice(config, s, available, i, used, count, Select(config, s, available, i, used, count))
    decreases config.MessageLimit() - i
  {
    var k := s.oldest + i;
    if i >= config.MessageLimit() || available < used + GIVE_UP_BITS || count >= config.maxMessagesPerPacket {
    } else if k in s.queue && Due(config, s, k) && used + Cost(s, k) <= available {
      SelectIsSound(config, s, available, i + 1, used + Cost(s, k), count + 1);
      PrependIsSound(config, s, available, i, used, count,
                     Select(config, s, available, i + 1, used + Cost(s, k), count + 1));
    } else {
      SelectIsSound(config, s, available, i + 1, used, count);
    }
  }

  /** Nothing was left behind without cause: a due message of the offered window that was not chosen would not
      fit even now, unless the packet is full or too few bits are left to go on. */
  lemma {:induction false} SelectIsMaximal<M>(
    config: Config, s: Sender<M>, available: nat, i: nat, used: nat, count: nat, k: int)
    requires used <= available && count <= config.maxMessagesPerPacket && i <= config.MessageLimit()
    requires k in s.queue && Due(config, s, k) && s.oldest + i <= k < s.oldest + config.MessageLimit()
    ensures var sel := Select(config, s, available, i, used, count);
            || k in sel.ids
            || count + |sel.ids| == config.maxMessagesPerPacket
            || available < sel.bits + GIVE_UP_BITS
            || available < sel.bits + Cost(s, k)
    decreases config.MessageLimit() - i
  {
    var j := s.oldest + i;
    if i >= config.MessageLimit() || available < used + GIVE_UP_BITS || count >= config.maxMessagesPerPacket {
    } else if j in s.queue && Due(config, s, j) && used + Cost(s, j) <= available {
      if j != k {
        SelectIsMaximal(config, s, available, i + 1, used + Cost(s, j), count + 1, k);
      }
    } else {
      if j != k {
        SelectIsMaximal(config, s, available, i + 1, used, count, k);
      } else {
        SelectIsSound(config, s, available, i + 1, used, count);
      }
    }
  }

  /** The ids before `k`, of ids in increasing order. */
  function Earlier(ids: seq<int>, k: int): seq<int> {
    if ids == [] || ids[0] >= k then [] else [ids[0]] + Earlier(ids[1..], k)
  }

  lemma {:induction false} EarlierAreAmong(ids: seq<int>, k: int)
    ensures forall j :: j in Earlier(ids, k) ==> j in ids
    decreases |ids|
  {
    if ids == [] || ids[0] >= k {
    } else {
      EarlierAreAmong(ids[1..], k);
      assert forall j :: j in ids <==> j == ids[0] || j in ids[1..];
    }
  }

  /** Message `k` has room after the messages `before`: 32 bits are left, the packet is not full, and it fits. */
  ghost predicate FitsAfter<M>(
    config: Config, s: Sender<M>, available: nat, used: nat, count: nat, before: seq<int>, k: int)
    requires k in s.queue && forall j :: j in before ==> j in s.queue
  {
    && used + TotalCost(s, before) + 32 <= available && count + |before| < config.maxMessagesPerPacket
    && used + TotalCost(s, before) + s.queue[k].measuredBits + 16 <= available
  }

  /** Message `k` is queued, has waited for its resend time, and has room after the messages `before`. */
  ghost predicate HasItsTurn<M>(
    config: Config, s: Sender<M>, available: nat, used: nat, count: nat, before: seq<int>, k: int)
    requires forall j :: j in before ==> j in s.queue
  {
    && k in s.queue && s.queue[k].timeLastSent + config.messageResendTime <= s.time
    && FitsAfter(config, s, available, used, count, before, k)
  }

  lemma TurnAfterFirst<M>(
    config: Config, s: Sender<M>, available: nat, used: nat, count: nat, j: int, before: seq<int>, k: int)
    requires j in s.queue && forall m :: m in before ==> m in s.queue
    ensures forall m :: m in [j] + before ==> m in s.queue
    ensures HasItsTurn(config, s, available, used, count, [j] + before, k)
       <==> HasItsTurn(config, s, available, used + Cost(s, j), count + 1, before, k)
  {
    PrependAddsCost(s, j, before);
  }

  lemma EarlierAfterFirst(j: int, ids: seq<int>, k: int)
    requires j < k
    ensures Earlier([j] + ids, k) == [j] + Earlier(ids, k)
    ensures k in [j] + ids <==> k in ids
  {
    assert ([j] + ids)[1..] == ids;
  }

  /** The choice is exact: a message of the offered window is chosen if and only if its time has come and there is
      room at its turn, after the chosen messages before it. */
  lemma {:induction false} SelectIsExact<M>(
    config: Config, s: Sender<M>, available: nat, i: nat, used: nat, count: nat, k: int)
    requires used <= available && count <= config.maxMessagesPerPacket
    requires s.oldest + i <= k < s.oldest + config.MessageLimit()
    ensures var ids := Select(config, s, available, i, used, count).ids;
            && (forall j :: j in Earlier(ids, k) ==> j in s.queue)
            && (k in ids <==> HasItsTurn(config, s, available, used, count, Earlier(ids, k), k))
    decreases config.MessageLimit() - i
  {
    var j := s.oldest + i;
    if available < used + GIVE_UP_BITS || count >= config.maxMessagesPerPacket {
    } else if j in s.queue && Due(config, s, j) && used + Cost(s, j) <= available {
      if j != k {
        SelectIsExact(config, s, available, i + 1, used + Cost(s, j), count + 1, k);
        var rest := Select(config, s, available, i + 1, used + Cost(s, j), count + 1).ids;
        TurnAfterFirst(config, s, available, used, count, j, Earlier(rest, k), k);
        EarlierAfterFirst(j, rest, k);
      }
    } else if j != k {
      SelectIsExact(config, s, available, i + 1, used, count, k);
    } else {
      SelectIsSound(config, s, available, i + 1, used, count);
      var ids := Select(config, s, available, i + 1, used, count).ids;
      assert ids != [] ==> ids[0] in ids;
    }
  }

  /** Exactly which messages go into a packet, in terms of the queue, the clock and the bits left. The window offered is
      that of the smaller queue. */
  lemma ChoiceIsExact<M>(config: Config, s: Sender<M>, left: nat, share: nat, k: int)
    requires config.Valid() && SenderValid(config, s) && IsShare(config, left, share)
    ensures var ids := ChooseMessages(config, s, left).ids;
            && (forall j :: j in Earlier(ids, k) ==> j in s.queue)
            && (k in ids <==>
                  && k < s.oldest + config.messageSendQueueSize && k < s.oldest + config.messageReceiveQueueSize
                  && HasItsTurn(config, s, share, 32, 0, Earlier(ids, k), k))
  {
    var ids := ChooseMessages(config, s, left).ids;
    ChooseMessagesIsSound(config, s, left);
    EarlierAreAmong(ids, k);
    assert share == config.BitsFor(left);
    if s.oldest <= k < s.oldest + config.MessageLimit() && share >= MESSAGE_HEADER_BITS {
      SelectIsExact(config, s, share, 0, MESSAGE_HEADER_BITS, 0, k);
    }
  }

  /** Messages that are not due are not chosen. */
  lemma {:induction false} SelectNothingDue<M>(
    config: Config, s: Sender<M>, available: nat, i: nat, used: nat, count: nat)
    requires forall k :: k in s.queue && s.oldest + i <= k ==> !Due(config, s, k)
    ensures Select(config, s, available, i, used, count) == Selection([], used)
    decreases config.MessageLimit() - i
  {
    if i >= config.MessageLimit() {
    } else {
      SelectNothingDue(config, s, available, i + 1, used, count);
    }
  }

  /** The oldest message is never starved: when it is due and fits, and 64 bits are available, it comes first. */
  lemma OldestComesFirst<M>(config: Config, s: Sender<M>, availableBits: nat)
    requires config.Valid() && SenderValid(config, s) && HasMessagesToSend(s)
    requires Due(config, s, s.oldest)
    requires config.BitsFor(availableBits) >= MESSAGE_HEADER_BITS + GIVE_UP_BITS
    requires MESSAGE_HEADER_BITS + Cost(s, s.oldest) <= config.BitsFor(availableBits)
    ensures var ids := ChooseMessages(config, s, availableBits).ids;
            ids != [] && ids[0] == s.oldest
  {
  }

  /** `SelectIsSound` and the size of a packet, for the packet as a whole. */
  lemma ChooseMessagesIsSound<M>(config: Config, s: Sender<M>, availableBits: nat)
    requires config.Valid()
    ensures var sel := ChooseMessages(config, s, availableBits);
            && (forall k :: k in sel.ids ==> k in s.queue && Due(config, s, k))
            && (forall k :: k in sel.ids ==> s.oldest <= k < s.oldest + config.MessageLimit())
            && Increasing(sel.ids)
            && |sel.ids| <= config.maxMessagesPerPacket && |sel.ids| <= config.MessageLimit()
            && (sel.ids == [] ==> sel.bits == 0)
            && (sel.ids != [] ==>
                  sel.bits == MESSAGE_HEADER_BITS + TotalCost(s, sel.ids) <= config.BitsFor(availableBits))
  {
    var available := config.BitsFor(availableBits);
    if available < MESSAGE_HEADER_BITS {
      assert Select(config, s, available, 0, MESSAGE_HEADER_BITS, 0).ids == [];
    } else {
      SelectIsSound(config, s, available, 0, MESSAGE_HEADER_BITS, 0);
    }
  }

  /** Note the time on exactly the messages chosen. */
  function Stamp<M>(s: Sender<M>, ids: seq<int>): Sender<M> {
    s.(queue := map k | k in s.queue :: if k in ids then s.queue[k].(timeLastSent := s.time) else s.queue[k])
  }

  function WrapAll(ids: seq<int>): (r: seq<u16>)
    ensures |r| == |ids| && forall i :: 0 <= i < |ids| ==> r[i] == Wrap(ids[i])
  {
    seq(|ids|, i requires 0 <= i < |ids| => Wrap(ids[i]))
  }

  lemma WrapAllAppend(ids: seq<int>, k: int)
    ensures WrapAll(ids + [k]) == WrapAll(ids) + [Wrap(k)]
  {
  }

  /** What the packet says: each chosen message under the 16-bit form of its id. */
  function WireMessages<M>(s: Sender<M>, ids: seq<int>): (r: seq<(u16, M)>)
    requires forall k :: k in ids ==> k in s.queue
    ensures |r| == |ids|
    ensures forall i :: 0 <= i < |ids| ==> r[i] == (Wrap(ids[i]), s.queue[ids[i]].message)
  {
    seq(|ids|, i requires 0 <= i < |ids| => (Wrap(ids[i]), s.queue[ids[i]].message))
  }

  /** Record what packet `number` carried. A number the ring takes to be older than its window is not recorded. */
  function RecordPacket<M>(config: Config, s: Sender<M>, number: u16, ids: seq<int>): Sender<M> {
    var p := InsertKey(s.packetTop, number);
    if p < s.packetTop - config.sentPacketBufferSize then s
    else
      var top := if p < s.packetTop then s.packetTop else p + 1;
      s.(packetTop := top,
         ledger := (map q | q in s.ledger && top - config.sentPacketBufferSize <= q :: s.ledger[q])
                   [p := SentPacket(false, WrapAll(ids))])
  }

  /** A packet number less than half the number space from the last one recorded is refused if it is older than the ring,
      and otherwise recorded as not acked, be it ahead or behind; exactly what then falls out of the ring is forgotten. */
  lemma RecordIsExact<M>(config: Config, s: Sender<M>, number: int, ids: seq<int>)
    requires -HALF < number + 1 - s.packetTop < HALF
    ensures var r := RecordPacket(config, s, Wrap(number), ids);
            if number < s.packetTop - config.sentPacketBufferSize then r == s
            else
              && r == s.(packetTop := r.packetTop, ledger := r.ledger)
              && s.packetTop <= r.packetTop && number < r.packetTop
              && (r.packetTop == s.packetTop || r.packetTop == number + 1)
              && number in r.ledger && r.ledger[number] == SentPacket(false, WrapAll(ids))
              && forall p :: p != number ==>
                   && (p in r.ledger <==> p in s.ledger && r.packetTop - config.sentPacketBufferSize <= p)
                   && (p in r.ledger ==> r.ledger[p] == s.ledger[p])
  {
    InsertKeyIsTheNumberMeant(s.packetTop, number);
  }

  /** The sender after generating packet `number`. */
  function GeneratePacket<M>(config: Config, s: Sender<M>, number: u16, availableBits: nat): Sender<M> {
    var ids := ChooseMessages(config, s, availableBits).ids;
    if ids == [] then s else RecordPacket(config, Stamp(s, ids), number, ids)
  }

  lemma GeneratePacketKeepsValid<M>(config: Config, s: Sender<M>, number: u16, availableBits: nat)
    requires config.Valid() && SenderValid(config, s)
    ensures SenderValid(config, GeneratePacket(config, s, number, availableBits))
  {
    ChooseMessagesIsSound(config, s, availableBits);
  }

  // ---- Acks ----------------------------------------------------------------------------------

  /** The first number at or after `from` that is still queued, or `stop`. */
  function FirstUnacked<M>(queue: map<int, SendEntry<M>>, from: int, stop: int): (r: int)
    requires from <= stop
    ensures from <= r <= stop
    ensures r == stop || r in queue
    ensures forall k :: from <= k < r ==> k !in queue
    decreases stop - from
  {
    if from == stop || from in queue then from else FirstUnacked(queue, from + 1, stop)
  }

  /** Take the message whose id has this 16-bit form out of the queue, if there is one. */
  function RemoveMessage<M>(s: Sender<M>, id: u16): Sender<M>
    requires s.oldest <= s.next
  {
    var k := Below(s.next, id);
    if k in s.queue then
      var queue := s.queue - {k};
      s.(queue := queue, oldest := FirstUnacked(queue, s.oldest, s.next))
    else s
  }

  function RemoveMessages<M>(s: Sender<M>, ids: seq<u16>): (r: Sender<M>)
    requires s.oldest <= s.next
    ensures r.oldest <= r.next && r.time == s.time
    decreases |ids|
  {
    if ids == [] then s else RemoveMessages(RemoveMessage(s, ids[0]), ids[1..])
  }

  datatype AckResult = NotRecorded | Acked | AlreadyAcked

  /** What an ack with this 16-bit number comes to. `AlreadyAcked` is a failed assertion in the program. */
  function AckOutcome<M>(s: Sender<M>, ack: u16): AckResult {
    var p := Below(s.packetTop, ack);
    if p !in s.ledger then NotRecorded
    else if s.ledger[p].acked then AlreadyAcked
    else Acked
  }

  function ProcessAck<M>(s: Sender<M>, ack: u16): Sender<M>
    requires s.oldest <= s.next
  {
    var p := Below(s.packetTop, ack);
    if AckOutcome(s, ack) != Acked then s
    else RemoveMessages(s.(ledger := s.ledger[p := s.ledger[p].(acked := true)]), s.ledger[p].ids)
  }

  lemma RemoveMessageKeepsValid<M>(config: Config, s: Sender<M>, id: u16)
    requires SenderValid(config, s)
    ensures SenderValid(config, RemoveMessage(s, id))
  {
  }

  lemma {:induction false} RemoveMessagesKeepsValid<M>(config: Config, s: Sender<M>, ids: seq<u16>)
    requires SenderValid(config, s)
    ensures SenderValid(config, RemoveMessages(s, ids))
    decreases |ids|
  {
    if ids == [] {
    } else {
      RemoveMessageKeepsValid(config, s, ids[0]);
      RemoveMessagesKeepsValid(config, RemoveMessage(s, ids[0]), ids[1..]);
    }
  }

  lemma ProcessAckKeepsValid<M>(config: Config, s: Sender<M>, ack: u16)
    requires SenderValid(config, s)
    ensures SenderValid(config, ProcessAck(s, ack))
  {
    var p := Below(s.packetTop, ack);
    if AckOutcome(s, ack) == Acked {
      RemoveMessagesKeepsValid(config, s.(ledger := s.ledger[p := s.ledger[p].(acked := true)]), s.ledger[p].ids);
    }
  }

  lemma {:induction false} RemoveMessagesKeepsMeasured<M>(s: Sender<M>, size: M -> nat, ids: seq<u16>)
    requires s.oldest <= s.next && Measured(s, size)
    ensures Measured(RemoveMessages(s, ids), size)
    decreases |ids|
  {
    if ids == [] {
    } else {
      RemoveMessagesKeepsMeasured(RemoveMessage(s, ids[0]), size, ids[1..]);
    }
  }

  lemma ProcessAckKeepsMeasured<M>(s: Sender<M>, size: M -> nat, ack: u16)
    requires s.oldest <= s.next && Measured(s, size)
    ensures Measured(ProcessAck(s, ack), size)
  {
    var p := Below(s.packetTop, ack);
    if AckOutcome(s, ack) == Acked {
      RemoveMessagesKeepsMeasured(s.(ledger := s.ledger[p := s.ledger[p].(acked := true)]), size, s.ledger[p].ids);
    }
  }

  lemma GeneratePacketKeepsMeasured<M>(config: Config, s: Sender<M>, size: M -> nat, number: u16, availableBits: nat)
    requires Measured(s, size)
    ensures Measured(GeneratePacket(config, s, number, availableBits), size)
  {
  }

  /** Acking ids of messages at most the number space behind `next` removes exactly those messages, and leaves
      every other field but `oldest` alone. */
  lemma {:induction false} RemoveMessagesExactly<M>(s: Sender<M>, ids: seq<int>)
    requires s.oldest <= s.next && forall k :: k in ids ==> s.next - MODULUS <= k < s.next
    ensures var r := RemoveMessages(s, WrapAll(ids));
            && r.queue == s.queue - (set k | k in ids)
            && r == s.(queue := r.queue, oldest := r.oldest)
            && s.oldest <= r.oldest
    decreases |ids|
  {
    if ids == [] {
      assert s.queue - (set k | k in ids) == s.queue;
    } else {
      assert ids[0] in ids;
      BelowIsUnique(s.next, ids[0]);
      var s1 := RemoveMessage(s, Wrap(ids[0]));
      assert s1.queue == s.queue - {ids[0]};
      assert WrapAll(ids)[1..] == WrapAll(ids[1..]);
      assert forall k :: k in ids[1..] ==> k in ids;
      RemoveMessagesExactly(s1, ids[1..]);
      assert (set k | k in ids) == {ids[0]} + (set k | k in ids[1..]);
      assert s.queue - (set k | k in ids) == s1.queue - (set k | k in ids[1..]);
    }
  }

  /** Acks take messages away and change none that stays. */
  lemma {:induction false} RemovingKeeps<M>(s: Sender<M>, ids: seq<u16>)
    requires s.oldest <= s.next
    ensures var r := RemoveMessages(s, ids);
            && r == s.(queue := r.queue, oldest := r.oldest)
            && forall k :: k in r.queue ==> k in s.queue && r.queue[k] == s.queue[k]
    decreases |ids|
  {
    if ids == [] {
    } else {
      RemovingKeeps(RemoveMessage(s, ids[0]), ids[1..]);
    }
  }

  // ---- Receiving -----------------------------------------------------------------------------

  datatype ReceiveResult<M> = ReceiveResult(receiver: Receiver<M>, ok: bool)

  /** Half the number space or less behind; at exactly half, the plain order of the 16-bit values decides. */
  predicate TooOld<M>(r: Receiver<M>, id: u16) {
    var ahead := Wrap(id - Wrap(r.next));
    HALF < ahead || (ahead == HALF && id < Wrap(r.next))
  }

  /** One message of a packet: an old one is skipped, one inside the window is stored under the number it stands
      for, and one past the window is the desync the program panics on. */
  function ReceiveOne<M>(config: Config, r: Receiver<M>, id: u16, message: M): ReceiveResult<M> {
    var ahead := Wrap(id - Wrap(r.next));
    if TooOld(r, id) then ReceiveResult(r, true)
    else if ahead < config.messageReceiveQueueSize then
      ReceiveResult(r.(pending := r.pending[r.next + ahead := message]), true)
    else ReceiveResult(r, false)
  }

  function ReceivePacket<M>(config: Config, r: Receiver<M>, messages: seq<(u16, M)>): ReceiveResult<M>
    decreases |messages|
  {
    if messages == [] then ReceiveResult(r, true)
    else
      var one := ReceiveOne(config, r, messages[0].0, messages[0].1);
      if one.ok then ReceivePacket(config, one.receiver, messages[1..]) else one
  }

  /** A packet is received message by message. */
  lemma ReceiveFirst<M>(config: Config, r: Receiver<M>, messages: seq<(u16, M)>, i: nat)
    requires i < |messages|
    ensures var one := ReceiveOne(config, r, messages[i].0, messages[i].1);
            ReceivePacket(config, r, messages[i..])
            == if one.ok then ReceivePacket(config, one.receiver, messages[i + 1..]) else one
  {
    assert messages[i..][1..] == messages[i + 1..];
  }

  /** The message to deliver, if it has arrived. */
  function NextMessage<M>(r: Receiver<M>): Option<M> {
    if r.next in r.pending then Some(r.pending[r.next]) else None
  }

  function Delivered<M>(r: Receiver<M>): Receiver<M> {
    if r.next in r.pending then Receiver(r.next + 1, r.pending - {r.next}) else r
  }

  /** The receiver reads the number the sender meant, as long as it is less than half the number space away. At exactly
      half, the plain order of the 16-bit values tells an old message from a desync. */
  lemma ReceiveOneByNumber<M>(config: Config, r: Receiver<M>, k: int, message: M)
    requires config.Valid() && -HALF <= k - r.next <= HALF
    ensures -HALF < k - r.next < HALF ==>
              ReceiveOne(config, r, Wrap(k), message)
              == if k < r.next then ReceiveResult(r, true)
                 else if k < r.next + config.messageReceiveQueueSize
                 then ReceiveResult(r.(pending := r.pending[k := message]), true)
                 else ReceiveResult(r, false)
    ensures k == r.next - HALF || k == r.next + HALF ==>
              ReceiveOne(config, r, Wrap(k), message) == ReceiveResult(r, Wrap(k) < Wrap(r.next))
  {
    WrapDifference(k, r.next);
  }

  lemma {:induction false} ReceivePacketKeepsValid<M>(config: Config, r: Receiver<M>, messages: seq<(u16, M)>)
    requires ReceiverValid(config, r)
    ensures var r' := ReceivePacket(config, r, messages).receiver;
            && ReceiverValid(config, r') && r'.next == r.next && r.pending.Keys <= r'.pending.Keys
    decreases |messages|
  {
    if messages == [] {
    } else {
      var one := ReceiveOne(config, r, messages[0].0, messages[0].1);
      if one.ok {
        ReceivePacketKeepsValid(config, one.receiver, messages[1..]);
      }
    }
  }
}
