# A verified model of typed, reliable messages over packets

The repository sends typed messages over a lossy packet transport. A connection has several channels. A reliable
channel numbers its messages with wrapping 16-bit ids, keeps them until they are acked, remembers which ids went into
which packet, and delivers them in order at the other end. An unreliable channel sends each message at most once.
The channels share packets, whose size is predicted before they are written, and packet acks, which go to every channel.

The model is in layers, one module each:

| module | what it models |
|---|---|
| `Wrap16` | wrapping 16-bit numbers, and the unbounded numbers they stand for |
| `Configs` | the configuration of a channel |
| `SequenceBuffers` | the ring buffer: a class over two arrays, with the sliding window over unbounded numbers as ghost state |
| `ReliableSpec` | the sending and receiving halves of a reliable channel, on values |
| `ReliableChannel` | the reliable channel as the program keeps it: 16-bit ids, three rings and one shared array of sent ids; its methods are proved equal to `ReliableSpec` |
| `UnreliableChannel` | the unreliable channel: its queues and greedy packing |
| `Protocol` | two ends of one reliable channel over a network that drops, duplicates, delays and reorders packets |
| `Progress` | rounds without loss empty the send queue |
| `Codec`, `Serializer` | the bytes of a packet, on values and through moving cursors over a buffer |
| `ChannelSpec`, `Channels` | the channel behind its error latch and counters, on values and as a class |
| `ConnectionSpec`, `Connections` | the connection, on values and as a class |
| `PacketBudget`, `Headroom` | predicted and written sizes, and exactly when the bit budget underflows |
| `PacketRules` | exactly which messages of each channel go into a packet, in terms of queues, clock, budgets and the bits left of the buffer |
| `Lanes`, `ConnectionProtocol`, `Isolation`, `Guarantees`, `ConnectionProgress` | two connections with any number of channels of both kinds, sending both ways at once: every reliable channel follows a run of `Protocol`, step by step |
| `Steps`, `Histories`, `Acks`, `Calls`, `Deliveries` | what runs of two connections show: which messages went into which packet and when, what acks and lists of acks take away, what calls come to, errors that stay, and exactly what becomes of a packet that arrives |
| `ConnectionDelivery`, `Paths` | any rounds without loss empty every reliable channel of a connection |
| `Mirror` | the way back: a run of one channel's protocol, with the sizes that the codec and one buffer give, is a run of two connections whose other channels stay as they are |
| `Batches`, `Recycling` | how many messages a packet can hold, and the exact bound on recycled ids that follows: beyond it two connections lose a message |
| `IdleChannel` | a channel that is idle for long stops recording its packets, and later takes the ack of another channel's packet for one of its own |

The program counts modulo 65536. The proofs count without wrapping: every number that the program keeps as a `u16` has
an unbounded ghost counterpart, of which it is the remainder. So the theorems hold across any number of wraps.

## Hypotheses

The code needs these and does not check them. They are the only restrictions on the theorems about whole runs.

- Ring sizes divide 65536 (`Wrap16.SlotsNeverClashIff` shows that no other size works) and are from 2 to 32768, message
  queues hold at most 16384 messages, and `max_messages_per_packet` is at least 1. Both ends share one configuration. A
  connection has fewer than 65535 channels and at most 256 messages per channel and packet, as the serializer asserts.
- `(sent_packet_buffer_size - 1) * min(max_messages_per_packet, limit) + message_send_queue_size + limit <= 65536`,
  where `limit` is the smaller of the two message queue sizes (`Protocol.IdsOutliveAcks`). For connections with buffers
  of one size, the exact condition has the number of smallest messages that a packet can hold in place of the minimum
  (`Recycling.NoLossIffIdsOutliveAcks`).
- In `Protocol`, a packet is generated only when the channel has 32 bits for the header of a message, since otherwise the
  program underflows; for whole connections that underflow is an outcome.
- The ring of a channel reads the number of a packet that carries messages of the channel as it is meant, or takes it to
  be older than its window and does not record it (`Protocol.NumberIsClear`). It does up to 65536 minus the ring size
  past the last number recorded (`Protocol.NearNumberIsClear`). Only the theorems about progress ask that the number be
  recorded, which it is less than 32768 past; `IdleChannel.IdleChannelStalls` shows what happens when it is not.
- A packet does not arrive so late that one of its messages is 32768 or more behind the receiver.
- A packet is acked only after the other end took it in, once, and while no reliable channel has another packet recorded
  with the same 16-bit number. `Protocol.AckFindsItsPacketIff` shows that this is what a lookup needs, and
  `IdleChannel.IdleChannelLoses` and `IdleChannel.IdleChannelPanics` that both main guarantees fail without it.
- A message codec is any pair of functions such that reading what was written gives the message back, whatever follows.
- Time is a real number. A message is due when `time_last_sent + message_resend_time <= time`, and a new one has
  `time_last_sent == -1`.

`Guarantees.SomeSetupIsValid` gives a configuration that meets all of this, and its initial state is reachable
(`ConnectionProgress.InitialIsReachable`). The exact conditions of `Headroom` ask in addition for messages of
every size from a least one on, which `Headroom.SomeMessagesAreSized` shows a codec can have.

A panic, a failed assertion and an integer that underflows are outcomes of the model: a method says when it happens, and
the theorems say when it cannot. The subtractions at `src/connection.rs:153-154` panic only in a build with overflow
checks; in a build without them they wrap, and the program goes on as if the packet had almost endless room. The model
has the panic; what comes after a wrap is left out.

## What the proofs found

- **The default configuration can lose a message.** With 1024, 1024, 1024 and 256 and a packet size of 8192 bytes, a late
  ack can remove a newer message with the same 16-bit id. Two connections with one default channel have such a run, all
  of copies of one message, if and only if some message is at most 127 bytes long (`Recycling.DefaultConfigLosesIff`).
- **A channel without a packet budget can underflow `available_bits`.** The configuration documents `None` as "the rest
  of the packet" (`src/config.rs:151`); a channel that uses all of it leaves nothing for the 32 bits subtracted at
  `src/connection.rs:153`. One such channel is enough for two connections to get to where a packet underflows
  (`Headroom.OneWithoutBudgetUnderflows`); a default channel does with one message of 8184 bytes
  (`Headroom.DefaultConfigUnderflows`). `Headroom.NeverUnderflowsIff` has the exact condition for any number of channels,
  and `PacketBudget.BudgetsNeverUnderflow` a simpler one that is enough.
- **A channel that is idle for long takes the ack of another channel's packet for one of its own.** After 65536 packets
  of the other channel it loses a message (`IdleChannel.IdleChannelLoses`) or fails the assertion at
  `src/channel/reliable.rs:323` (`IdleChannel.IdleChannelPanics`). The other channel may be of either kind; two default
  channels do both (`IdleChannel.DefaultPairLoses`, `IdleChannel.DefaultPairPanics`).
- **And before that its own acks are lost on it.** After 32768 packets of the other channel its ring takes the numbers of
  new packets to be old: they arrive, but are not recorded, and their acks change nothing until the numbers come round,
  while the send queue fills (`IdleChannel.IdleChannelStalls`).
- `remove_entries` adds 65535 where 65536 is meant (`src/channel/sequence_buffer.rs:139`). It clears one slot too few,
  and that is the slot `insert_with` overwrites next, so the ring is right all the same.
- The second panic of `process_packet_data` (`src/channel/reliable.rs:312`) is unreachable in every state.
- The guard at `src/connection.rs:96` lets one index past the end through; a decoded packet never holds it
  (`Codec.DecodedIndexesAreChannels`).
- `has_messages_to_send` compares for inequality where its comment says "less than" (`src/channel/reliable.rs:210-214`);
  within the window the two agree.

## Model

| member | source | states |
|---|---|---|
| Wrap16.SequenceGreaterThanIsAhead | src/channel/sequence_buffer.rs:155-163 | the comparison is "ahead by less than half the number space", with the tie at exactly half decided by the plain order |
| Wrap16.ComparisonAgrees | src/channel/sequence_buffer.rs:161-173 | within half the number space both comparisons are the order of the unbounded numbers, across every wrap |
| Wrap16.SlotOfWrap | src/channel/sequence_buffer.rs:117-119 | the slot of a 16-bit number is the slot of the number it stands for, when the ring size divides 65536 |
| Wrap16.SlotsNeverClashIff | src/channel/sequence_buffer.rs:117-119 | numbers of one window never share a slot, across the wrap, if and only if the ring size divides 65536 |
| SequenceBuffers.InsertKeyIsMeantIff | src/channel/sequence_buffer.rs:63-70 | exactly the numbers within half the number space of the pointer are inserted as the number meant; the tie is spelled out |
| SequenceBuffers.SequenceBuffer.constructor | src/channel/sequence_buffer.rs:20-33 | a new ring of any size that the constructor accepts is empty and at 0; its window is right if the size divides 65536 |
| SequenceBuffers.SequenceBuffer.Reset | src/channel/sequence_buffer.rs:38-44 | after a reset the window is empty and at 0 again, although the entries are not cleared |
| SequenceBuffers.SequenceBuffer.InsertWith | src/channel/sequence_buffer.rs:63-75 | for every 16-bit input: the entry is added, the window slides, and exactly what fell out of it is gone; or the number is older than the window, nothing changes and the result is false |
| SequenceBuffers.SequenceBuffer.Take | src/channel/sequence_buffer.rs:81-89 | the entry that the window holds under this number is returned and removed, and nothing else changes |
| SequenceBuffers.SequenceBuffer.Get | src/channel/sequence_buffer.rs:91-97 | the entry that the window holds under this number, if there is one |
| SequenceBuffers.SequenceBuffer.Update | src/channel/sequence_buffer.rs:99-106 | replacing an entry in place replaces it in the window, and nothing else |
| SequenceBuffers.SequenceBuffer.Available | src/channel/sequence_buffer.rs:109-111 | a slot is free if and only if the window holds no number with that slot |
| SequenceBuffers.SequenceBuffer.Exists | src/channel/sequence_buffer.rs:113-115 | a number exists if and only if the window holds the one number below the pointer with this 16-bit form; no entry of an earlier wrap is found |
| SequenceBuffers.SequenceBuffer.RemoveEntries | src/channel/sequence_buffer.rs:135-152 | walking unwrapped numbers with the constant 65535 clears every slot that leaves the window, but for the one inserted next, and keeps the slots that stay |
| ReliableSpec.CanSendMessageIff | src/channel/reliable.rs:216-219 | sending is refused exactly when the message sent one queue size ago is unacked, that is when a full queue is outstanding |
| ReliableSpec.SendMessageKeepsValid | src/channel/reliable.rs:221-245 | sending keeps the sender's window: oldest <= send <= oldest + capacity, only messages of that range queued, oldest queued or equal to send |
| ReliableSpec.SelectIsSound | src/channel/reliable.rs:111-150 | the chosen messages are queued and due, in increasing order, within the offered window, within the message limit, and the bits reported are what they cost and no more than available |
| ReliableSpec.SelectIsMaximal | src/channel/reliable.rs:114-148 | a due message of the window is left out only if it would not fit even at the end, the packet is full, or fewer than 32 bits are left |
| ReliableSpec.OldestComesFirst | src/channel/reliable.rs:94-151 | a due oldest message that fits is chosen first whenever 64 bits are available, so it is never starved |
| ReliableSpec.ChoiceIsExact | src/channel/reliable.rs:94-151 | exactly which messages go into a packet: those that both queues' windows allow, whose last sending plus the resend time is not after the clock, and that fit, with 32 bits left and the packet not full, after the messages before them; the bits are the smaller of those left and 8 times the budget |
| ReliableSpec.ChooseMessagesIsSound | src/channel/reliable.rs:259-281 | the same for the packet as a whole, with the budget: no messages means no bits, and otherwise 32 bits plus what the messages cost |
| ReliableSpec.RecordIsExact | src/channel/reliable.rs:174-190 | a packet number less than half the number space from the last one recorded, ahead or behind, is recorded as not acked unless it is older than the ring, and exactly what falls out of the ring is forgotten |
| ReliableSpec.GeneratePacketKeepsValid | src/channel/reliable.rs:174-190 | recording a packet, of whatever number, keeps the sender in order, and the live packets within the last ring size of numbers |
| ReliableSpec.FirstUnacked | src/channel/reliable.rs:377-395 | the result is the first number at or after the start that is still queued, or the pointer if there is none |
| ReliableSpec.ProcessAckKeepsValid | src/channel/reliable.rs:318-345 | an ack, of whatever number, keeps the sender in order |
| ReliableSpec.RemoveMessagesExactly | src/channel/reliable.rs:326-342 | acking ids of the last 65536 messages removes exactly those messages from the send queue and only moves oldest forward |
| ReliableSpec.ReceiveOneByNumber | src/channel/reliable.rs:292-314 | within half the number space a message is skipped if it was delivered, stored under its own number inside the window, and a desync past it; at exactly half, the plain order of the 16-bit values decides, so every id is covered |
| ReliableSpec.ReceivePacketKeepsValid | src/channel/reliable.rs:283-316 | taking in messages, of whatever ids, keeps the receiver in order and never evicts what is pending |
| ReliableChannel.SlicesOfPacketsAreApart | src/channel/reliable.rs:174-178 | packets that are live together have disjoint slices of the shared id array |
| ReliableChannel.OtherStillMatches | src/channel/reliable.rs:179-189 | writing the ids of one packet leaves the slice of every other live packet holding exactly its ids |
| ReliableChannel.Reliable.constructor | src/channel/reliable.rs:51-76 | a new channel has an empty sender and receiver, whatever its configuration, and is in order if the configuration is within the limits |
| ReliableChannel.Reliable.AdvanceTime | src/channel/reliable.rs:194-196 | only the sender's time changes |
| ReliableChannel.Reliable.Reset | src/channel/reliable.rs:198-208 | both halves are as new, but for the time |
| ReliableChannel.Reliable.HasMessagesToSend | src/channel/reliable.rs:210-214 | comparing the wrapped ids tells whether messages are outstanding |
| ReliableChannel.Reliable.CanSendMessage | src/channel/reliable.rs:216-219 | the free slot means that the message one queue size back is gone |
| ReliableChannel.Reliable.SendMessage | src/channel/reliable.rs:221-245 | the rings hold the sender with the message added under the next id; the insert cannot fail |
| ReliableChannel.Reliable.ReceiveMessage | src/channel/reliable.rs:247-257 | returns the next message under its wrapped id exactly when it has arrived, and takes it out of the window |
| ReliableChannel.Reliable.GetMessagesToSend | src/channel/reliable.rs:94-151 | the loop over wrapped ids picks the messages of the specification, which `ReliableSpec.ChoiceIsExact` gives in plain numbers, restamps exactly those, and the give-up counter never matters |
| ReliableChannel.Reliable.GetMessagePacketData | src/channel/reliable.rs:155-171 | every chosen id is found, and the packet holds its message under the wrapped id |
| ReliableChannel.Reliable.AddMessagePacketEntry | src/channel/reliable.rs:174-190 | the ledger entry's slice holds exactly the packet's ids, every other live slice is untouched, and a number too old is not recorded |
| ReliableChannel.Reliable.PacketData | src/channel/reliable.rs:259-281 | messages, bits and new state are those of the specification |
| ReliableChannel.Reliable.ProcessPacketData | src/channel/reliable.rs:283-316 | the receive ring takes in the packet as the specification says; the only panic is the desync past the window |
| ReliableChannel.Reliable.UpdateOldestUnackedMessageId | src/channel/reliable.rs:377-395 | the loop over wrapped ids stops at the first message still queued or at the pointer, and the closing assertion holds |
| ReliableChannel.Reliable.ProcessAck | src/channel/reliable.rs:318-345 | the ids of the packet's slice leave the send queue as the specification says; an ack seen before is the failed assertion |
| Protocol.StepInv | src/channel/reliable.rs:193-346 | every step of the two ends and the network keeps the invariant, as long as ids outlive acks |
| Protocol.RunInv | src/channel/reliable.rs:193-346 | so does every run |
| Protocol.ReceiveGenuine | src/channel/reliable.rs:283-316 | a genuine packet stores exactly its undelivered messages, whatever their order and repeats, evicts nothing, and panics exactly when one lies past the window |
| Protocol.FewMessagesSincePacket | src/channel/reliable.rs:174-190 | no more messages leave the window of a live packet than fit into the packets that can follow it |
| Protocol.NoRecycledId | src/channel/reliable.rs:330-335 | the only queued message with the 16-bit id of a message of a live packet is that message itself |
| Protocol.AckFindsItsPacketIff | src/channel/reliable.rs:318-321 | an ack finds the entry recorded for its packet, or none if there is none, exactly when no other recorded packet has the same 16-bit number |
| Protocol.AckRangeIsExact | src/channel/reliable.rs:318-321 | so whatever is recorded it does exactly for the numbers of the window and those whose 16-bit form no number of the window has; `IdleChannel` shows what comes of one out of range |
| Protocol.NearNumberIsClear | src/channel/sequence_buffer.rs:63-75 | the number of a packet is recorded as meant less than 32768 past the last one recorded, and refused, not mistaken, from there up to 65536 minus the ring size |
| Protocol.DeliveredIsPrefix | src/connection.rs:343-409 | exactly once and in order: in every reachable state the delivered messages are a prefix of the accepted ones |
| Protocol.NothingIsLost | src/channel/reliable.rs:283-345 | an accepted message that is not delivered is in the send queue or waits at the receiver, as itself and not only under its id |
| Protocol.NoDoubleAck | src/channel/reliable.rs:323-324 | the assertion that no packet is acked twice never fails |
| Protocol.BufferingIsBounded | src/channel/reliable.rs:216-257 | accepted minus delivered is at most the two queue sizes, and pending ids lie within the receive window |
| Protocol.DrainedDeliveryIsStored | src/channel/reliable.rs:286-313 | a receiver that delivered all it could before a packet comes stores the whole packet |
| Protocol.DrainingRunNeverDesyncs | src/channel/reliable.rs:296-313 | a receiver that always does so never panics, in any run |
| Protocol.OrderAndRepeatsDoNotMatter | src/channel/reliable.rs:283-316 | genuine messages with the same set of ids leave the receiver in the same state, whatever their order and multiplicity |
| Progress.AckAdvancesOldest | src/channel/reliable.rs:318-345 | the ack of a packet with the oldest message moves oldest forward |
| Progress.RoundMakesProgress | src/channel/reliable.rs:94-345 | a round of generate, deliver, drain and ack whose oldest message is due and fits can happen, and leaves strictly fewer messages outstanding |
| Progress.RoundsDeliverEverything | src/channel/reliable.rs:94-345 | as many such rounds as messages are outstanding empty the send queue and deliver everything accepted |
| Mirror.FeasibleStep | src/connection.rs:47-195 | each step of one channel's protocol, with messages as large as their encoding and packets made in one buffer, is a step of two connections whose other channels have nothing due and stay as they are |
| Mirror.RunIsMirrored | src/connection.rs:47-195 | so whatever such a run comes to, two connections with that buffer size come to |
| Batches.BatchesSimulated | src/channel/reliable.rs:94-151 | connections in whose packets no more than `n` messages of a channel fit follow the protocols of a configuration that allows only `n` |
| Batches.BatchesLoseNothing | src/channel/reliable.rs:318-342 | so with buffers of one size nothing is lost when every batch that fits keeps the bound |
| Recycling.UnsafeConnectionLoses | src/channel/reliable.rs:318-342 | every connection with a reliable channel for which some batch that fits breaks the bound has a run, of copies of one message in one buffer size, that loses a message; with a resend time of 0 or less the run sets the clock back |
| Recycling.NoLossIffIdsOutliveAcks | src/channel/reliable.rs:318-342 | with buffers of one size, no state that two connections can reach has lost a message if and only if every reliable channel keeps the bound with every batch of smallest messages that fits |
| Recycling.DefaultConfigLosesIff | src/config.rs:76-84 | two connections with one default channel and the default packet size never lose a message if and only if every message is at least 128 bytes long |
| IdleChannel.IdleChannelLoses | src/channel/reliable.rs:318-342 | two connections come to where the ack of a packet of another channel, reliable or not, due but for its number, takes a message away that the receiver never had |
| IdleChannel.IdleChannelPanics | src/channel/reliable.rs:321-324 | and to where such an ack fails the assertion that no packet is acked twice |
| IdleChannel.DefaultPairLoses | src/config.rs:76-84 | so do two connections with two default channels lose a message |
| IdleChannel.DefaultPairPanics | src/config.rs:76-84 | and so do they fail the assertion |
| IdleChannel.IdleChannelStalls | src/channel/sequence_buffer.rs:63-75 | after 32768 packets of another channel, a round without loss in which the oldest message of the idle channel has its turn takes it to the other end and changes nothing at the sender |
| UnreliableChannel.FillTakesPrefix | src/channel/unreliable.rs:84-113 | a packet takes a prefix off the queue, stays within its limits, and stops only when the queue is empty, the packet full or few bits are left |
| UnreliableChannel.FillSendsFitting | src/channel/unreliable.rs:93-112 | of that prefix exactly the messages that fit at their turn are sent, in order; the others are gone |
| UnreliableChannel.FillStopsInTime | src/channel/unreliable.rs:84-95 | a message is taken off the queue if and only if 32 bits were left and the packet was not full at its turn and at every turn before; so none is dropped before its turn came |
| UnreliableChannel.FillPacketIsExact | src/channel/unreliable.rs:61-125 | exactly what a packet sends and what stays queued, with the smaller of the bits left and 8 times the budget |
| UnreliableChannel.FillPacketIsSound | src/channel/unreliable.rs:61-125 | no messages means no bits; otherwise 32 bits plus the contents, within the budget |
| UnreliableChannel.ReceivedIsPrefix | src/channel/unreliable.rs:127-135 | of a packet as many messages are kept, in order, as the queue has room for, all under the packet's number |
| UnreliableChannel.Unreliable.PacketData | src/channel/unreliable.rs:61-125 | the popping loop packs what the specification says, which `UnreliableChannel.FillPacketIsExact` gives in plain numbers, and leaves exactly the rest in the queue |
| UnreliableChannel.Unreliable.ProcessPacketData | src/channel/unreliable.rs:127-135 | the queue takes in what the specification says and never exceeds its size |
| UnreliableChannel.Unreliable.SendMessage | src/channel/unreliable.rs:53-55 | the message goes to the back of the queue, even of a full one; the queue keeps to its size if there was room |
| UnreliableChannel.Unreliable.ReceiveMessage | src/channel/unreliable.rs:57-59 | the front of the queue is returned and removed; nothing when it is empty |
| Codec.PacketRoundTrip | src/connection.rs:207-255 | reading a written packet of any number of entries of both kinds gives back every channel index, message and reliable id, with unreliable ids 0, and consumes exactly the bytes written |
| Codec.ChannelRoundTrip | src/channel/channel_packet_data.rs:35-102 | the same for the entry of one channel |
| Codec.MessagesRoundTrip | src/channel/channel_packet_data.rs:104-185 | the same for the messages of an entry, ids first for a reliable channel |
| Codec.PredictionIsExact | src/channel/channel_packet_data.rs:35-158 | an entry takes exactly the bits a channel reports: 32, 16 for each reliable message, and its contents |
| Codec.DecodedIndexesAreChannels | src/connection.rs:94-99 | whatever the bytes, an entry that is read names a channel of the connection and has at least one message and no more than its channel may send, or stands for no data |
| Codec.ChannelLayout | src/channel/channel_packet_data.rs:35-158 | the bytes of an entry: index, flag, number of messages less one, the ids of a reliable channel, all least significant byte first, and the contents |
| Codec.PacketLayout | src/connection.rs:207-225 | the bytes of a packet: the number of entries, and the entries |
| Codec.ReadLayout | src/channel/channel_packet_data.rs:67-102 | reading an entry from any bytes: where it fails, what a flag other than 1 means, and which ids the messages get |
| Codec.ReadPacketLayout | src/connection.rs:227-255 | a packet is read whole, as many entries as its first bytes say, or not at all |
| Serializer.WriteCursor.WriteContents | src/channel/channel_packet_data.rs:104-115 | the loop writes the contents one after the other, touches nothing else, and fails exactly when they do not fit |
| Serializer.WriteCursor.WriteMessages | src/channel/channel_packet_data.rs:132-158 | ids and then contents for a reliable channel, contents alone for an unreliable one |
| Serializer.WriteCursor.WriteChannel | src/channel/channel_packet_data.rs:35-65 | the entry of one channel is written at the cursor and nothing else changes |
| Serializer.SerializePacket | src/connection.rs:207-225 | the packet's bytes are at the front of the buffer and the rest is unchanged, or an assertion fails or it does not fit, and the program panics |
| Serializer.ReadCursor.ReadIds | src/channel/channel_packet_data.rs:165-170 | reads that many ids, or fails where the input ends, for every input |
| Serializer.ReadCursor.ReadContents | src/channel/channel_packet_data.rs:117-130 | reads one message for every id, for every input |
| Serializer.ReadCursor.ReadChannel | src/channel/channel_packet_data.rs:67-102 | reads one entry as the specification does, for every input, malformed ones included |
| Serializer.DeserializePacket | src/connection.rs:227-255 | reads what the specification reads from every input, and fails where the program panics |
| ChannelSpec.SendKeepsValid | src/channel.rs:151-164 | a channel of either kind stays in order when a message is sent, dropped or refused |
| ChannelSpec.AfterPacketDataKeepsValid | src/channel.rs:109-120 | and when it fills a packet |
| ChannelSpec.ProcessPacketDataKeepsValid | src/channel.rs:122-133 | and when it takes in messages, of whatever ids |
| ChannelSpec.ProcessAckKeepsValid | src/channel.rs:135-137 | and when it learns of an ack, of whatever number |
| ChannelSpec.SendIsExact | src/channel.rs:151-164 | a full queue, in plain numbers for both kinds, puts the channel in error and does nothing else; otherwise the message is queued last, as never sent, and counted; a channel in error does nothing |
| Channels.Channel.constructor | src/channel.rs:73-85 | the processor is of the configured kind, and there is no error |
| Channels.Channel.Reset | src/channel.rs:87-91 | no error, counters at zero, processor as new |
| Channels.Channel.SendMessage | src/channel.rs:151-164 | a channel in error drops the message; a full queue latches the error and keeps the counter; otherwise it is sent and counted |
| Channels.Channel.ReceiveMessage | src/channel.rs:166-176 | a channel in error gives nothing; otherwise the processor's next message, and it is counted |
| Channels.Channel.PacketData | src/channel.rs:109-120 | the part of the packet and the new state are the processor's |
| Channels.Channel.ProcessPacketData | src/channel.rs:122-133 | a channel in error ignores the messages; otherwise the processor takes them in, or panics |
| Channels.Channel.ProcessAck | src/channel.rs:135-137 | a reliable processor learns of the ack, in error or not; an unreliable one ignores it |
| ConnectionSpec.TurnsTakenAt | src/connection.rs:139-157 | no channel's turn touches another channel: each fills its part knowing only the bits that are left |
| ConnectionSpec.GenerateTakesAllTurns | src/connection.rs:124-168 | turn after turn gives the packet and channels that the pointwise specification says |
| Connections.Connection.constructor | src/connection.rs:32-45 | one new channel for each configuration, under its index, all separate, and all in order if the configurations are within the limits |
| ConnectionSpec.AdvanceTimeIsExact | src/connection.rs:47-56 | a channel in error, whichever it is, puts the connection in error; every reliable channel up to the first one in error gets the time, and nothing else changes |
| ConnectionSpec.ResetIsNew | src/connection.rs:170-175 | after a reset a connection is a new one, but for the times of its channels, whatever it was before; after the next time it is a new one at that time |
| Connections.Connection.AdvanceTime | src/connection.rs:47-56 | time passes for the channels up to the first one in error, and the connection is in error if and only if it was or some channel is |
| Connections.Connection.ProcessAcks | src/connection.rs:62-68 | every channel learns of every ack, in order, or the program panics on one seen before; `Acks.AckListIsSteps` and `Acks.AckListIsExact` say what a list comes to |
| Connections.Connection.ProcessPacket | src/connection.rs:70-115 | for every input: refused in error, a panic on malformed input, and otherwise the entries handed to their channels until one is in error |
| Connections.Connection.GeneratePacket | src/connection.rs:124-168 | the buffer starts with the encoding of what the channels gave and the rest is unchanged; the program panics exactly when a subtraction underflows, the serializer refuses the packet or it does not fit, and the last two never happen within 256 messages per packet |
| Connections.Connection.Reset | src/connection.rs:170-175 | every channel is reset and the error is gone |
| Connections.Connection.SendMessage | src/connection.rs:189-191 | only that channel changes |
| Connections.Connection.ReceiveMessage | src/connection.rs:193-195 | only that channel changes |
| PacketBudget.PartIsSound | src/connection.rs:140-142 | every channel stays within the bits left, 8 times its budget and its message limit, and reports bits exactly when it has messages |
| PacketBudget.PartIsExact | src/channel/reliable.rs:227-240 | the bits a channel reports are those the serializer needs: measuring, selecting and writing agree |
| PacketBudget.PackedIsAccounted | src/connection.rs:136-157 | at every turn, bits left plus 8 times the bytes written plus 32 for each entry plus 16 is 8 times the buffer |
| PacketBudget.PacketHasEveryPart | src/connection.rs:139-157 | the packet holds for each channel exactly what that channel gave |
| PacketBudget.PacketFits | src/connection.rs:136-163 | a generated packet passes the serializer's assertions and fits the buffer, with 32 bits to spare for each entry |
| PacketBudget.BudgetsNeverUnderflow | src/connection.rs:136-157 | if every budget is at least 4 bytes and the sum of 8 * budget + 32 is at most 8 * buffer - 16, nothing underflows, whatever the channels hold |
| Headroom.NeverUnderflowsIff | src/connection.rs:136-157 | for any number of channels and messages of every size from a least one on: no state that two connections can reach underflows if and only if every channel in turn leaves room for headers after whatever the channels before it may take |
| Headroom.EveryChannelLeavesHeaderRoom | src/connection.rs:136-157 | so every channel must leave room for headers in the whole buffer |
| Headroom.OneWithoutBudgetUnderflows | src/config.rs:151-152 | with one channel without a budget two connections get to where the next packet underflows |
| Headroom.DefaultConfigUnderflows | src/config.rs:76-84 | two connections with one default channel and the default packet size do, with any message of 8184 bytes |
| Headroom.AloneNeverUnderflowsIff | src/connection.rs:137-154 | connections with one channel never underflow if and only if its configuration leaves room for the headers |
| PacketRules.RoomIsWhatIsLeft | src/connection.rs:136-157 | the bits left at a channel's turn are 8 times the buffer, less 16, less the bytes of the entries before it, less 32 for each of them |
| PacketRules.ReliablePartIsExact | src/connection.rs:139-157 | what a packet has for a reliable channel, in plain numbers: which messages, under which ids, in which order |
| PacketRules.OldestGoesOut | src/channel/reliable.rs:94-151 | the oldest unacked message is first in it when its resend time has passed, and 64 bits and its own bits are left of packet and budget |
| PacketRules.UnreliablePartIsExact | src/connection.rs:139-157 | what a packet has for an unreliable channel and what stays queued, in plain numbers, all under the packet's number |
| PacketRules.FirstGoesOut | src/channel/unreliable.rs:84-113 | the first queued message is first in it when 64 bits and its own bits are left of packet and budget |
| PacketRules.PartKeepsToItsShare | src/connection.rs:139-157 | the bytes of a channel's entry fit the bits left and its budget, and it keeps to its message limit |
| PacketRules.GenerateUnderflowsIff | src/connection.rs:136-157 | generating a packet underflows if and only if the buffer has no room for 16 bits, or at some turn fewer than 32 bits are left, or budgeted, for outstanding messages, or the entry and 32 bits do not fit |
| Isolation.DirectionFrame | src/connection.rs:62-112 | what one end does as a receiver does not disturb what it sends, and the other way round |
| Isolation.AckIsFresh | src/connection.rs:62-68 | an ack that is due makes no channel panic |
| Isolation.AckOnChannel | src/connection.rs:62-68 | an ack of a shared packet is, for each reliable channel, the ack step of its own protocol |
| Isolation.GenerateOnChannel | src/connection.rs:139-157 | generating a shared packet is, for each reliable channel, the generate step of its own protocol with the bits that are left at its turn |
| Isolation.ReadEntriesByChannel | src/connection.rs:94-112 | taking in a packet is, for each channel, taking in its part; if it is refused, some channels took theirs in and the others did not |
| Isolation.ArrivalByChannel | src/connection.rs:70-115 | what arrives for a channel is what was sent for it, but for the ids of unreliable messages |
| Isolation.DeliveryOutcome | src/connection.rs:70-115 | a packet that arrives decodes to what was sent and is routed by channel index |
| Deliveries.ReadingIsExact | src/connection.rs:94-114 | only the channels that a packet has messages for matter, and the first one that is in error or panics decides between refusal and panic |
| Deliveries.DeliveryIsExact | src/connection.rs:70-115 | in every reachable state exactly when a packet is accepted, refused or a panic, which channels are handed their messages, and whether it will be acked |
| Histories.PacketsAreGenuine | src/connection.rs:124-168 | every packet an end ever made is the encoding of its data, and has for a reliable channel messages accepted on it, under the 16-bit forms of their numbers |
| Histories.MessagesWait | src/channel/reliable.rs:127-142 | no message of a reliable channel is in two packets of a run unless the resend time passed from the one to the other |
| Histories.NextPacketIsExact | src/channel/reliable.rs:94-151 | in every reachable state the next packet carries a message if and only if it is unacked, in the window, was in no packet within its resend time, and has room at its turn |
| Histories.NotBeforeItsTime | src/channel/reliable.rs:127-142 | so a message that was sent is in no packet before its resend time has passed |
| Acks.AckIsExact | src/channel/reliable.rs:318-345 | a due ack takes exactly the messages of its own packet out of the send queue, or nothing if the packet is not recorded |
| Acks.RecentAckCounts | src/channel/reliable.rs:174-190 | and a packet whose number the ring took is recorded as long as it is among the last ones, so no such ack is wasted |
| Acks.AckListIsSteps | src/connection.rs:62-68 | in every reachable state a list of due acks is processed without a panic, and brings the connection where the single acks bring it, one after the other |
| Acks.AckListIsExact | src/connection.rs:62-68 | it takes out of the send queue of each reliable channel exactly the messages of the recorded packets in the list, and marks each of those as acked |
| Calls.CountersCount | src/channel.rs:151-176 | in every reachable state the counters are the numbers of messages the user sent and got, and the i-th message of a reliable channel came under the 16-bit form of i |
| Calls.ErrorStays | src/channel.rs:151-176 | a channel in error stays in that error over every run, takes nothing from its user and gives nothing |
| Calls.StoppedStays | src/connection.rs:70-78 | a connection in error takes in no packet over every run: no channel is handed anything and no packet is marked as processed |
| Calls.FullQueueEndsTheConnection | src/connection.rs:47-56 | once a message was sent to a full queue, nothing more is taken or given on that channel, and once time has advanced too, every later packet is refused and never acked |
| Calls.ResetStartsAnew | src/connection.rs:170-175 | two connections that are reset at both ends start again as two new ones, so that all the theorems about runs hold again |
| Guarantees.StepSimulated | src/connection.rs:47-195 | every step of two connections and the network is, for every reliable channel and direction, one step of the protocol of that channel alone, or none |
| Guarantees.LaneFollowsProtocol | src/connection.rs:47-195 | so in every state that two connections can reach, each reliable channel, in each direction, is where a run of its own protocol gets to |
| Guarantees.ReliableDeliversPrefix | src/connection.rs:343-409 | each reliable channel, in each direction, delivers a prefix of what was accepted on it, through encoding, routing, shared packets and shared acks |
| Guarantees.ReliableLosesNothing | src/connection.rs:62-112 | no message of a reliable channel is lost: no ack takes it away before the other end has it |
| Guarantees.UnreliableGivesPackets | src/channel/unreliable.rs:84-135 | every packet an end made holds the accepted messages of its batch; every message went into at most one packet, and packets take messages in the order they were sent; what the other user got, and what waits, are the first messages of the packets that came, each under the 16-bit number of its packet, packet after packet |
| Guarantees.UnreliableAtMostOnce | src/channel/unreliable.rs:84-135 | so what the user got are messages accepted on that channel, none twice if no packet came twice, and in the order they were sent if packets came in order |
| Guarantees.AcksNeverPanic | src/connection.rs:62-68 | no reachable state panics on an ack that is due |
| Guarantees.BudgetedNeverPanics | src/connection.rs:136-163 | with budgets that fit, no reachable state panics when it generates a packet |
| Guarantees.DrainedEndAccepts | src/connection.rs:94-114 | an end whose user took all messages takes in the next packet: no panic, no refusal, and it will be acked |
| ConnectionProgress.AckMovesOldest | src/connection.rs:62-68 | the ack of a shared packet that carries a channel's oldest message moves that channel's oldest id forward, whatever the other channels do |
| ConnectionProgress.RoundMakesProgress | src/connection.rs:62-168 | when the other user has taken all messages, a round of generate, deliver and ack can happen, and every reliable channel whose oldest message was due and fitted into the room left at its turn, and whose ring took the packet number, has strictly fewer messages outstanding |
| ConnectionDelivery.RoundGoesOn | src/connection.rs:47-195 | from every reachable state at rest the round of a good plan (wait, generate, deliver, ack, receive) can happen, nothing comes to be wrong, and every reliable channel that had its turn has strictly fewer messages outstanding |
| ConnectionDelivery.RoundsDeliverEverything | src/connection.rs:47-195 | whatever the plans, as long as each is good in the state it finds: as many rounds as messages are outstanding empty every reliable channel, and the other user gets all that was accepted |
| ConnectionDelivery.BudgetedRounds | src/connection.rs:47-195 | with budgets that fit the buffer, messages that fit their budget and packet numbers near those recorded there always are such plans, no more than the longest queue has messages outstanding |

## Left out

- Sockets, handshakes, encryption and fragmentation (`src/client.rs`, `src/server.rs`, `src/bindings.rs`): the packet
  endpoint is modelled as the source of fresh packet numbers and of acks; its own window of recent packets is not modelled.
- `src/network_simulator.rs`: the network of the model already does everything it can do.
- Logging, block messages, which are not implemented, and the optional check value of `serialize_check`.
- A message serializer that returns an error: writing always succeeds, and a failed read is the program's panic.
- Floating point rounding: time is a real number.
- `VecDeque::capacity` of an unreliable channel may be larger than the configured size; the model uses the configured size.
- `Unreliable::has_messages_to_send` returns `is_empty()`; nothing depends on it and nothing is claimed about it.
- Resets inside a run: the runs of `Protocol` and `ConnectionProtocol` hold none, since one end alone cannot reset without
  losing step with the other. After a reset of both ends a new run begins (`Calls.ResetStartsAnew`).
- Runs with no message per packet, ring sizes that do not divide 65536, or message queues of more than 16384: such
  channels can be built, and nothing more is said of them.
- A build without overflow checks after `available_bits` has wrapped: in the model that end has panicked.
- Debug assertions: `max_messages_per_packet` above 256 is refused by one, and otherwise only by the conversion of the
  message count.
