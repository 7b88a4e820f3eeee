# Bluetooth host transport and support code: model and proofs

This project models, in Dafny 4.11, the parts of the host stack that move packets between the host and a Bluetooth
controller, and the containers they rest on, and proves what they keep over every input and every run.

* **H5, the three-wire UART transport** (Core Specification, Volume 4, Part D): SLIP framing (section 3), packet header
  (section 4), data integrity check (section 5), reliable packets (section 6), link establishment (section 8).
  `Crc` and `H5Frame` are the coding, `H5Control` the control block as functions, `H5Window` its invariant over runs,
  `H5Receiver` and `H5Stream` the incremental decoder, `H5Decoder` what it makes of the bytes between two delimiters, told
  without its states. `H5Link` is two endpoints and a lossy line, `H5Recovery` what repeated transmission achieves on it,
  `H5Delivery` the line made of bytes, `H5EndToEnd` what one upper layer hands over and the other is given, and
  `H5Establishment` how each link control message is answered. `H5Device` is the control block as the program has it, one
  object updated in place by loops over bytes and packets; each of its methods is proved to do what those functions say.
  Buffers are in `RtkBuffer`, queues (circular lists through a header) in `RtbQueue`.
* **ACL fragmentation and reassembly** (Volume 2, Part E, section 5.4.2): `AclFragments` on bytes, `AclReassembly` for any
  fragments at all, `PacketFragmenter` in place.
* **The bounded blocking queue**: `FixedQueue`, a state machine for any number of threads, and `FixedQueueClient`, its runs
  by calls and results.
* **The H4 receiver** (Volume 4, Part A): `H4Stream` and `H4Device`.
* **HCI command flow control** (Volume 2, Part E, section 4.4): `HciFlow` over runs, `HciLayer` in place.
* **The PCM up-sampler**: `UpSampler`.
* **Lists and the hash map**: `OsiList`, `HashMap`.

`Bytes` and `Sequences` hold what several of these share.

`dafny verify dfyconfig.toml` checks all of it.

## How to read it

Where the program changes things in place there is a class whose methods are proved equal to functions on values; the
theorems are about those functions. The functions in turn are held against descriptions that do not use them, with the
bytes and numbers of the protocol written out: `H5Decoder.Spell` and `Whole`, `H5Establishment.Reply`, `H5Link.Handed`,
`AclReassembly.Passed`, `H4Stream.Piece`, `HciFlow.LastReport`, and calls and results in `FixedQueueClient`.

History fields (`hist` in H5, `appended`, `taken`, `removed` in the queue, `accepted`, `sent`, `answered`, `fates` in the
command flow) record what has happened; nothing branches on them.

Parameters stand for what is outside: `stale` for what an allocation leaves in fresh memory, the H4 receiver's `input` and
`failures` for the UART and for allocations that fail, steps of a run for timers, threads and the peer. Elsewhere allocation
succeeds.

Some results are about what the code does rather than what one might expect of it:

* `H5Link.ConfiguredByPacket`: a configuration response is known by two bytes, and the configuration field is read from
  the byte behind them, whether or not the payload has one. In a response of two bytes, such as this code sends itself
  (`H5Link.OwnResponse`), that is the first byte of the check, or without a check what the buffer held before. The
  invariants hold whatever that byte is.
* `H5Recovery.RecoversExactly`: when the window has become smaller than what the peer has accepted and the sender has not
  released, no acknowledgement is found among the packets on their way, and retransmission never gets anywhere.
* `H5Recovery.ArriveSame`: nothing is sent when an acknowledgement opens the window; queued packets wait for the next
  wake-up.
* `H4Device.H4.RecvData`: a packet without payload ends the loop, with bytes that may be waiting; they are read when the
  UART reports again.
* `H5Window.RemoveAckedReleases`: an acknowledgement that arrives after its packets have been taken back releases nothing;
  they are sent again and the peer drops them as out of order.
* `UpSampler.TwoCallsAreOne`: every call of the up-sampler starts its accumulator again, so cutting a stream into calls
  repeats frames unless the first part fills whole output frames.
* `PacketFragmenter.CopyStaysInside`: the projected offset of a continuation has 16 bits; when it wraps, it passes the
  length test, and more is copied than the partial packet has room for.
* `FixedQueue.QueueSafety`: the semaphores are created without their maximum (bluedroid/osi/semaphore.c:26-35); the counts
  stay below it all the same.

## Model

| member | source | states |
|---|---|---|
| H5Link.ReliableDelivery | bluedroid/hci/hci_h5.c:1348-1359 | Two endpoints, a line that loses any packets, any interleaving of sending, timers, both halves of a retransmission round, arrivals and link control: the reliable packets accepted are always a prefix of the commands and data packets handed to the peer to send (`Handed`, told from the steps alone), no packet has been released by acknowledgement before the peer accepted it, and all that have not been released are still there to be sent |
| H5EndToEnd.PassedUpIsHanded | bluedroid/hci/hci_h5.c:997-1025 | From one upper layer to the other: what is passed up, but for events, is a prefix of what was handed over at the other end, in order, without gap, duplicate or invention; and the only event is the one that says that the link is up |
| H5EndToEnd.PassedUpAsBytes | bluedroid/hci/hci_h5.c:1462-1604 | The same of endpoints whose line carries bytes |
| H5EndToEnd.EverythingIsPassedUp | bluedroid/hci/hci_h5.c:1655-1693 | Whatever has been lost, one round on each side and as many exchanges without loss as packets are left bring the other upper layer exactly what was handed over |
| H5EndToEnd.UnreliableGoesOut | bluedroid/hci/hci_h5.c:1013-1018 | A packet of kind 0, 14 or 15 goes out with the next wake-up, right after those queued before it, with its kind and payload |
| H5EndToEnd.ArriveUp | bluedroid/hci/hci_h5.c:1316-1447 | An accepted packet is passed up at once, and nothing else is but the event for an established link |
| H5Establishment.MessageAnswered | bluedroid/hci/hci_h5.c:1098-1160 | In every state of the link and for every message in a packet that is not reliable, as link control packets are: what goes out, the state and the settings of the link, and what is passed up, as the table of literal messages says (`Reply`); the bytes looked at are those of the payload, else of the check, else what the buffer held |
| H5Establishment.ReliableMessageAnswered | bluedroid/hci/hci_h5.c:1348-1447 | A message in a reliable packet is taken likewise, after what waits has gone out, if the packet is the one expected; otherwise it is not looked at |
| H5Establishment.ConversationAnswered | bluedroid/hci/hci_h5.c:1068-1161 | So it is over any sequence of messages |
| H5Establishment.Establishes | bluedroid/hci/hci_h5.c:1102-1138 | From reset, the answers 02 7D and 04 7B cfg establish the link: 03 FC 14 has gone out, the window is cfg mod 8, the check is used exactly if bit 4 of cfg is set, and the upper layer is told |
| H5Decoder.DecodesExactly | bluedroid/hci/hci_h5.c:1462-1604 | Whatever has come before: after a delimiter and bytes without one, a packet is reported if and only if these bytes, unescaped, are a whole packet: the header bytes sum to 255 modulo 256, a reliable packet bears the expected number, the length is the one announced, and a check is the bit-reversed serial CRC; and it is the packet that they stand for |
| H5Decoder.EncodesWhole | bluedroid/hci/hci_h5.c:684-778 | The encoding of every packet is, between two delimiters, such bytes, and they stand for that packet |
| H5Decoder.SlipSpells | bluedroid/hci/hci_h5.c:540-577 | Escaped bytes, read by the four codes, are the bytes that were escaped |
| H5Link.NetApplyValid | bluedroid/hci/hci_h5.c:785-840 | Each single step of the pair keeps the joint invariant: what was accepted, sent and released on both sides, and what every packet still in flight may claim |
| H5Link.RoundRecovers | bluedroid/hci/hci_h5.c:1663-1688 | If everything in flight is lost and one retransmission round then gets through, the peer has accepted every packet that was unacknowledged, or a whole window of them when the window has been renegotiated to less |
| H5Recovery.Recovers | bluedroid/hci/hci_h5.c:1655-1693 | Go-back-N gets everything through: whatever has been lost, after one round on each side and as many exchanges as packets are queued, none with further loss, the peer has accepted everything queued and all of it is released |
| H5Recovery.RecoversExactly | bluedroid/hci/hci_h5.c:785-840 | It does so if and only if the window is open, or nothing is left, and is not smaller than what the peer has and the sender has not released; otherwise no number of rounds and exchanges releases anything |
| H5Recovery.ExchangeProgress | bluedroid/hci/hci_h5.c:1028-1066 | Each exchange without loss (both wake up, everything arrives) releases a whole window, or everything there is |
| H5Recovery.ArriveSame | bluedroid/hci/hci_h5.c:814-840 | An acknowledgement that comes without a reliable packet releases packets but sends none: what is queued waits for the next wake-up |
| H5Link.ConfiguredFrom | bluedroid/hci/hci_h5.c:1121-1138 | A configuration response configures the link from the byte behind its two: the field if the payload has one, else the first byte of the check, else what the buffer held before |
| H5Link.ConfiguredByPacket | bluedroid/hci/hci_h5.c:1121-1138 | The window it sets does not depend on what the buffer held before if and only if the payload has three bytes or the packet has a check |
| H5Link.OwnResponse | bluedroid/hci/hci_h5.c:903-923 | The response that this code sends, 04 7B, sets whatever window the buffer holds |
| H5Link.AcceptedIsNext | bluedroid/hci/hci_h5.c:1508-1520 | A reliable packet in flight whose number is the one expected is the next one of the sender's stream: three bits are enough |
| H5Delivery.StreamDelivers | bluedroid/hci/hci_h5.c:1462-1604 | A stream of encoded in-order HCI packets, cut anywhere and fed to an endpoint between packets, comes out of the receiver as exactly those payloads in order, with the decoder ready for the next packet; checks and flow control escapes on or off |
| H5Delivery.FreshStreamDelivers | bluedroid/hci/hci_h5.c:1783-1826 | So it does out of an endpoint that has just been created |
| H5Delivery.ArrivesAsBytes | bluedroid/hci/hci_h5.c:1474-1601 | Reading the bytes of an encoded packet, between packets, has the effect that the link model gives to the arrival of the packet |
| H5Delivery.ReliableByteDelivery | bluedroid/hci/hci_h5.c:1462-1604 | Two endpoints as they are created, whose line carries encoded bytes read by the decoder: after every run their control blocks are those of the link model, so accepted is a prefix of what was handed to the peer and nothing is released before it is accepted |
| H5Delivery.ReceivePassesUp | bluedroid/hci/hci_h5.c:1348-1447 | An in-sequence HCI packet is appended to the received data and the next number is expected after it |
| H5Stream.PacketRoundTrip | bluedroid/hci/hci_h5.c:684-778 | Encoding and decoding undo each other: fed to an endpoint between packets, whether or not it has seen a delimiter, the encoding of any header and payload of up to 4095 bytes does what that packet means |
| H5Stream.StreamRoundTrip | bluedroid/hci/hci_h5.c:1462-1604 | The same for any number of encoded packets one after the other |
| H5Stream.ChunkIndependence | bluedroid/hci/hci_h5.c:1474-1491 | Receiving two chunks one after the other is receiving their concatenation: the same state, and a packet is reported for the whole exactly when one is reported for a part |
| H5Stream.CompletesSome | bluedroid/hci/hci_h5.c:1474-1604 | A chunk is reported to hold a packet exactly when one is complete before one of its bytes |
| H5Delivery.OthersPassNothingUp | bluedroid/hci/hci_h5.c:1359-1396 | A packet of a kind that is neither HCI nor link control passes nothing up |
| H5Stream.DelimiterResynchronises | bluedroid/hci/hci_h5.c:656-662 | From every reachable receiver state one delimiter leaves the decoder waiting for the start of a packet |
| H5Stream.GarbageThenPacket | bluedroid/hci/hci_h5.c:1474-1601 | After any garbage and one delimiter the next packet is decoded intact |
| H5Window.RunValid | bluedroid/hci/hci_h5.c:940-995 | Over every run of one endpoint, half rounds of retransmission included: at most 7 packets unacknowledged, sequence counter and numbers on record agree, queues are a partition of what was queued, a retransmission is pending for whatever is unacknowledged unless the budget of rounds is spent, window closed until the link is active |
| H5Window.ApplyValid | bluedroid/hci/hci_h5.c:1028-1066 | Each operation of an endpoint keeps that invariant |
| H5Window.UnackNumbering | bluedroid/hci/hci_h5.c:731-737 | The i-th unacknowledged packet was sent under number txseq - |unack| + i modulo 8 |
| H5Window.AckedCountExact | bluedroid/hci/hci_h5.c:797-807 | The backward search gives the one k for which base + k is the acknowledged number, and 0 if there is none |
| H5Window.RemoveAckedReleases | bluedroid/hci/hci_h5.c:814-827 | An acknowledgement of the first a packets releases exactly those, unless they have been taken back for retransmission meanwhile |
| H5Window.RetransferRestores | bluedroid/hci/hci_h5.c:1663-1688 | Retransmission sends the first of the stream again, as many as the window takes, the unacknowledged packets before the others and in order, and keeps the rest of the stream behind them |
| H5Window.RetransferRenumbers | bluedroid/hci/hci_h5.c:1667-1688 | Each packet sent in a round goes out under the number that it had, and a new one under the next |
| H5Window.WakeUpDrains | bluedroid/hci/hci_h5.c:1028-1066 | The send loop ends with nothing unreliable queued, no acknowledgement owed and either nothing reliable queued or the window full; what it sends is given in closed form |
| H5Window.NothingReliableBeforeActive | bluedroid/hci/hci_h5.c:1125-1130 | No reliable packet goes out before the link has been active |
| H5Window.NeverStalls | bluedroid/hci/hci_h5.c:829-832 | In every reachable state unacknowledged packets have the timer armed, the event pending or the budget of rounds used up |
| H5Window.RoundsBounded | bluedroid/hci/hci_h5.c:1657-1690 | From any reachable state, as long as no packet that the receiver takes leaves nothing unacknowledged, the rounds counted before and the rounds made are at most 40, and the counter is exactly their number |
| H5Window.StepCount | bluedroid/hci/hci_h5.c:829-832 | A step makes the counter zero exactly when it takes a packet that leaves nothing unacknowledged; any other adds one for a round and else keeps it |
| H5Window.SpentBudget | bluedroid/hci/hci_h5.c:1657-1693 | With 40 rounds made, the event of the timer is taken and nothing else changes |
| H5Window.TakeBackValid | bluedroid/hci/hci_h5.c:1667-1685 | Taking all unacknowledged packets back keeps the invariant |
| H5Window.ReceiveValid | bluedroid/hci/hci_h5.c:1508-1520 | So does the arrival of any packet whatsoever |
| H5Window.ConfigureValid | bluedroid/hci/hci_h5.c:1125-1138 | So does a configuration response with any window |
| H5Receiver.BufferSuffices | bluedroid/hci/hci_h5.c:1585-1594 | In every receiver state that satisfies the invariant there is room in the buffer for what the header still promises |
| H5Receiver.ConsumeValid | bluedroid/hci/hci_h5.c:1475-1490 | Every byte keeps the receiver invariant: bytes received plus bytes to come are what the header says, and a buffer is there exactly in the header, data and check states |
| H5Receiver.SettleValid | bluedroid/hci/hci_h5.c:1493-1556 | So do the checks between bytes, which come to an end |
| Crc.TableCrcIsSerialCrc | bluedroid/hci/hci_h5.c:493-501 | For every message the nibble table gives the bit-serial reflected CCITT-CRC from 0xffff |
| Crc.TableReverses | bluedroid/hci/hci_h5.c:302-340 | Each of the 256 entries of the table is the reversal of its index |
| Crc.BitRev16Involution | bluedroid/hci/hci_h5.c:343-346 | Reversing 16 bits twice changes nothing |
| Crc.BitRev16MovesBits | bluedroid/hci/hci_h5.c:336-346 | Bit i of the reversal is bit 15 - i |
| H5Stream.CheckAccepted | bluedroid/hci/hci_h5.c:1543-1553 | The two check bytes that the sender puts are exactly what the receiver compares with its own register |
| H5Frame.HeaderRoundTrip | bluedroid/hci/hci_h5.c:724-748 | Every header field survives the header, which passes its own checksum |
| H5Frame.HeaderByteBits | bluedroid/hci/hci_h5.c:111-116 | The shifts and masks of the header fields are the arithmetic used here |
| H5Frame.SlipLeavesOthers | bluedroid/hci/hci_h5.c:540-577 | Bytes that are no delimiter, no escape and, with flow control, no XON or XOFF are left as they are |
| H5Frame.SlipHidesFlowControl | bluedroid/hci/hci_h5.c:540-577 | With out-of-frame flow control no XON or XOFF byte is left inside a packet |
| H5Frame.Encode | bluedroid/hci/hci_h5.c:710-715 | An encoded packet has at most (len + 6) * 2 + 2 bytes |
| H5Control.Dequeue | bluedroid/hci/hci_h5.c:940-995 | A dequeue that emits a packet lowers the work left, one that emits none leaves all as it is, and neither writes history |
| H5Device.H5.constructor | bluedroid/hci/hci_h5.c:1783-1826 | A zeroed control block, decoder waiting for a delimiter |
| H5Device.SlipOneByte | bluedroid/hci/hci_h5.c:540-577 | Appends the escape of the byte in place |
| H5Device.PutAll | bluedroid/hci/hci_h5.c:750-766 | The byte loop appends the escapes of all bytes and carries the CRC of everything put so far |
| H5Device.H5.PreparePkt | bluedroid/hci/hci_h5.c:684-778 | Fills a fresh buffer with exactly the encoding of the packet and advances the counters; a buffer exactly for kinds 0, 1, 2, 4, 14 and 15, reliable exactly for 1, 2 and 4 |
| H5Device.H5.Dequeue | bluedroid/hci/hci_h5.c:940-995 | Acts on queues and counters as the specification function does |
| H5Device.H5.WakeUp | bluedroid/hci/hci_h5.c:1028-1066 | The send loop acts as the specification function does, and the UART gets the encodings of the packets on record |
| H5Device.H5.Enqueue | bluedroid/hci/hci_h5.c:997-1025 | Queues as the specification function does, of which `H5Link.Handed`, `H5EndToEnd.UnreliableGoesOut` and `H5EndToEnd.DroppedAtOnce` say what it takes |
| H5Device.H5.CountAcked | bluedroid/hci/hci_h5.c:797-807 | The backward loop computes the count of the specification |
| H5Device.H5.RemoveAckedPkt | bluedroid/hci/hci_h5.c:785-840 | Releases that many of the oldest packets; stops the timer and starts the count of rounds afresh exactly when none are left |
| H5Device.H5.TakeBackAll | bluedroid/hci/hci_h5.c:1667-1685 | The loop of the retransmission thread prepends the unacknowledged packets and rolls the counter back |
| H5Device.H5.Retransfer | bluedroid/hci/hci_h5.c:1655-1693 | One round of the retransmission thread, after which the event is taken |
| H5Device.H5.TimerFires | bluedroid/hci/hci_h5.c:2223-2233 | The one-shot timer, if armed, is so no longer and raises the event, unless the transport is being shut down |
| H5Device.H5.ProcessCtlPkts | bluedroid/hci/hci_h5.c:1068-1161 | Acts as the specification in each of the three link states; the answer to a request stops its timer and count, and a request sent here starts one |
| H5Device.H5.UnslipOneByte | bluedroid/hci/hci_h5.c:590-665 | Decodes one byte in place: escape state, CRC, count, and the drop on a bad escape |
| H5Device.H5.CompleteRxPkt | bluedroid/hci/hci_h5.c:1316-1451 | A whole packet: acknowledgement, release, link control or delivery |
| H5Device.H5.Recv | bluedroid/hci/hci_h5.c:1462-1604 | For any chunk and any state the loop ends in the state that the byte-by-byte specification gives, and says whether a packet was completed |
| RtkBuffers.RtkBuffer.constructor | bluedroid/hci/bt_skbuff.c:107-148 | An empty buffer with the room asked for after the head room |
| RtkBuffers.RtkBuffer.AddHead | bluedroid/hci/bt_skbuff.c:176-192 | Extends the data into the head room, or refuses |
| RtkBuffers.RtkBuffer.RemoveHead | bluedroid/hci/bt_skbuff.c:200-217 | Drops data from the front, or refuses |
| RtkBuffers.RtkBuffer.AddTail | bluedroid/hci/bt_skbuff.c:225-241 | Extends the data at the end exactly when there is room |
| RtkBuffers.RtkBuffer.RemoveTail | bluedroid/hci/bt_skbuff.c:243-258 | Drops data from the end, or refuses |
| RtbQueue.ListAdd | bluedroid/hci/bt_list.c:67-78 | Links a new entry between two neighbours |
| RtbQueue.ListDeleteNode | bluedroid/hci/bt_list.c:136-144 | Unlinks an entry and links it to itself |
| RtbQueue.Queue.Insert | bluedroid/hci/bt_list.c:91-107 | Keeps the cycle through the header linked both ways without repetition, inserts at the place, counts one more |
| RtbQueue.Queue.RemoveNode | bluedroid/hci/bt_skbuff.c:417-425 | Keeps the cycle, deletes the place, counts one less |
| RtbQueue.Queue.QueueTail | bluedroid/hci/bt_skbuff.c:314-324 | Appends to the sequence |
| RtbQueue.Queue.QueueHead | bluedroid/hci/bt_skbuff.c:331-341 | Prepends to the sequence |
| RtbQueue.Queue.InsertBefore | bluedroid/hci/bt_skbuff.c:350-361 | Inserts before the given buffer |
| RtbQueue.Queue.DequeueHead | bluedroid/hci/bt_skbuff.c:483-500 | Takes the first, or nothing |
| RtbQueue.Queue.DequeueTail | bluedroid/hci/bt_skbuff.c:458-476 | Takes the last, or nothing |
| RtbQueue.Queue.TopQueue | bluedroid/hci/bt_skbuff.c:433-451 | Shows the first, or nothing |
| RtbQueue.Queue.NextNode | bluedroid/hci/bt_skbuff.c:392-409 | Shows the one after, or nothing after the last |
| RtbQueue.Queue.ListIsEmpty | bluedroid/hci/bt_list.c:55-58 | Emptiness by links agrees with the contents |
| RtbQueue.Queue.IsEmpty | bluedroid/hci/bt_skbuff.c:91-98 | Emptiness by length agrees with the contents |
| RtbQueue.Queue.GetQueueLen | bluedroid/hci/bt_skbuff.c:507-512 | The length is the number of entries linked |
| RtbQueue.Queue.EmptyQueue | bluedroid/hci/bt_skbuff.c:518-535 | Takes every buffer off once, in order |
| RtbQueue.TakeBack | bluedroid/hci/hci_h5.c:1667-1685 | Tail of one queue to head of the other until empty prepends the one to the other in order, both queues staying well linked |
| AclFragments.InterleavedRoundTrip | bluedroid/hci/packet_fragmenter.c:72-221 | For any packets, any fragment size and any interleaving of connections: each connection's packets are delivered whole, once and in order, and all of them once it has had as many turns as it has fragments; partial packets are strictly between begun and finished, and none is left for a connection that is done |
| AclFragments.RunProgress | bluedroid/hci/packet_fragmenter.c:87-128 | Every turn of a connection takes exactly one fragment off those it has to send, and other turns take none |
| AclFragments.FragmentsConserve | bluedroid/hci/packet_fragmenter.c:87-128 | Payload sent followed by payload handed back is the payload; every fragment fits and its length field is right; all but the first continue; the budget of segments is kept (`Conserved`) |
| AclFragments.EmitsFragments | bluedroid/hci/packet_fragmenter.c:96-108 | What senders emit one by one there is what fragmentation makes of their packets |
| AclFragments.FragmentBytes | bluedroid/hci/packet_fragmenter.c:93-110 | Byte by byte, the fragment that is sent and what is left: handle, flags, length and data |
| AclFragments.WholeBytes | bluedroid/hci/packet_fragmenter.c:137-171 | Byte by byte, when a packet is one L2CAP packet that starts a connection's data |
| AclReassembly.PassesOnExactly | bluedroid/hci/packet_fragmenter.c:131-221 | For any fragments in any order, orphans, restarts and fragments that are too long among them: what is passed on is what looking back at the last start of the connection says, and a partial packet is kept for exactly the connections that wait for more |
| AclReassembly.StartAgrees | bluedroid/hci/packet_fragmenter.c:154-185 | A start is passed on if it is no shorter than it announces, and else is all that its connection has, whatever was there before |
| AclReassembly.ContinuationAgrees | bluedroid/hci/packet_fragmenter.c:186-216 | A continuation completes the packet, is collected, or is dropped when its connection does not wait for it |
| AclFragments.StepOk | bluedroid/hci/packet_fragmenter.c:154-217 | One fragment of one connection keeps the invariant of all of them |
| AclFragments.TakeFirst | bluedroid/hci/packet_fragmenter.c:171-183 | A first fragment opens a partial packet with its length corrected |
| AclFragments.TakeMiddle | bluedroid/hci/packet_fragmenter.c:193-210 | A further fragment extends it |
| AclFragments.TakeLast | bluedroid/hci/packet_fragmenter.c:212-216 | The last fragment completes the packet as it was |
| AclFragments.MasksAgree | bluedroid/hci/packet_fragmenter.c:32-37 | The masks for boundary flag and handle are the arithmetic used here |
| PacketFragmenter.Fragmenter.FragmentAndDispatch | bluedroid/hci/packet_fragmenter.c:72-129 | In place over the buffer: what is sent is the first fragment, of exactly the data size of the controller that the low byte of the event names, and what is left in the buffer is the rest with a header of its own; budget and hand-back |
| PacketFragmenter.Fragmenter.SendFirst | bluedroid/hci/packet_fragmenter.c:96-108 | Overwriting the header over bytes already sent loses none that are still to be sent |
| PacketFragmenter.RestInPlace | bluedroid/hci/packet_fragmenter.c:101-108 | The bytes after that overwrite are the rest of the packet |
| PacketFragmenter.Fragmenter.DispatchAll | bluedroid/hci/hci_layer.c:255-271 | Dispatching the current packet again until there is none sends the fragments of the specification; none is longer than the controller of the event takes, and all but a last one are exactly that long |
| PacketFragmenter.Fragmenter.ReassembleAndDispatch | bluedroid/hci/packet_fragmenter.c:131-221 | With buffers and headers in place: the partial packets afterwards and what is passed on are those of the specification; one buffer of its own per connection |
| PacketFragmenter.Fragmenter.TakeStart | bluedroid/hci/packet_fragmenter.c:154-185 | A start packet drops an unfinished one, passes through or opens a partial packet |
| PacketFragmenter.Fragmenter.TakeContinuation | bluedroid/hci/packet_fragmenter.c:193-216 | A continuation is cut to what is missing, copied to the end and completes the packet or not |
| PacketFragmenter.CopyStaysInside | bluedroid/hci/packet_fragmenter.c:193-208 | A continuation is copied inside the partial packet if and only if the projected offset does not wrap around 16 bits |
| PacketFragmenter.CopyLeavesThePacket | bluedroid/hci/packet_fragmenter.c:193-208 | It does wrap for 40000 of 65008 bytes and a continuation of 40004 |
| FixedQueue.QueueSafety | bluedroid/osi/fixed_queue.c:133-259 | Any number of threads, any interleaving of semaphore, lock and list operations: list and both semaphores stay within the capacity, no assertion fails, the mutex excludes, dequeues take in append order, every append is in the list, taken or removed exactly once |
| FixedQueue.OnlyFullOrEmptyBlocks | bluedroid/osi/fixed_queue.c:138-161 | When no thread can move, those with something to do wait for room in a full list or for an element of an empty one |
| FixedQueueClient.ResultsAccountFor | bluedroid/osi/fixed_queue.c:133-259 | By calls and results alone, over every interleaving: every call returns what its operation may return, a dequeue that waits always an element; and for every pointer, the calls that brought it in are those that gave it out and those for which it is still in the list, but for calls that have not returned |
| FixedQueueClient.NothingLost | bluedroid/osi/fixed_queue.c:133-259 | When all calls have returned, each pointer has been given out as often as it was brought in, but for what is in the list |
| FixedQueueClient.RefusalsAndPeeks | bluedroid/osi/fixed_queue.c:166-235 | A call that does not wait is refused only when its semaphore is at zero, and changes nothing then; peeking returns the end of the list that it asks for |
| FixedQueueClient.RemovalGivesUp | bluedroid/osi/fixed_queue.c:237-259 | A removal gives up exactly when its pointer is not in the list, or every element is promised to a dequeue |
| FixedQueueClient.OnlyWaitingCallsWait | bluedroid/osi/fixed_queue.c:133-164 | When no call can go on, those that have not returned are enqueues into a full list or dequeues from an empty one, of the kind that waits |
| FixedQueue.DequeueTakesFront | bluedroid/osi/fixed_queue.c:154-163 | In every reachable state a dequeue removes the front of the list as it is at that moment, and keeps its pointer to return it |
| FixedQueue.RemoveTakesFirst | bluedroid/osi/fixed_queue.c:245-251 | An explicit removal that has its token finds its pointer and takes the first element with it |
| FixedQueue.PeekIsCurrent | bluedroid/osi/fixed_queue.c:207-235 | In every reachable state what a peeking thread is about to return is an end of the list as it is now, in ticket order, or nothing just when it is empty |
| FixedQueue.TurnCounts | bluedroid/osi/fixed_queue.c:133-164 | No operation of a thread creates or loses a slot or an element |
| FixedQueue.ListFrontIsSafe | bluedroid/osi/fixed_queue.c:193-199 | A thread that has a token finds an element |
| FixedQueue.RunValid | bluedroid/osi/fixed_queue.c:57-62 | Semaphore counts, list length and what threads hold add up to the capacity over every run |
| UpSampler.Converter.UpSample16s | bluedroid/bta/av/bta_av_sbc.c:155-197 | After the frames carried over, output frame j is source frame floor(j * src / dst); the number of frames written and read, the accumulator and its bound, and that nothing else is written; with room for all, exactly the frames and the accumulator of `Call` |
| UpSampler.Converter.RepeatCarried | bluedroid/bta/av/bta_av_sbc.c:166-172 | The first loop repeats the last frame of the call before as often as the accumulator says |
| UpSampler.Converter.Resample | bluedroid/bta/av/bta_av_sbc.c:174-189 | The second loop in closed form |
| UpSampler.Converter.RepeatFrame | bluedroid/bta/av/bta_av_sbc.c:180-186 | The inner loop repeats a source frame until its span is over |
| UpSampler.Converter.constructor | bluedroid/bta/av/bta_av_sbc.c:67-94 | Accumulator drained, rates kept, divisor by format, for any rates; the invariant when they are within bounds |
| UpSampler.TwoCallsAreOne | bluedroid/bta/av/bta_av_sbc.c:174-193 | Cutting a stream in two calls (`Call`, which `UpSample16s` is proved to show) gives the same frames as one call if and only if the first part fills whole output frames, since every call starts the accumulator again |
| UpSampler.TwoCallsDiffer | bluedroid/bta/av/bta_av_sbc.c:174-193 | One frame and one more, from rate 2 to 3, are not what two frames in one call give |
| H4Device.H4.RecvData | bluedroid/hci/hci_hal_h4.c:421-427 | However the UART splits the bytes, what has been handed up is the packets of the bytes read so far, and what is held is the beginning of the next; data packets go up as 0x1100 and events as 0x1000, without the type byte; it returns when all bytes are read, or right after the first packet without payload, whose read for no byte ends the loop |
| H4Device.H4.ReadPayload | bluedroid/hci/hci_hal_h4.c:331-381 | Allocates once, or waits when it cannot; takes at least one byte if there is one; delivers exactly when the payload is complete, after which nothing is held |
| H4Device.H4.GetHdr | bluedroid/hci/hci_hal_h4.c:248-278 | Takes at least one byte of the header if there is one, and has the header exactly when all of it has come |
| H4Device.H4.GetType | bluedroid/hci/hci_hal_h4.c:222-245 | Takes one byte if there is one: a known type begins a packet, anything else is skipped |
| H4Device.H4.HdlRxPacket | bluedroid/hci/hci_hal_h4.c:623-686 | Hands a packet up, under the number of its type, exactly when its type is one that is received and its length is what its header says |
| H4Stream.ParsesAsMade | bluedroid/hci/hci_hal_h4.c:222-381 | A stream made of data packets, events and any bytes between them that are neither type, and of a packet not yet whole, is framed as exactly those packets with that rest |
| H4Stream.WholeIs | bluedroid/hci/hci_hal_h4.c:248-278 | Byte by byte, what a framed packet is |
| H4Stream.ParseAppend | bluedroid/hci/hci_hal_h4.c:403-427 | What has been parsed is settled, more bytes continue from what was left |
| H4Stream.WholeIsChecked | bluedroid/hci/hci_hal_h4.c:637-675 | Every packet that framing produces passes those checks |
| H4Stream.ParsedAreWhole | bluedroid/hci/hci_hal_h4.c:331-381 | Every packet framed is as long as its header says |
| H4Stream.ParseConcat | bluedroid/hci/hci_hal_h4.c:222-245 | Packets sent back to back are framed as they were sent |
| HciFlow.FlowSafety | bluedroid/hci/hci_layer.c:464-537 | Over every run: credits never negative, no more commands since the last report than it allowed, commands sent in order, every command queued, pending or disposed of, answers matched per opcode in order |
| HciFlow.CreditsAreReported | bluedroid/hci/hci_layer.c:343-367 | From the events alone: the credits left and the commands that cost one and have gone out since the controller gave its last number add up to that number, so no more go out than it allows |
| HciFlow.AcceptedIsHanded | bluedroid/hci/hci_layer.c:276-306 | The commands accepted are those handed in, in order |
| HciFlow.AnsweredInOrder | bluedroid/hci/hci_layer.c:567-589 | For each opcode, the commands answered are the first of those sent with it, one for each answer that came when one was waiting |
| HciFlow.DisposedOnce | bluedroid/hci/hci_layer.c:519-534 | In every reachable state: when no buffer has been handed in twice, each one handed in is in exactly one place, once: queued, pending or disposed of |
| HciFlow.IncomingValid | bluedroid/hci/hci_layer.c:476-507 | An answer keeps all of that, whether or not a command waits for it |
| HciFlow.ReadyValid | bluedroid/hci/hci_layer.c:343-367 | So does sending a command, with or without a credit |
| HciFlow.OnlyWithout | bluedroid/hci/hci_layer.c:572-585 | Removing the oldest entry with an opcode leaves the order for every opcode |
| HciLayer.Host.GetWaitingCommand | bluedroid/hci/hci_layer.c:567-589 | The loop finds and unlinks the oldest entry with the opcode |
| HciLayer.Host.FilterIncomingEvent | bluedroid/hci/hci_layer.c:464-537 | Takes the credits from the event, finds the oldest command with its opcode, says whether that one's buffer is freed here, what becomes of the event (freed, callback, future), posts to the host thread exactly when a command and a credit are there, and leaves the timer running exactly while a command is pending |
| HciLayer.Host.EventCommandReady | bluedroid/hci/hci_layer.c:343-367 | The oldest queued command is sent; it costs a credit and is pending unless it is 0x0C35 |
| HciLayer.Host.SendAvailable | bluedroid/hci/hci_layer.c:255-271 | A packet half sent goes on first, then a command exactly when one is queued and a credit is there, then a data packet |
| HciLayer.Host.TransmitCommand | bluedroid/hci/hci_layer.c:276-306 | Queues the command and posts to the host thread |
| HciLayer.Host.TransmitDownward | bluedroid/hci/hci_layer.c:329-339 | A command is queued as any other, a data packet in its own queue, and the host thread is told: twice for a command |
| HciLayer.Host.constructor | bluedroid/hci/hci_layer.c:162-170 | One credit, nothing queued |
| OsiList.List.Append | bluedroid/osi/list.c:152-176 | Appends; head, tail, length and chain stay consistent |
| OsiList.List.Prepend | bluedroid/osi/list.c:129-150 | Prepends, likewise |
| OsiList.List.InsertAfter | bluedroid/osi/list.c:105-127 | Inserts after a node, likewise |
| OsiList.List.Remove | bluedroid/osi/list.c:178-210 | Removes the first element equal to the pointer and says whether there was one, likewise |
| OsiList.List.Contains | bluedroid/osi/list.c:61-73 | Says whether it is there |
| OsiList.List.Clear | bluedroid/osi/list.c:212-223 | Frees every element once, in order |
| OsiList.List.Front | bluedroid/osi/list.c:81-87 | The first element |
| OsiList.List.Back | bluedroid/osi/list.c:89-95 | The last element |
| HashMap.Table.Set | bluedroid/osi/hash_map.c:132-167 | Updates the abstract map; each key once, in its bucket, and the size is the number of entries |
| HashMap.Table.Erase | bluedroid/osi/hash_map.c:169-184 | Removes the key from the abstract map and says whether it was there |
| HashMap.Table.Get | bluedroid/osi/hash_map.c:186-199 | Agrees with the abstract map |
| HashMap.Table.HasKey | bluedroid/osi/hash_map.c:121-130 | Agrees with the abstract map |
| HashMap.Table.constructor | bluedroid/osi/hash_map.c:84-92 | The empty map |
| HashMap.FindBucketEntry | bluedroid/osi/hash_map.c:249-266 | The loop finds the first entry with the key |
| HashMap.RowSet | bluedroid/osi/hash_map.c:149-166 | Replacing the entry of a key at the end of its bucket is updating the map, and the size grows exactly for a new key |
| HashMap.RowErased | bluedroid/osi/hash_map.c:176-183 | Removing it is removing it from the map |
| HashMap.OncePerTable | bluedroid/osi/hash_map.c:137-147 | Every key is met once in the whole table, in the bucket it hashes to |

## Left out

- Timers, tasks, the UART, vendor code and memory exhaustion outside the H4 receiver. Timers are armed or fired, transmission is a record of bytes.
- Retransmission races: the retransmission thread moves packets without the wake-up mutex. Taking all packets back is one step here and the wake-up after it is another; arrivals may come between.
- SCO packets: `h5_enqueue` drops them, and so does the model.
- Resetting sequence numbers when the link is synchronised again: the code does not reset them, and the theorems hold as it is.
- H5Link.RoundRecovers: one direction, for a round in which nothing is lost; a line that loses everything forever delivers nothing.
- H5Recovery.Recovers: for packets queued at one end (the other is alike), with no link control packet queued, since one may change the window, and the budget of 40 rounds not spent at either end.
- H5EndToEnd.EverythingIsPassedUp: under the conditions of `H5Recovery.Recovers`.
- H5EndToEnd.UnreliableGoesOut: it is sent once; that it arrives is not promised by the protocol.
- AclReassembly.PassesOnExactly: on values; the offsets of the source have 16 bits, and that of a partial packet may wrap only where `PacketFragmenter.CopyStaysInside` says.
- H5Recovery.RecoversExactly: the exact condition is on the window of the sender; that of the peer is taken to be as large as it must be for the peer's own packets.
- H5Delivery.ReliableByteDelivery: the line loses whole packets; that the decoder recovers after damaged bytes is `H5Stream.GarbageThenPacket`.
- H5Device.H5.Recv: the one loop of the source is split into methods for a turn and for a byte.
- The exit event of the retransmission thread, and the handlers of the timers that repeat synchronisation and configuration requests: the timers are started and stopped, what they send is not a step of a run.
- H5Device.H5.CompleteRxPkt: does not intercept the events of a change of the baud rate (bluedroid/hci/hci_h5.c:1177-1311); such an event is passed up like any other.
- H5Delivery.ReceivePassesUp: likewise.
- PacketFragmenter.Fragmenter.ReassembleAndDispatch: asks that the offset after a continuation is below 65536, since beyond that the source writes outside its buffer (`PacketFragmenter.CopyStaysInside` says exactly when), that a start packet holds the L2CAP length, and, as the source asserts, that the ACL length field is right. The read of two bytes after the header of a continuation, whose value is not used, is not modelled.
- PacketFragmenter.Fragmenter.TakeContinuation: asks for an offset below 65536 likewise.
- PacketFragmenter.Fragmenter.FragmentAndDispatch: asks that the controller's data size with the header fits 16 bits, so a size above 65531, with which the sum wraps, is not modelled.
- AclFragments.InterleavedRoundTrip: for fragment data sizes from 2 on, the smallest with which the first fragment holds the L2CAP length.
- Timeouts other than none and forever in `FixedQueue`, freeing the queue, and the callback for a ready queue.
- UpSampler.Converter.UpSample16s: for rates below 2^30, so that the 32-bit accumulator does not wrap (`UpSampler.Int32` is the conversion), and a destination rate not below the source rate, as the file is made for.
- UpSampler.TwoCallsAreOne: for a destination rate not below the source rate, and with room for all frames.
- The three other sample formats of the up-sampler, which write two output samples per source sample and count them in bytes or halves, and the division of byte counts by the frame size.
- H4Device.H4.RecvData: for streams in which no packet is longer than 16 bits can tell (`Parse(...).fits`).
- H4Device.H4.ReadPayload: an allocation may fail any number of times, but not forever; discarding an event instead, which nothing in the source ever asks for, is not modelled.
- Waking the sending thread in the command flow: the methods say when it is told, but only safety is stated over runs. Each handler is one step.
- `hash_map_clear`, which does not reset the size, iteration with callbacks, and freeing callbacks of lists and maps.
- The H5 control block holds its queues as sequences and the fragmenter its partial packets as a map: that the linked queue and the hash map act as a sequence and a map is proved in `RtbQueue` and `HashMap`, and the objects are not put together.
- `RtbCloneBuffer`, `RtbCheckQueueLen` and the mutex of each RTB queue.
- bluedroid/api, the stream state table and its actions, `rtk_parse.c`, configuration files and the small wrappers of the OS layer.
