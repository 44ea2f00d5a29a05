# SUPLA core in Dafny

SUPLA connects devices, clients and servers over a byte stream. This project models the wire stack of `supla-core` and
three smaller cores beside it, and proves what they keep over whole runs.

* **Packets and frames** (`Packets`, `Framing`, `FrameVerdicts`, `Buffers`, `Proto`): a packet travels as a frame, an
  18-byte header that starts with the letters SUPLA, up to 10240 bytes of payload, and the letters again. `Framing`
  says what one pop from received bytes decides, and `FrameVerdicts` when that is an error; it is proved that decoding
  does not depend on how the bytes were split or when pops happen. `Buffers.ByteBuffer` and `Proto.ProtoData` are the
  growing and shrinking heap blocks and the framer, updated in place.
* **Queues and the RPC endpoint** (`PacketQueue`, `Endpoints`, `EndpointFacts`, `Srpc`): packets wait in rows of slots
  that recycle the storage of released packets. `Srpc.SrpcEndpoint` puts framer, queues and the shared scratch packet
  together; each of its methods is proved against the pure function in `Endpoints` that gives the whole new state, and
  `EndpointFacts` says what these functions mean.
* **Runs** (`EndpointRuns`, `Delivery`, `Handover`, `Progress`, `Arrivals`, `RequestIds`, `RunIds`): theorems about
  every run of one endpoint and of two endpoints joined by byte pipes: nothing is lost, doubled, reordered or stuck,
  the output never backs up, iterations fail for exactly four reasons, and two packets share a request id exactly
  after whole periods. The order theorems hold for programs that take packets as they come and for programs like the
  server's, which ask for each packet by the id they are told.
* **Variable-length data** (`Packs`, `PackFacts`, `PackCalls`, `ExtendedValues`, `Codecs`): packs of captioned items,
  several values chained into one, meter and thermostat readings; each decoder is characterised exactly and inverts
  its encoder.
* **Beside the wire** (`Retry`, `OpenClose`, `SafeArray`, `Crc32`): the scheduler's set-and-check machine and its
  gates and valves, the swap-delete array, and the table-driven CRC-32 of section 8 of RFC 1952.

`Bytes` holds bytes, 32-bit numbers and their layout. Integers wrap where the C code's do: the length sum of the framer,
request ids, the meter's size computation, counts read as signed numbers.

`dafny verify dfyconfig.toml` checks everything.

## Where the code and its intent differ

* The size guard of the framer adds 18 to the received `data_size` in 32 bits (`proto.c:304`). For the eighteen largest
  values of the field the sum wraps, and a pop can report success after a handful of bytes. `Framing.PopIsSound` says
  exactly when a pop is sound (the field is below 2^32 - 18), `Framing.WrappedLengthIsTaken` gives the bytes that are
  accepted otherwise. Everything said about streams of encoded packets is free of the condition.
* The meter decoder tests `m_count <= 5` but not `m_count >= 0` (`srpc.c:3476-3499`). A negative count whose product with
  62 wraps to the right size is accepted: `Codecs.NegativeCountDecodes`. `Codecs.MeterDecoderIsExact` and
  `Codecs.DecodedCountIsSensible` give the exact condition.
* Request ids repeat after 2^32 - 1 issues (`proto.c:344-356`), and refused calls use them up too. `RunIds.PendingIdsRepeat`
  says exactly when two waiting packets share an id; `RunIds.IdsMeetInQueue` is a run in which they do.

## Model

| member | source | states |
|---|---|---|
| Packets.HeaderOfEncode | supla-core/supla-common/proto.h:688-695 | every header field of a frame, its payload and both tags stand where the structure puts them, whatever follows the frame |
| Packets.ReadEncode | supla-core/supla-common/proto.h:688-695 | a packet read from its frame is the packet, whatever follows it |
| Packets.EncodeRead | supla-core/supla-common/proto.h:688-695 | re-encoding a packet read from memory gives that memory back, payload and no more, plus the tag |
| Packets.EncodeInjective | supla-core/supla-common/proto.h:688-695 | different packets have different frames |
| Packets.FrameExample | supla-core/supla-common/proto.h:688-695 | a frame, byte by byte: tag, version, ids, call id and size least significant byte first, payload, tag; and the sizes of the structures |
| Framing.NextIsFinal | supla-core/supla-common/proto.c:275-329 | a verdict other than "need more" cannot be changed by bytes that arrive later |
| Framing.NeedMoreIsShort | supla-core/supla-common/proto.c:291-311 | a buffer without a complete frame is shorter than one maximal frame of 10263 bytes |
| Framing.PopIsSound | supla-core/supla-common/proto.c:291-326 | a successful pop consumes exactly 23 + data_size bytes and re-encoding its packet gives those bytes back, if and only if the length field is below 2^32 - 18 |
| Framing.WrappedLengthIsTaken | supla-core/supla-common/proto.c:304-309 | the condition is needed: with a length field of 2^32 - 18 a pop succeeds after five bytes |
| Framing.NextOfEncode | supla-core/supla-common/proto.c:275-329 | in front of any bytes a frame is taken whole if its version is supported and is a version error otherwise |
| Framing.PopRecognisesFrames | supla-core/supla-common/proto.c:275-329 | a pop with an unwrapped length returns packet p if and only if p has a supported version and the buffer begins with its frame |
| Framing.NextOfFrames | supla-core/supla-common/proto.c:275-329 | on any prefix of a stream of frames, a pop takes the first frame once complete, waits before that, and never reports a data error |
| Framing.CutsDecode | supla-core/supla-common/proto.c:275-329 | whatever pops have cut off, decoding the whole stream at once gives those frames and then what the rest decodes to |
| Framing.RunsStayInStep | supla-core/supla-common/proto.c:114-160 | after any appends and pops, popping would cut all bytes fed into the frames returned and then the buffer, or the bytes on which the reported error is the verdict |
| Framing.DrainedRun | supla-core/supla-common/proto.c:154-329 | after any drained run the frames returned are those of the reference decoder on the whole stream, with the same end, and frames plus leftover are every byte fed |
| Framing.ChunkingIsIrrelevant | supla-core/supla-common/proto.c:154-329 | two drained runs over the same bytes end in the same state, however the bytes were split and the pops interleaved |
| Framing.PacketStreamsDecode | supla-core/supla-common/proto.c:154-329 | the frames of any packets of supported versions, in any chunks with any pops that do not overflow, come back one by one, in order; the buffer is always the part received and not yet decoded |
| Framing.CutFramesArePackets | supla-core/supla-common/proto.c:275-329 | bytes cut into frames and a tail are the encodings of packets of supported versions and then the tail, exactly if no length field among them wraps |
| Framing.RunsReturnPackets | supla-core/supla-common/proto.c:275-329 | the input of a drained run is the encodings of the packets it returned, of supported versions and in order, and a rest, if and only if no length field in the input wraps the 32-bit sum; the same for a run still going on, with its buffer |
| FrameVerdicts.VerdictIsExact | supla-core/supla-common/proto.c:275-329 | a pop reports an error if and only if the bytes it has looked at (none, the tag, the header, or the whole frame, as far as they are there) begin no frame of a packet of a supported version, and succeeds if and only if they are one |
| FrameVerdicts.PopRejects | supla-core/supla-common/proto.c:283-321 | five bytes that are not the tag, a length over 10240 and a wrong closing tag are data errors, a version out of range is a version error that names it, each as soon as its bytes are there and whatever follows |
| FrameVerdicts.WrappedVerdict | supla-core/supla-common/proto.c:304-321 | with a length field that wraps the sum the verdict falls at once, by the five bytes where the sum points |
| FrameVerdicts.WaitingCanSucceed | supla-core/supla-common/proto.c:304-311 | a pop that waits with the header there, before any byte of the closing tag, can be satisfied by some bytes |
| Buffers.ByteBuffer.constructor | supla-core/supla-common/proto.c:91-100 | a new buffer is valid and empty |
| Buffers.ByteBuffer.Append | supla-core/supla-common/proto.c:114-152 | appending succeeds exactly if used bytes plus new bytes stay below the maximum; then they stand behind the old ones, else nothing changes; the block keeps its size invariant |
| Buffers.ByteBuffer.Shift | supla-core/supla-common/proto.c:195-200 | the shifting loop moves the bytes behind the first n to the front, in place |
| Buffers.ByteBuffer.DropFront | supla-core/supla-common/proto.c:240-273 | dropping n bytes leaves exactly the others, and the block shrinks to fit |
| Proto.ReadImage | supla-core/supla-common/proto.c:344-379 | a packet built in zeroed memory reads back as that packet |
| Proto.WithData | supla-core/supla-common/proto.c:368-379 | any packet with another payload and call id: those fields read back, tag, version, request id and the bytes behind the payload stay |
| Proto.FieldWrites | supla-core/supla-common/proto.c:368-379 | writing payload, data_size and call_id into any packet, in that order, has that effect |
| Proto.WithDataOfImage | supla-core/supla-common/proto.c:344-379 | on a freshly stamped packet it gives the image of the packet called for |
| Proto.SetData | supla-core/supla-common/proto.c:368-379 | payload and call id are stored exactly if the size is at most 10240 and no null pointer has a size; otherwise the packet is unchanged |
| Proto.ProtoData.constructor | supla-core/supla-common/proto.c:91-100 | a new framer has empty buffers, id 0 and the newest version |
| Proto.ProtoData.OutAppend | supla-core/supla-common/proto.c:162-180 | the image and the closing tag are appended, or the result code says which of the two appends did not fit and what remained |
| Proto.ProtoData.PopOut | supla-core/supla-common/proto.c:182-222 | the bytes popped and the bytes left are the old output, cut at the buffer size |
| Proto.ProtoData.InAppend | supla-core/supla-common/proto.c:154-160 | received bytes are appended, or nothing changes if they reach the limit; a seen opening tag stays seen |
| Proto.ProtoData.ShrinkIn | supla-core/supla-common/proto.c:240-273 | the first bytes are dropped and the tag flag is cleared |
| Proto.ProtoData.PopInSdp | supla-core/supla-common/proto.c:275-329 | the pop does what `Next` decides, consumes the frame on success, nothing while waiting, everything on an error; the tag flag always means five bytes that are the tag, so the subtraction cannot underflow and the guard on the block size never decides |
| Proto.ProtoData.SetVersion | supla-core/supla-common/proto.c:331-338 | an unsupported version selects the newest one |
| Proto.ProtoData.SdpInit | supla-core/supla-common/proto.c:344-356 | the packet is cleared and stamped with tag, the next nonzero id and the version |
| Proto.Follow | supla-core/supla-common/proto.c:154-329 | one append or pop on the framer, with its buffer updated in place, is one step of the decoder |
| Proto.FollowAll | supla-core/supla-common/proto.c:154-329 | any schedule of appends and pops on a new framer, until one fails, is a run of the decoder, so all that is proved about runs holds of the framer |
| PacketQueue.FirstMatch | supla-core/supla-common/srpc.c:204-211 | the packet chosen is the first one with the id, or the first of all for id 0 |
| PacketQueue.Fill | supla-core/supla-common/srpc.c:186-194 | filling the next slot, with spare or new storage, keeps all storage distinct |
| PacketQueue.RotateKeepsStorage | supla-core/supla-common/srpc.c:213-225 | closing the gap and keeping or freeing the storage behind it keeps all storage distinct, and loses exactly what was freed |
| PacketQueue.Queue.constructor | supla-core/supla-common/srpc.c:83-88 | a new queue is valid and empty |
| PacketQueue.Queue.Provide | supla-core/supla-common/srpc.c:186-191 | the next slot gets storage that no other slot owns, at most one more in all |
| PacketQueue.Queue.Store | supla-core/supla-common/srpc.c:186-198 | the packet stands behind the queued ones, whose storage is untouched |
| PacketQueue.Queue.Push | supla-core/supla-common/srpc.c:181-202 | a packet is copied behind the others exactly if there is room; allocCount grows by one, spare storage of the next slot is used before new is taken; itemCount <= allocCount <= itemCount + minimum, the storage held is at most allocCount and all distinct |
| PacketQueue.Queue.Pop | supla-core/supla-common/srpc.c:204-231 | the first match moves to the scratch packet, the others keep their order, and nothing changes without a match; the storage is freed exactly if allocCount is above the minimum |
| PacketQueue.Queue.Release | supla-core/supla-common/srpc.c:213-225 | the packet in a slot leaves the queue; its storage is freed or kept as spare, within the counters |
| PacketQueue.Queue.ShiftDown | supla-core/supla-common/srpc.c:219-225 | the shifting loop moves the used slots down by one |
| Srpc.SrpcEndpoint.constructor | supla-core/supla-common/srpc.c:115-140 | a new endpoint has empty buffers and queues |
| Srpc.SrpcEndpoint.AsyncCall | supla-core/supla-common/srpc.c:1875-1919 | the whole new state of a call; an accepted packet carries the version asked for, or else the endpoint's, the call id and the payload; the result is the new id if the packet was queued, and 0 if and only if it was refused |
| Srpc.SrpcEndpoint.GetData | supla-core/supla-common/srpc.c:817-826 | taking a packet by id removes the first match from the in-queue and nothing else changes |
| Srpc.SrpcEndpoint.SetProtoVersion | supla-core/supla-common/srpc.c:1942-1950 | only the version changes |
| Srpc.SrpcEndpoint.PerformAll | supla-core/supla-common/srpc.c:343-348 | what a callback does, as a list of operations, has the effect of `ApplyAll` |
| Srpc.SrpcEndpoint.PopPacket | supla-core/supla-common/srpc.c:332-336 | a pop changes the input and the scratch packet only, and tells whether bytes are left |
| Srpc.SrpcEndpoint.ReceiveHalf | supla-core/supla-common/srpc.c:319-380 | the receiving half of an iteration: at most one packet decoded and queued; fails on a closed connection, an overflow, an error or a full in-queue; tells whether the callback for the packet or for a version error is called |
| Srpc.SrpcEndpoint.SendHalf | supla-core/supla-common/srpc.c:382-395 | the sending half: the head of the out-queue is framed and the output written |
| Srpc.SrpcEndpoint.Iterate | supla-core/supla-common/srpc.c:309-413 | the object's iteration has exactly the state, result, bytes written and event of `Endpoints.Iterate`; on a closed connection it fails and touches nothing |
| Srpc.SrpcEndpoint.DrainInput | supla-core/supla-common/srpc.c:434-462 | the inner device loop ends and equals `Endpoints.Drain`, whatever the callbacks do |
| Srpc.SrpcEndpoint.IterateDevice | supla-core/supla-common/srpc.c:416-470 | the object's device iteration equals `Endpoints.IterateDevice`; on a closed connection it fails, with nothing to read it succeeds, and both touch nothing |
| EndpointFacts.CallSays | supla-core/supla-common/srpc.c:1875-1919 | a call is accepted if and only if the version reaches the minimum, the payload exists and is at most 10240 bytes, and the out-queue has room; the packet, behind those that wait, carries the version named or else the endpoint's, the call id and the bytes |
| EndpointFacts.VersionIsUsed | supla-core/supla-common/proto.c:331-338 | the version set is the version of the calls that follow; an unsupported one selects 28 |
| EndpointFacts.GetDataSays | supla-core/supla-common/srpc.c:817-826 | asking for data hands over the first packet that matches, leaves it in the scratch packet, and keeps the others in order; without a match nothing changes |
| EndpointFacts.ClosedEndsIteration | supla-core/supla-common/srpc.c:323-325 | on a closed connection an iteration fails at once: nothing is read, decoded, called back, sent, written or announced |
| EndpointFacts.ClosedEndsDevice | supla-core/supla-common/srpc.c:464-468 | so does the iteration of a device; with nothing to read it succeeds |
| EndpointFacts.FailsExactly | supla-core/supla-common/srpc.c:309-413 | from any state with an empty output, an iteration fails if and only if the connection is closed, the bytes overflow, the stream holds an error, or a packet finds the in-queue full |
| EndpointFacts.WhatFailureLeaves | supla-core/supla-common/srpc.c:323-380 | a failed iteration writes nothing; closing and an overflow change nothing, an error empties the input, a full in-queue drops just that packet; only a version error calls back |
| EndpointFacts.SendSays | supla-core/supla-common/srpc.c:382-395 | the sending half: the head of the out-queue is framed, the output written up to one transfer, and the iteration fails exactly if the frame was too large or its tag had no room |
| EndpointFacts.FramedOrReported | supla-core/supla-common/proto.c:162-180 | a packet is appended with its closing tag, or the result code says which limit was met and what was appended instead |
| EndpointFacts.IterationWrites | supla-core/supla-common/srpc.c:382-395 | an iteration writes the whole frame of the packet that has waited longest, or else of the first one the callback sent |
| EndpointFacts.RaisedExactly | supla-core/supla-common/srpc.c:397-403 | an event is raised if and only if a packet is left to send or bytes are left behind a packet decoded; part of a frame raises nothing |
| EndpointFacts.DrainCallsBack | supla-core/supla-common/srpc.c:434-462 | a device calls its callback once for each packet, in order, and once for a version error, and changes queues, ids and version in no other way |
| EndpointRuns.SendWritesWholeFrame | supla-core/supla-common/srpc.c:382-395 | with room for one maximal frame, neither append overflows, the dequeued packet's whole frame, at most 10263 bytes, is written, and the output is empty again |
| EndpointRuns.OutputNeverBacksUp | supla-core/supla-common/srpc.c:309-413 | the output is empty after every event of every run, whatever bytes arrive and whatever the program does |
| EndpointRuns.NothingStranded | supla-core/supla-common/srpc.c:397-403 | an iteration that succeeds without raising an event leaves no packet queued, no output, and no complete packet or error in the input |
| EndpointRuns.DrainAccounts | supla-core/supla-common/srpc.c:434-462 | the packets a drain passes on carry exactly the frames it cut off the input |
| EndpointRuns.DeviceDecodesEverything | supla-core/supla-common/srpc.c:416-470 | over any device run on any bytes the buffer never overflows, the packets passed on are those of the reference decoder on the whole stream, less than a frame stays buffered, and the run fails if and only if the stream holds an error |
| Delivery.Popping | supla-core/supla-common/proto.c:275-329 | popping at the receiving end of a channel yields the oldest packet on the wire, never a data error, and a version error only for a packet sent with an unsupported version |
| Delivery.Sending | supla-core/supla-common/srpc.c:382-395 | framing the head of the out-queue moves it onto the wire |
| Delivery.StepKeeps | supla-core/supla-common/srpc.c:309-413 | every step of either peer keeps both directions channels: accepted = decoded, then on the wire, then queued |
| Delivery.RunsStayConnected | supla-core/supla-common/srpc.c:309-413 | in every run of two endpoints, with any calls, callbacks and portions read, until an iteration fails, nothing is lost, doubled, reordered or altered |
| Delivery.SendingNeverFails | supla-core/supla-common/srpc.c:382-395 | an iteration that gets through its receiving half succeeds |
| Delivery.WhenIterationsFail | supla-core/supla-common/srpc.c:309-413 | from a connected state an iteration fails if and only if the connection is found closed, or the bytes read overflow the buffer, complete a packet while the in-queue is full, or complete the header of a packet with an unsupported version |
| Handover.RunsHandOver | supla-core/supla-common/srpc.c:204-231 | whatever ids a program asks for, each decoded packet is taken or waits, exactly once; in order if the program takes packets as they come |
| Handover.RunsKeepOrder | supla-core/supla-common/srpc.c:204-231 | whatever ids a program asks for, the packets that wait stand in the order in which they were decoded |
| Handover.PromptRunsCatchUp | supla-core/supla-server/src/conn/connection.cpp:290-296 | a program that asks for each packet when it is told of it, by its id or not, has nothing waiting between events and took exactly what was decoded, in order |
| Handover.PromptProgramsKeepUp | supla-core/supla-server/src/conn/connection.cpp:290-296 | the iterations of such a program fail if and only if the connection is found closed, the buffer overflows or a packet with an unsupported version arrives, never for a full in-queue |
| Handover.ChannelIsFifo | supla-core/supla-common/srpc.c:309-413 | a channel whose receiver takes packets in order is first in, first out |
| Handover.DeliveryIsFifo | supla-core/supla-common/srpc.c:309-413 | for a program that takes packets as they come, and for one that asks for each packet by its id when told of it: the packets taken are a prefix of those accepted; the rest are exactly those in the in-queue, then those in buffer and pipe, then those in the out-queue |
| Progress.SomeStepHelps | supla-core/supla-common/srpc.c:309-413 | while a packet is undelivered some step succeeds and brings one nearer |
| Progress.Deliver | supla-core/supla-common/srpc.c:309-413 | from a healthy connection there are steps, in which the programs only take packets, that deliver everything in one direction |
| Progress.EverythingCanBeDelivered | supla-core/supla-common/srpc.c:309-413 | after any run without a failed iteration or a hang-up, with supported versions and programs of either discipline, the endpoints can be run on, the programs only taking packets, so that every packet accepted at either end arrives at the other, in order |
| Arrivals.CallArrives | supla-core/supla-common/srpc.c:1875-1919 | from end to end: the packet that the other end decodes in the turn of a call reads as the call, with the version it named or else the caller's, the next id, the call id and the payload |
| Progress.ServerIsGenerous | supla-core/supla-common/srpc.c:70-81 | the build constants of the server leave the room that the run theorems ask for |
| RequestIds.IdIsCyclic | supla-core/supla-common/proto.c:344-350 | the ids go round 1, 2, ..., 2^32 - 1 from any starting point |
| RequestIds.IdsRepeatAfterPeriod | supla-core/supla-common/proto.c:344-350 | id 0 is never issued, and two ids are equal exactly if a multiple of 2^32 - 1 issues lies between them |
| RequestIds.ApplyAllLogs | supla-core/supla-common/srpc.c:1898-1918 | accepted packets carry ids issued in the run, in order; each allowed call issues one, accepted or not, and nothing else does |
| RequestIds.AcceptedIdsRepeat | supla-core/supla-common/srpc.c:1898-1918 | over any run of operations, however long, accepted packets never carry id 0, and two carry the same id if and only if a multiple of 2^32 - 1 issues separates them; all differ if no more ids than that are issued |
| RequestIds.IdsMeetAfterRefusals | supla-core/supla-common/srpc.c:1898-1918 | a run of 2^32 calls, most of them refused, gets two packets with the same id accepted |
| RequestIds.PopByIdIsUnique | supla-core/supla-common/srpc.c:204-231 | where queued ids differ, popping one leaves no other packet with it |
| RunIds.RunLogs | supla-core/supla-common/srpc.c:1898-1918 | over any run of two endpoints, with no bound, one peer's accepted packets carry the ids it issued, in order |
| RunIds.DecodedIdsRepeat | supla-core/supla-common/proto.c:344-356 | over every run, through any number of wrap-arounds, two packets decoded at the other end share an id if and only if a multiple of 2^32 - 1 issues separates them, and none has id 0 |
| RunIds.PendingIdsRepeat | supla-core/supla-common/srpc.c:204-231 | the same if and only if for the packets that wait in the other in-queue, whatever was taken before |
| RunIds.PendingIdsDiffer | supla-core/supla-common/srpc.c:204-231 | as long as no more than 2^32 - 1 ids are issued, the packets that wait have different ids, never 0 |
| RunIds.IdsMeetInQueue | supla-core/supla-common/srpc.c:204-231 | the limit is needed: a run of two endpoints after which two packets with the same id wait in one in-queue |
| Packs.Kept | supla-core/supla-common/srpc.c:2735-2750 | the items kept are well-formed on the wire, and no more than there were |
| Packs.ParseIsSound | supla-core/supla-common/srpc.c:515-535 | the items read lie one after the other behind the header |
| Packs.ParseFinds | supla-core/supla-common/srpc.c:515-535 | well-formed items behind the header are all found, whatever follows them |
| Packs.DecoderIsExact | supla-core/supla-common/srpc.c:497-541 | a pack is accepted if and only if its size lies between header and structure, the signed count between 0 and the maximum, and that many well-formed items follow the header |
| Packs.PackRoundTrip | supla-core/supla-common/srpc.c:2708-2757 | decoding an encoded pack gives the header with adjusted count, and in order exactly the items whose caption size is in range, zeroed behind their captions; the encoding fits the structure |
| Packs.PacksAreNeverRefused | supla-core/supla-common/proto_check.cpp:41-251 | for the ten pack types the parts make up the structure and no encoding exceeds the payload limit |
| Packs.CopyKept | supla-core/supla-common/srpc.c:2727-2750 | the copying loop yields the header and the wire forms of the items kept, and counts them |
| Packs.SetPack | supla-core/supla-common/srpc.c:2708-2757 | a pack is encoded exactly if its count is 1..max |
| Packs.ReadItem | supla-core/supla-common/srpc.c:516-534 | one pass of the reading loop takes an item exactly if it lies complete within the data, and stores it over zeros |
| Packs.ReadItems | supla-core/supla-common/srpc.c:515-535 | the loop reads the items that parsing finds; all of them if and only if parsing succeeds, and the offset never passes the data |
| Packs.GetPack | supla-core/supla-common/srpc.c:484-542 | the method decodes as `DecodePack` says |
| PackFacts.CaptionSizeStands | supla-core/supla-common/srpc.c:484-542 | the size of a caption stands right before it, in two or four bytes, least significant first |
| PackFacts.KeptIsExact | supla-core/supla-common/srpc.c:2735-2750 | exactly the items whose caption size does not exceed the maximum are kept, in order, each cut behind its caption |
| PackFacts.PaddedIsZeroBehind | supla-core/supla-common/srpc.c:512-525 | an item rebuilt is what was received, then zeros up to its full size |
| PackFacts.PackReencodes | supla-core/supla-common/srpc.c:484-542 | on any data that decode, encoding the pack decoded gives back the data up to the bytes behind the last item |
| PackCalls.SendPack | supla-core/supla-common/srpc.c:2708-2757 | a pack is sent as the call that carries its encoding; nothing changes if the count is out of range; the result is 0 if and only if nothing was queued |
| PackCalls.TakePack | supla-core/supla-common/srpc.c:484-542 | a pack is rebuilt from the payload exactly if it decodes, and then the packet's data_size is cleared and nothing else changed |
| PackCalls.PackCallIsAccepted | supla-core/supla-common/srpc.c:2708-2757 | for the ten pack types a send is accepted if and only if the version allows the call and the out-queue has room, whatever the pack holds |
| PackCalls.PackArrives | supla-core/supla-common/srpc.c:2708-2757 | wherever the packet of an accepted pack arrives, it carries the call id and the sender's version, and decoding it gives the adjusted header and exactly the items in range, zeroed behind their captions |
| ExtendedValues.AddStaysInBounds | supla-core/supla-common/srpc.c:3757-3801 | with sizes up to 1024 no addition copies beyond its structures, and none yields a larger size |
| ExtendedValues.AddToNothing | supla-core/supla-common/srpc.c:3763-3770 | a value without type or size is refused and changes nothing; a value added to an empty one replaces it |
| ExtendedValues.MemorySays | supla-core/supla-common/proto_check.cpp:345 | how an extended value lies in memory: type, size least significant byte first, value, 1029 bytes in all |
| ExtendedValues.AddExtends | supla-core/supla-common/srpc.c:3757-3801 | adding to a chain succeeds exactly if it is the first value or all fit with their 5-byte headers; a failed addition changes nothing, also where a single value would have become a chain |
| ExtendedValues.SeekFinds | supla-core/supla-common/srpc.c:3814-3837 | walking k entries reaches the k-th value, or the end |
| ExtendedValues.GetSays | supla-core/supla-common/srpc.c:3803-3845 | what is read where nothing was chained: nothing from a value without type, a single value as number 0, and nothing from a chain whose first entry is broken |
| ExtendedValues.GetReturnsAdded | supla-core/supla-common/srpc.c:3803-3845 | value i of a chain is read back with its type, size and bytes; nothing is read past the end |
| ExtendedValues.ChainHoldsWhatFits | supla-core/supla-common/srpc.c:3757-3845 | a list of values can be added one by one if and only if it has at most one value or fits 1024 bytes with its headers, and then every value reads back |
| ExtendedValues.ExtendedValue.ValueAdd | supla-core/supla-common/srpc.c:3757-3801 | the object is updated in place as `Add` says, through the recursion |
| ExtendedValues.ExtendedValue.ValueGet | supla-core/supla-common/srpc.c:3803-3845 | the loop copies what `Get` finds into the destination, header and value bytes only |
| Codecs.MeterRoundTrip | supla-core/supla-common/srpc.c:3455-3499 | a reading is encoded exactly if its count is 0..5, and decoding gives it back with the unused measurements zeroed |
| Codecs.MeterDecoderIsExact | supla-core/supla-common/srpc.c:3476-3499 | which values decode: sizes 144 + 62 * count; sizes that cut the count field short never; negative counts where the product wraps to the size |
| Codecs.MeterDecodesTo | supla-core/supla-common/srpc.c:3476-3499 | a value decodes to its bytes, and zeros where it has none |
| Codecs.MeterEncodingSays | supla-core/supla-common/srpc.c:3455-3474 | an encoded reading has type 14, 144 bytes and 62 for each measurement in use, and zeros behind them |
| Codecs.CountStands | supla-core/supla-common/srpc.c:3486 | the count is a signed number, least significant byte first, at offset 140 |
| Codecs.DecodedCountIsSensible | supla-core/supla-common/srpc.c:3476-3499 | a decoded reading has a count of 0..5 that fits its size if and only if its count field is not negative |
| Codecs.NegativeCountDecodes | supla-core/supla-common/srpc.c:3476-3499 | a value with count -2^31 is accepted |
| Codecs.ThermostatSizeIsExact | supla-core/supla-common/srpc.c:3686-3724 | the encoding ends right behind the last part in use |
| Codecs.ThermostatDecoderIsExact | supla-core/supla-common/srpc.c:3672-3684 | a value decodes if and only if its type is 30 and its size between 1 and 246, to its bytes and zeros |
| Codecs.ThermostatEncodingSays | supla-core/supla-common/srpc.c:3686-3724 | an encoded reading has type 30, the first bytes of the reading, and zeros behind them |
| Codecs.ThermostatRoundTrip | supla-core/supla-common/srpc.c:3672-3724 | decoding restores the flags and every part in use, the cut tail zeroed |
| SafeArray.Array.Add | supla-core/supla-common/safearray.c:90-115 | the element is put behind the others and its index returned |
| SafeArray.Array.Delete | supla-core/supla-common/safearray.c:117-138 | the last element takes the deleted one's place; an index out of range changes nothing |
| SafeArray.Array.FindIndex | supla-core/supla-common/safearray.c:148-168 | the index of the first occurrence |
| SafeArray.Find | supla-core/supla-common/safearray.c:148-168 | the position found holds the element and none before it does; -1 exactly if it is absent |
| SafeArray.Array.Remove | supla-core/supla-common/safearray.c:140-146 | exactly one occurrence of the element goes |
| SafeArray.Array.Get | supla-core/supla-common/safearray.c:170-185 | the element at an index, nothing out of range |
| SafeArray.Array.Pop | supla-core/supla-common/safearray.c:187-205 | the first element is taken and the others keep their order |
| SafeArray.Array.MoveToBegin | supla-core/supla-common/safearray.c:74-88 | one element moves to the front and the others keep their order |
| SafeArray.Array.Clean | supla-core/supla-common/safearray.c:207-223 | the loop ends with the contents and the tests of `Cleaned` |
| SafeArray.SwapDeletedElements | supla-core/supla-common/safearray.c:127-134 | swap-deletion removes exactly the element at the index |
| SafeArray.SwapDeleted | supla-core/supla-common/safearray.c:127-134 | the last element stands in the gap and all others where they were |
| SafeArray.CleaningIsExact | supla-core/supla-common/safearray.c:207-223 | every original element is tested exactly once, and exactly those that fail the condition are left, each as often as before |
| SafeArray.AddAndPopAreFifo | supla-core/supla-common/safearray.c:90-205 | over any run of additions and pops, what was taken and what is left are what was there and what was added, in order |
| Crc32.TableIsRight | supla-core/supla-common/tools.c:58-101 | each of the 256 table entries is eight bit steps with polynomial 0xEDB88320 on its index |
| Crc32.EightStepsLinear | supla-core/supla-common/tools.c:709-717 | eight bit steps are linear over exclusive or |
| Crc32.TableFeeds | supla-core/supla-common/tools.c:713-715 | one table step is eight bit steps on the register with the byte mixed in |
| Crc32.Register | supla-core/supla-common/tools.c:709-717 | the loop keeps the register of the bit-by-bit computation |
| Crc32.Checksum | supla-core/supla-common/tools.c:709-717 | for every byte sequence the table-driven checksum is the bit-by-bit register of section 8 of RFC 1952, inverted; it is 0 of no bytes, and data followed by their checksum leave the residue 0xdebb20e3 |
| Crc32.Residue | supla-core/supla-common/tools.c:709-717 | the residue law: data followed by the complement of their register, least significant byte first, always leave the same residue |
| Retry.Job.Execute | supla-core/supla-scheduler/src/action.cpp:55-129 | one execution changes the job record as `Executed` says |
| Retry.ExecutionWaits | supla-core/supla-scheduler/src/action.cpp:68-106 | an execution without a result requests exactly one wait, to check or to retry, and has not reached the limit |
| Retry.RunsEndWithOneResult | supla-core/supla-scheduler/src/action.cpp:55-129 | whatever the world answers, a run ends with exactly one result after at most try_limit actions, and its waits add up to full rounds and at most one check |
| Retry.ResultsAreTrue | supla-core/supla-scheduler/src/action.cpp:55-129 | an obstacle seen at the last look is the result; otherwise each of success, cancelled, without confirmation, device unreachable, server unreachable and failure is the result under its exact condition; success exactly if the last look and no earlier one saw the position requested; a retried action is given up only at the limit |
| Retry.RunsKeepTheirTime | supla-core/supla-scheduler/src/action.cpp:131-133 | the waits of a run stay within the announced time if checking comes no later than retrying |
| Retry.TimeBoundIsExact | supla-core/supla-scheduler/src/action.cpp:131-133 | for every policy, every run keeps the announced time if and only if that time is not negative and the wait for a check, where one can follow, fits: before the next try for a retried action, into the whole time for any other |
| OpenClose.ResultSuccess | supla-core/supla-scheduler/src/action_openclose.cpp:97-130 | in terms of the readings: a gate is open unless its sensor reads 1 or does not answer, and closed if it reads 1; a valve goes by its `closed`; the code reported is 3 without a sensor, and 10 for a valve to open that is closed and flooding or closed by hand |
| OpenClose.DoAction | supla-core/supla-scheduler/src/action_openclose.cpp:132-148 | in terms of the readings: what is read, which command is sent and whether, and the result |
| OpenClose.GateSafety | supla-core/supla-scheduler/src/action_openclose.cpp:57-148 | over a whole run with an arbitrarily changing sensor at most four pulses go out; before each, since the previous one or the start, a look at the sensor read 1 or -1, for opening, or something other than 1, for closing |
| OpenClose.OppositesDisagree | supla-core/supla-scheduler/src/action_openclose.cpp:97-130 | no reading satisfies both opening and closing, and one that answers satisfies one of them |
| OpenClose.GatePulses | supla-core/supla-scheduler/src/action_openclose.cpp:57-148 | if the sensor answers, a pulse goes out for every action, four if the job does not succeed, and none exactly if the gate was as requested at the start |
| OpenClose.ValveExecutions | supla-core/supla-scheduler/src/action_openclose.cpp:132-148 | what each execution of a valve job reads and sends |
| OpenClose.PulsesNeedASensor | supla-core/supla-scheduler/src/action_openclose.cpp:144-147 | a pulse goes out only right after the sensor was read and answered |
| OpenClose.ValveSafety | supla-core/supla-scheduler/src/action_openclose.cpp:132-143 | an open command goes out only right after the valve was read and reported neither flooding nor manual closing |
| OpenClose.SuccessMeansSeen | supla-core/supla-scheduler/src/action_openclose.cpp:80-148 | a job reports success exactly if the last look saw what was asked for, in terms of sensor and valve; anything else only after four actions and 235 seconds |
| OpenClose.SupervisedRunsAreShort | supla-core/supla-scheduler/src/action_openclose.cpp:80-95 | gates, garage doors and valves finish with one result after at most four actions and 240 seconds of waiting |
| OpenClose.SupervisedWaits | supla-core/supla-scheduler/src/action_openclose.cpp:80-95 | the time waited is a minute for each full round and 55 seconds for a check; the time announced is 240 seconds |
| OpenClose.CancelledExactly | supla-core/supla-scheduler/src/action_openclose.cpp:31-73 | a job is cancelled if and only if it is neither on a single gate, garage door or valve nor the opening of a lock |
| OpenClose.LocksAreNotChecked | supla-core/supla-scheduler/src/action_openclose.cpp:61-73 | a lock is opened with one command and no waits, and the result tells whether it was sent |

## Left out

- Sockets, TLS, event handlers, logging and threads: reading yields closed, nothing or some bytes; writing takes everything it is given, as the code assumes when it ignores the result (`srpc.c:394`); every operation holds the lock from start to end.
- Allocation failures and the `errno` test after `realloc` (`proto.c:132-141`): memory is always granted.
- Buffers.ByteBuffer.Append: asks that the bytes in use and the new ones stay below 2^32 in number; beyond that the C code's 32-bit size sum wraps around and it writes outside its block.
- Proto.ProtoData.InAppend: asks the same.
- Proto.Follow: asks that no chunk, together with the maximum size, passes 2^32, for the same reason.
- Proto.FollowAll: asks the same of every chunk.
- Srpc.SrpcEndpoint.PerformAll: a callback is a list of calls, takes and version changes at the point where the code releases its lock; one that itself iterates is not modelled.
- Srpc.SrpcEndpoint.AsyncCall: the table of the protocol version each call id demands (`srpc.c:1703-1862`) is not repeated, a call carries its minimum version; the callbacks before a call and on a missing version are not modelled. The ~200 one-line wrappers around it are left out.
- Srpc.SrpcEndpoint.GetData: only the queue pop; the switch that copies each call's payload into a structure is left out, except for packs.
- Packs.SetPack: builds the bytes; the call that queues them is `PackCalls.SendPack`.
- Packs.GetPack: a pack in memory is its header and a list of item structures rather than one block; clearing `data_size` afterwards is in `PackCalls.TakePack`. The relation packs and state packs without captions are left out as easier cases.
- ExtendedValues.ExtendedValue.ValueAdd: asks that the addition stays within the structures (`Add` says when, with all sums 32 bits wide; sizes up to 1024 always do, `ExtendedValues.AddStaysInBounds`); what the C code overwrites otherwise is not modelled.
- ExtendedValues.ExtendedValue.ValueGet: asks that the walk stays within the structure (`Seek` says when, with all sums 32 bits wide); what the C code reads otherwise is not modelled.
- SafeArray.Array.Clean: the condition is a pure function; one with state or effects on the array is not modelled.
- SafeArray.Array.Add: null elements, which the code refuses, are excluded by the element type.
- Retry.Job.Execute: the database and the device link are the record and the answers; rescheduling is executing again with the count one higher.
- Retry.TimeBoundIsExact: waiting times are taken to be non-negative.
- Codecs: meter versions 1 and 2, the impulse counter and the upgrade between versions are easier variants of version 3.
- OpenClose: what a device does with a command, and the partial-shutting and other actions of the scheduler.
- Crc32: the checksum of a null pointer; hashing, encryption and number formatting elsewhere in `tools.c`.
- Build variants without queues or output buffer, the smaller payload limits of device builds, byte order other than little-endian.
- Floating-point conversions, the client library, the web services and the device drivers.
