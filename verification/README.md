# gsocketio: a verified model of the wire stack and its state machines

gsocketio is a Socket.IO v4 server in Go with its own WebSocket framing, Engine.IO transport, packet
codec, rooms and sessions. This project models these layers in Dafny and proves, for all inputs and all
runs, what they promise each other.

From the wire upwards:

- `Bits`, `ByteSeqs`: bytes, masks, big-endian integers, decimal numerals, searching.
- `Frames`: one WebSocket frame (RFC 6455 sections 5.2 and 5.3). The reader accepts exactly the masked
  encodings of legal frames, with any mask and any length form that can hold the length, and reports a
  protocol error or a missing mask on exactly the inputs that break the grammar; a client splits what the
  writer emits into exactly the frames written.
- `Messages`: reassembly and Engine.IO stripping (RFC 6455 sections 5.4 and 5.5). The read loop, a fold
  with carried state over the frames of a byte stream, equals `SpecRead`, which carries no state: it finds
  the first ending frame and concatenates the data frames before it. Which error is returned, and with
  which close code, is decided by that frame alone.
- `Packets`: the Socket.IO text format. What any text decodes to is said by how it is spelled, without a
  parser; and printing and parsing undo each other under exact conditions, both for packets and for texts.
- `Attachments`, `Events`: binary leaves go out to numbered buffers and come back; event packets, from the
  values they are built of to the values at the other end.
- `Sessions`: the receive loop, which holds a binary packet back until its buffers have arrived. When it
  ends, what it waits for and what it dispatches are said of the list of messages, without the loop.
- `Delivery`: the composition. Client bytes that carry a list of packets, however masked, fragmented and
  interleaved with pings, pongs and Engine.IO noise, are dispatched as exactly those packets.
- `Sending`: concurrent sends, background writes and upgrades of one session; packets stay whole.
- `Rooms`, `RoomLocks`: the room manager as a set of (room, member) pairs, and again with one step for each
  critical section.
- `RoomIndex`: the rooms a connection believes it is in, with one step for each critical section of its own
  lock and of the manager's.
- `Registry`, `RegistryLocks`: the connection registry with its room index, one operation after another, and
  its counter, table and entries again with one step for each critical section.
- `Slots`, `Acks`, `Upgrades`, `Heartbeats`: connection slots, acknowledgements, transport upgrades, the
  heartbeat.

Code that changes things in place is modelled by classes and methods whose postconditions equate the new
state with a function of the old one, or with a specification; the properties are lemmas about these
functions. Concurrency is modelled by steps, one for each critical section, and the properties hold after
every run, that is, every list of possible steps.

Things of the libraries are parameters. `Json` is a pair of functions (validity, and the length of the array
a text decodes to) of which only this is assumed: no valid text is empty or starts with a slash, and no text
that decodes to an array starts with a digit. `Acks.Decoder` is a pair of decodings of a text, into a value and
into the texts of an array's elements, which agree. `Config.utf8` is the UTF-8 check, applied to whole
messages. `marshal`, the JSON printer, is any function, and may fail. Go's `int` has 64 bits.

Where the code falls short of what one would expect, the exact condition is proved, or an input that
shows it:

- Encoding what was decoded gives the text back exactly when the text is canonical: no sign or leading zero
  in the count, no spelled-out root, a trimmed namespace with its comma, no leading zero in the id
  (`Packets.PrintsBackExact`, with `Packets.ExplicitRoot` as an instance). It gives the packet back exactly
  when the namespace is trimmed and the text is within the size limit (`Packets.Canonical`).
- Restoring attachments gives the value back exactly when no object of it claims to be a placeholder
  (`Attachments.RestoreExact`).
- One send writes a whole group or nothing, except when the header fits the payload limit and a buffer
  does not (`Sending.SendIsWholeIff`).
- Each transport by itself carries whole groups if and only if no upgrade came after the header of a group and
  before its last buffer (`Sending.TransportsAreWholeIff`). Any group with a buffer can be so split
  (`Sending.UpgradeCanSplit`).
- The limit on all connections is checked without the reservations in flight. It can be exceeded by one less
  than their number, and not by more (`Slots.TotalIsBounded`, `Slots.TotalBoundIsReached`).
- Removing and closing have no guard of their own. The registry agrees afterwards exactly when the connection
  was registered, or, for Close, closed before (`Registry.RemovedConnExact`, `Registry.ClosedExact`). A Close
  after a disconnect makes the count -1 and calls back twice (`Registry.CloseCanBeStray`); in every run the
  count is short by exactly the number of such strays (`Registry.RunIsSound`), and after every interleaving of
  the critical sections by exactly the removals that found no entry (`RegistryLocks.QuietCounts`).
- A join enrols only registered connections exactly if its own is registered, or it does nothing
  (`Registry.JoinEnrolsExact`); a connection that is gone can still join (`Registry.GoneCanJoin`).
- A join is lost exactly when, at its second step, the manager no longer has the room it found, or a leaver
  has found that room empty and is about to drop it (`RoomLocks.JoinLastsIff`, with the two runs
  `RoomLocks.JoinCanBeLost` and `RoomLocks.JoinCanBeDropped`).
- Without ClearRoom, a join makes a member exactly of a named room that is in the connection's set already or
  finds fewer than 100 there (`Registry.JoinMakesMember`). One who joined a room before it was cleared cannot
  join it again (`Registry.ClearedRoomCannotBeRejoined`).
- If no join overlaps a leave of the same room or a teardown of the same connection, a connection's own set has
  every room it is a member of, and if besides no room is cleared and no join is lost, exactly these
  (`RoomIndex.IndexAgrees`). Such a leave, or teardown, between the steps of a join leaves a member that does
  not know it
  (`RoomIndex.JoinCanStraddleLeave`, `RoomIndex.JoinCanStraddleTeardown`).
- The callback of an acknowledgement gets the values of the reply exactly when it is binary: of a plain one
  it gets all but the first, and an error when there is none (`Acks.AckValuesExact`,
  `Acks.PlainAckLosesItsValue`).
- An acknowledgement may have the payload `null` (`Packets.NullAckDecodes`): validation asks for an id and a
  payload that decodes to an array, no more (`Packets.ValidateRules`), and Go decodes `null` to an empty one.

## Model

| member | source | states |
|---|---|---|
| `Frames.ReadFrameExact` | transport/transport.go:312-370 | the reader returns a frame and a rest if and only if the input is a masked encoding of that frame, under some mask and some length form, followed by that rest, and the frame is legal and within the limit |
| `Frames.ProtocolErrorExact` | transport/transport.go:312-370 | the reader reports a protocol error if and only if the input starts with a reserved bit or an unknown opcode, or with an eight-byte length whose top bit is set, or with the header of a fragmented or over-long control frame, whatever follows |
| `Frames.UnmaskedExact` | transport/transport.go:325-331 | the reader reports a missing mask if and only if the opcode is known and the mask bit is not set |
| `Frames.TooLargeExact` | transport/transport.go:350-355 | a payload over the limit is reported if and only if the input starts with a masked header that is legal but for that |
| `Frames.EofExact` | transport/transport.go:312-370 | the end of the input is reported as a plain end if and only if it comes between two reads; inside one it is an unexpected end |
| `Frames.BadControlIsRejected` | transport/transport.go:350-352 | a masked header, in any length form, of a fragmented or over-long control frame is a protocol error whatever follows and whatever the payload limit |
| `Frames.UnmaskedIsRejected` | transport/transport.go:329-331 | so is an unmasked header of a known opcode an error for the missing mask |
| `Frames.ReadMasked` | transport/transport.go:312-370 | reading the masked encoding of a legal frame returns it and consumes exactly its bytes |
| `Frames.XorMaskTwice` | transport/transport.go:365-367 | unmasking undoes masking |
| `Bits.XorForm` | transport/transport.go:366-366 | the exclusive or of the masks, defined by recursion on the bits, is that of the machine on bytes |
| `Bits.LowBitForms` | transport/transport.go:317-321 | the reserved bits and the opcode, defined by division, are what the masks 0x70 and 0x0F select |
| `Bits.LowSevenForm` | transport/transport.go:332-332 | so is the short length what 0x7F selects |
| `Frames.Unmask` | transport/transport.go:365-367 | the loop masks the whole buffer in place |
| `Frames.ReadLength` | transport/transport.go:332-349 | the three length forms, with their short reads and the forbidden top bit |
| `Frames.ReadFrameFrom` | transport/transport.go:312-370 | the reader's result, error and remaining input are those of the function that `ReadFrameExact` characterises |
| `Frames.WriteFrame` | transport/transport.go:371-405 | refuses over-long or unknown control frames without writing; otherwise appends one unmasked frame |
| `Frames.ReadServerWritten` | transport/transport.go:371-405 | a client reads back every frame written, whatever follows it |
| `Frames.WriterUsesShortestForm` | transport/transport.go:378-402 | the writer's length form is the one shortest form that holds the length |
| `Frames.WritableIsLegal` | transport/transport.go:371-374 | of the known opcodes, the writer takes exactly the frames that are legal for the reader |
| `Frames.ReadsHello` | transport/transport.go:312-370 | the bytes of the masked text in section 5.7 of RFC 6455 are read as `Hello` |
| `Frames.WritesExamples` | transport/transport.go:371-405 | the writer writes the bytes of the unmasked examples of that section, in all three length forms |
| `Frames.ClientSeesWrites` | transport/transport.go:371-405 | a client splits a sequence of written frames into exactly those frames, in order |
| `Frames.WritesSplitUniquely` | transport/transport.go:371-405 | two lists of writes with the same bytes are the same list |
| `Messages.ParseSent` | transport/transport.go:195-202 | the bytes of any sendable frames, followed by anything, parse to those frames and then the rest |
| `Messages.ReadIsSpec` | transport/transport.go:191-267 | the read loop returns the first message that survives stripping, as the concatenation of its fragments, or the error of the first bad frame, as `SpecRead` finds them without carried state |
| `Messages.OutOfSequenceIsRejected` | transport/transport.go:215-248 | a continuation of nothing, or a new message inside another, is a protocol error with close code 1002 |
| `Messages.WellSequencedIsAccepted` | transport/transport.go:191-267 | frames that follow the fragmentation grammar, and complete only texts that pass the UTF-8 check, are never rejected as a protocol error |
| `Messages.ErrorsExact` | transport/transport.go:191-267 | the error returned, or none, and the close code sent are those of the verdict on the first ending frame after the messages that leave nothing, or on the end of the stream; without a code the connection is not hung up |
| `Messages.ProtocolErrorIff` | transport/transport.go:195-248 | a protocol error is returned if and only if that frame is a data frame out of sequence or completes an invalid text, or the stream ends in one |
| `Messages.ViolationIsRejected` | transport/transport.go:195-202 | bytes that break the grammar of frames, after frames that decide nothing, end reading with a protocol error, or that for a missing mask, and with close code 1002 |
| `Messages.ReadCarried` | transport/transport.go:215-266 | a message in any fragments with pings and pongs between them is finished as their concatenation, and what follows is untouched |
| `Messages.ReadReturns` | transport/transport.go:215-266 | such a message is returned as it is if binary, stripped if a valid text that leaves something, skipped if it leaves nothing, and rejected with close code 1007 if an invalid text; the replies are those to the pings and pongs inside it and then those of stripping |
| `Messages.CloseIsEchoed` | transport/transport.go:211-213 | if a frame that ends a read is a close frame, the read returns its payload with the end of input, and the reply is a close frame with the same payload, after the replies to the frames before it |
| `Messages.ControlIsAnswered` | transport/transport.go:203-210 | at any point, a ping is answered by a pong with its payload and a pong is signalled, and reading goes on as it was |
| `Messages.CloseCodes` | transport/transport.go:302-311 | the bytes of the close frames for codes 1002 and 1007 |
| `Messages.TooLargeIff` | transport/transport.go:195-222 | a payload over the limit is reported if and only if the deciding frame makes a fragmented message longer than the limit, or the stream ends in a frame that announces so much |
| `Messages.PingsAreInert` | transport/transport.go:203-210 | removing all pings and pongs never changes what is read, even inside a partial message |
| `Messages.PartialIsModest` | transport/transport.go:215-266 | up to the end of a message, the part assembled so far is within the payload limit at every frame |
| `Messages.ReadIsModest` | transport/transport.go:191-294 | returned messages stay within the payload limit, and every reply is a frame the writer accepts |
| `Messages.StripPeelsPongs` | transport/transport.go:268-294 | each leading pong mark is signalled and dropped, and the next mark decides what is returned, for a message, ping, probe, close, noop and unknown mark, and that only a ping is answered |
| `Messages.MarksOfEngineIO` | transport/transport.go:268-294 | what each mark leads to, by its byte: message, noop, close, pong, probe and any other ping |
| `Messages.WSConn.Strip` | transport/transport.go:268-294 | the recursion computes that stripping and sends its replies |
| `Messages.WSConn.FinishMessage` | transport/transport.go:224-238 | a complete message is checked for UTF-8, stripped, and kept back when nothing is left |
| `Messages.WSConn.HandleFrame` | transport/transport.go:203-266 | one round of the loop: reply, return, continue or complete, as `CloseIsEchoed`, `ControlIsAnswered` and `ReadReturns` describe it, with the partial message within the limit |
| `Messages.WSConn.ReadMessage` | transport/transport.go:191-267 | result, replies and remaining stream are those of `SpecRead` on the frames of the input; the message is within the limit |
| `Messages.WSConn.WriteText` | transport/transport.go:129-142 | refuses a payload over the limit, and otherwise puts one text frame on the wire |
| `Messages.WSConn.WriteBinary` | transport/transport.go:143-156 | the same for a binary frame |
| `Messages.WSConn.SendFrame` | transport/transport.go:295-301 | a frame the writer accepts is appended to the wire and to the log of writes, and one it refuses is dropped |
| `Messages.WSConn.SendCloseCode` | transport/transport.go:302-311 | a close frame with the code in two bytes, then the hang-up |
| `Messages.WSConn.SignalPong` | transport/transport.go:185-190 | the one-slot pong channel is full afterwards |
| `ByteSeqs.DecimalRoundTrip` | packet/packet.go:91-102 | parsing the decimal numeral of a number gives the number |
| `ByteSeqs.FirstCountsMost` | transport/transport.go:332-349 | lengths are big-endian: the first byte counts 256 to the number of the others |
| `ByteSeqs.FirstDigitCountsMost` | packet/packet.go:121-161 | and in numerals the first digit counts 10 to that number |
| `Packets.RoundTrip` | packet/packet.go:67-172 | the text of a packet decodes to the packet with its namespace normalised if and only if the packet is valid, its payload is JSON, its namespace has no comma and the text is at most 1<<20 bytes |
| `Packets.DecodeExact` | packet/packet.go:110-172 | any text decodes to a packet if and only if it spells it out, is at most 1<<20 bytes, its payload is JSON and the packet is valid; a text spells out a packet if it is its type, then with a binary type an optional sign, digits with the value of its count and a dash, then nothing, or its namespace and a comma or the end of the text, then nothing or digits with the value of its id, then its payload |
| `Packets.Canonical` | packet/packet.go:67-172 | whatever decodes can be encoded, and decodes to the same packet if and only if its namespace is trimmed and the text is at most 1<<20 bytes |
| `Packets.PrintsNoLonger` | packet/packet.go:67-172 | the canonical text is at most one byte longer than the text it came from |
| `Packets.PrintsBackExact` | packet/packet.go:67-172 | for every text that decodes, encoding the packet gives the text back if and only if the text is canonical in its count, namespace and id |
| `Packets.ExplicitRoot` | packet/packet.go:134-146 | a text that spells out the root namespace is not what encoding gives back |
| `Packets.PartsOf` | packet/packet.go:121-161 | no part of an encoded packet is taken for the next one: count, namespace and id are each read back from where the one before ends |
| `Packets.DecodedParts` | packet/packet.go:110-172 | a decoded packet is valid, with a clean namespace, an id only where allowed, and between 1 and 1024 attachments if and only if it is binary |
| `Packets.EncodableRules` | packet/packet.go:67-98 | which packets encode: attachments exactly with the binary types, ids only with types that may carry them |
| `Packets.ValidateRules` | packet/packet.go:174-218 | the validation rules by part of the packet instead of by type |
| `Packets.NullAckDecodes` | packet/packet.go:198-208 | an acknowledgement with the payload `null` decodes |
| `Packets.NormalizeTwice` | packet/packet.go:459-468 | normalising a namespace twice is normalising it once |
| `Packets.NormalizeExact` | packet/packet.go:459-468 | a namespace is white space, a core that neither starts nor ends with any, and white space; normalised it is the core, with a slash in front if that is missing |
| `Packets.SpaceExact` | packet/packet.go:459-460 | after or before any text, each character with the Unicode property White_Space, in UTF-8, is found as space |
| `Packets.SpaceIsACharacter` | packet/packet.go:459-460 | and what is found as space is the encoding of such a character |
| `Packets.EncodePacket` | packet/packet.go:67-108 | the buffer written step by step is the text that `RoundTrip` is about, with the same errors in the same order |
| `Packets.TakeId` | packet/packet.go:147-161 | the greedy digit loop finds the longest run of digits, and rejects an id over the range of `int` |
| `Packets.DecodePacket` | packet/packet.go:110-172 | the parser advances part by part to the result that `DecodeExact` and `RoundTrip` are about |
| `Attachments.ContainsBinaryIffPaths` | packet/packet.go:318-359 | the test for binary leaves holds exactly when there is a path to one |
| `Attachments.NumberingCounts` | packet/packet.go:371-377 | a numbering from 0 up to n numbers exactly n leaves |
| `Attachments.RestoreExact` | packet/packet.go:425-457 | putting the buffers back gives the original value if and only if no object of it claims to be a placeholder |
| `Attachments.ReconstructFailsIff` | packet/packet.go:425-457 | putting buffers into any value fails if and only if a path that enters no claimed placeholder leads to one without a number, with a negative one, or with one past the buffers |
| `Attachments.ReconstructPuts` | packet/packet.go:425-457 | where it succeeds, each claimed placeholder so reached has become the buffer of its number, and every other leaf is as it was |
| `Attachments.DeconstructFields` | packet/packet.go:385-393 | for every order of the fields, the object's binary leaves are numbered once each, from the buffers before to the buffers after |
| `Attachments.DeconstructItems` | packet/packet.go:379-384 | the same for arrays |
| `Attachments.Deconstruct` | packet/packet.go:361-416 | the clean value has a placeholder for each binary leaf and nothing else changed; the numbers are exactly the indices of the new buffers, each once, and each buffer has its leaf's bytes |
| `Attachments.SplitBinary` | packet/packet.go:304-316 | there are as many buffers as binary leaves, some if and only if the value contains binary, and restoring works exactly as `RestoreExact` says |
| `Events.BuildEventPacket` | packet/packet.go:262-276 | the packet is binary exactly when the values contain binary, with one attachment for each leaf; building fails exactly when the JSON printer fails, or on over 1024 leaves, a negative id or a bad namespace |
| `Events.BuiltIsGoodIff` | packet/packet.go:262-276 | a packet so built is fit for the receive path exactly when it has at most 64 attachments, no comma in its namespace, and parts within the limits |
| `Events.ValuesArrive` | server/server.go:449-489 | values taken apart into a group's text and buffers, sent on a wire however framed, dispatched and reconstructed, are the values sent if and only if no object of them claims to be a placeholder |
| `Sessions.DeliveredExact` | server/server.go:450-454 | the messages the loop gets are what one read after another returns on the stream, up to the first that fails |
| `Sessions.RunIsCalls` | server/server.go:450-489 | the loop's dispatches are those of its messages, one by one, until it ends |
| `Sessions.PendingIsPartial` | server/server.go:455-487 | a pending packet always has fewer buffers than it needs, and has the binary messages since its header |
| `Sessions.DispatchIsComplete` | server/server.go:449-489 | on any messages, a binary packet is dispatched with exactly its number of buffers, 1 to 64: the binary messages since its header, in order; other packets have none |
| `Sessions.ConnectComesFirst` | server/server.go:475-480 | on any messages, the first packet dispatched is a CONNECT |
| `Sessions.LoopStateExact` | server/server.go:449-489 | on any messages, the loop has ended after k of them if and only if one of them broke it: a binary with no packet awaiting buffers, a non-empty text that does not decode, a first packet that is no CONNECT, or a header with more than 64 attachments; if not, it knows whether a CONNECT has come, and awaits buffers for the latest header with the binaries since, unless these are enough |
| `Sessions.CallsExact` | server/server.go:449-489 | a message that breaks nothing dispatches its packet at once if that is not binary, the packet awaiting buffers if it is the last of them, and nothing else |
| `Sessions.HandleMessage` | server/server.go:455-488 | one round of the loop: it ends, or goes on with the state and the dispatches that `LoopStateExact` and `CallsExact` are about |
| `Sessions.HandleSession` | server/server.go:442-490 | run on a connection, the loop makes exactly the dispatcher calls of the message-level loop on the messages of its byte stream |
| `Delivery.DeliveredAll` | transport/transport.go:191-294 | reading on delivers each message carried by the frames, stripped, in order, and drops the noise |
| `Delivery.RunGroups` | server/server.go:449-489 | the messages of groups are dispatched as those groups, in order |
| `Delivery.EndToEnd` | server/server.go:449-489 | bytes that carry good groups starting with a CONNECT, under any masks, fragments, pings, pongs and noise, are dispatched as exactly those packets with exactly those buffers, and the loop goes on with whatever follows |
| `Delivery.Receive` | server/server.go:442-490 | the loop itself, run on those bytes, calls the dispatcher on exactly the groups sent |
| `Delivery.PlainTransmission` | transport/transport_test.go:21-43 | sending each message in one masked frame is such a transmission |
| `Sending.SendIsWholeIff` | server/server.go:86-111 | a call writes its whole group or nothing if and only if the session is closed, the header is too long or all buffers fit; it succeeds exactly when it writes the whole group |
| `Sending.SendErrorExact` | server/server.go:86-111 | why a call fails: a packet that cannot be encoded, else a closed session, else a header or buffer over the payload limit, in this order and for no other reason |
| `Sending.SentIsReceived` | server/server.go:86-111 | a call that returned no error made one text, whose first byte is the mark of a message and whose rest the receiving side decodes to the packet with its namespace normalised, and then one binary message for each buffer, in order |
| `Sending.ClientGetsPacket` | server/server.go:86-111 | and so does a client split the bytes on the wire, after what was written before |
| `Sending.EngineSession.SendBuffers` | server/server.go:99-109 | the loop writes the buffers up to the first that is too long |
| `Sending.EngineSession.SendPacket` | server/server.go:86-111 | what a call adds to the wire, and its error, as `SentIsReceived` and `SendErrorExact` describe them |
| `Sending.RunIsOrderly` | server/server.go:86-111 | at every step, the frames written without background frames, with what the holder of the lock has yet to write, are the calls so far, one whole call after another |
| `Sending.RepliesAreWritten` | server/server.go:86-111 | in every interleaving with calls, the pings and replies on the wire are those written, in their order and each on its own transport |
| `Sending.PacketsAreAtomic` | server/server.go:86-111 | for every interleaving of sends, pings, replies and upgrades, the frames written, but for background frames, are whole groups in the order of the lock: for each call its header followed by exactly its buffers, and nothing exactly if it was refused; a client finds on each transport the frames written to it |
| `Sending.TransportsAreWholeIff` | transport/transport.go:591-597 | after every run, when no call is in progress, the calls can be assigned to transports so that each transport carries, but for background frames, exactly what its calls wrote, one whole call after another in the order of the lock, if and only if no upgrade came between the header of a group and its last buffer |
| `Sending.EachTransportIsWhole` | server/server.go:86-111 | if no upgrade came there, and no call has a buffer over the limit, these are the whole groups of the calls that were not refused; and during a call each transport carries the beginning of them |
| `Sending.UpgradeCanSplit` | transport/transport.go:545-559 | any call that is not refused and has a buffer can be split by an upgrade, its header on one transport and all its buffers on the next |
| `Rooms.JoinedPairs` | rooms/rooms.go:101-110 | joining inserts one (room, member) pair and leaves no room empty |
| `Rooms.LeftPairs` | rooms/rooms.go:115-127 | leaving deletes one pair and drops the room it empties |
| `Rooms.LeftAllPairs` | rooms/rooms.go:131-140 | leaving all rooms deletes exactly the member's pairs |
| `Rooms.ClearedPairs` | rooms/rooms.go:199-203 | clearing deletes exactly the room's pairs |
| `Rooms.JoinedHolds` | rooms/rooms.go:34-42 | joining keeps every member the one it was, also when another with the same id joins, and adds a new one as it is |
| `Rooms.LeftHolds` | rooms/rooms.go:45-53 | leaving one room or all and clearing keep every other member the one it was |
| `Rooms.JoinedThenLeft` | rooms/rooms.go:101-127 | joining and then leaving changes nothing for one who was not a member |
| `Rooms.Room.Add` | rooms/rooms.go:34-42 | adds unless present, and reports which |
| `Rooms.Room.Remove` | rooms/rooms.go:45-53 | removes, and reports whether the member was present |
| `Rooms.Room.Snapshot` | rooms/rooms.go:71-79 | each member once, in some order |
| `Rooms.Manager.Join` | rooms/rooms.go:101-110 | the rooms become those with the member joined; true exactly if it was not a member |
| `Rooms.Manager.Leave` | rooms/rooms.go:115-127 | the rooms become those with the member gone; true exactly if it was a member |
| `Rooms.Manager.LeaveAll` | rooms/rooms.go:131-140 | for every order of the rooms, the member is gone from all of them |
| `Rooms.Manager.InRoom` | rooms/rooms.go:143-151 | true exactly for a pair |
| `Rooms.Manager.Len` | rooms/rooms.go:156-164 | the number of pairs of the room |
| `Rooms.Manager.Names` | rooms/rooms.go:167-174 | each room of a pair once |
| `Rooms.Manager.Members` | rooms/rooms.go:178-186 | each member of the room once |
| `Rooms.Manager.Clear` | rooms/rooms.go:199-203 | the room is gone and the others are as before |
| `Rooms.Manager.Send` | rooms/rooms.go:210-217 | each member of the room outside the skip set is sent the event exactly once, and nobody else |
| `Rooms.Manager.SendAll` | rooms/rooms.go:221-240 | each member of any room is sent the event exactly once |
| `RoomLocks.RunKeepsInv` | rooms/rooms.go:101-140 | in every interleaving, an empty room in the manager is held by a join between its steps, or by a leaver that holds the lock and has already removed from it |
| `RoomLocks.QuietHasNoEmptyRoom` | rooms/rooms.go:101-140 | when nobody is joining or holds the lock, no room is empty |
| `RoomLocks.JoinAddShows` | rooms/rooms.go:101-110 | right after the second step of a join its member is visible exactly where the room it found is still in the manager |
| `RoomLocks.JoinLastsIff` | rooms/rooms.go:101-140 | in every run, a joined member that is not taken out again is visible when the lock is next free if and only if, at the second step, the manager had the room it found and no leaver had found that room empty, or it was a lasting member before |
| `RoomLocks.JoinCanBeLost` | rooms/rooms.go:101-110 | a join with a clear between its steps leaves its member in no room |
| `RoomLocks.JoinCanBeDropped` | rooms/rooms.go:115-127 | so does a join that comes after another member's leave has seen the room empty and before it drops it |
| `RoomIndex.JoinedIsLimited` | server/server.go:160-178 | in every interleaving of the critical sections of joins, leaves and teardowns, no connection's own set has more than 100 rooms or one without a name |
| `RoomIndex.IndexAgrees` | server/server.go:160-194 | in every interleaving in which no join overlaps a leave of the same room or a teardown of the same connection, a room of which a connection is a member is in its own set, if nothing on the two is in progress; without a clear or a lost join it is in the set exactly if the connection is a lasting member |
| `RoomIndex.JoinCanStraddleLeave` | server/server.go:160-186 | a leave between the two steps of a join leaves a member without the room in its set |
| `RoomIndex.JoinCanStraddleTeardown` | server/server.go:187-194 | so does a teardown |
| `Slots.RunConserves` | transport/transport.go:654-702 | in every run, the count of an address is its sessions plus its reservations, no zero is stored, and the limit per address holds |
| `Slots.TotalIsBounded` | transport/transport.go:657-659 | with at most p reservations in flight, sessions and reservations together stay below the limit plus p |
| `Slots.TotalBoundIsReached` | transport/transport.go:657-659 | for every limit on all connections, with none per address, and every p, a run with at most p reservations in flight ends with the limit plus p minus 1 sessions |
| `Slots.AcceptsExact` | transport/transport.go:654-665 | a request is accepted if and only if there is no total limit or fewer sessions, and no limit per address or fewer sessions and reservations of its address; the total is looked at first |
| `Slots.RemovalEffect` | transport/transport.go:683-702 | after both halves of a removal the session is in no table, its address counts one less if it was active, and others are as before |
| `Slots.PollingEffect` | transport/transport.go:840-848 | an upgrade ends the polling of its session and changes nothing else |
| `Slots.PollingIsActive` | transport/transport.go:683-702 | in every run, a polling session is active, or between the two critical sections of its insertion or of its removal |
| `Slots.RemovedTwice` | transport/transport.go:683-695 | removing a session again changes nothing |
| `Slots.ReleaseUndoesAcquire` | transport/transport.go:666-674 | giving a fresh reservation back restores the counts |
| `Slots.Server.AcquireConnSlot` | transport/transport.go:654-665 | refuses by the total and then by the address, and otherwise reserves one slot |
| `Slots.Server.ReleaseConnSlot` | transport/transport.go:666-674 | lowers the count, storing no zero |
| `Slots.Server.EnterPolling` | transport/transport.go:966-968 | a new polling session is entered as such before it is inserted |
| `Slots.Server.InsertSession` | transport/transport.go:969-971 | the reservation becomes a session |
| `Slots.Server.RemoveSession` | transport/transport.go:683-695 | the session and its slot are gone |
| `Slots.Server.LeavePolling` | transport/transport.go:696-702 | and then its polling entry |
| `Slots.Server.UpgradeSession` | transport/transport.go:840-848 | an upgrade takes and frees no slot, and ends the polling entry |
| `Slots.Server.Serve` | transport/transport.go:853-904 | serving a request keeps the counts, ends with no reservation of its own, and adds a session exactly when it was accepted and set up |
| `Registry.CountsAgree` | server/server.go:290-301 | the table of connections and the entries of all sessions have the same size, which is the counter's exactly when they agree |
| `Registry.RunIsSound` | server/server.go:513-724 | after every run, with joins, Close and rejection of any connection at any time, entries and table match, the counter is short by exactly the number of stray removals, each connection that is gone has had exactly one callback for its removal while registered, every room member has the room in its own set of at most 100, without ClearRoom the converse, and if no unregistered connection joins every member is registered |
| `Registry.RemovedConnIsSound` | server/server.go:677-699 | removing any connection keeps all of that, and counts as a stray exactly if it was not registered |
| `Registry.RemovedConnExact` | server/server.go:677-699 | removing keeps the three places in agreement if and only if the connection is registered |
| `Registry.RemovedEffect` | server/server.go:677-699 | after a removal the connection has no entry and no room and is not in the table, the count is one less, its callback was made once with the given reason, and no other connection has changed |
| `Registry.ConnectedIsSound` | server/server.go:513-546 | so does a connect, up to its handler, also with a failed reply |
| `Registry.ConnectedEffect` | server/server.go:513-546 | a connect to a namespace the session is in already changes nothing; any other enters the connection there and in the table, with no rooms, and counts it |
| `Registry.FailedConnectEffect` | server/server.go:542-545 | a connect whose reply cannot be sent leaves no connection: it is closed, out of the table and its session, not counted, and was called back |
| `Registry.DisconnectedIsRemoval` | server/server.go:653-676 | a client's disconnect is the removal of the connection at that place |
| `Registry.ClosedIsSound` | server/server.go:258-268 | so does Close, a stray exactly if it is the first one of a connection that is not registered |
| `Registry.ClosedExact` | server/server.go:258-268 | Close keeps the three places in agreement if and only if the connection is registered or was closed before |
| `Registry.ClosedEffect` | server/server.go:258-268 | the first Close is such a removal, with the reason of a client's disconnect; later ones change nothing |
| `Registry.CloseCanBeStray` | server/server.go:258-268 | closing a connection after the client's disconnect makes the count -1 and calls back a second time |
| `Registry.TornDownIsSound` | server/server.go:700-724 | teardown in any order removes exactly the session's connections, with one callback each |
| `Registry.TornDownCallsBack` | server/server.go:700-724 | teardown takes exactly the session's connections out of the table and calls back for each in its order, with the closed transport as reason |
| `Registry.JoinedIsSound` | server/server.go:160-178 | joining keeps the index; the connection is then a member exactly if it was one or the room is named, not in its set, and fewer than 100 are |
| `Registry.JoinedEffect` | server/server.go:160-178 | joining changes no other room and no other connection |
| `Registry.JoinMakesMember` | server/server.go:160-178 | in runs without ClearRoom it is then a member exactly if the room is in its set, or named with fewer than 100 there |
| `Registry.JoinEnrolsExact` | server/server.go:160-178 | a join keeps all members registered if and only if the connection is registered or the join does nothing |
| `Registry.GoneCanJoin` | server/server.go:160-178 | a run in which a connection joins after it is gone, and is a member that is not registered |
| `Registry.LeftRoomIsSound` | server/server.go:179-186 | leaving keeps the index |
| `Registry.LeftRoomEffect` | server/server.go:179-186 | after leaving, the connection is not a member, and its set does not have the room; nothing else has changed |
| `Registry.LeavingAllIsSound` | server/server.go:187-194 | leaving all rooms keeps the index |
| `Registry.LeftAllEffect` | server/server.go:187-194 | after leaving all rooms it is a member of none and its set is empty; nothing else has changed |
| `Registry.ClearedEffect` | server/server.go:370-374 | after clearing a room it has no member, and other rooms and the connections' own sets are as before |
| `Registry.ClearedRoomCannotBeRejoined` | server/server.go:370-374 | a run in which a registered connection joins, the room is cleared, and joining again does not make it a member |
| `RegistryLocks.QuietCounts` | server/server.go:513-724 | after every interleaving of the critical sections of connects, disconnects, Close, rejections and teardowns, when nothing is in progress, table and entries have the same connections, the counter is short of them by exactly the removals that found no entry, and so many callbacks are more than connections gone |
| `RegistryLocks.RunKeeps` | server/server.go:513-724 | at every step of it, counter, table, entries and callbacks balance with what connects and removals have under way |
| `Registry.Server.ConnectNamespace` | server/server.go:513-546 | the registry after a connect, up to the handler, and whether the handler is asked |
| `Registry.Server.AnswerConnect` | server/server.go:547-556 | the registry after the handler's answer: a rejection removes the connection |
| `Registry.Server.DisconnectNamespace` | server/server.go:653-676 | the registry after a client's disconnect |
| `Registry.Server.RemoveConn` | server/server.go:677-699 | the registry after a removal |
| `Registry.Server.CloseConn` | server/server.go:258-268 | the registry after Close, which acts once |
| `Registry.Server.TeardownSession` | server/server.go:700-724 | the loop drops the session's connections one by one in some order, and keeps the registry sound |
| `Registry.Server.JoinRoom` | server/server.go:160-178 | the index after a join |
| `Registry.Server.LeaveRoom` | server/server.go:179-186 | the index after a leave |
| `Registry.Server.LeaveAllRooms` | server/server.go:187-194 | the index after leaving all rooms |
| `Acks.CallbacksRunOnce` | server/server.go:202-288 | in every interleaving of emits, failed sends and replies, ids are distinct and increasing, no id is in both tables, and a callback runs at most once, for a reply with its own id and kind |
| `Acks.LogIsDraws` | server/server.go:202-212 | the n-th id drawn in a run is n and goes with the callback and kind of that draw, and no other goroutine goes on with it |
| `Acks.OthersAreKept` | server/server.go:231-257 | a reply with another id or of the other kind leaves a callback in place |
| `Acks.FiledUntilRun` | server/server.go:202-288 | after every run, a callback that was filed and whose send has not failed is in the table of its kind or has been run; one whose send has failed is in neither table |
| `Acks.ReplyRunsIt` | server/server.go:231-257 | so a reply with its id and kind makes it have been run, once, and gives it what this reply gives if it had not been |
| `Acks.FailureExact` | server/server.go:231-257 | the callback gets an error if and only if the payload cannot be decoded, a placeholder of a binary reply has no buffer, or a plain reply has no elements |
| `Acks.SingleValueIsGiven` | server/server.go:231-257 | a binary reply whose payload is not an array gives that one value |
| `Acks.AckValuesExact` | server/server.go:231-257 | of a reply that carries values, with its buffers, the callback finds exactly those values if and only if the reply is binary, and otherwise all but the first, or an error if there is none |
| `Acks.PlainAckLosesItsValue` | packet/packet.go:232-238 | the plain acknowledgement 37[1] carries one value and its callback gets none |
| `Acks.AckTables.DrawId` | server/server.go:207-211 | the next id, and for a plain emit none when it does not fit an `int` |
| `Acks.AckTables.FileCallback` | server/server.go:212-214 | the callback is filed in the table of its kind |
| `Acks.AckTables.AfterSend` | server/server.go:216-221 | a failed send takes its own callback out again, and a successful one leaves it for its reply (`FiledUntilRun`) |
| `Acks.AckTables.FireAck` | server/server.go:231-257 | the callback filed under the id and the packet's kind is taken out and run, with what the packet and its buffers give it, an error included |
| `Upgrades.UpgradesKeepOrder` | transport/transport.go:560-597 | in every interleaving, messages are delivered in the order of transports and of arrival within each, without gaps, and an error is returned only for a transport that failed by itself |
| `Upgrades.DeliversArrivals` | transport/transport.go:560-597 | by the list of steps alone: what was delivered from a transport is the first of the messages that arrived on it, no delivery comes from a transport past the upgrades so far, and an error is returned only for a transport that had failed by itself |
| `Upgrades.ReplacedWhileReading` | transport/transport.go:560-577 | a run in which a read fails because its transport was replaced, returns nothing, and goes on with a message of the new one |
| `Upgrades.FailureIsReturnedIff` | transport/transport.go:560-577 | after every run, an error met is returned if and only if its transport is still current; and then the current transport is read next |
| `Upgrades.OldestIsDelivered` | transport/transport.go:560-577 | a reader at a transport with unread messages can deliver the oldest of them |
| `Heartbeats.ResponsivePeerStays` | transport/transport.go:157-190 | a peer that answers every ping strictly within the timeout is never closed |
| `Heartbeats.SilentPeerIsClosed` | transport/transport.go:157-190 | a connection is never open later than two intervals and a timeout after the last pong |
| `Heartbeats.ClosingIsInTime` | transport/transport.go:178-180 | the step that closes it comes by then |
| `Heartbeats.TwoIntervalsAreNeeded` | transport/transport.go:185-190 | for all settings the bound is reached, because a stale pong in the slot answers one ping |

## Left out

- HTTP handling, upgrades of the HTTP connection, CORS and origin checks, deadlines, and I/O errors other than the end of the input.
- `encoding/json`, UTF-8 validity, base64, SHA-1 and random ids: parameters, or fresh values.
- Long polling (`PollConn`) as a byte format: its heartbeat and its place in upgrades are modelled, its queues and base64 messages are not.
- Which of the closed old transport and its queued data wins after an upgrade: only order is claimed, not that nothing is lost.
- The heartbeat of a probing connection, `RemoveConn`, and behaviour after the server is closed.
- Struct fields, tags and non-string map keys in values: a value is null, a boolean, a number, a string, bytes, an array or an object.
- Nil packets, the printing of types and errors, default options, logging, and the wrappers in gsocketio.go.
- Namespaces, event handlers and the limit on concurrent events: a connect is modelled from the lookup of its namespace on, and namespaces and sessions are numbers.
- A placeholder's number is taken to fit a Go `int` when its fraction is cut off.
- HandleSession: dispatching is recorded, not performed, so handlers that close the connection or write to it are not modelled.
- SendPacket: the transport is one WebSocket during a call; upgrades during a call are steps of the runs in `Sending`.
- QuietCounts: a session's loop connects, disconnects and tears down one after the other, and nobody removes a connection before it is counted; a teardown of all sessions by Close of the server is left out.
- PacketsAreAtomic: a write either succeeds or is refused for its size; a write that fails midway is not a step, nor is a write to a transport that was replaced after it was looked up.
- EndToEnd: an unlimited or smaller payload limit is the receiver's; the sender's own limits are part of what a good group is.
- BuildEventPacket: the number of binary leaves fits a Go `int`.
- Serve: one request by itself; what comes between its critical sections is in the runs of `RunConserves`.
- UpgradeSession: the swap of the transport is in `Upgrades`.
- RunIsSound: operations of the registry are taken one at a time; connections are values in the server's tables rather than objects. The critical sections of connects and removals are told apart in `RegistryLocks`, those of joins, leaves and teardowns in `RoomIndex`, and so for the following three.
- JoinRoom: the connection's set and the manager's rooms change in one step here.
- LeaveRoom: the same.
- LeaveAllRooms: the same.
- CallbacksRunOnce: fewer than 1<<63 ids are drawn.
- DrawId: the counter does not wrap around at 1<<64.
- ReadIsSpec: opcodes are those the frame reader lets through.
