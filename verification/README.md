# The WebSocket side of jabsocket, modelled and proved in Dafny

jabsocket connects browsers, which speak WebSocket (RFC 6455), with an XMPP server, which speaks TCP.
This project models the code between the two and proves what it is for:

- **Frames.** `get_frame` and `wsconn_write_frame` over growable byte buffers, against the encoding of
  sections 5.2 and 5.3 of RFC 6455 (`Bytes`, `Buffers`, `FrameCodec`, `FrameDecoder`, `FrameWriter`), down
  to which form of a length the RFC asks for (`LengthForms`); the RFC's own examples are in `SampleFrames`.
- **Messages.** The stateful loop of `_wsmsg_process`, its three buffers and flags, against a one-shot
  decoder, and that decoder against rules stated over lists of frames without an engine (`Reassembly`,
  `Fragmentation`, `MessageEngine`); how far those rules are the RFC's (`Conformance`), and what a limit on
  the frame buffer costs (`FrameLimits`). What the loop as it stands yields has rules of its own over lists of
  frames (`WrittenLoop`).
- **Connections.** `wsconn_t` and `cmanager_t` as two coupled state machines driven by callbacks in any
  order, with a history of what was read, taken, written and forwarded (`Connection`, `ConnectionObject`).
  Over every run: the lifecycle invariant (`Lifecycle`), when a closing connection can still be deleted
  (`Deletion`), what the client is sent (`OutputDiscipline`) and with which payload its Close is answered
  (`CloseFrames`), what is taken from it (`Consumption`), how much of it by one read (`Taking`) and where that
  leaves the socket (`Reads`, with inputs in `ReadInputs`), in which stage the manager is (`Stages`), what
  reaches the XMPP server (`Forwarding`), how each kind of message is reacted to (`Reactions`), which texts are
  lost (`Losses`), and the whole path from a client's frames to the server (`System`). On which runs the code as it stands takes the same steps is told from the bytes in
  `Agreement` and exactly in `Divergence`.
- **The opening handshake.** Lines unfolded into headers, headers into fields, fields into a decision
  (`Request`, `Handshake`, `RequestObject`), read from bytes that arrive in any chunks (`RequestReader`)
  by a connection that then stands at the first frame or is closed (`Opening`); which lists of names are searched
  as they were sent (`CutLists`); and the sample request of the RFC with its answer (`SampleRequest`). Base64
  lies under it (`Base64`). `Session` goes on from the request through the
  frames behind it to the XMPP server.
- **XML framing.** The ranges recorded from the parser's callbacks, the linked list that holds them and
  the slices cut out of the stream, against a tree of elements (`Framing`, `FramerRuns`, `FramerObject`);
  and the whole path from the XMPP server's bytes to the texts its client decodes (`Downward`). The two read
  callbacks with all the objects they drive are in `Callbacks`.

Code that updates objects, arrays or lists in place is modelled by classes and methods with loops; each
is proved to do to the object what a function of the same name does to its value. The results about runs
are lemmas about those functions. `dafny verify dfyconfig.toml` checks the whole project.

## Where the code departs from its intent

- `_wsmsg_process` tests its guard only on entry (`wsmessage.c:170`), so a frame buffered behind a final
  data frame is rejected or joined to the finished message, although the guard and the tests
  (`wsmessage_test.c:200-221`) mean the loop to stop there. Every function and method of the engine takes
  a switch `retest`: false is the code as it stands, true tests the guard on every turn.
  `ChunkingIndependence` and what rests on it is about the latter; `AsWrittenAgreesExactly` says, if and
  only if, on which runs the code as it stands shows the same, and `TwoMessagesInOneSegment` is a run on
  which it does not. `DrainYields` says what the code as it stands yields instead: behind a completed message a
  control frame comes first and then the message, a continuation is joined to it, and any other frame fails the
  engine. `WrittenReadExactly` carries this to every read, and `PingBehindText` is an input. For whole
  connections `EveryRunAgreesExactly` is the if-and-only-if. Bounds, survival,
  termination, lifecycle, deletion, output and forwarding hold for both.
- The 16-bit length form is used up to `(2 << 16) - 2` and the 64-bit form goes through `htons`
  (`wsserver.c:511-526`), so frames above 65535 bytes are announced with a wrong length:
  `WriteFrameRoundTrip` is an if-and-only-if, and `WireParses` the same for everything that is written.
  `cm_readcb` lets stanzas of 65536 bytes through; `WriteFrameFailsAt65536` says what the client then reads.
- `get_frame` copies the payload before checking that it has arrived (`wsmessage.c:137-141`). What the
  copy holds before that is arbitrary in the model and nothing depends on it. The copy may even leave the
  block it reads from: `CopyOut` gives what it holds as long as it does not, `LimitedCopiesInside` and
  `ArrivedCopiesInside` say when it cannot, `EarlyCopyLeavesBlock` is an input on which it does.
- The code does not ask for the mask bit (section 5.1 of RFC 6455), takes reserved opcodes for data
  (section 5.2), and lets control frames of more than 125 bytes pass (section 5.5). `ConformsExactly`: it
  stops at the first frame that breaks one of these rules or those of fragmentation if and only if no frame
  of the three kinds comes before the first one it does refuse, and its own message limit does not refuse one
  before. `LongPingDelivered` and `ThreeOverlooked` are inputs.
- It accepts lengths that are not in their shortest form, which section 5.2 forbids: `ShortestExactly` says
  which of the accepted frames an encoder of the RFC could have written, `LongFormAccepted` is one it could not.
- Of a 64-bit length only the low four bytes are read (`wsmessage.c:111-122`): `EncodeDecode` is an
  if-and-only-if, `LongLengthReadAsZero` an input.
- The loop of `wsconn_process_frame` breaks after answering a Ping (`wsserver.c:395`), and what is pending
  then waits for the next read. `ReadTakesExactly`: a read takes everything that has been admitted if and
  only if no Ping, Close or binary message comes before the last event; `TextWaitsBehindPing` is an input.
- `wsconn_handshake` fires WSCB_CONNECTED twice (`wsserver.c:282-287`); `EveryRunReacts` says so.
- Messages that arrive while the XMPP server is being connected to, and messages on which the stream parser
  fails, are dropped (`cmanager.c:161-186`): `EveryTextForwardedExactly`, with a run in `SecondLetterLost`.
- A connection need not end up deleted: `DeletableExactly` says when a closing one still can be, and
  `LostAfterHandshake` is a run after which nothing deletes it. Where an end of file can be followed by
  deletion, it is only through a second end of file or error on the same socket (`OnlySecondEndDeletes`). A
  connection in use can be deleted if it has an upstream or nothing buffered (`ConnectedDeletable`,
  `UnoccupiedDeletable`), and never once its frame buffer has stalled without an upstream
  (`StalledNeverDeletable`).
- A frame longer than twice the frame limit fills the frame buffer and stalls it without an error.
  `OneFrameExactly` says that these are the only frames that cannot be received on their own, and
  `RoomyExactly` on which cuttings of a stream nothing is lost.
- A stanza without a namespace is cut from a stale position: `DocumentRecorded` is an if-and-only-if. In
  `BareStanza` taking it needs more bytes than the buffer holds.
- `rqparser.c:336` stores the resource in the place of the HTTP version (`ResourceAsVersion`); `_find_connection_upgrade` has
  no last return, taken here as 0.
- Lists are cut to 63 characters before they are searched, which can turn a longer word into "Upgrade"
  (`CutWordFound`) and lose one (`LateWordLost`). `SearchedWholeExactly` says when the cut makes no difference
  to a list, `AsksUpgradeExactly` and `OffersXmppExactly` when it makes none to what is found.
- The last character of the line block is never written, and the block comes from `malloc` (`rqparser.c:35`).
  `LineBuffer.Append` says exactly when the block still holds a C string. The methods above it ask that this
  character be a NUL or no header take up the 4095th character; `ShortRequest` says which requests these are.
- `base64_decode` reads table entries that were never filled when the input has characters other than digits
  and pads: the groups they stand in come out arbitrary, the others do not. `Encoded(Decoded(s))` is `s`
  exactly for canonical `s`, since leftover bits under the padding are not checked.

## Model

| member | source | states |
|---|---|---|
| Buffers.Buffer.constructor | util.c:227-256 | A new buffer is empty and has the initial capacity, or its limit if that is smaller. |
| Buffers.Buffer.Append | util.c:278-327 | Contents become the old ones with the offered bytes behind, cut at the limit, through reallocation; it refuses exactly when something is offered and no room is left. |
| Buffers.Buffer.SetData | util.c:265-270 | Contents become the offered bytes, cut at the limit. |
| Buffers.Buffer.RemoveData | util.c:356-361 | The first bytes leave and the others keep their order through the memmove. |
| Buffers.Buffer.MoveTo | util.c:363-371 | The target gets what was held, cut at its own limit, and the source is left empty. |
| Buffers.Conservation | util.c:227-371 | Over any run of appends, sets, removals and moves at either end: what was held plus what was let in is, in order, what left plus what is held, and every byte offered was let in or dropped at the limit. |
| Buffers.Drive | util.c:227-371 | The array-backed buffer follows that specification through any run that removes no more than is held. |
| Buffers.Data.SetData | util.c:194-206 | The fixed block gets the bytes, cut at its capacity. |
| Buffers.Unmask | util.c:208-221 | The in-place loop combines byte i with byte i modulo 4 of the mask and touches nothing behind the given length. |
| Buffers.MaskTwice | util.c:208-221 | Masking is its own inverse. |
| FrameDecoder.GetFrame | wsmessage.c:70-159 | Status, flags, payload and the bytes left in the source are those of the pure decoder on the bytes buffered; the destination counts only when a frame is ready. |
| FrameDecoder.TakePayload | wsmessage.c:126-155 | The early copy, unmasked and cut at the destination's limit, is the payload once the whole frame is there, and exactly the frame leaves the source. |
| FrameDecoder.CopyOut | wsmessage.c:137 | The early copy is what stands in the block behind the header, cut at the destination's limit, as long as it stays inside the block. |
| FrameDecoder.ArrivedCopiesInside | wsmessage.c:126-141 | It stays inside for every frame that has arrived. |
| FrameDecoder.LimitedCopiesInside | wsmessage.c:126-141 | It stays inside whenever the block has room for the largest header and the limit. |
| FrameDecoder.EarlyCopyLeavesBlock | wsmessage.c:126-141 | Four bytes that announce 65535 more, in a new unlimited block, make it leave the block. |
| FrameCodec.VerdictStable | wsmessage.c:89-158 | A ready frame or an error stays the same frame or error whatever bytes follow. |
| FrameCodec.ReadyExactly | wsmessage.c:89-158 | On every prefix of a frame the decoder is still building, and from the frame's own last byte on it yields that frame. |
| FrameCodec.EncodeDecode | wsmessage.c:97-155 | A frame of any length encoded by section 5.2, masked by section 5.3 or not, with anything behind it, decodes to itself and leaves exactly what is behind, if and only if its payload is shorter than 2^32 bytes. |
| FrameCodec.LongLengthReadAsZero | wsmessage.c:111-122 | A header that announces 2^32 bytes is read as an empty text frame. |
| FrameCodec.ParseStream | wsmessage.c:70-159 | A stream of encoded frames parses to exactly those frames. |
| FrameCodec.WriteFrameConforms | wsserver.c:492-535 | Up to 65535 bytes the encoder as written emits the encoding of section 5.2. |
| FrameCodec.WriteFrameRoundTrip | wsserver.c:492-535 | The decoder recovers the frame meant, whatever follows, if and only if the payload has at most 65535 bytes. |
| FrameCodec.WriteFrameFailsAt65536 | wsserver.c:511-517 | A stanza of 65536 bytes is read as an empty text frame. |
| FrameWriter.LengthBlock | wsserver.c:505-527 | The one, three or nine header bytes behind the first, as the code fills them. |
| FrameWriter.BuildFrame | wsserver.c:492-533 | The buffer built by three appends holds the frame of the encoder as written. |
| MessageEngine.WsMsg.constructor | wsmessage.c:3-43 | A new engine has empty buffers with the configured limits and no flag set. |
| MessageEngine.WsMsg.AddFragment | wsmessage.c:197-216 | A data frame opens, continues or violates, and is joined to the message, as the value model says. |
| MessageEngine.WsMsg.HandleReady | wsmessage.c:183-217 | What one ready frame does to flags and buffers, control frames included. |
| MessageEngine.WsMsg.RunLoop | wsmessage.c:173-223 | The loop over the object is the loop over its value, for either reading of the guard, and ends. |
| MessageEngine.WsMsg.Process | wsmessage.c:161-224 | Nothing while something is pending, otherwise the loop. |
| MessageEngine.WsMsg.Add | wsmessage.c:226-240 | Bytes are admitted up to the limit and processed; with no room the call fails and changes nothing. |
| MessageEngine.WsMsg.GetMessage | wsmessage.c:254-270 | Hands over opcode and message, or answers no, and processes on. |
| MessageEngine.WsMsg.GetControlFrame | wsmessage.c:277-296 | Hands over the control frame kept in frame_data, or answers no, and processes on. |
| Reassembly.DecodeAppend | wsmessage.c:161-240 | Decoding a stream in two parts is decoding the whole, with the message in progress carried over. |
| Reassembly.DrainDecodes | wsmessage.c:161-296 | Draining the engine with the guard re-tested yields what the one-shot decoder yields on the buffered bytes, and leaves its rest. |
| Reassembly.ChunkingIndependence | wsmessage.c:226-296 | However a stream is cut into calls, the messages, control frames and failure are those of one pass over the bytes admitted, which without a frame limit are all of them. |
| Reassembly.RunDecodes | wsmessage.c:226-296 | The same from any waiting state, with the state the engine is left in. |
| Reassembly.AsWrittenDrain | wsmessage.c:170-220 | For one feeding, the loop as it stands agrees with the re-tested one if and only if no frame is buffered behind a completed message. |
| Reassembly.AsWrittenAgreesExactly | wsmessage.c:170-220 | For whole runs, chunk after chunk, likewise if and only if. |
| Reassembly.TwoMessagesInOneSegment | wsmessage.c:213-216 | Two one-byte texts in one segment: the code as it stands fails and delivers neither. |
| Reassembly.LoopPays | wsmessage.c:173-220 | The loop pays two buffered bytes for every flag it raises. |
| Reassembly.DrainIsShort | wsmessage.c:161-296 | A full drain ends after at most half as many events as bytes were buffered, plus those already pending. |
| Reassembly.AlwaysBounded | wsmessage.c:15-24 | After any calls in any order no buffer exceeds its limit. |
| Reassembly.PendingSurvives | wsmessage.c:170-195 | A pending control frame or message survives any bytes added before it is taken. |
| Reassembly.FullBufferStalls | wsmessage.c:234-239 | A frame buffer full of an unfinished frame yields nothing and reports no error ever after. |
| Fragmentation.DecodeIsReassembly | wsmessage.c:161-224 | Decoding bytes is parsing them into frames and reassembling the frames. |
| SampleFrames.UnmaskedExamples | wsmessage.c:89-158 | The unmasked text and Ping of section 5.7 of RFC 6455, byte for byte. |
| SampleFrames.MaskedExamples | wsmessage.c:89-158 | The masked text and Pong. |
| SampleFrames.LongExamples | wsmessage.c:102-124 | The headers for 256 bytes and for 64 KiB. |
| SampleFrames.FragmentedExample | wsmessage.c:161-224 | The text in two fragments comes out as one message. |
| SampleFrames.WrittenExamples | wsserver.c:492-535 | What the server writes for that text and for that Pong. |
| WrittenLoop.DrainYields | wsmessage.c:161-224 | Over lists of frames: what the engine as it stands yields when it is drained. Behind a completed message, continuations that there is room for are joined to it, a control frame then comes first and the message unchanged behind it, and any other frame or a reserved bit fails the engine and the message is lost. |
| WrittenLoop.JoinedAtOnce | wsmessage.c:197-216 | Joining them one by one is joining their payloads and cutting once at the message limit. |
| Fragmentation.FollowsTheRules | wsmessage.c:185-217 | For any frame list: failure exactly at the first fragmented control frame, stray continuation, new message inside a message, or bytes for a message already at its limit, and before it every message is its fragments' payloads, each cut to the frame limit, joined and cut to the message limit, with the first fragment's opcode. |
| Fragmentation.StreamDecodes | wsmessage.c:70-224 | Decoding the encoding of any frames gives what they complete up to the first such violation, and fails if and only if there is one. |
| FrameLimits.EndToEnd | wsmessage.c:70-296 | Encode any frames with any masks, cut the stream anywhere each chunk fits behind the unfinished frame before it: the engine yields what the frames complete up to the first violation and fails if and only if there is one. |
| Fragmentation.ControlTransparency | wsmessage.c:185-196 | Taking all control frames out of a valid list changes no delivered message. |
| FrameLimits.RoomyDecodes | wsmessage.c:226-240 | If every chunk fits behind the unfinished frame before it, a limited engine says what one pass over the whole stream says. |
| FrameLimits.RoomyExactly | wsmessage.c:234-239 | Of a stream without a violation every byte is let in if and only if every chunk fits so. |
| FrameLimits.OversizedFrameStalls | wsmessage.c:15-24 | A stream whose first frame is longer than twice the frame limit yields nothing and no failure, however it is cut, whatever follows, with either loop. |
| FrameLimits.OneFrameExactly | wsmessage.c:70-240 | One encoded frame, however it is cut, with either loop, comes to its delivery or failure if it is no longer than twice the frame limit, and otherwise to nothing. |
| FrameLimits.DeliveredExactly | wsmessage.c:70-240 | A message or control frame in one frame is delivered, cut to the limits, if and only if its encoding is no longer than twice the frame limit. |
| Conformance.ConformsExactly | wsmessage.c:89-217 | The code stops at the first frame that breaks RFC 6455 by its mask bit (5.1), its opcode (5.2), its place in a message (5.4), or as a control frame that is fragmented or longer than 125 bytes (5.5), if and only if none that is unmasked, of a reserved opcode or an oversized control frame comes before the first that is out of place or over the message limit, and none over the message limit before the first that breaks the RFC. |
| Conformance.UnlimitedConformsExactly | wsmessage.c:89-217 | Without a message limit: if and only if no such frame comes before the first that is out of place; and it never stops before the RFC does. |
| Conformance.ConformingEndToEnd | wsmessage.c:70-296 | For a client that masks, uses defined opcodes and short control frames, the engine delivers what the frames before the first violation of those rules complete, and fails if and only if there is one. |
| Conformance.LongPingDelivered | wsmessage.c:185-196 | A Ping of 126 bytes, which section 5.5 forbids, is delivered however it is cut, with either loop. |
| Conformance.OverlookedDelivered | wsmessage.c:89-217 | Every frame of the three kinds that is complete in itself is delivered, although it breaks the RFC. |
| Conformance.ThreeOverlooked | wsmessage.c:93-100 | A reserved data opcode, a reserved control opcode and a missing mask are accepted. |
| Conformance.OpcodesAre | wsmessage.c:185 | Which opcodes are control opcodes and which reserved ones the code takes for data, by their numbers. |
| Conformance.RefusedExactly | wsmessage.c:91-92 | get_frame refuses a frame exactly for its reserved bits. |
| LengthForms.ShortestExactly | wsmessage.c:97-124 | Of the frames get_frame accepts, those whose length is in its shortest form are exactly those that the encoder of section 5.2 writes under some mask key. |
| LengthForms.LongFormAccepted | wsmessage.c:101-110 | A text whose length of one is in the 16-bit form is accepted, and no encoder writes it so. |
| ConnectionObject.CManager.OnMessage | cmanager.c:154-187 | A message is held, forwarded or dropped by stage, and the upstream is opened when the parser knows the server. |
| ConnectionObject.CManager.Close | cmanager.c:70-103 | The manager's parts are gone and what was written stays written. |
| ConnectionObject.CManager.Connected | cmanager.c:275-282 | What was held is written first, then the manager forwards. |
| ConnectionObject.WsConn.constructor | wsserver.c:121-194 | A new connection has the initial value, with a fresh engine and manager. |
| ConnectionObject.WsConn.WriteFrame | wsserver.c:478-544 | The frame's bytes go to the end of the output. |
| ConnectionObject.WsConn.Close | wsserver.c:551-562 | The object takes the step of the value model: WSCB_CLOSE while the manager is in use, deletion once it is closed. |
| ConnectionObject.WsConn.InitiateClose | wsserver.c:576-621 | Once only: a Close frame with status and reason, and the manager released. |
| ConnectionObject.WsConn.OnClosed | wsserver.c:623-634 | The step of the value model when the upstream is gone. |
| ConnectionObject.WsConn.Delete | wsserver.c:196-211 | Deletion is recorded and the manager closed; it may not be called twice. |
| ConnectionObject.WsConn.ProcessTurn | wsserver.c:326-416 | One turn of the loop over the object: failure, control frame, message or nothing. |
| ConnectionObject.WsConn.ProcessFrame | wsserver.c:295-427 | All input is added, then the loop runs as on the value, and ends. |
| ConnectionObject.WsConn.Conclude | wsserver.c:263-293 | What a finished, refused or malformed request makes of the connection. |
| ConnectionObject.WsConn.ReadCb | wsserver.c:213-261 | The read callback takes the step of the value model in every state, given what the request lines came to. |
| Callbacks.ReadRequestCb | wsserver.c:226-252 | Before the handshake: connection and request parser together, from the bytes that arrive to the outcome, the input used up and the step taken. |
| Callbacks.ArriveIs | wsserver.c:226-252 | That step is the one of the composed model of the opening handshake. |
| ConnectionObject.WsConn.WriteCb | wsserver.c:444-458 | Sent bytes leave; a closing connection with nothing left to send is deleted. |
| ConnectionObject.WsConn.EventCb | wsserver.c:430-442 | End of file and errors close the connection. |
| ConnectionObject.WsConn.UpstreamReadCb | cmanager.c:260-265 | Every stanza yielded is written as a text frame, in order, cut to the stanza buffer. |
| Callbacks.AddAll | cmanager.c:240-259 | The adding loop of cm_readcb does to the framer what the additions do to its value. |
| Callbacks.ReadUpstreamCb | cmanager.c:226-266 | Connection and framer together: every chunk read is added, and exactly the frames then there, each cut to the stanza buffer, go to the client. |
| Callbacks.ForwardIs | cmanager.c:226-266 | That is the step of the composed model of the way to the client. |
| ConnectionObject.WsConn.UpstreamConnectedCb | cmanager.c:268-282 | The step of the value model when the upstream is connected. |
| ConnectionObject.WsConn.UpstreamErrorCb | cmanager.c:283-290 | The closing handshake is started and the manager closed, and the connection is not deleted under it. |
| Lifecycle.RunAdvances | wsserver.c:263-293 | Over every run: the manager is in use exactly before closing begins, an upstream exists only while frames are being received, and the socket state only moves forward. |
| Lifecycle.CallbackDiscipline | wsserver.c:551-634 | Over every run: WSCB_CLOSE at most once, deletion at most once and last, no message behind either. |
| Lifecycle.OnClosedOnlyInitiates | wsserver.c:623-634 | While an upstream exists wsconn_onclosed only starts the closing handshake; its deleting branch is never taken. |
| Deletion.DeletableExactly | wsserver.c:444-458 | Once its manager has been released, a connection can still be deleted if and only if the closing handshake is on the way or fl_cm_closed is set. |
| Deletion.GoneDeletableExactly | wsserver.c:551-562 | After an end of file deletion can follow, through a further event on the same socket, if and only if fl_cm_closed was set. |
| Deletion.LostAfterHandshake | wsserver.c:430-442 | After a successful handshake and an end of file nothing that happens deletes the connection. |
| Deletion.NotLostBeforeHandshake | wsserver.c:551-562 | Before the handshake, or after a refusal, a second end of file or error can delete the connection. |
| Deletion.OnlySecondEndDeletes | wsserver.c:551-562 | After an end of file on a connection in use nothing but a second one deletes it. |
| Deletion.ConnectedDeletable | wsserver.c:623-634 | A connection with an upstream can be deleted, by its failure and draining. |
| Deletion.UnoccupiedDeletable | wsserver.c:353-385 | A connection with nothing buffered can be deleted, by a Close frame and draining. |
| Deletion.StalledNeverDeletable | wsserver.c:551-562 | A connection without upstream whose frame buffer is full of an unfinished frame is never deleted. |
| OutputDiscipline.EveryRunIsTidy | wsserver.c:326-416 | Over every run: behind the handshake response whole frames only, one Pong per Ping taken with its payload and in order, the upstream stanzas in order, at most one Close and it is last; the client decodes exactly those frames if and only if no payload is longer than 65535 bytes. |
| OutputDiscipline.WireParses | wsserver.c:478-544 | Frames written one after the other parse back to those frames with nothing left over if and only if no payload is longer than 65535 bytes. |
| OutputDiscipline.GracefulDeletion | wsserver.c:444-458 | When draining deletes a connection the client has been sent everything, ending in a Close frame. |
| OutputDiscipline.CloseEchoes | wsserver.c:353-385 | A Close is answered with its own payload, with status 1001 if it has none, and with nothing if the status is zero. |
| Consumption.AddContinues | wsmessage.c:226-240 | Bytes added while something is pending come to the same, once it is taken, as bytes added later. |
| Consumption.TakesTheStreamInOrder | wsserver.c:295-427 | Over every run, breaks after Pings included: what was taken is a beginning of what the admitted bytes mean, and the engine still yields exactly the rest. |
| Taking.LoopTakes | wsserver.c:326-416 | With either loop: of what the engine would yield, exactly what comes up to the first Ping, Close or binary message is taken, and that event. |
| Taking.ReadTakesExactly | wsserver.c:295-427 | Over every run: a read takes, of everything admitted and not yet taken, what comes up to the first such event and that event; it takes everything if and only if none comes before the last event. |
| Taking.AsWrittenReadTakesExactly | wsserver.c:295-427 | The same of the code as it stands, on the runs on which it takes the same steps. |
| Taking.TextWaitsBehindPing | wsserver.c:386-396 | Of a Ping and a text in one segment the read takes the Ping, and the next read the text. |
| Forwarding.UpstreamConservation | cmanager.c:154-187 | Over every run: each text taken reaches the manager once and in order, and until it is closed the bytes written upstream followed by the bytes held are exactly the accepted ones, those of ST_START before those of ST_FORWARD. |
| Losses.AllAcceptedExactly | cmanager.c:161-186 | Everything delivered is accepted if and only if no message with content met ST_CONNECT or a parser error. |
| Losses.EveryTextForwardedExactly | cmanager.c:154-187 | Over every run, until the manager is closed: all texts taken are written upstream or still held, in order, if and only if none of them was so passed over. |
| Losses.SecondLetterLost | cmanager.c:161-186 | Of the texts "a" and "b", read while the server is found and then connected to, the second is lost. |
| Reactions.EveryRunReacts | wsserver.c:400-415 | Over every run: WSCB_MESSAGE fires once per text message taken, in order, with its payload; a binary message closes the socket and nothing is taken behind it; WSCB_CONNECTED fires twice or never. |
| System.FromFramesToServer | wsserver.c:295-427 | From a client's frames on the wire to the bytes at the XMPP server, over every run, with any limits. |
| System.UnlimitedFramesToServer | wsserver.c:295-427 | The same in terms of all the bytes read, when there is no frame limit. |
| Agreement.RunAgrees | wsmessage.c:170-220 | Over every run in which no read leaves a frame behind a completed message, the code as it stands does what the re-tested loop does. |
| Reads.ReadEndsExactly | wsserver.c:295-427 | Over every run: after a read the socket is closed if the bytes admitted decode with a failure and no Ping, Close or binary message is left to be taken; otherwise the first of these decides, a Ping leaving it open; without them or a failure it stays open. A socket no longer open has been announced with WSCB_CLOSE. |
| Reads.NextReadCloses | wsserver.c:330-339 | A failure that a Ping has put off closes the socket with the next read, whatever that brings. |
| Reads.WrittenReadExactly | wsserver.c:295-427 | The same of the code as it stands over every run, with the events taken: what was pending and what the frames buffered come to, up to the first Ping, Close or binary message. |
| ReadInputs.PingBehindText | wsmessage.c:185-196 | The text "a" and a Ping in one segment, as the code stands: the Ping is answered by this read and the text follows with the next. |
| ReadInputs.ReservedBitsClose | wsserver.c:333-339 | A frame with a reserved bit closes the socket and fires WSCB_CLOSE, with either loop. |
| CloseFrames.EveryCloseSays | wsserver.c:353-385 | Over every run: if the last event taken is a Close, the last frame written is a Close with its payload, with status 1001 if that has fewer than two bytes, and empty if it begins with two zeros; a Close written without one carries 1001 and "XMPP server closed". |
| Stages.EveryRunIsStaged | cmanager.c:150-194 | Over every run: the manager has not left ST_START if and only if no text delivered made the parser know the server, each verdict being the parser's on all the texts up to that one; the upstream of an open manager exists exactly otherwise; the manager forwards if and only if that upstream has reported that it is connected. |
| Divergence.EveryRunAgreesExactly | wsmessage.c:170-220 | Over every run: the two leave the same connection behind after each callback if and only if no loop that ran completed a message in front of a buffered frame. |
| Divergence.PartedStaysApart | wsmessage.c:213-220 | Where they part at a completed message, the connections differ at the end of that read, whatever comes behind. |
| Divergence.QuietIsClear | wsmessage.c:170-220 | A run in which no read leaves a frame behind a completed message is one on which they agree. |
| Divergence.AsWrittenFramesToServer | wsserver.c:295-427 | On the runs on which they agree the code as it stands takes the client's stream in order and passes its texts on. |
| Session.FromRequestToServer | wsserver.c:213-427 | A whole session without a frame limit: an acceptable request in any chunks with frames behind it, then any callbacks; what is taken is a beginning of what the frames complete, its texts reach the manager, and what it accepted reaches the server in order. |
| Downward.FromServerToClient | cmanager.c:226-266 | Over every run of connection and framer: the text frames written are the document's frames, from the first on, in order, each cut to the stanza buffer, and all of them once the whole document is reported; the client decodes every frame as it was meant if and only if no frame of the document, Ping or Close has more than 65535 bytes, and then its texts are the document's frames. |
| Downward.RunDrawn | cmanager.c:226-266 | After every read callback the framer is aligned with the stream and nothing is left to take. |
| Framing.DocumentRecorded | framer.c:149-252 | For a stream whose only namespaced `stream` element is the root, the handlers record the root's open tag, each depth-1 subtree and the close tag, if and only if every stanza carries a namespace. |
| Framing.DocumentSliced | framer.c:218-284 | Those ranges increase, do not overlap, and cut out exactly those bytes. |
| Framing.RestartRecorded | framer.c:155-177 | A stream that begins in any state of the handlers, inside other elements or behind other streams, is recorded behind what was there, likewise if and only if. |
| FramerRuns.BareStanza | framer.c:149-313 | For a root and one stanza without a namespace, the frame recorded for the stanza starts at the beginning of the stream and, once the root is taken, is longer than what the buffer holds. |
| FramerRuns.RunAligned | framer.c:127-141 | After any additions and extractions the buffer is the stream from buffer_index on and the list holds the ranges not yet taken. |
| FramerRuns.AlignedTakeable | framer.c:254-313 | A list that is not empty can be taken from, and what is taken is the stretch of the stream its range names. |
| FramerRuns.FramesOfDocument | framer.c:254-313 | Over every run on a beginning of a document: the frames taken are the first of its frames, and once all is reported and taken, all of them. |
| FramerRuns.CuttingDoesNotShow | framer.c:127-141 | Two ways of cutting the input and interleaving extractions give the same frames. |
| FramerRuns.DrainTakesAll | cmanager.c:260-265 | The taking loop leaves no frame behind. |
| FramerObject.FramerT.AddFrame | framer.c:181-202 | The linked list grows by one range at its end. |
| FramerObject.FramerT.RemoveFrame | framer.c:204-216 | The linked list loses its first range, and is empty at both ends when that was the last. |
| FramerObject.FramerT.Handle | framer.c:149-252 | The start and end handlers do to level, index and list what they do to the value. |
| FramerObject.FramerT.Add | framer.c:127-141 | Handler calls first, then the bytes. |
| FramerObject.FramerT.GetFrame | framer.c:254-284 | The gap is skipped, the frame copied out, and both leave buffer and list. |
| FramerObject.FramerT.GetFrame2 | framer.c:286-313 | The same into a fixed block, cut to it, with the full size reported. |
| FramerObject.FramerT.ForwardAll | cmanager.c:260-265 | On an aligned framer the loop takes every recorded frame in order, each cut to the block, and empties the list. |
| Base64.Str.AppendChar | util.c:137-145 | One character more, or nothing if the string is full. |
| Base64.Encode | base64.c:23-53 | With room for it the string is the encoding of section 4 of RFC 4648; without, it is filled up. |
| Base64.TripleDigits | base64.c:39-44 | Shifting and masking the 24-bit number gives six bits of the three octets each. |
| Base64.PaddingOverwrites | base64.c:34-52 | Overwriting the last characters of the whole groups gives the padded encoding. |
| Base64.DigitIs | base64.c:12-19 | The digits are the 64 characters of the alphabet in its order. |
| Base64.EncodedShape | base64.c:23-53 | Four characters per three octets begun, digits throughout but for the padding the length asks for. |
| Base64.BuildDecodingTable | base64.c:92-98 | Each digit's place holds the digit's value. |
| Base64.Decode | base64.c:55-89 | Null exactly for lengths that are no multiple of four; otherwise as many octets as the padding gives, every group of digits and pads decoded to its own, whatever stands in the other groups. |
| Base64.EncodeDecode | base64.c:23-89 | Decoding an encoding gives the octets back, for all non-empty octet strings. |
| Base64.DecodeEncode | base64.c:23-89 | Encoding a decoded string gives it back if and only if it was canonical. |
| RequestObject.LineBuffer.Append | rqparser.c:201-207 | The block holds a C string afterwards if and only if there was room for a NUL or its last character is one, and then it is the old text with the line behind it, cut to 4095 characters. |
| RequestObject.TrimBeginning | util.c:93-107 | Leading white space goes, and the rest is cut to the block. |
| RequestObject.TrimWhitespace | util.c:109-135 | White space on both sides goes, by one pass, and the rest is cut to the block. |
| Request.TrimOf | util.c:109-135 | Trimming takes off all white space around a text and nothing else. |
| RequestObject.NextToken | rqparser.c:319-335 | One strtok call returns the first token of what is left, and leaves the others. |
| Request.TokensOfJoined | rqparser.c:389-394 | Tokenising finds the tokens again, whatever delimiters separate them. |
| RequestObject.HttpRequest.AddLine | rqparser.c:142-211 | The object takes the step of the value model for every line in every state, as long as the line has room for a NUL or ends in one. |
| RequestObject.HttpRequest.ParseRequestLine | rqparser.c:313-344 | Three words or an error, and which fields are set in either case. |
| RequestObject.HttpRequest.ProcessHeader | rqparser.c:213-251 | Which field a header sets, and how it is trimmed and cut. |
| RequestObject.HttpRequest.GetProtocols | rqparser.c:379-409 | Each trimmed list element goes to the head of the protocol list, and of the list itself only the beginning up to the first token's end stays readable. |
| RequestObject.FindConnectionUpgrade | rqparser.c:411-438 | Whether some trimmed element is "Upgrade" in any case. |
| RequestObject.ProtocolsContains | rqparser.c:453-464 | Whether the list has the protocol. |
| Request.UnfoldsThenSplits | rqparser.c:160-207 | For any non-empty lines and the empty one: unfold, cut, split at the first colon, process in order; an error exactly when some header has no colon. |
| Request.FoldingDoesNotShow | rqparser.c:142-211 | However proper headers are folded, exactly their keys and values are processed, in order, and the request ends done without an error. |
| Handshake.AcceptedExactly | rqparser.c:466-585 | A request is accepted if and only if its words and headers, by their spelled names, are acceptable: which of several headers counts, which lists are searched. |
| Handshake.FieldsOf | rqparser.c:213-251 | Single values are those of the last such header; flags and protocols, once found, stay. |
| Handshake.EachHeaderSets | rqparser.c:213-251 | With the names spelled out: a header with one of the seven names, in any case, sets exactly its own field, trimmed and cut to its block, list elements in front of the list and the last of them first; any other header sets nothing. |
| Handshake.AnsweredExactly | rqparser.c:466-585 | The answer in terms of the words and headers: the status of the first condition that is not met, or 101 with the echo of Connection and the Base64 of the hash of key and fixed string. |
| Request.SpacesAre | util.c:93-135 | The six characters that count as white space. |
| Request.LettersAre | rqparser.c:219-250 | Case is that of the 26 letters and of nothing else. |
| Request.FirstPartOf | rqparser.c:389-394 | What strtok leaves readable of a list is its beginning up to the end of the first token. |
| SampleRequest.SampleAccepted | rqparser.c:466-585 | The request of section 1.3 of RFC 6455, with "xmpp" among its protocols, is accepted by every configuration with nothing against its host, resource and origin. |
| SampleRequest.SampleAnswered | rqparser.c:362-377 | Its answer echoes "Upgrade" and carries the accept value of that section. |
| SampleRequest.ResourceAsVersion | rqparser.c:313-344 | Of its request line the resource is kept twice and the version not at all. |
| CutLists.SearchedWholeExactly | rqparser.c:226-240 | The tokens of a list are those of the whole value if and only if it has fewer than 64 characters or only commas from the 64th on. |
| CutLists.SearchAgreesExactly | rqparser.c:226-240 | A search of the cut list finds what a search of the whole one does if and only if the word the cut goes through, what is kept of it and what is behind it come to the same, or a hit stands before it. |
| CutLists.AsksUpgradeExactly | rqparser.c:226-231 | So for "Upgrade" in Connection. |
| CutLists.OffersXmppExactly | rqparser.c:236-240 | So for "xmpp" in Sec-WebSocket-Protocol. |
| CutLists.CutWordFound | rqparser.c:226-231 | The cut finds "Upgrade" in a list that has only "Upgrades". |
| CutLists.LateWordLost | rqparser.c:226-231 | The cut loses "Upgrade" from a list that has it. |
| RequestObject.GetAccess | rqparser.c:362-377 | The accept value of section 4.2.2 of RFC 6455, 28 characters long, fits its block. |
| RequestObject.Decide | rqparser.c:466-585 | The answer, and success exactly when it switches protocols. |
| RequestReader.ReadRequest | wsserver.c:227-252 | The loop over complete lines reads what the value model reads and leaves the rest in the input. |
| RequestReader.ShortRequest | rqparser.c:194-207 | A request folded in any way whose headers have fewer than 4095 characters leaves room for a NUL throughout. |
| RequestReader.ChunksDoNotShow | wsserver.c:227-252 | However the request's bytes arrive, the reading is that of the whole. |
| RequestReader.DecidedByItsHeaders | wsserver.c:227-252 | Bytes in any chunks, headers folded in any way: the decision is that of the headers, and what follows the request is left. |
| RequestReader.FailsExactly | wsserver.c:236-252 | Reading fails if and only if the request line has fewer than three words or some header no colon among the characters that are kept; otherwise it ends behind the empty line. |
| RequestReader.EndingsDoNotShow | wsserver.c:231 | Whether a line ends in CRLF or in LF alone makes no difference. |
| RequestReader.NulEndsLine | rqparser.c:142-211 | Behind a NUL nothing of a line is read. |
| Opening.MalformedCloses | wsserver.c:236-260 | A new connection whose request line or one of whose headers is malformed, in any chunks and with anything behind, is closed with WSCB_CLOSE and has written nothing. |
| Opening.OpeningHandshake | wsserver.c:213-293 | A new connection sent a request in any chunks is upgraded exactly if its headers are acceptable and closed otherwise, has written exactly the answer that the headers ask for, and holds to the byte what was sent behind the request. |

## Left out

- libevent: sockets, listeners, DNS and evbuffers are byte sequences and events that arrive in any order; upstream callbacks are not delivered inside a client callback, and an upstream end of file is an event the code ignores.
- Expat: the framer is given start and end events with their positions, none beyond the bytes added so far; a parse error is not modelled.
- The server discovery of `streamparse.c`: an arbitrary function of the messages it was fed.
- The framer's reset on reads that begin with an XML declaration or a stream tag (`cmanager.c:248-253`): it depends on how reads are cut.
- ConnectionObject.WsConn.ReadCb: takes the outcome of the request lines and the input they used up as given; Callbacks.ReadRequestCb, which calls it, computes them.
- ConnectionObject.WsConn.UpstreamReadCb: takes the frames as given; Callbacks.ReadUpstreamCb, which calls it, draws them from the framer.
- Allocation failure, `int` and `size_t` overflow, and what the code reads of memory that was never written.
- The frame encoder's host is little-endian, which decides what `htons` leaves in a 32-bit word.
- SHA-1 and the origin patterns: arbitrary functions. Configuration files: given values.
- The text of HTTP responses: a response is its status, or the two values that a successful one carries.
- RequestObject.HttpRequest.ProcessHeader: keeps the fields as strings cut to their blocks, and the protocol list as a sequence, in place of `str_t` and the linked list.
- RequestObject.HttpRequest.AddLine: not for headers of 4095 characters or more in a block whose last character, which nothing writes, is not a NUL; the code then reads beyond the block.
- RequestObject.TrimBeginning: `str_set_string` takes the value for a printf format (`util.c:102`, `util.c:53-61`), so a header value or a word of the request line with a percent sign in it is stored differently from what the model keeps.
- Consumption.TakesTheStreamInOrder: is about the re-tested loop; Divergence.EveryRunAgreesExactly says on which runs the code as it stands takes the same steps.
- Session.FromRequestToServer: without a frame limit; with one, System.FromFramesToServer speaks of the bytes that the frame buffer let in.
- UTF-8 in texts and the meaning of status codes in Close frames: the code does not look at them.
- `rq_clear`, `rq_delete`, `wsmsg_delete`, `framer_delete`: they release memory or start over.
- `wsconn_close_send`, `cm_reset`: nothing calls them.
- Base64.Decode: not for the empty string, of which the code reads the characters before its beginning, nor for characters above 127, whose place in the table depends on whether `char` is signed.
- `main.c`, logging, the YAML configuration and the test programs.
