# Wire protocols of the camera server, modelled and proved in Dafny

The server writes several wire protocols by hand: WebSocket framing with its session, SHA-1 and Base64, an
H.264 pipeline from file to RTP, RTP interleaved with RTSP, an MQTT client, DNS, SIP and HTTP messages, and
two serial framings. Each is a stateful loop over a buffer, and each has a simple meaning. These modules
model the loops as they are written - same branches, constants and error cases - and prove that they have
that meaning.

`dafny verify dfyconfig.toml` verifies the project.

## How it is laid out

- `Bytes`, `Text`: bytes, big-endian numbers, searching; lines, tokens and numbers as the C++ library reads them.
- `Incremental`: the shape that the receive paths share. A step function looks at the front of a buffer; reading
  appends a chunk and takes steps until more bytes are needed. If later bytes do not change a decision, the way a
  stream is cut cannot be observed. WebSocket, interleaved RTP, both serial protocols and HTTP are instances.
- `WsFrame`, `WsReceive`, `WsLate`, `WsSession`, `WsRuns`, `WsConnection`: the header codec and masking; the receive
  path against a reference decoder; what it still does after its end; the whole session as a state machine whose steps
  are the asio callbacks, with send-path safety and the heartbeat; its runs against the reference decoder, and the close
  handler; the session object, each of whose callbacks is proved to be its step.
- `WsWire`, `WsPeer`: the same from outside: what a session makes of the octets it receives, bit by bit, and what a peer
  reads off the wire in every run, both with the numbers of RFC 6455 and none of the codec's functions.
- `Sha1`, `Sha1Words`, `Sha1Answer`, `Base64`: the streaming class against the functional specification of RFC 3174; what
  its operations on words mean bit by bit; the known answer for "abc", round by round; the encoder.
- `BitWriter`, `NalWriter`, `AnnexB`, `H264Source`, `PlaySchedule`, `VideoPlayer`: Exp-Golomb codes, emulation prevention,
  the two byte-stream splitters, FU-A packets; which part of which unit each packet of a played file carries, and when;
  and the player that feeds them, end to end.
- `Interleaved`, `Serial`: framing on one TCP connection, and on a serial line.
- `MqttCodec`, `MqttBroker`, `MqttQos`, `MqttReuse`: packets; how a broker reads them; identifiers, and client and broker
  as one protocol over two FIFO channels; when an identifier can be used again.
- `MqttInbound`, `MqttSettles`: the receiver's half of that protocol for publications of the broker, and the sender's half
  on channels that lose nothing: every exchange ends.
- `DnsName`, `DnsMessage`, `DnsWire`, `Http`, `HttpText`, `Sip`, `SipText`: message codecs and parsers; their wire formats
  octet by octet, and what becomes of input that is not written as the program writes it.
- `WireSamples`: the small encodings against the tables and examples of their standards.

A C++ class that is updated in place is a class here, with methods proved against a specification function; what
that function means is stated by lemmas. Bytes are integers from 0 to 255, and widths that matter (the wrap-around
of `write_ue`, of packet identifiers, of RTP timestamps, of serial frame sizes; 16-bit and 64-bit lengths) are
written out. `size_t` is unbounded where a buffer would have to exceed memory for it to matter. What comes from
outside - reads, clocks, socket errors, refusals of a callback, the order in which a header map hands out its
entries - is a parameter or a choice of step, and the theorems hold for every value of it.

## Where the code falls short of what it says

Some promises of the comments or of a standard are kept only in part. The code is modelled as it is; for each the
exact condition is proved, and where the condition does not name the failing inputs itself, one is shown:

- MQTT remaining lengths of four bytes are announced by the comment at src/mqtt/mqtt_client.cpp:17 and rejected by the
  decoder: `MqttCodec.RemainingLengthRoundTrip`, `MqttCodec.PublishRoundTrip`.
- A publication can get an identifier whose exchange is not over: it overwrites an entry that is still waiting, or an
  old answer erases its own: `MqttReuse.OverwritingBreaksThePromise`, `MqttReuse.OverwritingHappens`,
  `MqttReuse.OldAnswerTakenForNew`.
- A topic of 65536 bytes or more has its length cut off, and a broker can take two bytes of it for the packet
  identifier and acknowledge another publication: `MqttQos.ClearIsExact`, `MqttQos.LongTopicBreaksThePromise`.
- A DNS name whose pointers form a loop makes the decoder recurse without end: `DnsName.HangsIffLoops`,
  `DnsName.LoopingPointer`. Reserved length bytes, names without an end, pointers that do not go back and names of more
  than 255 octets are taken: `DnsName.StandardNames`, `DnsName.ReservedIsTaken`, `DnsName.LongNameIsTaken`.
- Decoded A, PTR, SRV and TXT records lose their name, type, class and time to live: `DnsMessage.RecordReadsBack`. The
  header comment promises label compression when encoding; the encoder does not compress.
- `LengthProtocol` forgets a read that holds a length over the limit, so what follows depends on the reads:
  `Serial.CutsAgreeIff`, `Serial.OverLimitDependsOnReads`; and an empty header, or a limit close to 2^32, can
  make a frame size zero, at which the loop never ends: `Serial.StuckIffWrap`. Nor does it with an empty delimiter:
  `Serial.ProgressIffDelimiter`.
- `write_ue` of the greatest unsigned value writes a code that is not one: `BitWriter.UeBitsReadBack`.
- Zero bytes behind a unit stay with it, which Annex B of ITU-T H.264 does not have: `AnnexB.StandardIffTidy`,
  `AnnexB.TrailingZeros`; `write_nal` can write such a unit: `NalWriter.WrittenByStandard`.
- A WebSocket session can deliver a message after it has been closed: `WsLate.MessageAfterEndIff`, `WsLate.LateReadIff`,
  `WsLate.DeliveryAfterShutdown`.
- `DoClose` calls the close handler again when the session is closed already (src/server/ws/ws_session.cpp:510-517):
  `WsRuns.CloseHandlerAgainIff`, `WsRuns.ClosedTwice`. Every call is an event of its own in the log.
- A received Close frame without a status is answered with status 1005, which section 7.4.1 of RFC 6455 reserves:
  `WsRuns.NoStatusReplyIff`, `WsRuns.EmptyCloseReply`.

## Model

| member | source | states |
|---|---|---|
| `Incremental.ChunkingUnobservable` | src/server/ws/ws_session.cpp:139-246 | for any step function whose decisions later bytes do not change, two ways of cutting one stream into reads end in the same state, leftover and output, which are those of one pass over the whole stream; the receive paths below are its instances |
| `Incremental.PassesFollowStream` | src/rtsp/rtspsession.cpp:83-113 | for a path that clears its buffer at a bad unit: whatever the reads, everything before the first bad unit comes out first, and without a bad unit state, leftover and output are those of the whole stream |
| `Incremental.StreamConserved` | src/serial/serial_protocol.cpp:50-89 | the bytes of the units taken, and then the leftover, are the stream |
| `WsFrame.ParseHeader` | include/server/ws/ws_frame.hpp:73-142 | the header parser returns exactly what the functional reading of section 5.2 of RFC 6455 says: incomplete, malformed, or the fields |
| `WsFrame.ParseOfHeaderBytes` | include/server/ws/ws_frame.hpp:73-142 | the bytes of any header with a valid opcode and a length below 2^32 are accepted, whatever follows, and give back final bit, opcode, mask bit, length and key |
| `WsFrame.AcceptedHeaderIsEncoded` | include/server/ws/ws_frame.hpp:73-142 | conversely, an accepted header is byte for byte the encoding of its fields: opcode valid, reserved bits zero, length in its shortest form |
| `WsFrame.ParseStable` | include/server/ws/ws_frame.hpp:73-142 | once a header is accepted or refused, bytes that arrive later do not change that |
| `WsFrame.ProperPrefixIsIncomplete` | include/server/ws/ws_frame.hpp:73-142 | a proper prefix of an accepted header means that more bytes are needed, never an error |
| `WsFrame.EncodeServerFrame` | include/server/ws/ws_frame.hpp:167-198 | the encoder writes the unmasked header of section 5.2 in its shortest form, then the payload |
| `WsFrame.ServerFrameRoundTrip` | include/server/ws/ws_frame.hpp:167-198 | parsing an encoded server frame with a payload below 2^32 bytes returns its fields and leaves exactly the payload |
| `WsFrame.MaskInvolution` | include/server/ws/ws_frame.hpp:149-160 | masking twice with one key gives the payload back |
| `WsFrame.ApplyMask` | include/server/ws/ws_frame.hpp:149-160 | the in-place loop xors octet i with octet i mod 4 of the key |
| `WsFrame.XorMeans` | include/server/ws/ws_frame.hpp:149-160 | what the masking loop does to an octet: each bit of the result is the sum modulo 2 of the two bits |
| `WsWire.HeaderOctets` | include/server/ws/ws_frame.hpp:73-142 | an accepted header is what its octets say: final bit, opcode number, mask bit, and the length in seven, sixteen or sixty-four bits |
| `WsWire.RefusedIff` | include/server/ws/ws_frame.hpp:73-142 | exactly which octets are refused - a reserved bit, an unknown opcode, a length in more octets than it needs or of 2^32 and more - and until when more are awaited |
| `WsWire.TakenOnWire` | src/server/ws/ws_session.cpp:158-361 | every frame that the loop goes on after, from its octets: bit k of payload octet i is the sum modulo 2 of the bits k of octet i behind the header and of octet i mod 4 of the four before it; and what the session then does, opcode by opcode |
| `WsWire.HelloIsRead` | src/server/ws/ws_session.cpp:158-361 | the masked text frame of section 5.7 of RFC 6455 is read as "Hello" |
| `WsWire.ReadIsGuarded` | src/server/ws/ws_session.cpp:139-156 | a read is processed as long as rest and new bytes fit `max_frame_buffer_bytes`; otherwise the session announces its end with status 1009 and reads no more |
| `WsReceive.LogIndependentOfReads` | src/server/ws/ws_session.cpp:108-361 | for any bytes and any way of cutting them into what the handshake leaves and reads, the log of messages, pongs, frames seen and close up to the first close is that of one pass over the stream; if a read does not fit the frame buffer, it is that of the reads before it and then a close with status 1009; what the handshake leaves is not held against that limit |
| `WsReceive.SessionIsReferenceDecoder` | src/server/ws/ws_session.cpp:158-361 | every byte stream is a list of masked client frames that conform, the longest there is, and a tail; the session logs what the reference decoder says of these frames - the first fragment joined with its continuations, pings answered, interleaved control frames left out - and then the verdict on the tail: nothing while bytes are missing; status 1002 for a malformed header, an unmasked frame, a control frame in fragments or too long, a misplaced data frame; 1009 for a message or frame over its limit; the status it carries for a Close |
| `WsReceive.ReadsMeanReference` | src/server/ws/ws_session.cpp:108-361 | the two results above together: what the handshake leaves, and reads that fit the frame buffer, cut anywhere, show the reference log of the conforming frames and the verdict on the tail |
| `WsReceive.ConformingPrefix` | src/server/ws/ws_session.cpp:158-361 | after any conforming list of frames at the front of a stream the session is in the state, and has the log, of the reference decoder, and carries on with the rest |
| `WsReceive.MessagesAreAssembled` | src/server/ws/ws_session.cpp:316-361 | the messages delivered are the data frames cut after each final one, each group joined, with the type of its first frame (section 5.4 of RFC 6455) |
| `WsReceive.DeliveredBounded` | src/server/ws/ws_session.cpp:178-194 | in one pass of the loop from any state no message delivered, and no message being joined, is longer than `max_message_bytes` |
| `WsReceive.RunBounded` | src/server/ws/ws_session.cpp:108-251 | in what the handshake leaves and over any run of reads no message delivered, before or after the end of the session, is longer than `max_message_bytes` |
| `WsLate.MessageStepIff` | src/server/ws/ws_session.cpp:164-236 | in every state, also after the end of the session, a turn of the loop delivers a message exactly if the buffer starts with a whole masked final data frame within both limits that is a continuation just when a message is in progress |
| `WsLate.MessageAfterEndIff` | src/server/ws/ws_session.cpp:158-246 | one pass of the loop delivers a message after the end of the session exactly if the buffer starts with frames that the loop goes on after, one of them a Close or a misplaced data frame that finds the session active, and behind them such a final data frame |
| `WsLate.LateReadIff` | src/server/ws/ws_session.cpp:108-251 | over any run of reads this happens exactly if what the handshake leaves, or one of the reads, brings both; the session reads no more after the read that ended it |
| `WsLate.DeliveryAfterShutdown` | src/server/ws/ws_session.cpp:229-236 | for one: an empty continuation and an empty text frame in one read call the close handler and then deliver a message |
| `WsSession.SendPathSafe` | src/server/ws/ws_session.cpp:262-304 | over every interleaving of reads, sends, closes, strand turns, network progress, write completions and timers: at most one write is outstanding; while the socket is open a write is outstanding exactly if the queue is not empty; the wire is a prefix of what was enqueued; at most one Close frame is enqueued, none while active, and nothing follows it on the wire (section 5.5.1 of RFC 6455) |
| `WsPeer.PeerReadsLog` | src/server/ws/ws_session.cpp:262-304 | a peer that reads the wire by section 5.2 of RFC 6455 gets, over every interleaving, the frames of the log in order, from the first: final bit, opcode number and payload of each, with two octets of status and the reason in a Close; with the socket open these are exactly the frames whose write has ended, and the one in flight if nothing of it is missing |
| `WsPeer.StepAnnounces` | src/server/ws/ws_session.cpp:412-453 | what each step adds to the log: one frame with the opcode and payload given for a send, one Close with code and reason for a close of an active session, the end with its status after an error, a Close written or a timeout, a ping when idle |
| `WsSession.StepKeeps` | src/server/ws/ws_session.cpp:437-505 | each of those steps keeps the invariant behind this, for every state that has it |
| `WsSession.HeartbeatClosesOnlySilentPeers` | src/server/ws/ws_session.cpp:363-396 | when the heartbeat closes an active session, a full timeout has passed since the last whole frame or the opening, and a ping was enqueued since |
| `WsSession.SilentPeerIsDropped` | src/server/ws/ws_session.cpp:363-396 | on an ideal clock a session is active only while its next timer is due before the last whole frame plus max(timeout, interval) plus twice the interval; `SetSessionOptions` raises the timeout to the interval, so this is timeout + 2 * interval |
| `WsRuns.SessionHearsReference` | src/server/ws/ws_session.cpp:108-505 | over every interleaving of reads, sends, closes, strand turns, network progress, write completions and timers: the frames, messages and pongs in the log up to the first end are those of the reference decoder on the bytes that the handshake leaves and that are read while the session is active (without a read that does not fit the frame buffer) |
| `WsRuns.CloseHandlerAgainIff` | src/server/ws/ws_session.cpp:510-531 | in every such run the close handler is called more than once exactly if some step closes a closed session: an outstanding read fails; a read, or what the handshake leaves, brings, behind frames the loop goes on after, what is given up with status 1002 on a session closed by then; or a write ends that failed or was the Close |
| `WsRuns.ClosedTwice` | src/server/ws/ws_session.cpp:510-517 | for one: the heartbeat drops a silent peer, then the outstanding read fails, and the close handler is called twice |
| `WsRuns.NoStatusReplyIff` | src/server/ws/ws_session.cpp:262-290 | a turn of the loop sends status 1005 exactly if the session is active and the buffer starts with a whole Close whose payload has fewer than two bytes or begins with that status |
| `WsRuns.EmptyCloseReply` | src/server/ws/ws_session.cpp:262-290 | for one: an empty Close is answered with status 1005, which section 7.4.1 of RFC 6455 reserves |
| `WsRuns.RunWithin` | src/server/ws/ws_session.cpp:139-505 | no message longer than `max_message_bytes` is delivered in any run of the whole session |
| `WsConnection.Connection.constructor` | src/server/ws/ws_session.cpp:104-124 | after the handshake the object is active and has processed the bytes that came behind the request, as the session opens |
| `WsConnection.Connection.OnFrameData` | src/server/ws/ws_session.cpp:139-156 | the read handler changes the object exactly as the read step: buffer, reassembly, log, frames posted, heartbeat fields, whether another read follows |
| `WsConnection.Connection.ProcessFrames` | src/server/ws/ws_session.cpp:158-246 | the loop over the frame buffer is the drain of its single step: what it consumed, whether it gave up, what it did on the way |
| `WsConnection.Connection.ProcessFrame` | src/server/ws/ws_session.cpp:164-236 | one turn of that loop decides and does what the step function says in each of its branches |
| `WsConnection.Connection.HandleControlFrame` | src/server/ws/ws_session.cpp:256-314 | Close is answered with its status code, Ping with a Pong of the same payload, Pong with nothing |
| `WsConnection.Connection.HandleDataFrame` | src/server/ws/ws_session.cpp:316-361 | fragment reassembly, with its protocol errors and its size limit, as in the receive model |
| `WsConnection.Connection.Close` | src/server/ws/ws_session.cpp:437-453 | an active session starts closing and enqueues one Close frame with code and reason; any other does nothing |
| `WsConnection.Connection.OnStrand` | src/server/ws/ws_session.cpp:455-465 | the posted handler moves its frame to the queue and starts a write if the queue was empty and none was under way |
| `WsConnection.Connection.OnWriteComplete` | src/server/ws/ws_session.cpp:467-505 | the completion handler pops the front, closes after an error or a Close frame, or else starts the next write |
| `WsConnection.Connection.OnHeartbeatTimer` | src/server/ws/ws_session.cpp:378-396 | the timer pings an idle peer, and closes one that has been silent for the timeout since |
| `Sha1.Sha1.Update` | src/ws/sha1.cpp:21-54 | after any updates the chaining value is the fold of the compression over the complete blocks of everything given so far, and the buffer holds the tail of fewer than 64 bytes |
| `Sha1.Sha1.Final` | src/ws/sha1.cpp:56-92 | the result is SHA-1 of everything given so far: the padding of section 4 and the compression of section 6.1 of RFC 3174; the padding loop ends |
| `Sha1.Sha1.ProcessBlock` | src/ws/sha1.cpp:109-153 | one block is compressed by the 80 rounds of section 6.1 over the schedule of 80 words |
| `Sha1.BlocksStep` | src/ws/sha1.cpp:109-153 | one more block is compressed into the chaining value of those before it |
| `Sha1Words.AndMeans` | src/ws/sha1.cpp:120-139 | the operations on words, bit by bit: both bits are one |
| `Sha1Words.OrMeans` | src/ws/sha1.cpp:120-139 | at least one of the bits is one |
| `Sha1Words.XorMeans` | src/ws/sha1.cpp:117-139 | the sum of the bits modulo 2 |
| `Sha1Words.NotMeans` | src/ws/sha1.cpp:120-139 | the other bit |
| `Sha1Words.RotationMeans` | src/ws/sha1.cpp:105-107 | a circular shift by n < 32 is the word times 2^n modulo 2^32, plus the bits that fell out |
| `Sha1Words.WordBytesMean` | src/ws/sha1.cpp:79-92 | a word is written as its four octets, the greatest first, and read back from them |
| `Sha1Answer.HashOfAbc` | src/ws/sha1.cpp:56-153 | the known answer of section 7.3 of RFC 3174: the hash of "abc", through the 80 words of the schedule and the registers after each round |
| `Sha1.HashOf` | src/ws/sha1.cpp:94-103 | the one-shot hash is SHA-1 of its argument |
| `Sha1.HashOfPieces` | src/ws/sha1.cpp:21-92 | hashing any list of pieces one after the other is SHA-1 of their concatenation |
| `Base64.Base64Encode` | src/ws/sha1.cpp:159-195 | the loop writes the encoding of section 4 of RFC 4648, with the last one or two bytes padded |
| `Base64.Base64RoundTrip` | src/ws/sha1.cpp:159-195 | decoding by the standard gives every byte string back, and four digits are written for every three bytes begun |
| `WireSamples.Alphabet` | src/ws/sha1.cpp:156-196 | the 64 digits are those of table 1 of RFC 4648 |
| `WireSamples.Foobar` | src/ws/sha1.cpp:159-196 | three examples of section 10 of RFC 4648, with two, one and no padding signs |
| `AnnexB.ExtractNALUnits` | src/rtp/rawh264source.cpp:141-185 | the index loops return the stretches between start codes of three or four bytes, never empty, each with its type |
| `AnnexB.KindsAreTypes` | src/rtp/rawh264source.cpp:173-178 | every unit has a first byte, and its type is the lower five bits of it |
| `AnnexB.ParseNALUnitsFromPacket` | src/media/nalsource_adapter.cpp:270-350 | the other splitter returns the same units and types on every byte string |
| `AnnexB.FindStartCode` | src/media/nalsource_adapter.cpp:352-374 | it returns the first place at or after `start_pos` where a start code of three or four bytes begins, or none |
| `AnnexB.UnitsOfStream` | src/rtp/rawh264source.cpp:141-185 | any list of units without start codes inside, each behind a three- or four-byte start code, is recovered exactly |
| `AnnexB.StandardIffTidy` | src/rtp/rawh264source.cpp:141-185 | what the two splitters return is the list of units by section B.1.2 of ITU-T H.264, where a unit also ends before 00 00 00, exactly if no unit has 00 00 00 in it and none ends in 00 before a start code |
| `AnnexB.TrailingZeros` | src/rtp/rawh264source.cpp:141-185 | for one: in 00 00 01 65 00 00 00 00 01 41 the splitters find the unit 65 00 where the standard has 65 |
| `NalWriter.WriteNal` | tools/gen_test_h264.cpp:70-101 | the loop writes a start code, then header and payload with 03 inserted after every two zero bytes before a byte of at most 03 |
| `WireSamples.UnitIsWritten` | tools/gen_test_h264.cpp:70-100 | a written unit byte by byte: 03 is inserted between two zeros and each of 01 to 03, and not before a greater byte |
| `NalWriter.EscapeRoundTrip` | tools/gen_test_h264.cpp:80-98 | discarding each 03 after 00 00 gives back header and payload |
| `NalWriter.EscapedIsFree` | tools/gen_test_h264.cpp:80-98 | behind the start code none of 00 00 00, 00 00 01 and 00 00 02 occurs |
| `NalWriter.WrittenIsRecovered` | tools/gen_test_h264.cpp:70-101 | any list of units so written is recovered exactly by the splitter |
| `NalWriter.WrittenByStandard` | tools/gen_test_h264.cpp:70-101 | the standard finds the same units in a written file exactly if none but the last ends in a zero byte; the writer does not add the 03 that section 7.4.1 asks for there |
| `BitWriter.BitWriter.WriteBits` | tools/gen_test_h264.cpp:26-30 | the bits in `bytes` and the pending bits of `buf` are those written before and then the low bits of the value, most significant first |
| `BitWriter.BitWriter.WriteUe` | tools/gen_test_h264.cpp:32-42 | it appends the Exp-Golomb code of section 9.1 of ITU-T H.264 for value + 1 modulo 2^32 |
| `BitWriter.BitWriter.WriteSe` | tools/gen_test_h264.cpp:44-52 | it appends the code of the signed mapping |
| `BitWriter.BitWriter.Flush` | tools/gen_test_h264.cpp:54-58 | it appends a one bit and zero bits up to the byte boundary, and the last byte is not zero |
| `BitWriter.UeRoundTrip` | tools/gen_test_h264.cpp:32-42 | every code is decoded to its number, whatever bits follow |
| `BitWriter.UeBitsReadBack` | tools/gen_test_h264.cpp:32-42 | what is written for an unsigned 32-bit value is read back, whatever follows, exactly if the value is not 2^32 - 1, where the addition of one wraps around |
| `BitWriter.SeIsBijection` | tools/gen_test_h264.cpp:44-52 | the signed mapping and its inverse undo each other on all integers and all code numbers |
| `BitWriter.SeRoundTrip` | tools/gen_test_h264.cpp:44-52 | a signed value is read back from its code, whatever follows |
| `WireSamples.FirstCodes` | tools/gen_test_h264.cpp:32-42 | the first code words are those of table 9-2 of ITU-T H.264 |
| `WireSamples.FirstSignedCodes` | tools/gen_test_h264.cpp:44-52 | 1, -1, 2 and -2 have the code numbers 1 to 4 |
| `WireSamples.BitsInByte` | tools/gen_test_h264.cpp:12-30 | the first bit written is the most significant of its byte |
| `H264Source.HandleFrame` | src/rtp/h264source.cpp:37-121 | a unit becomes one packet or its FU-A fragments, with timestamp, type and last flag; if the callback refuses one, what was sent before is a prefix and the result is false |
| `H264Source.PacketisationRoundTrip` | src/rtp/h264source.cpp:45-120 | a receiver by RFC 6184 gets every unit of type 1 to 23 back from its packets, whatever packets follow |
| `H264Source.LongNalShape` | src/rtp/h264source.cpp:60-120 | a unit longer than 1420 bytes has at least two fragments, each with 1 to 1418 bytes of it; the start bit is on the first only, the end bit on the last only, and the header can be rebuilt (section 5.8 of RFC 6184) |
| `WireSamples.OnePacketIff` | src/rtp/h264source.cpp:45-59 | a unit goes into one packet, as it is, exactly if it has at most 1420 bytes |
| `WireSamples.PacketsAreFull` | src/rtp/h264source.cpp:60-120 | otherwise every packet but the last has 1420 bytes, 1418 of them the unit's; how many there are |
| `H264Source.PacketsFitTheirBuffer` | src/rtp/h264source.cpp:45-120 | no packet with its two headers is longer than its 1600-byte buffer |
| `VideoPlayer.Player.ReadNextFrame` | src/rtp/rawh264source.cpp:56-106 | it returns the units up to the next frame, which begins with the next slice once the frame has one; access unit delimiters behind the first unit are dropped; at the end it returns nothing |
| `VideoPlayer.Player.FeedNextNALFrame` | src/rtsp/rtspsession.cpp:527-551 | it queues the packets of the next frame with its 32-bit timestamp, and starts over at the end of the file; it never leaves the queue empty |
| `VideoPlayer.Player.ProduceNextPacket` | src/rtsp/rtspsession.cpp:511-525 | it returns the packet at the front of the queue, filling the queue first if it is empty |
| `VideoPlayer.FirstPackets` | src/rtsp/rtspsession.cpp:511-551 | in every state of the player the n packets handed out are the first n packets of n runs through the file |
| `VideoPlayer.NothingLostOrReordered` | src/rtsp/rtspsession.cpp:511-551 | a receiver of those packets has a prefix of the units of the file, repeated without end, with the delimiters behind the first unit removed: nothing else is lost, duplicated or reordered |
| `VideoPlayer.Play` | src/rtsp/rtspsession.cpp:25-70 | opening a file and taking any number of packets gives exactly those packets and that prefix; the n-th packet is that of the n-th slot of the units played over and over: its part of its unit, the last flag on the last part only, type I exactly for type 5, and the timestamp of the frame its unit is in, counted from the start of the run - where that is zero, a reading of the clock, the same for all parts of a unit |
| `PlaySchedule.FrameBoundary` | src/rtp/rawh264source.cpp:83-98 | the frame number grows by one exactly at a slice (types 1 to 5) that follows a slice |
| `PlaySchedule.RunStarts` | src/rtsp/rtspsession.cpp:532-539 | every run through the file starts in frame 0 at the timestamp of the session |
| `PlaySchedule.SecondOfFrames` | src/rtsp/rtspsession.cpp:539-550 | the next frame is 90000 / rate ticks later modulo 2^32; a rate's worth of frames is one second of the 90 kHz clock exactly if the rate divides 90000 |
| `Interleaved.Send` | src/rtp/rtpsender.cpp:12-35 | it writes dollar sign, channel, 16-bit length and payload, cut off where the socket fails, and returns 0 exactly if all was written |
| `WireSamples.FrameIsWritten` | src/rtp/rtpsender.cpp:18-24 | a frame is 36, the channel, the length in two bytes, the packet |
| `WireSamples.ChannelsAreHandled` | src/rtsp/rtspsession.cpp:92-99 | who gets the frames of which channel; with one channel for both it is the receiver of control packets |
| `Interleaved.Session.ProcessInterleavedData` | src/rtsp/rtspsession.cpp:83-113 | the loop hands out the frames, handles a request if the buffer looks like one, clears what is no frame, and leaves less than one frame; each round but the last takes at least four bytes |
| `Interleaved.Session.OnBytes` | src/rtsp/rtspsession.cpp:71-81 | the same after appending the bytes read; outside of ready and playing the whole buffer is a request |
| `Interleaved.FrameReadsBack` | src/rtp/rtpsender.cpp:18-24 | a frame is read back, whatever follows, exactly if its payload is shorter than 65536 bytes, as every packet of the server is (its buffer has 1600 bytes, include/ai-camera/rtp/rtp.h:142-148) |
| `Interleaved.PacketsArrive` | src/rtsp/rtspsession.cpp:83-113 | packets sent one after the other and cut into reads anywhere arrive with channel, payload and handler, in order, and nothing is left |
| `Interleaved.TextBehindFrames` | src/rtsp/rtspsession.cpp:83-113 | what comes behind the frames of a read is handled as one request if it begins with the first letter of a method, and is dropped otherwise |
| `WireSamples.RequestLetters` | src/rtsp/rtspsession.cpp:101-108 | what can begin a request is the first letter of OPTIONS, DESCRIBE, SETUP, PLAY, PAUSE or TEARDOWN |
| `Interleaved.NoByteLost` | src/rtsp/rtspsession.cpp:83-113 | for any stream without a request: the frames and the leftover are the stream, whatever the reads |
| `Serial.LineProtocol.OnData` | src/serial/serial_protocol.cpp:16-29 | the loop takes the lines off the buffer and leaves no delimiter in it; with an empty delimiter, and only then, it never ends |
| `Serial.LineFraming` | src/serial/serial_protocol.cpp:16-29 | for every non-empty delimiter and every way of cutting a stream: frames and leftover are those of the whole stream, each frame with its delimiter and then the leftover is the stream, and the leftover has no delimiter |
| `Serial.ProgressIffDelimiter` | src/serial/serial_protocol.cpp:21-26 | every turn of the loop takes bytes off the buffer exactly if the delimiter is not empty |
| `Serial.WrappedReadsBack` | src/serial/serial_protocol.cpp:31-33 | a wrapped payload is read back exactly if the delimiter first occurs at its end |
| `Serial.LinesArrive` | src/serial/serial_protocol.cpp:16-33 | such payloads arrive however the stream is cut |
| `Serial.LengthProtocol.OnData` | src/serial/serial_protocol.cpp:39-89 | for every configuration whose arithmetic is defined - any number of big-endian length bytes, none included, up to four little-endian ones - the loop takes whole frames off the buffer, clears it at a length over the limit, and leaves less than one frame; it never ends exactly if it comes to a frame whose size is zero or wraps around to zero |
| `Serial.LengthProtocol.ReadLength` | src/serial/serial_protocol.cpp:56-67 | the two loops read the length field as a big-endian number modulo 2^32, or as a little-endian number |
| `WireSamples.LengthsAreRead` | src/serial/serial_protocol.cpp:56-67 | a length of one, two or four bytes, in either order |
| `Serial.LengthFraming` | src/serial/serial_protocol.cpp:50-89 | however a stream is cut, the frames before the first length over the limit come out first; if there is none, frames and leftover are those of the whole stream and together are the stream |
| `Serial.ProgressIffNoWrap` | src/serial/serial_protocol.cpp:76-86 | every frame taken moves the loop on exactly if there is a header, and offset, field and the longest payload let through stay below 2^32 together |
| `Serial.StuckIffWrap` | src/serial/serial_protocol.cpp:50-89 | some stream makes the loop run forever exactly if offset and field are both empty or some frame size wraps around |
| `Serial.ReadsBackIffWellFormed` | src/serial/serial_protocol.cpp:50-89 | the byte strings that are read back as one frame, whatever follows, are those whose length field counts their payload, within the limit |
| `Serial.FramesArrive` | src/serial/serial_protocol.cpp:50-89 | well-formed frames arrive however the stream is cut |
| `Serial.CutsAgreeIff` | src/serial/serial_protocol.cpp:50-89 | where no frame has size zero, all ways of cutting a stream into reads end alike, in frames and leftover, exactly if no length is over the limit, or nothing follows that header, or the header is one length byte and every byte after it is again over the limit |
| `Serial.OverLimitDependsOnReads` | src/serial/serial_protocol.cpp:70-74 | for one: 5, 1, 9 with one-byte lengths and a limit of 1 gives no frame in one read and one frame if it is cut after the 5 |
| `MqttCodec.EncodeRemainingLength` | src/mqtt/mqtt_client.cpp:19-28 | the loop writes the length in groups of seven bits, least significant first |
| `MqttCodec.DecodeRemainingLength` | src/mqtt/mqtt_client.cpp:33-47 | it takes up to three bytes, the last of them the first without continuation bit, and returns the number they write; otherwise it returns 0 and 0 |
| `MqttCodec.RemainingLengthRoundTrip` | src/mqtt/mqtt_client.cpp:19-47 | the decoder reads the bytes of n back, whatever follows, exactly if n < 128^3; longer lengths, which section 2.2.3 of MQTT 3.1.1 allows, it rejects |
| `MqttCodec.EncodingIsMinimal` | src/mqtt/mqtt_client.cpp:19-28 | no other way to write the number is shorter |
| `MqttCodec.EncodingIsUnique` | src/mqtt/mqtt_client.cpp:19-28 | a terminated encoding without a zero group at its end is what the encoder writes for its number |
| `MqttCodec.BuildPublishPacket` | src/mqtt/mqtt_client.cpp:402-432 | the packet is fixed header, remaining length, topic with its 16-bit length, identifier if the QoS is not 0, payload |
| `WireSamples.PublicationIsWritten` | src/mqtt/mqtt_client.cpp:402-430 | a publication to "a/b" at QoS 1, byte by byte |
| `WireSamples.LengthIsWritten` | src/mqtt/mqtt_client.cpp:20-29 | 321 is written as 193, 2 |
| `MqttCodec.ParsePublish` | src/mqtt/mqtt_client.cpp:568-614 | it reads a packet into its parts or rejects it, and answers QoS 1 with PUBACK and QoS 2 with PUBREC for the identifier it read |
| `MqttCodec.PublishRoundTrip` | src/mqtt/mqtt_client.cpp:402-432 | a publication is parsed as it was built - topic, payload, QoS, retain flag, identifier - exactly if its topic is shorter than 65536 bytes and what follows the fixed header is shorter than 128^3 bytes |
| `MqttCodec.AckRoundTrip` | src/mqtt/mqtt_client.cpp:497-531 | the identifier is read back from each of the four acknowledgements |
| `MqttCodec.FramedIsRead` | src/mqtt/mqtt_client.cpp:213-316 | a packet with a body below 128^3 bytes is read off the front of any stream |
| `MqttCodec.LongIsRefused` | src/mqtt/mqtt_client.cpp:236-262 | a packet with a body of 128^3 bytes or more is refused, and the client reconnects |
| `MqttCodec.PacketsAreRead` | src/mqtt/mqtt_client.cpp:213-316 | packets written one after the other are read one after the other |
| `MqttBroker.PublicationRead` | src/mqtt/mqtt_client.cpp:402-432 | what a broker by sections 1.5.3, 2.2.3, 3.3 and 4.7.3 of MQTT 3.1.1 reads of a publication of the client: what was published; or nothing, if the packet is too long or the topic is empty, no UTF-8 or has U+0000, + or # in it; or, if the topic has 65536 bytes or more, another publication with a shorter topic, whose identifier is two bytes of the topic |
| `MqttBroker.ClearMeans` | src/mqtt/mqtt_client.cpp:50-56 | it reads what was published or nothing exactly if the topic is shorter than 65536 bytes, or the packet too long for any length, or the two bytes are zero, or the topic as it is cut is not allowed |
| `MqttQos.IdsInARow` | src/mqtt/mqtt_client.cpp:712-716 | from any value of the 16-bit counter, up to 65535 identifiers in a row are not zero and pairwise distinct, across the wrap-around |
| `MqttQos.IdsRepeat` | src/mqtt/mqtt_client.cpp:712-716 | two identifiers are the same exactly if a multiple of 65535 lies between them |
| `MqttQos.MqttClient.AcquirePacketId` | src/mqtt/mqtt_client.cpp:712-716 | it returns the counter, or what follows it if it is 0, and moves on |
| `MqttQos.MqttClient.Publish` | src/mqtt/mqtt_client.cpp:173-188 | it sends the packet with a new identifier and enters it in the table under that identifier, at QoS 1 and 2 |
| `MqttQos.MqttClient.HandlePacket` | src/mqtt/mqtt_client.cpp:321-340 | each packet type changes the table and is answered as the client function says: PUBACK and PUBCOMP erase, PUBREC is answered with PUBREL, PUBREL with PUBCOMP, PUBLISH by its QoS |
| `MqttQos.StepKeeps` | src/mqtt/mqtt_client.cpp:619-647 | every step of client, broker and two FIFO channels keeps the invariant, the broker acting on the identifiers that it parses from the bytes it receives: of all packets under way and answers owed, at most one moves an exchange on, and while there is one its entry is in the table; publications are clear, and an identifier still in the table is used only if its exchange is over |
| `MqttInbound.NoExchangeIsLeftOpen` | src/mqtt/mqtt_client.cpp:568-641 | the receiver's half of section 4.3: a broker publishes at QoS 1 and 2 with any identifiers, on channels that lose nothing, and reads the answers off their first bytes 64, 80 and 112; in every run each exchange it has open has exactly one packet under way, and when nothing is under way none is open |
| `MqttInbound.EveryExchangeEnds` | src/mqtt/mqtt_client.cpp:568-641 | after any run, deliveries alone come to an end however they are ordered, and then every exchange is over |
| `MqttInbound.AckBytes` | src/mqtt/mqtt_client.cpp:619-645 | the four acknowledgements byte by byte |
| `MqttSettles.EveryEntryLeaves` | src/mqtt/mqtt_client.cpp:321-340 | the sender's half on such channels: whatever is in the table has a packet under way or an answer owed; deliveries and answers alone come to an end, and where none is possible the table is empty |
| `MqttQos.EntriesLeaveWhenSettled` | src/mqtt/mqtt_client.cpp:619-647 | in every run in which publications are clear and get no identifier that is still in the table, unless its exchange is over, an entry leaves the table only after the broker has accepted that publication as it was made, and at QoS 2 has received its PUBREL (section 4.3 of MQTT 3.1.1) |
| `MqttReuse.OverwritingBreaksThePromise` | src/mqtt/mqtt_client.cpp:173-188 | the condition on identifiers is exact: after every such run a clear publication keeps that promise in all such runs that follow if and only if its identifier is not in the table, or the exchange that used it last is over - accepted, at QoS 2 released, and nothing of it under way or owed by the broker |
| `MqttReuse.OverwritingHappens` | src/mqtt/mqtt_client.cpp:712-716 | a run that fails at once: a publication is lost, 65534 identifiers go to subscriptions, and the next publication overwrites its entry |
| `MqttReuse.OldAnswerTakenForNew` | src/mqtt/mqtt_client.cpp:619-647 | a run that fails later: the first publication is accepted and its PUBACK is slow; after 65534 more identifiers the next publication overwrites the settled entry and is lost; the old PUBACK then erases the entry of the new publication |
| `MqttQos.ClearIsExact` | src/mqtt/mqtt_client.cpp:50-56 | the condition on topics is exact: the promise holds in every run that is careful but perhaps for one publication if and only if that publication is clear |
| `MqttQos.LongTopicBreaksThePromise` | src/mqtt/mqtt_client.cpp:50-56 | the failing run for every publication that is not: the broker takes two bytes of its topic for the identifier, and its answer erases the entry of another publication that it never saw |
| `MqttQos.WindowSuffices` | src/mqtt/mqtt_client.cpp:712-716 | nothing is overwritten while no entry in the table is 65535 identifiers old (section 2.3.1) |
| `MqttQos.AcceptedOnceInOrder` | src/mqtt/mqtt_client.cpp:173-188 | in every such run the broker accepts each publication at most once, and in the order they were made, going by what it reads |
| `DnsName.EncodeName` | src/mdns/dns_message.cpp:114-145 | the loop writes the labels with their length bytes and a zero byte, or throws at a label longer than 63 bytes |
| `DnsName.DecodeName` | src/mdns/dns_message.cpp:147-187 | loop and recursion return the labels of all segments joined with dots, and where reading goes on; or throw |
| `DnsName.NameRoundTrip` | src/mdns/dns_message.cpp:114-187 | wherever in a message a name is written, it is read back without the dot at its end, with the offset right behind it, exactly if its labels have 1 to 63 bytes and it does not end in two dots |
| `DnsName.HangsIffLoops` | src/mdns/dns_message.cpp:159-174 | the decoder recurses forever exactly if its pointers come to one place twice; otherwise it passes at most 16385 segments |
| `DnsName.LoopingPointer` | src/mdns/dns_message.cpp:159-174 | for one: a pointer to itself |
| `DnsName.BoundIsEnough` | src/mdns/dns_message.cpp:159-174 | allowing more segments than that changes no result |
| `DnsName.BackwardNamesDecode` | src/mdns/dns_message.cpp:147-187 | if every pointer goes before the start of the name that holds it, decoding ends and gives the labels of all segments with dots between them, or the exception of a malformed segment |
| `DnsName.StandardNames` | src/mdns/dns_message.cpp:147-187 | a name that sections 2.3.4 and 4.1.4 of RFC 1035 allow is decoded as its labels with dots between them, and reading goes on behind its zero byte or first pointer; and a name that is decoded is one of these exactly if it has at most 253 bytes and reading comes to no reserved length byte, not to the end of the data, and to no pointer that does not go back |
| `DnsName.LongNameIsTaken` | src/mdns/dns_message.cpp:147-187 | every list of labels of 1 to 63 bytes that takes more than the 255 octets of section 2.3.4 is decoded all the same |
| `DnsName.ReservedIsTaken` | src/mdns/dns_message.cpp:176-184 | for one: a length byte of 64, which the standard reserves, is taken as a length |
| `DnsMessage.Encode` | src/mdns/dns_message.cpp:18-57 | the message is header with the counts in network order, questions, answers, authority and additional records; or an exception for a long label |
| `DnsMessage.Decode` | src/mdns/dns_message.cpp:59-112 | the four lists are read one after the other as often as the header says; an exception on the way makes it return nothing |
| `DnsMessage.DecodeResourceRecord` | src/mdns/dns_message.cpp:240-330 | a record is read by its type, an address as decimal text; A, PTR, SRV and TXT records lose name, type, class and time to live |
| `DnsMessage.AddressReadsBack` | src/mdns/dns_message.cpp:269-278 | the text of an address fits its 16 bytes and is four decimal numbers between dots, which are the bytes of the address |
| `DnsMessage.QuestionReadsBack` | src/mdns/dns_message.cpp:189-219 | a question with a proper name is read back wherever it is written |
| `DnsMessage.RecordReadsBack` | src/mdns/dns_message.cpp:221-330 | a record with a proper name is read back, wherever it is written, exactly if its data is shorter than 65536 bytes and its type is none of those four |
| `DnsMessage.MessageRoundTrip` | src/mdns/dns_message.cpp:18-112 | decoding an encoded message restores identifier, flags, questions and generic records, without the dots at the end of names and with the counts of its lists |
| `DnsWire.QuestionLayout` | src/mdns/dns_message.cpp:189-201 | a question octet by octet: name, type, class |
| `DnsWire.RecordLayout` | src/mdns/dns_message.cpp:220-238 | a record octet by octet: name, type, class, four octets of time to live, length, data (section 4.1.3 of RFC 1035) |
| `DnsWire.HeaderLayout` | src/mdns/dns_message.cpp:18-57 | the header: identifier and flags as they lie in memory, then the sizes of the four lists in network order |
| `DnsWire.MessageLayout` | src/mdns/dns_message.cpp:18-57 | the lists follow the header in order: one question alone, or one record in each of the other three |
| `DnsWire.NameLayout` | src/mdns/dns_message.cpp:112-145 | a service name octet by octet |
| `DnsWire.LabelLimit` | src/mdns/dns_message.cpp:126-135 | a label of more than 63 octets, and nothing else, makes the encoder throw |
| `DnsWire.AddressRecord` | src/mdns/dns_message.cpp:268-279 | a record of type 1 with four octets, wherever it is written, is read as the four decimal numbers; with any other number of octets as an empty text |
| `DnsWire.PointerRecord` | src/mdns/dns_message.cpp:280-286 | a record of type 12 whose data is a written name is read as that name |
| `DnsWire.ServiceRecord` | src/mdns/dns_message.cpp:287-298 | a record of type 33 is read as priority, weight, port and target |
| `DnsWire.ShortServiceRecord` | src/mdns/dns_message.cpp:287-298 | and one with fewer than six octets as nothing |
| `DnsWire.TextRecord` | src/mdns/dns_message.cpp:299-317 | a record of type 16 gives a key the value of the last string that says something of it; strings without an equals sign say nothing, and a string that does not fit the data ends them |
| `Http.Parser.Feed` | src/server/http/http_parser.cpp:42-167 | `feed` leaves the state, the request and the leftover of the step function run over leftover and new bytes; it returns exactly the bytes taken, the body included, and at an error those up to the bad line; the bytes taken leave the buffer, but not at an error or an exception; after the end it does nothing |
| `Http.CutsDontMatter` | src/server/http/http_parser.cpp:42-167 | for every byte string and every split into `feed` calls, the final state and the request are those of one `feed` of the whole string; a Content-Length that is no number is an abort in both |
| `Http.ParseChunks` | src/server/http/http_parser.cpp:42-167 | a parser fed piece by piece ends in that state |
| `Http.RequestIsParsed` | src/server/http/http_parser.cpp:42-167 | a request as the protocol writes it, cut anywhere and with anything behind it, is parsed into method, URI, version, header map and body |
| `Http.HeadersRead` | src/server/http/http_parser.cpp:94-133 | header lines are collected with lower-case names and without white space before the value; the last of equal names counts |
| `HttpText.FailsIff` | src/server/http/http_parser.cpp:42-133 | the parser ends in its error state exactly if the first complete line is no request line, or a line behind it and before the empty one has no colon, however the stream is cut |
| `HttpText.AnyFieldRead` | src/server/http/http_parser.cpp:119-133 | a field with any white space behind its colon, or none, is stored under its name in lower case |
| `HttpText.RequestIsConsumed` | src/server/http/http_parser.cpp:42-167 | what `feed` counts as consumed of a request with anything behind it is the request |
| `HttpText.FaultIsConsumed` | src/server/http/http_parser.cpp:66-123 | and of what is refused, everything up to the end of the line that is at fault |
| `HttpText.MethodsAreSpelled` | src/server/http/http_parser.cpp:72-80 | the seven methods letter by letter; any other word is an unknown method |
| `HttpText.VersionsAreSpelled` | src/server/http/http_parser.cpp:86-86 | the two versions letter by letter |
| `HttpText.LengthIsSpelled` | src/server/http/http_parser.cpp:138-138 | the name of the length field |
| `HttpText.RequestIsWritten` | src/server/http/http_parser.cpp:42-167 | what a request looks like, line by line |
| `HttpText.LengthsRead` | src/server/http/http_parser.cpp:135-160 | a body length may carry a sign and be followed by anything; a minus sign takes it from 2^64 |
| `HttpText.NoLength` | src/server/http/http_parser.cpp:141-141 | without a digit there is no length |
| `Text.Letters` | src/server/http/http_parser.cpp:127-129 | the 26 letters, and nothing else, have a lower case |
| `Sip.SipMessage.Serialize` | src/gb28181/sip_message.cpp:109-141 | the text is the first line, a Content-Length if there is none, the header fields, an empty line, the body |
| `Sip.SipMessage.Parse` | src/gb28181/sip_message.cpp:144-254 | a text is parsed into a message, refused, or an exception of the standard library leaves the function, as the functional reading says |
| `Sip.SipMessage.SetHeader` | src/gb28181/sip_message.cpp:72-91 | afterwards every spelling of the name, whatever the case of its letters, finds the value, and every name that is no spelling of it finds what it found before |
| `Sip.MessageRoundTrip` | src/gb28181/sip_message.cpp:109-254 | `Parse` of `Serialize` returns the same first line, header map with Content-Length, and body exactly if an explicit Content-Length is a number, and not 0 if there is a body; for a non-empty URI without white space, names without colon and line feed, values and reasons without line feed that are non-empty and do not start with a space, and every order of the header map |
| `Sip.StrippedBack` | src/gb28181/sip_message.cpp:216-224 | the values that survive being written behind a space and stripped are exactly the non-empty ones that do not start with a space |
| `SipText.AnyFieldRead` | src/gb28181/sip_message.cpp:205-235 | a field with any number of spaces behind its colon, or none: only spaces are dropped, and not if there is nothing else |
| `SipText.NoField` | src/gb28181/sip_message.cpp:213-216 | a line without a colon is passed over |
| `SipText.RequestIsWritten` | src/gb28181/sip_message.cpp:109-141 | what a request looks like, line by line |
| `SipText.ResponseIsWritten` | src/gb28181/sip_message.cpp:109-141 | what a response looks like |
| `SipText.StatusRead` | src/gb28181/sip_message.cpp:160-185 | a status of up to 31 bits is cut off to 16 of them, and the reason is what is behind it without the spaces in front |
| `SipText.GreatStatus` | src/gb28181/sip_message.cpp:160-185 | a greater one is read as 65535, without a reason |
| `SipText.MethodsAreSpelled` | src/gb28181/sip_message.cpp:256-282 | the nine methods letter by letter |
| `Sip.MethodIsNamed` | src/gb28181/sip_message.cpp:256-282 | every method, the unknown one included, is read back from its name |
| `Sip.BlankFound` | src/gb28181/sip_message.cpp:240-246 | the first empty line of a message text lies behind its last header field |

## Left out

- WsReceive.LogIndependentOfReads: compares logs up to the first event that closes the session, because a closed session can still deliver what is in its buffer, which does depend on the reads; `WsLate.LateReadIff` says when it does.
- VideoPlayer.Play: requires a file with at least one unit, because the source does not open any other.
- VideoPlayer.NothingLostOrReordered: is about files whose units have types 1 to 23, because section 5.4 of RFC 6184 gives the other types to packets that are not units.
- Sip.MessageRoundTrip: is about messages whose first line and fields fit on a line of their own; a value with a line feed in it starts a new line and can mean anything.
- MqttQos.EntriesLeaveWhenSettled: is about a broker that answers each packet once and goes on after one that it cannot read; the client has no timers or retransmission of its own.
- Serial.LengthProtocol.OnData: is about configurations for which the 32-bit arithmetic of the source is defined: no more than four little-endian length bytes, and a header below 2^32 bytes.
- The WebSocket handshake, its HTTP request and the session table of the server.
- Sockets, threads, timers and strands as objects of asio: a callback is one atomic step, and handlers that call back into the session from within a callback are not modelled; neither is a session without a message handler.
- The read handlers of `WsSession` are not bound to its strand; the model lets them interleave with it only between steps.
- File reading, logging, random identifiers and the system clock.
- Presentation and decoding times of units, `ReadNextFrame` and the queue of `NALSourceAdapter`, and the RTP header that the transport writes into the room in front of a payload.
- `SendSpsPps`, which writes its packets without the four bytes of room that all others have (src/rtsp/rtspsession.cpp:423-446).
- RTSP requests, SETUP, PLAY and PAUSE: the channels and the first timestamp are given; a request is one event.
- MQTT CONNECT, SUBSCRIBE and UNSUBSCRIBE packets but for the identifiers they take; CONNACK, keep-alive, reconnecting but for the loss of what is under way.
- MqttInbound.EveryExchangeEnds: is about publications that the client's reader can take, whose length has at most three bytes; `MqttCodec.LongIsRefused` says what happens to longer ones.
- Inbound MQTT publications of QoS 2 are delivered on every PUBLISH; the model has the replies only.
- `RawProtocol`, `CreateProtocol`, `WrapFrame` of `LengthProtocol`: single expressions.
- `Parser::reset`, which drops the bytes of a following request, and the query string helpers.
- `ParseWwwAuthenticate`, MD5 and the SIP digest.
- ONVIF services, GB28181 XML, the mDNS service registry, media buffers, routers and configuration.
