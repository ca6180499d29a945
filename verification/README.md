# RTMPCamera: chunk codec, AMF0, packet transport, handshake and runtime

A Dafny model of the C core of RTMPCamera. Each part has a specification on values (functions and
state machines) with the laws proved about it, and, where the source changes things in place, classes
and methods with the source's fields and loops, proved against that specification.

| part | specification and laws | the code's own form |
|---|---|---|
| chunk headers and streams (`rtmp_chunk.c`) | `ChunkHeader`, `ChunkStream`, `ChunkTrace`, `ChunkTheorems` | `ChunkEndpoint` |
| AMF0 values (`rtmp_amf.c`) | `AmfValue`, `AmfCopy` (trees) | `AmfCodec`, `AmfCopy` (nodes) |
| packets and acknowledgements (`rtmp_protocol.c`) | `PacketTransport`, `AckWindow`, `PacketRuns` | `PacketContext` |
| handshake (`rtmp_protocol.c`, `rtmp_server_integration.c`) | `Handshake` | `HandshakeCode` |
| send queue and worker (`rtmp_core.c`) | `SendRuntime` | `MessageQueue`, `ConnectionCalls` |
| connection registry (`rtmp_server_integration.c`) | `Registry` | `RegistryList` |
| failover (`rtmp_failover.c`) | `Failover` | `FailoverHandler` |
| stability monitor (`rtmp_stability.c`) | `Stability` | `StabilityMonitor` |
| what the unrepaired writers send | `AsShipped` | |

`Bytes`, `Buffers` and `Sockets` hold the byte-level vocabulary, in-place writing and the socket.
`dafny verify dfyconfig.toml` verifies the whole project.

## How the source is read

Locked sections and API calls are atomic steps; where a call tests its state outside a lock and then
pushes, `SendRuntime` makes the test, the push and the state change separate steps. Sockets are byte
sequences. What `recv`, `send`, `connect`, `select` and clocks answer is nondeterministic or a
parameter, and random bytes are parameters. In the code's own form every `recv` may come short, and
every `send` may break off, and the socket counts both; the functions on values (`ReadChunk`, `ReadPacket`) say what a read gives
when its receives are full, and the methods prove that a read gives exactly that when no receive came
short, and otherwise fails and delivers nothing. Integer widths are written out: 32-bit counters and
stamps wrap, sizes are cut to 32 bits, header fields to 24.

`ConnectionCalls` and `HandshakeCode.Exchange` carry the steps of `SendRuntime` and `Handshake` along,
so what is proved of every run of those machines holds of these methods. For `SendRuntime` that is one
calling thread and its worker, call by call and pass by pass; finer interleavings, more threads and more
workers are in the machine alone.

The code has slips that defeat what it is evidently for. The model takes the intent; `AsShipped`
proves what the unrepaired forms do to the readers. The repairs:

- `rtmp_chunk.c:49,90,140`: `rtmp_chunk_write_header` returns a size, not a bool, and it refuses a
  buffer that the chosen header does not fit in (the source tests for 11 bytes whatever the form).
- `rtmp_chunk.c:98,151`: the basic header advances by its own one, two or three bytes, and the reader
  fetches all of them.
- `rtmp_chunk.c:38,76,97`: context, basic header and continuations use one chunk stream id, an argument
  of the write.
- `rtmp_chunk.c:171,172,197`: the parse type is the format that was read, and fields a form leaves out
  come from the remembered header, as type 3 takes them at line 202.
- `rtmp_amf.c:196`: property names are written unmarked, as the decoder and section 2.5 of the AMF0
  specification have them; `rtmp_amf.c:139-140`: the object end is `00 00 09`.
- `rtmp_protocol.c:212`: the header block of a packet is always written.
- `rtmp_protocol.c:37,163,189`: the handshake buffer holds the 3073 bytes read into it, and the
  overlapping copy moves the block as if through a temporary.
- `rtmp_server_integration.c:203-205,306,338`: the accepted socket does not block, although both
  receives of the handshake ask to wait for the whole block. Here the machine keeps the code: a receive
  takes what has arrived, and less than the block fails the server. The repair, receives that block, is
  the runs that `Handshake` calls patient, and the handshake completes in exactly those.
- `rtmp_server_integration.c:162,263`, `rtmp_failover.c:237,143`, `rtmp_stability.c:191,130`: nested
  locking of one mutex is one atomic step; so is `rtmp_failover_check_health`, which takes no lock.
- `rtmp_failover.c:105-109`, `rtmp_stability.c:114-119`: both stops join a thread while they hold the
  mutex that thread takes in each pass (`rtmp_failover.c:237`, `rtmp_stability.c:191`), so they can wait
  for each other. Both stops are modelled as completing.

Where comments and code disagree the code is followed: types 1 and 2 carry absolute timestamps on
both sides (`rtmp_chunk.c:120,131,376,385`), although the comments and section 5.3.1.2 of Adobe RTMP
1.0 speak of deltas; the server's drain at stop takes connections out without counting them out
(`rtmp_server_integration.c:630-634`), and the model proves exactly what that does to the counter; no
code takes in the answer to a heartbeat, and the model proves what follows from that.

## Results

- **Chunk codec.** Over every sequence of messages and agreed chunk sizes, reader and writer stay in
  lock-step: same messages, same order, the exact number of reads, all bytes consumed, equal
  remembered headers. From fresh endpoints delivery is faithful if and only if timestamps and sizes
  fit in 24 bits. Streams may interleave in any order, each message with its own chunk size, and between
  chunks each context holds a beginning of its stream's next message; two ids may be merged safely if
  and only if they differ modulo 64. Header compression is lossless and picks the shortest form; a header
  can be read by an endpoint that remembers anything at all if and only if it is the first on its
  context, or follows an empty message or another message stream. The reader does not test whether a
  piece fits its reassembly buffer (`rtmp_chunk.c:216-226`): a read writes past it if and only if a
  header in mid-message asks for more than the room announced and more bytes than there is room for
  arrive (after 128 bytes of a message of 200, a header announcing 1000 does it with the 73rd byte
  behind it); on arbitrary bytes no read does as long as such headers repeat the length of their
  message.
- **AMF0.** Decoding an encoding followed by any bytes consumes exactly the encoding; the value comes
  back if and only if no string in it holds a NUL. The recursive decoder stays in bounds and
  terminates on every byte sequence. The writers, composed in place, put exactly the encoding of a nested
  value into the buffer and touch nothing else, and the connect command built with them is read back
  with each argument under its own name. A deep copy is made of new nodes only and equals its original if
  and only if nothing in it is a string with a NUL or a non-empty array.
- **Packets.** What `rtmp_send_packet` sends, `rtmp_chunk_read` delivers under the same chunk stream id, if
  and only if the packet fits and its type is not 0 or 1 modulo 64: the id is taken from the type, and
  those two announce a longer basic header, so a Set Chunk Size packet cannot be read as a chunk. By the
  packet reader a packet is restored if and only if timestamp and size fit in 24 bits and it has the
  data its size promises; payloads of n bytes survive different chunk sizes at the two ends if and only
  if n is at most the smaller; streams that change the chunk size on the way are restored if and only
  if every packet fits and none but the last sets size 0. The acknowledgement window is honoured over
  every run if and only if it lies between 1 and 2^32 − 2^24 − 11, and by every read of an arbitrary
  byte stream as long as the windows that stream sets do; the context object, read by read, sends the
  acknowledgements of that run.
- **Handshake.** Under every fragmentation, schedule and transport failure, a side that reports success
  has received its own block back, in the state machine and for the two programs run against each
  other. Without transport failure every maximal run ends with both sides done if and only if each
  receive of the server found its whole block; a server that looks for C2 right after sending S1 never
  does.
- **Send runtime.** Any number of threads call, and any of the first k connect and disconnect, with the
  state test and the state change of a call interruptible. Accepted = sent + queued + failed (+ in hand)
  over every run, whatever workers are started. No worker ever waits on an empty queue if and only if at
  most one thread connects: two that connect together start two workers, which see the same message.
  Publish bracketing holds over all runs if and only if at most one thread calls the library or none
  may connect. The connection object, with one calling thread, obeys all of it.
- **Registry.** A sweep keeps exactly the connections that are not idle, in order; the counter equals
  the list length if and only if, with fewer than 2^32 accepts, no stop has drained a connection.
- **Failover and stability.** A switch ends at the first backup, or interface, whose reconnect succeeds, and
  fails exactly when none does. Switches and connect calls are bounded between resets and over whole
  runs; a heartbeat that is overdue drives an auto-reconnecting monitor into FAILED after one more tick
  than it has reconnects left, however well the reconnects go: the first heartbeat goes out with the
  first tick an interval after the start whose send succeeds, and no code takes its answer in. A failed
  monitor stays failed over a run if and only if the run has no stop and no connecting recovery with
  reconnects left.

## Model

| member | source | states |
|---|---|---|
| Bytes.BigEndianRoundTrip | rtmp_chunk.c:328-336 | reading back n big-endian bytes gives the value modulo the field width |
| Bytes.LittleEndianRoundTrip | rtmp_chunk.c:113-116 | the same for the little-endian message stream id |
| Bytes.FieldBytes | rtmp_chunk.c:327-336 | two- and three-byte fields have their high byte first, the four-byte stream id its low byte |
| ChunkHeader.BasicRoundTripIff | rtmp_chunk.c:310-353 | basic header read after write returns format and id, whatever follows, iff the id is in 2..65599 |
| ChunkHeader.BasicShortest | rtmp_chunk.c:338-353 | any accepted bytes name a legal id and are at least as long as the form the writer picks for it |
| ChunkHeader.BasicPrefixFree | rtmp_chunk.c:310-326 | no basic header is the beginning of another one: the three forms delimit themselves |
| ChunkHeader.BasicBytes | rtmp_chunk.c:338-353 | one byte for ids to 63, two to 319, three above; where format and id stand in them |
| ChunkHeader.FieldsOnWire | rtmp_chunk.c:102-138 | 11, 7, 3 or no bytes by form, and which number each byte counts for |
| ChunkHeader.HeaderRestoredIff | rtmp_chunk.c:102-138 | for every form, reading what was written restores the header iff that form carries it against the remembered one |
| ChunkHeader.HeaderCompression | rtmp_chunk.c:282-301 | the chosen form restores the header, and against a real remembered header no shorter form would |
| ChunkHeader.ChosenCarriesIff | rtmp_chunk.c:282-301 | the chosen form carries a header iff the 24-bit fields it sends fit |
| ChunkStream.ReadChunkSafe | rtmp_chunk.c:144-253 | on any bytes one read moves at most the context it names and leaves bytesRead within bufferSize, up to the point where more bytes arrive than the buffer holds |
| ChunkStream.OverrunIff | rtmp_chunk.c:216-226 | a read writes past its buffer iff its header is complete, its message is under way and received + min(asked for, arrived) exceeds the buffer, where min(wrapped remainder, chunk size) is asked for |
| ChunkStream.LongerHeaderOverrunsIff | rtmp_chunk.c:216-226 | after one chunk of a longer message, a type 0 header in mid-message makes the next read write past the buffer iff it asks for more than the room left and more than that follows, for all payloads and tails |
| ChunkStream.OverrunExample | rtmp_chunk.c:216-226 | chunk size 128, 128 bytes of a message of 200, then a header announcing 1000: the next read writes past the buffer iff at least 73 bytes follow |
| ChunkStream.ShorterHeaderCuts | rtmp_chunk.c:211-244 | a header in mid-message that announces less than was read takes one more chunk of bytes and delivers the beginning of what there was |
| ChunkStream.NoOverrun | rtmp_chunk.c:144-253 | on any bytes and over any number of reads none writes past its buffer as long as every header of type 0 or 1 in mid-message repeats that message's length |
| ChunkStream.ReadsStayInside | rtmp_chunk.c:144-253 | the same for the reader itself from fresh contexts |
| ChunkStream.ReadChunkProgress | rtmp_chunk.c:144-253 | a read that succeeds consumes at least one byte from the front of its input and nothing behind |
| ChunkStream.ReadWithSafe | rtmp_chunk.c:144-253 | the same over any number of reads up to the first that fails or overruns its buffer |
| ChunkStream.ReadFittingChunk | rtmp_chunk.c:144-253 | a chunk that continues its stream is consumed exactly and moves only its own context |
| ChunkStream.StepFacts | rtmp_chunk.c:205-250 | such a chunk appends its payload; the message comes out when complete and the header is remembered |
| ChunkStream.DeltaLeads | rtmp_chunk.c:303-308 | the remembered difference leads from the remembered timestamp to the new one modulo 2^32 |
| ChunkStream.WireIsChunks | rtmp_chunk.c:46-82 | the bytes of a write are those of one headed chunk and its type 3 continuations |
| ChunkStream.CallCount | rtmp_chunk.c:59-82 | a message has max(1, ceil(size / chunk)) chunks |
| ChunkStream.LoopEndsIff | rtmp_chunk.c:59-82 | the payload loop ends iff the chunk size is not 0 or there is no payload |
| ChunkStream.ReadWithSplit | rtmp_chunk.c:144-253 | m + n reads are m reads followed by n reads |
| ChunkTrace.ReadTrace | rtmp_chunk.c:144-253 | one read per chunk consumes a fitting trace exactly |
| ChunkTrace.TraceIsStreams | rtmp_chunk.c:162-168 | in a trace of streams with different contexts each stream runs as if it were alone |
| ChunkTheorems.MessageRun | rtmp_chunk.c:23-88 | the chunks of a message on an idle context deliver exactly it and leave its header remembered |
| ChunkTheorems.Interleaving | rtmp_chunk.c:144-253 | for every order-preserving merge of streams whose messages have chunk sizes of their own, at every point, each stream has delivered a beginning of its own messages, and all of them in the end; its context is idle or holds a beginning of the next message, and remembers its last header |
| ChunkTheorems.StreamUnderway | rtmp_chunk.c:205-250 | after any number of chunks of a stream: what its context holds and remembers |
| ChunkTheorems.MergeSafelyIff | rtmp_chunk.c:162 | two streams may be merged in any order iff their ids differ modulo 64 |
| ChunkTheorems.CollisionLosesMessages | rtmp_chunk.c:162-168 | for every two ids that share a context there is a merge that mixes up their messages |
| ChunkTheorems.MessageInStep | rtmp_chunk.c:23-253 | one message: the exact number of reads delivers it and leaves both ends with the same headers |
| ChunkTheorems.StandsAloneIff | rtmp_chunk.c:282-301 | the header of a message is read right against every remembered header iff it follows none, an empty message or one of another message stream, and its fields fit |
| ChunkTheorems.FirstStandsAloneIff | rtmp_chunk.c:282-285 | so is the first header a fresh endpoint writes on a context, iff timestamp and size fit in 24 bits |
| ChunkTheorems.FirstMessageDelivered | rtmp_chunk.c:23-253 | such a message is delivered whole by every endpoint whose context for it is idle, whatever that remembers |
| ChunkTheorems.LockStep | rtmp_chunk.c:23-253 | every sequence of messages and agreed chunk sizes is read back whole, in order, with equal memories at the end |
| ChunkTheorems.FaithfulIff | rtmp_chunk.c:332-336 | from fresh endpoints some number of reads delivers exactly the messages sent iff all timestamps and sizes fit in 24 bits |
| ChunkEndpoint.PutInt24 | rtmp_chunk.c:332-336 | the three bytes placed are the big-endian ones, nothing else in the buffer moves |
| ChunkEndpoint.PutBasic | rtmp_chunk.c:310-326 | the buffer starts with the basic header and the size is its length |
| ChunkEndpoint.PutFields | rtmp_chunk.c:102-138 | the fields of the form are placed at the position, nothing else moves |
| ChunkEndpoint.WriteHeader | rtmp_chunk.c:90-141 | the whole header is placed at the start of the buffer and nothing else moves; 0 exactly when it does not fit, and then nothing is written |
| ChunkEndpoint.ChunkContext.Reset | rtmp_chunk.c:269-279 | the context stands for a fresh slot again |
| ChunkEndpoint.ChunkContext.Update | rtmp_chunk.c:303-308 | the header and the wrapped timestamp difference are remembered, the message under assembly stays |
| ChunkEndpoint.ChunkContext.ReadPayload | rtmp_chunk.c:205-250 | buffer, counters, input and outcome are those of the specified payload read on the bytes that arrived; a short receive that fits the buffer fails the call and leaves the message as it was |
| ChunkEndpoint.ChunkContext.Finish | rtmp_chunk.c:231-250 | a complete message leaves with the payload read so far; in every case the header is remembered |
| ChunkEndpoint.SendPayload | rtmp_chunk.c:59-82 | the pieces and continuation headers go out iff no send breaks off, otherwise a beginning of them |
| ChunkEndpoint.ChunkState.SetSize | rtmp_chunk.c:396-407 | sizes are clamped to 65536 |
| ChunkEndpoint.ChunkState.Context | rtmp_chunk.c:162-168 | the context of an id exists afterwards and no slot's value has changed |
| ChunkEndpoint.ChunkState.ReadBasic | rtmp_chunk.c:150-160 | exactly the bytes of the basic header leave the input, unless a receive comes short |
| ChunkEndpoint.ChunkState.Read | rtmp_chunk.c:144-253 | on heap contexts that share nothing: what the specification says when no receive comes short; otherwise failure or overrun, no delivery, every message as it was and the received bytes gone |
| ChunkEndpoint.ChunkState.Write | rtmp_chunk.c:23-88 | exactly the message's bytes go out and its header is remembered iff no send breaks off; otherwise a beginning goes out and nothing is remembered |
| AmfValue.DecodeValue | rtmp_amf.c:454-484 | on any bytes success reports at least one byte and at most the given size |
| AmfValue.ReadProperty | rtmp_amf.c:389-421 | one pass of the object loop stays inside its input, and a property takes at least three bytes |
| AmfValue.DecodeProps | rtmp_amf.c:366-452 | the whole loop stays inside its input, even when the end is missing |
| AmfValue.CutIff | rtmp_amf.c:97-111 | writing C strings keeps a value iff no string or name in it holds a NUL |
| AmfValue.NoFalseEnd | rtmp_amf.c:391 | no property, not even one with an empty name, starts like the end marker |
| AmfValue.DecodeEncode | rtmp_amf.c:366-484 | decoding an encoding and any bytes behind it consumes exactly the encoding and gives the value as C strings carry it |
| AmfValue.RoundTripIff | rtmp_amf.c:73-144 | the value itself comes back iff it is NUL-free |
| AmfValue.EncodePrefixFree | rtmp_amf.c:73-144 | the encoding of one NUL-free value is never the beginning of another's |
| AmfValue.DecodeEncodeAll | rtmp_amf.c:179-225 | a sequence of values, as command messages are built, is read back whole |
| AmfValue.ValueBytes | rtmp_amf.c:73-144 | the bytes of every value: marker, number, flag, counted characters, or properties and 00 00 09 |
| AmfValue.PropertyBytes | rtmp_amf.c:181-223 | a property is a counted name and a value, in the order of the object |
| AmfValue.AcceptedIff | rtmp_amf.c:319-484 | which bytes are accepted as a value, by marker and size, and what they stand for |
| AmfValue.LoopEnds | rtmp_amf.c:389-395 | the property loop stops with fewer than three bytes left and behind 00 00 09 |
| AmfValue.PropertyFound | rtmp_amf.c:396-421 | a name that does not fit or a refused value stops it and how far the pointer has moved; otherwise the property is name and value |
| AmfCodec.EncodeNumber | rtmp_amf.c:73-86 | nine bytes, the number's encoding, are placed and nothing else moves |
| AmfCodec.EncodeBoolean | rtmp_amf.c:88-95 | two bytes, the boolean's encoding, are placed |
| AmfCodec.EncodeString | rtmp_amf.c:97-111 | the string's encoding is placed, or for a string over 65535 bytes nothing is written |
| AmfCodec.EncodeNull | rtmp_amf.c:113-119 | the null marker is placed |
| AmfCodec.EncodeUndefined | rtmp_amf.c:121-127 | the undefined marker is placed |
| AmfCodec.EncodeObjectStart | rtmp_amf.c:129-135 | the object marker is placed |
| AmfCodec.EncodeObjectEnd | rtmp_amf.c:137-144 | the three bytes of the end marker are placed |
| AmfCodec.WriteValue | rtmp_amf.c:73-144 | the calls above composed for a value of any depth place exactly its encoding and touch nothing else |
| AmfCodec.EncodeConnect | rtmp_amf.c:179-225 | the connect command is placed at the start of the buffer, nothing else moves, and those bytes decode to "connect", 1 and an object with app, flashVer, swfUrl and tcUrl under their names, in order |
| AmfCodec.PropertyTable.Add | rtmp_amf.c:423-447 | the property is appended; both tables double exactly when they are full |
| AmfCodec.PropertyTable.Freeze | rtmp_amf.c:445-447 | names and values form the object's properties in wire order |
| AmfCodec.DecodeValueAt | rtmp_amf.c:454-484 | the recursive decoder on a buffer position computes the specified result and reads only inside size |
| AmfCodec.DecodeObjectAt | rtmp_amf.c:366-452 | the loop over pointer, size and growing tables computes the specified object and byte count |
| AmfCodec.DecodePropertyAt | rtmp_amf.c:389-421 | one pass of the loop, with its early exits and how far the pointer has moved |
| AmfCopy.DuplicateIff | rtmp_amf.c:486-539 | a copy equals its original iff no string or name holds a NUL and no array has elements |
| AmfCopy.DuplicateTwice | rtmp_amf.c:486-539 | copying a copy changes nothing more |
| AmfCopy.CopyIs | rtmp_amf.c:486-539 | a copy is the tree with the same kinds, numbers and recorded sizes, strings and names cut at their first NUL, properties in order and arrays empty, and nothing else |
| AmfCopy.Node.Copy | rtmp_amf.c:486-539 | every node and table of the copy is new, it stands for the duplicated tree, the original is not modified |
| AmfCopy.Node.CopyTables | rtmp_amf.c:512-531 | the rebuilt tables hold the cut names and valid new nodes for all properties, in order |
| Handshake.StepKeepsInv | rtmp_protocol.c:136-198 | every step of either side, delivery or failure keeps: what a side has read and can still read is a beginning of what the other sends |
| Handshake.EchoesAgree | rtmp_server_integration.c:300-344 | over every run a side that is done has the other's block and its own one echoed |
| Handshake.StepDecreases | rtmp_protocol.c:160-183 | every step without transport failure lowers the outstanding bytes |
| Handshake.FailsIffEarly | rtmp_server_integration.c:203-205 | without transport failure the client never fails, and the server has failed iff one of its receives came before its block |
| Handshake.CannotGetStuck | rtmp_protocol.c:136-198 | until both sides are done some step that is neither a failure nor an early receive is possible |
| Handshake.HandshakeCompletesIff | rtmp_server_integration.c:300-344 | runs without transport failure have at most 18439 steps, and one that cannot go on has ended with both sides done and both echoes right iff every receive of the server found its whole block |
| Handshake.ImmediateReceiveFails | rtmp_server_integration.c:331-341 | a receive of C2 directly after the send of S1 finds less than a block, and the server fails |
| Handshake.FirstReceiveTooEarly | rtmp_server_integration.c:306-309 | the one-step run in which the server looks for C0 and C1 before anything was sent |
| HandshakeCode.ClientHandshake.SendC0C1 | rtmp_protocol.c:136-158 | the buffer holds version, time, four zeros and the random bytes, and exactly a beginning of it goes out, all 1537 bytes on success |
| HandshakeCode.ClientHandshake.ReadS0S1S2 | rtmp_protocol.c:160-183 | however the stream fragments, the buffer holds the bytes read; success iff they are all 3073 and start with the version |
| HandshakeCode.ClientHandshake.SendC2 | rtmp_protocol.c:185-198 | S1 moves to the front of the shared buffer and is what goes out |
| HandshakeCode.ClientHandshake.Run | rtmp_protocol.c:92-110 | on success the wire carries version, C1 and the echo of the S1 that was read; when nothing comes short and no send breaks off it succeeds iff the version read is 3; on failure a beginning of the input is gone |
| HandshakeCode.SendS0S1S2 | rtmp_server_integration.c:316-334 | a beginning of version, S1 and the echo of C1 goes out, all of it on success |
| HandshakeCode.ServerHandshake | rtmp_server_integration.c:300-344 | on success the wire carries version, S1 and the echo of the C1 that was read, and a whole C2 has been read; when nothing comes short and no send breaks off it succeeds iff the version read is 3; on failure a beginning of the input is gone |
| HandshakeCode.Exchange | rtmp_server_integration.c:300-344 | the two programs on two sockets, with any short receive and broken send: the results are those of a run of Handshake from its start, a side that succeeds has its own block back, and both succeed when nothing comes short and no send breaks off |
| AckWindow.ReadStep | rtmp_protocol.c:349-354 | a read acknowledges iff the true backlog reaches the window in force, and leaves less than it, whatever the window was before |
| AckWindow.RunSound | rtmp_protocol.c:497-500 | over every run with changing windows the wrapped counters stand for the true ones |
| AckWindow.WindowHonoured | rtmp_protocol.c:349-354 | after every read of every run the true backlog is below the current window and acknowledgements are at least that far apart |
| AckWindow.AlwaysBelowIff | rtmp_protocol.c:349-354 | a fixed window is honoured over all runs iff it is between 1 and 2^32 − 2^24 − 11 |
| PacketRuns.ReadCountsIff | rtmp_protocol.c:303-309 | for every 32-bit chunk size: a read counts at most 2^24 + 11 on every stream iff the size left in the caller's packet is at most that less the 8 bytes of a type 1 header |
| PacketRuns.PacketsHonourWindow | rtmp_protocol.c:349-354 | any number of reads of any bytes, each handled before the next: every read honours the window in force as long as the windows set fit |
| PacketTransport.PiecesRoundTrip | rtmp_protocol.c:310-342 | the payload loop reads back what the send loop wrote |
| PacketTransport.HeaderRoundTrip | rtmp_protocol.c:207-226 | the 12-byte header brings back type and stream id, and timestamp and size modulo 2^24 |
| PacketTransport.ShortHeaderRead | rtmp_protocol.c:277-346 | after a header of types 1 to 3 the type is the low six bits, size, timestamp and stream are those the caller's packet came with, and a payload of that size is read |
| PacketTransport.PacketReadAsChunks | rtmp_protocol.c:201-263 | rtmp_chunk_read reads what rtmp_send_packet sends: from every idle context the message comes out whole under id type mod 64, in as many reads as it has chunks |
| PacketTransport.ReadAsChunksIff | rtmp_protocol.c:207-208 | a fresh chunk reader gets the packet with that id for some number of reads iff it fits and its type is not 0 or 1 modulo 64 |
| PacketTransport.ControlBytes | rtmp_protocol.c:438-460 | on the bytes: types 1 and 5 set chunk size and window to the big-endian number they carry, and nothing else sets either |
| PacketTransport.PacketRestoredIff | rtmp_protocol.c:201-357 | a packet is restored, whatever follows and whatever the caller's packet held, iff timestamp and size fit in 24 bits and a size comes with data |
| PacketTransport.WireLength | rtmp_protocol.c:234-260 | a packet with payload takes 12 + size + ceil(size / chunk) − 1 bytes |
| PacketTransport.SizesAgreeIff | rtmp_protocol.c:316-342 | ends with different chunk sizes agree on all payloads of n bytes iff n is at most the smaller size |
| PacketTransport.StreamRoundTripIff | rtmp_protocol.c:438-460 | a stream with chunk size messages and empty packets is read back whole, each packet handled before the next read, iff every packet fits and none but the last sets chunk size 0 |
| PacketContext.Context.SendPacket | rtmp_protocol.c:201-263 | the packet's bytes go out iff no send breaks off, otherwise a beginning of them |
| PacketContext.Context.ReadPacket | rtmp_protocol.c:265-357 | the specified packet, counters and acknowledgements iff no receive comes short; otherwise failure, counters untouched and the received bytes gone |
| PacketContext.Context.ReadPayload | rtmp_protocol.c:310-346 | the loop over a new buffer reads the payload and drops the continuation bytes, iff no receive comes short |
| PacketContext.Context.CountRead | rtmp_protocol.c:349-354 | wrapped counting, and an acknowledgement exactly when the window is full |
| PacketContext.Context.HandleControl | rtmp_protocol.c:438-460 | chunk size and window change exactly on messages of four bytes or more |
| PacketContext.Context.Connection | rtmp_protocol.c:112-126 | packets read and handled up to the first failed read, then the disconnect: the counters and the acknowledgements sent are those of the run of the packets read, which honours the window as long as the windows set fit, and the context is ready for the next connection |
| MessageQueue.Queue.Push | rtmp_core.c:91-111 | the message joins at the end, or a full queue refuses and nothing changes |
| MessageQueue.Queue.Pop | rtmp_core.c:113-129 | the oldest message leaves and the links stay a list of the others |
| MessageQueue.Queue.Destroy | rtmp_core.c:75-89 | every node is released once, in order |
| MessageQueue.HeadReachesTail | rtmp_core.c:67-129 | the links from head meet exactly count nodes, the last of them tail; tail is null iff the queue is empty |
| SendRuntime.StepConserves | rtmp_core.c:188-270 | every step of any number of threads, connecting or not, and of any number of workers keeps order and conservation |
| SendRuntime.StepAlone | rtmp_core.c:308-355 | while at most one thread connects every step keeps at most one worker alive, with the message it has seen still queued, and starts one only when the last has been joined |
| SendRuntime.NeverWaitsIff | rtmp_core.c:308-355 | in no run does a worker reach a pop with the queue empty iff at most one thread connects |
| SendRuntime.TwoWorkers | rtmp_core.c:309-318 | with two connecting threads a run in which both start a worker, both see one message and one of them waits |
| SendRuntime.SendConservation | rtmp_core.c:195-236 | over every run accepted = sent + queued + failed + in hand, and what was taken is a beginning of what was accepted, the rest being the queue |
| SendRuntime.StepBrackets | rtmp_core.c:361-484 | with one calling thread every step keeps media between publish and unpublish |
| SendRuntime.AlwaysBracketedIff | rtmp_core.c:361-484 | accepted and dequeued streams are bracketed over all runs iff at most one thread calls the library or none may connect |
| SendRuntime.LateMedia | rtmp_core.c:428-455 | with two threads a run that accepts media behind an unpublish |
| ConnectionCalls.Connection.Connect | rtmp_core.c:308-337 | connected iff it was disconnected and socket, thread and handshake succeed; a failed handshake disconnects again; the steps taken extend a run of SendRuntime |
| ConnectionCalls.Connection.Disconnect | rtmp_core.c:339-355 | the worker is gone and joined and the state disconnected, by steps of SendRuntime |
| ConnectionCalls.Connection.PublishStart | rtmp_core.c:361-393 | from CONNECTED, with the command accepted, to PUBLISHING, otherwise nothing changes; the steps it takes in SendRuntime |
| ConnectionCalls.Connection.PublishStop | rtmp_core.c:395-426 | from PUBLISHING, with the command accepted, to CONNECTED, otherwise nothing changes; the steps it takes in SendRuntime |
| ConnectionCalls.Connection.SendMedia | rtmp_core.c:428-484 | accepted exactly while publishing with data and room, with the timestamp cut to 32 bits; the steps it takes |
| ConnectionCalls.Connection.SendMetadata | rtmp_core.c:486-515 | accepted in any state with room; the steps it takes |
| ConnectionCalls.Connection.WorkerPass | rtmp_core.c:195-258 | one pass: on a writable socket the oldest accepted message leaves, counted as sent or as the failure that ends the worker; a closed peer or a select error ends it too; by steps of SendRuntime |
| ConnectionCalls.ConnectionLaws | rtmp_core.c:188-484 | whatever calls and passes were made on the object: accepted = sent + queued + failed, taken in order, and both streams bracketed |
| Registry.KeepExact | rtmp_server_integration.c:170-193 | a sweep keeps, in order, exactly the connections idle for at most 30 seconds |
| Registry.WithoutExact | rtmp_server_integration.c:262-281 | cleanup removes exactly the named connection if it is there |
| Registry.CleanupTwice | rtmp_server_integration.c:262-281 | cleaning up a connection that is already out leaves list and count unchanged |
| Registry.StepInv | rtmp_server_integration.c:135-281 | every operation keeps ids distinct and the wrapped counter equal to list length plus drained connections |
| Registry.DrainedIff | rtmp_server_integration.c:628-635 | connections drained without counting exist iff some stop found the list non-empty |
| Registry.AcceptedListed | rtmp_server_integration.c:135-140 | a started server lists what it accepts, the last first, under its own id and time, and counts it modulo 2^32; a server that does not run accepts nothing |
| Registry.CountIff | rtmp_server_integration.c:135-140 | over every run the counter is the list length iff that fits in 32 bits and a multiple of 2^32 connections was drained; with fewer than 2^32 accepts, iff every stop found the list empty |
| RegistryList.NoCycle | rtmp_server_integration.c:168-193 | the links from the head meet every listed connection once and end |
| RegistryList.Server.Accept | rtmp_server_integration.c:135-140 | the new connection becomes the head and is counted |
| RegistryList.Server.Touch | rtmp_server_integration.c:237 | only the receive time of that connection changes |
| RegistryList.Server.Cleanup | rtmp_server_integration.c:262-281 | the prev/current search unlinks and counts out the node if it is listed, and otherwise changes no link |
| RegistryList.Server.Visit | rtmp_server_integration.c:171-192 | the loop body: an idle node leaves the chain and is counted out once, another becomes the predecessor |
| RegistryList.Server.Sweep | rtmp_server_integration.c:160-197 | the in-place sweep with its nested cleanup computes the specified list and counter |
| RegistryList.Server.Stop | rtmp_server_integration.c:612-638 | the list is empty afterwards and the counter untouched |
| RegistryList.Server.BytesReceived | rtmp_server_integration.c:731-741 | the traversal totals the listed connections modulo 2^64 |
| RegistryList.TotalSplits | rtmp_server_integration.c:731-741 | that total is additive over the list and a connection's own bytes for one |
| Failover.RetryBudget | rtmp_failover.c:355-366 | one reconnect makes at most ceil(switchTimeout / 500) connect calls |
| Failover.RetryAnswers | rtmp_failover.c:355-366 | the loop stops at the first connect that answers, and succeeds iff there was one |
| Failover.BudgetIsReached | rtmp_failover.c:355-366 | with prompt failures and exact sleeps the bound is met exactly |
| Failover.ReconnectPrompt | rtmp_failover.c:338-369 | then a reconnect takes a second and 500 ms for each of ceil(switchTimeout / 500) connects; a name that is no URL takes the second only |
| Failover.WrapNeverEnds | rtmp_failover.c:355-366 | with passes that take whole turns of the 32-bit clock the loop has no bound, whatever the timeout |
| Failover.ServerBudget | rtmp_failover.c:255-267 | within one budget per backup left, and success moves to one of those backups |
| Failover.NetworkBudget | rtmp_failover.c:269-288 | within two budgets, and success moves to another available interface |
| Failover.ServerChosen | rtmp_failover.c:255-267 | the backups are tried in order; the switch succeeds iff one answers, and the server is the first that did; otherwise only time has passed |
| Failover.NetworkChosen | rtmp_failover.c:269-288 | the current server is tried once for each of the others of en0 and pdp_ip0, and the interface is the one whose reconnect first succeeded |
| Failover.TriggerMeaning | rtmp_failover.c:140-192 | the whole effect: nothing unless ACTIVE with attempts left; then the kind's own switch, if enabled, decides between ACTIVE with a new switch time and FAILED |
| Failover.HealthMeaning | rtmp_failover.c:298-336 | healthy iff connected, on an available interface and with the ping sent; otherwise the first enabled of server, network and local is triggered |
| Failover.HealthTickMeaning | rtmp_failover.c:233-253 | the health thread checks iff the handler is active and an interval of true time has passed |
| Failover.TriggerEffect | rtmp_failover.c:140-192 | what a trigger counts, spends and may change, and that one that is not let through changes nothing |
| Failover.StepCost | rtmp_failover.c:298-336 | every operation costs at most the attempts it logs, and after a failed switch the handler has failed |
| Failover.StretchShape | rtmp_failover.c:123-192 | between starts and resets: successes, then at most one failure, at most the attempts left, connect calls at most switches × max(backups, 2) × ceil(timeout / 500) |
| Failover.RunBudget | rtmp_failover.c:82-138 | over whole runs every start and reset buys at most maxSwitchAttempts switches |
| FailoverHandler.Handler.Start | rtmp_failover.c:82-99 | only an idle handler becomes active, with attempts cleared and both stamps taken |
| FailoverHandler.Handler.Stop | rtmp_failover.c:101-121 | the handler is idle without a failover type |
| FailoverHandler.Handler.Reset | rtmp_failover.c:123-138 | attempts, stamps and health are renewed and a failed handler is active again |
| FailoverHandler.Handler.RetryLoop | rtmp_failover.c:355-366 | the loop on wrapped stamps makes the specified connects and terminates |
| FailoverHandler.Handler.SwitchServer | rtmp_failover.c:255-267 | the backups are tried in order until one answers |
| FailoverHandler.Handler.SwitchNetwork | rtmp_failover.c:269-288 | the other available interfaces are tried in order with the current server |
| FailoverHandler.Handler.Trigger | rtmp_failover.c:140-192 | the whole status changes as specified through SWITCHING |
| FailoverHandler.Handler.HealthCheck | rtmp_failover.c:298-336 | health is recorded and an unhealthy one triggers the first enabled kind |
| FailoverHandler.Handler.HealthTick | rtmp_failover.c:233-253 | an active handler whose interval has passed on wrapped stamps checks and restamps |
| Stability.ReconnectBound | rtmp_stability.c:214-233 | successful reconnects of a run never exceed the allowance left plus one allowance per clearing |
| Stability.QuietBound | rtmp_stability.c:214-287 | without start, reset, set_config or RESET mode: at most maxReconnectAttempts reconnects, and a pending heartbeat stays pending |
| Stability.TickMeaning | rtmp_stability.c:186-287 | in true times: a heartbeat goes out iff none is waiting, an interval has passed and the send succeeds; the monitor recovers, as its mode says, iff one is waiting and the timeout has passed since it went out |
| Stability.RecoveryCalls | rtmp_stability.c:159-175 | forced reconnects and recovery attempts: when they answer, count and fail |
| Stability.SilentRun | rtmp_stability.c:186-212 | from the start no heartbeat goes out, and nothing else happens, before an interval has passed or while sends fail |
| Stability.HeartbeatOutIff | rtmp_stability.c:186-248 | after any ticks from the start a heartbeat is out iff one of them came an interval after it and its send succeeded |
| Stability.FirstBeat | rtmp_stability.c:235-248 | the first such tick sets one out with its own stamp |
| Stability.SilenceIsFatal | rtmp_stability.c:89-287 | from the start: silent ticks, a first heartbeat, any quiet operations, and one late tick more than reconnects are allowed end in FAILED |
| Stability.LateTicksIff | rtmp_stability.c:250-287 | after late ticks the monitor runs iff all connected and they were at most the reconnects left; otherwise it has failed |
| Stability.HeartbeatIsFatal | rtmp_stability.c:186-233 | once a heartbeat is out, one late tick more than reconnects left ends in FAILED, whatever quiet operations come between |
| Stability.LateTickRecoversIff | rtmp_stability.c:260-287 | a late tick ends in RECOVERING iff the mode is NONE, or RECONNECT without automatic reconnect |
| Stability.RecoveringHoldsIff | rtmp_stability.c:111-142 | RECOVERING holds over a run iff the run has no stop and no reset |
| Stability.FailedHoldsIff | rtmp_stability.c:159-175 | FAILED holds over a run iff the run has no stop and no connecting recovery attempt with reconnects left, where a reset gives all of them back |
| StabilityMonitor.Monitor.Watchdog | rtmp_stability.c:186-212 | the watchdog loop over any ticks: the run of the machine, and after an overdue heartbeat the monitor still runs iff every tick reconnected and there were no more of them than reconnects left |
| StabilityMonitor.Monitor.Serve | rtmp_stability.c:76-287 | any sequence of calls and watchdog passes on the object is the run of the machine, and one late tick more than reconnects left after an unanswered heartbeat ends in FAILED, whatever quiet operations come between |
| AsShipped.HeaderSentWholeIff | rtmp_chunk.c:49-53 | with the bool as size the header goes out whole iff it is a repetition on a one-byte id |
| AsShipped.FirstMessageLost | rtmp_chunk.c:49-53 | a first one-chunk message is never read back from exactly those bytes |
| AsShipped.PacketNeverRestored | rtmp_protocol.c:212-226 | without the header block no packet at all is restored |
| AsShipped.EmptyObjectLost | rtmp_amf.c:137-144 | with four end bytes an empty object is never read back from exactly its bytes |
| AsShipped.ObjectGarbled | rtmp_amf.c:196 | with marked names an object comes back as another value unless its first name is 514 times the string marker |

## Left out

- ChunkTheorems.LockStep: chunk size 0 is excluded; LoopEndsIff says what it does to the loops.
- ChunkTheorems.FaithfulIff: one chunk size for the whole sequence.
- ChunkStream.ReadChunkSafe: the source has no bounds test; once more bytes have arrived than the buffer holds the model stops with the outcome Overrun, because memory behind the buffer has no meaning here. OverrunIff says when.
- ChunkStream.ReadWithSafe: stops there likewise.
- ChunkEndpoint.ChunkState.Read: stops with Overrun where the source writes on.
- ChunkEndpoint.ChunkContext.ReadPayload: stops with Overrun where the source writes on.
- ChunkEndpoint.SendPayload: chunk size 0, on which it does not end; LoopEndsIff says so.
- ChunkEndpoint.ChunkState.Write: chunk size 0, with which it does not end, and a packet without data, which the source refuses first, are not modelled.
- AmfValue.DecodeEncode: doubles are 64-bit patterns; their arithmetic meaning is not modelled.
- AmfValue.DecodeValue: the source hands the marker 0x0A to an array decoder whose body is not part of it; the model refuses that marker like any other without a decoder.
- AmfCodec.DecodeValueAt: refuses the array marker likewise.
- AmfCodec.EncodeConnect: strings over 65535 bytes, whose refusal the source ignores, and a buffer that is too small, which it does not test for.
- AsShipped.ObjectGarbled: says nothing about objects whose first name is 514 times the string marker.
- AsShipped.FirstMessageLost: one read of a message of one chunk.
- HandshakeCode.Exchange: the phases come in the only order in which each can have its input; receives that come before it are the short ones.
- PacketContext.Context.SendPacket: chunk size 0, on which its payload loop does not end.
- PacketContext.Context.ReadPacket: the same chunk size; the acknowledgement message is only recorded, because the body of rtmp_send_ack is not part of the source.
- PacketContext.Context.ReadPayload: the same chunk size.
- PacketContext.Context.Connection: no loop of the source makes these calls; it stops when the peer has set chunk size 0.
- PacketTransport.StreamRoundTripIff: that the sender switches to the size it has announced is assumed, because rtmp_send_chunk_size has no body.
- PacketRuns.PacketsHonourWindow: all reads go into the same packet, and a size above the stated bound in it before the first read is excluded; ReadCountsIff says why.
- MessageQueue.Queue.Pop: entered with a message present; waiting on an empty queue is a state of SendRuntime, and NeverWaitsIff says when it is reached.
- SendRuntime.NeverWaitsIff: the test of the kept handle, the join and the clearing of the handle are one step, so two threads that join the same worker are not modelled.
- SendRuntime.SendConservation: a call's state test and the building of its message are one step, and that runs make progress is not stated.
- ConnectionCalls.Connection.Connect: the worker makes no pass while the call runs; SendRuntime has those interleavings.
- ConnectionCalls.Connection.Disconnect: the worker stands between two passes when the call begins.
- ConnectionCalls.Connection.WorkerPass: counters of messages and bytes are unbounded where the source has 64 bits.
- RegistryList.Server.Cleanup: releasing the node, its socket and its buffers is not modelled, nor is its use by its own thread afterwards.
- RegistryList.Server.BytesReceived: stands for the three totals, which differ in field and width only.
- Failover.RetryBudget: assumes that a connect and the sleep after it never carry the elapsed time past 2^32 milliseconds; WrapNeverEnds says why. No time passes between the two readings that open the loop.
- FailoverHandler.Handler.RetryLoop: the same assumption.
- Failover.ServerChosen: a server name stands for the host and port parsed from it.
- Failover.NetworkChosen: the source reconnects without telling the connection which interface to use, and so does the model.
- Failover.RunBudget: URL parsing is a predicate, the configuration is fixed for a run, and switching to local recording is the test of its path.
- Stability.HeartbeatIsFatal: ticks after the clock has wrapped around to the heartbeat are not late.
- Failed allocations, logging, callbacks, sockets' options, DNS and thread creation details.
- `rtmp_handshake.c`, `rtmp_commands.c`, `rtmp_session.c`: they call functions whose bodies are not part of the source.
- `rtmp_quality.c`, `rtmp_stream.c`, `rtmp_diagnostics.c`, `rtmp_utils.c`: clamps, thresholds, tables and getters.
- The server's AMF command handlers, the connect-message builders beyond their being sequences of values, and all Objective-C files.
