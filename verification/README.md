# Verified model of the libjingle base layer

The project models the byte-level protocol code of `talk/base` and two pieces of `client`, and proves
what that code promises: that a message survives its transfer however it is cut up, that packets are
never torn, that encodings undo each other, that a shared queue stays a queue under every
interleaving, that locks exclude and sizes add up.

## How it is laid out

Where the C++ changes fields or buffers in place, the model has a class with those fields and methods
whose loops and branches are those of the C++. What a method does is said by a function on values,
and the laws are lemmas about that function, over all inputs and all runs. The world outside
(sockets, streams, files, the other thread, the server) may take or deliver any part of what it is
offered, block, or fail, at every call: it is nondeterministic, or, for the streams of HTTP, the
sockets and the files of the cache, answers by an arbitrary script, so that what the code does is
said exactly.

| file | models |
|---|---|
| `HttpParsing.dfy`, `HttpReceiving.dfy`, `HttpSending.dfy`, `HttpRoundTrip.dfy`, `HttpTypes.dfy` | the HTTP parser, receive pump and sender of `talk/base/httpbase.cc`, and the two ends together |
| `PacketFraming.dfy` | `talk/base/asynctcpsocket.cc` over two byte channels |
| `Base64.dfy`, `Base64Laws.dfy` | `talk/base/base64.cc` |
| `LockFreeQueue.dfy` | the single-producer, single-consumer queue of `talk/base/atomicops.h` |
| `Crc32.dfy` | `talk/base/crc32.cc` |
| `DiskCache.dfy`, `DiskCacheSizes.dfy`, `DiskCacheLimit.dfy`, `DiskCacheClass.dfy`, `HttpCaching.dfy` | the disk cache, its locks and accounts, and its use by the HTTP client |
| `HttpClient.dfy` | retries and redirects in `talk/base/httpclient.cc` |
| `ByteBuffer.dfy`, `ByteOrder.dfy`, `XmppSocket.dfy` | the byte queue, integers in memory, and the XMPP socket |
| `Url.dfy`, `StatusText.dfy` | the URL parser and printer; UTF-8-safe truncation |
| `CText.dfy`, `Memory.dfy`, `Streams.dfy`, `Sequences.dfy`, `Arithmetic.dfy` | C library text routines, memcpy and memmove, the answers of streams, and general facts |

## Where the code does less than one would expect

- The queue is a FIFO over unbounded runs if and only if its capacity divides 2^32: the ring slot is
  taken from a counter that wraps (`LockFreeQueue.FifoForeverIffCapacityDivides`).
- The sender writes chunks only if the header says `chunked` in these letters; the receiver expects them
  whatever the letters. Under `CHUNKED` a document never arrives in full
  (`HttpRoundTrip.MessageArrivesIff`, `HttpRoundTrip.UpperCaseCodingLosesDocument`).
- A call of the receive loop that begins with data still in its buffer, because the document was blocked
  before, and whose first read sees a clean end, reports success and loses that data, because the loop
  reads before it processes. Exactly then (`HttpReceiving.CloseLosesDataIff`;
  `HttpRoundTrip.CloseWhileBlockedLosesDocument` is such a run).
- White space is not ignored under `DO_PARSE_WHITE` with `DO_PAD_YES` when it follows whole quanta:
  decoding then misses padding it should not need (`Base64Laws.WhiteDecoding`).
- Two streams writing the same file of a cache entry spoil its size (`DiskCacheSizes.SecondWriterMiscounts`),
  and so does a non-empty file that cannot be deleted (`DiskCacheSizes.DeleteIsExactIff`).
- `CacheLock`'s rollback does not remove a resource that still has a stream open
  (`DiskCacheClass.CacheLock.Dispose`).
- Above the size limit `LockResource` may evict the entry it is about to lock, write through the stale
  reference and report success; the next call on the resource dereferences NULL. When this can happen
  is `DiskCacheLimit.StaleLockIff`; the model carries it as the outcomes `Stale` and `NullEntry`.
- Parsing a printed URL again changes it if and only if its address has two `@` signs with no colon between
  them, which leave one in the host (`Urls.ReparseIsStable`, `Urls.TwoAtSigns`).
- Headers and leaders too long for the 32 KB buffer are discarded or cut
  (`HttpSending.VisitHeader`, `HttpSending.OpeningIsWhole`).

## Model

| member | source | states |
|---|---|---|
| `HttpParsing.HttpParser.ProcessLine` | talk/base/httpbase.cc:144-229 | each state takes a line to exactly one next state, result and error, for every line: leader, header, blank line, chunk size, chunk terminator, trailer |
| `HttpParsing.LineStopsIff` | talk/base/httpbase.cc:144-229 | which lines end the message and with which error: a leader or headers the owner refuses, a header that is illegal, a chunk size that is not a number, a chunk terminator that is not blank; a blank line after the trailers ends it well |
| `HttpParsing.LineMovesTo` | talk/base/httpbase.cc:144-229 | the state each other line leads to |
| `HttpParsing.HttpParser.ProcessHeaderLine` | talk/base/httpbase.cc:156-185 | a header without a colon, an unreadable Content-Length or an unknown Transfer-Encoding is a protocol error and is not recorded; any other header is recorded and changes the message length only if it is one of those two |
| `HttpParsing.HttpParser.SplitAtColon` | talk/base/httpbase.cc:157-167 | the name is what stands before the first colon, the value what follows the white space after it |
| `HttpParsing.HttpParser.FindNewline` | talk/base/httpbase.cc:92-98 | finds the first newline, or the end |
| `HttpParsing.HttpParser.TrimmedLength` | talk/base/httpbase.cc:102-104 | cuts exactly the trailing white space |
| `HttpParsing.HttpParser.ProcessNextLine` | talk/base/httpbase.cc:91-110 | one complete line is consumed with its newline, or nothing happens |
| `HttpParsing.HttpParser.OfferData` | talk/base/httpbase.cc:118-137 | the document is offered only what belongs to the current data; by its answer exactly what it took is handed on and accounted, or nothing changes |
| `HttpParsing.HttpParser.Process` | talk/base/httpbase.cc:79-142 | for every input and every script of document answers: exactly the state, unused input, result and error that Parse gives, and what is done plus what is left means what the whole input meant; the loop terminates |
| `HttpParsing.TakeTurn` | talk/base/httpbase.cc:90-139 | a turn that consumes nothing occurs only at the end of data and leaves that end: the measure that makes the loop terminate |
| `HttpParsing.TakeLine` | talk/base/httpbase.cc:91-110 | a line state waits if and only if there is no newline, and otherwise consumes at least that newline |
| `HttpParsing.DrainLeavesNoElement` | talk/base/httpbase.cc:90-141 | when the parser asks for more, either no newline is left or it awaits data and nothing is left |
| `HttpParsing.DrainPartialData` | talk/base/httpbase.cc:117-138 | data handed over in two parts is the same as data handed over at once, for any split |
| `HttpParsing.DrainAppend` | talk/base/httpbase.cc:79-142 | parsing a then, with what it left over, b is parsing a followed by b, including where and how the message ends |
| `HttpParsing.FragmentationIndependence` | talk/base/httpbase.cc:79-142 | any fragmentation of any input gives the same leader, headers, body, result, error, unused rest and final state as the whole input |
| `HttpReceiving.Receiver.DoReceiveLoop` | talk/base/httpbase.cc:510-589 | for every script of the network and of the document: exactly the state, error and cause that the turns of the loop give; so the fate of the message never changes and each way of returning is explained by it |
| `HttpReceiving.Receiver.Fill` | talk/base/httpbase.cc:527-552 | one read moves what is delivered from the network to the end of the buffer |
| `HttpReceiving.Receiver.ProcessBuffer` | talk/base/httpbase.cc:561-584 | the buffer is parsed and what was not used is moved to its front |
| `HttpReceiving.ParserNeverOverflows` | talk/base/httpbase.cc:79-229 | the parser itself never reports HE_OVERFLOW, if its owner does not |
| `HttpSending.OpeningIsWhole` | talk/base/httpbase.cc:439-446 | the leader goes out whole if and only if it and its line ends are shorter than the buffer |
| `HttpSending.Truncated` | talk/base/stringutils.h:197-235 | strcpyn and sprintfn cut one character before the end of the room |
| `HttpSending.VisitHeader` | talk/base/httpbase.cc:722-737 | passing a header adds its line to the message, or nothing if it could never fit |
| `HttpSending.Sender.constructor` | talk/base/httpbase.cc:414-449 | send() puts the leader, and the blank line of a message without headers, in the buffer, and will write chunks if and only if the first Transfer-Encoding value is exactly "chunked" |
| `HttpSending.Sender.QueueHeaders` | talk/base/httpbase.cc:719-741 | exactly what Pack says: headers in order without overrunning the buffer until one does not fit; one that can never fit is discarded, and the blank line follows the last |
| `HttpSending.Sender.FrameChunk` | talk/base/httpbase.cc:647-657 | the bytes read into place become a chunk: eight hex digits, line end, data, line end |
| `HttpSending.ChunkSizeIsHex` | talk/base/httpbase.cc:651-652 | the size of a chunk is written in eight hex digits, the most significant first |
| `HttpSending.Sender.QueueDocument` | talk/base/httpbase.cc:622-684 | exactly what one read of the document adds, for every answer of its script: its data, framed if chunked; the last chunk, once, at its end; nothing otherwise |
| `HttpSending.Sender.FillBuffer` | talk/base/httpbase.cc:617-684 | exactly the first half of a turn: headers, then document data, unless a network write is due |
| `HttpSending.Sender.WriteOut` | talk/base/httpbase.cc:695-708 | one write: what the transport took is gone from the front of the buffer, and nothing else has changed |
| `HttpSending.Sender.FlushData` | talk/base/httpbase.cc:599-717 | for every script of the document and of the transport: exactly the state and the result that Flush gives; the loop terminates |
| `HttpSending.PackText` | talk/base/httpbase.cc:719-741 | packing headers keeps what was taken and buffered the text of the message so far |
| `HttpSending.FillIsNearer` | talk/base/httpbase.cc:617-684 | a turn leaves fewer headers, or less of the document, or the last chunk behind it, or else the buffer as it was: with the write that follows, the measure that makes the loop terminate |
| `HttpSending.FlushKeeps` | talk/base/httpbase.cc:599-717 | whatever the streams answer, bytes taken plus bytes buffered are the encoding of everything consumed, in order and without a gap |
| `HttpSending.FlushStops` | talk/base/httpbase.cc:599-717 | a call ends unfinished only after an answer of the document with everything buffered out, or of the transport; it fails only on a failure in a script; when it completes nothing is left |
| `HttpSending.CompletedMeansSent` | talk/base/httpbase.cc:599-717 | a message that completes without error has been taken by the transport in full |
| `HttpSending.FlushTellsRight` | talk/base/httpbase.cc:677-717 | an error reported is HE_STREAM for a failure of the document, else that of the failure code of the transport, and it is the last answer used |
| `HttpSending.CallsTellRight` | talk/base/httpbase.cc:677-717 | the same over any number of calls |
| `HttpSending.BufferIsFilled` | talk/base/httpbase.cc:622-658 | the document is asked for all there is room for: one that hands out what it has fills the 32768 characters, framing included, or is handed out |
| `HttpSending.PackStopsWhenFull` | talk/base/httpbase.cc:719-741 | headers stop being packed only before one that does not fit behind what is in the buffer |
| `HttpSending.FitsIff` | talk/base/httpbase.cc:722-737 | a header can be sent at all if and only if its line is shorter than 32765 characters |
| `HttpSending.SendingCompletes` | talk/base/httpbase.cc:599-717 | over any number of calls: the same, and a message is complete after more calls than the scripts of its streams have answers |
| `HttpSending.SendAll` | talk/base/httpbase.cc:414-449 | exactly what so many calls of flush_data give |
| `HttpRoundTrip.LineOnWire` | talk/base/httpbase.cc:91-110 | a line followed by any white space and a newline is that line to the parser |
| `HttpRoundTrip.HeadersOnWire` | talk/base/httpbase.cc:155-185 | the header lines the sender writes parse back to the same headers and their effect on the message length |
| `HttpRoundTrip.HexReadsBack` | talk/base/httpbase.cc:651-652 | strtoul reads back the eight padded hex digits of every 32-bit size |
| `HttpRoundTrip.ChunkOnWire` | talk/base/httpbase.cc:192-217 | one chunk parses back to its data |
| `HttpRoundTrip.LastChunkOnWire` | talk/base/httpbase.cc:662-669 | the last chunk completes the message with HE_NONE and leaves what follows |
| `HttpRoundTrip.ChunkedBodyRoundTrip` | talk/base/httpbase.cc:599-717 | section 3.6.1 of RFC 2616: for every division of every document into chunks the body parses back to the document, and the message ends exactly after the last chunk |
| `HttpRoundTrip.ChunkedMessageRoundTrip` | talk/base/httpbase.cc:414-449 | a whole chunked message parses back to its leader, its sendable headers and its document, with HE_NONE, leaving what follows |
| `HttpRoundTrip.SizedMessageRoundTrip` | talk/base/httpbase.cc:111-138 | section 4.4 of RFC 2616: the same for a message whose document has the size the receiver expects |
| `HttpRoundTrip.LengthHeaderIs` | talk/base/httpbase.cc:168-174 | a Content-Length header with a decimal number, in any letters of its name, sets the size to that number and nothing else |
| `HttpRoundTrip.HeaderRefusedIff` | talk/base/httpbase.cc:168-184 | a header is refused if and only if it names the length and has no number, or names the coding and that is neither chunked nor identity |
| `HttpRoundTrip.EffectsFollowLastLength` | talk/base/httpbase.cc:168-174 | the parser goes by the last Content-Length value |
| `HttpRoundTrip.AnnouncedMessageRoundTrip` | talk/base/httpbase.cc:111-138 | a message whose headers announce the length of its document in decimal, without a coding, parses back, if its receiver keeps that size |
| `HttpRoundTrip.UnsizedMessageRoundTrip` | talk/base/httpbase.cc:231-234 | the same for a document that lasts until the close: all of it is received and the close is a valid end |
| `HttpRoundTrip.CloseWhileBlockedLosesDocument` | talk/base/httpbase.cc:520-583 | two calls of the pump, the document blocking in the first and the stream ended in the second: success is reported and the buffered document is lost |
| `HttpRoundTrip.Transfer` | talk/base/httpbase.cc:510-717 | a sender and a receiver as they run do exactly what Transferred says, over any transport, network and documents |
| `HttpRoundTrip.TransferIsFaithful` | talk/base/httpbase.cc:510-717 | end to end, if both ends agree on the coding and report success: the same leader, headers and document, always if the end of the message is marked, and if it lasts until the close when nothing holds the receiver up and the network does not fail without an error code; otherwise if and only if nothing is still in the buffer or undelivered |
| `HttpRoundTrip.TransferCompletes` | talk/base/httpbase.cc:510-717 | and it gets there: with streams that do not fail the sender finishes after more calls than their scripts have answers, and a message whose end is marked arrives without error at a receiver that nothing holds up, as soon as everything has been delivered |
| `HttpRoundTrip.AnnouncedTransferArrives` | talk/base/httpbase.cc:510-717 | in the words of the headers: a document announced by its length in decimal gets there |
| `HttpRoundTrip.MessageLinesFit` | talk/base/httpbase.cc:553-559 | no line of a complete message is too long for the buffer of a receiver that reads it in the coding it was sent in: HE_OVERFLOW does not occur |
| `HttpTypes.ConcatAppend` | talk/base/httpbase.cc:642-658 | adding one more piece to a document cut into pieces adds it to the document |
| `CText.FixedDigitsValue` | talk/base/httpbase.cc:651-652 | padded digits of a number that fits have its value |
| `CText.FixedDigitAt` | talk/base/httpbase.cc:651-652 | each padded digit is the one it should be, the most significant first |
| `CText.DecimalValue` | talk/base/httpcommon-inl.h:109-114 | the decimal digits of a number have its value |
| `CText.StrtoulOfDigits` | talk/base/httpbase.cc:192-202 | strtoul uses the whole of a run of digits and returns its value |
| `CText.ScanUnsignedReads` | talk/base/httpbase.cc:168-174 | sscanf reads the number after white space and a sign, whatever follows its digits, cut off at 4294967295 and negated for a minus |
| `CText.ScanUnsignedRefusesIff` | talk/base/httpbase.cc:168-174 | it finds none if and only if no digit follows the white space and the sign |
| `CText.DecimalReadsBack` | talk/base/httpbase.cc:168-174 | a number printed in decimal is read back |
| `CText.TrimRightUnique` | talk/base/httpbase.cc:102-104 | cutting trailing white space has one possible result |
| `PacketFraming.LeftoverFits` | talk/base/asynctcpsocket.cc:42-47 | what unframing leaves is shorter than one frame, hence at most 65536 bytes |
| `PacketFraming.UnframeKeepsBytes` | talk/base/asynctcpsocket.cc:289-307 | the packets taken out, framed again, followed by the leftover are the input |
| `PacketFraming.UnframeOfFrames` | talk/base/asynctcpsocket.cc:264-307 | unframing gives back exactly the packets that were framed, whatever incomplete frame follows |
| `PacketFraming.OnlyShortPacketsSurvive` | talk/base/asynctcpsocket.cc:265-275 | a packet survives its 16-bit length if and only if it is shorter than 65536 bytes |
| `PacketFraming.FramesPrefix` | talk/base/asynctcpsocket.cc:289-307 | if one framed stream begins another, its packets are the first packets of the other |
| `PacketFraming.AsyncTcpSocket.FlushOutBuffer` | talk/base/asynctcpsocket.cc:166-181 | what the channel took is gone from the front of the buffer and is on the wire, and nothing else has changed |
| `PacketFraming.AsyncTcpSocket.AppendToOutBuffer` | talk/base/asynctcpsocket.cc:183-187 | appends within the buffer, as its assertion demands |
| `PacketFraming.AsyncTcpSocket.Send` | talk/base/asynctcpsocket.cc:264-287 | for packets of every size and every answer of the channel: exactly the state and result that Sent gives, and whether the assertion in AppendToOutBuffer fails |
| `PacketFraming.AsyncTcpSocket.OnWriteEvent` | talk/base/asynctcpsocket.cc:232-242 | exactly one flush of what is buffered; readiness is signalled if and only if nothing is left |
| `PacketFraming.AsyncTcpSocket.ProcessInput` | talk/base/asynctcpsocket.cc:289-307 | signals exactly the complete packets in the buffer, in order, and moves the rest to the front |
| `PacketFraming.AsyncTcpSocket.OnReadEvent` | talk/base/asynctcpsocket.cc:210-229 | exactly what Received gives; there is always room to receive, and the overflow branch is unreachable |
| `PacketFraming.DeliveryIsFaithful` | talk/base/asynctcpsocket.cc:193-307 | at every moment the packets signalled are a prefix of those kept, which are an in-order subsequence of those passed to Send |
| `PacketFraming.DeliveryIsComplete` | talk/base/asynctcpsocket.cc:193-307 | once all is flushed and delivered, exactly the kept packets have been signalled |
| `PacketFraming.Act` | talk/base/asynctcpsocket.cc:193-307 | whatever happens at one end, the connection becomes exactly what Acted says |
| `PacketFraming.Converse` | talk/base/asynctcpsocket.cc:193-307 | two connected sockets, over channels with any scripts, come after every run of events to exactly what Run says |
| `PacketFraming.SentKeeps` | talk/base/asynctcpsocket.cc:264-287 | sending keeps the bytes sent and buffered equal to the frames of the kept packets, which are some of those passed to Send, in order |
| `PacketFraming.FlushedKeeps` | talk/base/asynctcpsocket.cc:166-181 | so does flushing |
| `PacketFraming.ReceivedKeeps` | talk/base/asynctcpsocket.cc:210-229 | receiving keeps the bytes received equal to the frames signalled plus less than one frame |
| `PacketFraming.ActedKeeps` | talk/base/asynctcpsocket.cc:193-307 | an event adds exactly its packet to those passed to Send, takes back none of the kept or signalled ones, and keeps the invariant of the connection |
| `PacketFraming.RunIsFaithful` | talk/base/asynctcpsocket.cc:193-307 | after every run the packets passed to Send are those of the events, those kept a subsequence of them, and those signalled a prefix of the kept, in both directions |
| `PacketFraming.DroppedIff` | talk/base/asynctcpsocket.cc:264-287 | a packet is dropped if and only if another is being flushed, or it fails the assertion, or the channel takes nothing of it |
| `PacketFraming.NothingIsDropped` | talk/base/asynctcpsocket.cc:193-307 | over channels that take what they are given, after every run and once everything is delivered, exactly the packets passed to Send have been signalled |
| `PacketFraming.ReceivedTakes` | talk/base/asynctcpsocket.cc:210-229 | a read event takes what the channel delivers into the free part of the buffer; with what was held back that is the packets it signals, in frames, and what it holds back now |
| `PacketFraming.ReadsDeliver` | talk/base/asynctcpsocket.cc:210-229 | on a channel that gives something each time, as many read events as bytes in flight bring them all |
| `PacketFraming.WritesFlush` | talk/base/asynctcpsocket.cc:232-242 | on a channel that takes something each time, as many write events as bytes buffered flush them all |
| `PacketFraming.KeptGetsThrough` | talk/base/asynctcpsocket.cc:193-307 | from any moment of any run on, over a willing channel, enough write events and then read events make the receiver signal exactly the packets kept |
| `Base64.TablesInverse` | talk/base/base64.cc:33-70 | the two tables undo each other, and the padding class is the pad character alone |
| `Base64.AlphabetIs` | talk/base/base64.cc:33-70 | the alphabet, its pad and the white space are those of section 4 of RFC 4648 and of isspace |
| `Base64.Encode` | talk/base/base64.cc:102 | the encoding of n octets has ((n+2)/3)*4 characters |
| `Base64.GroupIsBits` | talk/base/base64.cc:103-135 | the four characters of a group are the sextets of its 24 bits, from the highest, with pads for missing octets |
| `Base64.EncodeGroup` | talk/base/base64.cc:109-134 | one turn of the encoder writes the four characters of up to three octets |
| `Base64.EncodeFromArray` | talk/base/base64.cc:99-136 | the encoder fills the result exactly with the encoding |
| `Base64.ScanText` | talk/base/base64.cc:143-176 | the scanning loop with its skips, pads and stops, for all parse modes |
| `Base64.GetNextQuantum` | talk/base/base64.cc:138-190 | the quantum found, whether it is padded, and where the text goes on; illegal padding is given back |
| `Base64.JoinSextets` | talk/base/base64.cc:227-239 | the octets a quantum holds and the bits left over |
| `Base64.DecodeFromArray` | talk/base/base64.cc:203-257 | the decoder gives the result, success and number of characters used of the decoding function, in all 27 modes |
| `Base64Laws.StrictScan` | talk/base/base64.cc:143-176 | strict scanning accepts only sextets followed by pads, and no other characters |
| `Base64Laws.StrictRoundTrip` | talk/base/base64.cc:99-257 | strict decoding of the encoding of x succeeds, gives x and uses every character |
| `Base64Laws.RoundTrip` | talk/base/base64.cc:138-258 | under all flags decoding an encoding gives x, succeeds and uses every character; only where pads are neither allowed nor ignored are they left, a failure if the text must be used up |
| `Base64Laws.StrictAccepts` | talk/base/base64.cc:203-257 | whatever strict decoding accepts is the encoding of what it returns, to the last character (canonical form, section 3.5 of RFC 4648) |
| `Base64Laws.StrictAcceptsExactlyEncodings` | talk/base/base64.cc:203-257 | strict decoding succeeds on a text if and only if some x encodes to it |
| `Base64Laws.LaxDecoding` | talk/base/base64.cc:145-175 | with DO_PARSE_ANY the output is that of decoding only the characters of the alphabet |
| `Base64Laws.WhiteDecoding` | talk/base/base64.cc:149-152 | with DO_PARSE_WHITE deleting white space never changes the output, and changes success if and only if padding is demanded and white space follows a text of whole unpadded quanta |
| `Base64Laws.WhiteRoundTrip` | talk/base/base64.cc:138-258 | an encoding with white space in it decodes to x, with success but for that one case |
| `Base64Laws.DecodingIsExpected` | talk/base/base64.cc:138-258 | what strict decoding and decoding over white space make of any text under any flags: the octets of the sextets at its front; success if and only if no bits are left over, demanded padding is there, and nothing is left, each where it matters; and what is left |
| `LockFreeQueue.SizeIsExact` | talk/base/atomicops.h:145-151 | Size() is the number of values pushed and not popped, at most the capacity; IsFull and IsEmpty are exact, with wrapping counters |
| `LockFreeQueue.StoreKeepsUnread` | talk/base/atomicops.h:101 | a store never overwrites a value that has not been read |
| `LockFreeQueue.StepKeepsInv` | talk/base/atomicops.h:92-134 | every micro-step of either thread keeps the invariant |
| `LockFreeQueue.RunKeepsInv` | talk/base/atomicops.h:92-134 | so does every interleaving |
| `LockFreeQueue.EveryRunIsFifo` | talk/base/atomicops.h:92-151 | in every interleaving whose slots stay in step (capacity divides 2^32, or at most 2^32 pushes begun) the values popped are a prefix of those pushed and the size is exact |
| `LockFreeQueue.FifoForeverIffCapacityDivides` | talk/base/atomicops.h:92-151 | all interleavings of any length are FIFO if and only if the capacity divides 2^32 |
| `LockFreeQueue.WrappedPushOverwrites` | talk/base/atomicops.h:101-105 | otherwise, once the counter has wrapped, a push lands on the oldest unread value |
| `LockFreeQueue.FixedSizeLockFreeQueue.constructor` | talk/base/atomicops.h:83-87 | an empty queue of the given capacity |
| `LockFreeQueue.FixedSizeLockFreeQueue.PushBack` | talk/base/atomicops.h:92-107 | with the consumer acting at any point in between: accepts if and only if there was room, and then pushes exactly that value by exactly its three steps |
| `LockFreeQueue.FixedSizeLockFreeQueue.PeekFront` | talk/base/atomicops.h:112-123 | with the producer acting in between: returns the oldest value, if there was one, and pops nothing |
| `LockFreeQueue.PeekChangesNothing` | talk/base/atomicops.h:112-123 | a peek that nothing comes between leaves the queue as it was |
| `LockFreeQueue.FixedSizeLockFreeQueue.PopFront` | talk/base/atomicops.h:128-134 | returns and removes the oldest value pushed and not yet popped, if there was one |
| `LockFreeQueue.FixedSizeLockFreeQueue.ClearAndResizeUnsafe` | talk/base/atomicops.h:138-143 | starts again empty with the new capacity |
| `LockFreeQueue.FixedSizeLockFreeQueue.Size` | talk/base/atomicops.h:151 | the number of values waiting |
| `Crc32.BitStepIsLinear` | talk/base/crc32.cc:46-52 | a bit step distributes over exclusive or |
| `Crc32.BitStepIsInjective` | talk/base/crc32.cc:46-52 | a bit step loses nothing, because the top bit of the polynomial is set |
| `Crc32.TableStepIsByteStep` | talk/base/crc32.cc:63 | for every register and byte, one look-up and shift does eight bit steps |
| `Crc32.EntryIsZeroOnlyForZero` | talk/base/crc32.cc:42-43 | only entry 0 is zero, so a nonzero last entry means the table has been filled |
| `Crc32.Crc32Table.EnsureCrc32TableInited` | talk/base/crc32.cc:40-54 | every entry is right afterwards, however far an earlier call had come |
| `Crc32.Crc32Table.LastEntryTells` | talk/base/crc32.cc:40-42 | with the first n entries computed and the others zero, the last entry is nonzero if and only if n is 256 |
| `Crc32.Crc32Table.ComputeEntry` | talk/base/crc32.cc:44-51 | the inner loop computes eight bit steps of its index |
| `Crc32.Crc32Table.UpdateCrc32` | talk/base/crc32.cc:57-66 | the table-driven update computes the bit-by-bit checksum |
| `Crc32.CheckValues` | talk/base/crc32.cc:56-66 | the checksum of the nine digits is CBF43926, and of a zero byte D202EF8D |
| `Crc32.UpdatesCompose` | talk/base/crc32.cc:57-66 | UpdateCrc32(UpdateCrc32(s, a), b) is UpdateCrc32(s, a followed by b) |
| `Crc32.Absorb` | talk/base/crc32.cc:46-52 | up to 32 message bits can be added to the register at once and then stepped through |
| `Crc32.FoldIsFoldBits` | talk/base/crc32.cc:62-64 | the checksum of bytes is that of their bits, lowest first |
| `Crc32.BurstIsDetected` | talk/base/crc32.cc:57-66 | messages of equal length that differ only inside 32 consecutive bits, at any alignment, have different checksums for every start value |
| `Crc32.FourByteChangeIsDetected` | talk/base/crc32.cc:57-66 | messages that differ only inside four consecutive bytes have different checksums |
| `Crc32.WiderBurstCanGoUnnoticed` | talk/base/crc32.cc:38 | a pair of messages within 33 bits with the same checksum |
| `DiskCaching.StepKeepsInv` | talk/base/diskcache.cc:114-227 | every operation keeps readers and writers apart, counts accessors exactly and keeps the totals |
| `DiskCaching.ReadersAndWritersExclude` | talk/base/diskcache.cc:114-186 | in every run an unlocked entry has only readers open, a locked or unlocking one only writers, and an entry with an open stream is in the map |
| `DiskCaching.TotalsAreSums` | talk/base/diskcache.cc:229-237 | in every run the totals are the sums over the entries, and an entry that is unlocking has an accessor |
| `DiskCaching.LockedSurvives` | talk/base/diskcache.cc:208-209 | a locked resource stays, locked, until it is unlocked, whatever else is done |
| `DiskCaching.WriteTruncates` | talk/base/diskcache.cc:128-154 | writing makes one writer more, cuts the file off, and makes the resource have that stream |
| `DiskCaching.GrowLengthens` | talk/base/diskcache.cc:128-154 | what is written makes the file longer by as much |
| `DiskCaching.ReleaseCloses` | talk/base/diskcache.cc:331-360 | releasing a stream closes just that one, and the last writer completes the unlocking |
| `DiskCaching.DeleteRemoves` | talk/base/diskcache.cc:200-227 | deleting an idle resource removes it, with every file of its streams that can be deleted, and no other |
| `DiskCaching.ReadOpens` | talk/base/diskcache.cc:173-186 | reading makes one reader more and changes nothing else |
| `DiskCaching.StreamSurvives` | talk/base/diskcache.cc:112-227 | while a stream is open, over every run until it is released, its resource is there, in use, and unlocked just for readers; it cannot be deleted, while read not locked or written and its files stay as they are, while written not read |
| `DiskCaching.SumUpdated` | talk/base/diskcache.cc:232-236 | the sum over the entries after one of them changes |
| `DiskCacheSizes.PreviousSizeFits` | talk/base/diskcache.cc:133-139 | the assertion previous_size <= entry->size holds for a stream that is not being written |
| `DiskCacheSizes.WriteKeepsExact` | talk/base/diskcache.cc:133-149 | opening a stream for writing takes its file out of the entry's size |
| `DiskCacheSizes.ReleaseKeepsExact` | talk/base/diskcache.cc:342-352 | closing it puts the new size in; closing a reader changes nothing |
| `DiskCacheSizes.DeleteIsExactIff` | talk/base/diskcache.cc:211-226 | deleting a resource leaves the accounts exact if and only if every file that could not be deleted is empty |
| `DiskCacheSizes.StepKeepsAccounted` | talk/base/diskcache.cc:114-227 | every careful operation keeps all sizes exact |
| `DiskCacheSizes.SizesAreConserved` | talk/base/diskcache.cc:133-152 | after every careful run each entry's size is the total of its files not being written, the total size is the sum, and the assertion in WriteResource cannot fail |
| `DiskCacheSizes.SecondWriterMiscounts` | talk/base/diskcache.cc:128-154 | a stream opened for writing twice leaves a wrong size, unless the bytes written happen to equal what the second opening took off: the exact error |
| `DiskCacheClass.DiskCache.LockResource` | talk/base/diskcache.cc:114-126 | refused if locked or in use; granted within the limit; above it, exactly what the limit check makes of it: refused if it fails, stale if it evicted the entry, granted otherwise |
| `DiskCacheClass.DiskCache.WriteResource` | talk/base/diskcache.cc:128-154 | opens a stream only of a locked resource, with the size accounting |
| `DiskCacheClass.DiskCache.UnlockResource` | talk/base/diskcache.cc:156-169 | succeeds only on a locked resource; unlocking waits for the writers, or is complete and checks the limit |
| `DiskCacheClass.DiskCache.ReadResource` | talk/base/diskcache.cc:171-186 | opens a stream if and only if the resource is unlocked, has that stream, and its file opens; then there is one reader more, and nothing else has changed |
| `DiskCacheClass.DiskCache.ReleaseResource` | talk/base/diskcache.cc:331-360 | the entry is always found; the last writer of an unlocking resource unlocks it |
| `DiskCacheClass.DiskCache.DeleteFiles` | talk/base/diskcache.cc:211-222 | removes exactly those files of the resource that can be deleted, and succeeds if and only if that is all of them |
| `DiskCacheClass.DiskCache.DeleteResource` | talk/base/diskcache.cc:203-227 | refuses a resource in use; otherwise erases it, succeeding if and only if all its files went |
| `DiskCacheClass.DiskCache.CheckLimit` | talk/base/diskcache.cc:241-263 | deletes while the total is over the limit and something is idle, giving up at the first failure; terminates; reports success only with the total within the limit, and only if what is in use fits |
| `DiskCacheClass.CacheLock.constructor` | talk/base/diskcache.h:116-120 | reports a lock when LockResource does: the resource is then locked, unless the entry was evicted meanwhile, which can be told beforehand |
| `DiskCacheClass.CacheLock.Dispose` | talk/base/diskcache.h:121-128 | with rollback the resource is gone afterwards if and only if no stream of it is open; without, it is unlocked or unlocking, unless the limit check evicted it |
| `HttpCaching.WriteCacheHeaders` | talk/base/httpclient.cc:505-518 | succeeds if and only if the disk lets it; either way no stream is left open and the resource stays locked |
| `HttpCaching.BeginCacheFile` | talk/base/httpclient.cc:472-503 | within the size limit caching begins exactly when the resource can be locked and the disk lets both files be opened and the headers be written; then the body is being written and unlocks itself at its end; if it fails later nothing is left, unless somebody else was still writing |
| `HttpCaching.CompleteCacheFile` | talk/base/httpclient.cc:520-535 | with other writers left it just closes its stream; ending the last writer unlocks the resource, or removes it after a failed write |
| `HttpClients.RedirectSpends` | talk/base/httpclient.cc:760-781 | a followed redirect gives all attempts back and still leaves fewer connections to come |
| `HttpClients.CompletionSpends` | talk/base/httpclient.cc:727-825 | a report is waited out, ends the request with one completion, or sends the client to connect with less budget |
| `HttpClients.StepSpends` | talk/base/httpclient.cc:415-432 | every answer of the world decreases (budget, phase) lexicographically, except reports of a stream that stays attached |
| `HttpClients.ConnectionsAreBounded` | talk/base/httpclient.cc:281-282 | each user start() leads to at most (retries+1)*(kMaxRedirects+1) connections and one completion signal, in every run |
| `HttpClients.BoundIsReached` | talk/base/httpclient.cc:281-282 | for every number of retries some run makes exactly that many |
| `HttpClients.WhatBecomes` | talk/base/httpclient.cc:727-824 | what each answer makes of a request: retried, redirected (by default a 303 for any verb, the other codes for GET and HEAD), ended with which error, ended well, or going on; and the request it is then |
| `HttpClients.RunEndsWith` | talk/base/httpclient.cc:727-824 | over every run the error signalled at the end is the one reported by the answer that ended it, with no retry or redirect due, or HE_STREAM where the document could not be sent again |
| `HttpClients.PostStays` | talk/base/httpclient.cc:459-470 | over every run a request other than GET and HEAD is by default not redirected and not changed as long as no 303 comes |
| `HttpClients.HttpClient.Start` | talk/base/httpclient.cc:354-413 | start() begins with no attempt used and connects |
| `HttpClients.HttpClient.Connect` | talk/base/httpclient.cc:415-432 | looks a name up, or asks the pool; a failure goes through onHttpComplete, and the mutual recursion terminates |
| `HttpClients.HttpClient.OnResolveResult` | talk/base/httpclient.cc:319-334 | a resolved name leads to a connection, a failure to a retry or the end |
| `HttpClients.HttpClient.OnHttpComplete` | talk/base/httpclient.cc:727-825 | does what the model of a completion says, for every mode, error and response |
| `HttpClients.HttpClient.PrepareRedirect` | talk/base/httpclient.cc:761-777 | a 303 turns the request into a GET without document; any other redirect needs a document that can be replayed |
| `ByteBuffers.StepIsQueue` | talk/base/bytebuffer.cc:140-248 | every operation acts on the contents as on a queue, a resize cutting them to the wanted length, and keeps start <= end <= size |
| `ByteBuffers.RunIsQueue` | talk/base/bytebuffer.cc:140-248 | over every run of writes, reads, resizes and clears, growth and compaction are invisible |
| `ByteBuffers.VersionTellsDisturbance` | talk/base/bytebuffer.cc:207-223 | the version changes if and only if the contents were moved or cleared |
| `ByteBuffers.PositionRestores` | talk/base/bytebuffer.cc:232-242 | a remembered position can be restored if and only if nothing moved since, and then gives what could be read at the time followed by everything written since |
| `ByteBuffers.EncodingRoundTrip` | talk/base/bytebuffer.cc:87-188 | an integer of k bytes reads back modulo 256^k in both orders on both kinds of host |
| `ByteBuffers.Image24` | talk/base/bytebuffer.cc:171-178 | the three bytes picked from a four-byte image are those of the 24-bit value |
| `ByteBuffers.FromImage24` | talk/base/bytebuffer.cc:99-114 | three bytes read over a zeroed integer have their value |
| `ByteBuffers.ByteBuffer.constructor` | talk/base/bytebuffer.cc:61-75 | the contents are the given bytes, or empty |
| `ByteBuffers.ByteBuffer.Resize` | talk/base/bytebuffer.cc:207-223 | keeps the front of the contents, in place or in a larger array, and invalidates positions |
| `ByteBuffers.ByteBuffer.ReserveWriteBuffer` | talk/base/bytebuffer.cc:198-205 | makes room behind the contents, moving them only if needed |
| `ByteBuffers.ByteBuffer.WriteBytes` | talk/base/bytebuffer.cc:194-196 | appends the bytes |
| `ByteBuffers.ByteBuffer.ReadBytes` | talk/base/bytebuffer.cc:152-160 | takes exactly that many bytes from the front, or none |
| `ByteBuffers.ByteBuffer.Consume` | talk/base/bytebuffer.cc:225-230 | drops that many bytes, or none |
| `ByteBuffers.ByteBuffer.Clear` | talk/base/bytebuffer.cc:244-248 | empties and zeroes the buffer |
| `ByteBuffers.ByteBuffer.SetReadPosition` | talk/base/bytebuffer.cc:236-242 | succeeds if and only if the version is the same |
| `ByteBuffers.ByteBuffer.WriteUInt16` | talk/base/bytebuffer.cc:166-169 | appends the two bytes of the value in the buffer's order |
| `ByteBuffers.ByteBuffer.WriteUInt24` | talk/base/bytebuffer.cc:171-178 | appends the three low bytes |
| `ByteBuffers.ByteBuffer.WriteUInt32` | talk/base/bytebuffer.cc:180-183 | appends four bytes |
| `ByteBuffers.ByteBuffer.WriteUInt64` | talk/base/bytebuffer.cc:185-188 | appends eight bytes |
| `ByteBuffers.ByteBuffer.ReadUInt16` | talk/base/bytebuffer.cc:87-97 | takes two bytes and their value, or nothing |
| `ByteBuffers.ByteBuffer.ReadUInt24` | talk/base/bytebuffer.cc:99-114 | takes three bytes and their value, or nothing |
| `ByteBuffers.ByteBuffer.ReadUInt32` | talk/base/bytebuffer.cc:116-126 | takes four bytes and their value, or nothing |
| `ByteBuffers.ByteBuffer.ReadUInt64` | talk/base/bytebuffer.cc:128-138 | takes eight bytes and their value, or nothing |
| `ByteOrder.BigEndianRoundTrip` | talk/base/byteorder.h:55-99 | loading what was stored gives the value modulo the width |
| `ByteOrder.BytesRoundTrip` | talk/base/byteorder.h:78-99 | storing what was loaded gives the bytes |
| `ByteOrder.BigEndianAt` | talk/base/byteorder.h:55-76 | byte i from the low end is the value shifted by 8i, cut to eight bits |
| `ByteOrder.NetworkRoundTrip` | talk/base/byteorder.h:153-181 | on either host HostToNetwork leaves the big-endian form in memory, and NetworkToHost undoes it |
| `ByteOrder.SetBE32` | talk/base/byteorder.h:60-65 | stores the big-endian form |
| `ByteOrder.SetBE64` | talk/base/byteorder.h:67-76 | stores the big-endian form |
| `ByteOrder.SetLE64` | talk/base/byteorder.h:113-122 | stores the little-endian form |
| `ByteOrder.GetBE64` | talk/base/byteorder.h:90-99 | loads the big-endian value |
| `ByteOrder.GetLE64` | talk/base/byteorder.h:136-145 | loads the little-endian value |
| `XmppSocket.TXmppSocket.OnWriteEvent` | client/txmppsocket.cc:100-112 | exactly what Flushed says, for every script of the socket: it sends from the front of the buffer until it is empty or the socket takes nothing |
| `XmppSocket.TXmppSocket.Write` | client/txmppsocket.cc:212-220 | accepts all bytes, behind those waiting, and flushes |
| `XmppSocket.Converse` | client/txmppsocket.cc:100-112 | a socket comes after every run of writes and write events to exactly what Run says |
| `XmppSocket.FlushedKeeps` | client/txmppsocket.cc:100-112 | flushing moves bytes from those waiting to those sent, in order, and leaves some only when the socket refused |
| `XmppSocket.RunKeeps` | client/txmppsocket.cc:100-112 | after every run, sent bytes followed by waiting ones are the concatenation of all writes |
| `XmppSocket.RunSends` | client/txmppsocket.cc:100-112 | a socket that takes what it is offered has been sent all of it |
| `Urls.ParseIsParsed` | talk/base/httpcommon-inl.h:40-95 | whatever the text, the parsed host has no / or :, the path starts with / and has no ?, and the query is empty or starts with ? |
| `Urls.TakenApart` | talk/base/httpcommon-inl.h:40-95 | any URL text is taken apart as it is written: scheme in any letters, user skipped, host, port (cut off at 32 bits, then to 16, or the default), path (or /), query |
| `Urls.NoSchemeClears` | talk/base/httpcommon-inl.h:40-59 | any other text is cleared to nothing |
| `Urls.PortLeftOutIff` | talk/base/httpcommon-inl.h:97-121 | the port is left out of the printed URL if and only if it is the default one |
| `Urls.PrintThenParse` | talk/base/httpcommon-inl.h:40-121 | printing and parsing give a URL back if and only if it has that form and no @ in its host: default ports, other ports, both schemes |
| `Urls.ReparseIsStable` | talk/base/httpcommon-inl.h:40-121 | parsing a printed URL again changes nothing if and only if the host has no @; told from the text, if and only if its address has no two @ signs with no colon between them |
| `Urls.UserIsCutOff` | talk/base/httpcommon-inl.h:63-67 | of a host with an @ exactly what follows the first one, up to a colon, is left |
| `Urls.Url.SetUrl` | talk/base/httpcommon-inl.h:40-59 | sets the fields as parsed, or clears them when the scheme is neither http nor https |
| `Urls.Url.SetAddress` | talk/base/httpcommon-inl.h:61-78 | skips the user name, splits off the port (cut to 16 bits) or takes the default one |
| `Urls.Url.SetFullPath` | talk/base/httpcommon-inl.h:80-95 | splits at the first ?, with / for an empty path |
| `Urls.Url.GetUrl` | talk/base/httpcommon-inl.h:97-121 | prints the parts in order, without the default port |
| `Urls.Refresh` | talk/base/httpcommon-inl.h:40-121 | a URL set to its own printed text is unchanged if and only if it has the form of PrintThenParse, however its fields were set |
| `StatusText.CutBeforeFirstByte` | client/rosterhandler.cc:18-21 | in UTF-8 (section 4 of RFC 3629) a cut leaves a well-formed prefix if and only if it is made before a byte the code takes for a first byte |
| `StatusText.IsUtf8FirstByte` | client/rosterhandler.cc:18-21 | taken for first bytes are ASCII and 0xC0 to 0xFD |
| `StatusText.FirstByteIsNear` | client/rosterhandler.cc:131-133 | a first byte is found at most three bytes back |
| `StatusText.Truncated` | client/rosterhandler.cc:126-136 | a long status is cut to its longest prefix of at most 300 bytes that is whole characters, at least 297 bytes, with a whole remainder; a short one is kept; malformed text is cut before its last first byte |
| `HttpParsing.HttpParser.Reset` | talk/base/httpbase.cc:72-77 | a reset parser awaits a leader, with unknown size and nothing recorded |
| `LockFreeQueue.FixedSizeLockFreeQueue.ReadFront` | talk/base/atomicops.h:112-123 | the part PeekFront and PopFront share: check, then read, with the producer acting in between |
| `PacketFraming.AsyncTcpSocket.constructor` | talk/base/asynctcpsocket.cc:68-91 | two empty buffers of the maximal frame size |
| `PacketFraming.AsyncTcpSocket.Fill` | talk/base/asynctcpsocket.cc:211-220 | what arrives is put behind what was held back, as the script of the channel says |
| `Crc32.Crc32Table.LookUp` | talk/base/crc32.cc:63 | one look-up and shift folds one byte into the register |
| `DiskCacheClass.DiskCache.constructor` | talk/base/diskcache.cc:77-78 | an empty cache over any folder satisfies the invariant |
| `DiskCacheClass.DiskCache.Settle` | talk/base/diskcache.cc:339-356 | the accounting of a release, and whether it completes the unlocking |
| `HttpClients.HttpClient.TryAgain` | talk/base/httpclient.cc:735-743 | a retry uses one attempt, and fails if the document cannot be replayed |
| `HttpClients.HttpClient.FollowRedirect` | talk/base/httpclient.cc:760-781 | a redirect starts again, or fails if the document cannot be replayed |
| `HttpClients.HttpClient.Complete` | talk/base/httpclient.cc:823-824 | the client is idle and has signalled completion once more |
| `ByteBuffers.ByteBuffer.MoveContents` | talk/base/bytebuffer.cc:209-219 | the bytes kept move to the front unchanged, and the size grows as computed |
| `ByteBuffers.ByteBuffer.GetReadPosition` | talk/base/bytebuffer.cc:232-234 | the present start and version |
| `ByteBuffers.ByteBuffer.WriteUInt8` | talk/base/bytebuffer.cc:162-164 | appends one byte |
| `ByteBuffers.ByteBuffer.ReadUInt8` | talk/base/bytebuffer.cc:81-85 | takes one byte, or nothing |
| `ByteOrder.SetBE16` | talk/base/byteorder.h:55-58 | stores the big-endian form |
| `ByteOrder.SetLE16` | talk/base/byteorder.h:101-104 | stores the little-endian form |
| `ByteOrder.SetLE32` | talk/base/byteorder.h:106-111 | stores the little-endian form |
| `ByteOrder.GetBE16` | talk/base/byteorder.h:78-81 | loads the big-endian value |
| `ByteOrder.GetBE32` | talk/base/byteorder.h:83-88 | loads the big-endian value |
| `ByteOrder.GetLE16` | talk/base/byteorder.h:124-127 | loads the little-endian value |
| `ByteOrder.GetLE32` | talk/base/byteorder.h:129-134 | loads the little-endian value |
| `Urls.Url.constructor` | talk/base/httpcommon.h:215 | the fields are those parsed from the text |
| `Urls.Url.Clear` | talk/base/httpcommon.h:221-227 | no host, the default port, path / |
| `HttpParsing.Document.Write` | talk/base/httpbase.cc:869-884 | a document takes part of what it is offered, blocks, or breaks, as its script says |
| `HttpParsing.ParseCarries` | talk/base/httpbase.cc:79-142 | whatever the document answers, what a call did and what it left mean what the input meant, and each result says where the parser stands |
| `HttpParsing.HeldForAReason` | talk/base/httpbase.cc:130-133 | a call is held up or fails only because the document blocked or broke, or the owner stalled |
| `HttpParsing.WillingParseIsDrain` | talk/base/httpbase.cc:79-142 | with a document that neither blocks nor breaks the parser computes the reference meaning, however little it takes at a time; PR_COMPLETE comes exactly at the end |
| `HttpParsing.CallsAreFragmentationIndependent` | talk/base/httpbase.cc:79-142 | calls on any fragments, with any such document, come to what parsing the whole input gives |
| `HttpReceiving.Source.Read` | talk/base/httpbase.cc:529-552 | the network delivers some of what is to come, has nothing yet, ends once all is delivered, or fails, as its script says |
| `HttpReceiving.Receiver.ReadMore` | talk/base/httpbase.cc:527-559 | the first half of a turn returns exactly when there is nothing to read and more is needed, the stream has closed, or the buffer is full of one line |
| `HttpReceiving.TurnsExplained` | talk/base/httpbase.cc:510-589 | a waiting pump is starved, held up, or out of turns with the fate of the message unchanged; an ended message ended as it was meant to; a clean end was seen only with everything delivered |
| `HttpReceiving.OverflowMeansLineTooLong` | talk/base/httpbase.cc:553-559 | HE_OVERFLOW is reported if and only if the loop found its 32768 bytes newline-free while a line was awaited |
| `HttpReceiving.TurnsTakeText` | talk/base/httpbase.cc:585-588 | a call that uses up its 21 turns has seen at least 20 more characters arrive |
| `HttpReceiving.NeverHeldUp` | talk/base/httpbase.cc:578-583 | with a willing document the pump is never held up |
| `HttpReceiving.AllDeliveredMeansEnded` | talk/base/httpbase.cc:510-589 | with nothing outside holding the message up, a call that returns with everything delivered has ended the message as it was meant to end |
| `HttpReceiving.ReceptionCompletes` | talk/base/httpbase.cc:591-597 | so do repeated calls, and when the network delivers whatever there is they come to that end, or to a line too long for the buffer |
| `HttpReceiving.CleanCloseIsComplete` | talk/base/httpbase.cc:231-234 | what a success leaves short in a message that lasts until the close is exactly what was still in the buffer or undelivered |
| `HttpReceiving.CloseLosesDataIff` | talk/base/httpbase.cc:520-583 | told before the call: a call that reports success on a clean end leaves the document short if and only if it begins in the data of a message that lasts until the close, with something in the buffer, and its first read sees the end |
| `HttpReceiving.StarvedClosesEmpty` | talk/base/httpbase.cc:520-583 | once the parser has used up the buffer, a call that sees a clean end leaves nothing in it |
| `HttpReceiving.WillingGetsAll` | talk/base/httpbase.cc:510-597 | over any number of calls a willing document has all of a message that lasts until the close when success is reported, unless the network failed without an error code |
| `HttpReceiving.TurnsTellRight` | talk/base/httpbase.cc:488-559 | what one call reports: a failure of the network by its code (13 HE_AUTH, -2146893016 HE_CERTIFICATE_EXPIRED, any other but 0 HE_SOCKET_ERROR), a clean end as success in the data of a message that lasts until the close and as HE_DISCONNECTED elsewhere, a document that broke as HE_STREAM, a line too long as HE_OVERFLOW, and nothing while it goes on |
| `HttpReceiving.CallsTellRight` | talk/base/httpbase.cc:488-597 | so do any number of calls; success is reported only because the message ended, or where it may end and the network closed without an error |
| `HttpReceiving.FailureIsReported` | talk/base/httpbase.cc:546-552 | a failure of the network that comes next is what a call with room in its buffer returns |
| `HttpReceiving.TurnsFit` | talk/base/httpbase.cc:553-559 | if nothing parsing ever waits for is as long as the buffer, a call never finds a line too long, and leaves it so |
| `HttpReceiving.NoLineTooLong` | talk/base/httpbase.cc:553-559 | nor do any number of calls |
| `HttpReceiving.SuccessMeansEnded` | talk/base/httpbase.cc:491-499 | when the text ends the message, success is reported only because the parser ended it |
| `HttpReceiving.ReceiveAll` | talk/base/httpbase.cc:591-597 | exactly what so many calls of the pump give |
| `HttpSending.Document.Read` | talk/base/httpbase.cc:642-644 | the document hands out some of what remains, has nothing yet, ends when nothing remains, or fails |
| `HttpRoundTrip.CodingsAgreeIff` | talk/base/httpbase.cc:433-437 | sender and parser agree on the coding if and only if the first value being exactly "chunked" and the last one sent being "chunked" in any letters go together |
| `HttpRoundTrip.SingleCodingAgreesIff` | talk/base/httpbase.cc:175-179 | with one Transfer-Encoding header: if and only if it is "chunked" in exactly these letters or in none |
| `HttpRoundTrip.EffectsFollowLastCoding` | talk/base/httpbase.cc:175-184 | the parser goes by the last Transfer-Encoding value, in any letters |
| `HttpRoundTrip.NothingIsInvented` | talk/base/httpbase.cc:79-142 | parsing hands on no more characters than it consumes, and fewer when it gets past a line it starts at |
| `HttpRoundTrip.MessageArrivesIff` | talk/base/httpbase.cc:433-437 | a complete message arrives in full if and only if the sender wrote chunks just when the receiver reads them and, without chunks, its document has the size the receiver expects, if it expects one |
| `HttpRoundTrip.UpperCaseCodingLosesDocument` | talk/base/httpbase.cc:433-437 | with the coding written CHUNKED a document that looks like a last chunk is received as empty, with success |
| `HttpRoundTrip.MessageMeansText` | talk/base/httpbase.cc:414-449 | the text of a finished message means its leader, headers and document, in all three codings |
| `HttpRoundTrip.ParseSkips` | talk/base/httpbase.cc:79-142 | where the reference meaning gets through a text without data, so does a call of the parser, whatever its document |
| `HttpRoundTrip.StallIsHeldUp` | talk/base/httpbase.cc:186-190 | an owner that stalls at the end of the headers holds the message up there, with nothing behind them touched |
| `Base64Laws.LaxSuccessIff` | talk/base/base64.cc:203-257 | with DO_PARSE_ANY decoding succeeds if and only if no bits are left unused, demanded padding is there, and no half padding is left in a text that must be used up |
| `Base64Laws.LaxOctets` | talk/base/base64.cc:203-257 | with DO_PARSE_ANY the result is the octets of all the alphabet characters of the text |
| `Base64Laws.LaxRest` | talk/base/base64.cc:203-257 | and nothing is left unused but a single pad where two are needed, with what follows it |
| `Crc32.WiderBurstUnnoticedIff` | talk/base/crc32.cc:38-66 | for every start value, messages and position, a difference within 33 bits goes unnoticed if and only if it is the pattern of the polynomial |
| `DiskCacheLimit.LimitCanBeMetIff` | talk/base/diskcache.cc:239-263 | the limit check can succeed if and only if what is in use fits by itself |
| `DiskCacheLimit.StaleLockIff` | talk/base/diskcache.cc:114-126 | the limit check in LockResource can evict the entry being locked if and only if the cache is over its limit, the resource is not in use, and what is in use fits |
| `DiskCacheLimit.StaleLockIsReachable` | talk/base/diskcache.cc:114-126 | such a state is reached by two resources, one stored and one being written |
| `ByteOrder.HostToNetwork16` | talk/base/byteorder.h:153-157 | through memory: the integer whose image is the big-endian form |
| `ByteOrder.HostToNetwork32` | talk/base/byteorder.h:159-163 | through memory: the integer whose image is the big-endian form |
| `ByteOrder.HostToNetwork64` | talk/base/byteorder.h:165-169 | through memory: the integer whose image is the big-endian form |
| `Urls.HostKeepsAtIff` | talk/base/httpcommon-inl.h:61-78 | the parsed host keeps an @ if and only if, in the address, another @ follows the first with no colon between the two |
| `Urls.TwoAtSigns` | talk/base/httpcommon-inl.h:61-78 | such a text, and what printing and parsing it again gives |

## Left out

- DocumentStream: reading a received document by pulling (`talk/base/httpbase.cc`) is not modelled; the parser's `Stall` result is where it would take over.
- Header combination: received headers are kept as a list in order of arrival; `HttpData::changeHeader`, which merges and sorts them, is not part of this model.
- The bytes after a line: `sscanf` and `strtoul` read past the end of a trimmed line; the model gives them the line alone. Texts are taken to contain no NUL character, at which `strchrn` would stop.
- HttpSending.Sender.FlushData: without a document and with a blocked network the original loop spins; the scripts of the streams are finite, arbitrary sequences, and the loop is shown to end for each.
- HttpRoundTrip.TransferCompletes: a message that lasts until the close is done when the network's script says so; only what has arrived by then is stated (`HttpRoundTrip.TransferIsFaithful`).
- HttpSending.SendsChunks: `hasHeader` finds some header of the name in a multimap; the model takes the first in the order they are sent.
- HttpTypes.StreamCloseError: models `HandleStreamClose` once connected, not while connecting.
- ignore_data_: a receiver without a document is one whose document takes everything.
- PacketFraming.AsyncTcpSocket.Send: where sizes from 65536 to 65538 bytes violate the assertion on the buffer it reports that and stops; what a build without assertions would do is not modelled, except that such a packet would not survive its 16-bit length (`PacketFraming.OnlyShortPacketsSurvive`).
- Listening sockets, `SendRaw` and socket options of `talk/base/asynctcpsocket.cc` only pass calls on.
- Weak memory: the queue's micro-steps are sequentially consistent; the barriers are not modelled. Counters and `size_t` are 32 bits wide.
- DiskCacheClass.DiskCache.CheckLimit: the victim is any entry, because the scan for the oldest can step past its candidate and past the end of the map; modification times are not modelled.
- DiskCacheLimit.LimitCanBeMetIff: for the same reason it says when some choice of victims succeeds.
- DiskCacheLimit.StaleLockIff: for the same reason it says when some choice of victims evicts the entry being locked.
- DiskCacheClass.DiskCache.WriteResource: like the original, it and the other calls that use a looked-up entry unchecked require the resource to exist.
- Purge and Initialize: `Purge` clears the map but not the total size; `InitializeEntries` belongs to subclasses. File names are taken to be different for different resources and streams. Size totals are unbounded integers.
- ByteBuffers.ByteBuffer.SetReadPosition: positions come from `GetReadPosition` of the same buffer, as their private constructor has it; the version counter does not wrap. `ReadString` is `ReadBytes`.
- ByteOrder: shifts and masks are written as division and remainder of bounded integers.
- HttpClients.HttpClient.Start: answering from the cache without connecting is not modelled; the URI forms and headers it sets do not bear on retries.
- HttpClients.HttpClient.OnHttpComplete: proxy authentication and the completion of a cache file are not modelled here; the latter is `HttpCaching.CompleteCacheFile`.
- HttpClients.ConnectionsAreBounded: proxy authentication rounds, which start again without using up a redirect, are not modelled.
- HttpClient cache freshness, validation and `HttpWriteCacheHeaders`' choice of headers depend on date parsing and header tables outside this model.
- Urls.Url: `get_attribute` and the narrow setters are not modelled.
- XmppSocket: reading, closing, TLS and the SSL stream build only pass calls on.
- Roster, signalling and user-interface code, logging, proxy detection, bandwidth smoothing and CPU sampling are glue or rest on system calls.
