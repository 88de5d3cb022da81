# TeamTalk server, modelled and proved

A model, in Dafny 4.11, of the hard parts of the TeamTalk C++ server, with proofs of what they keep.
`dafny verify dfyconfig.toml` checks all of it.

| Part | Files |
|---|---|
| The incremental HTTP parser | HttpTypes, HttpSwitch, HttpFeed, HttpSafety, HttpMarks, HttpParser, HttpSplit, HttpCut, HttpMethods, HttpHeaderNames, HttpLengths, HttpChunked, HttpValues, HttpLines, HttpBodies, HttpMessages, HttpVariants |
| The PDU channel | Octets, SimpleBuffer, Pdu, ImConn, PduChannel |
| File transfer | TransferHeader, OfflineTransfer, OfflineClients, OnlineTransfer |
| Login, user registry, online counters | Counting, UserRegistry, LoginCounter, OnlineCount |
| Monitors and queues | ConnPool, ProxyPipeline |
| JSON | JsonPrinter, JsonParser, JsonStream, JsonText, JsonRoundTrip, JsonWeight |
| Base64, AES envelope, MD5, tokens | Base64, Base64Text, Aes, Md5, Md5Vector, Token |
| Route master, acknowledgement list | RouteMaster, AckList |

Code that changes objects, buffers and containers is modelled by classes, arrays and loops; each such
method is proved against functions or invariants about which the lemmas speak. An invariant called
`Valid` is kept by every public method of its class, so it holds after every run of them, unless the
method's contract says by an if-and-only-if when it does not; where threads or servers interleave, each
method is one atomic step, and a run is any sequence of steps.

## How to read the models

- **HTTP.** `Switch` is one pass through the state switch, `Feed` the meaning of a run of bytes, one at
  a time, and `HttpParser.Execute` the call of the source with its marks, jumps, block-wise bodies and
  callbacks, proved equal to `Feed` and a rule on what a call reports (`Call`). A trace is compared byte
  by byte, so adjacent reports of one kind are merged and empty ones vanish. The callbacks return 0,
  except `on_headers_complete`, which may return anything and is a parameter. The strict build
  (`HTTP_PARSER_STRICT` is 1) is modelled. HttpLines to HttpMessages say, without the switch, what
  requests and responses as RFC 2616 writes them are reported as; HttpVariants what else is let through.
- **PDU.** A socket may take or give any part of what it is offered, or fail, at every call. What the
  network delivers is a prefix of what the sender's socket took.
- **Offline files.** A file is a sequence of bytes; the header is the 960 bytes of fixed-width C strings.
  Whether a file can be opened is a parameter. A reply to the request for a segment has at least that
  segment's size: the server writes the size it asked for, whatever came.
- **Online transfer.** Tasks and connections refer to each other as in the source, and what the server
  keeps comes in two parts. `Ordered` holds after every run of any clients: what the states of a task,
  also of a deleted one, say about its logins and its traffic. `Valid` says that slots, connections and
  the table fit; it lasts exactly as long as every accepted login keeps to `OneEach`: a connection has
  one task and one user, and a user of a task one connection at a time.
- **Registry.** The database gives one fixed id above 0 to a login name; live connections have different
  handles; `Close` runs once for a connection. `updates` is what is sent to the login servers, and
  `GetUserConnCnt` what a new one is told; `LoginCounter` has the login server and the FIFO links, and
  `OnlineCount` puts a registry and the links together.
- **Pools.** A condition variable wakes at least one sleeper per signal and may wake others for no
  reason; opening a connection may fail. `CDBPool` and `CachePool` are the same monitor.
- **AES.** The block cipher is any pair of functions of which the second undoes the first.
- **JSON.** Numbers are integers of magnitude below 10^19, which a `long double` prints and reads
  exactly; strings hold the bytes that come back (`ParseStringBack`); object keys are sorted and unique as in
  the `std::map` that holds them. A read past the end of the text is a result of its own (`Stuck`).

## Where the source does not do what is expected of it

- A failing HTTP call drops the data it has open, so a cut input may have reported more
  (`FailureDropsOpenRun`); `SplitInvariance` says by how much, `CutIsHarmless` after which cuts.
- `content_length` overflow is only partly detected (`OverflowMissed`), by the condition `Refused`; a
  value that fits is always read exactly.
- `base64_encode` of the empty string breaks its own assertion: `retval.size() - 2` wraps.
- A status line that ends in LF alone is not reported as complete (`StatusLineFeed`).
- The JSON printer writes control bytes in hexadecimal, and the parser reads them in decimal, so that
  0x0b and 0x0e to 0x1f do not come back (`ParseStringBack`).
- The JSON printer leaves out an empty member name, and the text no longer parses (`RoundTripExactly`).
- A connection may log in twice if the first name was empty (`EmptyNameTwice`).
- A pooled connection that is returned twice may be lent twice (`ReturnedTwice`).
- A second `MsgServInfo` on a link grows the total but not the table (`HandleMsgServInfo`).
- The route master is the oldest only as long as the clock does not go back (`OnConfirm`).
- Both `ChangePullState` methods answer true in a wrong state.
- A second login for one side of an online task, or on one connection, leaves connections with deleted
  tasks (`DeletedTaskHeld`); a transfer to oneself never starts.
- The first close of a client of an offline task deletes it once its upload has begun, whoever else has it
  (`DeletedUnderSender`).
- After an online task has ended no request or segment is passed on any more, but a notice may be
  (`NoticeAfterEnd`).
- An upload of an empty file never ends: a first segment of 32768 bytes is asked for, and no segment
  is the last one (`Upload`).
- After 2^32 - 1 connections of the proxy a response may reach the wrong one (`WrongDelivery`).

## Model

| member | source | states |
|---|---|---|
| `HttpSwitch.Switch` | server/src/base/http_parser.cpp:645-1835 | One pass through the state switch: a byte is only looked at again when a rank on the states has fallen (so `reexecute_byte` terminates), and `p` is never moved past the data |
| `HttpParserClass.HttpParser.Pass` | server/src/base/http_parser.cpp:645-1835 | A pass on the object: marks, moves, reports and notifies exactly as the outcome of the switch says, with every mark inside the data |
| `HttpParserClass.HttpParser.ReexecuteByte` | server/src/base/http_parser.cpp:644-1835 | All passes of one byte, or of one block of body bytes, have the effect of the bytes fed one at a time |
| `HttpParserClass.HttpParser.Execute` | server/src/base/http_parser.cpp:572-1863 | A whole call with its loop, jumps and marks equals the byte-at-a-time definition in fields, count and reported events; the count never exceeds the length; the invariant that excludes assertion failures is kept |
| `HttpParserClass.HttpParser.ExecuteEof` | server/src/base/http_parser.cpp:587-609 | The empty call: completes a message that runs to the end, is silent between messages, fails with count 1 elsewhere |
| `HttpParserClass.HttpParser.Flush` | server/src/base/http_parser.cpp:1836-1853 | The callbacks after the loop report exactly the one run that is still open |
| `HttpParserClass.EndOfCall` | server/src/base/http_parser.cpp:1846-1853 | At most one mark is left when the data runs out, so the assertion holds |
| `HttpParserClass.BlockInCall` | server/src/base/http_parser.cpp:630-1835 | Between two bytes the trace plus what the marks still owe is what the bytes so far have caused, whichever way the pass ends |
| `HttpMarks.CoherentSwitch` | server/src/base/http_parser.cpp:645-1835 | Marks, callbacks and next states fit together in every state outside the body |
| `HttpMarks.FeedSized` | server/src/base/http_parser.cpp:1662-1697 | Taking a block of a sized body at once does what taking it byte by byte does |
| `HttpMarks.FeedUntilEof` | server/src/base/http_parser.cpp:1699-1703 | The same for a body that runs to the end of the input |
| `HttpFeed.FeedConcat` | server/src/base/http_parser.cpp:630-1835 | Feeding a + b is feeding a, and then b from the state a left |
| `HttpSplit.FeedShift` | server/src/base/http_parser.cpp:630-1835 | What an earlier call already owes changes neither fields nor events of later bytes |
| `HttpSplit.CutOnce` | server/src/base/http_parser.cpp:572-1863 | One cut: same fields and count; the parts have reported the joined trace and exactly what the joined call loses more; the traces agree if and only if both lose the same |
| `HttpSplit.SplitInvariance` | server/src/base/http_parser.cpp:572-1863 | Cutting any input that does not upgrade into any non-empty pieces leaves the same fields and count; the traces agree if and only if joined call and pieces lose the same to an error, so always without one, and differ by exactly that else |
| `HttpCut.CutIsHarmless` | server/src/base/http_parser.cpp:607-628 | Known at the cut: whatever follows, cutting here changes no trace if and only if no run of data is open, or it is that of a body without chunks |
| `HttpCut.LastCutIsHarmless` | server/src/base/http_parser.cpp:607-628 | The same after any number of pieces that have not failed |
| `HttpCut.OpenFeed` | server/src/base/http_parser.cpp:1836-1853 | Data is owed to a callback only in the states in which a mark can be set |
| `HttpCut.FailureDropsOpenRun` | server/src/base/http_parser.cpp:996-1067 | From an initialised parser: of a request line that fails inside the URL, the cut input has reported the URL so far, the joined input nothing of it |
| `HttpSplit.CallsAreSafe` | server/src/base/http_parser.cpp:572-1863 | No input over any number of calls breaks an assertion or leaves a table, matcher or method name |
| `HttpSafety.SafeSwitch` | server/src/base/http_parser.cpp:645-1835 | Every pass keeps indices, counters and flags in their ranges and never reaches a failed assertion |
| `HttpSafety.SafeFeed` | server/src/base/http_parser.cpp:630-1863 | Every run of bytes from a safe state ends safe or with an error code, never in a failed assertion |
| `HttpSafety.SafeInit` | server/src/base/http_parser.cpp:1916-1925 | A freshly initialised parser is safe |
| `HttpMethods.TrackIsPrefix` | server/src/base/http_parser.cpp:872-994 | The letters consumed are a prefix of the name of the current candidate |
| `HttpMethods.TrackIsExact` | server/src/base/http_parser.cpp:872-994 | The automaton ends on a method with all its letters consumed if and only if the word is that name |
| `HttpMethods.MethodIsExact` | server/src/base/http_parser.cpp:872-994 | A word and a space are accepted if and only if the word is one of the 26 names, and the method stored is that one |
| `HttpMethods.MethodIsExactForBoth` | server/src/base/http_parser.cpp:657-692 | The same for a parser of either kind of message, where an H may also begin a status line |
| `HttpHeaderNames.FollowsStep` | server/src/base/http_parser.cpp:1241-1369 | What header_state and index say about the lower-cased name so far is kept by every token character |
| `HttpHeaderNames.NameIsExact` | server/src/base/http_parser.cpp:1191-1369 | After a field name the header state is connection, content-length, transfer-encoding or upgrade exactly when the case-folded name is one of the five known names; the name is reported as it came |
| `HttpLengths.AccumulateIsExact` | server/src/base/http_parser.cpp:1464-1487 | One more digit is added exactly if and only if the value stays below 2^64-1; else it is refused if and only if it wraps to less than the value before or to 2^64-1 |
| `HttpLengths.OverflowMissed` | server/src/base/http_parser.cpp:1476-1483 | From an initialised parser: a request whose Content-Length has 20 digits, for which the parser goes on with another number |
| `HttpLengths.LengthIsRead` | server/src/base/http_parser.cpp:1410-1487 | A Content-Length is read digit by digit as the fold of that step says, and refused when it is |
| `HttpLengths.ContentLengthIsExact` | server/src/base/http_parser.cpp:1410-1487 | A decimal Content-Length of any number of digits is accepted and read exactly if and only if its value is below 2^64-1; the first value beyond is refused or taken for its remainder, by a condition on the value |
| `HttpLengths.ChunkSizeIsExact` | server/src/base/http_parser.cpp:1710-1760 | The same for hexadecimal chunk sizes, exactness and first overflow |
| `HttpChunked.FeedChunk` | server/src/base/http_parser.cpp:1710-1826 | An encoded chunk, with any extension, delivers its data and returns to the state before it |
| `HttpChunked.ChunkedRoundTrip` | server/src/base/http_parser.cpp:1710-1826 | The chunked encoding of any list of non-empty pieces (section 3.6.1 of RFC 2616) delivers exactly their concatenation and one message-complete, and leaves the parser ready for what its header lines allow |
| `HttpLines.PathIsExact` | server/src/base/http_parser.cpp:425-570 | Bytes behind a method are taken for a path, query and fragment if and only if they are visible and begin with a slash or an asterisk; then they are reported as they came |
| `HttpLines.TargetIsRead` | server/src/base/http_parser.cpp:996-1067 | A path, an absolute URL, or the authority of CONNECT is reported as it came |
| `HttpLines.RequestLineIsRead` | server/src/base/http_parser.cpp:872-1189 | A request line with any of the 26 methods, any such target and any version up to 999.999: the begin and the target are reported, and method and version are the numbers and the name in the text |
| `HttpLines.StatusLineIsRead` | server/src/base/http_parser.cpp:694-870 | The same for a status line: version, code, any reason |
| `HttpValues.LineIsRead` | server/src/base/http_parser.cpp:1191-1568 | A header line: name and value are reported as they came; it sets chunked, keep-alive, close, upgrade or the length exactly when name and value are, letter case aside, what RFC 2616 calls for, and the length is the number in the text |
| `HttpBodies.LinesAreRead` | server/src/base/http_parser.cpp:1191-1568 | Any number of header lines, one after the other |
| `HttpBodies.CallbackDecides` | server/src/base/http_parser.cpp:1570-1660 | An answer of 1 of `on_headers_complete` skips the body, any other than 0 and 1 is an error |
| `HttpBodies.UpgradeStops` | server/src/base/http_parser.cpp:1619-1631 | An upgrade, or CONNECT, completes the message and ends the call behind the blank line |
| `HttpBodies.SizedBodyIsRead` | server/src/base/http_parser.cpp:1570-1708 | From the blank line on: a body of the length told is reported byte for byte between headers-complete and message-complete |
| `HttpBodies.NoBodyIsRead` | server/src/base/http_parser.cpp:1570-1660 | With length 0, or none where none is needed, the message is complete at the blank line |
| `HttpBodies.ChunkedBodyIsRead` | server/src/base/http_parser.cpp:1570-1826 | With chunks the body is the concatenation of the pieces, whatever length is told beside them |
| `HttpBodies.EndlessBodyIsRead` | server/src/base/http_parser.cpp:1570-1703 | Any other response has all bytes that follow for its body, and is complete when the connection ends |
| `HttpMessages.RequestIsRead` | server/src/base/http_parser.cpp:572-1863 | Any request of line, headers and body (none, sized or chunked), without upgrade: the events are begin, target, headers, headers-complete, body, message-complete; then the next request may come, or nothing, as version and Connection say |
| `HttpMessages.RequestsAreRead` | server/src/base/http_parser.cpp:1705-1708 | So for any number of requests, one behind the other on one connection |
| `HttpMessages.ResponseIsRead` | server/src/base/http_parser.cpp:572-1863 | The same for any response whose end is told |
| `HttpMessages.EndlessResponseIsRead` | server/src/base/http_parser.cpp:587-597 | And for one that lasts until the connection ends |
| `HttpMessages.HelloIsRead` | server/src/base/http_parser.cpp:645-1708 | An example byte by byte, from an initialised parser: a POST with five bytes of body |
| `HttpVariants.BreaksBefore` | server/src/base/http_parser.cpp:694-715 | Line breaks in front of a message are passed over, but a parser of responses reports the begin of a message at each |
| `HttpVariants.NothingFollows` | server/src/base/http_parser.cpp:647-655 | Behind the last message of a connection any bytes but line breaks are an error, and nothing is reported |
| `HttpVariants.ShortLineIsRead` | server/src/base/http_parser.cpp:1049-1061 | A request line without a version is one of HTTP/0.9 |
| `HttpVariants.ContinuationIsRead` | server/src/base/http_parser.cpp:1558-1568 | A line that begins with a blank is reported as more of the value before it |
| `HttpVariants.TrailerIsRead` | server/src/base/http_parser.cpp:1774-1788 | Header lines behind the last chunk are reported, complete the message with the blank line, and still decide whether another may follow |
| `HttpVariants.ValueLineFeed` | server/src/base/http_parser.cpp:1452-1460 | A line break of LF alone ends a header line as CR LF does |
| `HttpVariants.StatusLineFeed` | server/src/base/http_parser.cpp:852-870 | It ends a status line too, but that line is then not reported as complete |
| `HttpVariants.OnlyLineFeed` | server/src/base/http_parser.cpp:1180-1189 | Behind a CR any byte but LF is an error |
| `HttpVariants.OtherLetter` | server/src/base/http_parser.cpp:1069-1101 | Where a letter of `HTTP/` is due any other byte is an error |
| `HttpVariants.TooLong` | server/src/base/http_parser.cpp:633-642 | So is any byte beyond 80 KiB outside the data of a body |
| `HttpVariants.ResponseForBoth` | server/src/base/http_parser.cpp:657-692 | A parser of either kind takes what begins with `HTTP/` for a response |
| `SimpleBuffers.SimpleBuffer.Extend` | server/src/base/UtilPdu.cpp:32-38 | Growing keeps the contents and makes room for the length asked for |
| `SimpleBuffers.SimpleBuffer.Write` | server/src/base/UtilPdu.cpp:40-55 | Writing appends |
| `SimpleBuffers.SimpleBuffer.Read` | server/src/base/UtilPdu.cpp:57-69 | Reading gives the first bytes, at most what is there, and shifts the rest down in place |
| `Octets.RoundTrip32` | server/src/base/UtilPdu.cpp:87-137 | 32-bit numbers are read back as written, from anywhere in a buffer |
| `Octets.BigEndian32` | server/src/base/UtilPdu.cpp:87-137 | They are written and read most significant byte first |
| `Pdus.WireFormat` | server/src/base/ImPduBase.cpp:45-118 | A header is the big-endian length in bytes 0 to 3 and six big-endian half-words from byte 4 on; 16 bytes decode to a header if and only if they are these numbers |
| `Pdus.HeaderRoundTrip` | server/src/base/ImPduBase.cpp:45-118 | A header is read back as written |
| `Pdus.SetterMeaning` | server/src/base/ImPduBase.cpp:58-98 | Overwriting two bytes of the buffer changes that header field and no other, and no byte of the body |
| `Pdus.ImPdu.WriteHeader` | server/src/base/ImPduBase.cpp:45-56 | The first 16 bytes become the header with the actual length, each number big-endian at its place; the body stays |
| `Pdus.ImPdu.Set` | server/src/base/ImPduBase.cpp:58-98 | The setters, on the buffer in place |
| `Pdus.ImPdu.SetPBMsg` | server/src/base/ImPduBase.cpp:159-175 | The PDU becomes header and message, the length big-endian in front, framed so that a receiver cuts it out exactly |
| `Pdus.ImPdu.ReadPduHeader` | server/src/base/ImPduBase.cpp:100-118 | Fills the header with the big-endian numbers of 16 bytes, and refuses fewer |
| `Pdus.ImPdu.ReadPdu` | server/src/base/ImPduBase.cpp:120-157 | Gives nothing, throws, or gives exactly the first PDU of the buffer |
| `Pdus.ParseConcat` | server/src/base/imconn.cpp:142-150 | Where the bytes are cut does not matter: parsing a + b is parsing a, then its rest with b |
| `Pdus.ParseStream` | server/src/base/imconn.cpp:142-150 | A stream of well-framed PDUs is cut back into exactly these |
| `Pdus.ParsePrefix` | server/src/base/imconn.cpp:142-150 | From any prefix of such a stream come the PDUs that are complete, in order and equal, and the beginning of the next |
| `ImConns.ImConn.Offer` | server/src/base/imconn.cpp:94-113 | The send loop: what the socket took is a prefix, and it stops short only when the socket refuses |
| `ImConns.ImConn.Send` | server/src/base/imconn.cpp:80-121 | Socket bytes followed by the out buffer are all that was sent, in order; busy exactly when the out buffer is not empty |
| `ImConns.ImConn.Flush` | server/src/base/imconn.cpp:172-185 | The write loop moves bytes from the out buffer to the socket without loss, repetition or reordering |
| `ImConns.ImConn.OnWrite` | server/src/base/imconn.cpp:166-191 | The same invariant over a write event; still busy only if the socket refused again |
| `ImConns.ImConn.Drain` | server/src/base/imconn.cpp:125-139 | All bytes received are appended to the in buffer, up to the first receive that gives nothing |
| `ImConns.ImConn.Dispatch` | server/src/base/imconn.cpp:141-163 | Every complete PDU is handled, in order, the incomplete rest stays; closed exactly on a zero length |
| `ImConns.ImConn.OnRead` | server/src/base/imconn.cpp:123-164 | What has been handled and what is buffered is the parse of all bytes received, however they were fragmented |
| `PduChannel.EndToEnd` | server/src/base/imconn.cpp:80-191 | For any PDUs, partial sends and read fragments: the receiver has handled a prefix of the PDUs sent, equal in header and body, exactly those complete in what it received; all of them once everything has arrived |
| `PduChannel.Channel.SendPdu` | server/src/base/imconn.h:30-30 | Sending over the composed channel keeps the end-to-end invariant |
| `PduChannel.Channel.OnRead` | server/src/base/imconn.cpp:123-164 | So does reading |
| `PduChannel.Channel.NeverCloses` | server/src/base/imconn.cpp:152-163 | At every reachable state the receiver has not failed and has handled a prefix of what was sent |
| `Base64.Encode` | server/src/base/Base64.cpp:32-65 | Encodes by the groups of section 4 of RFC 4648 although the accumulator wraps at 32 bits; both assertions hold except for the empty input |
| `Base64.Decode` | server/src/base/Base64.cpp:67-91 | Decodes by groups, skips white space and padding, gives the empty string on a foreign byte |
| `Base64.JoinSplit` | server/src/base/Base64.cpp:32-91 | Regrouping bits in sixes and back gives the same bytes |
| `Base64.RoundTrip` | server/src/base/Base64.cpp:32-91 | Decoding undoes encoding |
| `Base64Text.EncodedAt` | server/src/base/Base64.cpp:19-65 | Every letter of the text is the letter of `ABC...xyz0123456789+/` at the number that six bits of the input make, most significant first, and padding beyond them |
| `Base64Text.DecodedAt` | server/src/base/Base64.cpp:21-91 | Every byte decoded is the number that eight bits of the letters' places in that alphabet make |
| `Base64Text.ForeignIsRefused` | server/src/base/Base64.cpp:80-82 | A text with any other byte, white space and padding aside, gives the empty string |
| `Base64Text.LongVector` | server/src/base/Base64.cpp:32-91 | An example of section 10 of RFC 4648, in both directions |
| `AesEnvelope.LengthFits` | server/src/base/EncDec.cpp:29-42 | The trailing length word never overlaps the message, and no block is needless |
| `AesEnvelope.PaddedIs` | server/src/base/EncDec.cpp:29-42 | What is enciphered is the message, zeros, and the length big-endian in the last four bytes |
| `AesEnvelope.Aes.Encrypt` | server/src/base/EncDec.cpp:24-58 | Pads, appends the length, enciphers block by block in place, encodes |
| `AesEnvelope.Aes.Decrypt` | server/src/base/EncDec.cpp:60-98 | The inverse, with the error code of each refusal |
| `AesEnvelope.OpenSeal` | server/src/base/EncDec.cpp:24-98 | What was sealed opens to the message, for every non-empty message and any invertible block cipher |
| `Md5Digest.RotatedStep` | server/src/base/TokenValidator.cpp:108-139 | One step with a, b, c, d rotated is one operation of section 3.4 of RFC 1321 with the registers named in turn |
| `Md5Digest.Prepare` | server/src/base/TokenValidator.cpp:70-92 | The padded buffer is that of sections 3.1 and 3.2 of RFC 1321, length modulo 2^64 included |
| `Md5Digest.Chunk` | server/src/base/TokenValidator.cpp:96-147 | The 64-step loop over one chunk is the four rounds |
| `Md5Digest.Md5` | server/src/base/TokenValidator.cpp:56-148 | The digest of every input is that of the functional definition |
| `Md5Vector.DigestOfAbc` | server/src/base/TokenValidator.cpp:25-53 | The digest of "abc" in appendix A.5 of RFC 1321, which fixes constants, shifts and byte order |
| `Tokens.GenToken` | server/src/base/TokenValidator.cpp:153-195 | Print, reverse and swap in place give the hexadecimal of the digest bytes in reverse order |
| `Tokens.HexIs` | server/src/base/TokenValidator.cpp:173-177 | A byte is printed as two lower-case hexadecimal digits, the high half first |
| `Tokens.TokenIsInjective` | server/src/base/TokenValidator.cpp:173-192 | So two digests with the same token are equal |
| `TransferHeader.HeaderRoundTrip` | server/src/file_server/transfer_task.h:38-125 | The loader reads back the ids and the size that the header setters wrote |
| `TransferHeader.Layout` | server/src/file_server/transfer_task.h:38-125 | The six fields stand at their offsets of the 960 bytes, as decimal text and zeros |
| `OfflineTransfer.Tiling` | server/src/file_server/transfer_task.h:289-309 | The segments are non-empty, tile the file, and are as many as the rounded-up quotient |
| `OfflineTransfer.OfflineTransferTask.ChangePullState` | server/src/file_server/transfer_task.cpp:297-354 | Which role moves which state where; a wrong state changes nothing and is still answered with true |
| `OfflineTransfer.OfflineTransferTask.DoRecvData` | server/src/file_server/transfer_task.cpp:377-455 | A segment is taken exactly from the sender, in order, while uploading, and is appended to the file behind the header; 1 on the last |
| `OfflineTransfer.OfflineTransferTask.DoPullFileRequest` | server/src/file_server/transfer_task.cpp:457-617 | A request is served exactly in order, with the bytes of its segment; 1 on the last |
| `OfflineTransfer.OfflineTransferTask.ConnClosed` | server/src/file_server/file_client_conn.cpp:70-110 | What a close makes of the task, and whether it is deleted |
| `OfflineTransfer.OfflineTransferTask.LoadableIffUploaded` | server/src/file_server/transfer_task.cpp:261-290 | The loader accepts a task's file if and only if its upload has finished |
| `OfflineTransfer.LoadFromDisk` | server/src/file_server/transfer_task.cpp:261-290 | Loads exactly the files whose header fits their size |
| `OfflineTransfer.Upload` | server/src/file_server/file_client_conn.cpp:482-573 | Whatever replies come, in any order and from anybody, those taken are stored in order, each segment being bytes of a reply of the sender at its offset, from successive replies; 1 exactly once, after exactly the rounded-up number of segments; the upload of an empty file takes whole segments and never ends |
| `OfflineTransfer.Download` | server/src/file_server/file_client_conn.cpp:400-480 | Whatever requests come, the answers are the segments of the file from its start; 1 exactly on the last |
| `OfflineTransfer.ThereAndBack` | server/src/file_server/transfer_task_manager.cpp:75-110 | Upload, close, reload and download: it loads if and only if the file is not empty and all of it was uploaded, and gives back the bytes of the sender's replies, segment by segment |
| `OfflineClients.FileServer.Login` | server/src/file_server/file_client_conn.cpp:223-300 | A task of the table, or for a download one from disk, its file and all, goes to the client if user and role fit, whatever the state; else the connection closes |
| `OfflineClients.FileServer.HandlePullRsp` | server/src/file_server/file_client_conn.cpp:493-573 | The segment's bytes are appended to the task's file exactly if it is taken; the connection stays exactly if it is and is not the last; if not, nobody is left with a deleted task if and only if the upload had not begun or nobody else has the task |
| `OfflineClients.FileServer.HandlePullReq` | server/src/file_server/file_client_conn.cpp:412-491 | The answer is the segment's bytes of the file, the last one too, for the receiver of the task only; when the connection closes, who is left with a deleted task as there |
| `OfflineClients.FileServer.Close` | server/src/file_server/file_client_conn.cpp:70-110 | The task is deleted exactly if its upload has begun; nobody is left with a deleted task if and only if that is not so or nobody else has it |
| `OfflineClients.FileServer.Handle` | server/src/file_server/file_client_conn.cpp:200-221 | Over any event of a client, tasks and their files stay sound, and a deleted task is held by nobody if and only if the event did not close a connection whose task somebody else has |
| `OfflineClients.DeletedUnderSender` | server/src/file_server/transfer_task_manager.cpp:88-114 | A run in which it is held: the receiver logs in during the upload and hangs up |
| `OfflineClients.ThereAndBack` | server/src/file_server/file_client_conn.cpp:223-573 | Over the server's events: login, replies, hang-up, login of the receiver, its requests; what it gets is a beginning of what was taken of the sender, and all of it once it has asked often enough |
| `OfflineClients.FileCrosses` | server/src/file_server/file_client_conn.cpp:223-573 | So every file of 1 to 2^31-1 bytes, sent segment by segment, arrives byte for byte |
| `OnlineTransfer.OnlineTransferTask.ChangePullState` | server/src/file_server/transfer_task.cpp:126-183 | Each checked login in each state; a wrong state changes nothing and is still answered with true |
| `OnlineTransfer.OnlineTransferTask.Drive` | server/src/file_server/transfer_task.cpp:126-258 | Whatever a task is told by whatever connections: active only after a login of each side, and ended for good |
| `OnlineTransfer.OnlineTransferTask.DoRecvData` | server/src/file_server/transfer_task.cpp:206-235 | Accepted exactly from the sender and only once both sides are in |
| `OnlineTransfer.OnlineTransferTask.DoPullFileRequest` | server/src/file_server/transfer_task.cpp:237-258 | Accepted exactly once both sides are in |
| `OnlineTransfer.FileServer.HandleLogin` | server/src/file_server/file_client_conn.cpp:223-313 | Accepted exactly for the right user in the right role; which state follows; the receiver hears that its peer is ready, and without a receiver the login is closed; the table stays sound if and only if the login was refused, or the client had no other task and its side no other connection |
| `OnlineTransfer.FileServer.HandlePullReq` | server/src/file_server/file_client_conn.cpp:410-480 | The receiver's request reaches the sender, and nobody else, exactly while the task is active; anything else ends the task |
| `OnlineTransfer.FileServer.HandlePullRsp` | server/src/file_server/file_client_conn.cpp:482-573 | The sender's data reaches the receiver, and nobody else, exactly while the task is active; anything else ends the task |
| `OnlineTransfer.FileServer.HandleState` | server/src/file_server/file_client_conn.cpp:315-381 | A notice reaches somebody if and only if it is of the own task and user, a known one, and there is another side, for an ended task one that somebody has come back to; then the connection closes and the task ends |
| `OnlineTransfer.FileServer.Close` | server/src/file_server/file_client_conn.cpp:70-132 | Either side's close ends the task for good; it is deleted exactly when both sides are gone; a sound table stays sound |
| `OnlineTransfer.FileServer.OnTimer` | server/src/file_server/file_client_conn.cpp:180-195 | The other connection of an ended task is closed |
| `OnlineTransfer.FileServer.Run` | server/src/file_server/file_client_conn.cpp:196-222 | Over all runs of clients connecting, logging in, sending anything and leaving: every task keeps its order, one that has ended stays ended and passes nothing on, a transfer to oneself never starts, and the table is sound as long as no login was bad |
| `OnlineTransfer.Safety` | server/src/file_server/transfer_task.cpp:126-258 | After any run at all: active only after a login of the sender by from_user and one of the receiver by to_user, another user, in either order; every request and segment ever passed on came from the right side after both |
| `OnlineTransfer.Seats` | server/src/file_server/transfer_task.h:132-160 | While no login was bad: an active task has both connections, open and of the right users, and no connection holds a deleted task |
| `OnlineTransfer.DeletedTaskHeld` | server/src/file_server/file_client_conn.cpp:70-110 | A run with a bad login: the sender logs in on two connections, the second closes, and the first holds a deleted task |
| `OnlineTransfer.NoticeAfterEnd` | server/src/file_server/file_client_conn.cpp:340-355 | Not true of notices: a run in which the sender comes back after the end and hears the receiver's notice |
| `UserRegistry.ImUserManager.HandleLoginRequest` | server/src/msg_server/MsgConn.cpp:395-469 | A second request is refused, one without servers is closed; otherwise the connection waits under its name, and everybody else waits and is open as before; the registry stays sound if and only if the request was refused, turned away, or made by a connection that is not open and does not wait under the empty name to ask again |
| `UserRegistry.EmptyNameTwice` | server/src/msg_server/MsgConn.cpp:397-401 | A run that breaks the registry: two requests on one connection, the first with an empty name |
| `UserRegistry.BothLoggedIn` | server/src/msg_server/DBServConn.cpp:285-396 | A run in which two connections wait under one name and both are let in |
| `UserRegistry.ImUserManager.HandleValidateResponse` | server/src/msg_server/DBServConn.cpp:285-396 | Exactly the waiting connection with the handle is opened or closed; everybody else is as before and goes on waiting, but for those under an alias that is dropped; aliases of one id share one user object; the registry invariant is kept |
| `UserRegistry.ImUserManager.Close` | server/src/msg_server/MsgConn.cpp:175-204 | The connection leaves its user, and the user goes with its last connection; everybody else stays; exactly one decrement is reported for an open one |
| `UserRegistry.ImUserManager.ClosedIsNowhere` | server/src/msg_server/MsgConn.cpp:175-204 | A closed connection is in no connection map and in no pending set |
| `UserRegistry.ImUserManager.OpenIsFoundOnce` | server/src/msg_server/ImUser.cpp:220-238 | An open connection is found under exactly one user id and one handle |
| `UserRegistry.ImUserManager.Choose` | server/src/msg_server/DBServConn.cpp:312-330 | The user object that a validated connection goes to, and the end of an alias without connections |
| `UserRegistry.ImUserManager.GetUnValidateMsgConn` | server/src/msg_server/ImUser.cpp:32-43 | Finds a waiting connection with the handle if there is one |
| `UserRegistry.ImUserManager.GetUserConn` | server/src/msg_server/ImUser.cpp:62-75 | Counts the open connections of a user |
| `UserRegistry.ImUserManager.GetUserConnCnt` | server/src/msg_server/ImUser.cpp:318-332 | The snapshot for a new login server is the number of open connections, and is what all updates sent before add up to |
| `LoginCounter.LoginServer.HandleMsgServInfo` | server/src/login_server/LoginConn.cpp:142-162 | Registers a link once; the total stays the sum of the counters if and only if the link is new or brings nobody |
| `LoginCounter.LoginServer.HandleUserCntUpdate` | server/src/login_server/LoginConn.cpp:164-184 | Moves counter and total together, modulo 2^32 |
| `LoginCounter.LoginServer.Close` | server/src/login_server/LoginConn.cpp:53-76 | The close of a link to a msg_server takes its counter out of the total; that of a client changes nothing |
| `LoginCounter.LoginServer.HandleMsgServRequest` | server/src/login_server/LoginConn.cpp:186-249 | The choice has room and the fewest users, the smallest handle among equals; nobody and all-full exactly when so |
| `LoginCounter.Replication.Confirm` | server/src/msg_server/LoginServConn.cpp:123-148 | A new link starts with a snapshot of the current count |
| `LoginCounter.Replication.Change` | server/src/msg_server/LoginServConn.cpp:77-88 | A change is queued on every open link, and counter plus queue still make up the count |
| `LoginCounter.Replication.Deliver` | server/src/login_server/LoginConn.cpp:142-184 | Delivering the oldest message keeps this, and the login_server has handled exactly that message |
| `LoginCounter.Replication.Agreement` | server/src/login_server/LoginConn.cpp:142-184 | At any time counter plus messages under way is the count, no beginning of the queue takes the counter below zero, and the global total is the sum |
| `OnlineCount.MsgServer.Confirm` | server/src/msg_server/LoginServConn.cpp:123-148 | The snapshot of a new link is the number of connections open in the registry |
| `OnlineCount.MsgServer.HandleLoginRequest` | server/src/msg_server/MsgConn.cpp:395-469 | Whatever a login request does to the registry, every open link hears of it; registry and links stay sound if and only if the request is refused, turned away or allowed, and the counts stay right in any case |
| `OnlineCount.MsgServer.HandleValidateResponse` | server/src/msg_server/DBServConn.cpp:285-396 | So it is for an answer of the database |
| `OnlineCount.MsgServer.Close` | server/src/msg_server/MsgConn.cpp:121-204 | And for the close of a connection |
| `OnlineCount.MsgServer.Deliver` | server/src/login_server/LoginConn.cpp:142-184 | And for a message that arrives |
| `OnlineCount.MsgServer.Agreement` | server/src/login_server/LoginConn.cpp:142-184 | On every open link the login_server's counter and the updates under way make up the number of connections that are open in the msg_server's registry; the counter is the net of all updates sent before |
| `ConnPools.Pool.Init` | server/src/db_proxy_server/DBPool.cpp:321-336 | Opens two connections, all free, or fails |
| `ConnPools.Pool.Attempt` | server/src/db_proxy_server/DBPool.cpp:342-371 | Under the lock: the front connection, a new one, a wait exactly when nothing is free and the limit is reached, or a failure |
| `ConnPools.Pool.GetConn` | server/src/db_proxy_server/CachePool.cpp:601-630 | The call up to its return or first wait: the connection handed out is the front one or a new one, a wait or failure has its reason, and the monitor invariant is kept |
| `ConnPools.Pool.Resume` | server/src/db_proxy_server/CachePool.cpp:601-630 | The same for a thread that wakes |
| `ConnPools.Pool.Listed` | server/src/db_proxy_server/DBPool.cpp:377-383 | The scan finds a connection on the free list exactly if it is there |
| `ConnPools.Pool.RelConn` | server/src/db_proxy_server/DBPool.cpp:373-390 | The connection is on the free list afterwards, once, and a sleeper is woken; the pool stays sound if and only if the thread holds the connection or it is free already |
| `ConnPools.ReturnedTwice` | server/src/db_proxy_server/DBPool.cpp:373-390 | A run in which it is neither: the second return of a connection that another thread has taken since puts it at the front of the free list, to be lent twice |
| `ConnPools.Pool.SleepersHaveReason` | server/src/db_proxy_server/DBPool.cpp:342-390 | No wakeup is lost: a thread sleeps with nobody on the way only if every connection up to the limit is lent |
| `ProxyPipeline.UuidRepeats` | server/src/db_proxy_server/ProxyConn.cpp:103-111 | Two connections share a uuid if and only if a multiple of 2^32-1 lies between them |
| `ProxyPipeline.ProxyServer.Connect` | server/src/db_proxy_server/ProxyConn.cpp:103-143 | The next uuid, never 0, registered without replacing |
| `ProxyPipeline.ProxyServer.Close` | server/src/db_proxy_server/ProxyConn.cpp:118-128 | The uuid is taken out |
| `ProxyPipeline.ProxyServer.HandlePdu` | server/src/db_proxy_server/ProxyConn.cpp:199-221 | A request with a handler is queued for one worker under the connection's uuid |
| `ProxyPipeline.ProxyServer.StartTask` | server/src/base/ThreadPool.cpp:37-66 | Tasks of a worker start once each, in the order they were queued |
| `ProxyPipeline.ProxyServer.AddResponse` | server/src/db_proxy_server/ProxyConn.cpp:223-232 | A response carries the uuid of the request that is running |
| `ProxyPipeline.ProxyServer.SendResponse` | server/src/db_proxy_server/ProxyConn.cpp:234-260 | The front response is consumed exactly once, in queue order, also when more are queued meanwhile; only the connection under its uuid is touched |
| `ProxyPipeline.ProxyServer.NoCrossTalk` | server/src/db_proxy_server/ProxyConn.cpp:199-260 | Whatever was sent on a connection answers a request of one with the same uuid: a multiple of 2^32-1 connections lies between, so up to that many it answers one of its own |
| `ProxyPipeline.WrongDelivery` | server/src/db_proxy_server/ProxyConn.cpp:103-111 | The bound is exact: a run of 2^32 connections in which the last is sent the answer to the first |
| `JsonTexts.JsonTextShape` | server/src/msg_server/jsonxx.cpp:460-550 | The printed text, with its last comma removed, has the shape of the tree |
| `JsonTexts.ParseStringUndoes` | server/src/msg_server/jsonxx.cpp:76-142 | Reading undoes escaping, for every string of bytes that come back |
| `JsonTexts.ParseStringBack` | server/src/msg_server/jsonxx.cpp:76-142 | A printed string of any bytes is read back as itself if and only if it has no byte 0x0b or 0x0e to 0x1f: these are printed in hexadecimal and read in decimal |
| `JsonTexts.EscapeStands` | server/src/msg_server/jsonxx.cpp:460-492 | A byte is printed as itself or as its escape of section 2.5 of RFC 4627 |
| `JsonTexts.TextExample` | server/src/msg_server/jsonxx.cpp:506-550 | A text character by character |
| `JsonStream.InputStream.Match` | server/src/msg_server/jsonxx.cpp:54-74 | The stream matcher is the functional one, white space and position after failure included |
| `JsonStream.InputStream.ParseString` | server/src/msg_server/jsonxx.cpp:76-142 | The stream reader of strings is the functional one |
| `JsonStream.InputStream.ParseArray` | server/src/msg_server/jsonxx.cpp:331-351 | The stream parser of arrays, a loop, is the recursive definition |
| `JsonStream.InputStream.ParseObject` | server/src/msg_server/jsonxx.cpp:230-266 | The stream parser of objects, a loop filling a sorted map, is the recursive definition |
| `JsonStream.InputStream.ParseValue` | server/src/msg_server/jsonxx.cpp:285-323 | The stream parser of values tries the alternatives in the source's order |
| `JsonStream.ParseText` | server/src/msg_server/jsonxx.cpp:972-976 | Parsing a text with the stream parser is the functional parse |
| `JsonPrinter.InsertLast` | server/src/msg_server/jsonxx.cpp:230-266 | Members that come sorted are inserted at the end |
| `JsonPrinter.InsertMembers` | server/src/msg_server/jsonxx.cpp:230-266 | In any order: the members stay sorted, the key has the new value, and every other member stays |
| `JsonRoundTrip.ParseUndoesPrint` | server/src/msg_server/jsonxx.cpp:778-789 | Parsing the printed text gives back the same tree, for every tree of null, booleans, bounded integers, arrays, objects and strings that come back (`ParseStringBack`) whose members have names |
| `JsonWeight.RoundTripExactly` | server/src/msg_server/jsonxx.cpp:460-550 | It does so if and only if no member anywhere has the empty name, which the printer leaves out |
| `JsonWeight.EmptyNameLost` | server/src/msg_server/jsonxx.cpp:460-550 | A text with such a member never parses back to its tree |
| `RouteMaster.RouteServers.Update` | server/src/msg_server/RouteServConn.cpp:97-124 | The scan finds the open connection with the smallest connect time, or none |
| `RouteMaster.RouteServers.OnConfirm` | server/src/msg_server/RouteServConn.cpp:166-193 | The master is still the oldest if and only if the clock has not gone back behind it |
| `RouteMaster.RouteServers.Close` | server/src/msg_server/RouteServConn.cpp:149-164 | After a close the master is null exactly when nothing is open, and else the oldest |
| `AckList.NoneExpired` | server/src/msg_server/MsgConn.cpp:255-267 | In a sorted list, if the first entry has not expired, none has |
| `AckList.SendList.AddToSendList` | server/src/msg_server/MsgConn.cpp:917-927 | Adding keeps the list sorted by time |
| `AckList.SendList.DelFromSendList` | server/src/msg_server/MsgConn.cpp:929-939 | An acknowledgement takes out the first entry it fits |
| `AckList.SendList.Expire` | server/src/msg_server/MsgConn.cpp:255-267 | The loop that stops early equals filtering the whole list; added stays pending plus missed plus acknowledged plus dropped |

## Left out

- OfflineTransfer.Upload: says nothing of files of 2^31 bytes and more, beyond which the source's `int` offsets overflow, as they do after 65536 segments of an empty file.
- OfflineTransfer.Tiling: files of 2^31 bytes and more, as there; an empty file has no segments (`EmptyHasNoEnd`).
- OfflineTransfer.ThereAndBack: files of 2^31 bytes and more, as there.
- OfflineTransfer.OfflineTransferTask.DoRecvData: `data` stands for the memory at the reply; of a reply shorter than the segment the source stores what lies behind it.
- OfflineTransfer.LoadFromDisk: the header's numbers are read as runs of digits; signs and leading blanks, which the server never writes, are not read, and the file name, always written empty, is not kept.
- OfflineClients.FileServer.Handle: only clients whose own task has not been deleted; notices between the clients of an offline task are as in OnlineTransfer.
- OfflineClients.FileServer.HandlePullRsp: replies shorter than their segment, as for DoRecvData.
- OnlineTransfer.FileServer.Run: a run goes on after a bad login as if deleted tasks and closed connections were still there; what the source does with freed memory is not modelled.
- AesEnvelope.Aes.Encrypt: messages of 2^31 bytes and more, where buffer sizes overflow.
- AesEnvelope.Aes.Decrypt: sizes of 2^31 bytes and more, as there.
- AesEnvelope.LengthFits: sizes of 2^31 bytes and more, as there.
- AesEnvelope.OpenSeal: sizes of 2^31 bytes and more, as there.
- ImConns.ImConn.Send: buffers of 2^31 bytes and more; the return value is that of the `int` cast below that.
- SimpleBuffers.SimpleBuffer.Extend: sizes of 2^31 bytes and more, as there.
- SimpleBuffers.SimpleBuffer.Write: sizes of 2^31 bytes and more, as there.
- Pdus.ImPdu.SetPBMsg: sizes of 2^31 bytes and more, as there.
- Pdus.ImPdu.ReadPdu: sizes of 2^31 bytes and more, as there.
- ImConns.ImConn.Drain: sizes of 2^31 bytes and more, as there.
- ImConns.ImConn.Dispatch: sizes of 2^31 bytes and more, as there.
- ImConns.ImConn.OnRead: sizes of 2^31 bytes and more, as there.
- PduChannel.Channel.SendPdu: sizes of 2^31 bytes and more, as there.
- PduChannel.Channel.OnRead: sizes of 2^31 bytes and more, as there.
- JsonRoundTrip.ParseUndoesPrint: reals, integers from 10^19 up, and strings with a byte that does not come back (`JsonTexts.ParseStringBack`).
- JsonWeight.RoundTripExactly: the same values.
- JsonWeight.EmptyNameLost: the same values.
- UserRegistry.ImUserManager.HandleValidateResponse: the kick of connections of the same client class, which only sets a flag and sends a notice.
- HttpParserClass.HttpParser.Execute: callbacks that return an error or pause the parser, except `on_headers_complete`.
- HttpValues.LineIsRead: a length with blanks behind or in its digits, which the source skips; continuations are in HttpVariants.ContinuationIsRead.
- HttpVariants.ContinuationIsRead: continuations of a value that meant something.
- `http_parser_parse_url` and `http_parse_host`: no server calls them.
- Bytes from 0x80 up as chunk digits: the table has entries for the lower half only and is 0 above, so they count as the digit 0; the model does this too, and no theorem speaks of it.
- Sockets, epoll and select, MySQL, redis, OpenSSL, protobuf, clocks, uuid generation: parameters, any results, or an abstract bijection.
- Logging, timers and reconnection, receive statistics, heartbeats, configuration files, server start-up.
- jsonxx's XML output and floating-point formatting; the state of an istream's flags after a read past the end.
- `idtourl` and `urltoid`, string splitting, `CByteStream`'s stream operators: easy.
- The task timeout: no task ever reaches the state that it looks for.
- The worker threads' sleep and wake-up; only what they take from their lists, and in which order, is modelled.
- Several login servers are several instances of `Replication`; a msg_server sends the same updates to each.
- Other states of a msg_server's user (nickname, status on other devices, broadcasts): plain forwarding.
