# SAIAI CLI: a verified model

This project models the parts of the SAIAI command-line client that are easiest to
get wrong and proves what they promise, in five areas:

1. **The HTTP/1.1 codec and relay of the local proxy.** Requests are read line by
   line off a connection (`HttpReader`), however their senders spell them
   (`MessageSyntax`), announce their bodies (`MessageFraming`, `FieldLists`) and ask for
   the end of the connection (`ConnectionEnd`), and only from bytes that say them
   (`ReaderSoundness`). Upstream bodies are re-encoded as chunks (`ResponseWriter`,
   `ChunkedCodec`) and read by a reference client (`ResponseFraming`). A connection
   serves one request after another (`KeepAlive`, and `MisreadRequests` for those it
   does not read back). A WebSocket upgrade rewrites the handshake
   (`WebSocketHandshake`, `HeaderRules`) and then relays frames both ways
   (`WebSocketRelay`). `ChunkedStream` is about decoding a body off a stream that
   goes on.
2. **Egress routing.** A backtracking wildcard matcher (`Glob`), address ranges
   (`Network`), bypass lists and how they are written (`Bypass`, `BypassEntries`), the
   compilation of mode, environment and system settings into a policy (`Policy`,
   `PolicySafety`, `PolicyModes`, `MacSettings`), the cache in front of Windows automatic
   configuration (`PacCache`) and the generation-stamped policy with its client per
   route (`ClientCache`).
3. **The device registry.** Record maps and their merge (`DeviceRecords`), several
   processes sharing one file (`DeviceRegistry`), enrollment (`Enrollment`) and the
   text that is signed (`ProofText`).
4. **The Codex daemon refresh.** Version comparison (`Versions`) and the decision
   whether a running daemon may be replaced (`DaemonRefresh`).
5. **The Linux release checker.** ELF structure over an arbitrary byte string
   (`ElfChecker`), the accepted files stated over raw bytes (`ElfBytes`), and what
   acceptance means once the file is loaded (`ElfMemory`).

`Text` holds what the others need of Rust's string library: splitting, Unicode white
space, UTF-8 validity, and printing and parsing of numbers with the widths and signs
the library accepts. `TextEncoding` relates its bytes to code points.

## How things are modelled

- Byte strings are `string`, one character for each byte. Rust strings are their UTF-8
  bytes, so white space is recognised by its encoded form, and reading a line fails on
  ill-formed UTF-8.
- Code that changes a stream, a map, a cache or a cursor step by step is a method,
  with a loop where the program has one, and is proved equal to a function of its
  inputs or of the old state. The properties are then lemmas about that function, so
  they hold of the method.
- Parsing of proxy URLs and IP literals, the HTTP library's rules for header names and
  values, and the gateway's answers are parameters: every theorem holds for all of
  them. SHA-256, ECDSA and base64 results are parameters too.
- A client that goes away is a sink with room for some number of bytes and of flushes.
  A failing lock, read, write or send is a boolean in the event that meets it. Clocks
  are numbers in the query that reads them.
- Concurrency is a sequence of atomic steps in any order: which side of a relay is
  served next, which process runs next, which request takes, resolves or finishes next.
  The steps are those the program makes atomic with a lock. Evaluations of automatic
  configuration hold one lock from the second look at the cache until the answer is
  stored, so a run is a sequence of whole queries.
- Error texts are values of an enumeration.

## Where the code does not keep the whole promise

Each of these is a theorem; it says exactly when the promise holds unless noted.

- A decoded chunked body can change when more bytes follow, exactly when the last
  trailer line was cut off by the end of the input, because a line may end at the end
  of the stream (`ChunkedStream.SuccessDependsOnConsumedBytes`). For the same reason a
  response body that lacks only its last line feed decodes
  (`ChunkedCodec.CutShort`, `ResponseWriter.ClientDecodes`).
- Only the first `Transfer-Encoding` line and the first `Content-Length` line of a request
  are looked at. A well-formed request whose sender names chunked on a later line only is
  never read back (`KeepAlive.RequestReadsBackIff`). Without a `Content-Length` line it is
  taken for a request without a body, its whole body is left to be read as the next
  request (`MisreadRequests.MisreadLeavesBody`), and that is refused unless a chunk
  extension makes it look like one (`MisreadRequests.MisreadIsRefused`). Of two different lengths the first counts
  (`MessageFraming.DifferentLengths`). Over all header lists, `MessageFraming.AgreesIff`
  says when the reader refuses a request or takes its body for what the sender means.
- A close on a later `Connection` line than the first is not seen
  (`ConnectionEnd.EndFollowedIff`, `ConnectionEnd.LateClose`).
- The response writer does not know the request's method. After a forwarded HEAD request
  whose status is not 1xx, 204 or 304, it writes the end marker of an empty chunked body, which
  the client takes for the start of the next response
  (`ResponseFraming.HeadResponseLeaves`).
- The wildcard matcher has the meaning of its pattern language exactly on texts without
  a `*` byte (`Glob.GlobIsCorrectIff`).
- macOS settings with a SOCKS proxy are not always fail-closed: a scheme without an HTTP
  proxy of its own goes direct when automatic configuration is on or the other scheme
  has a proxy, and gets an error otherwise (`PolicySafety.MacSocksRoute`).
- An update that cannot read the device file overwrites it with what the process
  remembers (`DeviceRegistry.UpdateKeepsRecordsIff`), and a process that remembers an
  outdated device id writes it back (`DeviceRegistry.StoredIdSurvivesIff`).
- Revoking a device covers the credentials a process knows; another credential of the
  same device that it only reads later can still be signed for
  (`DeviceRegistry.LateCredentialSignsIff`, `DeviceRegistry.DeviceSignsAgainIff`).
- A message stands for one request only if its fields are clear: method, nonce and digest
  are single lines, and so is the target, or its first line has a lower-case letter and
  no other line of it could be a time (`ProofText.UnambiguousIff`). The method and target
  of a request read off a connection are single lines (`ProofText.ReadRequestIsClear`).
- The ELF checks look at one segment at a time. If a later load segment lies over a dynamic
  table, memory can show another table than the one that was checked, and that one can ask
  for a shared library (`ElfMemory.OverlapIsAccepted`). `ElfMemory.ShownIff` says exactly
  when memory shows the checked bytes whatever they are; that is enough for the table in
  memory to be self-contained (`ElfMemory.AcceptedRunsAlone`), but not needed, since bytes
  that differ can be self-contained too.

## Model

| member | source | states |
|---|---|---|
| `HttpReader.ReadChunks` | tools/saiai-cli/src/local_proxy.rs:1707-1754 | Decoding terminates on every input; no more than `limit` bytes of body are ever held, whatever sizes are declared; what was decoded before stays a prefix of the result. |
| `HttpReader.ReadRequest` | tools/saiai-cli/src/local_proxy.rs:1584-1629 | Every request read uses up input and its body is within 256 MiB; the quiet end of an idle connection is reported exactly when not one byte was left. |
| `HttpReader.ReadLine` | tools/saiai-cli/src/local_proxy.rs:3388-3404 | A line is a non-empty prefix of the input within the line limit and nothing of the input is lost between it and what is left. |
| `HttpReader.Source.ReadLineLimited` | tools/saiai-cli/src/local_proxy.rs:3388-3404 | Reading a line in place yields exactly what the line function says and leaves exactly the rest of the stream. |
| `HttpReader.Source.ReadTrailerSection` | tools/saiai-cli/src/local_proxy.rs:1717-1729 | The trailer loop stops at the first blank line, or fails at the first bad line or once the section exceeds its limit, as the function over the unread bytes says. |
| `HttpReader.Source.ReadChunkDataWithLimit` | tools/saiai-cli/src/local_proxy.rs:1731-1751 | One chunk is refused before anything of it is read if it would exceed the limit or overflow; otherwise all its bytes and its line end are required, with a distinct error for each way they can be missing. |
| `HttpReader.Source.ReadChunkedBodyWithLimit` | tools/saiai-cli/src/local_proxy.rs:1707-1754 | The decoding loop over the connection computes the decoder function, value, error and bytes left over; the body never exceeds the limit in any iteration. |
| `HttpReader.Source.ReadRequestBodyWithLimit` | tools/saiai-cli/src/local_proxy.rs:1667-1697 | Chunked framing wins over a length; a length that does not parse, is too large or is not met by the stream is an error; without either the body is empty and nothing is consumed. |
| `HttpReader.Source.ReadHeaderSection` | tools/saiai-cli/src/local_proxy.rs:1598-1617 | The header loop collects the headers in order, trimmed, counting the request line towards the 256 KiB limit, and stops at the blank line. |
| `HttpReader.Source.ReadHttpRequest` | tools/saiai-cli/src/local_proxy.rs:1584-1659 | Reading a request in place agrees with the function over the unread bytes, and an idle end consumes nothing. |
| `ReaderSoundness.SoundTrailers` | tools/saiai-cli/src/local_proxy.rs:1718-1728 | A trailer section is accepted only as full non-blank lines and a blank one, together within the limit. |
| `ReaderSoundness.SoundHeaders` | tools/saiai-cli/src/local_proxy.rs:1598-1617 | Headers are accepted only from field lines with a colon, one for each header in order, with the name before the first colon and the value after it, and a blank line, within the limit. |
| `ReaderSoundness.SoundChunks` | tools/saiai-cli/src/local_proxy.rs:1707-1754 | A body decodes only from chunks of the sizes their lines say in hexadecimal, each ended by CR LF, a chunk of size zero and a trailer section, and to their data in order. |
| `ReaderSoundness.SoundRequest` | tools/saiai-cli/src/local_proxy.rs:1584-1629 | A request is read only from bytes that say it: its request line, its field lines, a blank line, and the body its framing announces. |
| `TextEncoding.StartsWithSpace` | tools/saiai-cli/src/local_proxy.rs:3442-3448 | Trimming takes a character off the front exactly if its code point is white space in Unicode. |
| `TextEncoding.EndsWithSpace` | tools/saiai-cli/src/local_proxy.rs:3442-3448 | The same at the end of a text. |
| `TextEncoding.EncodedIsValid` | tools/saiai-cli/src/local_proxy.rs:3392-3396 | Every encoding of Unicode code points is accepted as the text of a line. |
| `TextEncoding.ValidIsEncoded` | tools/saiai-cli/src/local_proxy.rs:3392-3396 | Only encodings of Unicode code points are. |
| `TextEncoding.CaseIs` | tools/saiai-cli/src/local_proxy.rs:3450-3455 | Names compare without the case of ASCII letters and of nothing else. |
| `TextEncoding.DigitIs` | tools/saiai-cli/src/local_proxy.rs:1714-1716 | Hexadecimal digits of either case stand for their places, decimal ones are the first ten, and nothing else is a digit. |
| `Text.ParsePrinted` | tools/saiai-cli/src/local_proxy.rs:1714-1716 | Every number a 64-bit size can hold, printed in decimal or hexadecimal, is read back as itself by the size parser. |
| `MessageSyntax.SizeLineIs` | tools/saiai-cli/src/local_proxy.rs:1713-1716 | A size in hexadecimal digits of either case, with leading zeros, blanks and any extension after a semicolon, is read as the number its digits stand for. |
| `MessageSyntax.ChunkReadsBack` | tools/saiai-cli/src/local_proxy.rs:1731-1752 | Decoding a chunk, however its size line is spelled, adds exactly its bytes to the body and goes on exactly after it. |
| `MessageSyntax.OversizeChunk` | tools/saiai-cli/src/local_proxy.rs:1731-1735 | A chunk that would take the body over the limit is refused before any of it is read, however much has arrived. |
| `MessageSyntax.TrailersReadBack` | tools/saiai-cli/src/local_proxy.rs:1717-1729 | Trailer lines within the limit are skipped through the blank line, and nothing after it is touched. |
| `MessageSyntax.ChunkedReadsBack` | tools/saiai-cli/src/local_proxy.rs:1707-1754 | For every spelling of a chunked body within the limit, extensions and trailers included, decoding it followed by any tail gives exactly its payload and leaves exactly the tail. |
| `ChunkedCodec.PrintedSizeIsGood` | tools/saiai-cli/src/local_proxy.rs:2185-2187 | The size the response writer prints is one of the spellings of that size. |
| `ChunkedCodec.RoundTrip` | tools/saiai-cli/src/local_proxy.rs:2174-2225 | For every list of chunks, empty ones included, whose total is within the limit, decoding the bytes the writer emits followed by any tail gives the concatenated chunks and leaves exactly the tail. |
| `ChunkedCodec.ChunkIs` | tools/saiai-cli/src/local_proxy.rs:1731-1752 | Decoding a printed chunk adds exactly its bytes to the body and goes on exactly after it, whatever follows. |
| `ChunkedCodec.UnfinishedChunk` | tools/saiai-cli/src/local_proxy.rs:1736-1751 | A printed chunk cut anywhere is an error. |
| `ChunkedCodec.CutShort` | tools/saiai-cli/src/local_proxy.rs:1707-1754 | Every proper prefix of an encoded body is rejected except the one that lacks only the last line feed, which decodes to the whole body. |
| `ChunkedStream.ChunksLeaveSuffix` | tools/saiai-cli/src/local_proxy.rs:1707-1754 | What the decoder leaves over is a suffix of the input: bytes are consumed in order and none is invented. |
| `ChunkedStream.ChunksExtend` | tools/saiai-cli/src/local_proxy.rs:1707-1754 | Appending any bytes to an input whose consumed part ends with a line feed gives the same body and leaves those bytes over. |
| `ChunkedStream.ChunksChange` | tools/saiai-cli/src/local_proxy.rs:1720-1728 | If the last trailer line was ended by the end of the input, one more byte can turn success into failure. |
| `ChunkedStream.SuccessDependsOnConsumedBytes` | tools/saiai-cli/src/local_proxy.rs:1707-1754 | A success depends on the consumed bytes alone exactly when they end with a line feed; leaving anything unread implies that. |
| `ChunkedStream.LineEndSuffices` | tools/saiai-cli/src/local_proxy.rs:1707-1754 | An input that ends in a line feed decodes to the same body whatever follows it. |
| `ResponseWriter.ClientSink.WriteAll` | tools/saiai-cli/src/local_proxy.rs:2238-2253 | The client receives the bytes, or as many of them as it takes before it is gone. |
| `ResponseWriter.WriteHeaderLines` | tools/saiai-cli/src/local_proxy.rs:2087-2122 | The forwarded headers, in order and none of the others, are what is offered to the client, cut off where the client stops taking bytes. |
| `ResponseWriter.WriteHeaderLine` | tools/saiai-cli/src/local_proxy.rs:2088-2121 | The four writes of one header amount to offering its line, cut off where the client stops taking bytes, in whichever of them that is. |
| `ResponseWriter.WriteHead` | tools/saiai-cli/src/local_proxy.rs:2078-2172 | Status line, forwarded headers, connection header, framing header and blank line are offered to the client in this order. |
| `ResponseWriter.WriteChunk` | tools/saiai-cli/src/local_proxy.rs:2185-2208 | Size line, bytes and line end amount to one encoded chunk, cut off where the client stops taking bytes. |
| `ResponseWriter.WriteBody` | tools/saiai-cli/src/local_proxy.rs:2174-2225 | Success exactly when the upstream finished, the client took every byte and every flush succeeded; then the counters are the total size and the number of non-empty chunks. A broken upstream leaves the arrived chunks without the end marker; any failure leaves a prefix. |
| `ResponseWriter.WriteUpstreamResponse` | tools/saiai-cli/src/local_proxy.rs:2066-2236 | The whole response: exactly when it succeeds, exactly what the client then holds, the reported counters, that a failure leaves a prefix, and that statuses without a body report zero. |
| `ResponseWriter.NonEmptyAppend` | tools/saiai-cli/src/local_proxy.rs:2182-2210 | Every chunk that is not empty counts once, wherever it stands, and an empty one does not. |
| `ResponseWriter.ClientDecodes` | tools/saiai-cli/src/local_proxy.rs:2174-2225 | Wherever the client's copy of a body ends, it decodes exactly when the upstream finished and at most the last line feed is missing, and then to the upstream's bytes: a broken or cut body never passes for a complete one. |
| `ResponseFraming.ForwardedText` | tools/saiai-cli/src/local_proxy.rs:2087-2122 | The header lines written are, in order, those of exactly the upstream headers that may be forwarded. |
| `ResponseFraming.ForwardedAre` | tools/saiai-cli/src/local_proxy.rs:3258-3276 | The headers that reach the client are exactly the upstream's, in any spelling, except nine names that describe one hop or frame the message. |
| `ResponseFraming.NoneForwarded` | tools/saiai-cli/src/local_proxy.rs:3258-3262 | No upstream `Content-Length` or `Transfer-Encoding`, in any spelling, reaches the client. |
| `ResponseFraming.StatusLineParses` | tools/saiai-cli/src/local_proxy.rs:2074-2085 | A client reads the upstream's status number and reason off the status line. |
| `ResponseFraming.FramingDecides` | tools/saiai-cli/src/local_proxy.rs:2124-2164 | Whatever the upstream sent, the headers the client sees say chunked exactly when the status is none of 1xx, 204 and 304, and a zero length otherwise. |
| `ResponseFraming.ResponseReadsBack` | tools/saiai-cli/src/local_proxy.rs:2066-2236 | A client that expects no body after 1xx, 204 and 304 reads a complete response, followed by any bytes, as the upstream's status, reason, forwarded headers in order, the writer's framing headers and the upstream's body, and exactly its own bytes are consumed. |
| `ResponseFraming.ResponsesReadBack` | tools/saiai-cli/src/local_proxy.rs:2066-2236 | However many responses share a connection, each is read as sent and exactly what follows the last is left. |
| `ResponseFraming.HeadResponseLeaves` | tools/saiai-cli/src/local_proxy.rs:2124-2225 | A client that asked with HEAD is left with exactly the bytes after the response if and only if the status is 1xx, 204 or 304; otherwise the end marker of an unexpected body is in the way. |
| `MessageSyntax.FieldsReadBack` | tools/saiai-cli/src/local_proxy.rs:1598-1617 | Field lines with any white space around their values, and a blank line, are read back as the same ordered headers, within the size limit counted over the section. |
| `FieldLists.ReaderSeesFirstLine` | tools/saiai-cli/src/local_proxy.rs:3450-3465 | A token is seen exactly when the first line of that name lists it, in any case and position. |
| `FieldLists.CombinedIs` | tools/saiai-cli/src/local_proxy.rs:3457-3465 | All lines of a name together list a token, by members without the blanks around them, exactly when some line does. |
| `MessageFraming.AgreesIff` | tools/saiai-cli/src/local_proxy.rs:1675-1683 | Over every header list: exactly when the reader refuses the request or takes its body for what the sender means by all its field lines. |
| `MessageFraming.SenderIsFollowedIff` | tools/saiai-cli/src/local_proxy.rs:1675-1683 | What a sender clearly means is what the reader takes it for exactly when there is no transfer coding or the first line of them lists chunked. |
| `MessageFraming.OneLineIsListed` | tools/saiai-cli/src/local_proxy.rs:3457-3465 | A single `Transfer-Encoding` line that ends in chunked, spelled with any white space, case and empty members, is seen as such. |
| `MessageFraming.SplitCodings` | tools/saiai-cli/src/local_proxy.rs:1675-1680 | With chunked on a second line after any other coding, the reader takes an empty body and leaves the whole chunked body unread. |
| `MessageFraming.DifferentLengths` | tools/saiai-cli/src/local_proxy.rs:1678-1696 | Of two different `Content-Length` lines the first one is used and the other is not noticed. |
| `KeepAlive.RequestLineSplits` | tools/saiai-cli/src/local_proxy.rs:1593-1596 | A request line splits at white space into exactly its method, target and version. |
| `KeepAlive.RequestReadsBackIff` | tools/saiai-cli/src/local_proxy.rs:1584-1629 | A well-formed request in any spelling, followed by any bytes, is read back with the same method, target, version, ordered headers and body and exactly its own bytes consumed, if and only if it has no `Transfer-Encoding` line or the first one lists chunked. |
| `KeepAlive.RequestReadsBack` | tools/saiai-cli/src/local_proxy.rs:1584-1629 | Every well-formed request with at most one `Transfer-Encoding` line, in any spelling, followed by any bytes, is read back whole and alone. |
| `KeepAlive.DeclaredTooLarge` | tools/saiai-cli/src/local_proxy.rs:1681-1686 | A request that declares more than 256 MiB is refused with 413 before any of its body is read. |
| `ConnectionEnd.WantsCloseIff` | tools/saiai-cli/src/local_proxy.rs:3467-3475 | A request ends its connection exactly when its first `Connection` line lists close, or it is HTTP/1.0, in any case, and that line does not list keep-alive. |
| `ConnectionEnd.OneLineIsFollowed` | tools/saiai-cli/src/local_proxy.rs:3467-3475 | With at most one `Connection` line that is what its sender asks for by the members of the line. |
| `ConnectionEnd.EndFollowedIff` | tools/saiai-cli/src/local_proxy.rs:3467-3475 | With several lines, exactly when what the sender asks for by all of them is followed. |
| `ConnectionEnd.LateClose` | tools/saiai-cli/src/local_proxy.rs:3467-3475 | A request that lists close on its second `Connection` line only, which is not followed. |
| `KeepAlive.EndsAsAsked` | tools/saiai-cli/src/local_proxy.rs:1238-1241 | The connection ends after a request with at most one `Connection` line exactly when its handling does not come back or its sender asks for the end. |
| `KeepAlive.ServeConnection` | tools/saiai-cli/src/local_proxy.rs:1045-1061 | The keep-alive loop yields the requests, the reason to stop and the unused bytes that the recursive reading of the stream gives, for every choice of which request, by its position and content, is not come back from. |
| `KeepAlive.Framing` | tools/saiai-cli/src/local_proxy.rs:1045-1061 | For every list of well-formed requests sent back to back, in any spelling, with chunked, if used, on the first line of codings, whose handling comes back and whose first `Connection` line does not end the connection, the loop yields exactly those requests and goes on with exactly the bytes after the last one. |
| `KeepAlive.FramingStops` | tools/saiai-cli/src/local_proxy.rs:1238-1241 | The first request whose handling does not come back, or whose first `Connection` line ends the connection, is the last one yielded, and exactly what follows it stays unread. |
| `KeepAlive.QuietEnd` | tools/saiai-cli/src/local_proxy.rs:1045-1051 | If nothing follows, all the requests are yielded and the connection ends quietly, without an error response. |
| `MisreadRequests.MisreadLeavesBody` | tools/saiai-cli/src/local_proxy.rs:1675-1680 | A well-formed request with chunked on a later line only and no length is read as the same request without its body, and all of its body is left unread. |
| `MisreadRequests.MisreadIsRefused` | tools/saiai-cli/src/local_proxy.rs:1045-1061 | The connection then yields that request and refuses the leftover body with status 400, if the first size line has no extension. |
| `MisreadRequests.SplitRequestIsRefused` | tools/saiai-cli/src/local_proxy.rs:1045-1061 | A concrete well-formed request, gzip and chunked on two lines, to which this happens. |
| `WebSocketHandshake.CopyHeaders` | tools/saiai-cli/src/local_proxy.rs:1259-1286 | Fails exactly on a header that would be copied and is not valid; otherwise, for every name, the outgoing values are the client's full ordered value list if any is copied, else the generated ones. |
| `WebSocketHandshake.NominatedIff` | tools/saiai-cli/src/local_proxy.rs:3229-3236 | A name is nominated exactly when the `Connection` lines together list it, in any case and with any blanks around it. |
| `WebSocketHandshake.BuildWebSocketRequest` | tools/saiai-cli/src/local_proxy.rs:1244-1312 | Exactly when building succeeds, the library's refusal of the URL included; outgoing authorization is one gateway Bearer and host the gateway's; the proof is the generated one if it can be encoded; every other name has the client's values exactly if the client sent it and it is a handshake name or neither listed on a `Connection` line nor one of a fixed list, else the generated ones. |
| `WebSocketHandshake.CopiedExactly` | tools/saiai-cli/src/local_proxy.rs:1262-1286 | In any spelling, exactly the handshake names, nominated or not, and every other name that is neither nominated nor in one fixed list are copied; the list holds the client's authorization, cookies, host, proof and extension offer and the names of this hop's framing. |
| `WebSocketHandshake.CopiesByLowerName` | tools/saiai-cli/src/local_proxy.rs:3206-3242 | Whether a header is copied does not depend on the case of its name. |
| `WebSocketRelay.RelayFrames` | tools/saiai-cli/src/local_proxy.rs:1406-1458 | The relay loop, under any order of events and any send failures, reaches the state of the step relation's run. |
| `WebSocketRelay.StepIsGood` | tools/saiai-cli/src/local_proxy.rs:1419-1456 | Every step keeps the invariant that ties what each side received to what was read from the other. |
| `WebSocketRelay.EveryRunIsGood` | tools/saiai-cli/src/local_proxy.rs:1406-1467 | In every run each side has received exactly the other side's frames as far as they were read, in order, except for a last frame whose send failed and one 1009 close after an oversized client message; everything read was traced once. |
| `WebSocketRelay.Stopped` | tools/saiai-cli/src/local_proxy.rs:1426-1456 | After a close frame, an end or an error nothing is read, relayed or traced any more. |
| `WebSocketRelay.SuccessIsComplete` | tools/saiai-cli/src/local_proxy.rs:1426-1456 | A relay that succeeds has delivered every frame of the side that finished, up to its close frame, and a prefix of the other side's. |
| `WebSocketRelay.TraceIsComplete` | tools/saiai-cli/src/local_proxy.rs:1419-1449 | In every run the trace of each side is what was read of it, each frame once and in order. |
| `WebSocketRelay.SucceedsIff` | tools/saiai-cli/src/local_proxy.rs:1417-1456 | A turn ends the relay well exactly if the side it serves has ended or its next frame is a close whose sending does not fail. |
| `WebSocketRelay.OversizedIsNoticed` | tools/saiai-cli/src/local_proxy.rs:1431-1444 | An oversized client message is not relayed, ends the relay with an error, and each side the notice reaches receives exactly one 1009 close frame. |
| `WebSocketRelay.OtherFailuresAreSilent` | tools/saiai-cli/src/local_proxy.rs:1431-1456 | No other failure to read sends anything to either side. |
| `Glob.MatchGlob` | tools/saiai-cli/src/upstream_proxy.rs:370-391 | The two-pointer loop terminates and, for every text without a `*` byte, decides the recursive meaning of the pattern. |
| `Glob.LoopIsCorrect` | tools/saiai-cli/src/upstream_proxy.rs:374-390 | From every position reachable in the loop the answer is whether the rest matches the rest or the last star can still take more; going back to the last star only loses nothing. |
| `Glob.GlobIsCorrectIff` | tools/saiai-cli/src/upstream_proxy.rs:370-391 | The matcher has the pattern's meaning on a text, for every pattern, exactly when the text has no `*` byte. |
| `Network.MaskIs` | tools/saiai-cli/src/upstream_proxy.rs:359-363 | The mask built by a checked shift with a fallback has exactly the low bits cleared, for shifts from zero to the full width. |
| `Network.AndMask` | tools/saiai-cli/src/upstream_proxy.rs:360-364 | Masking an address clears exactly its low bits. |
| `Network.InNetworkMeaning` | tools/saiai-cli/src/upstream_proxy.rs:356-368 | For every IPv4 and IPv6 address and every admitted prefix, zero and full width included, the masked comparison holds exactly when both are of one family and their top bits agree. |
| `Network.LongerPrefixShrinks` | tools/saiai-cli/src/upstream_proxy.rs:356-368 | A longer prefix matches no address that a shorter one does not. |
| `Network.ParseNetwork` | tools/saiai-cli/src/upstream_proxy.rs:329-354 | Every range that parses has a prefix within its address family's width. |
| `Network.WrittenRangeParses` | tools/saiai-cli/src/upstream_proxy.rs:329-354 | One to four octets and a prefix, written in decimal with dots and a slash, are read as the range they stand for, missing octets zero. |
| `Network.OctetsAre` | tools/saiai-cli/src/upstream_proxy.rs:345-347 | The octets of an abbreviated range fill an address from the highest on, and missing ones are zero. |
| `Network.AbbreviatedRange` | tools/saiai-cli/src/upstream_proxy.rs:329-368 | A range written as octets and their number of bits, such as `169.254/16`, is read and holds exactly the addresses that begin with those octets. |
| `Network.WrittenAddressParses` | tools/saiai-cli/src/upstream_proxy.rs:329-354 | A full address of either family is read as a range of itself, one with a prefix as that range, and a prefix beyond the width or a host name as none. |
| `Network.LoopbackIs` | tools/saiai-cli/src/upstream_proxy.rs:393-400 | Loopback addresses are 127.0.0.0/8, ::1, and 127.0.0.0/8 mapped into IPv6. |
| `Network.UnspecifiedIs` | tools/saiai-cli/src/upstream_proxy.rs:125-128 | Unspecified addresses are those of all zeros, mapped into IPv6 or not. |
| `Bypass.SuffixIsWithin` | tools/saiai-cli/src/upstream_proxy.rs:299-304 | The suffix test holds exactly when the host's last labels are the zone's and more labels come before them; a name that merely ends in the same letters is not covered. |
| `Bypass.EntryMeaning` | tools/saiai-cli/src/upstream_proxy.rs:293-309 | An entry matches exactly what it means in terms of labels, address bits and the recursive pattern language. |
| `Bypass.BypassMeaning` | tools/saiai-cli/src/upstream_proxy.rs:290-311 | A bypass list matches exactly the destinations that one of its entries covers. |
| `BypassEntries.NormalizeIs` | tools/saiai-cli/src/upstream_proxy.rs:174-180 | A host's name is what is left without white space, brackets around it and dots at its end, in lower case. |
| `BypassEntries.WrittenHost` | tools/saiai-cli/src/upstream_proxy.rs:259-288 | An entry without a colon, with or without a scheme before it, is for every port. |
| `BypassEntries.WrittenHostPort` | tools/saiai-cli/src/upstream_proxy.rs:259-327 | An entry with a port is for that port only, and one whose port is no number is void rather than for every port. |
| `BypassEntries.WrittenBrackets` | tools/saiai-cli/src/upstream_proxy.rs:315-322 | An address in brackets is taken without them, with a port or for every port. |
| `BypassEntries.WrittenColons` | tools/saiai-cli/src/upstream_proxy.rs:323-327 | An entry with several colons keeps them all and has no port. |
| `BypassEntries.EntriesAre` | tools/saiai-cli/src/upstream_proxy.rs:259-288 | A list has the entries of its texts, whatever their order, and no others. |
| `BypassEntries.StarCovers` | tools/saiai-cli/src/upstream_proxy.rs:274-275 | A star covers every destination on the entry's ports. |
| `BypassEntries.LocalCovers` | tools/saiai-cli/src/upstream_proxy.rs:276-297 | `<local>`, in any case, covers names of one label that are no addresses. |
| `BypassEntries.PatternCovers` | tools/saiai-cli/src/upstream_proxy.rs:280-298 | Any other text with a star covers the hosts that match it as a pattern in lower case. |
| `BypassEntries.RangeCovers` | tools/saiai-cli/src/upstream_proxy.rs:278-307 | An address or range covers the addresses in it. |
| `BypassEntries.DomainCovers` | tools/saiai-cli/src/upstream_proxy.rs:282-304 | A domain covers itself, and what is below it if it is written with a leading dot or the list covers subdomains. |
| `Policy.ReadWindowsProxies` | tools/saiai-cli/src/upstream_proxy.rs:656-705 | The loop over `ProxyServer` entries fills the slots as the recursive definition does and reports the first entry that does not parse. |
| `Policy.ParseScutil` | tools/saiai-cli/src/upstream_proxy.rs:708-729 | The loop over `scutil` lines, with its flag for the exceptions block, gathers the values and exceptions of the recursive definition. |
| `MacSettings.ScutilMeaning` | tools/saiai-cli/src/upstream_proxy.rs:709-729 | Each key has the value of the last line outside the exceptions blocks that gives it one, no other key is there, and the exceptions are the values of the lines inside blocks, in order. |
| `MacSettings.SplitArrowIs` | tools/saiai-cli/src/upstream_proxy.rs:717-722 | A line splits at its first arrow, and one without an arrow does not. |
| `MacSettings.SchemeProxyIs` | tools/saiai-cli/src/upstream_proxy.rs:737-752 | From which settings a scheme's proxy is parsed, with port 80 unless a number is given and brackets around a host with a colon; when there is none and when that is an error. |
| `MacSettings.BlockStep` | tools/saiai-cli/src/upstream_proxy.rs:714-724 | A block begins after a line that opens the exceptions as an array and ends with the first closing line, whatever else is inside. |
| `PolicySafety.SlotsAre` | tools/saiai-cli/src/upstream_proxy.rs:661-690 | Whatever the order of the entries, each slot holds the first entry for its scheme that is not this listener, `socks=` is noticed anywhere, and one entry that does not parse fails the whole setting. |
| `PolicySafety.NoRouteToListener` | tools/saiai-cli/src/upstream_proxy.rs:507-871 | For every mode, environment, system setting and automatic-configuration outcome, no route the compiled policy can answer is a proxy recognised as this listener. |
| `PolicySafety.CompiledPolicyAvoids` | tools/saiai-cli/src/upstream_proxy.rs:507-783 | No compiled policy contains a proxy recognised as this listener in any slot or fallback. |
| `PolicySafety.LoopbackListenerIsRecognised` | tools/saiai-cli/src/upstream_proxy.rs:115-129 | For the loopback addresses this program listens on, a proxy at its port is recognised exactly when its host is a loopback target or unspecified; one given by the listen address always is. |
| `PolicySafety.SchemeEnvIs` | tools/saiai-cli/src/upstream_proxy.rs:533-557 | A scheme's environment proxy is its own variable unless that is unset or points at this listener, then `ALL_PROXY`; it fails exactly when the one in effect does not parse. |
| `PolicyModes.LoopbackTargetIs` | tools/saiai-cli/src/upstream_proxy.rs:393-400 | This machine is `localhost`, any name below it, and the loopback addresses. |
| `PolicyModes.LoopbackRoute` | tools/saiai-cli/src/upstream_proxy.rs:839-842 | Requests to this machine are direct in every mode. |
| `PolicyModes.ConfiguredRoute` | tools/saiai-cli/src/upstream_proxy.rs:514-526 | A configured proxy is used for every other target, with nothing bypassed, whatever the environment and the system say; if it is this program itself every target is an error. |
| `PolicyModes.OtherModesRoute` | tools/saiai-cli/src/upstream_proxy.rs:508-513 | A configured direct connection is direct and an unusable configuration an error, for every target. |
| `PolicyModes.NoSettingsRoute` | tools/saiai-cli/src/upstream_proxy.rs:600-604 | Without any proxy setting every target is direct, and with settings that cannot be read every target is an error. |
| `PolicySafety.EnvironmentRoute` | tools/saiai-cli/src/upstream_proxy.rs:531-590 | Exactly the one answer each destination can get from environment proxies: an unsupported one is an error and never direct unless bypassed, a usable one is used, and the other scheme matters only when both are unsupported. |
| `PolicySafety.WindowsRoute` | tools/saiai-cli/src/upstream_proxy.rs:656-705 | Exactly the one answer each destination can get from Windows settings: with `socks=` and no entry for the scheme it is an error, unless bypassed while the other scheme has a proxy. |
| `PolicySafety.PacDirect` | tools/saiai-cli/src/upstream_proxy.rs:1288-1317 | Exactly when automatic configuration goes direct: bypassed, the script says so, or discovery without a script found nothing and the static settings say so; never after a failed script. |
| `PolicyModes.FirstProxyIs` | tools/saiai-cli/src/upstream_proxy.rs:1319-1332 | The proxy taken from a list is the one of its first entry that names one, with or without a scheme before an equals sign, but not a SOCKS proxy. |
| `PolicyModes.WindowsAutoRoute` | tools/saiai-cli/src/upstream_proxy.rs:605-635 | What Windows automatic configuration compiles to, and the one answer to each destination for every outcome: bypass list first, the static settings if discovery without a script is not tried or finds nothing, else what the script says. |
| `PolicySafety.MacRoute` | tools/saiai-cli/src/upstream_proxy.rs:708-783 | Exactly the one answer each destination can get from macOS settings, whatever they are: direct under automatic configuration, an error for a malformed proxy of either scheme or for SOCKS alone, else the scheme's proxy unless bypassed. |
| `PolicySafety.MacSocksRoute` | tools/saiai-cli/src/upstream_proxy.rs:731-780 | With a macOS SOCKS proxy, a scheme without an HTTP proxy of its own gets an error exactly when automatic configuration is off and its own proxy is malformed or the other scheme's is missing or malformed, and goes direct otherwise. |
| `PacCache.PacState.Route` | tools/saiai-cli/src/upstream_proxy.rs:1365-1447 | One query in place: the cached answer while it lives, else a fresh one which is stored, emptying a full cache first and remembering when discovery failed. |
| `PacCache.DecisionByKey` | tools/saiai-cli/src/upstream_proxy.rs:1375-1388 | Targets with one cache key get one decision, so sharing a cache entry between them is sound. |
| `PacCache.SameKeyIff` | tools/saiai-cli/src/upstream_proxy.rs:1375-1378 | Targets share a cache entry exactly if scheme, port and the host's name are the same. |
| `PacCache.RunIsSound` | tools/saiai-cli/src/upstream_proxy.rs:1365-1406 | In every run of queries each answer is direct for a loopback target, freshly decided, or was decided for the same key less than its time to live ago; and each is an answer the policy can give. |
| `PacCache.AnswerIsKept` | tools/saiai-cli/src/upstream_proxy.rs:1376-1393 | An answer is given again for the same key, without an evaluation, for five minutes, or half a minute if it was an error. |
| `PacCache.DiscoveryWaits` | tools/saiai-cli/src/upstream_proxy.rs:1419-1445 | Discovery that found nothing is remembered, and for five minutes questions without a script are answered from the static settings. |
| `ClientCache.UpstreamProxy.Publish` | tools/saiai-cli/src/upstream_proxy.rs:1094-1105 | Publishing changes the snapshot exactly when the inputs differ from the last ones, then to the policy they compile to under the next generation. |
| `ClientCache.HttpClients.ClientForRoute` | tools/saiai-cli/src/upstream_proxy.rs:1001-1018 | In place: a newer generation empties the cache first, only a client of the cache's own generation is reused or stored, and a failed build stores nothing. |
| `ClientCache.GenerationsRise` | tools/saiai-cli/src/upstream_proxy.rs:1001-1105 | In every step the policy's generation rises by one exactly when inputs change and the cache's generation never falls. |
| `ClientCache.EveryRunIsGood` | tools/saiai-cli/src/upstream_proxy.rs:994-1105 | Under every interleaving, snapshots are numbered by the changes of input, the current policy is the one the last inputs compile to, and every client handed out was built for the route its own snapshot can answer and for that snapshot's generation. |
| `ClientCache.SharedClient` | tools/saiai-cli/src/upstream_proxy.rs:1001-1018 | Two requests share a client only if they resolved the same route on the same snapshot. |
| `ClientCache.RequestIsServed` | tools/saiai-cli/src/upstream_proxy.rs:994-1018 | A request whose route resolves is handed a client for it, on the policy that was current when the request began. |
| `ClientCache.ClientIsKept` | tools/saiai-cli/src/upstream_proxy.rs:1006-1016 | The next request for a route on the same snapshot gets the very same client without building one. |
| `ClientCache.OldSnapshotIsApart` | tools/saiai-cli/src/upstream_proxy.rs:1003-1017 | A request on an older snapshot gets a client of its own and leaves the cached ones alone. |
| `ClientCache.NoClientForListener` | tools/saiai-cli/src/upstream_proxy.rs:994-1018 | No client handed out in any run connects through a proxy recognised as this listener. |
| `DeviceRecords.MergeLookup` | tools/saiai-cli/src/client_proof.rs:232-243 | What the merge holds for each gateway and credential: the one record there is, or this side's id with either side's revocation. |
| `DeviceRecords.MergeAssociative` | tools/saiai-cli/src/client_proof.rs:232-243 | Folding three maps together gives the same map in either grouping. |
| `DeviceRecords.MergeIdempotent` | tools/saiai-cli/src/client_proof.rs:232-243 | Merging the same map again changes nothing. |
| `DeviceRecords.MergeCommutesUpToIds` | tools/saiai-cli/src/client_proof.rs:236-240 | Merging either way round agrees on which records exist, have an id and are revoked; the results differ exactly where both sides hold different ids. |
| `DeviceRecords.RetainLookup` | tools/saiai-cli/src/client_proof.rs:220-228 | Reading the file keeps exactly the records with a valid id or with a revocation and no id, unchanged. |
| `DeviceRecords.DeviceIdIff` | tools/saiai-cli/src/client_proof.rs:173-180 | A device id is valid exactly if it is `cd_` and 22 characters of URL-safe base64. |
| `DeviceRecords.MergeWellFormed` | tools/saiai-cli/src/client_proof.rs:232-243 | Merging maps whose records all survive reading gives such a map. |
| `DeviceRecords.DeviceStore.MergeDevices` | tools/saiai-cli/src/client_proof.rs:232-243 | The nested loops that change the map in place compute the merge. |
| `DeviceRecords.DeviceStore.RecordDevice` | tools/saiai-cli/src/client_proof.rs:483-488 | Recording sets one record to the id, not revoked, and touches no other. |
| `DeviceRecords.DeviceStore.RecordRevoked` | tools/saiai-cli/src/client_proof.rs:493-506 | Revoking marks the credential's record and every record of the gateway with the same id, and touches no other. |
| `DeviceRegistry.UpdateStore` | tools/saiai-cli/src/client_proof.rs:508-539 | One update in place: merge what the file held, change, and write the whole memory if the lock was held and the write succeeded; the memory changes either way. |
| `DeviceRegistry.WrittenLookup` | tools/saiai-cli/src/client_proof.rs:218-228 | Reading back a file that an update wrote loses and changes no record. |
| `DeviceRegistry.StepKeepsStored` | tools/saiai-cli/src/client_proof.rs:508-539 | No step of any process removes a stored record, takes its id away, or clears its revocation other than by recording a device for that very pair. |
| `DeviceRegistry.RunKeepsStored` | tools/saiai-cli/src/client_proof.rs:479-539 | The same over every run of any number of processes, whatever locks and writes fail and whoever starts again, for every record that can be read back at the start. |
| `DeviceRegistry.UpdateKeepsRecordsIff` | tools/saiai-cli/src/client_proof.rs:520-538 | A successful update keeps every stored record exactly when the file was readable or the process remembered them all. |
| `DeviceRegistry.StoredIdSurvivesIff` | tools/saiai-cli/src/client_proof.rs:236-240 | A stored id survives an update of something else exactly when the updating process remembers no other id for that record. |
| `DeviceRegistry.RevocationStopsDevice` | tools/saiai-cli/src/client_proof.rs:493-506 | After a revocation the process signs with that device id under no credential of the gateway, even if nothing could be saved. |
| `DeviceRegistry.StaysUnsignable` | tools/saiai-cli/src/client_proof.rs:232-243 | A credential revoked in a process stays unsignable there through every run until that process records a device for it or starts again. |
| `DeviceRegistry.RevokedDeviceStaysUnsignable` | tools/saiai-cli/src/client_proof.rs:456-539 | From a revocation on, every credential known for the revoked device stays unsignable through every run, until a device is recorded for that same credential. |
| `DeviceRegistry.LateCredentialSignsIff` | tools/saiai-cli/src/client_proof.rs:508-539 | With every known record of a device revoked, an update of any gateway makes the device sign under a credential that is not being recorded exactly when the file is read, the process did not know that credential, the file holds it as active for the device, and the update does not revoke it. |
| `DeviceRegistry.DeviceSignsAgainIff` | tools/saiai-cli/src/client_proof.rs:479-539 | Over all credentials of a gateway: a fully revoked device signs again after an update exactly when the update records that device there or some other credential comes late. |
| `DeviceRegistry.RevocationSpreads` | tools/saiai-cli/src/client_proof.rs:516-528 | A stored revocation reaches every process with its next locked update or start. |
| `DeviceRegistry.OtherKeyIsUnread` | tools/saiai-cli/src/client_proof.rs:215-219 | A file of another key yields no record and no signing id to a process that starts, and an update then changes the process's own memory only. |
| `DeviceRegistry.SavedRevocationStays` | tools/saiai-cli/src/client_proof.rs:389-539 | A revocation that was saved survives restarts: while no process records a device for the credential, it stays stored, and a process that has it revoked never signs for it again, its own restarts included. |
| `DeviceRegistry.SignedIdsAreValid` | tools/saiai-cli/src/client_proof.rs:456-482 | Every device id that any process signs with in any run has the issued form, whatever the file held to begin with, unreadable included. |
| `Enrollment.EnrollmentClaims.ClaimEnrollment` | tools/saiai-cli/src/client_proof.rs:415-440 | One claim in place: what is granted and exactly how the claimed set and the on-demand count change. |
| `Enrollment.ClaimsAreFair` | tools/saiai-cli/src/client_proof.rs:415-440 | In every sequence of requests each pair is granted at most once, at most sixteen grants are on demand, and a request is denied only for these reasons or a known revocation. |
| `Enrollment.Classify` | tools/saiai-cli/src/client_proof.rs:330-363 | A response enrolls exactly when its status is a success and it carries a valid device id, and then with that id; it revokes exactly on a 403 with the revocation code and is retried exactly on 404, 408 and 5xx; anything else stops. |
| `Enrollment.Enroll` | tools/saiai-cli/src/client_proof.rs:617-680 | One attempt more than the leading retries, the prescribed wait after each retry with the last delay repeating, and over the whole loop exactly the records the final outcome calls for, never more than one; a single attempt without delays and none for a revoked credential. |
| `ProofText.MessageSplits` | tools/saiai-cli/src/client_proof.rs:56-62 | A message over single-line fields splits at line feeds into exactly its six parts. |
| `ProofText.MessageIsUnambiguous` | tools/saiai-cli/src/client_proof.rs:56-62 | If the fields of one request are single lines, its message equals that of any other request, line feeds or not, exactly when upper-cased method, target, time, nonce and key digest are equal. |
| `ProofText.UnambiguousIff` | tools/saiai-cli/src/client_proof.rs:56-62 | A message stands for one request, among all there are, if and only if its fields are clear; otherwise another request with the same message is given. |
| `ProofText.ReadRequestIsClear` | tools/saiai-cli/src/local_proxy.rs:1592-1596 | The method and target of a request read off a connection hold no line feed, so with an encoded nonce and a hexadecimal digest the fields are single lines. |
| `ProofText.HeaderSplits` | tools/saiai-cli/src/client_proof.rs:75-86 | For every valid device id and URL-safe base64 nonce and signature, the header splits at dots into exactly five parts that give back what it was built from. |
| `Versions.CompareMeaning` | tools/saiai-cli/src/main.rs:6426-6439 | The first component that differs decides, and missing components count as zero. |
| `Versions.MissingIsZero` | tools/saiai-cli/src/main.rs:6429-6438 | One more component of zero changes nothing, and any other one makes a version newer. |
| `Versions.WrittenVersion` | tools/saiai-cli/src/main.rs:6442-6462 | Decimal components with dots between them, after any number of `v`, the product's name and white space, are read as those components. |
| `Versions.ComponentsParseIff` | tools/saiai-cli/src/main.rs:6449-6458 | Components parse exactly if each is a decimal number of 64 bits. |
| `Versions.OrderReflexive` | tools/saiai-cli/src/codex_daemon.rs:257-264 | A version compares with itself exactly when it is there and purely numeric, and then as equal. |
| `Versions.OrderFlips` | tools/saiai-cli/src/codex_daemon.rs:220-222 | Comparing the other way round gives the opposite answer. |
| `Versions.AtLeastTransitive` | tools/saiai-cli/src/codex_daemon.rs:220-222 | Being comparable and at least as new is transitive over arbitrary version texts. |
| `DaemonRefresh.DecisionIs` | tools/saiai-cli/src/codex_daemon.rs:242-298 | Which command replaces a daemon, or that none does because it runs something newer, is fixed by the three reported versions, its threads and its management. |
| `DaemonRefresh.Refresh` | tools/saiai-cli/src/codex_daemon.rs:286-353 | For every behaviour of the daemon control, over the reported versions: a restart runs exactly for a managed, idle daemon if what it would launch is not known older than the CLI or than what runs; an update exactly if that is known older than the CLI and the CLI is not known older than what runs; nothing else ever runs; success exactly when the second inspection is signed in and not older than either; and which outcome is reported when. |
| `DaemonRefresh.FloorsAre` | tools/saiai-cli/src/codex_daemon.rs:257-270 | The postflight check holds exactly when the app server is at least as new as the CLI and as the one before, as far as those can be compared. |
| `DaemonRefresh.UpdateIsVerified` | tools/saiai-cli/src/codex_daemon.rs:242-264 | An update that succeeded has reported a version: the default for a missing one is never used. |
| `DaemonRefresh.NeverDowngrades` | tools/saiai-cli/src/codex_daemon.rs:257-342 | However many refreshes succeed one after another, the daemon never ends on an older version than it began with, if that one could be compared. |
| `ElfChecker.EntryInTable` | scripts/saiai-cli/verify-linux-portability.py:89-108 | Once the table's range is checked, unpacking any of its entries stays in the file. |
| `ElfChecker.ReadSegments` | scripts/saiai-cli/verify-linux-portability.py:96-122 | The loop over program headers succeeds exactly when none asks for an interpreter and all loaded bytes lie in the file, and then returns them all in order. |
| `ElfChecker.CheckDynamicEntries` | scripts/saiai-cli/verify-linux-portability.py:177-184 | The loop over dynamic entries succeeds exactly when there is a DT_NULL and no DT_NEEDED before it. |
| `ElfChecker.CheckDynamicSegments` | scripts/saiai-cli/verify-linux-portability.py:139-184 | Succeeds exactly when every dynamic segment is mapped with equal displacement by a load segment, has whole entries and is self-contained. |
| `ElfChecker.FindAbi` | scripts/saiai-cli/verify-linux-portability.py:186-187 | The search finds a versioned symbol of the host C or C++ runtime exactly when one occurs anywhere in the file. |
| `ElfChecker.VerifyBinary` | scripts/saiai-cli/verify-linux-portability.py:53-188 | Terminates on every byte string without unpacking outside it and accepts exactly the acceptable files under a known name, with that name's architecture. |
| `ElfBytes.AcceptableIff` | scripts/saiai-cli/verify-linux-portability.py:53-188 | A file is acceptable exactly if it has the given numbers at the given byte offsets: identification, header, program headers without an interpreter, entry point, dynamic tables and no runtime symbol version. |
| `ElfBytes.SignedIs` | scripts/saiai-cli/verify-linux-portability.py:15-15 | A tag is the signed number whose low 64 bits the eight bytes are, in little-endian order. |
| `ElfBytes.KnownAssetIff` | scripts/saiai-cli/verify-linux-portability.py:30-33 | The two asset names and the machine each one must be for. |
| `ElfMemory.ShownIff` | scripts/saiai-cli/verify-linux-portability.py:110-122 | Given the program headers, memory shows a segment's file bytes, whatever they are, exactly when the last load segment over each of its addresses takes it from the same place in the file. |
| `ElfMemory.DisjointIsUndisturbed` | scripts/saiai-cli/verify-linux-portability.py:153-170 | If no two load segments overlap, a dynamic segment mapped with equal displacement comes into memory from its own place. |
| `ElfMemory.AcceptedRunsAlone` | scripts/saiai-cli/verify-linux-portability.py:124-184 | In an accepted file every dynamic table that comes into memory from its own place ends there at a DT_NULL before which no shared library is asked for; if no two load segments overlap, that is every table, and the byte at the entry point is the file's, out of an executable segment. |
| `ElfMemory.OverlapIsAccepted` | scripts/saiai-cli/verify-linux-portability.py:139-184 | A file is given that is accepted and whose dynamic table, as memory shows it, asks for a shared library, because a later load segment lies over it. |

## Left out

- TLS, certificates, ECDSA, SHA-256 and base64 themselves: foreign cryptography.
- Sockets, DNS, the async runtime and the HTTP and WebSocket libraries. Timeouts appear only as failures, so the 408 answer to a slow request is not modelled.
- The proxy's own sidecar answers, telemetry hosts, path lists, CONNECT handling and the HTTP forwarding to the gateway: branches over constant tables.
- `HttpReader.ReadRequest`: an idle connection that times out or is reset ends as quietly as one that is closed, and is not modelled.
- `MessageFraming.AgreesIff`: a comma inside a quoted parameter of a transfer coding separates members on both sides.
- `MessageFraming.SenderFraming`: a list of equal lengths within one line counts as unclear; the reader refuses it.
- `ProofText.ReadRequestIsClear`: speaks of the target as read; the one that is signed is the upstream URL's, and the URL library is not modelled.
- `ResponseFraming.ResponseReadsBack`: the reference client reads header lines as UTF-8; upstream header values with other bytes are written as they are (`ResponseWriter.WriteHeaderLine`) but not read back here.
- `ResponseFraming.ResponsesReadBack`: likewise.
- `KeepAlive.ServeConnection`: what handling a request answers is not modelled, only whether it comes back to the loop, for every choice of that.
- `WebSocketRelay.RelayFrames`: an arbitrary schedule replaces waiting for whichever side is ready first, and bytes that the client sent ahead of the upgrade response are not modelled.
- `Policy.ReadWindowsProxies`: reports that an entry does not parse, not the text of the error; descriptions and notes about ignored variables are left out everywhere.
- `Endpoint::parse`, percent decoding and the lookup of environment variables: parameters here.
- WinHTTP, `scutil` and the reading of system settings: their results are inputs.
- On systems other than Windows an automatic Windows policy would use its static settings; no such policy is ever compiled there, so that branch is not modelled.
- `ClientCache.HttpClients.ClientForRoute`: a client is its serial number, route and generation; what the HTTP library configures for a route is not modelled.
- JSON and TOML formats and file permissions: files are typed values replaced atomically.
- `DeviceRegistry.RunKeepsStored`: says nothing about records in a file that cannot be read at the start; `DeviceRegistry.UpdateKeepsRecordsIff` says exactly what that costs. A file that is damaged by others during a run is not modelled.
- Creation and replacement of the device key. All processes share one key, and a file of another key reads as empty.
- `Enrollment.Enroll`: the enrollment request itself is a list of outcomes; one that runs out while the loop still retries is reported as unfinished.
- `DaemonRefresh.Refresh`: error texts are reduced to the phase that failed, and an unknown previous version is `None` rather than a phrase.
- The daemon's probing, its command line and the report of `doctor`.
- `ElfChecker.VerifyBinary`: which check fails first and its message are not modelled, only acceptance.
- `ElfMemory.AcceptedRunsAlone`: segments are loaded byte by byte; that a loader maps whole pages, and relocation of position-independent files, are not modelled.
- The PE marker check, release manifests, the Desktop front end and other scripts: separate tools.
