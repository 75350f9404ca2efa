# Wire protocols of the Bambu network plugin, verified in Dafny

A model of the hand-written protocols, codecs and state machines of the plugin, and proofs of what
they are for. `dafny verify dfyconfig.toml` checks everything. Nothing was executed: all claims
are proofs about the model.

| module | models |
|---|---|
| `Json`, `JsonParser`, `JsonRoundTrip` | the JSON parser and printer: functions, the in-place parser proved against them, round trips |
| `JsonSpelling`, `Digits` | every way a sender may write a value, and that the parser accepts exactly these |
| `Replies` | reading a field of a reply, in terms of the members a sender wrote |
| `Wire`, `WireRoundTrip`, `Splitter` | 16-byte frame headers, the frame cutter, the wrapping of commands and the brace scanner that splits JSON from binary, against the printer and against any sender |
| `Session` | the polled login and setup handshake, sequence numbers, the receive buffer |
| `Upload` | the resumable chunked upload |
| `H264`, `HeaderLine`, `Demux` | RTP and H.264 depacketisation, the RTSP demultiplexer in front of it |
| `Passthrough`, `AnnexB` | the access-unit assembler, the bounded queue between two threads, and a splitter on start codes as the receiver's view of a sample |
| `Camera` | the way from the sender's units through `Demux` and `Passthrough` to the samples |
| `Base64` | the codec with the wrapping 32-bit accumulator |
| `Ctrl` | the request and reply queues of the CTRL channel |
| `FileTransfer` | reference counts, result delivery and the ability cache of file-transfer jobs |
| `Cloud` | cloud subscriptions under connection events |
| `PrintIds` | the in-place rewriting of print ids |
| `Ftp` | the FTP control reader |
| `Registry` | the LAN TLS registry with its environment and state-file mirrors |
| `Bytes` | bytes, slices, `Option` |

Each component has specification functions over values, lemmas about them, and, where the source
changes state step by step, a class or loops whose methods are proved equal to those functions.
The specification functions of one component are tied to an independent partner: the parser to
the printer, the depacketiser to a packetiser, the scanner to the printer, the cutter to the
encoder, the assembler to the stream's own grouping, the hydrating reader to the writer. What a
text is taken for is stated in the terms of whoever writes it, with keys, codes and letters spelled out:
`JsonSpelling.ParsesIff`, `Session.SetupAcceptedIff`, `Upload.ParseInitIff`, `Ctrl.WireResultIff`,
`HeaderLine.NextLengthIff`, `Base64.DecodeIff`, `H264.ParseRtpIff`, `Splitter.SplitsWritten`.

Threads are modelled as interleavings of atomic steps, one per critical section, and more where
a section reads what changes outside its lock. Sockets, TLS,
the broker and files are inputs: arbitrary chunks, arbitrary outcomes.

Where the code and its documentation differ, the code is modelled:

- `recv_payload` returns the first of all frames it takes and drops the rest
  (`Session.RecvKeepsAllIff` has the exact condition, `Session.RecvLosesSecond` an input).
- Wrapping `{}` gives text that does not parse (`WireRoundTrip.WrapReadableIff`).
- A request whose send fails is gone (`Ctrl.WireIsPrefixIff`, `Ctrl.DroppedRequest`).
- A length that wraps the 32-bit sum with the header sends the frame cutter astray
  (`Wire.TameIff` has the exact condition, `Wire.WrappedHeader` and
  `Session.WrappedReplyDerails` inputs); nothing is claimed of a run after that.
- A reply that comes after a failed receive is taken for the answer to the next request
  (`Ctrl.AttributedIff` has the exact condition, `Ctrl.LateReply` an input); a receive that takes
  several replies can put that right again (`Ctrl.BehindIff`, `Ctrl.CatchUp`).
- A start on a tunnel that is not a LAN one, a connect, a shutdown and a reader of results hold no
  reference of their own, also while they run a callback (`FileTransfer.NoUseAfterDestroy` has the
  exact condition, `FileTransfer.CallbackReleases` and `FileTransfer.ConnectCallbackReleases` runs).
- A subscription added while the session is being torn down is silently left inactive
  (`Cloud.RoundCompleteIff`, `Cloud.AddDuringStop`). Stop, start and publish handle the client
  without the lock (`Cloud.TeardownSafeIff` has the exact condition, `Cloud.TeardownInsideRound`,
  `Cloud.TeardownInsidePublish` and `Cloud.ReplacedInsideRound` runs).
- A reply line of three digits and a blank ends an FTP reply whatever its code, which is looser
  than section 4.2 of RFC 959 (`Ftp.WholeReplyIff`, `Ftp.WholeReplyFails`).
- The registry's environment keys are not injective, so environment and registry agree exactly when
  addresses that share a key have equal entries (`Registry.RunAgrees`, `Registry.HydrationAgrees`;
  `Registry.SharedKeyHides` is an input).

## Model

| member | source | states |
|---|---|---|
| `Json.LessIsStrict` | src/json_lite.cpp:155-178 | Byte-string order of `std::map` keys: irreflexive, asymmetric, total |
| `Json.LessTransitive` | src/json_lite.cpp:155-178 | The key order is transitive |
| `Json.EmplaceSorted` | src/json_lite.cpp:169 | `emplace` keeps the members sorted and brings in nothing but the new one |
| `Json.EmplaceLookup` | src/json_lite.cpp:169 | `emplace` never overwrites: a key that is present keeps its value, an absent one gets the new one, all others are untouched |
| `Json.EmplaceAllSorted` | src/json_lite.cpp:169 | Inserting a sorted listing member by member gives that listing back |
| `Json.EmplaceAllLookup` | src/json_lite.cpp:169 | Of repeated keys the first one wins, for any listing |
| `JsonParser.Parser.SkipSpace` | src/json_lite.cpp:19-25 | The cursor stops at the first byte that is not white space |
| `JsonParser.Parser.Literal` | src/json_lite.cpp:37-44 | Consumes the literal exactly when it stands at the cursor, else leaves the cursor alone |
| `JsonParser.Parser.UnicodeEscape` | src/json_lite.cpp:65-111 | The in-place `\u` reader, surrogate pairs included, computes the specification's bytes, cursor and errors |
| `JsonParser.Parser.ParseStr` | src/json_lite.cpp:46-120 | The in-place string loop refines `Json.ParseString`: same text, same cursor, same error |
| `JsonParser.Parser.NumberRun` | src/json_lite.cpp:122-137 | The cursor stops where the greedy number run ends |
| `JsonParser.Parser.ParseNum` | src/json_lite.cpp:122-143 | Number parsing refines `Json.ParseNumber` with both errors |
| `JsonParser.Parser.ParseVal` | src/json_lite.cpp:145-208 | The recursive in-place parser refines `Json.ParseValue`: same value, same cursor, same error, for every text; it terminates on the bytes left |
| `JsonParser.Parser.MemberLoop` | src/json_lite.cpp:155-178 | The member loop refines `Json.ParseMembers` with its errors |
| `JsonParser.Parser.ElemLoop` | src/json_lite.cpp:179-196 | The element loop refines `Json.ParseElems` with its errors |
| `JsonParser.ParseText` | src/json_lite.cpp:213-230 | `parse` accepts exactly one value with white space around it and reports the same error as the specification |
| `JsonParser.EscapeText` | src/json_lite.cpp:325-351 | The appending loop of `escape` builds the specified text |
| `JsonParser.EscapeBodySnoc` | src/json_lite.cpp:330-348 | The escaped form grows byte by byte at its end, which is what the loop does |
| `JsonParser.Dump` | src/json_lite.cpp:268-323 | `dump` of every value whose numbers pass the integer guard (all integers up to 2^53 in magnitude and more) is the specified text |
| `JsonRoundTrip.EscapedByteReadsBack` | src/json_lite.cpp:46-120 | One escaped byte, of any value, is read back in one step that ends right behind it |
| `JsonRoundTrip.EscapeReadsBack` | src/json_lite.cpp:325-351 | `parse_string` undoes `escape` on every byte string, wherever it stands, and stops right behind it |
| `JsonRoundTrip.StodOfDecimal` | src/json_lite.cpp:290-300 | The decimal text of every integer reads as that integer |
| `JsonRoundTrip.IntegerReadsBack` | src/json_lite.cpp:122-143 | A printed integer is read back whole when what follows cannot extend it |
| `JsonRoundTrip.ValueReadsBack` | src/json_lite.cpp:145-208 | The text of every printable value, anywhere inside a text, parses to that value and the cursor stops exactly behind it |
| `JsonRoundTrip.ObjectReadsBack` | src/json_lite.cpp:155-178 | A printed object, anywhere inside a text, parses to that object and the cursor stops behind its brace |
| `JsonRoundTrip.ArrayReadsBack` | src/json_lite.cpp:179-196 | A printed array, anywhere inside a text, parses to that array and the cursor stops behind its bracket |
| `JsonRoundTrip.MembersReadBack` | src/json_lite.cpp:155-178 | A printed member listing, sorted or not, repeated keys included, parses to the map it leaves behind |
| `JsonRoundTrip.DumpParses` | src/json_lite.cpp:213-323 | `parse(dump(v))` is `v` for every printable value |
| `JsonRoundTrip.ParsedIsWellFormed` | src/json_lite.cpp:145-208 | Every parse result has sorted, distinct keys at every level |
| `JsonRoundTrip.ReprintParses` | src/json_lite.cpp:213-323 | Whatever text was accepted with integral numbers only, printing its value and parsing again gives the same value |
| `JsonRoundTrip.UnicodeEscapeReadsUtf8` | src/json_lite.cpp:65-111 | A `\u` escape of any scalar value, as a pair above U+FFFF, reads as its UTF-8 bytes |
| `JsonRoundTrip.Utf8Decodes` | src/json_lite.cpp:94-109 | The UTF-8 written is well formed, as short as can be, and the one RFC 3629 section 3 decodes to the same code point |
| `JsonSpelling.HexIff` | src/json_lite.cpp:65-76 | Four bytes read as a number exactly when they are its hexadecimal digits, in either case |
| `JsonSpelling.SpellingReadsBack` | src/json_lite.cpp:46-120 | One character, as it is, by any of the eight letters behind a backslash, or by code point, is one step of the scanner |
| `JsonSpelling.StringReads` | src/json_lite.cpp:46-120 | However a sender spells a string (section 7 of RFC 8259), choice by choice for every character, that string is read |
| `JsonSpelling.StringIsSpelled` | src/json_lite.cpp:46-120 | Every string that is read was spelled in one of these ways, halves of surrogate pairs that stand alone included |
| `JsonSpelling.NumeralReads` | src/json_lite.cpp:122-143 | Every decimal notation with sign, fraction and exponent reads as the number it denotes |
| `JsonSpelling.NumeralIsSpelled` | src/json_lite.cpp:122-143 | Every number that is read was written in such a notation and is the one it denotes |
| `JsonSpelling.WrittenReads` | src/json_lite.cpp:145-208 | A value with any spelling of its parts and any white space between them, wherever it stands, is read, and the parser stops behind it |
| `JsonSpelling.ValueIsWritten` | src/json_lite.cpp:145-208 | Every value that is read was written in one of these ways |
| `JsonSpelling.TextReads` | src/json_lite.cpp:213-230 | A whole text of one value with white space around it parses to that value |
| `JsonSpelling.ParsesIff` | src/json_lite.cpp:213-230 | `parse` gives a value for its texts, any spelling and any white space, and for nothing else |
| `JsonSpelling.TextIsStrict` | src/json_lite.cpp:325-351 | A printed text holds no control character as it is (section 7 of RFC 8259) |
| `JsonSpelling.IntegersPrint` | src/json_lite.cpp:274-286 | The integers that take the plain branch of `dump` are those up to 9223372036854774784 in magnitude |
| `Replies.LookupIff` | src/json_lite.cpp:250-258 | A key is found with a value exactly when the map lists them together |
| `Replies.AsIntIff` | include/obn/json_lite.hpp:57 | `as_int` of a number is the number without its fraction |
| `Replies.ReadsIff` | include/obn/json_lite.hpp:57-66 | A field read as an integer is the number under its key without its fraction, 0 when there is none |
| `Replies.ResultCodeIff` | src/tunnel_local.cpp:468-475 | The code of an object is its `result` without the fraction, wrapped to 32 bits, and -1 when that is no number |
| `Replies.WireCodeIff` | src/tunnel_local.cpp:468-475 | The code of a text is that of the object written in it, in any spelling, and -1 when there is none |
| `Wire.U32ReadsBack` | src/tunnel_local.cpp:22-36 | Little-endian 32-bit words survive writing and reading |
| `Wire.HeaderReadsBack` | src/tunnel_local.cpp:83-101 | `parse_frame_header` undoes `build_frame_header`, whatever follows |
| `Wire.HeaderLayout` | src/tunnel_local.cpp:83-92 | The sixteen bytes of a header: length, magic and sequence number with the lowest byte first, and four zeros |
| `Wire.TameIff` | src/tunnel_local.cpp:503-521 | Cutting a buffer copies every frame whole from inside it if and only if no header at a frame boundary announces 2^32-16 bytes or more |
| `Wire.DerailsIff` | src/tunnel_local.cpp:508-515 | The 32-bit sum of header and announced length passes the size test wrongly exactly for those lengths |
| `Wire.DerailedCopy` | src/tunnel_local.cpp:511-515 | In a buffer below 4 GiB the copy then ends behind the buffer |
| `Wire.WrappedHeader` | src/tunnel_local.cpp:511-515 | An input: a lone header that announces 2^32-16 bytes |
| `Wire.TameSplit` | src/tunnel_local.cpp:503-547 | Cutting early stays inside exactly when cutting everything at once does |
| `Wire.BodiesSplit` | src/tunnel_local.cpp:503-547 | As functions of the bytes, the frames cut from a stream in two parts with the leftover kept are those cut at once |
| `Wire.RestIsCut` | src/tunnel_local.cpp:503-547 | What stays buffered is a suffix of the input from which no whole frame can be cut |
| `Wire.ChunkIndependent` | src/tunnel_local.cpp:503-584 | However arrivals and extractions alternate: as long as no cut went astray, frames taken, frames buffered and leftover are those of the whole stream; and a cut went or will go astray exactly when the whole stream announces a length that wraps |
| `Wire.EncodedPrefixIncomplete` | src/tunnel_local.cpp:83-101 | No strict prefix of a built frame passes for a frame |
| `Wire.StreamReadsBack` | src/tunnel_local.cpp:503-521 | A stream of built frames yields exactly their bodies, leaves nothing, and is cut without a copy going astray |
| `Wire.CutInsideOneFrame` | src/tunnel_local.cpp:503-547 | A stream of built frames cut anywhere yields a prefix of the bodies, buffers a strict prefix of one frame, and no copy goes astray |
| `Wire.ConsumeFrames` | src/tunnel_local.cpp:503-521 | The index loop with its 32-bit sum takes exactly the complete frames and stops at the specified rest; it reports a copy going astray exactly when a header at a frame boundary wraps |
| `Wire.SplitJsonPrefix` | src/tunnel_local.cpp:156-202 | The brace-counting loop with its string and escape flags finds the specified end; behind it one blank line, LF or CR LF, is skipped and nothing more |
| `Wire.WrapCtrlAbi` | src/tunnel_local.cpp:126-143 | The trimming loops and the two prefix tests build the specified wrapping |
| `WireRoundTrip.ScanEscapedByte` | src/tunnel_local.cpp:165-190 | The scanner crosses every escaped byte inside a string without losing its place |
| `WireRoundTrip.ScanString` | src/tunnel_local.cpp:165-190 | The scanner crosses every escaped string, whatever quotes and braces it holds, and is outside strings again behind it |
| `WireRoundTrip.ScanValue` | src/tunnel_local.cpp:165-190 | The scanner crosses the text of every JSON value and is at the depth at which it began |
| `WireRoundTrip.ObjectEnds` | src/tunnel_local.cpp:156-202 | The scanner stops exactly at the closing brace of a printed object, whatever bytes follow |
| `WireRoundTrip.OpeningMeansKey` | src/tunnel_local.cpp:126-143 | A printed object starts with the `mtype` text exactly when its first key is `mtype` |
| `WireRoundTrip.WrappedText` | src/tunnel_local.cpp:126-143 | The wrapping of a printed object is, exactly, the object itself, the print-out of the listing with `mtype` in front, or the broken text for `{}` |
| `WireRoundTrip.SplitUndoesWrap` | src/tunnel_local.cpp:126-202 | For every object and every binary, newlines and braces at its start included, the splitter returns exactly the wrapped JSON and that binary |
| `WireRoundTrip.WrappedParses` | src/tunnel_local.cpp:126-143 | For every non-empty object the wrapped text parses to its members plus `mtype` 12289 |
| `WireRoundTrip.WrapReadableIff` | src/tunnel_local.cpp:126-143 | The wrapping parses if and only if the object is not empty |
| `WireRoundTrip.EmptyWrapRejected` | src/tunnel_local.cpp:138-140 | `{}` becomes text that `parse` rejects with "expected string" |
| `WireRoundTrip.OpeningsAre` | src/tunnel_local.cpp:126-143 | The texts looked for and put in front, character by character |
| `WireRoundTrip.TrimmedIs` | src/tunnel_local.cpp:128-133 | What is trimmed is white space of four kinds at the end, all of it and nothing more |
| `WireRoundTrip.WrapsAnyEnd` | src/tunnel_local.cpp:126-143 | White space behind an object is cut off when it is wrapped and stays when it leads with its type |
| `WireRoundTrip.OthersUnwrapped` | src/tunnel_local.cpp:138-142 | A text that does not start with a brace is not wrapped |
| `WireRoundTrip.ListingParses` | src/json_lite.cpp:155-178 | A printed listing with repeated keys parses to the map of first occurrences |
| `WireRoundTrip.MessagesReadBack` | src/tunnel_local.cpp:523-547 | A batch of commands with binaries comes back as the wrapped JSON texts, in order |
| `WireRoundTrip.MessagesSurviveCutting` | src/tunnel_local.cpp:503-584 | A batch of commands with binaries comes back as the wrapped JSON texts, in order, with nothing left over and no copy astray, however the transport cuts the byte stream |
| `Splitter.WrittenCrosses` | src/tunnel_local.cpp:165-190 | The scanner crosses every JSON value in any spelling and spacing and is at the depth at which it began |
| `Splitter.WrittenEnds` | src/tunnel_local.cpp:156-190 | It stops exactly at the closing brace of every JSON object, whatever follows |
| `Splitter.SplitsWritten` | src/tunnel_local.cpp:156-202 | For every object in any sender's spelling the splitter gives exactly that text and the binary: what follows a blank line, LF or CR LF, directly behind it, and all that follows when there is none |
| `Session.SetupParses` | src/tunnel_local.cpp:109-124 | The setup message, for any client id and version, parses to the members it was built from |
| `Session.SetupLayout` | src/tunnel_local.cpp:109-124 | The setup message is a text of the stated members, keys and numbers spelled out, with the client id or else the sequence number |
| `Session.LoginLayout` | src/tunnel_local.cpp:103-107 | The login payload byte by byte: two fields of eight bytes, cut or filled with zeros |
| `Session.Hex8Layout` | src/tunnel_local.cpp:639-644 | Without a client id the message names the sequence number in eight lower-case hexadecimal digits |
| `Session.SetupAcceptedIff` | src/tunnel_local.cpp:690-705 | A body opens the session exactly when it is, in any spelling, an object whose `mtype` without its fraction is 12291 and whose `result`, when it is a number, has nothing in front of its fraction |
| `Session.PrintedSetupIff` | src/tunnel_local.cpp:690-705 | The same for every object in the printer's own spelling |
| `Session.SetupDecides` | src/tunnel_local.cpp:684-712 | For every state and input: at most 32 reads are made, the call ends ready exactly when one of the bodies it has cut is an accepting reply, and it gives up early only on a read that brings nothing |
| `Session.BufferedSetup` | src/tunnel_local.cpp:684-712 | Of a buffer of whole frames: ready with an accepting reply among them, still waiting without |
| `Session.AckIff` | src/tunnel_local.cpp:624-631 | As long as no length wraps, what counts as a login reply is a complete frame with the magic 0x0001013F and nothing else |
| `Session.HandshakeCode` | src/tunnel_local.cpp:633-718 | The return code of every call is 0 when ready, -1 when failed, else 1 |
| `Session.HandshakeCompletes` | src/tunnel_local.cpp:633-718 | With a printer that answers both messages the session is ready in three calls |
| `Session.CutConserves` | src/tunnel_local.cpp:523-547 | Taking frames out of the buffer loses and invents no byte, and keeps the account of wrapped lengths: a cut went or will go astray exactly when the bytes received announce one |
| `Session.ReceiveConserves` | src/tunnel_local.cpp:567-584 | Appending a read keeps the same two accounts |
| `Session.AckIsFrame` | src/tunnel_local.cpp:624-631 | Unless its length wraps, what counts as a login reply is a complete frame |
| `Session.StepInv` | src/tunnel_local.cpp:549-840 | Every call keeps: sequence numbers, both accounts of the bytes, send order, a login reply really taken before setup, and `ready is earned` |
| `Session.StepPayloads` | src/tunnel_local.cpp:633-726 | Every call sends what its place asks for: a login payload first, then a setup payload that names its own sequence number or the client id, then wrapped commands |
| `Session.StepPhase` | src/tunnel_local.cpp:633-718 | A call moves the phase by at most one, or to Failed; Ready and Failed stay |
| `Session.RunIsSafe` | src/tunnel_local.cpp:549-840 | In every run: a cut has gone astray or will next exactly when the bytes received announce 2^32-16 bytes or more at a frame boundary; until then login is first and once, setup second, once, each with its own payload, and setup behind a login frame that heads the input and was taken, Ready only behind a body with `mtype` setup and a `result` that reads 0 (0 or absent), phases move forward by one or to Failed, and sequence numbers advance by one modulo 2^32 |
| `Session.WrappedReplyDerails` | src/tunnel_local.cpp:624-671 | An input: a lone header of the login reply's kind with a wrapping length passes for the reply, and the cut behind it goes astray |
| `Session.HandshakeSendsOnce` | src/tunnel_local.cpp:633-718 | While no cut went astray, login is attempted at most once, and nothing follows it before the login frame that heads the input was taken as the first body |
| `Session.RecvKeepsAllIff` | src/tunnel_local.cpp:815-840 | From every state and for every input `recv_payload` cuts some bodies, returns the first, leaves none buffered, fails exactly when there was none, and keeps everything if and only if there was at most one |
| `Session.RecvReads` | src/tunnel_local.cpp:815-840 | It reads until a body comes: code 0; without one 1 for a read that would block and -1 for a lost connection, everything read before that kept |
| `Session.RecvLosesSecond` | src/tunnel_local.cpp:819-834 | Two frames in one read: the first is returned, the second is gone |
| `Session.Tunnel.SendFrame` | src/tunnel_local.cpp:551-565 | New sequence number, bytes sent and return code, and nothing else changed |
| `Session.Tunnel.TryReadFrames` | src/tunnel_local.cpp:567-584 | Appends one read, reports want, data or loss |
| `Session.Tunnel.HandshakeStep` | src/tunnel_local.cpp:633-718 | The imperative step refines the handshake function, state, wrapped cuts and return code included, for any input |
| `Session.Tunnel.AwaitSetup` | src/tunnel_local.cpp:684-712 | The bounded polling loop refines its recursive specification |
| `Session.Tunnel.SendAbiJson` | src/tunnel_local.cpp:720-726 | Sends the wrapped command in a frame of the command magic |
| `Session.Tunnel.Recv` | src/tunnel_local.cpp:815-840 | The receive loop refines its specification, losses included |
| `Session.Tunnel.DrainPendingWireJson` | src/tunnel_local.cpp:809-813 | The extraction loop terminates after one productive pass, returns exactly the JSON parts of the buffered bodies and keeps the incomplete frame |
| `Upload.ParseInit` | src/tunnel_local.cpp:341-367 | An accepted init reply has a chunk of at least 1024 bytes and a 64-bit offset; its code is the 32-bit cast |
| `Upload.ParseInitIff` | src/tunnel_local.cpp:341-367 | A text grants a chunk size and an offset exactly when it is an object, in any spelling, with result 1 or 19, and under `reply` an object whose `chunk_size`, 32 bits wide and in units of 1024 bytes, is not zero, and whose `offset` is 64 bits wide |
| `Upload.InitReads` | src/tunnel_local.cpp:341-367 | For whole numbers in the printer's spelling: k and n give chunks of 1024 k bytes from offset n on |
| `Upload.InitRefused` | src/tunnel_local.cpp:341-350 | Any other result refuses the upload |
| `Upload.TilesForward` | src/tunnel_upload.cpp:549-614 | A tiling never runs backwards or past the file |
| `Upload.ChunksRebuild` | src/tunnel_upload.cpp:549-614 | Writing the chunks, each at its offset, over the existing prefix gives the file |
| `Upload.TilesAt` | src/tunnel_upload.cpp:549-614 | Chunk `i` has fragment id `i`, starts where the one before ended, and carries the digest exactly when it is the last and reaches the end |
| `Upload.HashPrefix` | src/tunnel_upload.cpp:525-547 | On success the digest has absorbed exactly the bytes before the resume offset, which is within the file |
| `Upload.NextChunk` | src/tunnel_upload.cpp:549-600 | One chunk: numbered, placed and filled from the file, no longer than the printer asked for, digest on the last one only; it comes about unless something goes wrong |
| `Upload.OneTurn` | src/tunnel_upload.cpp:549-614 | A turn keeps the loop invariant and always moves the file position forward |
| `Upload.SendChunks` | src/tunnel_upload.cpp:511-614 | For every file, offset and failure, and whenever the chunk size or the rest of the file is below 2^32, what was sent tiles the file from the offset, on success up to its end, and nothing but a failure prevents success; in every case no chunk is longer than asked for, the percentages reported are those reached, each once, strictly increasing within 0..100 and ending at 100, and the loop terminates |
| `Upload.PercentGrows` | src/tunnel_upload.cpp:601-612 | Percentages follow the offset and reach 100 exactly at the end |
| `Upload.AwaitFinal` | src/tunnel_upload.cpp:616-643 | Success exactly when within 32 replies, all before it with the code 1, one has the code 0 or 19, codes read from the texts |
| `Upload.RunUpload` | src/tunnel_upload.cpp:452-648 | A success had an init reply that grants a size and an offset and an accepting final reply; the first chunk starts at that offset, no chunk exceeds that size, and the chunks rebuild the whole file; with both replies and no failure of file, digest, connection or user the upload succeeds |
| `H264.RtpReadsBack` | stubs/rtsp_client.cpp:996-1023 | Any CSRC list, header extension, sequence number, source and padding bit: the parser recovers payload, timestamp and marker |
| `H264.ParseRtpIff` | stubs/rtsp_client.cpp:996-1023 | A packet is taken exactly when it has version 2, the track's payload type and a payload that is not empty, and then apart in the one way it was made |
| `H264.ExtensionReadsBack` | stubs/rtsp_client.cpp:1013-1019 | The extension's length field leads right behind it |
| `H264.StapReadsBack` | stubs/rtsp_client.cpp:1037-1055 | A STAP-A payload splits into its units, the marker on the last one only |
| `H264.StapStops` | stubs/rtsp_client.cpp:1037-1055 | An aggregate that goes on with something else than whole units yields the units in front of that, none of them marked as the last |
| `H264.FirstFragment` | stubs/rtsp_client.cpp:1066-1074 | A start fragment gives the same result from every earlier state |
| `H264.FragmentsReadBack` | stubs/rtsp_client.cpp:1056-1094 | The remaining fragments, of any sizes, complete the unit |
| `H264.FragmentedReadsBack` | stubs/rtsp_client.cpp:1056-1094 | A fragmented unit is queued whole from any earlier state: a new start resynchronises |
| `H264.UnitReadsBack` | stubs/rtsp_client.cpp:1025-1094 | A single unit, a STAP-A group or a fragmented unit is queued exactly, from any earlier state |
| `H264.PacketsAreTheirPayloads` | stubs/rtsp_client.cpp:996-1099 | Header noise does not reach the queue |
| `H264.DepacketisationInverts` | stubs/rtsp_client.cpp:996-1099 | For every list of units in any mix of single, STAP-A and FU-A packets the queue grows by exactly those units in order, bytes, timestamps and unit ends equal |
| `H264.OrphanFragmentsIgnored` | stubs/rtsp_client.cpp:1078-1082 | A middle or end fragment without a start changes nothing |
| `H264.UnknownIgnored` | stubs/rtsp_client.cpp:1056-1098 | Payloads of unknown types and fragments without their header change nothing |
| `H264.Client.DecodeRtpH264` | stubs/rtsp_client.cpp:996-1099 | The in-place decoder refines the specification for every byte string |
| `H264.Client.SplitStap` | stubs/rtsp_client.cpp:1037-1055 | The sub-unit loop appends exactly the specified units |
| `H264.Client.AppendFragment` | stubs/rtsp_client.cpp:1056-1094 | Fragment buffer, timestamp and flag change as specified |
| `HeaderLine.LettersLowered` | stubs/rtsp_client.cpp:230-234 | Every letter is put into its small form |
| `HeaderLine.KeyIff` | stubs/rtsp_client.cpp:228-244 | Trimmed and in lower case a name is `content-length` exactly when it is spelled so in any letter case with blanks around it |
| `HeaderLine.AtoiIff` | stubs/rtsp_client.cpp:369 | The number that a text starts with: blanks, a sign, digits by their places, then no digit; 0 when there is none |
| `HeaderLine.AtoiTrimmed` | stubs/rtsp_client.cpp:368-369 | Trimming does not change it |
| `HeaderLine.NextLengthIff` | stubs/rtsp_client.cpp:363-370 | A header line announces a length exactly when its name is `content-length` in whatever case and blanks, and then the number that the rest starts with; any other line leaves the length alone |
| `HeaderLine.ContentLengthReads` | stubs/rtsp_client.cpp:363-370 | Any spelling of the name, any blanks and any digits announce the number that the digits spell |
| `Demux.LineReadsBack` | src/tls_dial.cpp:371-395 | A line of legal length reads back from wherever reading began, its CR LF removed |
| `Demux.LineIs` | src/tls_dial.cpp:371-395 | For every stream: the text in front of the first line break if that comes within 8192 bytes, else a refusal after 8192 bytes, else the end |
| `Demux.HeadersReadBack` | stubs/rtsp_client.cpp:357-370 | A header block is consumed exactly, and the length is the one that the last announcing line spells |
| `Demux.TailReadsBack` | stubs/rtsp_client.cpp:355-383 | Headers and body are consumed exactly |
| `Demux.ResponseReadsBack` | stubs/rtsp_client.cpp:312-383 | Both readers of a response, the waiting one and the draining one, take exactly its bytes, and the code read is the number in its status line |
| `Demux.StatusIs` | stubs/rtsp_client.cpp:349-357 | In an ordinary status line that is the number its digits spell |
| `Demux.TailFails` | stubs/rtsp_client.cpp:357-383 | An announced body that is negative or above 65536 is refused, one that the stream does not hold ends it |
| `Demux.StatusFails` | stubs/rtsp_client.cpp:348-355 | A first line that is too short, of another protocol or without a code is refused, whatever follows |
| `Demux.LineFails` | src/tls_dial.cpp:371-395 | Without a line break the end of the stream is reported, and a refusal after 8192 bytes |
| `Demux.AwaitEnds` | stubs/rtsp_client.cpp:732-785 | Waiting ends well with the next response |
| `Demux.PullFails` | stubs/rtsp_client.cpp:923-994 | Unknown first bytes and empty frames are refused, frames cut short and the end are reported as the end |
| `Demux.FrameReadsBack` | stubs/rtsp_client.cpp:945-980 | An interleaved frame yields its channel and payload |
| `Demux.DecodeAllAppends` | stubs/rtsp_client.cpp:996-1099 | Decoding never looks at what is already queued |
| `Demux.PullConsumes` | stubs/rtsp_client.cpp:923-994 | One pull takes exactly one item of the stream, or reports the end |
| `Demux.AwaitConsumes` | stubs/rtsp_client.cpp:732-785 | Waiting for a response takes items up to and including one response, media decoded on the way |
| `Demux.ReadConsumes` | stubs/rtsp_client.cpp:1182-1193 | Reading a unit takes items until one is queued |
| `Demux.DemuxConserves` | stubs/rtsp_client.cpp:732-994 | For every stream of frames and responses and every sequence of the three calls, units handed out plus units queued are the decode of the channel-0 payloads consumed, in order; responses and other channels never matter |
| `Demux.CameraDelivers` | stubs/rtsp_client.cpp:732-1099 | End to end: whatever calls are made, the units handed out and then those queued are a prefix of the units the sender packetised, and all of them once the stream is used up |
| `Demux.Connection.NextLine` | src/tls_dial.cpp:371-395 | The byte-by-byte line reader refines its specification, seed byte included |
| `Demux.Connection.Response` | stubs/rtsp_client.cpp:312-383 | The response reader refines its specification with its error codes |
| `Demux.Connection.AwaitResponse` | stubs/rtsp_client.cpp:732-785 | The waiting loop refines its specification |
| `Demux.Connection.PullOneMessage` | stubs/rtsp_client.cpp:923-994 | The dispatcher refines its specification and consumes input |
| `Demux.Connection.ReadNextNalu` | stubs/rtsp_client.cpp:1182-1193 | The pull loop refines its specification and hands out the head of the queue |
| `Passthrough.QueueBounded` | stubs/rtsp_passthrough.cpp:29 | At most eight samples, plus the marker after the end, and the marker last |
| `Passthrough.StepQueueInv` | stubs/rtsp_passthrough.cpp:152-195 | Every producer or consumer step keeps the queue invariant |
| `Passthrough.RunQueueInv` | stubs/rtsp_passthrough.cpp:127-259 | In every interleaving, polls between the two flushes of one unit included, the queue is the samples whose fate is open, in flush order, then the marker until it is pulled last of all; a sample was dropped only with eight newer ones flushed |
| `Passthrough.PullDelivers` | stubs/rtsp_passthrough.cpp:238-259 | A poll hands out the oldest open sample |
| `Passthrough.FlushDropsIff` | stubs/rtsp_passthrough.cpp:152-159 | A flush drops a sample, the oldest, if and only if eight are waiting |
| `Passthrough.EndMarks` | stubs/rtsp_passthrough.cpp:178-195 | The end of the stream leaves the marker 0x100, an error 0x200, and the worker takes nothing more |
| `Passthrough.KeepsIff` | stubs/rtsp_passthrough.cpp:198-206 | Kept are all units but the empty ones and those of type 7 and 8 |
| `Passthrough.BoundaryHolds` | stubs/rtsp_passthrough.cpp:207-216 | A unit that arrives closes the open access unit exactly when its timestamp differs, and is then the one in hand |
| `Passthrough.AbsorbHolds` | stubs/rtsp_passthrough.cpp:212-231 | The unit in hand joins the open access unit, or opens one, and closes it when flagged |
| `Passthrough.AssemblyConserves` | stubs/rtsp_passthrough.cpp:120-232 | In every run, with polls at any moment, the samples flushed are the access units of the kept stream: one timestamp each, cut exactly where flag or timestamp says, parameter sets in front of every IDR, sync flag exactly with an IDR; the open unit and the worker's hand hold the rest; nothing is lost, repeated or reordered |
| `Passthrough.GroupingUnique` | stubs/rtsp_passthrough.cpp:198-231 | The stream alone decides its access units: the grouping is the only one |
| `Passthrough.Pass.FlushAu` | stubs/rtsp_passthrough.cpp:127-160 | The in-place flush with its drop loop refines the specification |
| `Passthrough.Pass.WriteUnit` | stubs/rtsp_passthrough.cpp:217-227 | Start codes, cached parameter sets and unit are appended in that order |
| `Passthrough.Pass.ReadUnit` | stubs/rtsp_passthrough.cpp:198-211 | First half of a turn: empty units and parameter sets are skipped, a change of timestamp flushes |
| `Passthrough.Pass.AddUnit` | stubs/rtsp_passthrough.cpp:212-231 | Second half: the unit is written, and flushed when it ends its access unit |
| `Passthrough.Pass.HandleNalu` | stubs/rtsp_passthrough.cpp:198-231 | An undisturbed turn is the two halves in order |
| `Passthrough.Pass.HandleEnd` | stubs/rtsp_passthrough.cpp:187-195 | The marker goes in whatever the fill |
| `Passthrough.Pass.TryPull` | stubs/rtsp_passthrough.cpp:238-259 | Takes the head and only the head |
| `AnnexB.EndReadsBack` | stubs/rtsp_passthrough.cpp:38-47 | A splitter on start codes finds the end of every unit that obeys emulation prevention |
| `AnnexB.UnitsReadBack` | stubs/rtsp_passthrough.cpp:38-47 | The splitter recovers every list of such units from their joined byte stream |
| `AnnexB.WrittenIsJoined` | stubs/rtsp_passthrough.cpp:217-227 | What one unit adds is the joined form of its pieces |
| `AnnexB.AuIsJoined` | stubs/rtsp_passthrough.cpp:198-231 | The bytes of an access unit are the joined form of its pieces |
| `AnnexB.SampleReadsBack` | stubs/rtsp_passthrough.cpp:38-47 | Splitting a sample on start codes recovers its units with the parameter sets in place |
| `Camera.KeptOfTaken` | stubs/rtsp_passthrough.cpp:197-232 | What the worker keeps is what it takes from the connection without parameter sets and empty units |
| `Camera.SamplesAreSent` | stubs/rtsp_passthrough.cpp:120-259 | End to end, from a fresh start: for every mix of packets and responses, every sequence of calls and every interleaving with the consumer, the samples split on start codes into the units that the sender packetised, in order, an IDR behind the parameter sets; with the open unit they are a prefix of what was sent, and all of it when the connection has handed out everything; the queue holds the newest of them |
| `Base64.EncodeBytes` | stubs/rtsp_client.cpp:84-114 | The three-byte loop and its tail cases build the specified text |
| `Base64.DecodeBytes` | stubs/rtsp_client.cpp:116-142 | The accumulator loop refines the specification with fewer than eight bits pending between characters |
| `Base64.WrapHarmless` | stubs/rtsp_client.cpp:134-139 | The 32-bit wrap of the accumulator never reaches the bits that are output |
| `Base64.GroupReadsBack` | stubs/rtsp_client.cpp:116-142 | Four letters restore three bytes and leave no bit pending, whatever the accumulator held |
| `Base64.EncodeDecodes` | stubs/rtsp_client.cpp:84-142 | Every encoded text decodes to its bytes from any accumulator at a byte boundary |
| `Base64.RoundTrip` | stubs/rtsp_client.cpp:84-142 | `base64_decode(base64_encode(x))` succeeds and is `x` for every byte string |
| `Base64.EncodeGroups` | stubs/rtsp_client.cpp:81-114 | Three bytes are four letters of the standard alphabet, the highest bits first; one or two bytes at the end are filled up with zeros and equals signs |
| `Base64.DecodeIff` | stubs/rtsp_client.cpp:116-142 | Against any sender: decoding succeeds exactly when the text is letters, blanks and line breaks up to the first equals sign, and gives the bytes that the letters spell |
| `Base64.SpaceIgnored` | stubs/rtsp_client.cpp:122-126 | Line breaks and blanks anywhere change nothing |
| `Ctrl.WakeOrder` | stubs/BambuSource.cpp:713-725 | Taking a request keeps the order of requests and replies |
| `Ctrl.ForwardOrder` | stubs/BambuSource.cpp:726-742 | Sending, or failing to send, keeps it |
| `Ctrl.ReceiveOrder` | stubs/BambuSource.cpp:743-754 | Receiving keeps it, whatever the receive loses |
| `Ctrl.WireResultIff` | stubs/BambuSource.cpp:698-707 | The result of a reply is that of the object, in any spelling, in front of the first blank line, whatever binary follows; -1 when there is none |
| `Ctrl.PrintedResult` | stubs/BambuSource.cpp:698-707 | The same for every object in the printer's own spelling, alone or in front of a binary |
| `Ctrl.ContinueWaits` | stubs/BambuSource.cpp:743-755 | The worker goes on waiting exactly when the object in the reply has the result 1 |
| `Ctrl.ReceiveAttribution` | stubs/BambuSource.cpp:743-755 | Of the answers that one receive takes the first is handed out and the rest are gone; it answers the request being served if and only if the printer owes no reply to an older one |
| `Ctrl.BehindIff` | src/tunnel_local.cpp:815-840 | When the printer owes a reply to a request that was given up: that begins only with a receive that fails while a reply is due, and ends only with one that takes the last of the older replies, or with a new session |
| `Ctrl.StepInv` | stubs/BambuSource.cpp:674-818 | Every step of caller or worker keeps the order of requests and replies, whatever comes in; and, when the answers come in the order of the requests, the grouping of replies by request |
| `Ctrl.RunInv` | stubs/BambuSource.cpp:674-1114 | In every interleaving requests leave the inbox in enqueue order with at most one being served; replies read, then the outbox, then the reply in hand are the replies received in order, at most one per turn that does not say `continue`; the worker runs only while channel and session are open; and, when answers come in the order of the requests, the replies to one request precede those to the next |
| `Ctrl.StopCloses` | stubs/BambuSource.cpp:808-818 | A channel asked to stop while its worker looks for work closes with its session |
| `Ctrl.AttributedIff` | stubs/BambuSource.cpp:743-755 | In every run, replies lost by the receive included, every reply was received in the turn of the request it answers if and only if none came in while an older request was due |
| `Ctrl.AwaitedIsTimely` | stubs/BambuSource.cpp:743-755 | A run in which no receive fails while a reply is due hands every reply to its own request, however many replies are lost |
| `Ctrl.LateReply` | stubs/BambuSource.cpp:743-746 | An input: a receive fails, and the reply comes in while the next request is served |
| `Ctrl.CatchUp` | src/tunnel_local.cpp:815-840 | An input: a receive fails, the next one takes two replies and loses the second, and the third request gets its own reply again |
| `Ctrl.OnWireShort` | stubs/BambuSource.cpp:726-742 | Requests on the wire are all those attempted exactly when no send failed |
| `Ctrl.WireIsPrefixIff` | stubs/BambuSource.cpp:726-742 | The wire is a prefix of the enqueue order, with the inbox as the rest, if and only if no send failed |
| `Ctrl.DroppedRequest` | stubs/BambuSource.cpp:739-742 | An input: of two requests the first send fails, and only the second is on the wire |
| `Ctrl.Tunnel.BambuSendMessage` | stubs/BambuSource.cpp:1093-1114 | Empty data and a closed channel are refused, other channel numbers ignored, else the request goes to the end of the inbox |
| `Ctrl.Tunnel.BambuReadSample` | stubs/BambuSource.cpp:998-1018 | Takes the oldest reply, or would block |
| `Ctrl.Tunnel.TakeRequest` | stubs/BambuSource.cpp:713-725 | Stop wins over a waiting request; else the head of the inbox is taken |
| `Ctrl.Tunnel.ForwardRequest` | stubs/BambuSource.cpp:726-742 | The request is dropped when there is no session or the send fails |
| `Ctrl.Tunnel.ReceiveReply` | stubs/BambuSource.cpp:743-755 | The first answer taken goes to the end of the outbox and its `result` decides whether to wait on |
| `Ctrl.Tunnel.ServeRequest` | stubs/BambuSource.cpp:726-755 | A whole turn is the stated run of steps, keeps the order, leaves no request outstanding and appends exactly the replies up to the first that does not say `continue` |
| `FileTransfer.CountsUpdate` | src/abi_ft.cpp:469-487 | A worker's step changes the references and results it owes by exactly its own share |
| `FileTransfer.NoUseAfterDestroy` | src/abi_ft.cpp:214-223 | A step touches no destroyed tunnel if and only if every tunnel it uses on its caller's reference (the rest of a connect, synchronous or not, and of a shutdown) is still held by a caller or worker; and no destroyed job under the same condition for a start on a tunnel that is not a LAN one and for reading a result |
| `FileTransfer.StartInv` | src/abi_ft.cpp:612-622 | Starting a job keeps the reference accounting |
| `FileTransfer.CallInv` | src/abi_ft.cpp:623-632 | So do the callback and the end of a start that is answered inside the call, which holds no reference |
| `FileTransfer.CallbackReleases` | src/abi_ft.cpp:623-632 | A run: the callback gives back the last reference, and the call then finishes a job that is gone |
| `FileTransfer.ConnectCallbackReleases` | src/abi_ft.cpp:491-518 | A run, for LAN tunnels and others: the connect callback gives back the last reference, and the call then reads the status callback of a tunnel that is gone |
| `FileTransfer.ActInv` | src/abi_ft.cpp:349-487 | So does every action of a worker |
| `FileTransfer.StepInv` | src/abi_ft.cpp:214-634 | Every step, borrowing calls included, keeps: counts are the references held by callers and workers, destroyed exactly when none is left and once, one result per started job delivered or still owed |
| `FileTransfer.RunIsSafe` | src/abi_ft.cpp:214-634 | In every interleaving of callers that give back only references they hold, as long as no step touched a destroyed object, the accounting stands, and the next step touches only live objects if and only if whatever it uses on its caller's reference is still held by somebody |
| `FileTransfer.AllDelivered` | src/abi_ft.cpp:277-309 | When its workers and calls are done, a job has delivered as many results as it was started, and is destroyed exactly when no caller holds it |
| `FileTransfer.CacheStays` | src/abi_ft.cpp:349-384 | A probed ability stays as it is, whatever happens |
| `FileTransfer.DecidesCached` | src/abi_ft.cpp:349-384 | An ability job decides for what its tunnel has cached after the decision, the probing job included, and for a failure when that is nothing |
| `FileTransfer.WorkerDelivers` | src/abi_ft.cpp:349-487 | A worker delivers one result: the answer, fresh or cached, for an ability job (7); success with the text for a download (4) and without for an upload (5) that went through, -5 when it was cancelled, else -3; only a fresh answer is remembered |
| `FileTransfer.StubDelivers` | src/abi_ft.cpp:623-632 | A start answered inside the call delivers -3 and marks the job finished behind the callback |
| `FileTransfer.AbilityAnswersAgree` | src/abi_ft.cpp:349-384 | In every run, whatever ability jobs have delivered for a tunnel is a failure or its one cached answer, which is not empty |
| `FileTransfer.AbilityJobsAgree` | src/abi_ft.cpp:349-384 | In every run the probing job and every ability job that decides after it delivers the same cached answer |
| `FileTransfer.FtTunnel.Release` | src/abi_ft.cpp:215-218 | One reference less, deletion on the last one |
| `FileTransfer.FtTunnel.RunAbility` | src/abi_ft.cpp:349-384 | Cached, probed and failed queries as the specification decides |
| `FileTransfer.FtJob.Release` | src/abi_ft.cpp:220-223 | One reference less, deletion on the last one |
| `FileTransfer.FtJob.DeliverResult` | src/abi_ft.cpp:277-309 | Records the result, marks the job finished, delivers it once |
| `FileTransfer.FtJob.FinishStub` | src/abi_ft.cpp:629-632 | Marks the job finished with the failure code and delivers nothing |
| `Cloud.StepInv` | src/cloud_session.cpp:81-310 | Every step, each a part of a call between two looks at what changes without the mutex, keeps: active within wanted, a running round's missing ids are those to do and those failed, a settled connection misses only reported ids |
| `Cloud.RunInv` | src/cloud_session.cpp:81-310 | In every interleaving the wanted set is the fold of adds and deletes (up to a deletion under way), whatever the connection did, and every active id was accepted by the broker since the last clear |
| `Cloud.RoundCompleteIff` | src/cloud_session.cpp:266-293 | At the end of a round every wanted id that is not active was reported as failed, if and only if the round found a client or nothing was missing; a round that found one reports nothing else |
| `Cloud.SubscribeDecides` | src/cloud_session.cpp:275-286 | An id is reported exactly when the broker refused it and active exactly when it accepted |
| `Cloud.HandlerRoundComplete` | src/cloud_session.cpp:120-131 | A connect handler's round always finds its client and is complete |
| `Cloud.AddDuringStop` | src/cloud_session.cpp:229-252 | A run: connected, client reset by stop, flag still up: an id added then is neither subscribed nor reported |
| `Cloud.TeardownSafeIff` | src/cloud_session.cpp:81-310 | A stop that resets the client, or a start that puts a new one over it, makes some next step undefined if and only if somebody counts on the client at that moment: a round with ids to do, an unsubscribe, a publish that has looked, a start or another stop |
| `Cloud.TeardownInsideRound` | src/cloud_session.cpp:229-286 | A run from the start: the client is reset between the look at it and the subscribe of an added id, whose next step then goes through it |
| `Cloud.TeardownInsidePublish` | src/cloud_session.cpp:229-310 | A run from the start: the client is reset between the look of a publish and its use |
| `Cloud.ReplacedInsideRound` | src/cloud_session.cpp:81-118 | A run from the start: a new client is put over the one that a round is using |
| `Cloud.CarefulRunIsDefined` | src/cloud_session.cpp:81-310 | A run in which nobody counts on the client whenever it is reset or replaced uses no client that is gone |
| `Cloud.CloudSession.ApplySubscriptions` | src/cloud_session.cpp:266-293 | Undisturbed, the two loops subscribe exactly the missing ids and return exactly the failed ones |
| `Cloud.CloudSession.AddSubscribe` | src/cloud_session.cpp:241-252 | An undisturbed call is a run of steps: non-empty ids join the wanted set, on a live connection the missing ones are subscribed, and all that stay inactive are reported if and only if there is a client or none was missing |
| `Cloud.CloudSession.DelSubscribe` | src/cloud_session.cpp:254-264 | An undisturbed call is a run of steps: ids leave both sets, and exactly the active ones among them are unsubscribed |
| `Cloud.CloudSession.OnConnect` | src/cloud_session.cpp:120-131 | An undisturbed handler is a run of steps: the flag is up, exactly the accepted ids are active, exactly the refused ones reported |
| `Cloud.CloudSession.OnDisconnect` | src/cloud_session.cpp:147-164 | Drops the flag, then empties the active set; wanted ids stay |
| `Cloud.CloudSession.Publish` | src/cloud_session.cpp:295-310 | An undisturbed publish succeeds exactly with a client, the flag up and an accepting broker, and is a look followed by a use |
| `Cloud.CloudSession.Stop` | src/cloud_session.cpp:229-239 | Idempotent; wanted ids survive it |
| `PrintIds.NoMatchAcross` | src/agent.cpp:205-224 | No key match starts in front of a replaced value and reaches into it |
| `PrintIds.NoMatchInside` | src/agent.cpp:205-224 | No key match starts inside a replaced value: the first match is that of what follows, moved by its length |
| `PrintIds.FindAround` | src/agent.cpp:205-224 | The first match of a key does not depend on what fills a replaced value, but for its offset |
| `PrintIds.ValueStays` | src/agent.cpp:182-201 | A value in front of another key is read the same whatever comes behind that key |
| `PrintIds.MatchesApart` | src/agent.cpp:182-224 | Matches of different keys never overlap |
| `PrintIds.PeekReads` | src/agent.cpp:182-201 | A field is read from its first occurrence: the name in quotes, a colon, any blanks, and the text up to the next quote |
| `PrintIds.RealNameIff` | src/agent.cpp:279-280 | A name is real when there is one that is neither empty nor `-1` |
| `PrintIds.PatchShape` | src/agent.cpp:205-224 | A patch exchanges an empty or "0" value for the new one and changes no other byte |
| `PrintIds.PatchTouchesIff` | src/agent.cpp:205-224 | A patch happens if and only if the key peeks as empty or "0" |
| `PrintIds.PatchedReads` | src/agent.cpp:182-224 | After a patch its key, when it was vacant, reads as the new value, and every other key reads as before |
| `PrintIds.RewriteReads` | src/agent.cpp:270-289 | What any key reads as afterwards: with a real name a vacant project or profile id is `lan`, a vacant task or subtask id the synthetic id, everything else as before |
| `PrintIds.RewriteComplete` | src/agent.cpp:270-289 | For every payload with a real name none of the four ids peeks as empty or "0" afterwards, and the name is as before |
| `PrintIds.KeysAre` | src/agent.cpp:270-289 | The keys and texts, character by character |
| `PrintIds.IdLooks` | src/agent.cpp:248-260 | A synthetic id is `lan-` and the hash of name, byte 1 and version in eight lower-case hexadecimal digits |
| `PrintIds.HashIs` | src/agent.cpp:229-234 | The hash gives the published values of FNV-1a for three texts |
| `PrintIds.RewriteIdempotent` | src/agent.cpp:270-289 | A second rewrite changes nothing, for any version |
| `PrintIds.StandsClear` | src/agent.cpp:205-224 | A vacant value never overlaps one that was put in before |
| `PrintIds.RewriteLocal` | src/agent.cpp:270-289 | With a real name the rewrite exchanges exactly one value for every vacant id, standing behind its key and overlapping no other, `lan` for project and profile, the synthetic id for task and subtask, and every byte outside these values stays; without one nothing changes |
| `PrintIds.JsonPeekStringField` | src/agent.cpp:182-201 | The scanning loops refine the specification |
| `PrintIds.PatchStringZeroTo` | src/agent.cpp:205-224 | The patch on indices refines the specification |
| `PrintIds.PatchesTouchIff` | src/agent.cpp:270-289 | Each of the four patches happens exactly when its own key was vacant at the start |
| `PrintIds.TryRewritePrintIds` | src/agent.cpp:270-289 | New payload as specified; the flag says exactly whether the name is real and some id was vacant, and without it nothing changed |
| `Ftp.LineReadsBack` | src/ftps.cpp:290-306 | A line reads back without its newline and at most one CR, whatever follows |
| `Ftp.EndsReplyIff` | src/ftps.cpp:322-329 | A line ends a reply with a code exactly when it is three digits, a blank and any text, and the code is what the digits spell |
| `Ftp.ReplyReadsBack` | src/ftps.cpp:310-335 | A reply is consumed exactly through the first line of three digits and a blank, its code and text are returned, and every later byte stays |
| `Ftp.TextsJoin` | src/ftps.cpp:318-319 | The text of a reply is its lines with line breaks between them, empty ones at the start left out |
| `Ftp.NoReplyYet` | src/ftps.cpp:310-335 | As long as no whole line ends it there is no reply |
| `Ftp.WholeReplyIff` | src/ftps.cpp:322-329 | A whole multi-line reply is consumed if and only if no earlier line looks like an end |
| `Ftp.WholeReplyFails` | src/ftps.cpp:322-329 | An input: `220-a`, `331 b`, `220 c` ends at the second line with code 331 |
| `Ftp.NewlineStays` | src/ftps.cpp:290-306 | More input never moves the first newline |
| `Ftp.Client.ReadLine` | src/ftps.cpp:290-306 | For every cutting of the stream into reads, the line and the bytes left are those of the whole stream |
| `Ftp.Client.ReadReply` | src/ftps.cpp:310-335 | For every cutting of the stream into reads, code, text and bytes left are those of the whole stream; -1 when it ends first |
| `Ftp.Client.SendCmd` | src/ftps.cpp:339-360 | A failed write reads nothing; otherwise the next reply is returned |
| `Registry.BodyHydrates` | src/lan_tls.cpp:116-156 | Applying the written lines one by one sets exactly their entries |
| `Registry.RenderHydrates` | src/lan_tls.cpp:139-205 | Applying the whole state file, its comment line included, sets exactly the written entries |
| `Registry.HeaderIs` | src/lan_tls.cpp:158-170 | The comment that heads the file |
| `Registry.KeysAre` | include/obn/lan_tls_env.hpp:23-52 | The names of the variables, dots of an address as underscores |
| `Registry.LineApplies` | src/lan_tls.cpp:116-126 | A line of the file sets its variable exactly when that is the directory's or one of the registry's own |
| `Registry.OtherLines` | src/lan_tls.cpp:116-126 | Comments, empty lines and lines without a value set nothing |
| `Registry.FileApplies` | src/lan_tls.cpp:139-156 | Any file is applied line by line, the last line with or without a break |
| `Registry.AppliedEntries` | src/lan_tls.cpp:116-126 | A key answers the value of one of its entries, or what it answered before when it has none |
| `Registry.AgreesIff` | include/obn/lan_tls_env.hpp:34-52 | An environment that shows under each key the entry of some address with that key answers for the registry if and only if addresses that share a key have equal serials and peers |
| `Registry.CaAgrees` | src/lan_tls.cpp:280-292 | Setting the CA keeps the mirrors: every key shows the entry of some address with that key, and the file renders the registry |
| `Registry.SerialAgrees` | src/lan_tls.cpp:294-303 | Putting a serial keeps them, whatever keys the addresses share |
| `Registry.PeerAgrees` | src/lan_tls.cpp:305-320 | Putting or erasing a peer certificate keeps them |
| `Registry.DirAgrees` | src/lan_tls.cpp:234-278 | Changing the directory keeps them, in whatever order the variables are set again |
| `Registry.SyncedEnv` | src/lan_tls.cpp:234-240 | Setting every variable again, in any order, leaves every key showing the entry of some address with that key |
| `Registry.RunAgrees` | src/lan_tls.cpp:207-320 | After every sequence of calls the state file is a rendering of the registry, every key shows the entry of some address with that key, and the environment answers for exactly the registry, erased peers empty, if and only if addresses that share a key have equal entries |
| `Registry.RunHolds` | src/lan_tls.cpp:268-320 | After every sequence of calls the registry holds the path, directory, serials and peers given last |
| `Registry.SharedKeyHides` | include/obn/lan_tls_env.hpp:34-52 | An input: two addresses that differ only in dots and underscores share a variable, and the later serial hides the earlier |
| `Registry.HydrationAgrees` | src/lan_tls.cpp:116-205 | A reader that applies the state file, starting empty or from the writer's own environment, answers for exactly the registry if and only if addresses that share a key have equal entries |
| `Registry.Registry.WriteStateFile` | src/lan_tls.cpp:158-205 | The loops over both maps, in any order, write a rendering of the registry, and nothing without a directory |
| `Registry.Registry.SyncRegistry` | src/lan_tls.cpp:234-240 | Sets exactly the registry's variables, empty ones included, in some order, then writes the file |
| `Registry.Registry.SetConfigDir` | src/lan_tls.cpp:268-278 | The same directory changes nothing; a new one is stored, exported when not empty, all variables are set again and the file is written there |
| `Registry.Registry.SetCaFile` | src/lan_tls.cpp:280-292 | The same path changes nothing; a new one reaches registry, environment and file |
| `Registry.Registry.PutIpSerial` | src/lan_tls.cpp:294-303 | Empty arguments and an equal serial change nothing; else registry, environment and file take it |
| `Registry.Registry.SetPeerCert` | src/lan_tls.cpp:305-320 | An empty path erases an entry that is there, another one is stored; environment and file follow |

## Left out

- Wire.ConsumeFrames: a cut that goes astray is reported and ends the loop; what the source does behind it is undefined and not modelled.
- Wire.StreamReadsBack: asks for bodies shorter than 2^32-16 bytes, which is what a 32-bit length field can announce without a wrap.
- JsonParser.Parser.ParseNum: numbers are exact reals; rounding to binary64, its range error, and the exotic forms `std::stod` accepts beyond decimal text are not modelled.
- JsonParser.Dump: the 17-digit text of numbers that fail the guard of the integer branch (fractions, magnitudes near 2^63 and above) is not modelled, hence the precondition.
- JsonRoundTrip.DumpParses: for the same reason it speaks of values whose numbers print as integers.
- Numbers outside 64 bits read through `as_int`: taken as their floor.
- Session.RunIsSafe: commands are sent and received on a ready session only, as the callers do; the lock around TLS calls is not modelled.
- Upload.SendChunks: with chunks and a rest of 2^32 bytes and more the chunk length is cut to 32 bits in the message, so only progress, order and termination are claimed there; the JSON of the chunk messages and the values of the digest are not modelled, the digest is the bytes absorbed.
- Upload.RunUpload: waiting times and replies drained before the init request are not modelled; the progress list is the chunk loop's, without the 100 that a success reports once more; missing request fields are not modelled; success is not claimed when chunk size and rest both reach 2^32.
- Upload.ParseInit: the optional fields of the reply that only go to the log are not modelled.
- H264.DepacketisationInverts: the source does not look at the padding bit or at sequence numbers, so padding counts as payload and packets are taken in the order given.
- H264.RtpReadsBack: masks and shifts are written as divisions and remainders of the same powers of two.
- Demux.DemuxConserves: runs stop at the first error; what an object still does after an error, the digest challenge of a response and the kept list of headers are not modelled; `atoi` is unbounded.
- Demux.Connection.Response: which bytes a read that fails has consumed is not stated; nor is it by the three calls below, whose runs stop there.
- Demux.Connection.AwaitResponse: as above.
- Demux.Connection.PullOneMessage: as above.
- Demux.Connection.ReadNextNalu: as above.
- JsonRoundTrip.ReprintParses: speaks of texts whose numbers are integral and pass the integer guard, for the reason given at `JsonParser.Dump`.
- Passthrough.AssemblyConserves: the wall-clock stamp of a sample is not modelled; parameter sets on the wire are skipped before their end-of-unit flag is looked at, as in the source.
- Ctrl.AttributedIff: the printer answers the requests of a session in order, each with any number of `continue` replies and one other; the order results (`Ctrl.RunInv`) need none of that.
- Ctrl.Tunnel.ForwardRequest: a send that fails half-way is taken as nothing sent.
- Ctrl.Tunnel.BambuReadSample: the video branch of the same entry point is not modelled.
- FileTransfer.RunIsSafe: behind a step that touched a destroyed object the run is undefined in the source and not continued here; of a transfer only its end and its text are modelled, not its progress, binary or wire code; cancellation appears as an end of the transfer; the locks are not modelled, and of a shutdown and a result reader only what they touch is.
- Cloud.RunInv: user callbacks are not modelled; stop waits for a running handler, a forced cancellation of the client's thread inside one is not modelled; of `start` only the flag, the client and its connect are.
- PrintIds.RewriteComplete: FNV-1a is modelled, the map of synthetic subtasks and its eviction are not.
- Registry.RunAgrees: writes succeed, and so does every `setenv`, so addresses hold no `=` and values no NUL; the iteration order of the maps is arbitrary.
- Registry.HydrationAgrees: asks for values and addresses a line can carry; the list of directories a reader searches is not modelled.
- The download path, listings and thumbnails of the tunnel: replies are dispatched field by field, which would only add easy members.
- SDP parsing, URL parsing, remote-name sanitising, AMS mapping, version comparison: one-pass string helpers.
- Digest authentication, certificate checks, TLS, sockets, the MQTT client: foreign calls and security claims.
- The cloud REST modules, logging, configuration files, the cover server, platform glue: no logic of the kind proved here.
