# fritz2ci: a verified model

fritz2ci listens to the call notices of a Fritz!Box, looks up where a call comes from and who
calls, records it, and tells connected clients. This project models five parts of it in Dafny
and proves what they promise.

* **The CIDB wire protocol.** `Machine`, `CStrings`, `Tables`, `TableCodec`, `Messages`,
  `Headers`, `MessageCodec`, `WireFormat`, `Fragments`, `Connection`, `Reassembly`, `Reception`,
  `EndToEnd`. The grammar
  documented beside the command codes is a function from command and direction to a list of
  fields (`Messages.Layout`). The sizing switch, the writing switch and the reading switch are
  methods over mutable buffers, each proved against that grammar; the round trip is proved once,
  by induction over field lists, and carried through cutting, sending, reassembly and reading.
  `WireFormat` spells out, command by command, which bytes are written and which message is read;
  `Reception` says when a message is received at all.
* **Area codes.** `TextFiles`, `AreaCodes`, `AreaLookup`. The index of 100 offsets and the
  early-exit scan against a plain scan of the whole file.
* **The broadcast server.** `Broadcast` is a state machine whose steps are the regions under the
  client-list lock, of two threads in any interleaving; `Listener` says when the server listens at
  all; `BroadcastServer` is the server object, whose methods are proved to be these steps.
* **The call pipeline.** `CallPipeline`: the broadcasts and the record of every call over whole
  runs. `Announcements` joins it to the server in one history of both threads:
  what each client is told of the calls; `CallRecords` says what each notice is told as.
* **Lookup text and cache.** `UrlText`, `CallerCache`.

How the C code is represented:

* Integers carry their C range as a subset type, so every assignment proves that nothing wraps;
  where the code may wrap (`strlen` cut to 16 bits, `rowidx`, the sizes, `bytes_read`) the wrap is
  written out.
* A string pointer is never assigned, null, or a block of bytes. Memory from `malloc` holds
  anything: cells are `Uninit` until written, blocks are universally quantified (`junk`).
* The theorems quantify over strings of every length and content. A string travels up to its
  first NUL and up to its length modulo 65536, and the normal form says so.
* A socket hands over one whole part per `recv`. `send` may take any part of the data or fail.
* A text file is read through `fgets` with a 256-byte buffer; the area theorems are about the
  records that reading yields, and `RecordsAreLines` says when these are the lines.

Where the code does not do what its documentation says, the model follows the code:

* The reader of a written table gets its cells back if and only if the index of the last row fits
  the unsigned short `rowidx` (`Tables.ReadBackIsNorm`, `EndToEnd.WideTableIsLost`).
* `cidbmsg_write_message` stays inside the block it sized if and only if a DELETE_CALLER query has
  at most two strings and a DESCRIBE_TABLE query has a list (`Messages.SwitchesAgree`,
  `EndToEnd.ThirdStringOverflows`, `EndToEnd.NullListOverflows`).
* A code on the first line of the area file cannot be found through the index, because offset 0
  means "unset" (`AreaCodes.LookupExact`, `AreaCodes.FirstLineMatters`). The shipped file's first
  line carries no code.
* Expanding a url ends if and only if `%NUMBER%` is its only placeholder; any other one is never
  left behind (`UrlText.SecondPassEnds`).
* The early exit needs each slot of the index in order up to each of its codes, and nothing else
  of the order (`AreaCodes.EveryNumberFound`). `share/vorwahl.dat` breaks it in slot 90, at lines
  4685-4693, so that codes behind the first lines of that slot are not found
  (`AreaCodes.OrderMatters`).
* A disconnect gives the listening socket up, and only `cisrv_init` makes one: a server that is
  started again reports success and never listens (`Listener.ListensExactly`,
  `Listener.RestartIsDeaf`).

`dafny verify dfyconfig.toml` checks the project.

## Model

| member | source | states |
|---|---|---|
| Machine.Get16OfLE16 | cidbmessages.h:95-114 | a 16-bit value written anywhere in a buffer is read back |
| Machine.Get32OfLE32 | cidbmessages.h:101-116 | a 32-bit value written anywhere in a buffer is read back |
| Machine.LEOfGet | cidbmessages.h:95-116 | what is read from a buffer encodes to the very bytes it was read from |
| Machine.SetUchar | cidbmessages.h:90-93 | changes the one byte and nothing else |
| Machine.SetUshort | cidbmessages.h:95-99 | changes the two bytes to the encoding and nothing else |
| Machine.SetUlong | cidbmessages.h:101-107 | changes the four bytes to the encoding and nothing else |
| CStrings.NormPtrIdentity | cidbmessages.c:203-241 | a string survives travelling unchanged iff it is not null, NUL-free and shorter than 65536 |
| CStrings.ParseEncStr | cidbmessages.c:203-241 | reading a written string gives its wire text and takes the bytes written, for every string and whatever follows |
| CStrings.ParseEncStrs | cidbmessages.c:109-125 | the same for any list of strings |
| CStrings.WireTextOfNorm | cidbmessages.c:203-241 | travelling twice is travelling once |
| CStrings.SetStrlen | cidbmessages.c:303-314 | writes the one- or three-byte length prefix, escape at 255, and returns its size |
| CStrings.GetStrlen | cidbmessages.c:286-295 | inverts the length prefix |
| CStrings.WriteString | cidbmessages.c:203-214 | writes exactly the encoded string, leaves every other byte, returns its size |
| CStrings.ReadString | cidbmessages.c:221-241 | returns the string the buffer encodes there and its size |
| CStrings.ReadChars | cidbmessages.c:322-334 | copies the characters of a string of known length |
| Tables.ParseEncTable | cidbmessages.c:87-196 | reading a written table, whatever follows it, takes exactly the bytes written and places each row at its `rowidx` |
| Tables.ReadBackIsNorm | cidbmessages.c:87-196 | the table read is the one written (dimensions, names, row-major cells, null as empty) iff the last row's index fits 16 bits |
| Tables.NormTableStable | cidbmessages.c:87-196 | the table's normal form is a fixed point and encodes to the same bytes |
| TableCodec.ReadCells | cidbmessages.c:109-125 | one pass of the cell loops stores exactly the parsed strings and counts their bytes |
| TableCodec.ReadTable | cidbmessages.c:87-127 | the loops return the table the buffer encodes and the bytes read |
| TableCodec.TableGetSize | cidbmessages.c:133-155 | equals the size of what is written, modulo 2^32, for every table |
| TableCodec.WriteTable | cidbmessages.c:163-196 | writes exactly the encoded table, leaves every other byte, returns its size |
| Messages.SwitchesAgree | cidbmessages.c:359-541 | the writing switch stays inside the sized block iff DELETE_CALLER queries have at most two strings and DESCRIBE_TABLE queries a list; it fills the block iff that query has two |
| Messages.ParseEncField | cidbmessages.h:7-88 | each field kind reads back as written, whatever follows |
| Messages.ParseEncFields | cidbmessages.h:7-88 | so does any list of fields |
| Messages.CarryIsNorm | cidbmessages.c:708-855 | what the fields carry over is the normal form iff the rows of a carried table fit |
| Messages.MessageRoundTrip | cidbmessages.c:342-855 | decoding what was written, with any rest of the block, gives the normal form iff the rows of a carried table fit |
| Headers.ParseHeaderBytes | cidbmessages.c:17-56 | a header read from its 22 bytes is the header written |
| Headers.HeaderBytesOfParse | cidbmessages.c:17-56 | and 22 bytes are the encoding of the header read from them |
| Headers.PrepareHeader | cidbmessages.c:17-33 | writes the header's 22 bytes and nothing else |
| Headers.ReadHeader | cidbmessages.c:40-56 | returns the header that the buffer starts with |
| MessageCodec.SizeQuery | cidbmessages.c:359-541 | the query branches of the sizing switch compute the documented size modulo 2^32 |
| MessageCodec.SizeResponse | cidbmessages.c:359-541 | the response branches of the sizing switch compute the documented size modulo 2^32 |
| MessageCodec.SizeTwoStrings | cidbmessages.c:470-485 | a DELETE_CALLER query is sized from its first two strings |
| MessageCodec.WriteQuery | cidbmessages.c:561-701 | the query branches of the writing switch put the documented bytes at the start of the block and nothing behind them |
| MessageCodec.WriteResponse | cidbmessages.c:561-701 | the response branches of the writing switch put the documented bytes at the start of the block and nothing behind them |
| MessageCodec.PutStrings | cidbmessages.c:637-641 | the `pos` loop writes the encoded list and ends behind it |
| MessageCodec.WriteMessage | cidbmessages.c:342-702 | header, block size and block contents of a written message; a refused command leaves block and size alone |
| MessageCodec.ReadStrings | cidbmessages.c:793-799 | the list loop returns the strings the block encodes |
| MessageCodec.ReadQuery | cidbmessages.c:722-854 | the query branches of the reading switch decode the documented grammar |
| MessageCodec.ReadResponse | cidbmessages.c:722-854 | the response branches of the reading switch decode the documented grammar |
| MessageCodec.ReadMessage | cidbmessages.c:708-855 | returns the decoded message; an unknown command or subcommand gives the zeroed one |
| Fragments.PartBounds | cidbmessages.c:248-278 | parts are contiguous, inside the data, at most 2026 bytes, and only the last one ends it |
| Fragments.PartsTile | cidbmessages.c:248-278 | parts tile the data: every byte in exactly one, payloads concatenate to the data, packets of 22 to 2048 bytes |
| Fragments.Transmission.Start | cidbmessages.c:248-258 | produces part 0 and the transmission state behind it |
| Fragments.Transmission.Continue | cidbmessages.c:265-278 | produces the next part, or 0 iff all parts are out |
| Connection.SendMessage | cidbconnection.c:20-36 | on success exactly the message's parts went out in order; on failure some first parts and at most a proper prefix of the next |
| Connection.SendParts | cidbconnection.c:28-35 | the send loop terminates and sends each part once, up to a refusal |
| Connection.CollectParts | cidbconnection.c:65-74 | the receive loop places each part by its offset and counts bytes with 32-bit wrap |
| Connection.RecvMessage | cidbconnection.c:43-81 | fails exactly when the peer closes or undercuts a header too early, else returns the message the collected block encodes |
| Reassembly.TotalOfPermutation | cidbconnection.c:59-74 | the byte count does not depend on the order of arrival |
| Reassembly.CollectShuffled | cidbconnection.c:65-74 | the loop invariant of reassembly over any order of the parts |
| Reassembly.AnyOrder | cidbconnection.c:55-76 | any permutation of the parts ends with the original data, the full count, the same identifying header fields, and leaves later packets alone |
| Reception.ReceivesExactly | cidbconnection.c:43-81 | a message is received iff some first packets have a header each and announce, in 32 bits, as many bytes as the first says; what is left of the packets in either case |
| Reception.LackingFails | cidbconnection.c:65-69 | a message that lacks a part, followed by nothing or a packet without a header, is not received |
| Reception.ReceiveLacking | cidbconnection.c:43-81 | `RecvMessage` returns 1 on such an arrival |
| WireFormat.LittleEndian | cidbmessages.h:95-116 | numbers travel with their low byte first |
| WireFormat.StringFormat | cidbmessages.c:203-241 | one length byte below 255, else a 255 and two, then the characters up to the NUL, their number modulo 65536; the reader gets those |
| WireFormat.TableFormat | cidbmessages.c:163-196 | row and column count, column names, then the rows; in row-major order iff the last row index is at most 65535 |
| WireFormat.RowFormat | cidbmessages.c:181-193 | a row's cells are those from its index, cut to 16 bits, on |
| WireFormat.TableNorm | cidbmessages.c:87-127 | the table read has the same dimensions, names and cells |
| WireFormat.Kinds | cidbmessages.h:7-88 | the commands 0x01 to 0x0b as query 0x80 or response 0x81 are known; LISTEN is written with any subcommand |
| WireFormat.UnknownKind | cidbmessages.c:708-720 | nothing is read into a message of an unknown kind |
| WireFormat.PlainQuery | cidbmessages.h:9-77 | REGISTER, SHOWTABLES and LIST_INFO queries: no data |
| WireFormat.CallerListQuery | cidbmessages.h:16-21 | user id, filter; as written and as read |
| WireFormat.ReadCallerQuery | cidbmessages.h:23-28 | user id, 16 bits of flags, number; as written and as read |
| WireFormat.WriteCallerQuery | cidbmessages.h:30-35 | user id, 16 bits of flags, table; as written and as read |
| WireFormat.WriteCallQuery | cidbmessages.h:37-42 | table; as written and as read |
| WireFormat.CallListQuery | cidbmessages.h:44-49 | offset, count; as written and as read |
| WireFormat.DescribeTableQuery | cidbmessages.c:645-655 | table name; two zero bytes for a null list, where one was sized |
| WireFormat.DeleteCallerQuery | cidbmessages.c:671-679 | user id, number of strings, strings; sized from the first two |
| WireFormat.ListenQuery | cidbmessages.h:79-84 | mask; as written and as read |
| WireFormat.RegisterResponse | cidbmessages.h:9-14 | error code, client id |
| WireFormat.TableResponse | cidbmessages.h:16-49 | CALLER_LIST, READ_CALLER and CALL_LIST responses: error code, table |
| WireFormat.IndexResponse | cidbmessages.h:30-42 | WRITE_CALLER and WRITE_CALL responses: error code, id |
| WireFormat.ListResponse | cidbmessages.h:51-63 | SHOWTABLES and DESCRIBE_TABLE responses: error code, number of strings, strings |
| WireFormat.ListInfoResponse | cidbmessages.h:72-77 | error code, number of entries |
| WireFormat.PlainResponse | cidbmessages.h:65-84 | DELETE_CALLER and LISTEN responses: error code |
| WireFormat.OddListen | cidbmessages.c:531-537 | LISTEN with another subcommand is written as a response and read as nothing |
| WireFormat.HeaderFormat | cidbmessages.h:146-153 | where each field lies in the 22 bytes |
| WireFormat.MessageHeader | cidbmessages.c:543-549 | the header of a written message carries its ids, kind and size |
| WireFormat.PartFormat | cidbmessages.c:248-278 | part k carries the 2026 bytes from 2026 k on, or what is left, behind a header that says so, in at most 2048 bytes |
| EndToEnd.SendThenReceive | cidbconnection.c:43-81 | for every command and direction, the packets of a message in any order, in front of any others and into a block of any content, make up the normal form iff the rows of a carried table fit |
| EndToEnd.ReceiveParts | cidbconnection.c:43-81 | `RecvMessage` on those packets succeeds, leaves the others, and returns the normal form iff the rows fit |
| EndToEnd.Transfer | cidbconnection.c:20-81 | `SendMessage`, any reordering network, `RecvMessage`: the same from end to end |
| EndToEnd.NormIsStable | cidbmessages.c:561-854 | the normal form is a fixed point and encodes to the same bytes, with the exact exceptions |
| EndToEnd.WideTableIsLost | cidbmessages.c:116-125 | a table of 3 rows and 32768 columns is not read back |
| EndToEnd.ThirdStringOverflows | cidbmessages.c:671-679 | a DELETE_CALLER query with three strings is written behind its block |
| EndToEnd.LoneDeleteIsLost | cidbmessages.c:470-485 | a DELETE_CALLER query with one string comes back as a message the sizing switch cannot read |
| EndToEnd.NullListOverflows | cidbmessages.c:503-655 | a DESCRIBE_TABLE query without a list is written behind its block |
| TextFiles.RecordShape | ci_areacodes.c:53-55 | a record ends behind the first newline, after 255 characters, or with the file |
| TextFiles.SeekResumes | ci_areacodes.c:119-122 | reading from a record's offset yields that record and its successors |
| TextFiles.RecordsAreLines | ci_areacodes.c:53-62 | when no line exceeds the buffer the records read are the lines of the file |
| TextFiles.File.Gets | ci_areacodes.c:53-62 | `fgets` and the end-of-file flag yield the records one by one |
| AreaCodes.MatchMeans | ci_areacodes.c:123-128 | a line matches iff three or more digits, and then no more, lead it and the number |
| AreaCodes.HitIsMatch | ci_areacodes.c:123-128 | the loop's success test holds iff the line's code of three or more digits prefixes the number |
| AreaCodes.PassedIsBehind | ci_areacodes.c:155-160 | a line triggers the early exit iff its digits lie behind those of the number |
| AreaCodes.ScanIsFirstMatch | ci_areacodes.c:121-162 | the early-exit scan finds the first matching line iff no line in front of it lies behind the number, and fails on every file without a match |
| AreaCodes.ScanEnds | ci_areacodes.c:121-165 | the scan runs to the end of the file iff no line matches and none lies behind the number |
| AreaCodes.FirstWithKeyFinds | ci_areacodes.c:55-61 | a slot holds the offset of the first line with its key, at or before every other one |
| AreaCodes.LookupIsFirstMatch | ci_areacodes.c:82-166 | for every file and number, the hidden first line aside, the indexed lookup agrees with a plain scan iff no line from the start of the slot to the match lies behind the number |
| AreaCodes.LookupEnds | ci_areacodes.c:97-165 | when a lookup runs to the end of the file |
| AreaCodes.MatchIsUnique | ci_areacodes.c:121-162 | in a prefix-free file at most one line matches a number |
| AreaCodes.LookupExact | ci_areacodes.c:82-166 | in a prefix-free file the two agree iff the match is not the hidden first line and that stretch of its slot is in order |
| AreaCodes.EveryNumberFound | ci_areacodes.c:37-166 | a prefix-free file answers every number as a plain scan does iff its first line can be found and each slot is in order up to each of its codes |
| AreaCodes.OrderMatters | share/vorwahl.dat:4685-4693 | a file with two lines in the shipped order, on which the indexed lookup misses the second code |
| AreaCodes.FirstLineMatters | ci_areacodes.c:59-61 | a file whose only line is a code, on which the lookup misses it |
| AreaLookup.Areas.ReadFromFile | ci_areacodes.c:37-66 | every slot keeps its offset or gets the first nonzero offset of its key |
| AreaLookup.Areas.GetAreaCode | ci_areacodes.c:82-166 | result code and all three outputs for every outcome, the area as the line names it, also when number and rest share one buffer |
| AreaLookup.FindLine | ci_areacodes.c:119-162 | the scan loop computes the scan's outcome |
| AreaLookup.Compare | ci_areacodes.c:123-127 | the digit loop stops behind the common digits |
| AreaLookup.ShiftRest | ci_areacodes.c:134-139 | the rest of the number moves to the front, in place if the buffers are one |
| AreaLookup.FillArea | ci_areacodes.c:141-151 | the area is what stands between the white space behind the code and the line end |
| AreaLookup.AreaIsNamed | ci_areacodes.c:141-151 | the text behind a code is white space, the area, and what the line end cuts |
| AreaLookup.AreaIsUnique | ci_areacodes.c:141-151 | only one area is so named |
| Broadcast.VersionRoundTrip | ci-server.c:30-33 | packed version components are read back iff each fits its byte |
| Broadcast.ModernIsOrder | ci-server.c:34-36 | the check against 3.0.0 is the order on packed versions, for all 32-bit values |
| Broadcast.StepKeepsStreams | ci-server.c:144-177 | every step of either thread keeps the broadcast invariant |
| Broadcast.StepKeepsRegistry | ci-server.c:611-654 | every step keeps open sockets and list entries in one-to-one correspondence; closing all leaves none |
| Broadcast.SweepFds | ci-server.c:622-640 | removing the marked clients closes exactly their sockets, each once |
| Broadcast.RemovalKeepsUnmarked | ci-server.c:622-640 | removal keeps every unmarked entry and the order of any two |
| Broadcast.RemovalKeepsOnlyUnmarked | ci-server.c:622-640 | and nothing else: each place of the new list holds the unmarked entry that belongs there |
| Broadcast.RemovalClosesMarked | ci-server.c:622-640 | a socket is closed iff a marked entry has it |
| Broadcast.EveryRun | ci-server.c:529-654 | over all interleavings: sockets and list agree, and each version-3 client has been sent one contiguous slice of the broadcast log in whole frames |
| Broadcast.BroadcastDelivers | ci-server.c:529-554 | one broadcast with any listener steps in between: survivors got exactly one whole frame, everyone else is removed |
| Broadcast.BroadcastSplits | ci-server.c:529-554 | each listed client either stays, a version-3 client with exactly the one whole frame added, or its socket is closed; it stays iff it was unmarked, the kernel did not take less than it was given, and it did not leave before the removal |
| Broadcast.AcceptLists | ci-server.c:642-654 | an accepted client is the last on the list, unmarked, of version 2.0.0; nothing else changes |
| Broadcast.HandleLists | ci-server.c:166-177 | which entries a handling step marks, gives another version, or leaves alone |
| Broadcast.AcceptedClientStays | ci-server.c:144-177 | over any steps it stays listed and unmarked until it leaves, a send to it falls short, or all clients are closed |
| Broadcast.AcceptedReporterIsServed | ci-server.c:194-206 | and once it reports version 3.0.0 or later it is sent every further frame |
| Broadcast.ReportingClientIsServed | ci-server.c:194-206 | a client that reports version 3.0.0 or later is sent every frame broadcast from then on, until it leaves, reports an older version, or a send to it falls short |
| Listener.OneThread | ci-server.c:86-110 | over every sequence of starts, thread outcomes and disconnects there is one thread to join exactly while the state says running, and a listening socket exactly until the first disconnect |
| Listener.ListensExactly | ci-server.c:112-137 | the server listens iff it was never disconnected, the first bind and listen behind its first working start succeeded and no select failed since |
| Listener.RestartIsDeaf | ci-server.c:586-594 | started again after a disconnect it reports success and the running state, and never listens |
| Listener.StartAnswers | ci-server.c:86-110 | what a start answers in each situation, and what it leaves |
| BroadcastServer.CIServer.AddClient | ci-server.c:642-654 | is the accept step: appended as version 2.0.0, unmarked |
| BroadcastServer.CIServer.HandleClients | ci-server.c:167-176 | is the handling step: versions set, leavers and broken connections marked |
| BroadcastServer.CIServer.RemoveMarkedClients | ci-server.c:622-640 | is the removal step |
| BroadcastServer.CIServer.SendFrame | ci-server.c:534-542 | the send loop terminates; however the kernel splits it, what goes out is a prefix of the frame, the whole frame iff no send was refused |
| BroadcastServer.CIServer.SendToAll | ci-server.c:529-550 | is the locked send step, version-3 and legacy clients |
| BroadcastServer.CIServer.BroadcastMessage | ci-server.c:529-555 | is the send step followed by the removal step |
| BroadcastServer.CIServer.CloseAllClients | ci-server.c:611-620 | is the closing step |
| BroadcastServer.CIServer.Disconnect | ci-server.c:558-597 | ends with an empty list and no open client socket; clients are told iff the server ran |
| CallPipeline.RunKeeps | main.c:190-259 | over every run the log keeps its shape and database plus queue are the completed calls in order, which are the rings in arrival order |
| CallPipeline.FailureIsFinal | main.c:226-239 | once a write failed the written calls never grow |
| CallPipeline.DatabaseGrows | main.c:226-239 | written calls are never lost |
| CallPipeline.DatabaseSplit | main.c:226-239 | over every run the database holds exactly the completed calls in front of the first failing write, the queue exactly the others |
| CallPipeline.AllInDatabase | main.c:226-239 | while no write fails every completed call is in the database and none is queued |
| CallPipeline.FirstFailureStops | main.c:226-239 | from the first failing write on the database holds what was completed before it |
| CallPipeline.EveryRun | main.c:143-259 | the log lies in (Init Update? Complete, or Call)* Shutdown?, nothing behind the shutdown; every ring ends in the database iff no write fails |
| CallPipeline.RingsAreDivided | main.c:206-217 | over every run each completed set holds its call's number, divided into area code and rest, with the area, on a hit, whole otherwise, and nothing while no area file is set |
| CallPipeline.RingsGetFirstMatch | main.c:208-217 | with an indexed file its area code is that of the plain scan's first match and its area the one behind it, the hidden first line and slots out of order aside |
| CallRecords.EveryNoticeIsTold | main.c:190-259 | over every run the broadcast log is cut into one group for each notice in arrival order: what an incoming call and what an outgoing call is told as, field by field |
| CallRecords.CacheHolds | main.c:225 | the cache answers a number with the first online answer of an incoming call that could be stored |
| CallRecords.EveryRingIsSaved | main.c:219-221 | the backup holds the set of each incoming call before the caller was looked up, under the short date |
| CallPipeline.SameNameAfterCaching | main.c:225-245 | a cached caller is announced under the same name ever after |
| CallPipeline.Process.HandleFritzMessage | main.c:190-259 | the effect of one notice on cache, database, queue, backup and broadcasts |
| CallPipeline.LookUpArea | main.c:217 | the lookup run on the zeroed character arrays of a set |
| CallPipeline.Process.Finish | main.c:147-163 | shutdown broadcasts last and drops and counts what is queued |
| Announcements.ClientHearsCalls | main.c:190-259 | over every history of calls and listener steps the server broadcasts exactly the calls' complete event groups, and each version-3 client gets a contiguous slice of them |
| Announcements.ClientHearsShutdown | ci-server.c:558-583 | behind any such history the farewell is the last frame of every version-3 client still listed, behind its slice of the events |
| UrlText.GainSign | lookup.c:475-492 | the running difference grows or shrinks only, so it stays in range |
| UrlText.ExpandPlain | lookup.c:524-547 | a url without placeholders is copied, percent signs before digits included |
| UrlText.ExpandConcat | lookup.c:524-547 | each placeholder becomes the number and nothing else changes |
| UrlText.PlaceholderExpands | lookup.c:524-547 | a piece in which digits follow the percent signs is kept and the `%NUMBER%` behind it becomes the number |
| UrlText.SubstituteDiff | lookup.c:475-492 | the length difference of one placeholder |
| UrlText.MeasureUrl | lookup.c:506-520 | the first pass measures the exact difference |
| UrlText.PrepareUrl | lookup.c:502-550 | the second pass fills exactly the measured block with the expansion and its NUL |
| UrlText.SecondPassEnds | lookup.c:524-547 | the second pass comes to an end inside its buffers iff every placeholder is the number's |
| UrlText.UnknownNeverEnds | lookup.c:538-540 | on a url with an unknown placeholder it never ends |
| UrlText.UnescapeFirst | lookup.c:556-577 | the first `%20` becomes a space, what is in front of it stays, what is behind it is treated alike |
| UrlText.UnescapeLength | lookup.c:556-577 | the string shrinks by two per replacement |
| UrlText.UnescapeClean | lookup.c:556-577 | no escape is left behind |
| UrlText.UnescapeStable | lookup.c:556-577 | idempotent, and changes a string iff it has an escape |
| UrlText.RemoveEscapes | lookup.c:556-577 | the in-place loop computes the left-to-right replacement |
| CallerCache.OneLookup | lookup.c:779-803 | one lookup stores an online answer for an uncached number if storing works, and nothing else |
| CallerCache.CachedStays | lookup.c:779-803 | a cached answer is never changed or lost |
| CallerCache.NumbersStayDistinct | lookup.c:779-803 | no number is stored twice |
| CallerCache.FirstAnswerStands | lookup.c:779-803 | once stored, the first online answer is every later answer |
| CallerCache.Cache.FindCaller | lookup.c:108-152 | returns the first row of the number |
| CallerCache.Cache.InsertCaller | lookup.c:159-179 | appends one row or fails without a change |
| CallerCache.Cache.GetCallerData | lookup.c:779-803 | cache first, then the online source; the insert's result is ignored |

## Left out

- Null-pointer guards for the message, table, header and buffer arguments of the codec functions; their callers pass addresses of existing objects.
- Malformed packets and blocks: the readers require that what they read lies inside the block, and receive errors (-1 read as a large unsigned count) are not modelled.
- Allocation failure everywhere.
- Messages of 2^32 bytes and more: `WriteMessage` and `SendMessage` require the true size to fit the 32-bit size field.
- Sending a message whose command or subcommand the writer refuses: the caller ignores the refusal and goes on with a header size that was never set (cidbconnection.c:23-26), so `SendMessage` requires a known command.
- `cidbmsg_mkmessage` and `cidbmsg_table_free`: plain assignments and memory release.
- Tables.ReadBackIsNorm: the product of row and column counts is reduced modulo 2^16 at every size, although from 2^31 on it overflows an `int` and C leaves the index undefined.
- Aliasing of the client records: the server object's list holds client values, which its methods replace; in C the list holds pointers that no code keeps across the lock.
- Legacy version-2 delivery: a legacy client is only ever marked on a short count, and nothing is claimed about what it receives.
- Direct replies to clients, which ignore the result of `send`, and the database queries behind them; the invariants speak of broadcast bytes only.
- The control pipe's descriptors, of which a start that gets a pipe but no thread leaves one pair open; as GLib documents it, `g_thread_new` never gives that answer.
- A failing `accept`, `pipe` write or thread join; descriptors handed out by `accept` are assumed not to be open.
- The libcinet encoding: a frame is an opaque byte sequence.
- A number that is not terminated inside its array, and output arrays too small for the code found; `GetAreaCode` requires room for its outputs.
- A file that changes between building the index and a lookup.
- UrlText.PrepareUrl: urls with other than the number's placeholder, closed, are excluded: exactly on these the second pass does not end inside its buffers (`UrlText.SecondPassEnds`, lookup.c:538-540).
- SQLite, curl, regular expressions, charset conversion, dates, configuration, logging, the daemon, netlink and the Fritz!Box connection itself; the strings they produce are inputs of a call (`World`).
- A failing cache query, which would store a number twice; the cache table answers every query.
- Sizes of the character arrays of a data set; its strings are unbounded in `CallPipeline`.
- A call that is looked up while another thread is still building the index.
