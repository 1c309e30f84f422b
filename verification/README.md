# goeip in Dafny: a model and its proofs

goeip is an EtherNet/IP stack: a client that sends CIP requests over TCP, an
adapter that answers them from registered objects, a cyclic UDP runtime with a
scheduler and a watchdog, a tag monitor with concurrent pollers, and a client
that reconnects. This project models that behaviour in Dafny and proves what it
is for.

| part | modules | main results |
|---|---|---|
| bytes and codecs | `Bytes`, `Cpf`, `Encap`, `Message`, `Epath`, `Formats` | round trips in both directions, each with the exact condition under which it holds, and every format byte by byte |
| objects | `Assembly`, `ConnMgr`, `Router` | set-then-get, locality of a dispatch, connection ID allocation over any run, the two open services agree |
| explicit messaging | `Server`, `Stream`, `Session`, `Exchanges`, `EndToEnd`, `WireSizes`, `ReplySizes`, `Answers` | what a whole TCP connection outputs for any input; any run of requests over the wire equals the direct calls; the exact sizes of requests and assemblies for which it does |
| cyclic I/O | `UdpPacket`, `Timeouts`, `IoRuntime`, `Pacing`, `Timing` | the hand-written packet codec agrees with the general one; pacing; the watchdog removes a connection exactly when it should |
| tag monitor | `TagMonitor`, `MonitorSafety`, `MonitorEvents`, `MonitorStop`, `MonitorProgress` | no misuse of a channel or the wait group in any interleaving; conservation of events; what Stop guarantees and what can block it; Close always gets through |
| reconnecting client | `Reconnect` | conservation of clients in any interleaving; the retry loop and the limits for which it ends |

Code that updates objects, buffers or streams in place is modelled by classes
and methods, and each method's contract ties the new state to a function of the
old one; the theorems are about those functions. Concurrent parts are state
machines with one program counter per thread, and the theorems are about every
feasible run. Integer truncation and wrap-around (`uint8`, `uint16`, `uint32`,
the 64-bit `Duration`) are written out. Times and durations are integers in
nanoseconds, and a clock reading is a nondeterministic step forward.

Where the code departs from its documentation, the model follows the code:

- docs/connection_manager.md:23 describes a table keyed by the connection triad;
  the table is keyed by the allocated ID, and a Forward_Close removes nothing
  (pkg/objects/connmgr/connmgr.go:189-191). The allocated ID is unique only for
  the first 2^32 opens (`ConnMgr.DistinctIff`).
- docs/implicit_messaging.md says that assembly data is exchanged. The receiver
  never skips the sequence count that the sender writes, so data sent by this
  scheduler does not reach an assembly of the same size
  (`IoRuntime.DataNeverArrives`). The watchdog is refreshed all the same. The
  run/idle header is skipped, not validated.
- docs/tag_monitor.md says that with a Refreshable only changes are emitted; the
  code emits one event for every poll and marks it changed or not
  (pkg/client/tag_monitor.go:340-353).

## Model

| member | source | states |
|---|---|---|
| Bytes.Reader.Read | pkg/server/server.go:180-183 | one `Read` into a fixed buffer: a short read leaves the tail zero, an exhausted reader is an error even for zero bytes |
| Formats.LittleEndian | pkg/cip/path.go:57 | the two bytes, and the four, of a number weigh 1, 256, 65536 and 16777216 in order |
| Formats.HeaderLayout | pkg/eip/header.go:16-34 | the six header fields at offsets 0, 2, 4, 8, 12 and 20 of 24 bytes |
| Formats.ClientHeader | pkg/transport/tcp.go:39-62 | a client's frame carries command, length modulo 2^16 and session, sixteen zeros, and the data |
| Formats.SessionHeader | pkg/session/session.go:92-94 | a session's request carries command 0x6F and the session's handle |
| Formats.ItemLayout | pkg/eip/cpf.go:39-53 | type at 0, length at 2, data from 4 |
| Formats.PacketLayout | pkg/eip/cpf.go:69-81 | the item count, then the items one after another |
| Formats.RRBodyLayout | pkg/session/session.go:73-90 | the bytes of an unconnected body, request or reply |
| Formats.UnitBodyLayout | pkg/server/server.go:332-353 | the bytes of a connected body, the sequence count in front of the reply |
| Formats.RequestLayout | pkg/cip/message.go:16-33 | service, path words rounded up and modulo 256, path, data |
| Formats.ResponseLayout | pkg/server/server.go:208-216 | service, reserved, status and word count in four bytes, the status words, the data |
| Formats.LogicalLayout | pkg/cip/path.go:48-122 | tags 0x20, 0x24, 0x28 and 0x30, plus 0, 1 or 2 for the width, with a pad byte before wide numbers |
| Formats.SymbolLayout | pkg/cip/path.go:124-133 | tag 0x91, length modulo 256, name, and a zero after an odd name |
| Formats.OpenLayout | cmd/scanner/main.go:215-234 | every field of a Forward_Open at its offset |
| Formats.CloseLayout | pkg/objects/connmgr/connmgr.go:156-220 | a Forward_Close reply repeats serial, vendor and originator in order with two zeros; a request of 12 bytes or less is an error |
| Formats.DatagramLayout | pkg/runtime/scheduler.go:106-180 | the bytes of a cyclic packet, run bit included |
| Cpf.Encode | pkg/eip/cpf.go:39-81 | the loop writes the count and then every item in order, an item's data only when its length field is not zero |
| Cpf.Decode | pkg/eip/cpf.go:83-116 | the loop accepts exactly the byte strings of the grammar (a count, then that many complete items) and ignores what follows |
| Cpf.DecodeItem | pkg/eip/cpf.go:92-113 | one item is read whole or not at all, and the reader is left just behind it |
| Cpf.FindItemByType | pkg/eip/cpf.go:118-126 | the search returns `FirstOfType` of the items |
| Cpf.FirstOfTypeIsFirst | pkg/eip/cpf.go:118-126 | that is the item of the wanted type with the least index, and none when there is no such item |
| Cpf.RoundTripIff | pkg/eip/cpf.go:30-116 | for any number of items built by the constructors, decode after encode gives the packet back exactly when no 16-bit count was truncated |
| Cpf.DecodeAfterEncode | pkg/eip/cpf.go:69-116 | decoding an encoded packet gives it back whatever bytes follow |
| Cpf.EncodeAfterDecode | pkg/eip/cpf.go:69-116 | encoding a decoded packet gives back exactly the prefix that was consumed, and every item's length is that of its data |
| Encap.HeaderOfEncoded | pkg/eip/header.go:26-34 | the 24-byte header decodes to the fields that were encoded |
| Encap.EncodedOfHeader | pkg/eip/header.go:26-34 | encoding a decoded header gives back the 24 bytes |
| Encap.FirstFrameOfEncoded | pkg/transport/tcp.go:38-80 | an exact frame is read back whole and what follows it is left on the stream |
| Encap.TcpTransport.Send | pkg/transport/tcp.go:38-62 | appends exactly one frame with a truncated length and a zero context to the stream |
| Encap.TcpTransport.Receive | pkg/transport/tcp.go:64-80 | takes exactly the first complete frame off the stream, and errors when there is none |
| Message.EncodeRequest | pkg/cip/message.go:15-33 | service, path length in words, path, data |
| Message.DecodeRequest | pkg/server/server.go:172-192 | the server's inline decoder, with its zero-filled short path and its error at the end of the input |
| Message.RequestRoundTripIff | pkg/cip/message.go:15-33 | the server reads the request the client built exactly when the path is even, at most 510 bytes, and path and data are not both empty |
| Message.ShortPathIsZeroFilled | pkg/server/server.go:180-192 | a path cut short is padded with zeros and leaves no data |
| Message.EncodeResponse | pkg/server/server.go:208-216 | the reply encoder both handlers repeat |
| Message.DecodeResponse | pkg/cip/message.go:45-82 | the client's reply decoder accepts exactly the replies whose counted status words are all there |
| Message.ResponseRoundTripIff | pkg/cip/message.go:45-82 | the client reads the reply the server built exactly when the status-word count matches the words |
| Epath.Path.AddClass | pkg/cip/path.go:48-60 | appends one class segment, in the 8-bit or the padded 16-bit form |
| Epath.Path.AddInstance | pkg/cip/path.go:62-74 | appends one instance segment |
| Epath.Path.AddInstance32 | pkg/cip/path.go:76-94 | appends one instance segment in the narrowest of the three forms |
| Epath.Path.AddAttribute | pkg/cip/path.go:96-108 | appends one attribute segment |
| Epath.Path.AddMember | pkg/cip/path.go:110-122 | appends one member segment |
| Epath.Path.AddSymbolicSegment | pkg/cip/path.go:124-133 | appends one symbol with a one-byte length and padding to an even length |
| Epath.BuildPath | pkg/cip/path.go:177-186 | the path is the encoding of class, instance and, unless it is zero, attribute |
| Epath.PathRoundTripIff | pkg/cip/path.go:48-133 | an independent segment reader recovers a segment list from its encoding exactly when every symbol is at most 255 bytes long |
| Epath.UniquelyDecodable | pkg/cip/path.go:48-133 | two lists of such segments have the same encoding only if they are the same |
| Epath.LongSymbolCollides | pkg/cip/path.go:127-128 | with a longer symbol two different lists collide |
| Epath.EvenLength | pkg/cip/path.go:48-133 | every encoded path has an even number of bytes |
| Epath.PeelBuiltPath | pkg/cip/router.go:59-87 | the router's peel and then the assembly's recover the class, instance and attribute given to BuildPath, over all forms |
| Assembly.AssemblyObject.RegisterAssembly | pkg/objects/assembly/assembly.go:29-37 | the table gets the entry, backed by the caller's array |
| Assembly.AssemblyObject.GetAttributeSingle | pkg/objects/assembly/assembly.go:39-61 | returns the entry for attribute 3, the right status otherwise |
| Assembly.AssemblyObject.SetAttributeSingle | pkg/objects/assembly/assembly.go:63-85 | overwrites exactly one entry in place, and only with data of its size |
| Assembly.AssemblyObject.HandleRequest | pkg/objects/assembly/assembly.go:87-163 | peels instance and attribute and makes the call they name, with the source's statuses |
| Assembly.SetThenGet | pkg/objects/assembly/assembly.go:39-85 | when a set succeeds, what a later get returns, and what stays as it was |
| Assembly.HandleKeepsShape | pkg/objects/assembly/assembly.go:63-163 | no request changes which instances exist or how long they are |
| ConnMgr.EncodeForwardOpen | cmd/scanner/main.go:215-234 | the originator's layout of a Forward_Open |
| ConnMgr.ConnectionManager.constructor | pkg/objects/connmgr/connmgr.go:25-31 | no connections, and the counter at 0x80000000 |
| ConnMgr.ConnectionManager.HandleForwardOpen | pkg/objects/connmgr/connmgr.go:33-154 | parses, takes the next ID, stores the connection under it and replies; a failed parse changes nothing |
| ConnMgr.ConnectionManager.HandleLargeForwardOpen | pkg/objects/connmgr/connmgr.go:222-334 | the same over the wide layout |
| ConnMgr.ConnectionManager.HandleForwardClose | pkg/objects/connmgr/connmgr.go:156-220 | echoes the triad of a request that parses and changes nothing |
| ConnMgr.OpensAgree | pkg/objects/connmgr/connmgr.go:33-334 | the standard and the large service, given the same fields, return the same bytes and make the same change, and fail exactly when the path is empty |
| ConnMgr.OpenEchoes | pkg/objects/connmgr/connmgr.go:95-154 | read back from the reply bytes: serial, vendor, originator, O->T ID, both intervals and the ID under which the connection is stored |
| ConnMgr.Allocation | pkg/objects/connmgr/connmgr.go:95-107 | after any mixed run of up to 2^32 successful opens the table has exactly one entry per open, under the ID it was given |
| ConnMgr.DistinctIff | pkg/objects/connmgr/connmgr.go:98-100 | the IDs of a run are pairwise distinct exactly when it made at most 2^32 successful opens |
| ConnMgr.ReplyCarriesItsId | pkg/objects/connmgr/connmgr.go:95-154 | the k-th successful open's reply carries the k-th ID; every other call leaves the state alone |
| ConnMgr.RunIsGrants | pkg/objects/connmgr/connmgr.go:33-334 | a run does what its successful opens do and nothing else |
| Router.MessageRouter.RegisterObject | pkg/cip/router.go:28-33 | the class maps to the object, every other class is as it was |
| Router.MessageRouter.Dispatch | pkg/cip/router.go:35-124 | peels the class, calls the object, turns its outcome into a reply; path errors are errors |
| Router.DispatchIsLocal | pkg/cip/router.go:35-124 | a request touches at most the object its class segment names, and a failed dispatch touches none |
| Router.DispatchReplyIsExact | pkg/cip/router.go:93-123 | every reply has a matching status-word count and the request's service with the reply bit |
| Answers.DispatchFailsIff | pkg/cip/router.go:59-87 | a dispatch is an error exactly for a path that does not begin with a complete class segment, and then changes nothing |
| Answers.StatusOf | pkg/cip/router.go:93-123 | every answer has the reply bit; status 0x16 for an unknown class, 0 exactly when the object's call succeeded, a CIP error's status, 0x08 for any other error; only a success has data |
| Answers.GetAnswered | pkg/objects/assembly/assembly.go:39-61 | a dispatched get, as the reply a client sees: 8E 00 00 00 and the data, or status 0x04, 0x16 or 0x14 for what is missing |
| Answers.SetAnswered | pkg/objects/assembly/assembly.go:63-85 | a dispatched set, as the reply a client sees, and the new contents: status 0 exactly for data of the right size, otherwise 0x04, 0x16, 0x14 or 0x09 and no change |
| Answers.OtherServiceAnswered | pkg/objects/assembly/assembly.go:149-162 | any other service on an assembly changes nothing and gets 0x08, or 0x04 for a bad path |
| Answers.InstanceNamed | pkg/objects/assembly/assembly.go:97-122 | which paths name an instance, which instance, and what is left of them |
| Answers.AttributeNamed | pkg/objects/assembly/assembly.go:130-147 | which attribute a path's rest names, 0 for none, an error for a segment cut short |
| Answers.OpenAnswered | pkg/objects/connmgr/connmgr.go:336-348 | a Forward_Open through the router: status 0, the 26-byte reply and the stored connection, or 0x08 and no change without a path |
| Answers.ManagerServices | pkg/objects/connmgr/connmgr.go:336-348 | the Connection Manager's three services and when an open parses; any other gets 0x08 |
| Server.Server.HandleSendRRData | pkg/server/server.go:142-234 | unwraps the unconnected item, dispatches it once, wraps the reply; any error leaves the state alone |
| Server.Server.HandleSendUnitData | pkg/server/server.go:236-356 | the same over the connected items, with the address data and the sequence count echoed |
| Server.Server.HandleFrame | pkg/server/server.go:88-129 | the switch over the command and the reply header |
| Answers.FailureStatusIff | pkg/server/server.go:88-129 | every reply's status is 0 or 1; it is 1, with no body and no object changed, exactly for an unsupported command and for a request whose items are missing or whose PDU cannot be decoded or dispatched |
| Answers.RegisterAnswered | pkg/server/server.go:93-100 | a Register gets handle 0x01020304, status 0 and the body 1, 0, 0, 0 |
| Answers.AnswerableIff | pkg/server/server.go:73-103 | the frames that get an answer: of at most 4096 bytes and not an Unregister |
| Answers.RefusedIff | pkg/server/server.go:73-103 | the frames the connection is closed on: longer ones and Unregisters |
| Answers.FailureIsSeen | pkg/session/session.go:104-106 | a reply with a failure status is an error to the client, whatever its body |
| Server.Server.ReadFrame | pkg/server/server.go:56-86 | finds a complete acceptable frame, a reason to close the connection, or neither, in the stream |
| Server.Server.HandleConnection | pkg/server/server.go:50-140 | the loop, for any input stream: the bytes written, the objects' state, what is left unread, and whether it closes |
| Stream.AcceptedIff | pkg/server/server.go:58-104 | there is one way to cut a stream into answerable frames and a remainder that starts with none, and the server follows it |
| Stream.StreamCorrect | pkg/server/server.go:50-140 | for any input the output is, in order, one reply per frame up to the first that is truncated, oversized or an Unregister, each echoing command and sender context |
| Stream.StreamContinues | pkg/server/server.go:58-140 | how the input is cut into arriving chunks does not matter |
| Stream.RepliesEcho | pkg/server/server.go:122-129 | every reply repeats its frame's command and context, with its session and its truncated body length |
| Stream.ClientReadsRepliesIff | pkg/transport/tcp.go:64-80 | for a given input, the client reads back the very replies written exactly when every reply's body fits its 16-bit length |
| ReplySizes.ReadsEveryReplyIff | pkg/server/server.go:122-138 | the client reads back the very replies written for every input there is exactly when each instance a path can name has at most 61437 bytes plus the length of the shortest path that names its data, 61443 for small IDs: a connected get whose frame is filled with address data is the worst case |
| ReplySizes.UnitReplyIsShort | pkg/server/server.go:236-356 | under that bound no reply to a connected request outgrows its length field, whatever the request's items |
| Session.Session.Register | pkg/session/session.go:31-58 | against this server it succeeds, sets the handle, changes no object and leaves nothing in flight |
| Session.Session.SendRRData | pkg/session/session.go:71-127 | wraps the bytes, sends them, and returns the item of the first reply or an error |
| Session.Session.SendCIPRequest | pkg/session/session.go:129-146 | encodes, exchanges, decodes: what the call returns and what it does to the server's objects |
| Exchanges.HandlersAgree | pkg/server/server.go:142-356 | both handlers see the request the sender wrapped and dispatch it the same way |
| Exchanges.AnyExchange | pkg/session/session.go:71-127 | for a request of every size n, with the 16-bit lengths wrapping: above 4096 for (n + 16) mod 2^16 an error and no change, otherwise what the frame carries is dispatched and answered and the surplus is read as further frames |
| EndToEnd.WireEqualsDirect | pkg/session/session.go:129-146 | for a request and a reply that fit, the client's result and the server's state are those of a direct Dispatch, errors included, and nothing is left in flight |
| EndToEnd.OversizedIsRefused | pkg/server/server.go:73-78 | a request is refused for its size exactly when (path + data + 18) mod 2^16 is above 4096; then the client gets an error and nothing changes |
| EndToEnd.CutIsExecuted | pkg/server/server.go:64-86 | a request whose length wraps to an acceptable one is executed and answered without the end of its data, and that end is read as further frames |
| WireSizes.LongSetIsStored | pkg/eip/cpf.go:30-37 | so a set of 2^16 times m bytes too many, refused by a direct call, overwrites the instance with its first bytes and is reported as a success |
| EndToEnd.WireEqualsDirectIff | pkg/session/session.go:129-146 | for an even path of at most 510 bytes, assemblies of at most 65515 and a dispatch that answers, the wire agrees with the direct call exactly when path and data have at most 4078 bytes, or the length wraps to an acceptable one and the request cut short has the same effect |
| WireSizes.SizeAgreesIff | pkg/session/session.go:129-146 | under those premises 4078 is the exact bound: a size of path and data is safe for all requests and registered objects exactly when it is at most that |
| WireSizes.GetAgreesIff | pkg/session/session.go:129-146 | a get over the wire agrees with the direct one exactly when the instance has at most 65515 bytes |
| EndToEnd.WireRunEqualsDirectRun | pkg/session/session.go:129-146 | any sequence of fitting requests to any registered objects gives the replies and the final state of the direct calls |
| EndToEnd.DirectRunIsTableRun | pkg/objects/assembly/assembly.go:39-163 | dispatched attribute calls on an assembly are calls on an abstract map from instance to bytes |
| EndToEnd.AttributeCallsOverTheWire | pkg/session/session.go:129-146 | any sequence of fitting get and set attribute calls with built paths, through every layer and back, equals the run on the abstract map, for an assembly whose instances have at most 65515 bytes |
| WireSizes.RunsAgreeIff | pkg/session/session.go:129-146 | such an assembly is exactly one for which all these runs agree with the direct ones |
| EndToEnd.CallAttribute | pkg/session/session.go:129-146 | one such call through the objects themselves returns what the abstract map returns, changes the server's assembly as it does, and leaves the session ready for the next |
| EndToEnd.CallAttributes | pkg/session/session.go:129-146 | a whole run of them through the objects gives the results and the final contents of the run on the abstract map |
| Answers.GetAnsweredOverTheWire | pkg/session/session.go:129-146 | a get through every layer returns 8E 00 00 00 and the instance's data and changes nothing |
| Answers.SetAnsweredOverTheWire | pkg/session/session.go:129-146 | a set through every layer stores the data and returns 90 00 00 00, or returns status 0x09 and changes nothing, by the size of the data |
| UdpPacket.Parse | pkg/runtime/runtime.go:139-188 | the hand-written walk over a 2048-byte buffer of which n bytes were received |
| UdpPacket.ParserAgrees | pkg/runtime/runtime.go:126-188 | it accepts exactly what the general decoder accepts with two items and a first length of 4, with the same connection ID and payload; bytes beyond n never matter |
| UdpPacket.DecodedIff | pkg/runtime/runtime.go:146-188 | which datagrams are taken, at their offsets: two items, the first of four bytes, the second complete, of whatever types |
| UdpPacket.Serialize | pkg/runtime/scheduler.go:106-180 | the packet built in place is the general encoding of the two items, exactly when the data fits (2028 bytes with the run/idle header, 2032 without) |
| UdpPacket.SerializeThenParse | pkg/runtime/scheduler.go:106-180 | put into any receive buffer it is parsed back, sequence count and all |
| Timeouts.TimeoutExactIff | pkg/runtime/runtime.go:111-112 | the 64-bit timeout is RPI times 4 shifted by the multiplier exactly when that product is a 64-bit integer |
| Timeouts.ProtocolTimeoutsAreExact | pkg/runtime/runtime.go:98-112 | it is, for multipliers up to 7 and intervals up to 2^32 microseconds |
| Timeouts.LargeMultiplierTimesOutAtOnce | pkg/runtime/runtime.go:111-114 | the timeout is zero whatever the interval exactly for multipliers from 62 on |
| IoRuntime.Runtime.AddConnection | pkg/runtime/runtime.go:63-69 | stores the connection under its ID with a fresh receive time |
| IoRuntime.Runtime.RemoveConnection | pkg/runtime/runtime.go:71-76 | removes that ID and no other |
| IoRuntime.Runtime.CheckTimeouts | pkg/runtime/runtime.go:88-123 | deleting while iterating, in any order, removes exactly the consumers silent for longer than their timeout; whoever does not consume stays |
| IoRuntime.Runtime.HandlePacket | pkg/runtime/runtime.go:139-269 | with other goroutines' turns between its two lookups: a packet refreshes the connection it names, unless that is gone at the second lookup, and no other; the assembly takes the rest in either case if the size is right |
| IoRuntime.Runtime.Refresh | pkg/runtime/runtime.go:214-218 | the second lookup refreshes whatever connection has the ID then |
| IoRuntime.DataNeverArrives | pkg/runtime/runtime.go:228-268 | after a packet of this scheduler, the consumer's entry holds the sent data exactly when it did before |
| IoRuntime.DeliveredIff | pkg/runtime/runtime.go:228-268 | a payload replaces the entry exactly when it has the entry's size after the run/idle header, if one is expected |
| IoRuntime.PacketCarries | pkg/runtime/scheduler.go:137-180 | a connection's packet goes to its address with its ID, its sequence count and its assembly's data |
| IoRuntime.Runtime.SendPacket | pkg/runtime/scheduler.go:85-182 | bumps the 16-bit sequence count and sends one datagram carrying it, if there is an address; it panics exactly when there is one and the data does not fit the buffer |
| IoRuntime.Runtime.ProcessTick | pkg/runtime/scheduler.go:47-83 | unless some producer's data makes it panic: in any iteration order every connection is ticked once, and the packets sent are those of the due connections, one each |
| IoRuntime.Runtime.TickConnection | pkg/runtime/scheduler.go:59-82 | sends exactly when there is an assembly and an interval has passed since the last send, and then stamps the time; it panics exactly when it would send data that does not fit |
| Pacing.PacingOverRuns | pkg/runtime/scheduler.go:48-83 | over any run of ticks two sends are an interval apart, N sends take at least N - 1 intervals, the sequence count advances by N modulo 2^16, and only a producer with an assembly sends |
| Timing.NeverRemoved | pkg/runtime/runtime.go:88-123 | with ticks, the time a send takes, jitter and losses bounded, no run removes the consumer when (losses + 1)(RPI + tick + send) + jitter fits the timeout |
| Timing.TickThenStamp | pkg/runtime/scheduler.go:59-82 | the two steps of the timed producer, finding it due and storing the time of the send, are the scheduler's tick of a connection |
| Timing.StepsAreEnabled | pkg/runtime/scheduler.go:48-83 | the bounds never rule out every continuation: checks, ticks, the end of a send and arrivals stay possible |
| Timing.TimePassesIff | pkg/runtime/scheduler.go:32-45 | time passes exactly as long as no tick, end of a send or packet is overdue |
| Timing.RemovedByFirstLateCheck | pkg/runtime/runtime.go:88-123 | after the last arrival a connection is kept exactly as long as it does not consume or no check comes later than the timeout |
| Timing.SilenceIsBounded | pkg/runtime/scheduler.go:48-83 | the longest silence a consumer sees under those bounds |
| MonitorSafety.Safe | pkg/client/tag_monitor.go:115-195 | in every interleaving of any number of AddTag and Stop calls and one Close: no send on the closed channel, no channel closed twice, no wg.Add once Close waits, no poller left when the channel closes |
| MonitorSafety.StepKeepsInv | pkg/client/tag_monitor.go:115-306 | every step keeps the ownership invariant: a subscription leaves the table once, to the one caller that will close its stopCh |
| MonitorSafety.AllCounted | pkg/client/tag_monitor.go:128-133 | when Close reaches wg.Wait, every poller ever registered has been counted |
| MonitorEvents.EventsAreConserved | pkg/client/tag_monitor.go:184-195 | a subscription's events are its polls in order, each once, none missing before Close begins, and the channel holds the tail of what was sent |
| MonitorEvents.NothingAfterStop | pkg/client/tag_monitor.go:171-219 | after any Stop that returned before Close took the table, or that removed the subscription itself, nothing with its ID is sent, whatever happens next |
| MonitorEvents.NothingNewAfterSignal | pkg/client/tag_monitor.go:184-195 | once stopCh is closed a poller sends at most the event it was already offering |
| MonitorStop.StopStops | pkg/client/tag_monitor.go:171-182 | in every reachable state a Stop that returned before Close took the table removed its subscription, closed its stopCh and saw its poller out; pollers leave only when told; after Close every stopCh is closed or a Stop is about to |
| MonitorStop.StopBlocksIff | pkg/client/tag_monitor.go:301-306 | a Stop under way can go on exactly unless its poller offers an event to a full channel and Close has not begun |
| MonitorStop.StopRemoves | pkg/client/tag_monitor.go:171-182 | a Stop can be called once AddTag has returned, and takes the subscription out and closes its stopCh |
| MonitorStop.StopEnds | pkg/client/tag_monitor.go:279-306 | then a waiting poller can leave and the Stop can return |
| MonitorStop.PollsFollowTicks | pkg/client/tag_monitor.go:279-299 | in every reachable state a poller has begun one poll per tick it took, and one more if it was asked for an immediate read and has started |
| MonitorStop.PollDelivers | pkg/client/tag_monitor.go:184-195 | while there is room and Close has not begun, a finished poll's event can be sent |
| MonitorStop.PollEndsAtSelect | pkg/client/tag_monitor.go:184-195 | after emit a poller is back at its select, the event sent or dropped because stopCh is closed |
| MonitorStop.AddTagAdds | pkg/client/tag_monitor.go:151-160 | until Close has taken the table AddTag adds a subscription of the asked kind, afterwards it changes nothing |
| MonitorProgress.NeverStuck | pkg/client/tag_monitor.go:115-135 | once stopCh is closed and until Close is done, some step of the monitor itself is enabled, even with a full channel and no reader |
| MonitorProgress.RunsAreBounded | pkg/client/tag_monitor.go:279-299 | every run, with callers and the consumer interleaved at will, has at most as many steps as its start allows, four more per ticker that wins its select and twelve more per step from outside |
| MonitorProgress.CloseCanFinish | pkg/client/tag_monitor.go:115-135 | from every reachable state in which Close has begun, its end can be reached by monitor steps alone |
| MonitorProgress.EveryMonitorCanBeClosed | pkg/client/tag_monitor.go:115-135 | from every reachable state Close can be called, if it was not, and brought to its end |
| MonitorProgress.MaximalRunsFinish | pkg/client/tag_monitor.go:115-135 | once Close has begun, a run ends with the events channel closed unless the monitor itself can extend it, tickers aside |
| Reconnect.StepConserves | pkg/client/reconnect.go:96-155 | every critical section, by any thread, keeps the books of created and closed clients |
| Reconnect.ClientsAreConserved | pkg/client/reconnect.go:96-211 | over all interleavings every client made is the stored one and open, or was closed exactly once; after Close all are closed and none is ever made again |
| Reconnect.ClosedOnlyBy | pkg/client/reconnect.go:143-211 | a step closes a client only while it is stored, and only by Close or by the thread whose operation on it failed; a newer client is left alone |
| Reconnect.OnlyFailedAreClosed | pkg/client/reconnect.go:172-224 | over all interleavings, until Close, a client has been closed exactly when an operation on it has failed, but for the thread that is about to |
| Reconnect.ThreadsUseTheStoredClient | pkg/client/reconnect.go:111-141 | a thread comes to use only the stored client of an open slot |
| Reconnect.AskingGets | pkg/client/reconnect.go:111-141 | it gets one exactly when the slot is open and holds one or a working factory makes one |
| Reconnect.ThreadsCanGoOn | pkg/client/reconnect.go:172-224 | no thread is ever stuck, and Close and new threads can come at any time |
| Reconnect.FailureDiscards | pkg/client/reconnect.go:195-211 | after a failed operation the thread goes on only once the client it used is closed |
| Reconnect.ReconnectingClient.Connect | pkg/client/reconnect.go:96-109 | a working factory's client is stored; otherwise nothing changes |
| Reconnect.ReconnectingClient.Acquire | pkg/client/reconnect.go:125-140 | the locked part of getClient: when it succeeds, what it returns and stores |
| Reconnect.ReconnectingClient.Close | pkg/client/reconnect.go:143-155 | closes the stored client once and empties the slot for good |
| Reconnect.ReconnectingClient.Invalidate | pkg/client/reconnect.go:202-211 | closes the failed client only if it is still the stored one |
| Reconnect.ReconnectingClient.GetClient | pkg/client/reconnect.go:111-141 | with other threads' turns between its two locks, a client it returns is the stored one; a closed slot always gives the closed error |
| Reconnect.ReconnectingClient.Discard | pkg/client/reconnect.go:202-211 | whichever thread gets there first, after the clean-up of a failed operation its client has been closed exactly once |
| Reconnect.ReconnectingClient.ExecuteWithRetry | pkg/client/reconnect.go:172-224 | for every limit, over any number of rounds: every round but the last failed and its client is closed, a success is the result, the loop gives up with the last error when its counter has passed the limit, and it sleeps as its rounds call for; for a limit from 0 to 2^31 - 2 that is at most maxRetries + 1 rounds, exactly as many on total failure, and one sleep between two |
| Reconnect.LoopEndsIff | pkg/client/reconnect.go:173-224 | the loop ends however its rounds fail exactly for limits from 0 to 2^31 - 2: the counter reset defeats any larger one |
| Reconnect.UnlimitedSleeps | pkg/client/reconnect.go:176-215 | without a limit every failed round is followed by a sleep |
| Reconnect.UnreachableLoopEndsIff | pkg/client/reconnect.go:176-186 | when no client can ever be had the reset is skipped, and the loop ends exactly for limits from 0 to 2^63 - 2: a 64-bit counter never exceeds 2^63 - 1 |

## Left out

- Sockets, dialling, timeouts on reads, tickers and the wall clock: streams, nondeterministic steps and a clock object stand for them, and a write never fails.
- Blocking reads: a read that cannot complete leaves its bytes on the modelled stream, where the source has already taken a header off the socket before it closes or waits; nothing reads that stream afterwards.
- Several TCP connections served at once: the handlers' locks make a dispatch one step, but interleavings of clients are not stated.
- Other object classes, Marshal and Unmarshal, floats, Timer and Counter bit fields, symbol browsing, ListIdentity and ListServices, hex dumps, String methods and logging: formatting or easy members.
- AddPortSegment: multi-byte links have neither a length byte nor padding, so it would break unique decodability.
- All of cmd/ except the Forward_Open encoder of the scanner.
- Lookup or removal by the connection triad: the source has none.
- Error texts on the wire path: an error is a CIP status or just an error.
- EndToEnd.WireEqualsDirectIff: does not cover requests whose path is odd or longer than 510 bytes, which `Message.RequestRoundTripIff` shows do not survive the codec, or that a direct Dispatch rejects.
- EndToEnd.WireRunEqualsDirectRun: assumes that the instances a path can name have at most 65515 bytes; `WireSizes.GetAgreesIff` shows that a longer one cannot be read.
- Assembly.AssemblyObject.RegisterAssembly: requires that no other instance uses the same array; the source stores whatever slice it is given.
- Router.MessageRouter.RegisterObject: one object registered under two classes is not modelled, because registered objects must not share storage.
- IoRuntime.Runtime.HandlePacket: a connection object that is removed and added again under its ID between the two lookups is not modelled; additions there are of new objects.
- IoRuntime.Runtime.ProcessTick: one scheduler goroutine; what was sent before a panic is not stated.
- Timing.NeverRemoved: differences of clock readings do not saturate, and two ticks of one connection do not overlap.
- Timing.RemovedByFirstLateCheck: the producer and the consumer may be configured with different intervals and multipliers; nothing relates them.
- MonitorSafety.Safe: the monitor is a state machine, not a class, because the theorem is about interleavings; critical sections under its lock are single steps, a ticker may fire at any time, and options, payloads and the Changed flag are not modelled. The once guards of Close and of a handle's Stop appear as one effective call each; the one inside stop is not modelled at all, and a second close of stopCh is proved impossible without it.
- MonitorProgress.NeverStuck: assumes that tag reads, Refresh and handlers return and do not call Stop or Close themselves.
- MonitorProgress.RunsAreBounded: a poller whose select keeps choosing its ticker has no bound in the source either.
- Reconnect.ClientsAreConserved: critical sections under the lock are single steps, and what a client's own Close returns is not modelled.
- Reconnect.ReconnectingClient.ExecuteWithRetry: is followed for a given number of rounds, because for some limits the loop does not end; `int` is 64 bits wide, as on the 64-bit platforms of Go.
