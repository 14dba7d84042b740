# Verified model of the asabru engine's stateful core

This project models four components of the asabru engine, the socket engine of a database proxy,
and proves what they keep over every input and every run.

* **The ClickHouse wire codec.** Base-128 numbers (unsigned LEB128, section 7.6 of DWARF Version 5,
  cut to 64 bits and ten bytes) and length-prefixed strings are written to and read from a buffer
  with a cursor; the Hello and Query packets are built on them. `MachineInts` defines the bit
  operations bit by bit, `Varint` and `WireFields` say what the bytes mean, `WireBuffers` and
  `Packets` hold the classes with the program's own loops, and `VarintLaws`, `WireFieldLaws` and
  `PacketLaws` prove what readers and writers promise each other.
* **The connection pool.** `PoolModel` is the state machine of the two maps and of every live proxy;
  `Pool` has the two classes, each of whose methods makes exactly one step of it, so any sequence of
  calls is one of the runs `PoolLaws` reasons about. `PoolInterleaving` splits every operation into
  the single accesses of its code and runs them under any number of threads;
  `PoolInterleavingLaws` proves that nobody can tell, and `PoolExecutions` that every run of whole
  operations comes about and when a thread can step.
* **The reference-counted `Socket` handle.** `SocketModel`, `SocketHandles` and `SocketLaws` are
  organised in the same way.
* **The relay loop.** `RelayModel` and `RelayLoop` compose the receive loop with the two-way relay
  loop; `RelayLaws` relates what is delivered to what was consumed.

## Behaviour worth knowing

Where the code does something surprising, the model does the same and the theorems say exactly when
it matters.

* A read reports success only if the cursor is still inside the buffer afterwards. A number that
  ends the buffer is reported as unread and loses its top group (`VarintLaws.VarintRoundTrip`); of a
  whole list of fields nothing else is lost (`WireFieldLaws.FieldsRoundTrip`), and nothing at all
  exactly when a byte follows, or the last field is a string or zero
  (`WireFieldLaws.FieldsRecoveredExactly`). The Hello packet the proxy sends ends in such a number:
  this program's own decoder sees its patch version 1 as 0 (`PacketLaws.OwnHelloLosesPatchVersion`).
* The server Hello decoder ignores the revision gates the encoder obeys, so in a buffer that ends
  with the packet it stays inside exactly for revisions from 54401 on
  (`PacketLaws.ServerHelloStaysInsideExactly`).
* `DecodeQueryPacket` returns false on every path, the two Hello decoders return true on every path.
* The comment on the socket's assignment operator calls it a constructor. It never leaves the counter
  it overwrites, so that counter is never freed and its descriptor never closed
  (`SocketLaws.OverwrittenIsLeaked`, with the run `SocketLaws.AssignmentLeaks`); the law it does obey
  is `SocketLaws.RunKeepsLaw`. The default constructor counts a handle before it can throw.
* An explicitly released proxy keeps its pointer, so a later get may hand its connection out again and
  two live proxies share it (`PoolLaws.ReleasedProxyDoublesConnection`). A get is safe, whatever the
  order of the map and the answers to the checks, exactly when no live proxy points to a connection it has
  released, which a caller can tell by asking the live proxies whether they are valid (`PoolLaws.SafeGetExactly`, over
  runs `PoolLaws.SafeRunExactly`).
* A connection orphaned by a move-assignment is lost exactly if no other live proxy points to it
  (`PoolLaws.OrphanedForeverExactly`); a proxy released earlier may bring it back
  (`PoolLaws.OrphanReturns`).
* An empty read is a closed stream, an error or a timeout alike, and ends the relay, unless the handler
  throws on it.

## Model

| member | source | states |
|---|---|---|
| `Varint.MergeGroup` | src/decoder/ClickHouse_Wire.cpp:54 | the shift-and-OR of a seven-bit group equals adding the group at its weight modulo 2^64, also for the tenth group, of which one bit fits |
| `VarintLaws.ReadVarintAcceptance` | src/decoder/ClickHouse_Wire.cpp:47-63 | from any cursor inside the buffer the read stays inside; it succeeds iff one of the next ten bytes is below 0x80 and not the buffer's last; the value is the sum of the merged groups modulo 2^64, also on failure; on failure the cursor stops after ten bytes or at the end |
| `VarintLaws.EncodeTerminated` | src/decoder/ClickHouse_Wire.cpp:301-306 | the continuation bit is set exactly on the bytes before the last |
| `VarintLaws.EncodeLength` | src/decoder/ClickHouse_Wire.cpp:298-315 | an encoding fits k bytes iff the number is below 128^k, so its length is the least possible |
| `VarintLaws.EncodeWithinBound` | src/decoder/ClickHouse_Wire.cpp:298-315 | a 64-bit number takes one to ten bytes |
| `VarintLaws.VarintRoundTrip` | src/decoder/ClickHouse_Wire.cpp:36-63 | every 64-bit number is read back, advancing by its length, if a byte follows; at the end of the buffer the read reports failure and yields the number without its top group |
| `VarintLaws.LastGroupMatters` | src/decoder/ClickHouse_Wire.cpp:51-54 | dropping the top group changes every number but zero |
| `VarintLaws.EncodeIsShortest` | src/decoder/ClickHouse_Wire.cpp:47-63 | no byte string the reader accepts for a number is shorter than the writer's |
| `VarintLaws.CanonicalExactly` | src/decoder/ClickHouse_Wire.cpp:47-63 | an accepted string is the writer's own iff its top group is not a superfluous zero and, at ten bytes, holds no bit beyond the sixty-fourth |
| `VarintLaws.VarintPrefixFree` | src/decoder/ClickHouse_Wire.cpp:298-315 | no encoding is a prefix of another, whatever follows |
| `WireFieldLaws.StringRoundTrip` | src/decoder/ClickHouse_Wire.cpp:69-80 | a string within the limit is read back; at the end of the buffer the read reports failure although the body was copied, and an empty string leaves the variable alone |
| `WireFieldLaws.StringAcceptedExactly` | src/decoder/ClickHouse_Wire.cpp:69-80 | a written string is accepted iff it is within 0x00FFFFFF bytes and a byte follows; a longer one leaves the variable and stops after its length |
| `WireFieldLaws.FieldsRoundTrip` | src/decoder/ClickHouse_Wire.cpp:268-315 | any list of fields written in order is read back by its schema, ending exactly where it was written; the end of the buffer costs the last report and the top group of a final number |
| `WireFieldLaws.FieldsRecoveredExactly` | src/decoder/ClickHouse_Wire.cpp:41-80 | every value is recovered iff a byte follows, or there is no field, or the last is a string or zero |
| `WireFieldLaws.SchemaTooLong` | src/decoder/ClickHouse_Wire.cpp:36-39 | reading more fields than a buffer holds goes outside it, since reads have no bounds check |
| `WireFieldLaws.ReadsGoOn` | src/decoder/ClickHouse_Wire.cpp:162-186 | a reader that ignores the reports reads the next field right behind what the last read consumed, also when that read failed |
| `WireFieldLaws.TooLongStringIsReadAsFields` | src/decoder/ClickHouse_Wire.cpp:69-80 | after a string beyond the limit the following fields are read from the string's own bytes |
| `WireFieldLaws.FieldsPrefixFree` | src/decoder/ClickHouse_Wire.cpp:283-315 | a byte string decodes in one way under a schema, whatever follows |
| `WireBuffers.ClickReadProtoBuffer.constructor` | src/decoder/ClickHouse_Wire.cpp:24-29 | the reader owns a copy of the bytes and stands before the first |
| `WireBuffers.ClickReadProtoBuffer.ReadByte` | src/decoder/ClickHouse_Wire.cpp:36-39 | takes the next byte and reports whether another follows |
| `WireBuffers.ClickReadProtoBuffer.ReadBuffer` | src/decoder/ClickHouse_Wire.cpp:41-45 | takes the next bytes in order and reports whether another follows |
| `WireBuffers.ClickReadProtoBuffer.ReadVarint64` | src/decoder/ClickHouse_Wire.cpp:47-63 | the reading loop computes the report, the value and the cursor of the specified read, for every buffer content |
| `WireBuffers.ClickReadProtoBuffer.ReadString` | src/decoder/ClickHouse_Wire.cpp:69-80 | reads length and body as specified; a rejected length leaves the variable unchanged |
| `WireBuffers.ClickWriteProtoBuffer.constructor` | src/decoder/ClickHouse_Wire.cpp:250-255 | the writer starts with an empty log over a copy of the initial contents |
| `WireBuffers.ClickWriteProtoBuffer.GetBuffer` | src/decoder/ClickHouse_Wire.cpp:262-266 | yields exactly the log of all writes and its length, and touches nothing behind it |
| `WireBuffers.ClickWriteProtoBuffer.WriteBuffer` | src/decoder/ClickHouse_Wire.cpp:268-272 | appends to the log; the bytes beyond the cursor still hold the initial contents |
| `WireBuffers.ClickWriteProtoBuffer.WriteVarint64` | src/decoder/ClickHouse_Wire.cpp:298-315 | the writing loop appends exactly the shortest form and never needs an eleventh byte |
| `WireBuffers.ClickWriteProtoBuffer.WriteString` | src/decoder/ClickHouse_Wire.cpp:283-286 | appends the length and the bytes |
| `Packets.CProtocolPacketEncoder.EncodeServerInfo` | src/decoder/ClickHouse_Wire.cpp:356-370 | the writes of the Hello packet, for any server, append code 0, name, versions and revision, then time zone from 54058, display name from 54372 and patch version from 54401 on |
| `Packets.CProtocolPacketEncoder.EncodeHelloPacket` | src/decoder/ClickHouse_Wire.cpp:337-374 | the exact bytes of the proxy's own Hello; the minor version repeats the major one |
| `Packets.CProtocolPacketDecoder.GetPacketType` | src/decoder/ClickHouse_Wire.cpp:91-99 | yields the leading number, or all ones when it is not reported as read |
| `Packets.CProtocolPacketDecoder.DecodeServerHelloPacket` | src/decoder/ClickHouse_Wire.cpp:221-248 | each field of the struct holds what the read at its place in the order gives, whatever the reads report; the result is always true |
| `Packets.CProtocolPacketDecoder.DecodeClientHelloPacket` | src/decoder/ClickHouse_Wire.cpp:162-186 | the same for the client's Hello |
| `Packets.CProtocolPacketDecoder.DecodeQueryPacket` | src/decoder/ClickHouse_Wire.cpp:111-148 | gives up iff the type or the query id is not reported as read, otherwise reads type, id, stage, compression and query in this order; the result is always false |
| `PacketLaws.ServerHelloRoundTrip` | src/decoder/ClickHouse_Wire.cpp:221-248 | the decoder recovers code 0 and all seven fields of any server from revision 54401 on if a byte follows; at the end of the buffer the patch version loses its top group |
| `PacketLaws.PatchVersionKeptExactly` | src/decoder/ClickHouse_Wire.cpp:221-248 | what is decoded from the bytes of a Hello is what was sent iff a byte follows or the patch version is zero |
| `PacketLaws.ServerHelloStaysInsideExactly` | src/decoder/ClickHouse_Wire.cpp:221-248 | in a buffer that ends with the packet the decoder stays inside iff the revision is at least 54401 |
| `PacketLaws.OwnHelloLosesPatchVersion` | src/decoder/ClickHouse_Wire.cpp:349-370 | the proxy's own Hello, read by this program's decoder from a buffer that ends with it, gives patch version 0 instead of 1 and every other field as sent |
| `PacketLaws.ServerHelloUnambiguous` | src/decoder/ClickHouse_Wire.cpp:357-370 | two Hello encodings followed by anything are equal iff the servers agree on name, major, minor, revision and every field their revision sends, and the followers are equal |
| `PacketLaws.ClientHelloRoundTrip` | src/decoder/ClickHouse_Wire.cpp:162-186 | a client Hello is recovered in full, with or without a trailing byte, empty password included |
| `PacketLaws.QueryRoundTrip` | src/decoder/ClickHouse_Wire.cpp:111-148 | a query packet is recovered in full, with or without a trailing byte, and passes both checked reads |
| `PoolLaws.RunConserves` | src/connection_pool/pool.cpp:100-166 | over every run, explicit and repeated releases included, idle and busy are disjoint, hold together exactly the initial connections with their owners, and the size is constant |
| `PoolLaws.RunWithoutRelease` | src/connection_pool/pool.cpp:15-60 | without explicit releases the busy connections are the disjoint union of those held by live proxies and those orphaned by move-assignments; proxies hold distinct connections and every non-empty one is valid |
| `PoolLaws.CarefulRun` | src/connection_pool/pool.cpp:15-148 | the same with explicit releases, for runs that never hand out a connection a live proxy still points to; the valid proxies are the unreleased non-empty ones |
| `PoolLaws.SafeGetExactly` | src/connection_pool/pool.cpp:100-131 | in any state whose books balance, a get leaves live proxies with distinct connections under every iteration order and every outcome of the checks iff no live proxy points to a connection it has explicitly released, that is iff every live proxy that points to a connection is valid |
| `PoolLaws.SafeRunExactly` | src/connection_pool/pool.cpp:100-148 | the gets of a run are safe in this sense iff each is called while no live proxy points to a connection it has released; such a run never doubles a connection, and its books balance |
| `PoolLaws.ReleasedProxyDoublesConnection` | src/connection_pool/pool.cpp:128-148 | get, release, get, destroy the first proxy: the second proxy is not valid and its connection is idle |
| `PoolLaws.BusyForeverExactly` | src/connection_pool/pool.cpp:100-148 | a busy connection stays busy in every run from here iff no live proxy points to it |
| `PoolLaws.OrphanedForeverExactly` | src/connection_pool/pool.cpp:31-34 | a move-assignment loses the connection it overwrites for ever iff no other live proxy points to it |
| `PoolLaws.OrphanReturns` | src/connection_pool/pool.cpp:22-45 | a run in which an orphaned connection comes back: an older released proxy still points to it and is destroyed |
| `PoolLaws.OrphansStayBusy` | src/connection_pool/pool.cpp:31-34 | in runs that never hand out a connection a live proxy still points to, an orphaned connection stays busy |
| `PoolLaws.ReleaseActsExactly` | src/connection_pool/pool.cpp:133-148 | releasing or destroying a proxy changes the maps iff its connection is busy |
| `PoolLaws.SecondReleaseIsNoOp` | src/connection_pool/pool.cpp:38-45 | after an explicit release and any run that does not hand the connection out again, a second release or the destructor changes neither map |
| `PoolLaws.TakenExactly` | src/connection_pool/pool.cpp:69-126 | a get hands out nothing iff both calls answer false for every idle connection; otherwise exactly the first in iteration order for which they do not, and all others stay |
| `PoolLaws.ReleaseExactly` | src/connection_pool/pool.cpp:133-148 | taking back a busy connection moves it to idle with what it owns; anything else changes nothing |
| `PoolLaws.MoveAssignExactly` | src/connection_pool/pool.cpp:22-36 | assigning a proxy to itself changes nothing; otherwise the target points where the source did, the source is empty and the maps are untouched |
| `PoolLaws.GetsExhaustThePool` | src/connection_pool/pool.cpp:100-126 | when no check fails, gets without releases serve exactly as many proxies as there were idle connections, each with its own, and then hand out nothing |
| `Pool.CheckConnect` | src/connection_pool/pool.cpp:69-85 | a connection fails iff both calls answer false; an exception counts as working |
| `Pool.ConnectionPool.constructor` | src/connection_pool/pool.cpp:89-96 | every connection is idle under its own address and none is busy; the initial connections are those given |
| `Pool.ConnectionPool.GetConnection` | src/connection_pool/pool.cpp:100-126 | the loop with its early return makes the get step of the state machine |
| `Pool.ConnectionPool.ReleaseConnection` | src/connection_pool/pool.cpp:133-148 | moves a busy connection back to idle and ignores anything else |
| `Pool.ConnectionPool.ReleaseProxy` | src/connection_pool/pool.cpp:128-131 | releases the connection and leaves the proxy's pointers as they are |
| `Pool.ConnectionPool.Size` | src/connection_pool/pool.cpp:150-154 | the sum of the busy and the idle count, which is the number of initial connections in every state of the object |
| `Pool.ConnectionPool.HeartBeat` | src/connection_pool/pool.cpp:168-178 | every idle connection gets exactly one heart beat and no other gets any |
| `Pool.ConnectionProxy.MoveFrom` | src/connection_pool/pool.cpp:15-20 | the new proxy takes over the pointers and the other becomes empty |
| `Pool.ConnectionProxy.MoveAssign` | src/connection_pool/pool.cpp:22-36 | the same on an existing proxy, whose connection is orphaned; nothing happens on self-assignment |
| `Pool.ConnectionProxy.Destroy` | src/connection_pool/pool.cpp:38-45 | the destructor gives the connection back |
| `Pool.ConnectionProxy.IsValid` | src/connection_pool/pool.cpp:51-60 | true iff the proxy is not empty and the pool still lends its connection out |
| `PoolInterleavingLaws.EveryInterleavingRefines` | src/connection_pool/pool.cpp:38-178 | the operations completed in any interleaving of their single steps form, in order of completion, a run of whole operations with the same answers |
| `PoolInterleavingLaws.InterleavingIsAtomic` | src/connection_pool/pool.cpp:100-178 | maps and proxies are those of that run; one thread at a time is inside, and no thread inside requests the mutex, not even the destructor of the moved-from local proxy |
| `PoolInterleavingLaws.NobodyRelocks` | src/connection_pool/pool.cpp:119-122 | no thread ever stands before a second request of the mutex it holds |
| `PoolInterleavingLaws.InterleavingKeepsBooks` | src/connection_pool/pool.cpp:15-148 | whenever the mutex is free the maps hold exactly the initial connections; if the completed operations hold no explicit release, or no get that hands out a connection a live proxy still points to, the busy connections are the disjoint union of those held by unreleased proxies of all threads and those orphaned, proxies hold distinct connections, and exactly the unreleased ones are valid |
| `PoolInterleavingLaws.SizesAreConstant` | src/connection_pool/pool.cpp:150-154 | every size reported in any interleaving is the number of connections, although the maps are counted one after the other |
| `PoolInterleavingLaws.RecordedAtReturn` | src/connection_pool/pool.cpp:38-178 | an operation takes its place in the order in the step that returns to its caller |
| `PoolInterleavingLaws.RecordKeepsCallOrder` | src/connection_pool/pool.cpp:38-178 | in any execution, a call that returns before another is made, by whatever threads, stands before it in the order of completion, and both places name the operation called |
| `PoolInterleavingLaws.SomeoneCanStep` | src/connection_pool/pool.cpp:100-178 | while any operation is in flight, some thread can take a step |
| `PoolExecutions.ReadyCanCallExactly` | src/connection_pool/pool.cpp:15-178 | a thread can make a call iff it is back from its last one, the proxies the call works on exist, and no operation in flight uses them |
| `PoolExecutions.WaitsExactly` | src/connection_pool/pool.cpp:100-178 | an operation in flight waits iff it requests the mutex while another thread has it |
| `PoolExecutions.OperationCarriesOut` | src/connection_pool/pool.cpp:38-178 | whenever the mutex is free, a thread can carry out any possible operation to its end, alone, whatever other threads are in flight |
| `PoolExecutions.EveryRunIsExecuted` | src/connection_pool/pool.cpp:15-178 | every run of whole operations is the record of an execution that ends in the same maps and proxies with the mutex free, so the interleavings lead to exactly the runs |
| `SocketLaws.RunKeepsLaw` | src/socket/Socket.cpp:123-188 | over every run each counter equals its live handles plus the times one of its handles was overwritten; the global count equals live handles plus assignments plus constructors that threw; each freed counter was closed once |
| `SocketLaws.LiveHandlesAreUsable` | src/socket/Socket.cpp:152-188 | no live handle has a freed counter, and handles that share a counter share one descriptor |
| `SocketLaws.FreedExactly` | src/socket/Socket.cpp:152-156 | a counter is freed iff it has no live handle and none of its handles was ever overwritten |
| `SocketLaws.ClosesExactly` | src/socket/Socket.cpp:152-156 | a destructor closes a descriptor iff its handle is the counter's last and none was overwritten |
| `SocketLaws.EndsExactly` | src/socket/Socket.cpp:158-161 | the library is shut down iff a destructor leaves no handle and there never was an assignment or a throwing constructor |
| `SocketLaws.OverwrittenIsLeaked` | src/socket/Socket.cpp:179-188 | once a handle of a counter is overwritten, the counter is never freed |
| `SocketLaws.AssignmentLeaks` | src/socket/Socket.cpp:179-188 | a run of two handles with one assignment that ends with no handle, one counter never freed and no shutdown |
| `SocketLaws.CloseHitsNoLiveHandle` | src/socket/Socket.cpp:152-156 | if constructors are given descriptors that are not open under another counter, no destructor closes a descriptor a live handle uses |
| `SocketHandles.SocketLibrary.NewSocket` | src/socket/Socket.cpp:123-137 | the default constructor makes a handle with its own counter, or throws after counting one |
| `SocketHandles.Socket.constructor` | src/socket/Socket.cpp:144-147 | a handle for a descriptor starts its own counter at one |
| `SocketHandles.Socket.Copy` | src/socket/Socket.cpp:167-173 | a copy joins the counter and descriptor of the original |
| `SocketHandles.Socket.Assign` | src/socket/Socket.cpp:179-188 | assignment joins the other counter and leaves the old one as it was |
| `SocketHandles.Socket.Destroy` | src/socket/Socket.cpp:152-161 | the destructor leaves its counter, closes the descriptor when the counter reaches zero and shuts the library down when the global count does |
| `RelayLoop.Endpoint.ReceiveBytes` | src/socket/Socket.cpp:206-247 | however the receive calls are cut and interrupted, the result is exactly the bytes taken from the stream, in order, and no call asks for more than the buffer holds |
| `RelayLoop.ThreadHandler` | src/interface/CProxySocket.cpp:40-98 | the loop serves passes in order and stops exactly after the first one with an empty read whose handler did not throw, that pass served in full |
| `RelayLaws.ScheduleIsServed` | src/interface/CProxySocket.cpp:53-92 | every pass serves the client if it is readable and then the target if it is, each once, whatever the reads give |
| `RelayLaws.ReadsAreIndependent` | src/interface/CProxySocket.cpp:53-92 | what each side has read, piece by piece, is settled by its own stream and its own receive calls; neither the other side nor the handlers change a read |
| `RelayLaws.RelayConserves` | src/interface/CProxySocket.cpp:53-92 | for every schedule the chunks of each direction partition the consumed input, and what is sent is the responses to them in order |
| `RelayLaws.RelayThreadsContext` | src/interface/CProxySocket.cpp:62-82 | every response is the handler's answer in the context left by the earlier chunks of both directions |
| `RelayLaws.DeliveredFromConsumed` | src/interface/CProxySocket.cpp:40-98 | for handlers that each keep a state of their own in the shared context and treat a stream the same however it is cut, the bytes sent each way and the state reached are the image of the consumed prefix |
| `RelayLaws.DeliveredWithoutState` | src/interface/CProxySocket.cpp:40-98 | the same for handlers whose answers depend on the bytes alone |
| `RelayLaws.IdentityRelay` | src/interface/CProxySocket.cpp:40-98 | with handlers that pass on what they are given, each side is sent exactly the consumed prefix of the other side's stream |
| `RelayLaws.EmptyReadExactly` | src/socket/Socket.cpp:212-224 | a read is empty iff its first receive call that is not interrupted fails or finds the stream ended, so an error after data never drops the data |
| `RelayLaws.ReadTakesAllArrived` | src/socket/Socket.cpp:206-247 | a read takes all bytes that arrived before the first call that fails, brings nothing or leaves nothing available, as long as each call brings at most what was asked for, at most 1024 |
| `RelayLaws.ReceiveTakesTheLeast` | src/socket/Socket.cpp:206-229 | a call takes the least of what arrived, what it asked for and what is left of the stream |
| `RelayLaws.InterruptionsLeaveNoTrace` | src/socket/Socket.cpp:212-218 | interrupted calls are made again and change nothing |

## Left out

- Socket calls, `select`, libuv, OpenSSL, name resolution, thread creation and logging: foreign calls. Where a loop needs one, its outcomes are parameters: receive scripts, readiness, iteration orders, health checks.
- `CClientSocket`, `TcpConnection`, `SSLSocket` and explicit calls of `Close` and `CreateSocket`: they bypass the counter.
- `RecvBlocking`, `ReceiveLine`, `Peek`, `LibuvProxySocket`, `CServerSocket` and `CProtocolSocket`: variants or plumbing of what is modelled.
- `ReadFixed`, `WriteFixed`, `DecidePacketType`, `DecodeHelloPacket`: they would add only easy members.
- `size_idle`, `size_busy` and `heart_beat` under threads: single reads in one critical section like the modelled `size`.
- Allocation failures, exceptions other than standard ones from a connection, and connections that call back into the pool.
- More than one pool, and proxies that outlive theirs: all proxies of a run belong to one pool.
- The overflow of the 32-bit socket counters: they are unbounded here.
- Freed memory reused by the allocator: every counter of a socket run is a new object.
- Threads that use one proxy at the same time: a proxy in use by an operation is not touched by another thread.
- WireBuffers.ClickReadProtoBuffer.ReadByte: requires a byte to be left, because the program reads outside the buffer otherwise; likewise the other reads, the decoders and the room for writes.
- RelayLoop.ThreadHandler: watches a finite number of passes of the endless loop, every send accepts all bytes, and a receive script that runs out counts as a failure.
- RelayLoop.Endpoint.ReceiveBytes: does not model a peer that adds bytes while the call runs; the stream is fixed and the script says how much of it has arrived.
