# Verified model of the session transport and the protobuf arena runtime

This project states and proves what the networking core of the game server (`ServerCore/`) and the parts of the vendored
protobuf runtime it rests on (`Libraries/include/google/protobuf/`) are meant to guarantee. It is written in Dafny 4.11;
`dafny verify dfyconfig.toml` checks all of it. Nothing here executes the original program.

## What is modelled

- **Packets.** `Framing` prints frames as `MakeSendBuffer` does and splits streams as `PacketSession::OnRecv` does.
  `RecvBuffer` is the sliding receive window with its lazy compaction and the session object around it. `SendProtocol` is
  the send side as a machine of atomic steps: any number of threads, the queue lock, the flag `_sendRegistered` as a
  token, WSASend that accepts (exactly one completion) or refuses (none). `SendProgress` proves that its work ends with
  everything submitted, `LostWakeups` exactly when it does not, and what takes the connection down. `WindowCopies` bounds
  what compaction costs. `EndToEnd` puts the two sides together.
- **Connections.** `Lifecycle` is ProcessConnect and Disconnect racing on `_connected`, and the session table with its
  redundant counter. The `assert` in ReleaseSession is taken as executed.
- **One thread's arena.** `SerialModel` is the state of a SerialArena over byte addresses, its invariant, and the ledger of
  memory in use; `BumpSafety`, `ArrayCache` and `ArenaCleanup` prove what bump allocation, the free lists that live inside
  returned memory, and CleanupList keep; `ArenaRuns` lifts this to all runs; `ArrayReuse` and `BlockGrowth` prove that
  returned arrays are reused and that blocks double; `SerialArena` is the object as the code has it, each method proved to
  do what the model says. `ArenaArithmetic` holds alignment, powers of two and block sizes with 64-bit wrap-around.
  Foreign memory is included: an array of another thread's arena may be returned here.
- **The shared arena.** `ThreadSafeArena` is lifecycle ids in per-thread batches, the push-only lock-free list and the two
  caches, as a machine of atomic steps and as objects; `ThreadSafeRuns`, `ArenaCaches`, `FallbackProgress` and
  `LifecycleIds` prove the theorems about all runs, with construction, Reset, destruction and reuse of addresses. `BlockLists` holds the list of
  SerialArenas and the chain of blocks behind each as linked structures, and `ArenaTeardown` the object that grows them and
  walks them to give memory back; a block given back is gone from the heap, so a read of it would not verify.
- **Strings.** `TaggedString` is the tagged pointer with its 64-bit operations, `ArenaString` the string field object over
  `StringModel`, `StringOwnership` and `StringRuns` the ownership of all strings over all runs.
- **Lookups.** `DescriptorIndex` is the symbol index, `SymbolNames` the grammar of the names in it, and `AnyUrl` the type
  URLs.

Addresses the system hands out are parameters, required only to be what a system allocator gives (aligned, addressable,
not in use). On a 64-bit machine a block header has 24 bytes, a SerialArena 80 and a cleanup node 16.

## Where the code differs from what it says

Each difference in behaviour is proved: the exact condition under which it shows, or a concrete case, or both.

- `AddSymbol` means to check the first key above a new name, the only one that can be nested in it, by stepping past the
  last key that is not above. If the new name is below all keys there is no such key, the iterator is at the first key
  already, and that key is skipped: `AddSymbolKeepsInvariantExactly`, `OverlookedConflict`.
- `CleanupList` rounds the end of every block down to 8, but only the first block's nodes start there. A later block whose
  size is no multiple of 8 and that holds exactly one node is passed over: `RunCleansUpExactly`, `CleanupsRunOnceExactly`,
  and the run `OddBlockLosesCleanup`.
- An over-aligned request keeps the bump pointer 8-aligned only if its size is a multiple of 8:
  `RequestKeepsAlignmentExactly`, `StaysInRegionExactly`, `MisalignedOverflows`. `AlignUpTo8` wraps to 0 for
  the last seven sizes.
- `InternalIs` and `ParseAnyTypeUrl` disagree for names that are empty or contain a slash: `IsAgreesWithParseExactly`.
- The comment on `next_lifecycle_id` tests `kPerThreadIds - 1`; the code tests `kPerThreadIds * 2 - 1`, and the model
  follows the code. The comment on `cached_blocks_` gives class i the size `8 + 2^(i+3)`; the code puts arrays of
  `2^(i+4)` up to `2^(i+5) - 1` bytes there.
- `IsDefault` compares the start size of a policy with the default maximum: a user who asks for blocks of 8192 bytes and
  nothing else gets the default policy, which starts with 256: `StoredPolicyExactly`.
- The last lifecycle id on a message-owned arena makes the tag equal to the initial thread-cache value:
  `TagIsNeverSeenExactly`, `LastIdHitsFreshCache`.
- A batch refused by WSASend can strand later buffers, and a Send before the connection is up, or a completion of zero
  bytes, loses the send token for good: `StrandedRunExactly`, `TokenLostExactly` and `NoLostWakeupExactly` for all runs,
  `RefusedBatchStrandsBuffer`, `EarlySendLosesToken`, `ZeroBytesLoseToken`.
- A frame header with size 0 makes OnRecv loop for ever, and MakeSendBuffer truncates payloads beyond 65531 bytes:
  `OnRecvReturnsIff`, `MakeSendBuffer`.
- A Disconnect between the store in ProcessConnect and AddSession can fail the assertion in ReleaseSession, and so can a
  reconnect before ReleaseSession, which also leaves the counter wrong: `AssertFailsExactly` and `CounterIsSizeExactly` for
  all runs, `EarlyDisconnectFailsAssert`, `EarlyReconnectFailsAssert`, `EarlyReconnectBreaksCounter`.

## Model

| member | source | states |
|---|---|---|
| `Framing.FillBuffer` | Server/ServerPacketHandler.h:46-51 | header fields written first, then the payload: the buffer is exactly the frame a receiver is meant to see |
| `Framing.MakeSendBuffer` | Server/ServerPacketHandler.h:41-54 | with both `uint16` truncations: the intended frame comes out exactly for payloads of at most 65531 bytes; for which longer ones the header itself is out of bounds |
| `Framing.OnRecv` | ServerCore/Session.cpp:325-348 | on any stream that never reaches a zero size field, the bytes claimed, the packets delivered and the bytes left are those of the specification parser |
| `Framing.StalledNeverExits` | ServerCore/Session.cpp:329-345 | a header with size 0 keeps the loop going for ever |
| `Framing.OnRecvReturnsIff` | ServerCore/Session.cpp:329-345 | the loop ends on a stream if and only if no reached header has a zero size field |
| `Framing.PacketsPartitionStream` | ServerCore/Session.cpp:336-344 | delivered packets and leftover, concatenated, are the stream: nothing lost, doubled or reordered |
| `Framing.TailBound` | ServerCore/Session.cpp:333-339 | the leftover is shorter than the largest frame and parses to nothing |
| `Framing.ParseIncrementally` | ServerCore/Session.cpp:325-348 | parsing a prefix first and the leftover with the rest later is parsing everything at once |
| `Framing.FrameShape` | Server/ServerPacketHandler.h:47-50 | a frame is complete, its size field is its length, and id and payload read back |
| `Framing.WireFormat` | Server/ServerPacketHandler.h:46-51 | on the wire: the length of the whole frame and the id as little-endian 16-bit numbers, then the payload; the length is where OnRecv looks for it |
| `Framing.FramesRoundTrip` | ServerCore/Session.cpp:325-348 | the concatenated frames of any list of sendable messages split back into exactly those frames |
| `Framing.FramesDecode` | Server/ServerPacketHandler.h:47-50 | each delivered packet carries the id and payload sent, in order |
| `RecvBuffer.RecvBuffer.constructor` | Source/MMORPG2/Network/Buffer.cpp:43-47 | an empty window over `bufferSize * 10` bytes |
| `RecvBuffer.RecvBuffer.Clean` | Source/MMORPG2/Network/Buffer.cpp:53-71 | the unread bytes are kept, moved to the front only when fewer than `bufferSize` bytes are free; the caller owes that the copied ranges are disjoint |
| `RecvBuffer.RecvBuffer.OnRead` | Source/MMORPG2/Network/Buffer.cpp:73-80 | succeeds exactly if that many bytes are unread, and then drops them; else nothing changes |
| `RecvBuffer.RecvBuffer.OnWrite` | Source/MMORPG2/Network/Buffer.cpp:82-89 | succeeds exactly if that many bytes are free, and then appends what the kernel wrote; else nothing changes |
| `RecvBuffer.PacketSession.Disconnect` | ServerCore/Session.cpp:45-57 | the first caller records its cause and makes the calls of OnDisconnected, ReleaseSession and RegisterDisconnect, in this order and once; later callers change nothing |
| `RecvBuffer.PacketSession.RegisterRecv` | ServerCore/Session.cpp:135-155 | a connected session posts a receive of the whole free space if WSARecv takes it; a refusal posts nothing, and disconnects exactly for the errors on which HandleError does; a disconnected session posts nothing |
| `RecvBuffer.PacketSession.Consume` | ServerCore/Session.cpp:247-253 | all complete packets are delivered and stepped over; the OnRead Overflow branch cannot be taken |
| `RecvBuffer.PacketSession.ConsumeAndClean` | ServerCore/Session.cpp:247-256 | all complete packets are delivered, and the window left is the compacted one of the specification |
| `RecvBuffer.PacketSession.ProcessRecv` | ServerCore/Session.cpp:231-260 | both live error branches disconnect with their cause, post nothing and keep what was received; otherwise the new state is the one of the specification, the copy in Clean never overlaps, a receive of at least 65536 bytes is posted unless WSARecv refuses it, and the OnRead Overflow cause never arises |
| `RecvBuffer.PacketSession.Deliver` | ServerCore/Session.cpp:231-260 | one completed receive of any admissible chunk, bytes written by the kernel included |
| `RecvBuffer.ReceiveSettles` | Source/MMORPG2/Network/Buffer.cpp:61-69 | after any receive the tail is shorter than BUFFER_SIZE, Clean copies between disjoint ranges, and at least BUFFER_SIZE bytes are free |
| `RecvBuffer.ChunkStep` | ServerCore/Session.cpp:231-260 | cutting the stream at one more place changes neither what will be delivered nor what will be left |
| `RecvBuffer.AnyChunking` | ServerCore/Session.cpp:231-260 | however the stream is cut, the session delivers the packets of the whole stream and keeps its tail |
| `RecvBuffer.BoundedChunksFit` | ServerCore/Session.h:19-22 | chunks of 1 to BUFFER_SIZE bytes always fit the buffer posted for them |
| `RecvBuffer.PrefixDelivered` | ServerCore/Session.cpp:231-260 | having received part of a stream is having delivered a prefix of its packets |
| `RecvBuffer.FramesArriveIntact` | ServerCore/Session.cpp:231-260 | whatever part of the frames has arrived in whatever chunks, the first frames are delivered unchanged and in order; all of them when all has arrived |
| `RecvBuffer.DeliverAll` | ServerCore/Session.cpp:231-260 | the session object driven over a whole sequence of chunks ends in the state the specification says |
| `WindowCopies.WindowAfter` | Source/MMORPG2/Network/Buffer.cpp:53-71 | after any receive the window is back at the front if nothing is unread, and otherwise stays where it is until fewer than 65536 bytes are free behind it |
| `WindowCopies.CopiesAreRare` | Source/MMORPG2/Network/Buffer.cpp:61-69 | over any run, of the bytes received at most one in eight is ever copied by Clean |
| `SendProtocol.SendSide.Push` | ServerCore/Session.cpp:24-26 | what the machine step Push does to the shared state |
| `SendProtocol.SendSide.Exchange` | ServerCore/Session.cpp:27 | what the machine step Exchange does to the shared state, and what it found |
| `SendProtocol.SendSide.PushAndExchange` | ServerCore/Session.cpp:20-38 | the two machine steps one after the other: the buffer joins the queue, the flag goes up, and the caller registers exactly if the flag was down |
| `SendProtocol.SendSide.ClearBuffers` | ServerCore/Session.cpp:204 | what the machine step Clear does to the shared state, after a refusal and in ProcessSend |
| `SendProtocol.SendSide.LowerFlag` | ServerCore/Session.cpp:205 | what the machine step Release does to the shared state |
| `SendProtocol.SendSide.DrainQueue` | ServerCore/Session.cpp:170-183 | what the machine step Drain does: the whole queue moves to the event, front first |
| `SendProtocol.SendSide.FinishOrRegister` | ServerCore/Session.cpp:284-290 | what the machine step Finish does: the flag goes down exactly if the queue is empty; else the caller registers again |
| `SendProtocol.StepKeepsInv` | ServerCore/Session.cpp:160-208 | every atomic step of any number of threads and completions keeps the invariant |
| `SendProtocol.EveryRunIsSafe` | ServerCore/Session.cpp:160-294 | in every interleaving: one user of `_sendEvent`, at most one operation in flight, submitted batches ++ owned batch ++ queue are the pushes in lock order, no batch is empty, the flag is down only if nothing waits or some batch was refused, and the token is lost exactly when the flag is up with nothing behind it |
| `SendProgress.CalmStepProgresses` | ServerCore/Session.cpp:160-294 | each step that is no new Send and no failure shortens the way to quiescence, whatever was refused earlier |
| `SendProgress.NoLostWakeup` | ServerCore/Session.cpp:262-294 | once Send calls stop and nothing fails any more, every schedule has at most 13 steps and two completions, some thread can always step until it is quiescent, and then everything that waited was accepted in order; earlier refusals do not matter as long as nothing is stranded and no token lost |
| `SendProgress.QuiescentSentEverything` | ServerCore/Session.cpp:160-294 | with nothing under way the batches given to WSASend are exactly what was pushed |
| `SendProgress.StrandedExactly` | ServerCore/Session.cpp:199-206 | a step strands buffers exactly when the failure path lowers the flag over a nonempty queue with no Send about to look at it |
| `LostWakeups.StrandedRunExactly` | ServerCore/Session.cpp:20-38 | over every run: it ends with buffers stranded if and only if the failure path has stranded some and no Send has come since |
| `LostWakeups.TokenLostExactly` | ServerCore/Session.cpp:160-163 | over every run: it ends with the flag up and nothing behind it if and only if some RegisterSend has found the session not connected or some completion has come with zero bytes |
| `LostWakeups.DrainsExactly` | ServerCore/Session.cpp:160-294 | in every reachable state: some schedule without new Sends and failures gets everything submitted if and only if the token is not lost, nothing is stranded, and nothing under way is going to fail (a completion of zero bytes, a test of a session that is down, a refusal over a queue nobody is about to look at) |
| `LostWakeups.NoLostWakeupExactly` | ServerCore/Session.cpp:160-294 | the same in terms of what happened in the run; and with no failure being handled, what can drain at all drains under every schedule |
| `LostWakeups.ConnectedExactly` | ServerCore/Session.cpp:196-206 | over every run: the session is connected at the end if and only if the last of all connects and disconnects was a connect, where a lost connection reported by WSASend and a completion of zero bytes are disconnects |
| `LostWakeups.DownUntilConnect` | ServerCore/Session.cpp:160-163 | after any of these disconnects, until the next connect, every RegisterSend finds the session down and loses the token |
| `LostWakeups.RefusedBatchStrandsBuffer` | ServerCore/Session.cpp:199-206 | a reachable state in which a refused batch has left a buffer stranded on a connected session |
| `LostWakeups.LostTokenSendsNothing` | ServerCore/Session.cpp:160-163 | once the token is lost nothing is ever submitted again, in any continuation |
| `LostWakeups.EarlySendLosesToken` | ServerCore/Session.cpp:160-163 | a run that loses the token by a Send before the connection is up; the condition for all runs is the one of TokenLostExactly |
| `LostWakeups.ZeroBytesLoseToken` | ServerCore/Session.cpp:262-271 | a run in which a completion of zero bytes takes the session down and loses the token, and its continuation in which the session is connected again with the flag still up |
| `EndToEnd.SubmittedIsPrefix` | ServerCore/Session.cpp:20-38 | the bytes given to WSASend, then those that still wait, are the bytes of all Send calls in lock order |
| `EndToEnd.DeliveredIsPrefix` | ServerCore/Session.cpp:231-294 | in every run and under every cut of the stream, when every buffer sent is a frame of MakeSendBuffer, the packets delivered are the first buffers of the accepted batches, unchanged and in push order; the first buffers sent, if no batch was refused |
| `EndToEnd.EveryFrameArrives` | ServerCore/Session.cpp:231-294 | when Send calls stop and nothing fails any more, the remaining work is bounded, and the buffers of the batches accepted before and all that waited are delivered in order, with nothing left in the buffer; all buffers of all senders, if no batch was refused |
| `Lifecycle.Service.AddSession` | ServerCore/Service.cpp:36-41 | what the machine step Add does to the table; the counter follows the set exactly if the session was not in it |
| `Lifecycle.Service.ReleaseSession` | ServerCore/Service.cpp:43-48 | what the machine step Remove does to the table; the assertion holds exactly if the session was in the set |
| `Lifecycle.AssertFailsExactly` | ServerCore/Service.cpp:36-48 | over every run, reconnects at any time included: the assertion fails if and only if some session is released that has not been added since it was last released, and the table holds exactly the sessions added and not released since |
| `Lifecycle.CounterIsSizeExactly` | ServerCore/Service.cpp:36-48 | over every run the counter is never below the size of the set, and equal to it if and only if no session is added that has not been released since it was last added |
| `Lifecycle.DisconnectOnce` | ServerCore/Session.cpp:45-57 | over every run, however many threads call Disconnect: OnDisconnected at most once per ProcessConnect of the session, and at most as many successful releases as that |
| `Lifecycle.PoliteRunsAgree` | ServerCore/Session.cpp:45-57 | over every run in which a session is connected again only when nothing of its earlier connection is left: until the assertion fails, per connection OnDisconnected and the release happen at most once and in this order, the counter is the size of the set, and the table holds the connected sessions that no thread is at work on |
| `Lifecycle.EraseAlwaysSucceeds` | ServerCore/Service.cpp:43-48 | if besides Disconnect is called only after AddSession, the assertion always holds; neither of the two conditions is enough alone |
| `Lifecycle.EarlyDisconnectFailsAssert` | ServerCore/Session.cpp:210-217 | a Disconnect between the store and AddSession makes the assertion fail |
| `Lifecycle.EarlyReconnectBreaksCounter` | ServerCore/Service.cpp:36-41 | a reconnect before ReleaseSession leaves the counter at 2 for a set of one |
| `Lifecycle.EarlyReconnectFailsAssert` | ServerCore/Service.cpp:43-48 | a reconnect before ReleaseSession makes the assertion fail, although each Disconnect comes after AddSession |
| `ArenaArithmetic.AlignUpTo8Exactly` | Libraries/include/google/protobuf/arena_impl.h:65-68 | the least multiple of 8 above n exactly for sizes up to 2^64 - 8; the last seven sizes wrap to 0 |
| `ArenaArithmetic.AlignToFacts` | Libraries/include/google/protobuf/arena.h:93-97 | from an 8-aligned address AlignTo moves up by at most `align - 8` to a multiple of `align` |
| `ArenaArithmetic.OverAlignedFits` | Libraries/include/google/protobuf/arena.h:319-330 | from an 8-aligned address the placed object is aligned as asked, to any power of two, and lies inside the region requested for it |
| `ArenaArithmetic.RequestIsLeast` | Libraries/include/google/protobuf/arena.h:319-330 | no smaller region would do: the least multiple of 8 that holds the object for alignments up to 8; beyond that there are 8-aligned addresses from which the object ends where its region ends |
| `ArenaArithmetic.RequestKeepsAlignmentExactly` | Libraries/include/google/protobuf/arena.h:328 | an over-aligned request keeps the bump pointer 8-aligned exactly if its size is a multiple of 8 |
| `ArenaArithmetic.StaysInRegionExactly` | Libraries/include/google/protobuf/arena.h:319-330 | from any address, an object aligned to a power of two of 16 or more stays inside the region requested for it if and only if the address is aligned as asked or at least 8 above the last address that is |
| `ArenaArithmetic.MisalignedOverflows` | Libraries/include/google/protobuf/arena.h:319-330 | two requests from any address aligned to 16, of 9 and of 8 bytes: the object of the second sticks out of its region into the next |
| `ArenaArithmetic.BlockSizeFacts` | Libraries/include/google/protobuf/arena.cc:56-80 | a new block has room for the request behind its header, and multiples of 8 stay multiples of 8 |
| `BlockGrowth.NextSize` | Libraries/include/google/protobuf/arena.cc:56-80 | after a block of any size the next has twice that size, wrapping at 2^64, or the maximum of the policy if that is less, or the header and the request if that is more |
| `BumpSafety.NewKeepsInv` | Libraries/include/google/protobuf/arena.cc:107-123 | a new SerialArena satisfies the invariant for every size that holds it, multiples of 8 or not |
| `BumpSafety.ProvideKeepsInv` | Libraries/include/google/protobuf/arena.cc:152-181 | after AllocateNewBlock there is always room for the request that caused it, and nothing in use is touched |
| `BumpSafety.BumpKeepsInv` | Libraries/include/google/protobuf/arena_impl.h:272-279 | a bumped region is disjoint from every area in use, every header and every cleanup node |
| `BumpSafety.BumpWithCleanupKeepsInv` | Libraries/include/google/protobuf/arena_impl.h:345-355 | region and cleanup node together keep the invariant; the node comes in front of all older ones |
| `BumpSafety.AreaWritesKeepCleanups` | Libraries/include/google/protobuf/arena_impl.h:282-323 | writing inside areas in use touches no cleanup node |
| `ArrayCache.RequestFitsClass` | Libraries/include/google/protobuf/arena_impl.h:229-235 | a request is served from a class only if it needs at most what every block of the class has |
| `ArrayCache.ReturnedFillsClass` | Libraries/include/google/protobuf/arena_impl.h:292-295 | a returned array has at least the bytes its class promises |
| `ArrayCache.TableGrows` | Libraries/include/google/protobuf/arena_impl.h:297-311 | the array that makes the table grow holds a strictly longer table which covers its own class; 64 entries are always enough |
| `ArrayCache.PopKeepsInv` | Libraries/include/google/protobuf/arena_impl.h:229-245 | the block taken off a list is at least as long as the request, and lists, table and live memory stay apart |
| `ArrayCache.PushKeepsInv` | Libraries/include/google/protobuf/arena_impl.h:316-319 | putting an array on its list keeps the invariant |
| `ArrayCache.GrowLoads` | Libraries/include/google/protobuf/arena_impl.h:301-311 | the new table holds the old list heads, then nulls, and nothing outside the array changes |
| `ArrayCache.GrowKeepsInv` | Libraries/include/google/protobuf/arena_impl.h:297-314 | moving the table into a returned array keeps every list |
| `ArrayCache.StoreKeepsInv` | Libraries/include/google/protobuf/arena_impl.h:420-425 | whatever the program stores into its live memory disturbs no list, table or cleanup |
| `ArrayReuse.ReturnedIsReused` | Libraries/include/google/protobuf/arena_impl.h:229-323 | an array of at least 2^j and less than 2^(j+1) bytes is returned, and an array of n bytes requested: the request gets that very array if and only if 2^(j-1) < n <= 2^j, and then no other memory is used and the lists are as before |
| `ArrayReuse.OnlyArraysReuse` | Libraries/include/google/protobuf/arena_impl.h:254-269 | a request that is not for an array never touches the free lists |
| `ArrayReuse.GrownTableLasts` | Libraries/include/google/protobuf/arena_impl.h:297-311 | an array that becomes the table gives it as many entries as it holds pointers, at most 64, and exactly the arrays below 16 times 2 to that number are put on lists from then on |
| `ArenaRuns.StepKeepsInv` | Libraries/include/google/protobuf/arena_impl.h:255-363 | every operation of a SerialArena keeps the invariant |
| `ArenaRuns.RunIsMemorySafe` | Libraries/include/google/protobuf/arena_impl.h:255-363 | over any run: areas in use are aligned and pairwise disjoint, inside the handed-out part of a block, above its header and below its cleanup nodes, and blocks do not overlap |
| `ArenaRuns.RunPlacesObjects` | Libraries/include/google/protobuf/arena.h:319-330 | after any run an object of any power-of-two alignment, of a size that is a multiple of 8 if the alignment is above 8, lies aligned inside an area of its own and shares no byte with any other area |
| `ArenaRuns.SpaceIsAccounted` | Libraries/include/google/protobuf/arena.cc:183-189 | over any run SpaceUsed is the sum of the sizes of the requests the operations served by bumping: nothing for cache hits, returned arrays, headers and cleanup nodes; SpaceAllocated is the sum of the block sizes and never less |
| `BlockGrowth.StepAddsBlock` | Libraries/include/google/protobuf/arena.cc:145-181 | an operation adds a block exactly if it asks for memory, no free list serves it, and it does not fit what is left of the head block |
| `BlockGrowth.BlocksDouble` | Libraries/include/google/protobuf/arena.cc:56-80 | over any run each block has at least twice the size of the one before, up to the maximum of the policy; one that has more is exactly as long as some request of the run needs |
| `BlockGrowth.DefaultGrowth` | Libraries/include/google/protobuf/arena.cc:56-80 | with the default policy and small requests the blocks of any run have 256, 512, 1024 and so on up to 8192 bytes |
| `BlockGrowth.FirstBlocks` | Libraries/include/google/protobuf/arena.cc:245-294 | the first block of a list has the start size of the policy, or what has to go into it if that is more; 256 bytes by default |
| `BlockGrowth.StoredPolicyExactly` | Libraries/include/google/protobuf/arena_impl.h:115-119 | an arena works with the block sizes its user asks for, exactly unless both are 8192 with nothing else set |
| `BlockGrowth.SmallestBlock` | Libraries/include/google/protobuf/arena.cc:229-243 | the least block accepted from the user holds what has to go into it and not a byte more |
| `ArenaRuns.RunCleansUpExactly` | Libraries/include/google/protobuf/arena.cc:191-206 | after any run every registered cleanup is called once, newest first and across blocks, if and only if no block is passed over |
| `ArenaRuns.RunCleansUp` | Libraries/include/google/protobuf/arena.cc:191-206 | with start, maximum and initial sizes multiples of 8 that is always so |
| `ArenaRuns.OddBlockLosesCleanup` | Libraries/include/google/protobuf/arena.cc:191-206 | a legal run that loses a cleanup: with a maximum block size of 1001, one object of 912 bytes with its cleanup; the cleanup is registered and never called |
| `ArenaCleanup.CallsExactly` | Libraries/include/google/protobuf/arena.cc:191-206 | CleanupList never calls more than was registered, and all of it exactly if it passes over no block |
| `ArenaCleanup.CleanupRunsAllExactly` | Libraries/include/google/protobuf/arena.cc:191-206 | every registered cleanup is called once, in reverse order and across blocks, if and only if no block is passed over |
| `ArenaCleanup.NewBlockKeepsRoundSizes` | Libraries/include/google/protobuf/arena.cc:56-80 | block sizes stay multiples of 8 when start and maximum size are |
| `ArenaCleanup.NodesAlignedExactly` | Libraries/include/google/protobuf/arena.cc:170-173 | the nodes of a block are 8-aligned exactly if it is the oldest block or its size is a multiple of 8 |
| `SerialArena.SerialArena.constructor` | Libraries/include/google/protobuf/arena.cc:107-123 | the new object is the specified one and valid |
| `SerialArena.SerialArena.AllocateFromExisting` | Libraries/include/google/protobuf/arena_impl.h:272-279 | the region starts at the old pointer, which moves by its size |
| `SerialArena.SerialArena.AllocateNewBlock` | Libraries/include/google/protobuf/arena.cc:152-181 | the old head is sealed with its cleanup limit, the new block becomes the head, the counters move |
| `SerialArena.SerialArena.TryAllocateFromCachedBlock` | Libraries/include/google/protobuf/arena_impl.h:229-245 | returns the head of the list exactly if there is one, and then unlinks it |
| `SerialArena.SerialArena.AllocateAlignedFallback` | Libraries/include/google/protobuf/arena.cc:145-150 | a new block, then the region from it |
| `SerialArena.SerialArena.AllocateAligned` | Libraries/include/google/protobuf/arena_impl.h:254-269 | an 8-aligned region of the size asked for, live from now on, no byte of which was live before; all else that was live still is |
| `SerialArena.SerialArena.AllocateAlignedWithCleanup` | Libraries/include/google/protobuf/arena_impl.h:335-355 | the region at the bottom and the node at the top of the same block |
| `SerialArena.SerialArena.AddCleanup` | Libraries/include/google/protobuf/arena_impl.h:358-363 | one more registered cleanup, no memory handed out |
| `SerialArena.SerialArena.AllocateInternal` | Libraries/include/google/protobuf/arena.h:592-612 | the object is aligned to its power of two, inside the region taken for it, and its destructor is registered for the address returned |
| `SerialArena.SerialArena.CleanupList` | Libraries/include/google/protobuf/arena.cc:191-206 | the calls made are all registered cleanups in reverse exactly if no block is passed over |
| `SerialArena.SerialArena.CallNodes` | Libraries/include/google/protobuf/arena.cc:195-203 | the loop over the nodes of one block |
| `SerialArena.SerialArena.MoveTable` | Libraries/include/google/protobuf/arena_impl.h:304-306 | the two library calls that fill the new table |
| `SerialArena.SerialArena.GrowTable` | Libraries/include/google/protobuf/arena_impl.h:301-313 | the array becomes the table |
| `SerialArena.SerialArena.ReturnArrayMemory` | Libraries/include/google/protobuf/arena_impl.h:282-323 | the array goes on the list of its class, or becomes the table if the table lacks the class |
| `SerialArena.SerialArena.SpaceUsed` | Libraries/include/google/protobuf/arena.cc:183-189 | what was served by bumping, never above the sum of the block sizes |
| `SerialArena.PopIsFresh` | Libraries/include/google/protobuf/arena_impl.h:229-245 | a recycled block shares no byte with live memory |
| `SerialArena.BumpIsFresh` | Libraries/include/google/protobuf/arena_impl.h:272-279 | a bumped region shares no byte with anything in use |
| `ThreadSafeArena.ThreadCacheObject.TakeId` | Libraries/include/google/protobuf/arena.cc:305-321 | the id is the next of the thread's batch or the first of a new one, and the ownership bit is kept |
| `ThreadSafeArena.ArenaObject.CacheSerialArena` | Libraries/include/google/protobuf/arena_impl.h:557-565 | thread cache and hint now name this SerialArena, under the present tag |
| `ThreadSafeArena.ArenaObject.GetSerialArenaFast` | Libraries/include/google/protobuf/arena_impl.h:567-592 | thread cache if filled from this life of the arena, else the hint if it is the thread's own |
| `ThreadSafeArena.ArenaObject.SearchList` | Libraries/include/google/protobuf/arena.cc:485-490 | the loop over the linked nodes returns what the linear search of the list does |
| `ThreadSafeArena.ArenaObject.PushNode` | Libraries/include/google/protobuf/arena.cc:499-504 | after any number of chance failures the node is in front of the unchanged list |
| `ThreadSafeArena.ArenaObject.GetSerialArenaFallback` | Libraries/include/google/protobuf/arena.cc:482-508 | an existing SerialArena of the thread is found, else a new one is put in front; afterwards search and fast path both give it |
| `ThreadSafeArena.FindExactly` | Libraries/include/google/protobuf/arena.cc:485-490 | the search finds exactly the one node of the thread |
| `ThreadSafeArena.StepGrows` | Libraries/include/google/protobuf/arena.cc:482-508 | a step of the fallback path only puts new private nodes in front of lists |
| `ThreadSafeArena.FallbackKeepsInv` | Libraries/include/google/protobuf/arena.cc:482-508 | every atomic step of the fallback path, by any threads on any arenas, keeps the invariant |
| `ThreadSafeRuns.InitKeepsInv` | Libraries/include/google/protobuf/arena.cc:301-336 | Init with or without an initial block keeps the invariant |
| `ThreadSafeRuns.DestroyKeepsInv` | Libraries/include/google/protobuf/arena.cc:338-371 | destroying an arena nobody is at work on keeps the invariant of all others |
| `ThreadSafeRuns.ResetIsDestroyThenInit` | Libraries/include/google/protobuf/arena.cc:373-408 | Reset is destruction and Init at the same address with the ownership bit kept |
| `ThreadSafeRuns.StepKeepsInv` | Libraries/include/google/protobuf/arena.cc:301-508 | every step of the whole machine keeps the invariant |
| `ThreadSafeRuns.FastIsLinearSearch` | Libraries/include/google/protobuf/arena_impl.h:567-592 | in every run, whenever the fast path succeeds it returns the node a linear search of the present list would find for this thread |
| `ThreadSafeRuns.FallbackIsLinearSearch` | Libraries/include/google/protobuf/arena.cc:482-508 | in every run, the node a thread is about to cache is the one a linear search would find |
| `ThreadSafeRuns.StaleEntriesNeverHit` | Libraries/include/google/protobuf/arena_impl.h:583-592 | after Init or Reset no entry cached before hits, for any thread; only a user's initial block is found, by the thread that passed it |
| `ArenaCaches.FastHitsExactly` | Libraries/include/google/protobuf/arena_impl.h:567-592 | over every run: the fast path hits if and only if the last write to the thread's cache was for the present life of the arena, or the last write to the hint in that life was by the thread |
| `ArenaCaches.AlternatingHits` | Libraries/include/google/protobuf/arena_impl.h:570-578 | a thread that has been through the fallback path on two arenas hits on both from then on, however it alternates, until another thread writes their hints or they end |
| `ArenaCaches.FallbackFillsBoth` | Libraries/include/google/protobuf/arena.cc:482-508 | over every run: when the fallback path ends, the thread's cache and the hint both hold the node it found or pushed |
| `FallbackProgress.AloneFinishes` | Libraries/include/google/protobuf/arena.cc:482-508 | from any state of any run, a thread on the fallback path can come to its end by its own steps, one per node still ahead and at most six more, and then both its cache and the hint lead to that arena's node |
| `FallbackProgress.AnyArenaCanBeUsed` | Libraries/include/google/protobuf/arena.cc:482-508 | so any thread can use any arena, in at most one step per SerialArena of its list and seven more |
| `ThreadSafeRuns.IdsAreDistinct` | Libraries/include/google/protobuf/arena.cc:305-321 | the lifecycle ids of any run, handed to any threads in any order, are even and pairwise distinct |
| `LifecycleIds.CounterMovesPerBatch` | Libraries/include/google/protobuf/arena.cc:305-321 | over every run the ids that begin a batch are 0, 512, 1024 and so on, one per move of the shared counter |
| `LifecycleIds.IdsOfThread` | Libraries/include/google/protobuf/arena.cc:305-318 | over every run a thread takes its ids in steps of 2 through batches of 256 |
| `ThreadSafeRuns.TagIsNeverSeenExactly` | Libraries/include/google/protobuf/arena_impl.h:618-620 | a tagged id equals the initial thread-cache value exactly for the last id of all on a message-owned arena |
| `ThreadSafeRuns.LastIdHitsFreshCache` | Libraries/include/google/protobuf/arena_impl.h:583-592 | and then, and only then, the fast path of a fresh thread returns null on a message-owned arena; about any state with such a tag, which no run above reaches since Init is not enabled for that id |
| `ThreadSafeRuns.NoPushIsLost` | Libraries/include/google/protobuf/arena.cc:499-504 | over any run without Reset of the arena its list only grows at the front: no pushed node is lost and older nodes keep their order |
| `ThreadSafeRuns.OneNodePerThread` | Libraries/include/google/protobuf/arena.cc:482-508 | in every run each list is a null-ended chain of distinct nodes, at most one per thread |
| `ThreadSafeRuns.InitialStaysLast` | Libraries/include/google/protobuf/arena.cc:330-336 | the SerialArena of the initial block stays the last of the list |
| `ThreadSafeRuns.SwapFailsExactly` | Libraries/include/google/protobuf/arena.cc:499-504 | from any earlier state whose head is the one to be compared with, over any run without Reset of the arena: the compare-and-swap changes nothing, other than by chance, if and only if another thread has pushed in between; otherwise the list of that earlier state gets the node in front. A head that returns after other pushes cannot occur |
| `ArenaTeardown.ArenaMemory.constructor` | Libraries/include/google/protobuf/arena_impl.h:458-474 | the arena as Initialize leaves it; the block the user gave is recorded exactly if it is large enough |
| `ArenaTeardown.ArenaMemory.Work` | Libraries/include/google/protobuf/arena_impl.h:255-363 | any operation of any SerialArena of the list, a new block included, does to memory what the model of that SerialArena says, and the list, its chains and the place of the user's block stay sound |
| `ArenaTeardown.ArenaMemory.PushSerial` | Libraries/include/google/protobuf/arena.cc:493-504 | a SerialArena in a new block joins the list in front and the user's block stays last |
| `ArenaTeardown.ArenaMemory.Deallocate` | Libraries/include/google/protobuf/arena.cc:88-100 | one block goes back, once, with its right size |
| `ArenaTeardown.ArenaMemory.FreeSerial` | Libraries/include/google/protobuf/arena.cc:125-135 | all blocks of the chain but the oldest go back in order; no block is read after it went back |
| `ArenaTeardown.ArenaMemory.Free` | Libraries/include/google/protobuf/arena.cc:363-371 | all blocks of all SerialArenas go back but the oldest of the last, which is returned; each SerialArena is still alive when its successor is read |
| `ArenaTeardown.ArenaMemory.CleanupList` | Libraries/include/google/protobuf/arena.cc:478-480 | SerialArena by SerialArena the calls that its own CleanupList makes, blocks it passes over left out |
| `ArenaTeardown.ArenaMemory.SpaceAllocated` | Libraries/include/google/protobuf/arena.cc:460-467 | the sum of the sizes of all blocks of all SerialArenas |
| `ArenaTeardown.ArenaMemory.SpaceUsed` | Libraries/include/google/protobuf/arena.cc:469-476 | the sum of the sizes of all requests all SerialArenas served by bumping, less the policy |
| `ArenaTeardown.ArenaMemory.Initialize` | Libraries/include/google/protobuf/arena.cc:229-294 | the arena starts with the user's block if it is large enough, else with a block for its policy, else empty |
| `ArenaTeardown.ArenaMemory.ReleaseMemory` | Libraries/include/google/protobuf/arena.cc:338-408 | what Destroy and Reset share: cleanups, blocks, and exactly the user's block kept |
| `ArenaTeardown.ArenaMemory.Destroy` | Libraries/include/google/protobuf/arena.cc:338-361 | the calls of CleanupList first, then every block but the user's; the collector is told exactly the space allocated |
| `ArenaTeardown.ArenaMemory.Reset` | Libraries/include/google/protobuf/arena.cc:373-408 | as Destroy, then a fresh arena of the same ownership and policy; returns exactly what SpaceAllocated was |
| `ArenaTeardown.ReturnedExactlyOnce` | Libraries/include/google/protobuf/arena.cc:338-408 | every block of every thread is given back exactly once, the recorded block of the user never, and nothing else is |
| `ArenaTeardown.UserBlockSurvives` | Libraries/include/google/protobuf/arena.cc:338-408 | the same after any run of allocations by any SerialArenas and of SerialArenas joining the list, from construction with a block of the user's |
| `ArenaTeardown.NothingIsKept` | Libraries/include/google/protobuf/arena.cc:338-408 | after any such run of an arena without a block of the user's: every block is given back exactly once, none is kept, and no other memory is touched |
| `ArenaTeardown.RoundBlocksLoseNothing` | Libraries/include/google/protobuf/arena.cc:191-206 | if all block sizes are multiples of 8 no SerialArena passes over a block |
| `ArenaTeardown.CleanupsRunOnceExactly` | Libraries/include/google/protobuf/arena.cc:478-480 | every cleanup registered with any thread runs exactly as often as it was registered if and only if no SerialArena passes over a block; otherwise fewer run than were registered |
| `TaggedString.TagRoundTrip` | Libraries/include/google/protobuf/arenastring.h:163-208 | tagging an aligned pointer loses nothing: pointer, type and all queries read back |
| `TaggedString.GetIfAllocatedExactly` | Libraries/include/google/protobuf/arenastring.h:170-177 | on every word the exclusive or yields the pointer exactly for heap strings, null otherwise |
| `ArenaString.ArenaStringPtr.NewString` | Libraries/include/google/protobuf/arenastring.h:356-365 | a heap string owned by the field, or an arena string registered for destruction |
| `ArenaString.ArenaStringPtr.Set` | Libraries/include/google/protobuf/arenastring.cc:119-143 | a default field gets a string of its own; any other assigns in place |
| `ArenaString.ArenaStringPtr.Mutable` | Libraries/include/google/protobuf/arenastring.cc:145-184 | the pointer returned is alive and writable; a default field first gets a string with the default text |
| `ArenaString.ArenaStringPtr.Release` | Libraries/include/google/protobuf/arenastring.cc:186-197 | null for the default; a heap string is handed over; of an arena string a heap copy is made |
| `ArenaString.ArenaStringPtr.Destroy` | Libraries/include/google/protobuf/arenastring.cc:219-221 | deletes the string exactly if the field owns it |
| `ArenaString.ArenaStringPtr.InitAllocated` | Libraries/include/google/protobuf/arenastring.h:399-406 | the string is the field's, or the arena's to delete |
| `ArenaString.ArenaStringPtr.SetAllocated` | Libraries/include/google/protobuf/arenastring.cc:199-217 | what the field had is destroyed first, then the new string is taken over or the default restored |
| `ArenaString.ArenaStringPtr.ClearTo` | Libraries/include/google/protobuf/arenastring.cc:223-247 | a default field stays so; any other is overwritten in place |
| `ArenaString.InternalSwap` | Libraries/include/google/protobuf/arenastring.h:433-437 | the two fields exchange their tagged pointers |
| `StringOwnership.AttachKeepsInv` | Libraries/include/google/protobuf/arenastring.h:356-406 | giving a default field a new or a caller's string keeps every string with exactly one owner |
| `StringOwnership.DetachKeepsInv` | Libraries/include/google/protobuf/arenastring.cc:186-197 | taking the string away from a field keeps ownership exact |
| `StringOwnership.SwapKeepsInv` | Libraries/include/google/protobuf/arenastring.h:433-437 | swapping two fields of the same arena, or of none, keeps ownership exact |
| `StringOwnership.EndKeepsInv` | Libraries/include/google/protobuf/arenastring.h:121-124 | an arena that runs its cleanups, if it has any, finalises exactly the strings it owns |
| `StringRuns.ReleaseIs` | Libraries/include/google/protobuf/arenastring.cc:186-197 | Release is a hand-over, or leaving the string to the arena and copying its text |
| `StringRuns.SetAllocatedIs` | Libraries/include/google/protobuf/arenastring.cc:199-217 | SetAllocated is dropping the old string and attaching the new one |
| `StringRuns.StepRefines` | Libraries/include/google/protobuf/arenastring.cc:119-247 | every operation keeps the ownership invariant and does to the fields what it does to plain string variables |
| `StringRuns.FieldsArePlainVariables` | Libraries/include/google/protobuf/arenastring.cc:119-247 | over any run on any heap and arena fields, fields are plain optional strings, and the caller's strings its own |
| `StringRuns.ExactlyOneOwner` | Libraries/include/google/protobuf/arenastring.h:105-126 | in every run each live string but the default has exactly one owner, which finalises it the right way; the default string is owned by nobody and still empty |
| `StringRuns.FinalisedExactlyOnce` | Libraries/include/google/protobuf/arenastring.h:113-126 | in every run no string is finalised twice, and all are finalised once no field, arena or caller is left to own one |
| `DescriptorIndex.ParentIsLess` | Libraries/include/google/protobuf/descriptor_database.h:239-241 | a symbol sorts before what is nested in it |
| `DescriptorIndex.BetweenIsNested` | Libraries/include/google/protobuf/descriptor_database.h:249-257 | any valid name that sorts between a symbol and a name nested in it is nested in it too |
| `DescriptorIndex.UpperBoundSplits` | Libraries/include/google/protobuf/descriptor_database.cc:169-174 | keys before the upper bound are not above the name, all others are |
| `DescriptorIndex.MatchIsLast` | Libraries/include/google/protobuf/descriptor_database.h:233-257 | every symbol the name is nested in is a parent of the key the search stops at |
| `DescriptorIndex.LookupFindsTheMatch` | Libraries/include/google/protobuf/descriptor_database.h:219-268 | under the map invariant the last key not above any name matches it if and only if some key does, and no other key does |
| `DescriptorIndex.NestedBreaksLookup` | Libraries/include/google/protobuf/descriptor_database.h:219-228 | if a symbol is nested in another, some name is looked up wrongly |
| `DescriptorIndex.LookupIsRightExactly` | Libraries/include/google/protobuf/descriptor_database.h:219-268 | the lookup is right for all names if and only if no symbol is nested in another |
| `DescriptorIndex.Index.AddSymbol` | Libraries/include/google/protobuf/descriptor_database.cc:196-251 | accepts exactly what its two checks let through, and then inserts in order |
| `DescriptorIndex.Index.FindSymbol` | Libraries/include/google/protobuf/descriptor_database.cc:298-306 | what the key the search stops at gives; under the map invariant the file of the one symbol the name is nested in, or none exactly if there is no such symbol |
| `DescriptorIndex.FirstAboveIsNested` | Libraries/include/google/protobuf/descriptor_database.cc:228-232 | if any key is nested in a new name, the first key above it is |
| `DescriptorIndex.AcceptsExactly` | Libraries/include/google/protobuf/descriptor_database.cc:204-241 | a name is accepted exactly if it is valid, nested in no key, and no key is nested in it or that conflict is the one overlooked |
| `DescriptorIndex.AddSymbolKeepsInvariantExactly` | Libraries/include/google/protobuf/descriptor_database.cc:199-251 | an accepted symbol keeps the map invariant exactly if no conflict was overlooked |
| `DescriptorIndex.AddAllKeepsNested` | Libraries/include/google/protobuf/descriptor_database.cc:196-251 | a conflict that got in stays in, whatever is offered later |
| `DescriptorIndex.BuiltIndexIsRightExactly` | Libraries/include/google/protobuf/descriptor_database.cc:196-251 | whatever symbols are offered in whatever order, lookup is right for all names if and only if no conflict was overlooked |
| `DescriptorIndex.OverlookedConflict` | Libraries/include/google/protobuf/descriptor_database.cc:228-235 | `foo` is accepted after `foo.bar`, and then `foo.baz` is no longer found |
| `SymbolNames.FullNameIsAccepted` | Libraries/include/google/protobuf/descriptor_database.cc:199-251 | identifiers joined by periods are accepted by every index that keeps the map invariant, unless nested in a key or a key in them |
| `SymbolNames.FullNameStartsIndex` | Libraries/include/google/protobuf/descriptor_database.cc:199-218 | and by the empty index |
| `SymbolNames.AcceptedNamesExactly` | Libraries/include/google/protobuf/descriptor_database.cc:152-163 | an empty index accepts exactly the names whose characters all occur in names of the grammar, names the grammar does not allow among them |
| `AnyUrl.LastSlash` | Libraries/include/google/protobuf/any_lite.cc:72-76 | the last slash of the URL, or none exactly if there is none |
| `AnyUrl.ParseExactly` | Libraries/include/google/protobuf/any_lite.cc:72-84 | a URL parses to a prefix and a name exactly if it is their concatenation, the prefix ends in a slash and the name is nonempty and slash-free |
| `AnyUrl.RoundTripExactly` | Libraries/include/google/protobuf/any_lite.cc:41-49 | for every prefix a printed name parses back exactly if it is nonempty and slash-free |
| `AnyUrl.ParseThenPrint` | Libraries/include/google/protobuf/any_lite.cc:41-84 | printing what was parsed gives the URL again |
| `AnyUrl.IsAgreesWithParseExactly` | Libraries/include/google/protobuf/any_lite.cc:70-75 | suffix match and parser agree on all URLs exactly for nonempty slash-free names |
| `AnyUrl.IsImproperName` | Libraries/include/google/protobuf/any_lite.cc:70-75 | for every other name a URL on which they differ |
| `AnyUrl.PackedIs` | Libraries/include/google/protobuf/any_lite.cc:41-75 | a packed message is recognised under its own name, and among slash-free names under no other |
| `AnyUrl.AnyMetadata.InternalPackFrom` | Libraries/include/google/protobuf/any_lite.cc:55-60 | the URL written matches the name, and parses back to it if it is nonempty and slash-free |
| `AnyUrl.AnyMetadata.InternalUnpackTo` | Libraries/include/google/protobuf/any_lite.cc:62-68 | the payload is parsed exactly if the name matches |

## Left out

- Winsock, completion ports, AcceptEx, ConnectEx, DisconnectEx and socket options: an operation is posted and completes or
  fails. Which errors HandleError takes for a disconnect is a parameter.
- Critical sections are single steps, except that Send's push and exchange are two because the failure path writes the
  flag without the lock; atomics are sequentially consistent, weak memory orders are not modelled.
- The overflow of `int32` sizes in the receive buffer, which its fixed capacity of 655360 bytes excludes, and of the
  `writeSize` sum in RegisterSend, which the code computes and never uses.
- Builds with assertions compiled out, in which ReleaseSession would not erase and MakeSendBuffer would not serialize.
- Reference counts of sessions and send buffers; BufferReader, BufferWriter and SendBuffer, which would add only easy members.
- The client copy of the session (`Source/MMORPG2/Network/NetworkSession.cpp`), which repeats the server's; its
  `Buffer.cpp` holds the same RecvBuffer and is the copy cited. Game rules, database access and the Unreal client.
- Requests within 40 bytes of 2^64, where adding a cleanup node and a header wraps.
- Metrics hooks, sampling, ASAN poisoning, 32-bit layouts, `PROTOBUF_FORCE_COPY_*` variants and debug-only string copies.
- Cleanup callbacks that touch the arena, and Reset or destruction concurrent with allocation: the arena forbids both.
- Exhaustion of the 64-bit id counter: Init is enabled only while ids are left and its tag is not the initial cache value.
- The AllocationPolicy object itself, which lives in the first block: its sizes are a parameter and only the room for it
  is counted.
- Lifecycle.PoliteRunsAgree: covers runs in which nobody reconnects a session before its earlier connection is gone, since
  what it says can be false of the others; for all runs there are Lifecycle.AssertFailsExactly,
  Lifecycle.CounterIsSizeExactly and Lifecycle.DisconnectOnce.
- Lifecycle.EraseAlwaysSucceeds: a sufficient condition only; the exact one, for all runs, is Lifecycle.AssertFailsExactly.
- ArenaString.ArenaStringPtr.Release: what moving out of an arena string leaves behind is a parameter, since the library
  does not specify it.
- Fixed-size arena strings, which this build never makes, and lazily built default strings beyond their text.
- EncodedDescriptorDatabase, the file and extension indexes, and AddFile around AddSymbol: plain map insertions.
- Serializing and parsing the payload of an Any: their results are parameters.
- Strings are sequences of characters compared by code; locale and UTF-8 validity play no part in the code modelled.
