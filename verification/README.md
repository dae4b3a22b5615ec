# CloudServer verification

A Dafny model of the protocol code of CloudServer, a C++ server on libevent, with proofs of
what that code is for. `dafny verify dfyconfig.toml` checks the whole project.

The model follows the source file by file. Objects that change are classes whose methods
are tied, field by field, to a function on values; the theorems are about those functions
and about whole runs of the state machines made of them.

| part | files | modules |
|---|---|---|
| checksums | `BitSerial`, `CrcTables`, `CrcRegister`, `Crc` | bit-serial division as the reference, the tables and the loops of Package/CRC.cpp against it, what the check detects |
| packages | `Octets`, `Packages`, `PackageProperties` | Package/ChatPackage.cpp, EchoPackage.cpp, MultipleProtocol.cpp |
| connection | `Connection`, `TConnection`, `ConnectionProperties`, `StreamCuts`, `HttpDelivery` | the re-entrant framing machine of main/TConnection.cpp as functions, as an object, its stream theorem, and what becomes of an HTTP request on the wire |
| mutex and pools | `Mutex`, `Threads`, `BoundedPool`, `PoolCallers`, `PoolShutdown`, `MThreadPool`, `DrainingPool`, `ThreadPool` | base/Mutex.h, base/ThreadPool.cpp and main/ThreadPool.h as machines of atomic steps under every interleaving |
| buffer | `ByteStore`, `BigEndian`, `Buffer` | base/Buffer.h and base/Buffer.cpp: one array and two indices refining a byte queue |
| HTTP | `Text`, `Http`, `HttpContext`, `HttpProperties`, `HttpRoundTrip`, `Response`, `ResponseProperties`, `ResponseHeaders` | the resumable request parser and the response printer |
| recycling | `Recycling`, `RecyclingProperties`, `FreeLists`, `MainServer` | the two free lists and the descriptor map of main/MainServer.cpp and main/PortListener.cpp |

## How the environment enters

Bytes arrive as arbitrary chunks appended to the input of a connection. The memory past the
received bytes, which the recognisers may read, is an arbitrary function. Threads interleave
in every way; a notification wakes at least one sleeper if there is one, sleepers may wake
for no reason, and any thread may get a mutex before a woken one. The operating system
hands out descriptors; readv delivers any number of bytes the two areas can hold. Times are
numbers given by the caller. Bytes of the framing layer are eight-bit words, bytes of the
buffer and of HTTP are characters. The stored CRC is in host order, taken to be little-endian
as on the machines the server is built for.

## What the code does that its comments do not say

- A chat package can be built with any payload, but only one of 1 to 65525 bytes can be parsed
  back (`SurvivesExactlyWhenSized`): the recogniser wants more than ten bytes, and the length
  field has sixteen bits.
- The length field of a package has no protection of its own: damage to it can make the
  recogniser accept a part of the payload as a package (`DamagedLengthIsAccepted`).
- `heartBeat` enters the closing state before it tests whether the peer is late. From then on, until
  the connection is recycled, it delivers no package and closes at the next one
  (`HeartBeatEndsDelivery`, `MutedCallback`); but HTTP requests are still served (`MutedStillServes`).
- The scan in `parseOnePackage` inspects the front of the memory every time round, so bytes in
  front of a package are never skipped: once ten bytes are there and neither format claims the
  front, the whole input goes to the HTTP server and is dropped (`GoesToHttpIff`).
- A task of `MThreadPool` may call `run` on its own pool, as the I/O loops of the server do. When the
  queue is full and every worker is in such a call, the pool is deadlocked, and nothing ends that
  (`StuckIffDeadlocked`, `DeadlockIsForGood`, `TasksMayDeadlockThePool`).
- `MThreadPool::stop` neither drains the queue nor wakes producers (`StopMayDropAndStrand`). No
  accepted task is lost if and only if the queue is no longer than the workers in, or about to
  enter, `take` are many (`StopDropsNothingIff`, `StopDropsNothingFrom`); a waiting producer can still
  return if and only if the queue is not full (`ProducerIsStrandedIff`). The pool of
  main/ThreadPool.h drains, provided that it has a worker (`JoinedMeansDone`).
- The echo recogniser accepts a frame of which one byte has arrived, so a stream is delivered as
  sent if and only if no chunk boundary cuts an echo frame (`StreamIsDeliveredIff`).
- The HTTP server parses every block with a new context: a request is served from its first block if and
  only if no chunk ends between its tenth byte and its last, and further requests in that block are
  dropped (`RequestIsServedIff`).
- Any line without a colon ends an HTTP header block, not only an empty one (`FieldsAreParsed`).
- A rejected request line is left in the buffer with the method already stored, so a second
  parse would fail the assertion in `setMethod` (`RejectedLineStays`).
- The printed `Content-Length` line is cut by its 32-byte buffer from ten trillion bytes on
  (`LengthLineIsWhole`, `BodyComesBackIff`).
- Connections keep the I/O thread they were allocated on, so the active ones may be spread unevenly
  (`ActiveLoadIsBounded`, `LoadMayBeUneven`).
- The index of an I/O thread is taken modulo ten, whatever number of threads was configured
  (`ThreadIndexInRangeIff`).
- The descriptor map is filled with `insert`, which keeps an old entry (`AcceptKeepsMapIff`).
- A socket accepted but not yet handed to a connection is deleted by neither destructor
  (`ShutdownFreesOnce`).

## Model

Of the classes `MThreadPool`, `ThreadPool` and `GuardedMutex` only the methods with branches have a
row; every other method is one more step of its machine, with the same contract.

| member | source | states |
|---|---|---|
| CrcTables.Crc16Entry | Package/CRC.cpp:83-139 | every entry of the two CRC-16 tables is eight steps of the reflected polynomial 0xA001 from its index |
| CrcTables.Crc32Entry | Package/CRC.cpp:4-48 | every entry of the CRC-32 table is eight steps of the reflected polynomial 0xEDB88320 from its index |
| CrcRegister.Crc16Turn | Package/CRC.cpp:145-149 | one turn of the table loop, two bytes of register kept apart, is bit-serial division of the register by the eight bits of the message byte |
| CrcRegister.Crc32Turn | Package/CRC.cpp:60-63 | the same for one turn of the CRC-32 loop |
| Crc.Crc16 | Package/CRC.cpp:141-151 | the loop computes the bit-at-a-time division of the message, initial value 0xFFFF |
| Crc.Crc32 | Package/CRC.cpp:58-66 | the loop computes the bit-at-a-time division from the given start, complemented at the end |
| Crc.Crc32Check | Package/CRC.cpp:76-80 | initial value 0xFFFFFFFF |
| Crc.Crc16IsRemainder | Package/CRC.cpp:141-151 | what `crc16` computes is the remainder of an independent division on bit strings |
| Crc.Crc32IsRemainder | Package/CRC.cpp:58-80 | the same for `crc32_check`, before the final complement |
| BitSerial.RemainderCompletes | Package/CRC.cpp:141-151 | appending the remainder is the only way to make a message divide to zero |
| BitSerial.BurstChangesRemainder | Package/CRC.cpp:141-151 | no error confined to as many consecutive bits as the register has leaves the remainder unchanged, for every polynomial with its top bit set |
| Crc.BurstChangesCrc16 | Package/CRC.cpp:141-151 | messages that differ only within sixteen consecutive bits have different CRC-16 |
| Crc.BurstChangesCrc32 | Package/CRC.cpp:76-80 | messages that differ only within thirty-two consecutive bits have different CRC-32 |
| Crc.CodeWordsDivide | Package/ChatPackage.cpp:41-45 | a message followed by its stored CRC, low byte first, is exactly what drives the register to zero |
| Crc.BurstIsDetected | Package/ChatPackage.cpp:55-74 | no burst of at most sixteen bits, the stored CRC included, turns a message with its CRC into another |
| Crc.Crc16Parity | Package/CRC.cpp:141-151 | the bit parity of the CRC is the bit parity of the message |
| Crc.OddErrorIsDetected | Package/ChatPackage.cpp:55-74 | no error in an odd number of bits turns a message with its CRC into another |
| Packages.BuildChat | Package/ChatPackage.cpp:18-47 | the building constructor produces exactly the frame `ChatFrame`, its length fields kept in sixteen bits |
| Packages.IsOnePackage | Package/ChatPackage.cpp:55-74 | the four outcomes of the recogniser, and that a refusal leaves the out-parameters alone |
| Packages.ChatParseOnePackage | Package/ChatPackage.cpp:81-102 | the scan loop, which always inspects the front, stops at once or runs to the end |
| Packages.Be16RoundTrip | Package/ChatPackage.cpp:26-29 | a length in network order reads back |
| Packages.Be16IsBigEndian | Package/ChatPackage.cpp:26-29 | the high byte of a length comes first |
| Packages.MultipleProtocol.ParseOnePackage | Package/MultipleProtocol.cpp:11-19 | first match in order; a protocol that declines may still have written the out-parameters |
| Packages.MultipleProtocol.GetOnePackage | Package/MultipleProtocol.cpp:21-30 | first package in order |
| PackageProperties.ChatFrameLayout | Package/ChatPackage.cpp:11-47 | where every field of a built frame is, and that it carries its CRC |
| PackageProperties.ChatFixedBytes | Package/ChatPackage.cpp:25-33 | the version byte and the reserved byte of a built frame |
| PackageProperties.BuiltIsRecognised | Package/ChatPackage.cpp:18-74 | a built package followed by any bytes is recognised at exactly its length |
| PackageProperties.ChatRoundTrip | Package/ChatPackage.cpp:9-114 | building and then getting gives back payload, type and encryption |
| PackageProperties.PrefixWantsTheRest | Package/ChatPackage.cpp:55-74 | a proper prefix is reported with exactly the number of missing bytes |
| PackageProperties.PartialIsReported | Package/ChatPackage.cpp:81-102 | the parser passes both sizes on, in their places |
| PackageProperties.SurvivesExactlyWhenSized | Package/ChatPackage.cpp:17-114 | a payload comes back if and only if it has 1 to 65525 bytes; an empty one and a length that wraps do not |
| PackageProperties.BurstIsRejected | Package/ChatPackage.cpp:41-74 | a built package damaged within sixteen consecutive bits, length field apart, is never accepted, whatever follows |
| PackageProperties.OddErrorIsRejected | Package/ChatPackage.cpp:41-74 | nor is one with an odd number of damaged bits before the tail flag |
| PackageProperties.DamagedLengthIsAccepted | Package/ChatPackage.cpp:55-74 | the length field is the exception: for every short enough payload there is a package in which damage to that field alone is accepted as a shorter package |
| PackageProperties.OddDamageToLengthIsAccepted | Package/ChatPackage.cpp:55-74 | the same with an odd number of damaged bits |
| ConnectionObject.TConnection.Transition | main/TConnection.cpp:136-177 | does to the fields what the machine does to the state, and the mutual recursion ends on every input (lexicographic measure: bytes of input, then rank of the state) |
| ConnectionObject.TConnection.WorkSocket | main/TConnection.cpp:283-295 | the same |
| ConnectionObject.TConnection.RecvFraming | main/TConnection.cpp:297-330 | the same; the HTTP branch records the discarded block |
| ConnectionObject.TConnection.ReadRequest | main/TConnection.cpp:179-213 | the same; the fetched package is recorded as delivered |
| ConnectionObject.TConnection.Close | main/TConnection.cpp:215-232 | frees the bufferevent and enters the closing state |
| ConnectionObject.TConnection.ReadCallback | main/TConnection.cpp:269-276 | the time is noted, the chunk appended and the socket worked |
| ConnectionObject.TConnection.HeartBeat | main/TConnection.cpp:242-252 | the closing state is entered before the age of the last read is tested |
| ConnectionProperties.FrameAtFront | main/TConnection.cpp:297-330 | a complete frame at the front is accepted at its length and fetched as itself |
| ConnectionProperties.PartialChatWaits | main/TConnection.cpp:297-330 | a proper prefix of a chat package leaves input, deliveries and discarded blocks as they are; from ten bytes on, the size of the whole and of what is missing are stored |
| ConnectionProperties.Settle | main/TConnection.cpp:136-330 | one callback delivers exactly the frames that are complete and leaves the rest of the stream |
| ConnectionProperties.StreamIsDelivered | main/TConnection.cpp:136-330 | any list of chat packages and echo frames, in any chunks that do not cut an echo frame, is delivered package for package, in order, and nothing is discarded |
| StreamCuts.StreamIsDeliveredIff | main/TConnection.cpp:136-330 | the same packages, in order, with nothing discarded and nothing left over, if and only if no chunk boundary cuts an echo frame |
| StreamCuts.CutEchoIsOversized | Package/EchoPackage.cpp:18-31 | an echo frame of which only a part is there is accepted at a size that reaches past the input |
| ConnectionProperties.ChatChunksAreUncut | main/TConnection.cpp:297-330 | with chat packages only, every chunking is allowed |
| ConnectionProperties.AcceptedIsFetched | main/TConnection.cpp:180-213 | whatever was accepted is also fetched, as a package made of exactly the bytes that are drained |
| ConnectionProperties.EveryByteIsAccountedFor | main/TConnection.cpp:136-330 | on every input an idle connection stays idle, and every byte taken is in exactly one delivered package or in the one discarded block |
| ConnectionProperties.GoesToHttpIff | main/TConnection.cpp:307-326 | an input goes to the HTTP server whole if and only if it has ten bytes and neither format claims its front |
| HttpDelivery.RequestIsServedIff | main/TConnection.cpp:307-326 | of a stream that begins with a request, the first block the HTTP server gets serves that request if and only if no chunk ends between its tenth byte and its last; otherwise the block is a proper prefix on which the parser is left waiting; what follows the request in its block is dropped unread |
| HttpDelivery.PrintedIsRequest | http/httpContext.cpp:5-112 | every printed request is such a request |
| HttpDelivery.CutRequestIsNotServed | http/httpServer.cpp:46-61 | a proper prefix of a request is never served by itself |
| HttpDelivery.OnlyTheFirstIsTaken | http/httpServer.cpp:46-61 | of a block with several requests only the first is parsed |
| HttpObjects.HttpServer.OnMessage | http/httpServer.cpp:46-61 | each block is parsed with a new context, and the request handed on exactly if the parser got all of it |
| ConnectionProperties.ActiveStaysIdle | main/TConnection.cpp:136-157 | from activation on, every read callback ends in APP_READ_FRAME_SIZE and SOCKET_RECV_FRAMING |
| ConnectionProperties.HeartBeatEndsDelivery | main/TConnection.cpp:242-252 | one heartbeat, even on a connection heard from in time, ends all delivery over every later run, until `init` sets the connection up anew |
| ConnectionProperties.HeartBeatClosesIff | main/TConnection.cpp:242-252 | a heartbeat closes an open connection if and only if the peer is late and could not be notified; a closed one has no input and never changes again, an open one keeps everything |
| ConnectionProperties.NotifiedCloses | main/TConnection.cpp:170-172 | after a heartbeat that notified the connection's thread, the connection is closed for good when that thread wakes |
| ConnectionProperties.BrokenIsFinal | main/TConnection.cpp:254-267 | when the peer goes away the connection is closed for good |
| ConnectionProperties.MutedCallback | main/TConnection.cpp:136-330 | what the connection does after that with every chunk: an accepted package closes it undelivered, an input that no format will claim still goes to the HTTP server and leaves it open, anything else waits |
| HttpDelivery.MutedStillServes | main/TConnection.cpp:242-326 | after a heartbeat that does not close it, the connection still hands a request to the HTTP server and stays open |
| Mutex.HolderIsExact | base/Mutex.h:28-66 | in every interleaving `isLockedByThisThread` is true for exactly the thread inside a guard and not waiting; at most one thread has the mutex; the destructor's assertion holds exactly when none is inside |
| Mutex.WaitingFreesTheMutex | base/Mutex.h:96-110 | a thread that is waiting or outside never keeps another from the mutex |
| Mutex.StepKeepsInv | base/Mutex.h:28-35 | owner and holder agree with the places of the threads after every step |
| MutexObject.GuardedMutex.IsLockedBy | base/Mutex.h:36-42 | true if and only if the thread is inside a guard and not waiting |
| BoundedPool.NoLostWakeup | base/ThreadPool.cpp:63-105 | under every interleaving, barging and spurious wakeup: a worker sleeps only if the queued tasks have as many signalled workers, a producer only if the free slots have as many signalled producers; never both asleep with nobody awakened |
| BoundedPool.StepKeepsInv | base/ThreadPool.cpp:46-129 | every critical section keeps the invariants, running or stopped |
| BoundedPool.TasksAreConserved | base/ThreadPool.cpp:63-120 | dispatched tasks followed by the queue are the accepted tasks in order; the bound is never exceeded; each dispatched task is done or on exactly one worker |
| PoolCallers.CallerQueuesItsTask | base/ThreadPool.cpp:63-79 | over every run, the step that lets a caller of `run` return adds that caller's own task to the accepted ones, however long it waited, also when it runs the task itself |
| PoolCallers.EveryTaskIsKnown | base/ThreadPool.cpp:63-79 | over every run, the tasks accepted and those that still wait are, as a multiset, exactly those submitted |
| PoolCallers.RunsUntilStop | base/ThreadPool.cpp:46-51 | the pool is running if and only if `stop` has not been called |
| BoundedPool.StuckIffDeadlocked | base/ThreadPool.cpp:63-99 | a running pool with work or a waiting producer has a thread that can step by itself if and only if not every worker is executing a task that sleeps in `run` with nobody woken |
| BoundedPool.DeadlockIsForGood | base/ThreadPool.cpp:63-79 | from such a state no later run dispatches, finishes or accepts a task, whatever wakes spuriously, whoever calls, `stop` included |
| BoundedPool.TasksMayDeadlockThePool | base/ThreadPool.cpp:63-120 | a run of five steps into such a state: one worker, whose task submits twice to a queue of one |
| BoundedPool.WorkersComeToRest | base/ThreadPool.cpp:81-99 | left to themselves, the workers of a running pool take a bounded number of steps: they sleep and do not spin |
| BoundedPool.StoppedStep | base/ThreadPool.cpp:46-120 | after `stop` every worker step lowers a measure and no other step raises it |
| BoundedPool.JoinsComplete | base/ThreadPool.cpp:46-55 | after `stop` the workers take at most three steps each, and one of them can step if and only if some worker has neither exited nor executes a task that waits in `run` |
| BoundedPool.AtMostOneMoreTask | base/ThreadPool.cpp:81-120 | after `stop` a worker dispatches at most one further task, and only if it was inside `take` |
| BoundedPool.NothingAfterExit | base/ThreadPool.cpp:46-55 | once all workers have exited nothing is dispatched any more |
| BoundedPool.StopMayDropAndStrand | base/ThreadPool.cpp:46-79 | a run in which `stop` drops an accepted task and leaves a producer asleep: the witness for the two conditions of PoolShutdown |
| PoolShutdown.StopDropsNothingIff | base/ThreadPool.cpp:46-55 | once no worker will take a task any more, every task accepted before the stop has been dispatched if and only if the queue was no longer than the workers inside `take` were many, in every interleaving and whatever is submitted meanwhile |
| PoolShutdown.StopDropsNothingFrom | base/ThreadPool.cpp:46-99 | the same, read off the state in which `stop` is called: workers about to enter `take`, signalled or asleep |
| PoolShutdown.ExitedHaveTakenLast | base/ThreadPool.cpp:46-55 | when all workers have exited, none will take a task any more |
| PoolShutdown.ProducerIsStrandedIff | base/ThreadPool.cpp:63-79 | from then on a waiting producer, be it a task on a worker, can still return from `run` if and only if the queue is not full, and without a spurious wakeup only if it was awake already |
| MThreadPoolObject.MThreadPool.TakeTask | base/ThreadPool.cpp:81-99 | the critical section of `take` is the machine's step, invariants kept |
| MThreadPoolObject.MThreadPool.RunTask | base/ThreadPool.cpp:63-79 | `run` by a caller that does not wait, or that runs the task itself when there are no workers |
| MThreadPoolObject.MThreadPool.StopRunning | base/ThreadPool.cpp:46-51 | the locked part of `stop` |
| DrainingPool.NoLostWakeup | main/ThreadPool.h:39-97 | a worker sleeps only if every queued task has a signalled worker or a notification still to be sent after the unlock |
| DrainingPool.AcceptedIsEnqueued | main/ThreadPool.h:85-106 | over every run, exactly the tasks enqueued before the destructor began are accepted, in order, and the two flags follow the destructor |
| DrainingPool.WorkersComeToRest | main/ThreadPool.h:47-63 | left to themselves, the workers take a bounded number of steps |
| DrainingPool.StepKeepsInv | main/ThreadPool.h:39-110 | every step keeps the invariants |
| DrainingPool.DrainedOnceAWorkerLeft | main/ThreadPool.h:47-58 | from the moment any worker has left, the pool is stopping and its queue stays empty for the rest of the run |
| DrainingPool.JoinedMeansDone | main/ThreadPool.h:100-110 | when all workers have been joined, every accepted task was dispatched in order and has finished, if and only if there was a worker or nothing was accepted |
| DrainingPool.JoinsComplete | main/ThreadPool.h:100-110 | after the destructor's notification the workers take a bounded number of steps, and until all have left one can step |
| ThreadPoolObject.ThreadPool.EnterQueue | main/ThreadPool.h:51-62 | a worker's turn under the mutex: wait, leave or pop |
| ThreadPoolObject.ThreadPool.EnqueueTask | main/ThreadPool.h:85-94 | throws and changes nothing once the pool is stopping, otherwise queues and owes a notification |
| ByteStore.RunRefinesQueue | base/Buffer.h:26-35 | every sequence of operations on one buffer acts on the readable bytes as the simple queue does, uses no more front space than was prepended, and keeps the storage within twice the peak demand |
| ByteStore.PairRefinesQueues | base/Buffer.h:55-60 | two buffers, however used and swapped, act as two simple queues that are exchanged |
| ByteStore.CheapPrependIsAlwaysThere | base/Buffer.h:39-50 | after any run there is room in front for what is missing of eight prepended bytes |
| ByteStore.StepKeepsPromise | base/Buffer.h:107-213 | one operation does to the bytes what is promised and keeps the indices in order |
| ByteStore.EnsureMakesSpace | base/Buffer.h:188-195 | at least the requested bytes become writable, growing only when compaction is not enough |
| ByteStore.EmptiedIsReset | base/Buffer.h:107-118 | an emptied buffer has all its storage but the cheap prepend space to write to |
| ByteStore.ShrinkIsRebuilding | base/Buffer.h:356-363 | a shrunk buffer is a new one given the space and then the bytes, with the reserve writable |
| BufferObject.Buffer.constructor | base/Buffer.h:42-50 | empty, eight bytes in front, the initial size writable |
| BufferObject.Buffer.FindCRLF | base/Buffer.h:74-79 | the first CRLF of the readable bytes, or the end |
| BufferObject.Buffer.FindEOL | base/Buffer.h:90-94 | the first line feed of the readable bytes, or the end |
| BufferObject.Buffer.Retrieve | base/Buffer.h:107-118 | drops bytes from the front; an emptied buffer goes back to the start |
| BufferObject.Buffer.RetrieveUntil | base/Buffer.h:120-125 | drops what precedes the pointer |
| BufferObject.Buffer.RetrieveAll | base/Buffer.h:147-151 | empties the buffer |
| BufferObject.Buffer.RetrieveAsString | base/Buffer.h:158-164 | what is returned and what is left are what was there |
| BufferObject.Buffer.Unwrite | base/Buffer.h:209-213 | drops bytes from the end |
| BufferObject.Buffer.HasWritten | base/Buffer.h:203-207 | declares bytes already put into the writable area |
| BufferObject.Buffer.MakeSpace | base/Buffer.h:384-403 | grows or compacts; the assertion before compaction always holds |
| BufferObject.Buffer.CopyDown | base/Buffer.h:396-398 | the overlapping forward copy preserves the content |
| BufferObject.Buffer.EnsureWritableBytes | base/Buffer.h:188-195 | at least the requested bytes are writable, content unchanged |
| BufferObject.Buffer.Append | base/Buffer.h:176-181 | the content followed by the data |
| BufferObject.Buffer.Prepend | base/Buffer.h:348-354 | the data followed by the content |
| BufferObject.Buffer.Shrink | base/Buffer.h:356-363 | same content in a storage of exactly the size needed |
| BufferObject.Buffer.ReadFd | base/Buffer.cpp:21-53 | a failed readv saves its error number and changes nothing else; otherwise the content followed by what was delivered, whether or not it overflowed into the extra area |
| BufferObject.Buffer.AppendInt | base/Buffer.h:218-242 | appends the bytes in network order |
| BufferObject.Buffer.PrependInt | base/Buffer.h:322-346 | prepends the bytes in network order |
| BufferObject.Buffer.ReadInt | base/Buffer.h:248-317 | an integer that was appended or prepended is read back as itself and consumed |
| BigEndian.IntRoundTrip | base/Buffer.h:218-317 | conversion to network order and back is the identity in both directions, for every width and sign |
| BigEndian.FirstDigitIsHigh | base/Buffer.h:218-242 | the first byte of an integer carries its high part |
| HttpObjects.HttpRequest.SetMethod | http/httpRequest.h:48-71 | the five names, anything else is invalid |
| HttpObjects.HttpRequest.AddHeader | http/httpRequest.h:126-142 | the two loops trim the value; a later field of the same name replaces an earlier one |
| HttpObjects.HttpRequest.GetHeader | http/httpRequest.h:144-152 | the value, or the empty string |
| HttpObjects.HttpContext.Reset | http/httpContext.h:37-42 | the context is as new |
| HttpObjects.HttpContext.ProcessRequestLine | http/httpContext.cpp:5-59 | result and partly set fields, also of a rejected line |
| HttpObjects.HttpContext.ParseRequest | http/httpContext.cpp:63-112 | the loop over the buffer ends with the result, context and unread bytes of `Parse` |
| HttpProperties.MethodNames | http/httpRequest.h:48-101 | method names and methods are inverse to each other |
| HttpProperties.NamesAreFixed | http/httpRequest.h:48-101 | the five method names and the two versions, letter for letter |
| HttpProperties.RejectedLineSets | http/httpContext.cpp:5-59 | what a rejected line leaves in the request: its method, and its target if it has one |
| HttpProperties.AcceptedReprints | http/httpContext.cpp:5-59 | the fields stored for an accepted line print to exactly that line |
| HttpProperties.RequestLineIff | http/httpContext.cpp:5-59 | a line is accepted if and only if it is METHOD SP target SP version with a known method, a space-free target and HTTP/1.0 or HTTP/1.1; it has only one reading |
| HttpProperties.UnfinishedIsReady | http/httpContext.cpp:63-112 | a parse that has neither failed nor got all can be resumed and waits for a CRLF; only a request line can fail, and then nothing is consumed |
| HttpProperties.RejectedLineStays | http/httpContext.cpp:74-82 | a rejected line stays in the buffer; parsing again meets the assertion of setMethod unless it did not begin with a known method |
| HttpProperties.ResumedIsWhole | http/httpContext.cpp:63-112 | stopping anywhere, also between CR and LF, and going on is parsing in one go; after an error or kGotAll the new bytes stay unread |
| HttpProperties.TimeIsOnlyRecorded | http/httpContext.cpp:76 | the receive time influences nothing else |
| HttpProperties.ChunksDoNotMatter | http/httpContext.cpp:63-112 | however a text is cut into chunks, result, state, request and unread bytes are those of one parse, receive time apart |
| HttpRoundTrip.ValueIsTrimmed | http/httpRequest.h:128-139 | the trimming loops take off exactly the white space around the value |
| Text.SpacesOfTheCLocale | http/httpRequest.h:130-136 | the six characters that are white space |
| HttpRoundTrip.FieldsAreParsed | http/httpContext.cpp:87-106 | all field lines are recorded, and the first line without a colon ends them |
| HttpRoundTrip.PrintedRequestIsParsed | http/httpContext.cpp:5-112 | printing a request and parsing it yields kGotAll with exactly that method, target, version and headers, following bytes unread |
| HttpRoundTrip.HeadersComeBack | http/httpRequest.h:141 | any map of headers comes back from any list of its entries |
| ResponseObject.HttpResponse.AppendToBuffer | http/httpResponse.cpp:16-49 | the buffer's content followed by the printed response, headers in key order |
| Responses.SortedIsAscending | http/httpResponse.cpp:38-44 | the headers are visited once each, in ascending order of their keys |
| Responses.SortedIsLexicographic | http/httpResponse.cpp:38-44 | of two headers the first printed has the lexicographically smaller key: a proper prefix, or a smaller character where they first differ |
| Responses.StatusCodesArePrinted | http/httpResponse.h:13-20 | each status code, digit for digit |
| ResponseProperties.LengthLineIsWhole | http/httpResponse.cpp:18-33 | the 32-byte buffer holds the whole Content-Length line if and only if the body has fewer than ten trillion bytes |
| ResponseProperties.DecimalIsRead | http/httpResponse.cpp:32 | the printed decimal reads back as the number |
| ResponseProperties.FirstBlankLine | http/httpResponse.cpp:38-46 | in joined non-empty lines no blank line comes before the end |
| ResponseProperties.HeaderBlockEndsAtBlankLine | http/httpResponse.cpp:16-49 | the first CRLFCRLF of a printed response ends its header block, and the body follows it |
| ResponseProperties.PrintedHeadIsRead | http/httpResponse.cpp:16-49 | a reader of lines finds exactly the printed header lines and then the body |
| ResponseProperties.StreamIsDecoded | http/httpResponse.cpp:16-49 | any concatenation of keep-alive responses splits back into their bodies, in order, whatever follows |
| ResponseProperties.UniquelyDecodable | http/httpResponse.cpp:16-49 | no stream is the print of two lists of responses with different bodies |
| ResponseProperties.BodyComesBackIff | http/httpResponse.cpp:18-34 | a single response is decoded to its body if and only if the body has fewer than ten trillion bytes |
| ResponseHeaders.StatusLineIsWhole | http/httpResponse.cpp:18-22 | the printed status line is never cut |
| ResponseHeaders.HeadersAreReadBack | http/httpResponse.cpp:24-48 | the server's own field parser, run on the printed header block, finds the connection headers and every header that was set, and leaves the body unread |
| Recycling.StepKeepsInv | main/MainServer.cpp:157-204 | accepting, handing over and closing keep the ownership invariants of both free lists |
| Recycling.AcceptKeepsMapIff | main/PortListener.cpp:63-89 | an accept keeps the descriptor map exact if and only if the descriptor was not in it, since insert does not overwrite |
| Recycling.ActiveMayClose | main/MainServer.cpp:190-204 | a connection can be returned if and only if it is active |
| Recycling.WithoutRemoves | main/MainServer.cpp:197-198 | the erase-remove idiom takes out every occurrence and nothing else |
| Recycling.WithoutKeepsOrder | main/MainServer.cpp:197-198 | what it leaves keeps its order |
| Recycling.AcceptInOneGo | main/PortListener.cpp:93-103 | an accept with nothing in between adds one active connection that owns the descriptor |
| RecyclingProperties.ConnectionsOwned | main/MainServer.cpp:157-204 | over every run the active and the reusable connections are free of duplicates, disjoint and together all that were allocated; exactly the active ones have a socket |
| RecyclingProperties.SocketsOwned | main/PortListener.cpp:63-124 | over every run the descriptor map is a bijection with the sockets of active connections and those in flight; reusable sockets are listed once and hold no descriptor |
| FreeLists.ConnectionsAreQueued | main/MainServer.cpp:164-203 | over every run, the connections closed are, in that order, those taken back since followed by those that wait |
| FreeLists.SocketsAreQueued | main/PortListener.cpp:76-122 | the same for the sockets |
| RecyclingProperties.AllocationIsOptimal | main/MainServer.cpp:164-186 | over every run the connections (sockets) allocated are exactly as many as were ever in use at once |
| RecyclingProperties.AllocationIsBalanced | main/MainServer.cpp:166-171 | of the connections ever allocated, two I/O threads never differ by more than one |
| RecyclingProperties.ActiveLoadIsBounded | main/MainServer.cpp:157-204 | over every run, the active connections on any I/O thread are at most a tenth, rounded up, of the most that were active at once |
| RecyclingProperties.LoadMayBeUneven | main/MainServer.cpp:166-176 | a run after which one I/O thread serves two connections and every other thread none |
| RecyclingProperties.ThreadIndexInRangeIff | main/MainServer.cpp:166-171 | the thread index, taken modulo the constant ten, stays within the configured threads if and only if there are at least ten or too few connections to matter |
| RecyclingProperties.ShutdownFreesOnce | main/MainServer.cpp:109-138 | the two destructors delete every connection exactly once and every socket exactly once, except those in flight, which nothing deletes |
| ServerObjects.PortListener.ReuseTSocket | main/PortListener.cpp:63-89 | takes a waiting socket or allocates one, and enters it in the map unless the descriptor is there |
| ServerObjects.PortListener.ReturnTSocket | main/PortListener.cpp:105-124 | erases the map entry, closes the socket and queues it |
| ServerObjects.PortListener.DeleteSockets | main/PortListener.cpp:31-36 | deletes the waiting sockets |
| ServerObjects.MainServer.AcceptFd | main/PortListener.cpp:73-88 | the first locked region of an accept is the machine's step, invariants kept |
| ServerObjects.MainServer.HandlerConn | main/MainServer.cpp:157-187 | the second one, choosing the I/O thread only for a new connection |
| ServerObjects.MainServer.DoAccept | main/PortListener.cpp:93-103 | both regions: one more active connection, which owns the descriptor |
| ServerObjects.MainServer.ReturnTConnection | main/MainServer.cpp:190-204 | closing is the machine's step, invariants kept |
| ServerObjects.MainServer.Shutdown | main/MainServer.cpp:122-132 | the connections and sockets that the destructors delete |

## Left out

- libevent, sockets, pipes, hiredis, MySQL and JSON: foreign I/O, replaced by the environment steps above.
- Logging, configuration, signals, hex dumping, thread names, exceptions thrown by tasks: no property beyond the call itself.
- Redis and MySQL pools, timers, adapters and chat processors: their behaviour rests on libraries that are not part of this model.
- Input split over several evbuffer extents, and watermarks: the input is one contiguous byte string.
- What the HTTP server answers: `Parse` and `Print` describe parser and printer; the callback between them, and the choice to close, are not modelled.
- Liveness of a newly accepted connection: `handlerConn` notifies the I/O thread before it publishes the connection, and `isActive` takes no lock; only safety is proved.
- Producers still blocked when `MThreadPool::stop` is called: `ProducerIsStrandedIff` says when they can return; that they do is not claimed.
- `MThreadPool::start` with the initialisation callback, and `queueSize`: they would only add easy members.
- The descriptor is closed by the bufferevent and again by `TSocket::close`; closing is one step here, and a descriptor is not reissued before its map entry is gone.
- `size_t` arithmetic near its limit: sizes are unbounded, except where sixteen bits, thirty-two bits or the 32-byte print buffer matter.
- BufferObject.Buffer.Shrink: requires fewer than 2^31 readable bytes, because `toString` casts the length to int.
- ConnectionObject.TConnection.ReadRequest: the lookup of an adapter for the package is left out, so a package without an adapter counts as delivered.
- ConnectionObject.TConnection.Close: handing the connection back to the server is a step of `Recycling`, not of this method.
- ServerObjects.MainServer.HandlerConn: the notification of the I/O thread and the re-initialisation of a reused connection are left out; the first is foreign I/O, the second is the constructor of `TConnection`.
- HttpObjects.HttpContext.ParseRequest: is not called in kGotAll or kExpectBody, for which the loop has no branch and would not end, nor before a method is reset, which the assertion in `setMethod` demands.
- Packages.IsOnePackage: requires three readable bytes, because the recognisers read that many before they look at the size.
- Truncated or out-of-range peeks at package memory: excluded by that requirement and by the arbitrary memory past the input.
- Fairness of the scheduler and termination of tasks: assumed where steps are said to lead to an end; a task that waits in `run` is not assumed to.
