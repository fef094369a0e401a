# A verified model of the message server's core

The project models four parts of the repository and proves what they keep over every run.

1. **The framed message protocol** (`socket_msg.h`, `socket_session` in `game.cpp`,
   `chat_client` in `chat_client.cpp`). A frame is a four-character decimal header and at most
   1024 body bytes. `Decimal` and `SocketMessage` model the header conversions and the message
   buffer, `Sending` the queue with its asynchronous writes, `Reading` the alternating header and
   body reads with bytes arriving in any chunks, `Protocol` the two joined by a byte channel, and
   `Duplex` one endpoint whose two halves share a socket. `Endpoints` has the two endpoint
   objects, whose handlers are proved to compute the value functions of the runs. Main results: a connection refines a plain FIFO of bodies,
   never wedges, writes nothing more after a failed write, and exactly which events close a
   client's socket for ever. `Printing` says exactly when the server's console line is the
   message received.
2. **The script engine's work queue** (`script_engine.cpp`, `script_engine.h`). `WorkQueue` lets
   any number of producers and one consumer interleave at every lock operation, list operation,
   loop pass and single counter access; `Calls` follows a call's arguments to the script that
   runs for it; `Rounds`, `Draining` and `Counters` are about the consumer's rounds, progress
   and the two counters; `ScriptStack` is the interpreter's value stack and what it was asked to
   run; `Engine` is the object with its two loops. Main results: nothing is lost, duplicated or
   reordered, each script is called with exactly the arguments of its call, everything queued can
   be run, each round dispatches exactly what was pushed before it took the lock in a fixed number
   of steps, exactly which rounds come to an end, and exactly which schedules leave the unlocked
   counter right.
3. **The reader/writer lock over SRWLOCK** (`thr_rwlock.h`, Windows branches), in `RwLock`. Main
   results: every release matches its acquire in every interleaving, the plain flag is free
   of data races, and who can acquire the lock when.
4. **Fast forms against simple forms**: trailing-space scanners in `TrailingSpace`, byte-order
   loads and stores in `ByteOrder`, deadline arithmetic in `Deadlines`.

A run is a sequence of events, each enabled when its turn comes (`Legal`), and `Exec` is the state
it leads to. A theorem with the premise `Legal(Init(...), es)` holds of every run.

## Model

| member | source | states |
|---|---|---|
| Protocol.EndToEnd | chat_client.cpp:44-96 | in every run of sender, channel and reader, with any chunking, failures and closes, the bodies handed up are a prefix, in order and byte for byte, of the bodies queued; all of them once nothing is queued, in the channel or due; an undisturbed reader never stops |
| Protocol.RunsRefineFifo | game.cpp:110-157 | from every reachable state every event is the step of an abstract FIFO named for it: queueing a message enqueues exactly its body, the handler of a complete body read dequeues the oldest body, and every other event leaves the FIFO alone |
| Protocol.CanAlwaysDrain | chat_client.cpp:44-96 | from every reachable state without a failure or close, internal events alone hand up every body queued so far |
| Protocol.PrefixOfFramesParses | socket_msg.h:47-65 | any prefix of encoded frames parses without refusal to a prefix of their bodies, the whole to all of them with nothing left |
| Sending.SingleWriterAlways | game.cpp:116-157 | in every run, before a failure exactly one write is outstanding if the queue is not empty and none otherwise, it is for the front message, and the wire holds the completed frames and the sent part of the front frame; a completed write always finds a message to pop |
| Sending.NoWriteAfterFailure | game.cpp:146-157 | after a failed write no write is ever outstanding again and the wire never changes, whatever follows; it stays a prefix of the frames delivered |
| Sending.WireIsPrefix | chat_client.cpp:70-96 | in every run the wire is a prefix of all delivered frames, all of them when the queue is empty, and a continuation only adds to it |
| Duplex.OpenIff | chat_client.cpp:44-98 | for an endpoint whose halves share one socket, in every run: a session's socket stays open whatever happens; a client's is open exactly as long as no write failed, no read was aborted, no header was refused and nobody closed it |
| Duplex.SilentAfterBreak | chat_client.cpp:44-98 | once a client's run is broken the socket stays closed in every continuation: no byte is sent or received, the buffer keeps its content, and at most the one body that had arrived completely is still handed up |
| Duplex.ErrorsCloseClient | chat_client.cpp:52-94 | in every reachable state of a client a failed write, an aborted read and a close are possible whenever the operation is outstanding, and each closes the socket at once |
| Duplex.HalvesAreRuns | chat_client.cpp:36-96 | whatever the other half does, the sending half is a run of the sender and keeps the single-writer protocol, and while the socket is open the reading half is a run of the reader on the bytes received |
| Reading.RunIsFeed | chat_client.cpp:44-68 | a run with any chunks and any handler delays ends where the byte-at-a-time reader ends on the same stream |
| Reading.ChunkIndependence | game.cpp:127-144 | two runs over the same bytes hand up the same bodies and end in the same reader, buffer included |
| Reading.RunParsesStream | game.cpp:110-144 | over any byte stream, well formed or not, the reader hands up exactly the bodies of its complete frames and stops exactly at a refused header |
| Reading.FeedIsParse | socket_msg.h:47-58 | the buffer-filling reader computes the recursive parse of the stream: bodies, refusal, and position within the unfinished frame |
| Reading.SilentAfterRefusal | chat_client.cpp:44-54 | in every run over a stream that shows a refused header, and every continuation of it, no further byte is read and the bodies handed up stay exactly those of the frames before it |
| SocketMessage.DecodeAcceptsRange | socket_msg.h:47-58 | for arbitrary header bytes: cut those before the first NUL as the standard says into blanks, sign, digits and remainder; the header is accepted exactly when the signed number lies in 0..1024, which is then the body length; a refusal leaves length 0; the buffer is kept |
| SocketMessage.DecodedByCutIsUnique | socket_msg.h:47-58 | that description determines the new message and the answer for every header |
| SocketMessage.DecodeUndoesEncode | socket_msg.h:47-65 | decoding an encoded header is accepted and recovers the length from any stale one |
| SocketMessage.BuildCarriesText | game.cpp:352-365 | the frame built from any text in any buffer decodes to exactly the first 1024 bytes of its C string |
| SocketMessage.HeaderRoundTrip | socket_msg.h:60-65 | for lengths up to 9999 the header is exactly four characters and reads back as the length |
| Decimal.AtoiIsCutValue | socket_msg.h:49-51 | the header conversion is the value of the standard's decomposition into blanks, sign, digits and remainder |
| Decimal.CutExists | socket_msg.h:49-51 | every subject string has such a decomposition |
| Decimal.CharacterClasses | socket_msg.h:51 | the characters skipped and converted are exactly the six white-space characters and the ten digits, each with its value |
| Decimal.AtoiUndoesFormat | socket_msg.h:60-65 | reading back what `%4d` wrote gives the number, for every integer |
| Decimal.Format4dLength | socket_msg.h:62-64 | the header has at least four characters, and exactly four for -999..9999 only |
| Decimal.Format4dIsJustified | socket_msg.h:62-64 | the header is blanks followed by the numeral without leading zeros |
| SocketMessage.SocketMsg.SetBodyLength | socket_msg.h:34-39 | the length is clamped to 1024 and the buffer kept |
| SocketMessage.SocketMsg.DeleteMsg | socket_msg.h:41-45 | every byte of the buffer is NUL and the length 0 |
| SocketMessage.SocketMsg.DecodeHeaderInPlace | socket_msg.h:47-58 | new state and answer are those that the standard's decomposition of the header gives; they are those of the decoding function of the runs |
| SocketMessage.SocketMsg.EncodeHeaderInPlace | socket_msg.h:60-65 | the header announces the body, which is unchanged |
| SocketMessage.SocketMsg.Fill | game.cpp:356-359 | clamp, copy and encode leave an encoded message whose body is the clipped text |
| Endpoints.SocketSession.Start | game.cpp:110-114 | a header read is outstanding, nothing else changes |
| Endpoints.SocketSession.Deliver | game.cpp:116-125 | computes the sender function of the runs and leaves the reader alone |
| Endpoints.SocketSession.HandleReadHeader | game.cpp:127-134 | computes the reader function of the runs and leaves the sender alone |
| Endpoints.SocketSession.HandleReadBody | game.cpp:136-144 | likewise for a body |
| Endpoints.SocketSession.HandleWrite | game.cpp:146-157 | computes the sender function of the runs and leaves the reader alone |
| Endpoints.ChatClient.HandleConnect | chat_client.cpp:36-42 | starts the header read unless connecting failed |
| Endpoints.ChatClient.HandleReadHeader | chat_client.cpp:44-54 | the reader function; an accepted header starts the body read and leaves the socket as it was, an error or a refused one starts nothing and closes it |
| Endpoints.ChatClient.HandleReadBody | chat_client.cpp:56-68 | the reader function; a body is handed up and the next header read started, an error starts nothing and closes the socket |
| Endpoints.ChatClient.DoWrite | chat_client.cpp:70-79 | computes the sender function of the runs and leaves the reader alone |
| Endpoints.ChatClient.HandleWrite | chat_client.cpp:81-96 | the sender function; an error keeps the queue, starts nothing and closes the socket, which otherwise stays as it was |
| Endpoints.ChatClient.Write | chat_client.cpp:31 | one more write is posted and nothing else changes |
| Endpoints.ChatClient.RunPosted | chat_client.cpp:31 | the oldest posted write becomes the sender function of the runs |
| Endpoints.ChatClient.SendLine | chat_client.cpp:127-139 | a line is posted as many times as asked, as one encoded message that carries the clipped line |
| Printing.PrintsFrameIff | game.cpp:136-144 | in every run over any frames, the server prints the frame it just received exactly when it has no NUL, does not fill the buffer and is followed by a NUL left from the last longer frame or the initial buffer; it reads past the buffer exactly when no byte in it is NUL |
| Printing.EveryFrameIsPrinted | game.cpp:110-144 | every list of frames has a run that reaches the print of its last frame |
| Printing.StaleTailIsPrinted | game.cpp:140 | whatever the initial buffer, a run that receives "ab" and then "c" does not print the second frame as sent |
| WorkQueue.NothingLostOrReordered | script_engine.cpp:84-135 | in every interleaving dispatched, taken and waiting items together are exactly the push history, also inside the copy loop and across the clear |
| Calls.PushedAreCalls | script_engine.cpp:64-90 | in every interleaving the items pushed are exactly the arguments of the calls, field by field, in the order in which the calls took the lock; with content the message and error text are dropped |
| Calls.ScriptsRunForCalls | script_engine.cpp:64-135 | end to end in every interleaving: the k-th script visit looks up the action of the k-th call that took the lock and, if that is a function, calls it once with that call's connection and data |
| Draining.EverythingGetsDone | script_engine.cpp:84-136 | after any run of calls with messages there is a continuation without a further call in which every call returns, the list is empty, every item pushed has been run and count2 counts them |
| Rounds.RoundDispatchesItsItems | script_engine.cpp:94-136 | a round that takes the lock with n items waiting is over after exactly 2n+4 consumer steps whatever the producers do; it dispatched exactly the items pushed before, in order, and all later ones still wait |
| Rounds.NobodyIsStuck | script_engine.cpp:84-135 | in every reachable state a consumer inside a round can move, its copy loop never reading past the list, and so can whoever holds the lock |
| Counters.CountersAgree | script_engine.cpp:84-91 | in every interleaving count <= count2 <= pushes, and count2 is exact when the lock is free; when all calls have returned, count equals count2 exactly when no producer ever wrote count while another stood between its read and its write; with one producer they differ by at most one and agree at rest |
| Counters.SerialCallersCountExactly | script_engine.cpp:89-91 | callers of which at most one at a time is between the unlock and the return leave the two counters equal |
| Counters.LostUpdate | script_engine.cpp:88-90 | a concrete run of two producers that leaves count at 1 and count2 at 2 |
| Counters.WriteStoresReadPlusOne | script_engine.cpp:90 | whatever other threads do between a producer's read of count and its write, the write stores the value read plus one |
| Rounds.CrashIffMessageMissing | script_engine.cpp:107-111 | calls without content and with a message never lead to a null dereference; every dispatched item had a message; the loop stops exactly at the first item without one |
| Rounds.MessageMissingIff | script_engine.cpp:70-81 | a call queues an item without a message exactly when it has content or no message |
| Rounds.RoundEndsIffMessages | script_engine.cpp:94-136 | a round whose waiting items all have messages never crashes and counts down to its end; one with an item that has none never ends, in any continuation, and dispatches neither that item nor a later one |
| Rounds.CrashingRun | script_engine.cpp:72-74 | for every call with content or without a message, a run of one producer and one round that reaches the null dereference |
| WorkQueue.StackInEveryRun | script_engine.cpp:107-135 | in every interleaving and after any number of rounds the stack is the initial one followed by one residue for each non-function and each nil failure, and the interpreter was visited once for each item dispatched, in order, with its action, connection and data |
| ScriptStack.StackAccounting | script_engine.cpp:114-134 | any number of dispatches keeps the stack below and adds exactly the residues, counted |
| ScriptStack.DispatchServes | script_engine.cpp:109-134 | one pass makes exactly one lookup, of the item's action, and one call if that is a function, with the connection first and the data second, and leaves the residue |
| ScriptStack.DispatchAllServes | script_engine.cpp:107-135 | any number of dispatches serve exactly their items, in order |
| ScriptStack.DispatchLeavesResidue | script_engine.cpp:114-134 | one pass leaves the stack as it was plus the residue of its outcome |
| ScriptStack.StackUnchangedIff | script_engine.cpp:114-134 | the stack is unchanged exactly when every action was a function and no call failed with nil |
| Engine.ScriptEngine.ExecGafq | script_engine.cpp:64-91 | one more item at the end of the list: the connection as given; without content the message and error text as given, with content only that; both counters advance and nothing else changes |
| Engine.ScriptEngine.LoopExecute | script_engine.cpp:94-136 | empties the list and serves its items in order: the visits are those the items ask for and the stack has grown by their residues |
| Engine.ScriptEngine.TakeAll | script_engine.cpp:96-104 | the copy loop and the clear hand over the whole list |
| Engine.ScriptEngine.RunOne | script_engine.cpp:109-134 | call by call on the interpreter: one visit, with the item's action, connection and data, and the residue on the stack |
| RwLock.UnlockMatchesLock | 3rd/mysqlcapi/include/thr_rwlock.h:42-131 | in every interleaving of any number of threads every native release is of the kind acquired, the flag is false while anyone holds shared, an exclusive holder excludes all others, and the native counts are the holders |
| RwLock.FlagIsRaceFree | 3rd/mysqlcapi/include/thr_rwlock.h:94-131 | no two threads are ever about to access the flag with one of them to write it |
| RwLock.LockIsFreeAtRest | 3rd/mysqlcapi/include/thr_rwlock.h:52-131 | when every thread has unlocked, the native lock is free and the flag clear |
| RwLock.AcquireIff | 3rd/mysqlcapi/include/thr_rwlock.h:73-111 | in every reachable state an idle thread can share the lock exactly when nobody holds it exclusively and exclude exactly when nobody holds it; an attempt fails exactly otherwise |
| RwLock.ReadersShare | 3rd/mysqlcapi/include/thr_rwlock.h:73-88 | for every k up to the number of threads there is a run after which k threads share the lock at once |
| RwLock.LockComesFree | 3rd/mysqlcapi/include/thr_rwlock.h:94-127 | from every reachable state the holders can release the lock by their own steps, after which every thread can acquire it either way |
| RwLock.NativeRwLock.constructor | 3rd/mysqlcapi/include/thr_rwlock.h:52-58 | a new lock is free and its flag clear |
| RwLock.NativeRwLock.RdLock | 3rd/mysqlcapi/include/thr_rwlock.h:73-77 | waits, changing nothing, exactly while the lock is held exclusively; otherwise one more sharer and 0 |
| RwLock.NativeRwLock.TryRdLock | 3rd/mysqlcapi/include/thr_rwlock.h:83-88 | EBUSY and no change exactly while the lock is held exclusively; otherwise 0 and one more sharer, however many there are |
| RwLock.NativeRwLock.WrLock | 3rd/mysqlcapi/include/thr_rwlock.h:94-99 | waits, changing nothing, exactly while the lock is held; otherwise exclusive, with the flag saying so, and 0 |
| RwLock.NativeRwLock.TryWrLock | 3rd/mysqlcapi/include/thr_rwlock.h:105-111 | EBUSY and no change exactly while the lock is held at all; otherwise 0 and exclusive, with the flag saying so |
| RwLock.NativeRwLock.Unlock | 3rd/mysqlcapi/include/thr_rwlock.h:117-127 | a shared holder leaves one sharer fewer, an exclusive one a free lock |
| TrailingSpace.SkipTrailingSpaceAligned | 3rd/mysqlcapi/include/m_string.h:280-310 | for every address, length and content the three-zone version returns the end of the naive scan, and every word it reads is aligned and inside the string |
| TrailingSpace.SkipTrailingSpace | 3rd/mysqlcapi/include/m_string.h:317-329 | the eight-byte version returns the end of the naive scan |
| TrailingSpace.NaiveIsTextEnd | 3rd/mysqlcapi/include/m_string.h:326-328 | the naive scan returns the one position with only spaces after it and no space before it |
| TrailingSpace.SpaceWordIff | 3rd/mysqlcapi/include/m_string.h:322 | eight bytes load as the word of spaces exactly when all eight are spaces |
| TrailingSpace.SpaceIntIff | 3rd/mysqlcapi/include/m_string.h:283-304 | likewise for a big-endian word of an int, of four or eight bytes |
| ByteOrder.LoadIsLittle | 3rd/mysqlcapi/include/byte_order_generic.h:38-69 | every unsigned load is one little-endian value function on its bytes |
| ByteOrder.SignedLoadsAreTwosComplement | 3rd/mysqlcapi/include/my_byteorder.h:31-43 | each signed load lies in the signed range of its width and is congruent to the unsigned value of its bytes, the three-byte one included |
| ByteOrder.TwosComplementIsUnique | 3rd/mysqlcapi/include/byte_order_generic.h:20-26 | only one number is both, so the loads are determined |
| ByteOrder.LoadUndoesStore | 3rd/mysqlcapi/include/byte_order_generic.h:56-97 | for any number of bytes, storing and loading gives the number modulo 256^n |
| ByteOrder.StoreThenLoad | 3rd/mysqlcapi/include/my_byteorder.h:45-101 | for every width and place the stored number is loaded back |
| ByteOrder.LoadThenStore | 3rd/mysqlcapi/include/my_byteorder.h:45-101 | for every width and place, storing what was loaded changes nothing |
| ByteOrder.Int2Store | 3rd/mysqlcapi/include/byte_order_generic.h:76-81 | the low two bytes at the place given, all other bytes untouched |
| ByteOrder.Int3Store | 3rd/mysqlcapi/include/my_byteorder.h:77-82 | likewise for three bytes |
| ByteOrder.Int4Store | 3rd/mysqlcapi/include/byte_order_generic.h:83-89 | likewise for four bytes |
| ByteOrder.Int5Store | 3rd/mysqlcapi/include/my_byteorder.h:84-91 | likewise for five bytes |
| ByteOrder.Int6Store | 3rd/mysqlcapi/include/my_byteorder.h:93-101 | likewise for six bytes |
| ByteOrder.Int8Store | 3rd/mysqlcapi/include/byte_order_generic.h:91-97 | likewise for eight bytes, stored as two halves |
| Deadlines.ConservesNanosecondsIff | 3rd/mysqlcapi/include/my_global.h:688-698 | a deadline is exactly the clock plus the request if and only if the sum fits the clock word and a narrow time_t; otherwise it falls short |
| Deadlines.ConservesSecondsIff | 3rd/mysqlcapi/include/my_global.h:712-715 | likewise in seconds, with the multiplication not wrapping |
| Deadlines.ShortfallExactly | 3rd/mysqlcapi/include/my_global.h:688-698 | for all inputs by how much a deadline falls short: by the 2^64 ticks of a wrapped clock word, and for a narrow time_t by the seconds above 2147483647, which become that number while the fraction of the second is kept |
| Deadlines.SecondsAreCongruent | 3rd/mysqlcapi/include/my_global.h:712-715 | a request in seconds whose multiplication wraps is the request in nanoseconds congruent to it modulo 2^64 |
| Deadlines.AlwaysNormalised | 3rd/mysqlcapi/include/my_global.h:698 | the nanosecond field is always below 10^9 |
| Deadlines.CmpIsOrder | 3rd/mysqlcapi/include/my_global.h:724-740 | the comparison is the total order of the times that normalised pairs stand for |
| Deadlines.DeadlinesOfOneReading | 3rd/mysqlcapi/include/my_global.h:724-750 | deadlines from one clock reading compare as the requests; their difference is that of the requests exactly when the first is not earlier, and wraps otherwise |
| Deadlines.WaitIsAccurateIff | 3rd/mysqlcapi/include/thr_cond.h:84-95 | the wait is defined exactly when the deadline in milliseconds fits time_t, and then never negative and never above the request by a millisecond; it is within one millisecond of the time left exactly when, besides, the milliseconds due fit 32 bits |
| Deadlines.WaitForAnyDeadline | 3rd/mysqlcapi/include/thr_cond.h:84-95 | for any normalised deadline and clock: undefined exactly when its milliseconds do not fit time_t; zero once it has passed; otherwise congruent to the milliseconds due modulo 2^32 |
| Deadlines.NarrowWaitOverflows | 3rd/mysqlcapi/include/thr_cond.h:89 | with a 32-bit time_t the product overflows at every clock after 2147483 seconds although the deadline is representable; with a wide one the wait is 1000 ms |
| Deadlines.FileWaitIsBounded | 3rd/mysqlcapi/include/thr_cond.h:53-83 | without struct timespec the wait is the longest one within the requested timeout, the time left and a long, whatever the clock does; it is within one millisecond of the time left exactly when the milliseconds left fit a long |
| Deadlines.TimespecCell.SetNsec | 3rd/mysqlcapi/include/my_global.h:688-698 | both fields, normalised, holding the clock plus the request when representable |
| Deadlines.TimespecCell.Set | 3rd/mysqlcapi/include/my_global.h:712-715 | the same for a request in seconds |

## Modelling decisions

- A handler of an endpoint runs to completion: `chat_client` posts its writes to the thread that
  runs the handlers. Network, clock and script answers are event parameters or arguments.
- A body is handed up as `body()` with `body_length()` bytes, as `chat_client` prints it; what
  `socket_session` prints instead is in `Printing`.
- A blocking call of the lock object that cannot go on answers that it waits; the interleaved runs
  let it go on later.
- The `status` argument of `ExecGafq` is not stored by the source and is no parameter here. A
  script sees strings up to their first NUL and the connection number as it is; the numeral of a
  number that is printed is an answer of the interpreter.
- Plain integer reads and writes of `ExecGafq` and of the lock's flag are separate steps.
- Nonnegative C integers are unbounded except where a width is written out: the conversion of the
  header number to `size_t`, the casts of the loads and stores, the clock word, the narrow
  `time_t` of the setter, the signed sum of `get_milliseconds` (undefined when it overflows) and
  its `DWORD`.
- The comment above `skip_trailing_space` says that the character-by-character comparison starts
  in the aligned zone and that the result is the last non-space character. The code starts in the
  zone after it and returns the position behind that character; the model follows the code.

## Left out

- `init_epool` in `game.cpp`: it does not parse as written and does not loop on short reads.
- Configuration, database, command line and all printing but the server's message line; `ScriptEngine::Init` and `get_instance`.
- What a script does inside a protected call, and errors outside one (a failing metamethod of the
  global table, a full interpreter stack).
- Overflow of the 32-bit `count` and `count2` and of the list size stored in an `int`.
- The pthread branches of the lock, which only call the operating system.
- The comparison and difference of two deadlines without `struct timespec`, plain operations on
  file times, and the null deadline, for which the wait is endless.
- The reader-preferring locks, the byte copies of floating-point values and the x86 forms of the
  loads: their bodies are elsewhere or are plain memory copies.
