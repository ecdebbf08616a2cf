# Verification of the IPC benchmark's protocols

The repository compares ways of moving small messages between two processes. This project models the
parts whose correctness is not visible in any one function: the ring that two processes share through two
semaphores and without a lock, the framing of messages in byte streams and pipes, the codec below both, the
statistics of the measurements, the loss accounting of the server, and the two scripts' views of the trace.

| file | content |
|---|---|
| `Integers.dfy`, `Options.dfy`, `Bytes.dfy` | minimum and maximum, optional values; fixed-width integers with their wrap-around, little-endian numbers, byte arrays |
| `Codec.dfy` | headers, objects and frames: the format as functions, its laws, and the (de)serializers as methods on arrays |
| `Transitions.dfy` | step systems, runs, invariants of runs |
| `Ring.dfy`, `RingInvariant.dfy`, `RingTheorems.dfy` | the two-process ring as a step system, its inductive invariant, and the theorems over all interleavings |
| `RingCalls.dfy`, `RingHandlers.dfy`, `Exchange.dfy` | whole calls as runs of steps; the classes `SharedMemory` and `SharedFile`; two handlers on one ring |
| `Framing.dfy`, `Sendings.dfy`, `StreamSocket.dfy`, `Fifo.dfy` | frames in a byte stream; the ids and messages of a sequence of writes; the class `StreamSocket`; the named pipe as a step system and the class `Fifo` |
| `Statistics.dfy`, `Summary.dfy` | quantiles, mean and variance over the reals; `Statistics::compute` |
| `RealWorld.dfy` | the loss accounting, alone and on top of the ring, a stream and the pipe |
| `Overlaps.dfy`, `Trace.dfy` | the table of code areas; the two parsers of a trace line |

**How the ring is modelled.** A state has the shared bytes, both semaphores, and for each process its program
counter, `offset_` and `last_id_` or `buffer_`. Every semaphore operation is a step, and so is every single byte
moved by `memcpy` or by the file stream, so torn reads and writes would be reachable states if the protocol
allowed them. `Medium` selects the memory mapping (fixed size, no failures between the semaphore operations) or
the file (starts empty, grows, its operations may fail and return the token). The log kept in the state is
history: no step's effect on the rest of the state depends on anything in it but the frame being written, which
stands for the writer's `buffer_`. The classes `SharedMemory` and `SharedFile` are the code; their contracts
equate a call with the effect of a run of the step system (`WriteEffect`, `FinishEffect`, `ReadEffect`), and
`WriteIsItsSteps`, `FinishIsItsSteps` and `ReadIsItsSteps` show that it is one. A call of `Write` that finds no
free slot ends in the outcome `Waiting`, with the frame in `buffer_`; `Finish` is the rest of that call, from
`sem_wait` on. The ghost parameter of these methods is the ring's state at the call. `Exchange` lets a writer and
a reader object take turns on one ring, also while the writer waits.

**Assumptions.**
- There is one writer and one reader process, each handler is freshly constructed and opened once, and the
  server opens before the client.
- `sem_post` succeeds and synchronises memory (POSIX.1-2017, section 4.12, Memory Synchronization); `flush` on the
  shared file succeeds and makes the bytes visible.
- Ids wrap around at 2^32. Statements that compare ids as numbers say that fewer than 2^32 were given out.
- Integers are little-endian and two's complement and `size_t` has 64 bits. The order in which `memcpy` moves
  bytes, ascending here, is a choice of the model.
- A successful `send` takes the whole frame. `recv` gets an arbitrary script of fragment sizes, EAGAINs and errors;
  when the script is used up the rest of the stream is there. A stream is finite and ends when the peer closes.
- A `write` of a frame (at most 528 bytes, below PIPE_BUF) to a pipe is atomic. Assertions are compiled in.
- Conversions that C++ leaves to the implementation behave as on the compilers in use: unsigned to `int` wraps.

**Where the code does not meet a stated intent**, lemmas give the exact condition and an input.
- `StreamSocket::read` stores behind `buffer_` exactly when the next header announces more than 528 bytes and more
  than 528 bytes of body arrive before the peer closes or `recv` fails (`StreamSocket.Read`, `OverrunsIff`); a peer
  that closes earlier only gets the connection closed. `OverrunExample` has a stream of either kind. Frames of the
  repository's own writers never do this (`SentIsReceived`). After such a store nothing is claimed.
- The variance is wrong for most samples with values from 2^31 on, which are converted to `int`
  (`SummaryVarianceIsExactIff`; `TotalCanBeWrong`: 0 and 2^31).
- The loss count is wrong when more messages were read than the last id says (`MissesAreExactIff`,
  `NoWrapIffAscending`; `MissesCanBeWrong`: ids 2 and 1). One writer over the ring, a stream, or the pipe
  without failing second calls of `read` never causes such ids (`MissesAreFailedWrites`, `MissesOnAStream`,
  `MissesOnThePipe`). They can come from two writers on one pipe, each with its own counter, from datagrams
  that overtake each other, and from a pipe that is out of step (below).
- The benchmark's name for a line of the trace differs from the script's exactly when the line ends in a space
  (`ParseName`; `FinalSpaceIsLost`); a carriage return before the line break makes no difference. On a line that
  ends right after its fifth space the benchmark reads past its fields (`FieldExistsIff`; `SixthFieldIsMissing`).
- When the second system call of `Fifo::read` fails, the header is lost and the body stays in the pipe. The reads
  to come return the unread messages exactly if that body is empty (`FailedBodyCosts`). Otherwise they can return
  messages that nobody wrote (`PhantomMessage`: a body of 16 bytes that is read as a ping with id 12), end in an
  assertion, or store behind `buffer_`; `ReadOnceEnds` says which.

## Model

| member | source | states |
|---|---|---|
| Bytes.LittleEndianRoundTrip | src/object/data_header.cpp:19-20 | a number survives being copied out of and into memory |
| Bytes.ByteOf | src/object/data_header.cpp:19-20 | byte i of a number in memory is its i-th digit to the base 256 |
| Bytes.CounterWraps | src/handler/shared_memory.cpp:201 | after n increments the id is n modulo 2^32 |
| Codec.HeaderBijection | src/object/data_header.cpp:11-37 | encoding and decoding the 16-byte header are inverse on all headers and all 16-byte sequences |
| Codec.HeaderLayout | src/object/data_header.cpp:11-22 | id, type, body size and timestamp are at 0, 4, 6 and 8, each in little-endian bytes |
| Codec.JavaSymbolLayout | src/object/java_symbol.cpp:12-37 | address, length and the length of the name are at 0, 8 and 12, and the name is the rest |
| Codec.BinaryDataLayout | src/object/binary_data.cpp:12-27 | the length of the data is at 0, and the data is the rest; a ping is empty |
| Codec.DecodesExactly | src/utility.cpp:40-76 | decoding returns an object if and only if the type fits and the object's encoding is a prefix of the bytes: round trip, its converse, and indifference to bytes behind it |
| Codec.DecodingOutcomes | src/utility.cpp:40-76 | the types of ping, symbol and binary data are 1, 2 and 3; decoding fails with UNKNOWN_DATA if and only if the type is greater, and with INVALID_DATA if and only if it is not and no object of that type has its encoding as a prefix of the bytes |
| Codec.MadeMessagesAreWellFormed | src/handler/shared_memory.cpp:195-205 | with the capacity of 512 bytes the uint16 body size never truncates, and a frame has at most 528 bytes |
| Codec.SizeTruncates | src/object/data_header.cpp:8-9 | without that capacity the size field is the size modulo 2^16, so right exactly below 2^16 |
| Codec.FrameRoundTrip | src/handler/shared_memory.cpp:245-260 | a buffer that starts with a frame decodes to its message, whatever follows |
| Codec.NumberingAt | src/handler/shared_memory.cpp:201-205 | the i-th message built since the handler was opened carries the object, the timestamp and the type of call i, and as id i modulo 2^32 |
| CodecMethods.SerializeHeader | src/object/data_header.cpp:11-22 | refuses less than 16 bytes without touching the buffer, else writes exactly the 16 bytes |
| CodecMethods.DeserializeHeader | src/object/data_header.cpp:24-37 | refuses less than 16 bytes, else is the decoding proved inverse in HeaderBijection |
| CodecMethods.SerializeJavaSymbol | src/object/java_symbol.cpp:12-37 | -1 and no change if the encoding exceeds the capacity, else the encoding in place and every other byte unchanged |
| CodecMethods.SerializeBinaryData | src/object/binary_data.cpp:12-27 | the same for binary data |
| CodecMethods.SerializeBody | src/object/ping.cpp:5-7 | the same for every object; a ping takes no bytes |
| CodecMethods.DeserializeJavaSymbol | src/object/java_symbol.cpp:39-74 | the decoding characterised in DecodesExactly, with its refusals |
| CodecMethods.DeserializeBinaryData | src/object/binary_data.cpp:29-55 | the decoding characterised in DecodesExactly, with its refusals |
| CodecMethods.DeserializeBody | src/utility.cpp:40-76 | the decoding that DecodesExactly and DecodingOutcomes characterise, on every type and every content of the buffer |
| CodecMethods.BuildFrame | src/handler/shared_memory.cpp:195-205 | -1 and no change if and only if header and body exceed 528 bytes; otherwise buffer_ starts with the header that has the id, the type, the size and the timestamp given, and then the encoding of the object given |
| CodecMethods.ParseFrame | src/handler/shared_memory.cpp:245-260 | decoding of buffer_ as a whole |
| RingInvariant.InvAlways | src/handler/shared_memory.cpp:188-261 | tokens, numbering, slot contents, the part of a slot copied so far and the results delivered are right in every reachable state |
| RingTheorems.AttemptsAreTheCalls | src/handler/shared_file.cpp:146-156 | the messages given an id are the calls whose object fits, numbered in order |
| RingTheorems.AcceptedAt | src/handler/shared_file.cpp:146-156 | these calls are exactly the steps of the run that call write with an object that fits, in order |
| RingTheorems.ReadsArePrefixOfWrites | src/handler/shared_memory.cpp:188-261 | in every interleaving the results of read are a prefix, in order, of the messages whose write completed, and result i has the object, the timestamp and the number of its call; what is missing from these are exactly the writes that failed or are under way |
| RingTheorems.ReadsReturnTheCalls | src/handler/shared_memory.cpp:188-261 | so the results correspond, in order, to steps of the run that call write with exactly the object and the timestamp returned |
| RingTheorems.IdsIncrease | src/handler/shared_memory.cpp:201-202 | ids returned by read strictly increase from at least 1 |
| RingTheorems.SlotsAreExclusive | src/handler/shared_memory.cpp:207-243 | the slot being filled is neither that of an unread message nor the one being copied, and no access leaves the mapping |
| RingTheorems.CopiedSlotIsStable | src/handler/shared_memory.cpp:215-241 | no step of the writer changes a byte of the slot being copied |
| RingTheorems.TokensAreConserved | src/handler/shared_memory.cpp:88-101 | the two semaphores plus the tokens held in write, read and await_data are always 64; unread messages stay within 0..64; both offsets are the message counts modulo 64 |
| RingTheorems.ShortReadsAreSafe | src/handler/shared_file.cpp:221-240 | when a read stops, at 528 bytes or at the end of the file, it has header and body, and the stale rest of buffer_ does not influence the result |
| RingTheorems.DecodeAlwaysPossible | src/handler/shared_file.cpp:238 | the assertion on the body size holds in every reachable state |
| RingTheorems.StepsRefineQueue | src/handler/shared_file.cpp:139-230 | every step is an enqueue, a dequeue or invisible to a bounded FIFO queue; failed writes and reads are invisible |
| RingTheorems.AwaitIsStable | src/handler/shared_memory.cpp:157-171 | after await_data found a message the next read finds one, whatever the writer does in between |
| RingTheorems.NeverStuck | src/handler/shared_memory.cpp:139-243 | unless all is written and read, a step that brings a message further is possible, at the latest after await_data returned its token |
| RingTheorems.WorkDecreases | src/handler/shared_memory.cpp:188-243 | every step that is no empty poll or probe decreases a measure, up to what a new call or a failed read adds |
| RingTheorems.RunsAreBounded | src/handler/shared_memory.cpp:188-243 | in every run the steps that are no probes are bounded by the calls and failed reads in it |
| RingTheorems.EverythingArrives | src/handler/shared_memory.cpp:188-261 | a run without write failures that has come to rest has delivered the object and the timestamp of every call once, in order, with ids 1, 2, 3, ... |
| RingTheorems.CanAlwaysFinish | src/handler/shared_memory.cpp:188-261 | from every state at most Work + 1 steps without new calls and failures complete all calls under way and read all that is written |
| RingTheorems.EverythingCanArrive | src/handler/shared_file.cpp:139-248 | every run, failures included, can be continued without new calls until read has returned exactly the messages of the writes that did not fail |
| RingCalls.WriteIsItsSteps | src/handler/shared_file.cpp:139-189 | a call of write, with any failure, is a run of the step system with the effect that the handler's contract names, to its return or until it waits |
| RingCalls.FinishIsItsSteps | src/handler/shared_file.cpp:161-189 | so is the rest of a call, after it has waited |
| RingCalls.ReadIsItsSteps | src/handler/shared_file.cpp:191-248 | a call of read, with any failure, is a run of the step system with the effect that the handler's contract names |
| RingCalls.AwaitIsItsSteps | src/handler/shared_memory.cpp:157-171 | await_data is a run of the step system that ends in the state in which it began |
| RingCalls.ReadReturnsNext | src/handler/shared_memory.cpp:222-261 | a read that gets a token returns the oldest unread message |
| RingHandlers.SharedMemory.constructor | include/handler/shared_memory.hpp:66-74 | a handler starts at slot 0 with id 0 |
| RingHandlers.SharedMemory.Write | src/handler/shared_memory.cpp:188-220 | memory, semaphores, offset_ and last_id_ change as by the run of the call; it returns true exactly if the handler is open, the object fits, the wait is not interrupted and a slot is free, and waits exactly if only the slot is missing |
| RingHandlers.SharedMemory.Finish | src/handler/shared_memory.cpp:207-219 | the same for the call from sem_wait on, whenever a slot has become free |
| RingHandlers.SharedMemory.Read | src/handler/shared_memory.cpp:222-261 | result and change of state are those of the run of the call; READ_ERROR if it is interrupted, NO_DATA_AVAILABLE without a token, and with one the message that ReadReturnsNext says |
| RingHandlers.SharedMemory.AwaitData | src/handler/shared_memory.cpp:139-172 | leaves the ring as it was; unless it times out or is interrupted it is true exactly if a message is unread, now or after more waiting, and then the next read returns the oldest one |
| RingHandlers.SharedMemory.HasData | src/handler/shared_memory.cpp:174-186 | true exactly if a message is unread, and then the next read returns the oldest one; false if sem_getvalue fails |
| RingHandlers.SharedFile.Write | src/handler/shared_file.cpp:139-189 | as for SharedMemory, with failing seeks, waits and stream writes |
| RingHandlers.SharedFile.Finish | src/handler/shared_file.cpp:161-189 | as for SharedMemory, with failing waits and stream writes |
| RingHandlers.SharedFile.Read | src/handler/shared_file.cpp:191-248 | as for SharedMemory, with failing seeks and stream reads, and short reads at the end of the file |
| RingHandlers.SharedFile.AwaitData | src/handler/shared_file.cpp:90-123 | leaves the ring as it was; unless it times out or is interrupted it is true exactly if a message is unread, now or after more waiting, and then the next read returns the oldest one |
| RingHandlers.SharedFile.HasData | src/handler/shared_file.cpp:125-137 | as for SharedMemory |
| Exchange.PutRefines | src/handler/shared_file.cpp:139-189 | a call of write, failed, waiting or neither, does to the ring what it does to a queue of at most 64 messages with an id counter |
| Exchange.ResumeRefines | src/handler/shared_file.cpp:161-189 | so does the rest of a call that has waited |
| Exchange.WriteEnqueues | src/handler/shared_file.cpp:139-189 | from any reachable state a write appends to the ring's queue a message with its object, its timestamp and the next id, exactly if the object fits, no system call fails and a slot is free, and leaves the queue alone otherwise |
| Exchange.TakeRefines | src/handler/shared_file.cpp:191-248 | a call of read, failed or not, does to the ring what it does to that queue, and returns the same |
| Exchange.QueueLaw | src/handler/shared_file.cpp:139-248 | the queue loses, invents, reorders and alters nothing: the true verdicts are as many as the messages returned or queued, and these have, in order, the objects and the timestamps of the calls with these verdicts |
| Exchange.Run | src/handler/shared_file.cpp:139-248 | two `SharedFile` objects on one file return from write and read, for every sequence of turns and failures, what the queue returns: result by result the object and the timestamp of the calls that returned true |
| Exchange.RunMapped | src/handler/shared_memory.cpp:88-261 | the same for two `SharedMemory` objects on one mapping, whatever it held before, with the semaphores opened at 0 and 64 |
| Framing.FrameIsConsumed | src/handler/stream_socket.cpp:295-328 | reading takes 16 + body_size bytes, even of a frame with an unknown type or an undecodable body |
| Framing.IncompleteFrameCloses | src/handler/stream_socket.cpp:285-317 | a stream that ends within a frame or before one ends the reading with a closed connection |
| Framing.OverrunsIff | src/handler/stream_socket.cpp:302-319 | the body leaves the buffer exactly on a header that announces more than 528 bytes and is followed by more than 528 bytes |
| Framing.OverrunExample | src/handler/stream_socket.cpp:302-319 | such a stream, and one byte less, which only ends in a closed connection |
| Framing.StreamsParse | src/handler/stream_socket.cpp:262-329 | the outcomes of any sequence of frames with arbitrary types and bodies are theirs one by one, followed by those of whatever comes next: no unreadable frame costs a later one |
| Framing.OutcomesAre | src/handler/stream_socket.cpp:320-328 | the outcome of a frame is a message if and only if the body starts with the encoding of an object of the frame's type, UNKNOWN_DATA if and only if the type is above 3, and INVALID_DATA in all other cases |
| Framing.SentIsReceived | src/handler/stream_socket.cpp:235-260 | the bytes of well-formed messages parse to exactly these messages and never leave the buffer |
| StreamSockets.StreamSocket.Write | src/handler/stream_socket.cpp:235-260 | appends the whole frame or nothing; an object that does not fit uses no id, a failed send does |
| StreamSockets.StreamSocket.Accept | src/handler/stream_socket.cpp:174-205 | drops the old client even if no new one is there; a new one starts a fresh stream |
| StreamSockets.StreamSocket.ReadHeader | src/handler/stream_socket.cpp:269-293 | NO_DATA_AVAILABLE exactly if the first recv finds nothing, with nothing consumed; otherwise the 16 bytes are reassembled; terminates on bytes missing and EAGAINs left |
| StreamSockets.StreamSocket.ReadBody | src/handler/stream_socket.cpp:302-328 | a body of at most 528 bytes is reassembled from any fragments, an empty one without recv; a longer one leaves the buffer exactly if more than 528 bytes come |
| StreamSockets.StreamSocket.Read | src/handler/stream_socket.cpp:262-329 | for every stream and script: the result and what is left of the stream are those of parsing one frame; READ_ERROR if and only if a recv failed; otherwise the buffer is left exactly on a stream that overruns it |
| StreamSockets.StreamSocket.Drain | src/handler/stream_socket.cpp:262-329 | for every stream and script: repeated reads return the outcomes of the stream's frames, in order, until the close or the overrun, or fewer if recv fails |
| Sendings.GapsAreFailedSends | src/handler/stream_socket.cpp:248-259 | ids that arrive strictly increase, and the ids missing are as many as the failed sends; objects that do not fit use none |
| Sendings.FateIs | src/handler/stream_socket.cpp:235-260 | a call is refused if and only if its object does not fit, lost if and only if it fits and send fails, and arrives otherwise |
| Sendings.IdsAreCounted | src/handler/stream_socket.cpp:248-249 | the ids used are as many as the calls that fit, those lost as many as these that fail |
| Sendings.ArrivalsAreTheCalls | src/handler/stream_socket.cpp:235-260 | the messages that arrive have the objects and the timestamps of exactly the calls that fit and do not fail, in order, and as id the number of ids used by then |
| StreamSockets.Transmit | src/handler/stream_socket.cpp:235-329 | for all objects, timestamps, send failures and scripts: write returns true exactly if the object fits and send succeeds, and another socket reads the objects and the timestamps of exactly these calls, in order, all of them unless recv fails |
| Fifos.PipeDelivers | src/handler/fifo.cpp:129-177 | however writes fall between the two system calls of read: both assertions hold, no header is lost to a missing body, results are the messages written in order, and the pipe is empty only when all are read |
| Fifos.ReadsReturnTheWrites | src/handler/fifo.cpp:101-177 | result i has exactly the object and the timestamp of a call of write in the run that did not fail, and its id; the calls are in order, and with the pipe empty none is missing |
| Fifos.ReadHeaderKeeps | src/handler/fifo.cpp:137-149 | between reads the pipe holds whole frames; a header read gets nothing or 16 bytes |
| Fifos.ReadBodyKeeps | src/handler/fifo.cpp:158-167 | after a header its whole body is there, so the EAGAIN branch is not reached |
| Fifos.Fifo.Write | src/handler/fifo.cpp:101-127 | appends the frame and uses an id, as the step does |
| Fifos.Fifo.Read | src/handler/fifo.cpp:129-177 | outcome and what is left of the pipe, for every content of the pipe, every arrival between the two system calls and every failure of them: those of ReadOnce, which the next rows are about |
| Fifos.ReadOnceEnds | src/handler/fifo.cpp:129-177 | when that outcome is READ_ERROR, NO_DATA_AVAILABLE, a failed assertion, a store behind buffer_ or a message, and what is left in the pipe |
| Fifos.ReadInStep | src/handler/fifo.cpp:129-177 | with whole frames in the pipe, the first message is returned and the others stay; a failing second call leaves the body behind |
| Fifos.ReadIsItsSteps | src/handler/fifo.cpp:129-177 | in a reachable state read is its two steps, with the writes in between, and returns the oldest unread message |
| Fifos.ReadsExactlyIff | src/handler/fifo.cpp:129-177 | repeated reads return some messages and empty the pipe exactly when it holds their frames |
| Fifos.FailedBodyCosts | src/handler/fifo.cpp:158-165 | after a failing second call the reads to come return the unread messages if and only if the lost body is empty |
| Fifos.PhantomMessage | src/handler/fifo.cpp:158-165 | a body after whose loss the next read returns a message nobody wrote |
| Fifos.WrittenAreTheCalls | src/handler/fifo.cpp:108-126 | the messages written are those of the calls that fit and did not fail, numbered by the calls that fit |
| Fifos.IdsAreCounted | src/handler/fifo.cpp:114-115 | the ids used are as many as the writes that fit |
| Fifos.IdsIncrease | src/handler/fifo.cpp:114-126 | their ids strictly increase from at least 1, those missing are as many as the failed writes, and read returns them in order |
| Quantiles.IndicesInRange | include/benchmark/stats.hpp:27-34 | both indices lie in the sample and are neighbours around the position |
| Quantiles.QuantileIsBetween | include/benchmark/stats.hpp:27-38 | the quantile lies between the two samples |
| Quantiles.QuantileIsLinear | include/benchmark/stats.hpp:27-38 | between positions k and k + 1 of qn - 1/2 the quantile leaves sample k by (qn - 1/2 - k) times the distance to the next; below the first position it is the first sample, above the last one the last |
| Quantiles.QuantileIsMonotone | include/benchmark/stats.hpp:27-38 | a higher rank has a higher quantile |
| Quantiles.QuantileCommutes | include/benchmark/stats.hpp:27-38 | a change of unit or origin of the samples changes the quantile alike |
| Quantiles.QuantileHasItsRank | include/benchmark/stats.hpp:28-37 | fewer than qn + 1/2 samples are below the quantile, more than qn - 1/2 are not above it |
| Quantiles.CountsAreSizes | include/benchmark/stats.hpp:28-37 | the counts in the row above are sizes of sets of positions |
| Quantiles.MedianIsTheMiddle | include/benchmark/stats.hpp:28-37 | at 1/2: the middle sample, or the mean of the two middle ones |
| Moments.MeanIsBetween | include/benchmark/stats.hpp:51-52 | the mean is within any bounds of the samples |
| Moments.TotalsGrow | include/benchmark/stats.hpp:51-59 | one more sample adds its value, its square, its squared distance, or that of its conversion to int |
| Moments.DeviationFromMean | include/benchmark/stats.hpp:54-59 | the sum of squared distances from the mean is the sum of squares minus n times the squared mean |
| Moments.MeanIsBestCentre | include/benchmark/stats.hpp:54-59 | another centre adds n times its squared distance from the mean, so the mean is the only minimum |
| Moments.DeviationIsBounded | include/benchmark/stats.hpp:54-59 | the sum of squared distances is at most n (max - mean) (mean - min) |
| Moments.NoDeviationIffConstant | include/benchmark/stats.hpp:54-59 | the sum vanishes exactly for equal samples |
| Moments.TotalOfPermutation | include/benchmark/stats.hpp:51-59 | accumulated sums do not depend on the order of the samples |
| Moments.TotalIsExactIff | include/benchmark/stats.hpp:54-59 | with samples passed as int, the code's total is the sum of squared distances if and only if the samples from 2^31 on exceed 2^31 by the mean, on average; so when there are none |
| Moments.TotalCanBeWrong | include/benchmark/stats.hpp:54-59 | an input for which it does not hold |
| Summary.SortInPlace | include/benchmark/stats.hpp:42-43 | a sorted permutation |
| Summary.SortIsUnique | include/benchmark/stats.hpp:43 | there is only one, so the algorithm of std::sort does not matter |
| Summary.Accumulate | include/benchmark/stats.hpp:51-59 | the fold is the sum over the samples |
| Summary.Compute | include/benchmark/stats.hpp:40-74 | the result summarizes the sorted sample, however it was sorted; what the fields then are is in SummaryIs, SummaryIsOrdered and FiltersOutliers |
| Summary.SummaryIs | include/benchmark/stats.hpp:48-59 | quartiles and median are the quantiles at 1/4, 1/2 and 3/4, the average times n is the sum of the sample in its own order, and the variance times n - 1 the sum of its squared distances from the average, as int; none for one sample |
| Summary.FiltersOutliers | include/benchmark/stats.hpp:62-72 | in any order: a sample is below the filtered minimum if and only if it is more than 1.5 interquartile ranges below the first quartile; if there is one, the filtered minimum is at that distance, otherwise it is the minimum; alike for the maximum |
| Summary.OrderDoesNotMatter | include/benchmark/stats.hpp:40-74 | permuted samples have equal statistics |
| Summary.SummaryIsOrdered | include/benchmark/stats.hpp:45-73 | minimum, filtered minimum, quartile, median, quartile, filtered maximum and maximum are in this order, and bound the samples tightly, for every non-empty sample in any order |
| Summary.QuartilesHaveTheirRanks | include/benchmark/stats.hpp:48-49 | quartiles and median split the unsorted sample at their ranks |
| Summary.SummaryVarianceIsExactIff | include/benchmark/stats.hpp:40-60 | in the summary of a sample in any order the variance is the corrected sample variance if and only if the samples from 2^31 on exceed 2^31 by the mean, on average; so when there are none |
| Summary.SummaryVarianceMeaning | include/benchmark/stats.hpp:40-60 | below 2^31 that variance is not negative, zero exactly for equal samples, bounded by the distances of the mean from the extremes, and least at the mean |
| Losses.MissesUpToWrap | src/benchmark/realworld.cpp:50-51 | for any ids, misses_ grows by the last id less the messages read, modulo 2^32 |
| Losses.MissesAreExactIff | src/benchmark/realworld.cpp:50-51 | it grows by exactly that number if and only if that is not negative and the counter can take it |
| Losses.MissesCanBeWrong | src/benchmark/realworld.cpp:50-51 | two messages with ids 2 and 1 are counted as 2^32 - 1 misses |
| Losses.NoWrapIffAscending | src/benchmark/realworld.cpp:50-51 | no update wraps around if and only if the ids strictly increase from at least 1, and then the balance holds after every message |
| Losses.IdsOfParts | src/benchmark/realworld.cpp:36-51 | every message has one id, an error none, in order |
| RealWorld.RealWorldBenchmark.RunServer | src/benchmark/realworld.cpp:22-63 | misses_ grows by the count for the ids read; success exactly at the first id from n on, failure exactly at the first error other than NO_DATA_AVAILABLE; it stops before either only when no reading is left, or when the next one must be waited for and each true poll has served one of those before; so with enough of them never |
| RealWorld.TruesAreCounted | src/benchmark/realworld.cpp:30 | the true polls in the row above are a set of positions |
| RealWorld.AwaitedAreCounted | src/benchmark/realworld.cpp:30-34 | so are the readings waited for: the first, and those after an error |
| RealWorld.RealWorldBenchmark.Await | src/benchmark/realworld.cpp:30 | await_data is called until it first returns true, and not at all after a message |
| RealWorld.SuccessfulCount | src/benchmark/realworld.cpp:28-62 | on success with strictly increasing ids within 1..n the misses are n minus the messages read |
| RingLosses.MissesAreFailedWrites | src/benchmark/realworld.cpp:36-56 | on any run of the ring misses_ is the number of writes that failed before the last message read |
| RingLosses.NothingIsMissed | src/benchmark/realworld.cpp:36-56 | on a run of the ring without failed writes it is 0 |
| ConnectionLosses.MissesAreFailedSends | src/benchmark/realworld.cpp:36-56 | over any messages that arrive from one writer, misses_ is the number of its calls that failed before that of the last message read |
| ConnectionLosses.MissesOnAStream | src/benchmark/realworld.cpp:36-56 | so it is for what a stream socket reads |
| ConnectionLosses.MissesOnThePipe | src/benchmark/realworld.cpp:36-56 | so it is for what is read from the pipe in any run |
| Overlaps.OverlapsIffShared | testdata/main.py:92-93 | two areas overlap if and only if they share an address |
| Overlaps.DeleteOverlapping | testdata/main.py:42-47 | the reverse scan deletes exactly the overlapping areas and counts them |
| Overlaps.Process | testdata/main.py:38-51 | the loops build the table, and overlaps counted plus areas left are the intervals processed |
| Overlaps.TableLaw | testdata/main.py:41-49 | the areas of the table are, in arrival order, exactly the intervals at the positions that no later interval overlaps |
| Overlaps.TableIsDisjoint | testdata/main.py:41-49 | no two areas of the table overlap |
| Overlaps.LookupIsMostRecent | testdata/main.py:41-49 | an area of the table covers an address if and only if it is the most recent interval that does and nothing later replaced it |
| Trace.ReadFields | src/main.cpp:260-264 | the getline loop yields the pieces between spaces as long as something is left, so no empty one at the end |
| Trace.FieldsLaw | src/main.cpp:260-264 | no field has a space, and joined with spaces they are the line without one final space |
| Trace.ParseName | src/main.cpp:270-275 | the rejoined name is the remainder after the fifth space without one final space and carriage returns; on a line that is one line for the script it is the script's name if and only if the line does not end in a space |
| Trace.SameFirstFields | testdata/main.py:14 | both parsers see the same first five fields of such a line |
| Trace.SplitLaw | testdata/main.py:14 | joining the parts gives the line back, and none but the last of n + 1 has a space |
| Trace.CleaningLaw | src/main.cpp:273-275 | cleaning drops carriage returns and one final space and keeps the rest in order |
| Trace.FieldExistsIff | src/main.cpp:270 | the sixth field of such a line exists if and only if the script has six parts and the last is not empty or a carriage return follows |
| Trace.FinalSpaceIsLost | src/main.cpp:263-275 | a line whose name loses its final space |
| Trace.ExamplesAreLines | testdata/main.py:12-14 | that line and the next are lines for the script, too |
| Trace.SixthFieldIsMissing | src/main.cpp:270 | a line on which the sixth field is missing |

## Left out

- Kernel objects and their set-up and removal (`socket`, `bind`, `mmap`, `sem_open`, `shm_open`, `unlink`, building of addresses): only the initial state they establish is modelled.
- Opening a shared-memory or shared-file handler again after `close`, which resets neither `offset_` nor `last_id_`; several readers or writers.
- The DBus, message queue and datagram handlers, which pass whole messages through a foreign transport and would add only easy members.
- Partial `send`, EINTR within a stream frame, and the buffering inside `fstream`.
- RingHandlers.SharedMemory.Read: requires what the assertion on the body size checks; `DecodeAlwaysPossible` and `ReadReturnsNext` prove it for every reachable state.
- RingHandlers.SharedFile.Read: requires the same assertion, with the same proofs.
- Summary.Compute: does not model the standard deviation, the square root of the variance.
- Floating-point rounding, NaN and the square root: the statistics are over the reals and end with the variance, which is `None` for a single sample, where the code divides 0 by 0.
- Summary.SortInPlace: stands for `std::sort`, whose algorithm is not modelled; `SortIsUnique` shows that it cannot matter.
- Overlaps.Process: the list that the script changes in place is a sequence, so aliasing of that list is not captured.
- `run_client` and its deadline misses, sleeping, clocks, timing benchmarks, console output, the command line, the plots and the page scraper.
- The conversion of the numeric fields of a trace line (`stoll`, `stoull`, `stoul`), which is library code, and the splitting of the file into lines.
- What the benchmark does on a line without a sixth field, where its behaviour is undefined, and lines of the file that are several lines for the script (`OneLine` excludes them): those with a carriage return, a vertical tab, a form feed, or one of U+001C to U+001E, U+0085, U+2028 and U+2029 inside. Characters stand for their UTF-8 bytes.
- Fairness of the scheduler: `NeverStuck` and `RunsAreBounded` say that progress is possible and bounded, not that a process is scheduled.
