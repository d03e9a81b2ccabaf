# snode stream buffers, task queue and HTTP framing: a verified model

snode moves bytes between tasks through a *producer/consumer buffer*: a queue of memory blocks with a read
cursor and a write cursor, an alloc/commit path, an acquire/release path, a watermark left by `sync`, open
flags for both ends, and readers that wait until enough bytes are there. On top of it run callback pumps that
copy a stream to its end or up to a delimiter; below it a thread pool gives each worker one FIFO of tasks; and
its HTTP service frames messages with an incremental line-end matcher, chunked bodies, bodies of announced
length, and a case-insensitive header map.

How the model is built:

- What the source updates in place is a class here, with the same fields: `MemBlock`, `BlockDeque`,
  `ProducerConsumerBuffer`, the two pumps `EndRead` and `DelimRead`, `HttpConnection`, `Headers`; the chunk
  encoder writes into an array; the matcher, the comparison, the trimming and the header parser are loops.
- `BufferSpec` says what the buffer means with its blocks forgotten: the unread bytes, the watermark, the
  counters, the waiting readers, the completions given to the worker. Every method of `ProducerConsumerBuffer`
  is proved to change that meaning as `BufferSpec` says, whatever the block layout. Theorems about runs
  (conservation, no lost wakeup, order, end of stream) are proved about `BufferSpec` and so hold of the class;
  `BufferLaws` says of each operation in bytes, counts and flags alone what it gives, takes and leaves.
- `StreamCopy` and `DelimScan` do the same for the pumps: state machines over two buffers, a 16K staging area
  and the worker's queue, in which other tasks may act on both buffers between any two callbacks. `EndReads`
  and `DelimReads` hold the pumps as objects over two real buffers, each callback proved to refine its step.
  `DelimEnds` says how a scan ends: what it moves, what it reports, and when its handler is never called.
- `SynchronisedQueue` is a monitor with an explicit mutex, a wait set, spurious wakeups and any number of
  threads; `ThreadPool` is the workers, their queues and one caller of `stop`; `PoolQueues` runs the pool over
  the monitors, lock step by lock step, and proves every such run to be a run of `ThreadPool`. They justify
  treating the tasks of one worker as a FIFO run one at a time.
- `HeaderBlock` parses and prints header blocks; `HeaderLaws` says the same byte by byte.
- `HttpBody` is the chain of body handlers of one connection as a state machine over arrivals; in
  `HttpConnections` the handlers are methods of a connection that owns a `ProducerConsumerBuffer` as its body
  stream, and whole transfers are executed on it.

What the code does that its documentation does not say, kept as the code has it:

- Requests may complete out of order: one that can be satisfied on arrival passes those that wait
  (`OvertakesExactly` says exactly when).
- The delimiter scan can stop for good, without its handler ever being called: when the bytes at hand end
  before a delimiter and before the staging area is full, or the delimiter or the end of the stream is met with
  nothing staged (`StallsExactly`, `HeldStallsExactly`, `StalledForever`). Run to its end on a readable source,
  it calls the handler if and only if the delimiter is there, at a distance that is no multiple of 16K
  (`HandlerCalledExactly`); and the count it then reports is that of the last flush, which is the number of
  bytes moved if and only if the delimiter is within the first 16K (`CountsExactly`).
- `acquire` and `release` of the base class look at the *write* end, so after the writer has closed `acquire`
  returns false, although its documentation promises true with a null block at the end of the stream, and
  `release` does nothing (`Acquire`, `Release`).
- A committed block can be written to again when it is the last one and has room, although the comment in
  `commit` says otherwise; nothing is lost by it, but the space bound is only proved for runs without commits.
- Only maps whose entries are trimmed, named, and free of colons and line feeds in the right places survive
  printing and parsing: `RoundTripExactly` is an if and only if.
- The chunk decoder waits for `len + 2` bytes with an `int` `len`. The sum overflows for bodies of 2^31 - 2 and
  2^31 - 1 bytes, and longer ones are read as the latter; the overflow is taken to wrap around, and the size asked
  for is then near 2^64. Such a body is never delivered: the limit is 2^31 - 3 bytes (`ChunkedDeliveredExactly`).
- From 2^32 bytes on the chunk encoder cuts the size field to its first eight digits; `AddChunkedDelimiters`
  states both sides of that limit.

## Model

| member | source | states |
|---|---|---|
| BufferSpec.StreamConservation | src/producer_consumer_buf.h:97-169 | over every run of writes, commits, reads, peeks, releases, syncs, queued reads and closes: bytes taken, in completion order, followed by bytes unread are the bytes held at first followed by those accepted |
| BufferSpec.StepConserves | src/producer_consumer_buf.h:475-606 | the same for one operation, peeks taking nothing |
| BufferSpec.FulfillTakes | src/producer_consumer_buf.h:509-526 | serving waiting readers hands out the front of the stream in order, without gap or repetition |
| BufferSpec.StepPosts | src/producer_consumer_buf.h:433-455 | an operation gives the worker exactly the completions it makes, behind those given before |
| BufferProperties.FulfillInv | src/producer_consumer_buf.h:509-526 | after the serving loop no request at the head of the queue could be served |
| BufferProperties.StepInv | src/producer_consumer_buf.h:467-606 | every operation keeps: watermark at most the bytes unread, written = read + unread, head of the queue unsatisfiable |
| BufferProperties.RunInv | src/producer_consumer_buf.h:467-606 | the same after any sequence of operations |
| BufferProperties.WaitingMeansUnsatisfiable | src/producer_consumer_buf.h:509-546 | no lost wakeup: whenever a reader waits nothing is synced, the writer is open and fewer bytes are held than it asked for |
| BufferProperties.StepServesInOrder | src/producer_consumer_buf.h:509-540 | an operation only adds to the tail of the queue and only completes from its head |
| BufferProperties.WaitersServedInOrder | src/producer_consumer_buf.h:509-540 | over every run, requests that had to wait complete in the order they were queued |
| BufferProperties.RequestsAccounted | src/producer_consumer_buf.h:509-540 | over every run, each request is completed plus waiting as often as it was issued |
| BufferProperties.NoneCompletedTwice | src/producer_consumer_buf.h:509-540 | a request issued once is completed exactly once unless it still waits |
| BufferProperties.OvertakesExactly | src/producer_consumer_buf.h:528-540 | a new request passes waiting ones if and only if the bytes held suffice for it, and then it asks for less than their head |
| BufferProperties.NotInRequestOrder | src/producer_consumer_buf.h:528-540 | a run in which the later request completes and the earlier one waits |
| BufferProperties.SyncReadJustified | src/producer_consumer_buf.h:240-266 | a synchronous read yields end of stream only when the writer is closed and all is read, and comes up short only with synced data or a closed writer |
| BufferProperties.ServedJustified | src/producer_consumer_buf.h:433-455 | the same for every completion the serving loop makes |
| BufferProperties.EndOfStreamOnlyAfterClose | src/producer_consumer_buf.h:509-546 | no handler is told end of stream while the read end is open, unless the writer is closed and nothing is left |
| BufferProperties.SyncSettles | src/producer_consumer_buf.h:172-176 | after sync either no request waits or no byte is unread |
| BufferProperties.CloseSettles | src/producer_consumer_buf.h:308-317 | closing the write end leaves no request waiting |
| BufferProperties.AfterClose | src/producer_consumer_buf.h:308-317 | from then on nobody waits, nothing is accepted, and requests complete in issue order |
| BufferProperties.PeeksFaithful | src/producer_consumer_buf.h:247-282 | a peek changes nothing readers see and announces exactly what the matching read then returns |
| BufferLaws.SgetnReads | src/producer_consumer_buf.h:240-243 | a block read waits exactly when the writer is open, nothing is synced and too few bytes are held; otherwise it gives that many bytes from the front, or all there are, and takes just these |
| BufferLaws.ScopyReads | src/producer_consumer_buf.h:247-250 | the same bytes, taking none |
| BufferLaws.CharReads | src/producer_consumer_buf.h:263-282 | a character read gives the first byte, the end of the stream or a wait, and the end-of-file flag remembers which |
| BufferLaws.ClosedReads | src/async_streams.h:401-499 | with the read end closed every read gives nothing and changes nothing |
| BufferLaws.ReleaseTakes | src/producer_consumer_buf.h:158-169 | a release takes its bytes off the front, and nothing once the writer is closed |
| BufferLaws.ServedAnswers | src/producer_consumer_buf.h:433-455 | each waiting request that is completed gets, from what those before it left: with memory and a count above one that many bytes or all there are, else one character |
| BufferLaws.FeedAnswers | src/producer_consumer_buf.h:509-526 | the same of every completion that a write, commit, sync or close causes |
| BufferLaws.AskAnswers | src/producer_consumer_buf.h:528-540 | an asynchronous read is refused with the read end closed, queued exactly when it must wait, and otherwise completed at once by the same rule |
| BufferLaws.WriteReplies | src/producer_consumer_buf.h:475-498 | a write reports all its bytes, or none with the writer closed; when it accepts none nothing changes |
| BufferLaws.AllocGives | src/async_streams.h:523-537 | alloc hands out a block of the size asked for, and when it does not |
| BufferLaws.CommitReplies | src/async_streams.h:542-552 | a commit ends the allocation, is an error without one, and does nothing with the writer closed |
| BufferLaws.CloseCloses | src/async_streams.h:317-330 | the ends named are closed, the others as they were; closing the read end alone leaves all else alone |
| BufferLaws.SyncMarks | src/producer_consumer_buf.h:172-176 | sync marks everything unread, whether or not anybody waits; with the writer closed it throws |
| BufferLaws.RunLowers | src/producer_consumer_buf.h:588-606 | over every run the mark falls by exactly the bytes read, and the two counters are the bytes read and accepted |
| BufferLaws.PromptAfterSync | src/producer_consumer_buf.h:172-176 | over every run after a sync: until as many bytes were read as it found, every read of at least one byte is answered without waiting |
| BufferLaws.WriteAndSyncSettle | src/producer_consumer_buf.h:172-176 | after a write and a sync nobody waits beside unread bytes, and all of them can be read at once |
| MemBlocks.SpaceBound | src/producer_consumer_buf.h:475-498 | when every adjacent pair is packed, the blocks between first and last have capacity at most twice the bytes held |
| MemBlocks.StoreKeeps | src/producer_consumer_buf.h:484-498 | opening a block only when the bytes do not fit keeps every adjacent pair packed and only the front block partly read |
| MemBlocks.ReadInto | src/producer_consumer_buf.h:560-584 | reading k bytes of a block after all blocks before it removes exactly those bytes from the front of the stream |
| MemBlocks.PurgeFront | src/producer_consumer_buf.h:596-605 | dropping an exhausted front block loses nothing |
| MemBlocks.MemBlock.Read | src/producer_consumer_buf.h:359-377 | returns the next unread bytes of the block, up to the count, moving the read cursor only when advancing |
| MemBlocks.MemBlock.Write | src/producer_consumer_buf.h:380-401 | fills the cells behind the write cursor with as much as fits and touches no other cell |
| BlockDeques.BlockDeque.Scan | src/producer_consumer_buf.h:560-577 | the loop over blocks returns the first bytes of the whole stream and moves cursors only when advancing |
| BlockDeques.BlockDeque.Purge | src/producer_consumer_buf.h:596-605 | afterwards at most the front block is partly read, no unread byte is lost and the layout stays packed |
| ProducerConsumerBuffers.ProducerConsumerBuffer.constructor | src/producer_consumer_buf.h:60-64 | a new buffer is open at both ends and empty, for any block size |
| ProducerConsumerBuffers.ProducerConsumerBuffer.UpdateReadHead | src/producer_consumer_buf.h:588-606 | counters and watermark move by the count, the watermark not below zero, and the front is purged |
| ProducerConsumerBuffers.ProducerConsumerBuffer.Read | src/producer_consumer_buf.h:560-584 | takes, or only shows, the next bytes of the stream across block boundaries |
| ProducerConsumerBuffers.ProducerConsumerBuffer.ReadByte | src/producer_consumer_buf.h:550-555 | the first unread byte, or EOF exactly when there is none |
| ProducerConsumerBuffers.ProducerConsumerBuffer.CompleteRequest | src/producer_consumer_buf.h:433-455 | a request for several bytes with memory gets a block, any other one character, in the specification's terms |
| ProducerConsumerBuffers.ProducerConsumerBuffer.FulfillOutstanding | src/producer_consumer_buf.h:509-526 | the loop computes the specification's serving of the queue on any block layout |
| ProducerConsumerBuffers.ProducerConsumerBuffer.UpdateWriteHead | src/producer_consumer_buf.h:467-472 | counts the bytes and serves whoever waits |
| ProducerConsumerBuffers.ProducerConsumerBuffer.Write | src/producer_consumer_buf.h:475-498 | accepts all bytes with both ends open, reports but drops them with the reader gone, refuses them with the writer closed |
| ProducerConsumerBuffers.ProducerConsumerBuffer.Alloc | src/async_streams.h:523-537 | null when closed, an error when a block is outstanding, otherwise a block apart from the stream |
| ProducerConsumerBuffers.ProducerConsumerBuffer.Commit | src/async_streams.h:542-552 | the cells the caller filled join the stream at its end; an error without an outstanding block |
| ProducerConsumerBuffers.ProducerConsumerBuffer.Acquire | src/async_streams.h:563-569 | exactly when a block is handed out, and that it shows the next unread bytes |
| ProducerConsumerBuffers.ProducerConsumerBuffer.Release | src/async_streams.h:575-579 | takes the released bytes off the front, or does nothing with the writer closed or no block |
| ProducerConsumerBuffers.ProducerConsumerBuffer.Sync | src/producer_consumer_buf.h:172-176 | marks all unread bytes as synced and serves whoever waits; an error with the writer closed |
| ProducerConsumerBuffers.ProducerConsumerBuffer.Sgetn | src/async_streams.h:477-487 | the bytes the specification takes, or that an asynchronous read is needed |
| ProducerConsumerBuffers.ProducerConsumerBuffer.Scopy | src/async_streams.h:494-499 | the same bytes without taking them |
| ProducerConsumerBuffers.ProducerConsumerBuffer.Sbumpc | src/async_streams.h:401-406 | one byte taken, EOF, or that an asynchronous read is needed |
| ProducerConsumerBuffers.ProducerConsumerBuffer.Sgetc | src/async_streams.h:424-429 | the same without taking it |
| ProducerConsumerBuffers.ProducerConsumerBuffer.EnqueueRequest | src/producer_consumer_buf.h:528-540 | completed at once when it can be, refused with the read end closed, queued last otherwise |
| ProducerConsumerBuffers.ProducerConsumerBuffer.Close | src/async_streams.h:317-330 | closes the named ends once; closing the write end serves the whole queue |
| ProducerConsumerBuffers.KeptIsLegal | src/async_streams.h:542-579 | what a caller asks for is done as asked when it stays in the allocated or the front block, and cut to that block otherwise |
| ProducerConsumerBuffers.ReleaseFront | src/producer_consumer_buf.h:158-169 | acquiring the front block and releasing part of it takes that part, cut to the block, off the stream |
| ProducerConsumerBuffers.Perform | src/producer_consumer_buf.h:97-317 | any operation on the object, acquire and release included, is the specification's step and gives its reply, with commits cut to the allocated block and releases to the front one |
| ProducerConsumerBuffers.PerformAll | src/producer_consumer_buf.h:97-317 | any run on the object is a legal run of the specification and gives its replies; nothing else is cut, and block capacities stay packed without commits |
| ProducerConsumerBuffers.LayoutUnobservable | src/producer_consumer_buf.h:484-498 | two buffers with different block sizes driven by the same operations give equal replies, completions, contents and counters |
| ProducerConsumerBuffers.SpaceBounded | src/producer_consumer_buf.h:475-498 | after any run without commits, releases included, the blocks between first and last hold at most twice the unread bytes |
| StreamCopy.GetMoreInv | src/async_streams.h:1152-1156 | asking the source leaves one thing outstanding: a waiting read or one queued callback with the bytes it got |
| StreamCopy.RunPutInv | src/async_streams.h:1171-1185 | the target's write, its sync and the next request keep the byte accounting |
| StreamCopy.EventInv | src/async_streams.h:1143-1191 | every callback and every step of other tasks keeps: bytes consumed = bytes accepted by the target + the one chunk in flight |
| StreamCopy.RunInv | src/async_streams.h:1143-1191 | the same over every run, with exactly one thing outstanding until the handler has been called once |
| StreamCopy.WorkProgress | src/async_streams.h:1158-1185 | with the source's writer closed every callback brings the end closer |
| StreamCopy.EventProgress | src/async_streams.h:1143-1191 | once the source's writer is closed no event of any job sets the copy back, and each callback brings it closer to its end |
| StreamCopy.WorkFinishes | src/async_streams.h:1158-1185 | so the copy finishes after that many callbacks, whatever other jobs do to both buffers between any two of them |
| StreamCopy.CopyToEnd | src/async_streams.h:1332-1340 | over every schedule, other jobs acting before and after the source's writer closes: when the callbacks left have run and the ends are still open, the handler was called once, with the number of bytes moved, which are all the source held or accepted |
| StreamCopy.CopyAlone | src/async_streams.h:1332-1340 | in particular the worker alone brings the copy there |
| StreamCopy.ReadCallbackDoes | src/async_streams.h:1158-1169 | on_read queues one write of what was read, refused by a closed target, and calls the handler only when nothing was read |
| StreamCopy.WrittenIsServed | src/async_streams.h:1171-1185 | after every callback that wrote something nobody waits on the target beside unread bytes, and all of them can be read at once |
| StreamCopy.RunKeepsSettled | src/async_streams.h:1171-1185 | the same over every run in which nobody else writes into the target |
| StreamCopy.CopyServesReaders | src/async_streams.h:1332-1340 | a whole copy into a target with readers: its bytes are handed to them in order, and what is left is unread only if nobody waits |
| StreamCopy.OneRequestTakes | src/async_streams.h:1152-1156 | one request moves 16384 bytes when the source has them |
| EndReads.EndRead.GetMore | src/async_streams.h:1152-1156 | getn on a real source buffer refines the pump's request |
| EndReads.EndRead.OnRead | src/async_streams.h:1158-1169 | the staged block goes to the target's putn, and an empty one to the handler |
| EndReads.EndRead.OnWrite | src/async_streams.h:1171-1185 | counts, syncs the target and asks again, or reports the total |
| EndReads.EndRead.RunPut | src/producer_consumer_buf.h:197-212 | the write task on a real target buffer followed by on_write refines the pump's step |
| EndReads.EndRead.RunTask | src/async_streams.h:1143-1191 | each callback on real buffers is a step of the state machine |
| EndReads.Drain | src/async_streams.h:1143-1191 | running the worker until it is idle ends, finished, with everything stored behind what the target held and handed to whoever waits there |
| EndReads.CopyStream | src/async_streams.h:1332-1340 | copying a closed source empties it and reports its length; all its bytes go in order behind what the target held, to the target's readers first, and nobody is left waiting beside them |
| DelimScan.EventInv | src/async_streams.h:904-1003 | every callback and every step of other tasks keeps: bytes flushed, bytes staged and at most one more (a character in flight or the delimiter) are the source prefix consumed |
| DelimScan.RunInv | src/async_streams.h:904-1003 | the same over every run |
| DelimScan.ScanSafe | src/async_streams.h:1301-1309 | over every run the bytes flushed and staged are that prefix, free of the delimiter; the handler is called at most once |
| DelimScan.ScanLoopDoes | src/async_streams.h:921-949 | the whole effect of the loop at once: it stages up to the first delimiter, the end of the data or a full area, consumes the delimiter without storing it, and queues the flush that fits |
| DelimEnds.StallsExactly | src/async_streams.h:913-951 | one turn of read_to_delim leaves nothing that could wake the scan if and only if the read end is closed with nothing staged, or the data ends before delimiter and full area, or the delimiter comes with nothing staged |
| DelimEnds.HeldStallsExactly | src/async_streams.h:953-976 | the same for one turn of on_read: end of stream or delimiter with nothing staged, or a byte after which the data at hand runs out |
| DelimEnds.StalledForever | src/async_streams.h:904-1003 | after that the handler is never called and nothing more is flushed, whatever the writer and the worker do |
| DelimEnds.ScanRunsDown | src/async_streams.h:904-1003 | the whole scan by the worker alone, from any point between two callbacks, with the target open: which bytes are moved, what the handler is told if it is called, what stays in the source, and whether the scan waits for more |
| DelimEnds.HeldEnds | src/async_streams.h:953-976 | the same from an end of stream or a delimiter on its way to on_read: what is staged is flushed and reported, nothing else is read |
| DelimEnds.HeldRunsDown | src/async_streams.h:953-976 | the same from any other byte on its way to on_read, also when it fills the staging area |
| DelimEnds.HandlerCalledExactly | src/async_streams.h:1301-1309 | from its start: the handler is called if and only if the source is readable and its delimiter stands at a distance that is no multiple of the staging area; otherwise the scan waits for the writer only when delimiter-free bytes fill whole areas, and is stalled in every other case |
| DelimEnds.UnendedLineLost | src/async_streams.h:921-949 | bytes without a delimiter that fit into the staging area never reach the target and the handler is never called, whatever happens later |
| DelimEnds.OneByteLost | src/async_streams.h:921-949 | a closed source with one byte that is not the delimiter shows it |
| DelimEnds.CountsExactly | src/async_streams.h:978-996 | for every line with its delimiter: all of it is moved, the count reported is the length of its last piece, and that is the number of bytes moved if and only if the delimiter comes within the first staging area, and not first |
| DelimEnds.ClosedTarget | src/async_streams.h:978-996 | with the target closed: the handler is called if and only if there is something to flush, and is told the bytes moved before |
| DelimEnds.LongLineMiscounted | src/async_streams.h:978-996 | a line one byte longer than the staging area is moved whole and reported as 1 |
| DelimEnds.FlushedIsServed | src/async_streams.h:978-996 | after every flush nobody waits on the target beside unread bytes, and all of them can be read at once |
| DelimEnds.RunKeepsSettled | src/async_streams.h:978-996 | the same over every run in which nobody else writes into the target |
| DelimReads.DelimRead.StoreByte | src/async_streams.h:938-939 | a byte is stored below the end of the staging area, one cell further |
| DelimReads.DelimRead.ReadToDelim | src/async_streams.h:913-951 | the loop over a real source buffer computes the state machine's scan |
| DelimReads.DelimRead.OnRead | src/async_streams.h:953-976 | one delivered character ends the scan, fills the area or lets the scan go on |
| DelimReads.DelimRead.OnWrite | src/async_streams.h:978-996 | after a flush the area is reused; the last flush is reported |
| DelimReads.DelimRead.RunTask | src/async_streams.h:904-1003 | each callback on real buffers is a step of the state machine |
| DelimReads.ScanLine | src/async_streams.h:1301-1309 | a scan of a readable source into an open target, run to its end on real buffers: what the target gains, what stays in the source, and what the handler is told, in terms of the bytes the source held |
| SynchronisedQueue.StepInv | src/synchronised_queue.h:28-46 | every atomic step of any thread keeps the invariant |
| SynchronisedQueue.StepKeepsNotStranded | src/synchronised_queue.h:28-46 | with barging and spurious wakeups, a thread waits beside a non-empty queue only while enough notified ones are on their way |
| SynchronisedQueue.NeverStranded | src/synchronised_queue.h:28-46 | in every reachable state: dequeued followed by queued are the enqueued elements in order, no pop of an empty queue, no stranded waiter |
| SynchronisedQueue.EnqueueDoes | src/synchronised_queue.h:28-33 | enqueue beside a free mutex appends its element, sends one waiting thread on its way, gives the mutex back and moves nobody else |
| SynchronisedQueue.DequeueDoes | src/synchronised_queue.h:36-46 | dequeue beside a non-empty queue takes its first element and gives the mutex back |
| SynchronisedQueue.DequeueWaits | src/synchronised_queue.h:40-41 | dequeue beside an empty queue waits, and the mutex is free meanwhile |
| SynchronisedQueue.MutexComesFree | src/synchronised_queue.h:28-46 | from every state the mutex comes free by steps of its holder alone |
| ThreadPool.StepInv | src/threadpool.h:48-125 | scheduling, running and each phase of stop keep the invariant |
| ThreadPool.RunsInScheduleOrder | src/threadpool.h:68-81 | at any time a worker has run exactly the first tasks scheduled to it, once each, in order |
| ThreadPool.StopDrains | src/threadpool.h:48-64 | when stop has returned, each worker ran every task scheduled before its cancel task and none after, and schedule throws |
| ThreadPool.ScheduleDoes | src/threadpool.h:68-81 | a task goes to the end of the queue of the worker named and of no other; scheduling throws exactly for unknown workers and after stop |
| ThreadPool.WorkerDoes | src/threadpool.h:99-112 | a worker takes the first of its queue: it runs a task, and returns at the cancel task |
| ThreadPool.StopBegins | src/threadpool.h:48-58 | stop begins with the first worker, and a second call does nothing |
| ThreadPool.StopReturns | src/threadpool.h:48-64 | from wherever it stands stop can return, by steps of the workers and its own |
| PoolQueues.QueueStepSeen | src/synchronised_queue.h:28-46 | of all lock steps in a worker's queue the pool sees two: a push schedules, a pop, always the worker's, is one turn of it |
| PoolQueues.ActRefines | src/threadpool.h:48-125 | every act on the real queues keeps the invariant and is at most one step of the pool |
| PoolQueues.RunRefines | src/threadpool.h:48-125 | every run of the pool over its monitor queues is a run of the pool over plain FIFOs |
| PoolQueues.PoolRuns | src/threadpool.h:95-119 | after start-up, over every such run: jobs are taken in schedule order and none after a cancel task, which has been taken when stop has returned, and with the mutex free a worker that waits has an empty queue |
| CrlfSearcher.SearchStep | src/http_service.cpp:71-122 | the matcher's state is always the longest suffix that is a proper prefix of CRLFCRLF |
| CrlfSearcher.Search | src/http_service.cpp:61-124 | found if and only if some prefix ends in CRLFCRLF or a foreign byte, at the least such place; otherwise the start of the longest partial match |
| CrlfSearcher.ResumeSearch | src/http_service.cpp:64-67 | searching on from the returned position finds what a search from the start finds |
| CrlfSearcher.ReadUntil | src/http_service.cpp:241-242 | over input in any pieces the answer is that of one search of the whole |
| CrlfSearcher.ReadHead | src/http_service.cpp:61-124 | the same in bytes: found exactly when 13 10 13 10 or a byte no head may hold ends somewhere, at the least such place; otherwise where the longest unfinished 13 10 13 10 begins |
| CrlfSearcher.ArrivalIndependent | src/http_service.cpp:241-242 | two arrivals of the same bytes are answered alike |
| ChunkedEncoding.HexValue | src/http_helpers.cpp:172-174 | the printed size reads back as the number |
| ChunkedEncoding.EightDigits | src/http_helpers.cpp:168-174 | the size fits the eight-character field if and only if it is below 2^32 |
| ChunkedEncoding.DigitsAre | src/http_helpers.cpp:172-174 | the sixteen digits printed, and both spellings of each when read |
| ChunkedEncoding.SpelledValue | src/http_service.cpp:418-421 | every spelling of a size, letters large or small and zeros before it, has its value |
| ChunkedEncoding.WireFormat | src/http_helpers.cpp:161-177 | a chunk and the last chunk, byte by byte |
| ChunkedEncoding.WriteSize | src/http_helpers.cpp:168-175 | the field holds the right-aligned size and the offset is that of its first digit |
| ChunkedEncoding.AddChunkedDelimiters | src/http_helpers.cpp:150-181 | fails exactly when the buffer is too small and then changes nothing; otherwise the body stays, and the bytes from the offset are its well-formed chunk if and only if its size is below 2^32 |
| HttpBody.SizeLineOfHex | src/http_service.cpp:418-423 | the decoder reads back the size the encoder prints, or the largest int when it is above that |
| HttpBody.SizeLineReads | src/http_service.cpp:418-423 | a size in any spelling, behind any white space, is read as that size up to the largest int, and reading stops at the first byte that is no digit |
| HttpBody.NoSizeReadsZero | src/http_service.cpp:418-423 | without a digit the size is 0 |
| HttpBody.WaitForIsSum | src/http_service.cpp:430 | the int sum of length and line end as a size, overflow included |
| HttpBody.ChunkStep | src/http_service.cpp:410-464 | every event keeps: what the body stream got and the chunks still to come are the bodies sent |
| HttpBody.ChunkRun | src/http_service.cpp:410-464 | the same over every run |
| HttpBody.ChunkProgress | src/http_service.cpp:410-464 | with everything arrived and every chunk within the limit the pending handler always runs and brings the end closer |
| HttpBody.ChunkedDecodes | src/http_service.cpp:410-464 | decoding chunks whose sizes are spelled in any way, each of at most 2^31 - 3 bytes, under any arrival splitting completes with the total length and exactly their concatenation |
| HttpBody.ChunkedRoundTrip | src/http_service.cpp:410-464 | in particular what the encoder prints decodes to the bodies |
| HttpBody.DeliveredExactly | src/http_service.cpp:420-431 | of all non-empty chunks: they are delivered if and only if each one's length plus two is an int; otherwise the decoder never completes |
| HttpBody.ChunkedDeliveredExactly | src/http_service.cpp:420-431 | the same of what the encoder prints |
| HttpBody.StopsBefore | src/http_service.cpp:420-431 | of a longer body, and of all after it, nothing reaches the body stream, and any end of the connection completes with 0 |
| HttpBody.OneByteTooLong | src/http_service.cpp:420-431 | a body of 2^31 - 2 bytes shows it |
| HttpBody.ChunkedPrefix | src/http_service.cpp:410-464 | under failures too the body stream holds a prefix, and a completion other than 0 means all of it |
| HttpBody.PumpStep | src/http_service.cpp:466-515 | every event keeps: received and still to come are the bytes behind the headers, read_ at most read_size_, putn of at least one byte |
| HttpBody.PumpWrite | src/http_service.cpp:487-501 | each accepted write strictly reduces read_size_ - read_ |
| HttpBody.ContentLengthRead | src/http_service.cpp:391-405 | under any arrival splitting the pump completes with the announced length and exactly the first that many bytes |
| HttpBody.ContentLengthSafe | src/http_service.cpp:466-515 | under failures too read_ stays within read_size_, the body is a prefix, every putn has count at least 1, and a completion other than 0 means all of it |
| HttpBody.FailureEnds | src/http_service.cpp:410-501 | any failure, of a read or of the body stream, completes the body with 0 and keeps what was received |
| HttpBody.WaitsForPart | src/http_service.cpp:503-515 | a part is waited for until 4096 bytes, or the rest of the body, are buffered |
| HttpBody.WritesAllBuffered | src/http_service.cpp:466-501 | then all that is buffered of the body is written at once and the next part waited for |
| HttpConnections.FindLine | src/http_service.cpp:456-457 | the size line is read exactly when a CRLF has arrived |
| HttpConnections.HttpConnection.CompleteBody | src/http_msg.cpp:99-103 | completing a body closes the body stream for writing and loses none of its bytes |
| HttpConnections.HttpConnection.BodyStreamWrites | src/http_service.cpp:444-447 | the body stream, a real producer/consumer buffer, accepts all the announced bytes behind those it holds, and its handler then takes them off the request buffer |
| HttpConnections.HttpConnection.Take | src/http_service.cpp:410-515 | every arrival, completion and read failure on the object is one step of the state machine, with the buffer's contents for the body |
| HttpConnections.ReceiveChunked | src/http_service.cpp:382-389 | a chunked transfer within the limit, its sizes spelled in any way, executed on the object under any arrival splitting: it completes with the total length, and the closed body stream holds exactly the concatenated bodies |
| HttpConnections.ReceiveAnnounced | src/http_service.cpp:391-405 | the same for an announced length: exactly that many bytes are in the closed body stream |
| HttpConnections.RoundTrip | src/http_helpers.cpp:150-181 | running the encoder into real buffers on bodies within the decoder's limit, cutting its output anywhere and feeding it to a connection leaves the bodies in the body stream |
| HttpConnections.EncodeBodies | src/http_helpers.cpp:150-181 | encoding each body in its own buffer and taking it from the returned offset gives the chunk stream |
| HttpHeaders.Icmp | src/utils.h:115-129 | the index loop with early returns computes the three-way comparison |
| HttpHeaders.CompareZero | src/utils.h:115-137 | the comparison is zero if and only if the names are equal after ASCII folding |
| HttpHeaders.SameNameExactly | src/utils.h:115-137 | the comparison is zero if and only if the lengths are equal and at each place the bytes are equal or one letter in both cases |
| HttpHeaders.FirstDifference | src/utils.h:115-137 | the first difference decides, capital letters counting as small ones and bytes from 128 on as negative, and a proper prefix comes before |
| HttpHeaders.CompareFlip | src/utils.h:115-129 | swapping the names flips the sign, so any two names compare |
| HttpHeaders.CompareTransitive | src/utils.h:115-129 | it is transitive, and equivalence needs both steps to be equivalences |
| HttpHeaders.PutSorted | src/http_headers.h:30-42 | assigning a name keeps the map strictly ordered |
| HttpHeaders.LookupPut | src/http_headers.h:119-122 | an assignment is seen under every spelling of the name and under no other name |
| HttpHeaders.PutKeepsNames | src/http_headers.h:119-122 | assigning under another spelling keeps the one stored first, and only a new name adds an entry |
| HttpHeaders.LookupAlike | src/http_headers.h:100-103 | any spelling of a name finds the same value |
| HttpHeaders.AddedMeans | src/http_headers.h:78-84 | add joins with comma and blank to the value of the name in any spelling, and changes no other name |
| HttpHeaders.OneEntryPerName | src/http_headers.h:30-42 | the map holds at most one entry per folded name |
| HttpHeaders.Headers.Has | src/http_headers.h:100-103 | true if and only if some entry has the name in some spelling |
| HttpHeaders.Headers.Index | src/http_headers.h:119-122 | returns the value, inserting an empty one only when the name was absent |
| HttpHeaders.Headers.Add | src/http_headers.h:78-84 | joins to an existing value, whether empty or not, or inserts |
| Bytes.SpacesAre | src/http_helpers.cpp:133 | what counts as white space: the bytes 9 to 13 and 32 |
| HeaderBlock.TrimTrims | src/http_helpers.cpp:144-148 | the result has no white space at either end, and trimming changes nothing exactly when there was none |
| HeaderBlock.TrimDropsBlanks | src/http_helpers.cpp:130-148 | what trimming takes away, before and after, is white space only |
| HeaderBlock.LtrimWhitespace | src/http_helpers.cpp:130-135 | the loop removes the longest blank prefix |
| HeaderBlock.RtrimWhitespace | src/http_helpers.cpp:137-142 | the loop removes the longest blank suffix |
| HeaderBlock.TrimWhitespace | src/http_helpers.cpp:144-148 | both |
| HeaderBlock.ParseHeaders | src/http_service.cpp:330-363 | the loop over lines fills the map as the grammar says, stops after the empty line, or refuses at the first line without a name |
| HeaderBlock.ParseMerges | src/http_service.cpp:336-363 | an accepted block is the in-order merge of its fields |
| HeaderLaws.EndsAtEmptyLine | src/http_service.cpp:336 | the block ends at an empty line, and what follows is left |
| HeaderLaws.RefusesLine | src/http_service.cpp:338-362 | a line without a colon, or with nothing before it, makes the request bad |
| HeaderLaws.TakesField | src/http_service.cpp:338-346 | any other line is a field: up to the first colon its name, behind it its value, both trimmed |
| HeaderLaws.TakesLastField | src/http_service.cpp:336-346 | and the last line needs no line feed |
| HeaderLaws.MergeMeans | src/http_service.cpp:346-354 | a field's value replaces an empty one, and always that of Content-Length in any spelling; otherwise it is joined with comma and blank; no other name changes |
| HeaderLaws.JoinMeans | src/http_service.cpp:351-354 | joining, one value at a time |
| HeaderBlock.AcceptedBlockMeans | src/http_service.cpp:338-354 | after an accepted block each name has its values joined by ", " from its first non-empty one, Content-Length its last value |
| HeaderBlock.PrintHeaders | src/http_msg.cpp:195-197 | the printing loop writes one line per entry and the empty line |
| HeaderLaws.PrintMeans | src/http_msg.cpp:195-197 | one line an entry, colon and blank between name and value, and an empty line, byte by byte |
| HeaderBlock.PrintedParses | src/http_msg.cpp:195-197 | what parsing the printed form of any one-line entries gives, whoever they are |
| HeaderBlock.CleanRoundTrip | src/http_service.cpp:336-363 | printing and parsing a clean map gives back the map and leaves what follows |
| HeaderBlock.OnlyCleanRoundTrip | src/http_service.cpp:336-363 | only clean maps survive it |
| HeaderBlock.RoundTripExactly | src/http_service.cpp:336-363 | a map survives if and only if names are trimmed, non-empty, free of colon and line feed, and values trimmed and free of line feed |

## Left out

- Integer widths: sizes and counters are unbounded, so `size_t` wrap-around of the stream counters is not modelled; the `int` chunk size with its overflow, the wrap-around of the sizes computed from it and from `read_size_`, and the eight-digit size field are.
- Destination pointers: a read returns its bytes as a value, a queued read records them in its completion, and the pump that asked copies them into its staging array; overlap of a caller's memory with the buffer's is not modelled.
- More than one thread on one buffer: its operations are taken as tasks of one worker, which is how `connect` schedules them; the disabled lock is not modelled.
- A queued read of exactly one byte completes through the character handler and fills no memory; the model says so, and does not claim more.
- A read or write handler given a count of zero is dropped by the base class; the model issues no request for it.
- `getc`, `nextc` and `ungetc`: their request cannot be built by the code as it stands, so the two completion branches they would need are not reached.
- `putn_nocopy`, `in_avail`, `getpos` and seeking on this buffer.
- Readers of a request's body stream while it is being received: on the connection object nobody reads from it yet, and so it refuses no write; refused writes are in the state machine `HttpBody`.
- `DelimRead` and `EndRead` as objects run on their own; steps of other tasks between callbacks are in the state machines `DelimScan` and `StreamCopy`.
- Reads of the source by other tasks while a pump runs on it: they would compete for its bytes.
- `line_read_impl`, whose loop goes on past the end of the line, and the stream classes' `read` and `write`, which overwrite their count through `acquire`.
- Start-up of the pool, where each thread registers its queue without a lock: the model starts after it. Emptying the index of queues at the end of `stop`, also without a lock, while somebody is inside `schedule`. Tasks that throw anything but the cancel error. Several callers of `stop` at once.
- Liveness of the monitor under a fair scheduler.
- The size line of a chunk with a sign or an `0x` prefix, which stream extraction would accept: the model reads hexadecimal digits after blanks.
- `std::map` is a sorted list of entries; the C locale stands for `isspace` and `iequals`.
- The choice of body mode from the header values, and the request line.
- Response sending, keep-alive and dispatch: the call site places chunk data two bytes further than the encoder's documented layout (`src/http_service.cpp:647`); the model uses the documented `data_offset`.
- `container_buffer`, a cursor over a vector: synchronous reads and writes of one position, with easier properties than the buffer modelled here. `sourcebuf`, whose default offset is taken as a position.
- Sockets, timers, configuration, media, factories, character sets, MIME tables, dates.
