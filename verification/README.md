# Verified model of the Network-Code programs

This project models the four parts of the repository that carry real logic, and proves what they
promise. To verify it with Dafny 4.11: `dafny verify dfyconfig.toml`.

1. **The thread pool** (`Thread_pool/thread_pool.c`): workers, submitters and the destroyer around one
   mutex and one condition variable. `Protocol` is the step system, one event per critical section or
   per thing the condition variable may do; `ThreadPoolRecord` is the record updated in place, with the
   `first`/`last` list as heap nodes; each critical section is one step of `Protocol`, and every run of
   `Protocol` is carried out on it (`ThreadPoolRecord.Execute`). `Effects` says what each step does to
   the fields.
2. **The bounded buffer and the chat history** (`LinuxChat`): two semaphores, a circular array and no
   mutex (`RingProtocol`, `RingBufferRecord`); the history kept under 512 recycled keys and replayed on
   request (`ChatHistory`); `ChatDelivery` puts the two together.
3. **The HTTP/1.0 server** (`http/httpd.c`): line reading with CR/LF normalisation, the header loops,
   the request line, the query string, the file path, the choice between error page, file and program,
   and the body copy (`HttpStream`, `HeaderScan`, `HeaderBlock`, `RequestLine`, `Dispatch`). Line ends
   and the request line are those of RFC 1945, sections 2.2 and 5.1. Its Appendix B recommends taking a
   bare LF for a line end; that a bare CR ends a line too is the program's own leniency.
4. **Registration** (`weather_server/wwwroot/cgi`): the in-place form tokenizer, the counter and the
   addresses in the store, and the mailing list rebuilt from them (`FormTokenizer`, `Registration`).
   `EndToEnd` composes 3 and 4: from the bytes of requests to the list of recipients.

## Results worth knowing

- **When the pool strands a task.** A worker whose deadline has passed is no longer a waiter, but is
  still counted in `idle` until it gets the mutex back, so a submission may signal nobody and create
  nobody. `Service.OnlyAddStrands` and `Service.AddServedIff` show that such an `addtask` is the only
  thing that can strand a task, and say exactly which ones do; `Service.LostIsUnsafeAdds` counts the
  tasks stranded at any point of any run. `Shutdown.StrandedRun` is a run in which it happens. If a passed deadline and taking the mutex are one step, it never does
  (`Service.NoStrandedTask`). Every run makes boundedly much work (`Progress.WorkIsBounded`), and
  without new submissions, once the workers rest, the queue is empty exactly if it was served
  (`Progress.QueueRunsDown`).
- **What destroy delivers.** When destroy returns, every task has run exactly once if and only if the
  queue was served at the call; otherwise exactly as many are left as were stranded then
  (`Shutdown.DrainIff`), and their nodes are the ones never freed (`ThreadPoolRecord.ExecuteShutdown`).
  Destroy comes to rest under every schedule (`Shutdown.ShutdownTerminates`) and, unless it wakes by
  chance, has returned by then if and only if the queue was served or no worker was alive
  (`Shutdown.ShutdownCompletesIff`). `Shutdown.HangingRun` is a run in which it waits for ever.
- **What LOAD replays.** Exactly the history up to 512 messages; beyond that the i-th item is the latest
  message of the same number modulo 512 (`ChatHistory.ReplayExactIff`). The consumer gets it all, in
  order, whatever the interleaving (`ChatDelivery.ConversationDelivered`).
- **When the reading loops end, and where.** `get_line` returns exactly when the stream holds a complete
  line (`HttpStream.LoopEndsIff`); a header loop ends exactly when some line of the normalised stream has
  a length that is a multiple of 1022, and behind the first such line (`HeaderScan.TerminatedIff`,
  `HeaderScan.StopsAtMultiple`), so at the blank line exactly when no header line has such a length
  (`HeaderBlock.StopsAtBlankLineIff`). A longer line is read in pieces, and a piece that reads like a
  Content-Length field counts as one (`HeaderBlock.DeclaresLength`).
- **Which requests are handled to the end.** For a missing file the header is scanned once for the
  error page and once more behind it, and after a POST of length 0 the error page scans again: such a
  request is handled to the end only if what follows its header holds a line that would end one
  (`Dispatch.HandlerEndsIff`).
- **Who gets registered.** Exactly the submissions that POST, in any letter case, to a URL behind which
  `stat` and `execl` find the registration program (`EndToEnd.SubmissionRegisters`). As a string its path
  comes from `/cgi/register` only (`EndToEnd.OnlyRegisterUrl`), but a POST to `//cgi/register` registers
  as well on any file system that finds the same file there (`EndToEnd.BothSpellingsRegister`).
- **Which addresses survive.** The form encodes every reserved character and the mailer undoes `%40`
  only, so exactly the addresses made of unreserved characters and `@` reach the list unchanged
  (`Registration.AddressRoundTripIff`).

## Hypotheses

- `pthread_create` and `malloc` succeed, both being unchecked (Thread_pool/thread_pool.c:83, 109);
  `maxThread` is at least 1; nothing is submitted once destroy has begun; destroy is called once.
- Every task returns: a worker that runs one can always finish it.
- A pool's threads are numbered in the order of their creation; the two-second deadline is an event that
  may happen at any time during a wait, and a signal reaches one thread that waits, if there is one.
- `vector` and semaphores of the bounded buffer start with the capacity, 1024 in the program, any
  positive number here. The program declares `pool` before `_cap` (LinuxChat/pool/pool.h:20-21), so its
  initialiser list does not deliver that; the model takes the intent. One producer and one consumer, as
  the program has (LinuxChat/server/udpServerMain.cpp:78-79).
- A request stream holds enough bytes for the lines that are read: at the end of the stream `get_line`
  asks for ever (http/httpd.c:138-143), which `HttpStream.LoopEndsIff` and `HeaderScan.TerminatedIff` make exact.
- What `stat` and `execl` find at a path is a parameter (`Dispatch.Site`), any function from strings to
  files that does not change during a history. In `EndToEnd` no program but the registration program writes the list of users.
- Sizes that the programs leave unchecked are preconditions: at most ten fields and at least two in a
  form, a body shorter than 1024 bytes, a user number of at most seven digits.
- Redis is a map from strings to strings, JSON decoding is the flag that tells whether a message reads
  LOAD, and the browser's form encoding is the standard one.

## Model

| member | source | states |
|---|---|---|
| CounterInvariant.StepKeeps | Thread_pool/thread_pool.c:17-62 | every critical section and every act of the condition variable keeps: count = live workers <= maxThread, idle = workers inside the wait, no sleeper after quit, submission order, and started = in flight + completed for each task |
| CounterInvariant.CountersAgree | Thread_pool/thread_pool.c:10-66 | in every state of every run idle and count agree with the workers, 0 <= idle <= count <= maxThread, started tasks followed by the queue are the submissions in order, and each task is queued, in flight or completed as often as it was submitted |
| Effects.AddEffect | Thread_pool/thread_pool.c:91-111 | for every submission: with nobody idle and room for one more, count rises by 1, a thread is appended and nobody is signalled; with nobody idle and no room only the queue grows; with somebody idle no thread is created and exactly one waiter is woken, if there is one |
| Effects.ThreadsAreCreations | Thread_pool/thread_pool.c:104-110 | a run creates exactly as many threads as it has submissions made with nobody idle and fewer than maxThread workers |
| Effects.SecondThread | Thread_pool/thread_pool.c:104-110 | a second submission to a pool of at least two threads starts a second thread while the first is at work |
| Effects.RoundEffect | Thread_pool/thread_pool.c:17-60 | a worker with the mutex takes the first task if there is one, and otherwise leaves when the pool is to be destroyed or its deadline has passed, and waits when not, each with its effect on every field |
| Effects.FinishEffect | Thread_pool/thread_pool.c:39-62 | a worker whose task is done leaves, silently or as the last with a signal, or goes round again, with the effect on every field |
| Effects.DestroyEffect | Thread_pool/thread_pool.c:123-135 | destroy sets quit, wakes every sleeper if anybody is idle, and waits if any worker is alive |
| Effects.OtherEffects | Thread_pool/thread_pool.c:25-31 | a passed deadline, a chance wakeup and the destroyer's test change one thread alone |
| Effects.AnyWaiter | Thread_pool/condition.c:29-32 | a signal may reach whichever thread waits, and nobody only if none does |
| Effects.MayHappenIff | Thread_pool/thread_pool.c:10-140 | which events may happen depends only on where the threads stand |
| Service.AddServedIff | Thread_pool/thread_pool.c:91-111 | an addtask leaves the queue served exactly when some worker is still to come back, or sleeps, or one is created, or the expired waiters outnumber the queue; otherwise it strands a task |
| Service.OnlyAddStrands | Thread_pool/thread_pool.c:17-62 | no other event strands a task, and none rescues a stranded one |
| Service.NothingStrandedIff | Thread_pool/thread_pool.c:17-113 | a run strands nothing at any point if and only if each of its submissions was safe when made |
| Service.LostUnchanged | Thread_pool/thread_pool.c:17-62 | no event but a submission changes the number of stranded tasks |
| Service.AddLoses | Thread_pool/thread_pool.c:91-111 | a safe submission leaves none stranded, any other strands one more |
| Service.LostIsUnsafeAdds | Thread_pool/thread_pool.c:17-113 | after any run exactly as many tasks are stranded as submissions were unsafe since the last safe one |
| Service.NoStrandedTask | Thread_pool/thread_pool.c:17-113 | when a passed deadline and taking the mutex are one step, in every reachable state a non-empty queue has a live worker that is neither asleep nor on its last task, and fewer than maxThread workers are on their last task |
| Service.TimeoutIsExpireThenLate | Thread_pool/thread_pool.c:25-31 | the atomic timeout is the general one with nothing in between |
| Progress.WorkShrinks | Thread_pool/thread_pool.c:34-62 | every critical section of a worker, before or after quit, strictly decreases the work left |
| Progress.WorkersRested | Thread_pool/thread_pool.c:10-63 | a worker outside the wait always has a step to take |
| Progress.StepMeasure | Thread_pool/thread_pool.c:10-139 | every event makes a bounded amount of work: a submission 3, a passed deadline or chance wakeup 1, a broadcast one for each sleeper, anything else none |
| Progress.WorkIsBounded | Thread_pool/thread_pool.c:10-139 | in every run the workers make at most as many critical sections as there was work and other events made |
| Progress.QueueRunsDown | Thread_pool/thread_pool.c:10-63 | in every run without submissions, deadlines, chance wakeups and destroy included, when no worker has a critical section left to make, exactly the tasks stranded at the start are queued, and none if and only if the queue was served |
| Shutdown.ShutdownStep | Thread_pool/thread_pool.c:44-60 | once quit is set every event strictly decreases the measure, unless it is the destroyer waking for nothing and going back to wait |
| Shutdown.ShutdownTerminates | Thread_pool/thread_pool.c:123-137 | a shutdown makes at most Measure many productive steps under every schedule |
| Shutdown.RestMeansEmpty | Thread_pool/thread_pool.c:44-53 | a shutdown is at rest only when every worker has left: no worker deadlocks |
| Shutdown.LastLeaverSignals | Thread_pool/thread_pool.c:44-60 | after quit, with the queue served, the last worker to leave takes the signalling branch, not the silent one: the queue is empty and the waiting destroyer is woken |
| Shutdown.RunWillBeWoken | Thread_pool/thread_pool.c:44-60 | no lost wakeup: after quit, while the queue is served, a waiting destroyer always has a live worker left to wake it |
| Shutdown.NeverSignalled | Thread_pool/thread_pool.c:55-60 | with a task stranded at the call no worker ever signals the waiting destroyer, in any run in which it does not wake by chance |
| Shutdown.AllDoneIff | Thread_pool/thread_pool.c:44-53 | with no live worker left, the completed tasks are the submitted ones, each as often, if and only if the queue is empty |
| Shutdown.ReturnedIsFinal | Thread_pool/thread_pool.c:133-139 | once destroy has returned no thread has anything left to do |
| Shutdown.DrainIff | Thread_pool/thread_pool.c:116-140 | when destroy has returned, count is 0, all workers have exited, and the queue is empty and every submitted task has run exactly once if and only if the queue was served when destroy was called; the tasks left are as many as were stranded then |
| Shutdown.ServedShutdownReturns | Thread_pool/thread_pool.c:123-138 | with the queue served or no worker alive at the call, destroy has returned when it comes to rest, in every run, chance wakeups included |
| Shutdown.StrandedShutdownHangs | Thread_pool/thread_pool.c:123-138 | with a task stranded and a worker alive at the call, destroy never returns unless the destroyer wakes by chance |
| Shutdown.ShutdownCompletesIff | Thread_pool/thread_pool.c:123-138 | at rest, and without chance wakeups of the destroyer, destroy has returned if and only if the queue was served or no worker was alive when it was called |
| Shutdown.PromptShutdown | Thread_pool/thread_pool.c:116-140 | when no deadline passes unnoticed, destroy returns and every task has run exactly once |
| Shutdown.StrandedRun | Thread_pool/thread_pool.c:55-60 | a run of one worker and three tasks in which the deadline passes before the mutex is taken, the worker leaves silently, and destroy returns with a task still queued |
| Shutdown.HangingRun | Thread_pool/thread_pool.c:44-60 | the same run with destroy called during the last task: the worker leaves silently and the destroyer waits, with nothing left to happen but a chance wakeup |
| ThreadPoolRecord.ThreadPool.constructor | Thread_pool/thread_pool.c:69-78 | the initial record is the initial state, with an empty list |
| ThreadPoolRecord.ThreadPool.Link | Thread_pool/thread_pool.c:91-98 | a node is put at the tail, at the head of an empty list, and the stale last of an empty list is not dereferenced |
| ThreadPoolRecord.ThreadPool.Append | Thread_pool/thread_pool.c:83-98 | appending extends the list by one node at its tail and never dereferences the stale last of an empty list |
| ThreadPoolRecord.ThreadPool.AddTask | Thread_pool/thread_pool.c:81-114 | addtask on the record is the protocol's submission step and keeps the list and the ownership of its nodes |
| ThreadPoolRecord.ThreadPool.CreateWorker | Thread_pool/thread_pool.c:108-109 | a created thread stands at the head of its loop and holds no node |
| ThreadPoolRecord.ThreadPool.SignalTo | Thread_pool/condition.c:29-32 | a signal on the record is the protocol's signal |
| ThreadPoolRecord.ThreadPool.Pop | Thread_pool/thread_pool.c:34-38 | taking a task unlinks the head, hands its node to the worker and leaves the rest a list |
| ThreadPoolRecord.ThreadPool.EndRound | Thread_pool/thread_pool.c:44-62 | leaving the pool takes one off count, going round again does not |
| ThreadPoolRecord.ThreadPool.Depart | Thread_pool/thread_pool.c:44-62 | the end of a round on the record is the protocol's, with its three exits |
| ThreadPoolRecord.ThreadPool.Wait | Thread_pool/thread_pool.c:17-26 | with an empty list, no quit and no deadline passed, the worker waits |
| ThreadPoolRecord.ThreadPool.Take | Thread_pool/thread_pool.c:32-38 | with a non-empty list the worker is no longer idle and takes the head |
| ThreadPoolRecord.ThreadPool.Quit | Thread_pool/thread_pool.c:32-60 | with an empty list and quit or a passed deadline the worker is no longer idle and leaves |
| ThreadPoolRecord.ThreadPool.Round | Thread_pool/thread_pool.c:17-62 | from the test of the wait loop to the next unlock or wait the record makes the protocol's step |
| ThreadPoolRecord.ThreadPool.LockAtTop | Thread_pool/thread_pool.c:13-38 | a worker's first round on the record is the protocol's step |
| ThreadPoolRecord.ThreadPool.LockWoken | Thread_pool/thread_pool.c:17-38 | a woken worker tests again, as the protocol's step |
| ThreadPoolRecord.ThreadPool.WaitEnds | Thread_pool/thread_pool.c:25-31 | a passed deadline or a chance wakeup ends a wait as the protocol says |
| ThreadPoolRecord.ThreadPool.LockExpired | Thread_pool/thread_pool.c:26-60 | the round of a worker whose deadline passed is the protocol's step |
| ThreadPoolRecord.ThreadPool.FreeTask | Thread_pool/thread_pool.c:39-40 | the node of a finished task is freed, was not freed before, and is no longer held |
| ThreadPoolRecord.ThreadPool.LockAfterTask | Thread_pool/thread_pool.c:39-62 | after its task a worker frees its node, which was not freed before, and ends its round as the protocol's step |
| ThreadPoolRecord.ThreadPool.BeginDestroy | Thread_pool/thread_pool.c:123-135 | the first part of destroy on the record is the protocol's step |
| ThreadPoolRecord.ThreadPool.LockInDestroy | Thread_pool/thread_pool.c:133-138 | the destroyer tests count again as the protocol's step |
| ThreadPoolRecord.ThreadPool.DestroyerWakes | Thread_pool/thread_pool.c:135 | a chance wakeup of the destroyer is the protocol's step |
| ThreadPoolRecord.ThreadPool.AllFreedIff | Thread_pool/thread_pool.c:39-40 | when destroy has returned, the nodes not freed are those of the queue, and all are freed if and only if the queue was served at the call |
| ThreadPoolRecord.ThreadPool.Step | Thread_pool/thread_pool.c:10-140 | every event of the protocol, a prompt timeout included, is carried out by the record's methods |
| ThreadPoolRecord.ThreadPool.Run | Thread_pool/thread_pool.c:10-140 | from any valid record every run of the protocol is carried out, step by step |
| ThreadPoolRecord.Execute | Thread_pool/thread_pool.c:10-140 | every run of the protocol is a run of a new record: the list stays a list and no freed node is touched |
| ThreadPoolRecord.ExecuteShutdown | Thread_pool/thread_pool.c:69-140 | a whole life of a pool to the return of destroy: all nodes are freed if and only if the queue was served at the call, and otherwise as many are left as tasks were stranded |
| RingProtocol.RefinesFifo | LinuxChat/pool/pool.cpp:16-38 | at every step of every interleaving the array and semaphores stand for a queue: a store appends to one with room, a fetch takes the head of a non-empty one, nothing else changes it |
| RingProtocol.DeliversInOrder | LinuxChat/pool/pool.cpp:16-38 | in every run the values fetched, then the queue, then the value in hand are the values offered, in order, with at most the capacity outstanding |
| RingProtocol.SlotExclusion | LinuxChat/pool/pool.cpp:12-37 | free slots, full slots and slots in a thread's hands add up to the capacity, and the two threads never access the same slot |
| RingProtocol.StepsCountPuts | LinuxChat/pool/pool.cpp:20-35 | productStep and consumStep are the numbers of puts and gets modulo the capacity |
| RingProtocol.WrapIsMod | LinuxChat/pool/pool.cpp:21-35 | the index arithmetic of the protocol is the program's remainder |
| RingProtocol.WaitsIff | LinuxChat/pool/pool.cpp:18-29 | between calls PutData would wait exactly when the queue is full and GetData exactly when it is empty |
| RingProtocol.NeverBothBlocked | LinuxChat/pool/pool.cpp:18-37 | when one thread has to wait the other has a step to take |
| RingBufferRecord.Pool.constructor | LinuxChat/pool/pool.cpp:5-14 | the record starts empty with as many free slots as its capacity |
| RingBufferRecord.Pool.WaitBlank | LinuxChat/pool/pool.cpp:29 | sem_wait on the free slots is the protocol's step |
| RingBufferRecord.Pool.AdvanceProduct | LinuxChat/pool/pool.cpp:34-35 | moving productStep on is the protocol's step |
| RingBufferRecord.Pool.PostData | LinuxChat/pool/pool.cpp:37 | sem_post of a full slot is the protocol's step |
| RingBufferRecord.Pool.WaitData | LinuxChat/pool/pool.cpp:18 | sem_wait on the full slots is the protocol's step |
| RingBufferRecord.Pool.AdvanceConsum | LinuxChat/pool/pool.cpp:20-21 | moving consumStep on is the protocol's step |
| RingBufferRecord.Pool.PostBlank | LinuxChat/pool/pool.cpp:23 | sem_post of a free slot is the protocol's step |
| RingBufferRecord.Pool.Store | LinuxChat/pool/pool.cpp:32 | the store is in range and is the protocol's step |
| RingBufferRecord.Pool.Fetch | LinuxChat/pool/pool.cpp:19 | the fetch is in range, is the protocol's step, and delivers the oldest value put and not got |
| RingBufferRecord.Pool.PutData | LinuxChat/pool/pool.cpp:27-38 | PutData as a whole, when it need not wait and nobody comes in between, puts the value at the tail of the queue |
| RingBufferRecord.Pool.GetData | LinuxChat/pool/pool.cpp:16-24 | GetData likewise delivers the head of the queue and leaves the rest |
| RingBufferRecord.Pool.Step | LinuxChat/pool/pool.cpp:16-38 | every event of the protocol is carried out by one method of the record |
| RingBufferRecord.Pool.Run | LinuxChat/pool/pool.cpp:16-38 | every interleaving of the two threads is carried out on the record, each access in range |
| ChatHistory.KeyInjective | LinuxChat/server/udpServerMain.cpp:9-14 | session keys of different numbers differ |
| ChatHistory.ShortHistoryExact | LinuxChat/server/udpServerMain.cpp:31-38 | up to 512 messages a replay is the exact history |
| ChatHistory.ReplayExactIff | LinuxChat/server/udpServerMain.cpp:31-44 | a replay is the exact history if and only if the history repeats itself every 512 messages |
| ChatHistory.ChatServer.Load | LinuxChat/server/udpServerMain.cpp:31-38 | LOAD forwards as many items as messages were kept, the i-th being message n-1-((n-1-i) mod 512), and every key it looks up is in the store |
| ChatHistory.ChatServer.Keep | LinuxChat/server/udpServerMain.cpp:40-44 | any other message is appended to the history, and the store and keys still lead to the latest message of each class |
| ChatHistory.ChatServer.constructor | LinuxChat/server/udpServerMain.cpp:74-75 | a server starts with no history, whatever the store holds |
| ChatHistory.ChatServer.Receive | LinuxChat/server/udpServerMain.cpp:27-45 | one message is forwarded, then either kept or answered with the replay of the history so far |
| ChatHistory.HistoryIs | LinuxChat/server/udpServerMain.cpp:31-44 | the history is the texts of the messages that are no LOAD, in order |
| ChatHistory.ForwardedLength | LinuxChat/server/udpServerMain.cpp:25-47 | a conversation forwards one entry for each message and one for each LOAD with each ordinary message before it, and nothing else |
| ChatHistory.MessageForwarded | LinuxChat/server/udpServerMain.cpp:25-47 | message k stands behind the k before it and the replays that they asked for |
| ChatHistory.ReplayForwarded | LinuxChat/server/udpServerMain.cpp:31-38 | behind a LOAD that follows n ordinary messages stand n entries, the i-th being ordinary message n-1-((n-1-i) mod 512) |
| ChatHistory.ChatServer.ProductRun | LinuxChat/server/udpServerMain.cpp:25-47 | over any sequence of messages the pool receives what the conversation forwards, as the three rows above say |
| ChatDelivery.ConversationDelivered | LinuxChat/server/udpServerMain.cpp:25-61 | in every interleaving the consumer has got a prefix of what the conversation forwards, in order, and all of it exactly when all has been handed over and nothing is under way |
| ChatDelivery.MessageDelivered | LinuxChat/server/udpServerMain.cpp:25-61 | the consumer gets message k at its place, and no more entries than messages and replayed messages |
| ChatDelivery.ReplayDelivered | LinuxChat/server/udpServerMain.cpp:25-61 | and behind each LOAD the latest ordinary message before it of each class modulo 512 |
| HttpStream.NormConcatIff | http/httpd.c:127-136 | two pieces of a stream normalise separately if and only if the cut is not inside a CRLF |
| HttpStream.LineEndsMadeLF | http/httpd.c:127-136 | a CRLF and a lone CR become LF, and every other character stays |
| HttpStream.ReadLineIsChunk | http/httpd.c:119-147 | for every stream and size a line read is the first min(size-1, through LF) characters of the normalised stream, and line plus normalised rest is the normalised stream |
| HttpStream.LoopEndsIff | http/httpd.c:119-147 | the loop of get_line ends, after some number of turns, if and only if the stream holds a complete line: one that ends in LF or fills the space |
| HttpStream.GetChar | http/httpd.c:125-143 | one turn of the loop stores the next normalised character and consumes its bytes, and at the end of the stream changes nothing |
| HttpStream.FillLine | http/httpd.c:124-144 | where it ends, the loop has stored exactly the line, consumed exactly its bytes and left the buffer behind it alone |
| HttpStream.GetLine | http/httpd.c:119-147 | get_line leaves the line, a terminator, and the old contents behind it, and consumes exactly the bytes of the line |
| HttpStream.NormHasNoCR | http/httpd.c:127-135 | the normalised stream holds no CR and is no longer than the stream |
| HeaderScan.CleanHeader | http/httpd.c:149-157 | the GET header loop consumes what Skip says |
| HeaderScan.ReadPiece | http/httpd.c:149-211 | one line of a header loop, and that strcmp, strncasecmp and atoi on the buffer see that line and no more |
| HeaderScan.PostScan | http/httpd.c:196-211 | the POST header loop consumes what ScanPost says and returns the last Content-Length it saw |
| HeaderScan.IsLengthIff | http/httpd.c:202 | a line is a length field exactly when its first 16 characters are "Content-Length: " in any letter case |
| HeaderScan.ScannersAgree | http/httpd.c:149-157 | both loops consume the same bytes of every stream |
| HeaderScan.TerminatedIff | http/httpd.c:149-157 | the header loops end if and only if some line of the normalised stream has a length that is a multiple of 1022 |
| HeaderScan.StopsAtMultiple | http/httpd.c:149-157 | when they end, they stop behind the first such line |
| HeaderBlock.StopsAtBlankLineIff | http/httpd.c:149-157 | on a header block they stop in front of the body if and only if no header line has a length that is a multiple of 1022 |
| HeaderBlock.ScanBlock | http/httpd.c:196-211 | on every header block in which no line has a length that is a multiple of 1022 the POST loop stops in front of the body with the declared length, a longer line being looked at in pieces of 1022 characters |
| HeaderBlock.DeclaresLength | http/httpd.c:202-209 | a Content-Length field, in any letter case, with the decimal length declares that length if no such field follows, as a line of its own and also inside a longer line, behind any multiple of 1022 characters |
| HeaderBlock.OtherLineIsSilent | http/httpd.c:202-209 | a line of up to 1022 characters that does not begin so declares nothing |
| HeaderBlock.CopiedIs | http/httpd.c:283-286 | the body copy writes the first N raw bytes, or all of them and then the last one again when the stream is shorter |
| HeaderBlock.CopyBody | http/httpd.c:279-287 | for any declared length and any stream the copying loop writes exactly that and consumes no more |
| RequestLine.ParseRequestLine | http/httpd.c:309-338 | for every first line the three scanning loops stay inside their buffers and leave method and URL, both terminated, as specified |
| RequestLine.ReadMethod | http/httpd.c:316-320 | the method loop copies up to the first blank, at most 254 characters, and stays in range |
| RequestLine.ReadUrl | http/httpd.c:331-338 | the URL loop copies up to the next blank, at most 254 characters, and stays in range |
| RequestLine.ParsedIs | http/httpd.c:316-338 | for every buffer, method and URL are the first two runs of non-blanks, each at most 254 characters and up to its terminator |
| RequestLine.RequestLineRoundTripIff | http/httpd.c:316-338 | printing a request line with any blanks behind the method, and anything behind the URL, and parsing it gives both back if and only if each has at most 254 characters and they stand in the first 1024 |
| RequestLine.SplitQuery | http/httpd.c:359-370 | a URL is cut at its first '?': it equals path, '?', query, and without '?' nothing changes |
| RequestLine.SplitUnique | http/httpd.c:359-370 | path and query are the only way to write a URL as path without '?', '?', query |
| RequestLine.BuildPath | http/httpd.c:371-376 | root, URL and default file name are put together inside the buffer |
| RequestLine.PathOfIs | http/httpd.c:371-376 | the path is "wwwroot" and the URL, and "index.html" behind one that ends in '/' |
| Dispatch.MethodIff | http/httpd.c:347-359 | a method is GET or POST exactly when it is spelled so in any letter case |
| Dispatch.RefusedIff | http/httpd.c:347-351 | exactly the other methods are refused |
| Dispatch.GetTarget | http/httpd.c:359-411 | GET of a path, with a query or without: not found exactly when the file is missing, a program with the query exactly when there is a '?' or the file is executable, a page otherwise |
| Dispatch.PostTarget | http/httpd.c:353-405 | POST: not found when the file is missing, and the program there otherwise |
| Dispatch.ReadQuery | http/httpd.c:353-370 | for GET the URL is cut to its path and the pointer left at the query; a program is called for when there is a '?' or the method is POST |
| Dispatch.ReadPath | http/httpd.c:371-400 | the path asked of stat, what it finds there, and the path after the default name of a directory |
| Dispatch.Resolve | http/httpd.c:309-411 | for every first line of 1025 characters, and whatever stat finds, no index leaves its buffer, the path has at most 282 characters, and the request is refused, not found, a file, or a program with its query, as specified |
| Dispatch.ReadFirstLine | http/httpd.c:309-338 | the same from the bytes of the first line |
| Dispatch.ExecuteCgi | http/httpd.c:181-287 | GET passes the query on and skips the header; POST passes the declared length and as many bytes, or sends the error page for length 0 |
| Dispatch.HandleSock | http/httpd.c:298-411 | for every stream with a complete first line and a header that ends: which answer it gets, what a program is given, and which bytes are left |
| Dispatch.MessageRead | http/httpd.c:309-338 | a request with any method and URL of up to 254 characters, any version and any header without a line of a length that is a multiple of 1022 is read as sent, and the header is next |
| Dispatch.PostAnswered | http/httpd.c:194-287 | for POST to any existing file and any body, the program is given exactly the first N bytes behind the header, N being the declared length, or all of them, padded to N, if there are fewer, and the stream is left behind them |
| Dispatch.GetAnswered | http/httpd.c:189-263 | for GET the program is given what follows the first '?', and the stream is left behind the header |
| Dispatch.PageAnsweredIff | http/httpd.c:406-410 | a file is sent for exactly the GETs without '?' of a file that is there and not executable, and the header is skipped |
| Dispatch.GetRunIff | http/httpd.c:394-405 | a program is run for exactly the GETs of an existing file that is executable or asked for with a '?', and gets the query |
| Dispatch.PostRunIff | http/httpd.c:353-405 | a program is run for exactly the POSTs of an existing file that declare a length other than 0 |
| Dispatch.ErrorAnsweredIff | http/httpd.c:347-384 | the error page answers exactly other methods, missing files, and POSTs that declare length 0 or none, and which bytes are left |
| Dispatch.HandlerEndsIff | http/httpd.c:381-384 | a request for a missing file, or a POST with no declared length or 0, is handled to the end if and only if what follows its header holds a line whose length is a multiple of 1022; every other request is |
| Decimal.AtoiItoa | weather_server/wwwroot/cgi/register.cpp:16-21 | atoi reads back what %d printed, whatever follows |
| Decimal.FitsEightBytes | weather_server/wwwroot/cgi/register.cpp:16-21 | a number and its terminator fit the eight-byte buffer if and only if it is at most 9999999 |
| Decimal.CharClasses | http/httpd.c:316 | the digits and the blanks of isspace, in the C locale, one by one |
| Decimal.ItoaIs | weather_server/wwwroot/cgi/register.cpp:16-21 | numbers are printed digit by digit |
| Decimal.AtoiIs | http/httpd.c:207 | atoi skips blanks, takes one sign, stops where the digits end, and is 0 without any |
| FormTokenizer.CutFields | weather_server/wwwroot/cgi/register.cpp:37-39 | after the pass a string that starts anywhere in the text ends where the next '&' was |
| FormTokenizer.MarkOrCut | weather_server/wwwroot/cgi/register.cpp:33-39 | one turn of the pass marks a value or cuts a field and changes nothing else |
| FormTokenizer.Pass | weather_server/wwwroot/cgi/register.cpp:32-41 | the loop marks every value and cuts every field up to the terminator |
| FormTokenizer.Tokenize | weather_server/wwwroot/cgi/register.cpp:29-41 | for every text with at most as many '=' signs as data has cells, the in-place pass leaves data[i] denoting the whole text between the i-th '=' and the next '&' |
| FormTokenizer.ValueAt | weather_server/wwwroot/cgi/register.cpp:32-41 | for every text there is one value for each '=', the text from there to the next '&' or the end |
| FormTokenizer.FormValues | weather_server/wwwroot/cgi/register.cpp:32-41 | the values recovered from a form are the values submitted, in order |
| Registration.Registry.Register | weather_server/wwwroot/cgi/register.cpp:43-52 | a registration appends to the list that the store holds and leaves other keys alone |
| Registration.EncodedIsSafe | weather_server/wwwroot/index.html:22-26 | what the browser submits for an address never disturbs the form |
| Registration.UnreservedIs | weather_server/wwwroot/index.html:22-26 | the characters that the form does not encode, one by one |
| Registration.EncodeCharIs | weather_server/wwwroot/index.html:22-26 | any other is sent as '+' or as '%' and two capital hexadecimal digits |
| Registration.ReplaceIs | weather_server/wwwroot/cgi/ShowWeather.py:41-43 | for every string, each %40 is replaced, from the left, and nothing else is touched |
| Registration.Registry.ExecCalc | weather_server/wwwroot/cgi/register.cpp:23-55 | exec_calc registers the second field of the form, or nothing for an empty argument |
| Registration.ReadBody | weather_server/wwwroot/cgi/register.cpp:76-85 | the CGI program's loop stores the body and a terminator |
| Registration.UserKeysDistinct | weather_server/wwwroot/cgi/register.cpp:47-51 | user keys of different numbers differ, and none is the counter's key |
| Registration.Registry.Recipients | weather_server/wwwroot/cgi/ShowWeather.py:37-43 | the list rebuilt has every registered address in order with %40 replaced |
| Registration.AddressRoundTripIff | weather_server/wwwroot/cgi/ShowWeather.py:41-43 | an address survives form encoding and the replacement of %40 if and only if it consists of unreserved characters and '@' |
| EndToEnd.AtoiPrinted | http/httpd.c:266 | the program reads back the length the server printed, negative ones included |
| EndToEnd.StoredIs | weather_server/wwwroot/cgi/register.cpp:32-52 | what is stored is the text between the second '=' and the next '&' or the end |
| EndToEnd.RunRegister | weather_server/wwwroot/cgi/register.cpp:76-91 | the registration program, run on any input it has room for, stores the second field, or nothing for an empty input |
| EndToEnd.Serve | http/httpd.c:298-414 | one request, as raw bytes, stores the second field of its body if it is a POST whose path leads to the registration program, and nothing otherwise |
| EndToEnd.ServeEach | http/httpd.c:298-414 | a sequence of requests stores what each of them stores, in order |
| EndToEnd.OnlyRegisterUrl | http/httpd.c:371-391 | as a string, the path wwwroot/cgi/register is built from the URL /cgi/register and from no other, default names included |
| EndToEnd.SubmissionRegisters | http/httpd.c:353-405 | the form, sent by any method to any URL, registers its address if and only if it is a POST and, with the default name of a directory, stat and execl find the registration program behind the URL |
| EndToEnd.BothSpellingsRegister | weather_server/wwwroot/index.html:22-26 | the form's action registers where the program is installed, and so does //cgi/register on a file system that finds the same file there |
| EndToEnd.HistoryRegisters | weather_server/wwwroot/cgi/register.cpp:43-52 | a history of submissions stores the encoded addresses of those that POST to the registration program, in order |
| EndToEnd.RegisterAll | weather_server/wwwroot/cgi/ShowWeather.py:37-43 | after any n <= 9999999 submissions, to whatever URLs on whatever file system, the mailing list has one entry for each POST to the registration program, in order: the address with every reserved character but '@' encoded, so the address itself exactly if it has none |

## Left out

- Sockets, fork, exec, pipes, sendfile and logging in `http/httpd.c`: foreign calls. What a program or a page sends back is not modelled.
- The error page itself (`echo_code`): `Dispatch.Answered` ends where it begins; `Dispatch.HandlerEndsIff` says when its scan ends.
- HttpStream.GetLine: requires a complete line, which is exactly when the loop ends (`HttpStream.LoopEndsIff`); the same goes for HttpStream.FillLine.
- HeaderScan.ReadPiece: requires a complete piece, as HttpStream.GetLine does.
- HeaderScan.CleanHeader: requires a stream on which the loop ends, exactly those of `HeaderScan.TerminatedIff`; on others the program spins.
- HeaderScan.PostScan: requires the same; on others the program spins.
- Dispatch.HandleSock: requires a complete first line and a header that ends; on others the program spins.
- FormTokenizer.Tokenize: more '=' signs than `data` has cells, which the program writes past its array, undefined in C.
- Registration.Registry.ExecCalc: fewer than two fields (`data[1]` is then not initialised) or more than ten, undefined in C.
- Registration.ReadBody: a length of 1024 or more, which the program writes past its array, undefined in C.
- EndToEnd.RunRegister: inputs outside the two limits above.
- EndToEnd.Serve: for GET `register.cpp` calls atoi on the missing CONTENT_LENGTH (weather_server/wwwroot/cgi/register.cpp:28), undefined in C; the model takes it that the program ends there, before it touches the store.
- Overlong Content-Length values: numbers are unbounded here, so one that overflows atoi, undefined in C, is just a large number.
- Wall-clock time in the thread pool: the deadline is an event without a date.
- Submissions during or after destroy, and a second destroy: the programs make none.
- Shutdown.ShutdownCompletesIff: excludes chance wakeups of the destroyer, because with one a destroyer nobody signals may still return; `Shutdown.ServedShutdownReturns` and `Shutdown.DrainIff` cover such runs.
- ThreadPoolRecord.ThreadPool.constructor: the threads' program counters and the local variable `task` are fields of the record, since one heap object has to show the whole state of a run.
- ChatHistory.ChatServer.ProductRun: the pool is the sequence of its PutData calls; how they interleave with the consumer is the subject of `RingProtocol`.
- `Pool::_size`: both threads update it without exclusion and nothing reads it.
- `UdpServer::broadCast`, whose loop never advances, and failed receives.
- Concurrent registrations: reading and writing the counter is not atomic across processes.
- The store's answer for a missing key: every key that the modelled code reads is shown to be present.
- The weather part of the mail, and the mail itself.
- Copies of the same code under weather/, weather_server/ and output/, and the other programs of the repository.
