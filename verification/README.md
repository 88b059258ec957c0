# A verified model of the caching proxy

The proxy answers GET, POST and CONNECT requests with a pool of worker threads that share one response
cache. This project models its four hand-written cores and proves what they keep.

**The concurrent cache.** The cache is a doubly linked list between two sentinels, guarded by a
reader-preference readers/writers lock made of two semaphores and a counter. `CacheMachine` is the
program as a transition system: any finite number of threads, one semaphore operation, one pointer read
or one pointer assignment per step, with allocation, `delete` and the log lock taken inside the critical
section. `CacheLocks` has the invariant of the lock, `CacheHeap` the invariant of the list while pointers
change under a reader's feet, `CacheRuns` and `CacheOnce` what follows for every run: mutual exclusion,
memory safety, linearizability with its real-time order, freshness, deadlock freedom. `CacheSolo` shows that
an operation left to itself completes, `ReaderPreference` that a writer can be made to wait for any number of
reads. `CacheList` is the same list as a class with mutable nodes, proved
against sequences; `CacheSpec` gives those sequences their meaning, as replays of a history and as a map.

**The work buffer.** `WorkBuffer` is the ring with its ever-growing counters as a class; `BufferMachine`
is the same code for any number of producers and consumers, step by step; `WorkerPool` puts the accept
loop and the workers around it and follows every request from `accept` to `close`.

**Buffered input and output.** `Rio` models the reader and the writer over a socket whose kernel side
cuts the stream arbitrarily. On top of it, `Relay` has the chunked and the content-length loops and `Tunnel`
the CONNECT tunnel. `Chunked` defines where a chunked body ends (section 7.1 of RFC 9112), to say when the
chunked loop stops there.

**Answering a GET.** `GetSpec` says what a response of the origin means for the client, for the policy and
for the cache; `GetHandler` is the handler over its sockets and the cache object, proved against it;
`GetMachine` runs any number of handlers at once over the concurrent cache and proves replay fidelity,
freshness and admission for every run; `GetOutcomes` shows that no lookup and no fetch is forgotten. `Samples` works out concrete responses in full, and `GetWitness` builds
runs from them: an answer from the cache, and a cache that outgrows its documented bound.

`Threads`, `Bytes` and `Wrappers` are shared helpers: counting threads, C strings, and a value that may be
missing.

## Where the code and its documentation differ

The model follows the code. Each point has a condition, proved in both directions, and an input or a run on
which the documentation fails.

- README.md:246 promises a bound on the whole cache. `totalSize` is set to 0 at Cache.cpp:10 and never again,
  so the guard at Cache.cpp:100 bounds single objects only. The bound holds throughout a history if and only
  if every accepted write would also have passed that guard with the true total (`CacheSpec.TotalBoundHoldsWhen`).
  It fails in a run of eleven requests (`GetWitness.DocumentedBoundBreaks`).
- GetHandler.cpp:258 says that a chunked body ends at its last chunk. The test at RequestHandler.cpp:171 looks
  for two line feeds in a buffer that holds one at most, so the loop runs to the end of the stream. It relays
  the body and no more if and only if nothing follows the body (`Relay.RelayStopsAtBodyEndWhen`, and
  `Relay.RelayStopsAtSeparatorWhen` for the text the test looks for); it fails when the next response follows
  on the same connection (`Relay.RelayOverruns`).
- README.md:208-209 says that must-revalidate counts as max-age=0. When it comes to serving, it does if and only
  if no line set a max-age, or the last one to do so set it to zero (`GetSpec.NeedRevalidateIsAgeZeroWhen`); it
  fails when a max-age=9 line comes first (`Samples.MustRevalidateThatIsServed`). When it comes to storing, it does
  only if the response is too large: such a response is stored whenever it fits (`GetSpec.NeedRevalidateIsKept`,
  `Samples.MustRevalidateThatIsStored`), and one whose last line comes down to max-age=0 never is
  (`GetSpec.AgeZeroIsRefused`, `Samples.AgeZeroThatIsRefused`).
- GetHandler.cpp:311-319 lists must-revalidate, no-store, no-cache and max-age=0 as preventing storing. The code
  decides by the last Cache-Control line alone (`GetSpec.StoredWhenLastLineStores`), and for a response with any of
  the four on any such line `GetSpec.ForbiddenIsStoredWhen` says exactly when it is stored all the same. A response
  that is discarded or does not fit is not stored. Of the others, must-revalidate and no-cache on the last line
  always let it in (`Samples.MustRevalidateThatIsStored`); no-store on the last line keeps it out unless the line
  also says must-revalidate or no-cache (`Samples.NoStoreThatIsStored`); max-age=0 on the last line keeps it out
  unless the line also says one of these two, or immutable without no-store and private
  (`Samples.AgeZeroThatIsStored`); and on an earlier line none of the four counts: a later line decides
  (`Samples.NoStoreThatIsOverridden`, and `GetSpec.NoStoreIsStoredWhen` for no-store on any line).
- GetHandler.cpp:218 says that chunked and a Content-Length cannot go together. A response that has both is refused
  if and only if its last Content-Length is not zero (`GetSpec.BothAreRefusedWhen`); `Samples.BothThatAreAccepted`
  has a length of zero.
- A stored response is what its first client was sent if and only if its body came whole and without a zero
  byte, or short and cut by chance (`GetSpec.KeptIsSent`); `Samples.ReplayThatDiffers` is one that is stored
  and differs.

## Model

| member | source | states |
|---|---|---|
| Bytes.FindIgnoresCase | GetHandler.cpp:42 | a search finds the first place where the needle stands up to the case of letters, or none when there is no such place |
| Bytes.DigitsAreDecimal | GetHandler.cpp:352-356 | a run of digits is read as the number it spells in decimal, for every number, and no further than it goes |
| Bytes.OtherDigits | RequestHandler.cpp:144-148 | leading zeros do not count, and where no digit stands the number is zero |
| CacheSpec.LookupVerdict | Cache.cpp:53-63 | a lookup reports its entry valid if and only if the seconds since its write, or none if the clock ran backwards, are fewer than its lifetime, and not found exactly without an entry |
| CacheSpec.FirstMatchAt | Cache.cpp:50-67 | a scan that meets its first entry of the key at position i has found the lookup's result, older duplicates notwithstanding |
| CacheSpec.DropMatch | Cache.cpp:168-171 | dropping one matching entry during a scan leaves the final result of dropping them all unchanged |
| CacheSpec.WithoutFirstMatch | Cache.cpp:162-175 | after a clear the key is not found and every other key keeps its first match |
| CacheSpec.WithoutSubset | Cache.cpp:162-175 | a clear removes exactly the entries of its key |
| CacheSpec.ReplayRefinesView | Cache.cpp:49-67 | after every history, lookup in the list with its duplicates equals lookup in the map the history stands for |
| CacheSpec.ViewIsLastDecision | Cache.cpp:99-106 | a key maps to a response if and only if the last event that decided the key was an accepted write of it; rejected writes and other keys play no part |
| CacheSpec.StoredObjectsAreBounded | Cache.cpp:99-104 | every object ever stored has at most MAX_OBJECT_SIZE bytes |
| CacheSpec.StoredWasWritten | Cache.cpp:94-111 | every stored entry is an accepted write of the history |
| CacheSpec.FullWritesFill | Cache.cpp:99-104 | n writes of any object of the largest size are all accepted and fill the cache with n times MAX_OBJECT_SIZE bytes |
| CacheSpec.ApplyTotal | Cache.cpp:99-106 | an accepted write adds its size to the total, and no other operation adds anything |
| CacheSpec.TotalBoundHoldsWhen | README.md:246 | the documented bound holds throughout a history if and only if every accepted write would also have passed the guard with the true total in place of `totalSize` |
| CacheSpec.TotalBoundHoldsUpToTenWrites | Cache.cpp:100 | any 10 operations keep the bound, and any 11 writes of an object of the largest size break it |
| CacheList.Cache.constructor | Cache.cpp:10-16 | the sentinel chain is established, empty, with both semaphores released |
| CacheList.Cache.ReadFromCache | Cache.cpp:31-82 | the call waits exactly at a taken `mutex`, or as first reader at W while a writer is inside, where it keeps `mutex`; otherwise it returns the lookup's answer, and list, counter and semaphores are as before |
| CacheList.Cache.Traverse | Cache.cpp:49-67 | the pointer walk returns the first match's verdict, or not found when there is none |
| CacheList.Cache.WriteToCache | Cache.cpp:94-111 | the call waits exactly while W is taken; otherwise an accepted object goes in front, a rejected one changes nothing, older entries of the key stay, and W is released |
| CacheList.Cache.AddNode | Cache.cpp:132-141 | the four pointer assignments are cons, and keep next and prev mutually inverse |
| CacheList.Cache.DeleteNode | Cache.cpp:148-158 | the two pointer assignments remove exactly one position, and the node is freed, which no node on the list is |
| CacheList.Cache.Sweep | Cache.cpp:167-175 | the loop that deletes behind its cursor terminates and is a stable filter of the key, duplicates included; no node left on the list has been freed |
| CacheList.Cache.ClearAllInvalidCache | Cache.cpp:162-179 | the call waits exactly while W is taken; otherwise the list loses exactly the entries of the key, and W is released |
| CacheLocks.LockInit | Cache.cpp:10-16 | the freshly built cache satisfies the lock invariant |
| CacheLocks.StepChangesLocks | Cache.cpp:36-178 | every step moves each semaphore and the counter by exactly what the thread gains or gives up, and only the holder of `mutex` changes the counter or who owns W |
| CacheLocks.LockStep | Cache.cpp:36-178 | every step of every thread keeps the lock invariant |
| CacheLocks.ReaderInsideHoldsW | Cache.cpp:38-44 | while any reader is inside, W is taken on behalf of the readers, no writer is inside, and no first reader is waiting for W |
| CacheLocks.FreeMeansEmpty | Cache.cpp:71-79 | W is free only while neither readers nor writers are inside |
| CacheLocks.SomeThreadRuns | Cache.cpp:36-178 | some thread in the middle of an operation is not waiting for a semaphore, by the order mutex, W, log lock (utilities.cpp:51-61) |
| CacheHeap.InsertKeepsChain | Cache.cpp:139-140 | publishing a prepared node between two steps of other threads restores the chain in both directions and conses its entry |
| CacheHeap.RemoveKeepsChain | Cache.cpp:154-155 | the second unlinking assignment restores the chain, drops one position and leaves the node as the only one off the chain |
| CacheHeap.ReadKeeps | Cache.cpp:49-67 | every step of a reader keeps what it knows: its cursor is on the chain and no earlier entry has the key, and its verdict is an atomic lookup's |
| CacheHeap.WriteKeeps | Cache.cpp:94-111 | every step of a write, from preparing the node to publishing it, keeps the chain, and publishing is the atomic write |
| CacheHeap.ClearKeeps | Cache.cpp:162-179 | every step of a clear keeps the chain and, once all matches are dropped, the clear of the contents at its start |
| CacheRuns.NextKeepsInv | Cache.cpp:31-179 | every step of the system, clock ticks included, keeps locks, chain, contents, history and every thread's pointers |
| CacheRuns.MutualExclusion | Cache.cpp:36-178 | in every reachable state a writer is inside alone: no other writer and no reader |
| CacheRuns.MemorySafety | Cache.cpp:49-175 | no thread in any run dereferences a node that was freed or never allocated |
| CacheRuns.ReadersSeeWholeList | Cache.cpp:49-67 | while a reader traverses, its node is on the chain, no link is half done, and the list holds exactly what the operations so far put there |
| CacheRuns.HistoryIsAtomic | Cache.cpp:31-179 | in every run, the answer each read logs from the cell it stands on, or from having reached the tail, is the atomic lookup in the replay of the events before it, and the clock never runs backwards |
| CacheRuns.ReadIsAtomic | Cache.cpp:31-82 | a returning read returns what an atomic lookup gave at one event after its call |
| CacheRuns.UpdateIsAtomic | Cache.cpp:94-179 | a returning write or clear is one event of the history after its call, with its own key and response |
| CacheRuns.QuietListIsReplay | Cache.cpp:132-158 | with no writer inside, memory holds exactly the replay of the history, both directions agree, no node has leaked and `totalSize` is 0 |
| CacheRuns.MemoryIsBacked | Cache.cpp:132-175 | in every reachable state, with a writer inside or not, every entry in memory is one the operations so far put there |
| CacheRuns.FoundReadsAreLatest | Cache.cpp:49-67 | a read that finds an entry, valid or stale, returns the last accepted write of its key since its last clear |
| CacheRuns.ValidReadsAreFresh | Cache.cpp:53-63 | a read that reports a valid entry returns the last accepted write of its key since its last clear, at an age strictly below its lifetime |
| CacheRuns.ReadsAreValidWhenYoung | Cache.cpp:53-63 | of a key whose last decision is a write, a read returns that write, and reports it valid if and only if its age at the lookup is below its lifetime |
| CacheRuns.MissedReadsHadNothing | Cache.cpp:50-67 | a read finds nothing if and only if no last decision on its key is a write |
| CacheRuns.DeadlockFree | Cache.cpp:31-179 | while any operation is under way, some thread in the middle of an operation has a step |
| CacheOnce.CallsTakeEffectOnce | Cache.cpp:31-179 | between its call and its return every operation becomes exactly one event of its thread |
| CacheOnce.EventHasCall | Cache.cpp:31-179 | every event is that of a call of its thread, of its kind, key and response, at the step by which that call took effect |
| CacheOnce.RealTimeOrder | Cache.cpp:31-179 | when one call has come to its return before another begins, its event comes first in the history |
| CacheSolo.SoloStep | Cache.cpp:31-179 | an operation under way while all other threads are idle is never blocked, and each of its steps brings its return nearer |
| ReaderPreference.ReadersOvertakeWriter | Cache.h:53-54 | from any run with a reader inside and a writer waiting, an idle thread can complete any number of reads while the writer waits and W is never released; a reader that holds `mutex` at that time can always go on to release it |
| ReaderPreference.WriterCanWait | Cache.cpp:36-96 | such a run exists |
| ReaderPreference.FinishRead | Cache.cpp:71-79 | a read begun behind another reader completes, whatever its key, without W changing hands |
| WorkBuffer.RingPlacesDiffer | WorkBuffer.cpp:24-41 | counters less than one capacity apart fall on different places after the modulo |
| WorkBuffer.SodaMachine.constructor | WorkBuffer.cpp:3-11 | an empty ring with as many free slots as its capacity |
| WorkBuffer.SodaMachine.InsertFd | WorkBuffer.cpp:20-28 | the call waits exactly when the buffer is full; otherwise the request goes to the end of the queue and overwrites nothing that waits |
| WorkBuffer.SodaMachine.RemoveFd | WorkBuffer.cpp:36-46 | the call waits exactly when the buffer is empty; otherwise the oldest waiting request is returned and leaves the queue |
| BufferMachine.StoreKeepsRing | WorkBuffer.cpp:24 | storing at the incremented counter, modulo the capacity, keeps every waiting item in its place |
| BufferMachine.StepKeepsInv | WorkBuffer.cpp:20-46 | every step of every producer and consumer keeps the semaphore accounting, the ring and both orders |
| BufferMachine.Accounting | WorkBuffer.cpp:20-46 | slots + items + inserts in flight + removes in flight = capacity, and rear - front stays between 0 and capacity, in every run |
| BufferMachine.FirstInFirstOut | WorkBuffer.cpp:36-46 | the k-th removal in mutex order is the k-th insertion, and what a consumer carries away is that item |
| BufferMachine.NothingOverwritten | WorkBuffer.cpp:24 | in every run, each item not yet removed is intact in its place |
| BufferMachine.StuckOnlyWhenOneSided | WorkBuffer.cpp:21-39 | if every thread in the middle of a call is blocked, all wait to insert into a full buffer or all wait to remove from an empty one |
| BufferMachine.Progress | WorkBuffer.cpp:20-46 | with an insert and a remove both pending, some pending thread has a step |
| WorkerPool.HolderByNumber | proxy.cpp:122-138 | the number of a request tells where it can be: with the master, in the buffer, with a worker, or closed |
| WorkerPool.EachRequestHasOneHolder | proxy.cpp:84-92 | the requests issued so far are exactly those held by the master, the buffer, one worker or closed, and no request has two holders |
| WorkerPool.ServedOnce | proxy.cpp:84-92 | no request is handled twice or closed twice, and only handled requests are closed |
| Rio.Socket.Read | Rio.cpp:81-91 | some of the stream, cut anywhere, and nothing exactly at its end |
| Rio.Socket.Write | Rio.cpp:57-66 | a prefix of the data, cut anywhere, or an interruption of which there are finitely many |
| Rio.LineLengthIs | Rio.cpp:21-34 | the length of a line read is fixed by the stream: up to the first line feed, the end, or maxlen - 1 |
| Rio.PieceHasOneLineFeed | Rio.cpp:21-30 | a line read has no line feed before its last byte |
| Rio.SessionDeliversPrefix | Rio.cpp:16-40 | the results of any sequence of mixed calls, one after the other, are a prefix of the stream |
| Rio.Deliver | Rio.cpp:16-118 | for any sequence of mixed line and block reads and every way the kernel cuts the stream: each result depends on the stream and the earlier calls alone, and delivered, read-ahead and unread bytes make up the stream |
| Rio.Rio.Fill | Rio.cpp:82-92 | the refill loop loses nothing and leaves the read-ahead empty exactly at end of stream |
| Rio.Rio.RioRead | Rio.cpp:79-101 | the next bytes of the stream, at least one unless it has ended, and nothing else of the caller's buffer changes |
| Rio.Rio.ReadLineB | Rio.cpp:16-40 | exactly the first line or the maxlen - 1 bytes that fit, terminated, with the reader left at the next byte |
| Rio.Rio.ReadNB | Rio.cpp:103-117 | exactly min(n, stream length) bytes: short only at end of stream |
| Rio.Rio.Writen | Rio.cpp:52-68 | all n bytes reach the kernel in order, however writes are cut or interrupted |
| Relay.PiecesRebuildStream | Rio.cpp:16-40 | line reads repeated to the end concatenate to the stream |
| Relay.PieceIsLinePrefix | Rio.cpp:21-39 | a line read returns the smaller of the first line and maxlen - 1 |
| Relay.PiecesAreLinesWhenShort | Rio.cpp:21-39 | line reads return exactly the lines of the stream if and only if every line is shorter than maxlen |
| Chunked.EncodedBodyEnds | GetHandler.cpp:258-259 | wherever an encoding of chunks (section 7.1 of RFC 9112) stands in a stream, its chunked body is found to end where the encoding does |
| Relay.PieceHoldsNoSeparator | RequestHandler.cpp:171-174 | the terminator test of the chunked loop fails on every line of every stream |
| Relay.RelayedIsStream | RequestHandler.cpp:166-175 | what the chunked loop sends, terminator test included, is the whole stream |
| Relay.RelayStopsAtBodyEndWhen | GetHandler.cpp:258-259 | of a stream that starts with a complete chunked body, exactly the body is relayed if and only if nothing follows it |
| Relay.RelayStopsAtSeparatorWhen | RequestHandler.cpp:171-174 | of a stream that contains the text the test looks for, exactly the part through its first place is relayed if and only if nothing follows it |
| Relay.FramedRelayStopsWhen | RequestHandler.cpp:161-179 | for any chunks a server frames and anything it sends next, just the framed body is relayed if and only if there is nothing next |
| Relay.RelayOverruns | RequestHandler.cpp:171-174 | a stream on which the loop goes on past the last chunk: the next response follows |
| Relay.ChunkedDataIsStream | RequestHandler.cpp:166-178 | the data returned is the stream relayed if and only if it has no zero byte |
| Relay.ChunkedDataIsPieces | RequestHandler.cpp:166-178 | for every stream the data returned is all its line reads, each up to its first zero byte, in order |
| Relay.ReadAndWriteChunkedData | RequestHandler.cpp:161-179 | the whole remaining stream is relayed and read to its end, and returned piece by piece as C strings |
| Relay.ReadAndWriteContentLengthData | RequestHandler.cpp:189-205 | exactly the first min(n, stream length) bytes are relayed and kept, the reader is left at the next byte, and the second round of the loop changes nothing |
| Tunnel.ReadAt | ConnectHandler.cpp:106-108 | every read is given room for MAXLINE bytes after what the buffer holds, and appends a prefix of the source to it |
| Tunnel.TransferData | ConnectHandler.cpp:99-123 | all that was read is handed to one write, and nothing read means no write; -1 means end of stream or a failed write |
| Tunnel.AcceptedIsOfferedWhen | ConnectHandler.cpp:118-123 | of any sequence of writes, all that was offered is accepted if and only if the kernel took the whole of each |
| Tunnel.MonitorSocketSet | ConnectHandler.cpp:51-89 | for every select schedule each direction reads its source in order, offers the other side exactly what it read, delivers all of it exactly when the kernel took every write whole, and never forwards a read-ahead; an end with full writes means that one side was read out |
| GetSpec.ScanIsFold | GetHandler.cpp:226-246 | the header loop is a fold over the header lines |
| GetSpec.ScanTakesPrefix | GetHandler.cpp:226-246 | and consumes a prefix of the stream |
| GetSpec.HeadLinesArePieces | GetHandler.cpp:227-228 | the header lines are the first line reads of the stream, each up to its first zero byte |
| GetSpec.HeadEndsAtSeparator | GetHandler.cpp:243-245 | they go up to and with the first that is CR LF, or to the end of the stream |
| GetSpec.ScanLeavesRest | GetHandler.cpp:227-246 | what the scan leaves is what follows them |
| GetSpec.FoldText | GetHandler.cpp:228 | the header text is all the lines, in order |
| GetSpec.NumberIsRead | GetHandler.cpp:347-358 | a field followed by a decimal number is read as that number, at the first place of the field |
| GetSpec.ClientIsSent | GetHandler.cpp:116-123 | the client is sent the header, and then the 400 page if the response is refused, all that follows if it is chunked, and otherwise as much as the last Content-Length says |
| GetSpec.KeptBodyEnds | RequestHandler.cpp:204 | what is kept of a counted body is what was read, followed by what the buffer held, up to the first zero byte or the announced length |
| GetSpec.TagIs | GetHandler.cpp:42-55 | the tag is what follows the first "etag:", up to the first CR or LF, or nothing without it |
| GetSpec.LastPolicyLineDecides | GetHandler.cpp:231-233 | the policy is that of the last Cache-Control line, or the default when there is none |
| GetSpec.LastAgeLineDecides | GetHandler.cpp:347-358 | the lifetime is that of the last Cache-Control line whose max-age is reached |
| GetSpec.KeptIsSent | GetHandler.cpp:222-272 | what is kept equals what the client was sent if and only if the body came whole and without a zero byte, or came short with a zero byte by chance at the right place of the uninitialised buffer |
| GetSpec.KeptIsString | GetHandler.cpp:261-272 | what is kept never has a zero byte, so that `strcpy` copies all of it |
| GetSpec.LastLengthLineDecides | GetHandler.cpp:239-241 | the length is that of the last Content-Length line, or zero when there is none |
| GetSpec.AnyLineMakesChunked | GetHandler.cpp:235-237 | the response is chunked if and only if some line says so |
| GetSpec.FetchFolds | GetHandler.cpp:226-253 | refusal, policy and lifetime of a response are those its header lines fold to |
| GetSpec.DiscardedWhen | GetHandler.cpp:249-251 | a response is refused if and only if some line says chunked and the last Content-Length line gives a length other than zero |
| GetSpec.BothAreRefusedWhen | GetHandler.cpp:216-218 | a response that has both a chunked and a Content-Length line is refused if and only if the last such length is not zero |
| GetSpec.LifetimeWhenStorable | GetHandler.cpp:282-301 | a response not discarded has a lifetime if and only if its policy is need-revalidate, a positive max-age or immutable; a discarded one would pass the same test, and only the early return keeps it out |
| GetSpec.StoredWhenStorable | GetHandler.cpp:282-305 | a response changes the cache if and only if it was not discarded, its policy is one of those three and it fits; then it goes in front, as the object built from it |
| GetSpec.NeedRevalidateNeverValid | GetHandler.cpp:294-305 | an entry that needs revalidation, with no line setting a max-age, is never reported valid at any time |
| GetSpec.StoredWhenLastLineStores | GetHandler.cpp:282-305 | a response with a Cache-Control line changes the cache if and only if it was not discarded, it fits, and its last such line says must-revalidate or no-cache, or else, without no-store and private, immutable or a positive max-age |
| GetSpec.StoredEntryIs | GetHandler.cpp:294-305 | the entry of a stored response holds its text, the time of storing and its tag, and a lifetime that is a year under immutable, its own max-age under max-age, and otherwise the last max-age that counted, or zero |
| GetSpec.NotStoredWithoutPolicy | GetHandler.cpp:282-293 | a response without a Cache-Control line never changes the cache |
| GetSpec.ForbiddenIsStoredWhen | GetHandler.cpp:311-319 | a response with one of the four directives documented to prevent storing, on any Cache-Control line, changes the cache if and only if it was not discarded, it fits, and that line is the last and says must-revalidate, no-cache, or immutable without no-store and private, or a later line is the last and lets it in |
| GetSpec.NoStoreIsStoredWhen | GetHandler.cpp:331-338 | a response with no-store on any Cache-Control line changes the cache if and only if it was not discarded, it fits, and that line is the last and says must-revalidate or no-cache as well, or a later line is the last and lets it in |
| GetSpec.NeedRevalidateIsAgeZeroWhen | README.md:208-209 | an entry under need-revalidate is never reported valid, at any time, if and only if no line set a max-age, or the last one to do so set it to zero |
| GetSpec.NeedRevalidateIsKept | GetHandler.cpp:282-305 | a response under need-revalidate changes the cache if and only if it fits |
| GetSpec.AgeZeroIsRefused | GetHandler.cpp:284 | a response whose last Cache-Control line comes down to a max-age of zero never changes the cache |
| GetSpec.RevalidateAfterAge | GetHandler.cpp:331-333 | a must-revalidate line after a max-age line keeps the earlier lifetime |
| Samples.SampleFetch | GetHandler.cpp:226-272 | a chunked response with a max-age of nine, for any body: it is storable, and kept as it was sent if and only if its body has no zero byte |
| Samples.ReplayThatDiffers | GetHandler.cpp:205-211 | a response that is stored for nine seconds and is not what its first client was sent |
| Samples.MustRevalidateThatIsServed | README.md:208-209 | a max-age=9 line followed by a must-revalidate line: the response is stored for nine seconds |
| Samples.MustRevalidateThatIsStored | GetHandler.cpp:294-305 | a response with must-revalidate alone: it is stored, with a lifetime of zero |
| Samples.AgeZeroThatIsRefused | GetHandler.cpp:284 | a response with max-age=0 alone: it is not stored |
| Samples.AgeZeroThatIsStored | GetHandler.cpp:340-345 | a response with max-age=0 and immutable on its line: it is stored for a year |
| Samples.AgeSixtyIsStored | GetHandler.cpp:352-356 | a response with max-age=60: it is stored for sixty seconds |
| Samples.PrivateIsRefused | GetHandler.cpp:337 | a private response: it is not stored |
| Samples.TagIsStored | GetHandler.cpp:303-304 | a response with a max-age and a tag: its stored entry carries the tag |
| Samples.NoStoreThatIsStored | GetHandler.cpp:331-338 | a response whose one Cache-Control line says no-store and no-cache, and which is stored |
| Samples.NoStoreThatIsOverridden | GetHandler.cpp:231-233 | a no-store line followed by a max-age=9 line: the response is stored for nine seconds |
| Samples.BothThatAreAccepted | GetHandler.cpp:249-251 | a response that is chunked and has a Content-Length, which is zero: it is not refused |
| GetHandler.GetCacheControlTime | GetHandler.cpp:325-363 | the priorities of the directives, and the digit loop's number; the age is untouched unless max-age decides |
| GetHandler.GetContentLength | RequestHandler.cpp:134-151 | the number after the field, 0 without it |
| GetHandler.GetETagIfAny | GetHandler.cpp:35-58 | the text after the first etag field, up to the first CR or LF, and nothing without the field |
| GetHandler.HandleResponseHeader | GetHandler.cpp:222-254 | for every cutting of the streams the loop computes the scan of the header, relays every line, stops after the separator, and discards chunked with a length |
| GetHandler.HandleResponseBody | GetHandler.cpp:261-272 | relays the chunked or counted body and appends what the C string of the buffer keeps of it |
| GetHandler.HandleCache | GetHandler.cpp:277-307 | the cache gains exactly the built entry when the policy gives a lifetime, and is unchanged otherwise |
| GetHandler.SendCacheResponse | GetHandler.cpp:205-214 | as many bytes as the entry has go out, starting with its C string, and they are the entry when it has no zero byte |
| GetHandler.FetchResponse | GetHandler.cpp:108-123 | client bytes, kept text, policy and discard decision are those the stream determines |
| GetHandler.HandleCached | GetHandler.cpp:71-86 | the client gets the first entry of the key if and only if there is one that is younger than its lifetime or that the origin confirmed; otherwise the entries of the key are dropped and the client gets nothing yet |
| GetHandler.FetchAndStore | GetHandler.cpp:102-128 | after a fetch the cache is what the response's policy makes of it, and a discarded response leaves it unchanged |
| GetHandler.HandleOrigin | GetHandler.cpp:92-128 | without a connection the client gets the 504 page and nothing changes; with one the request is forwarded, the client gets what the response comes to, and the cache what its policy makes of it |
| GetSpec.OnlyTheKeyChanges | GetHandler.cpp:85-128 | dropping a key and keeping a new response for it, or none, leaves every other key its first entry, and the key the new response or nothing |
| GetHandler.HandleGet | GetHandler.cpp:22-130 | the whole answer, case by case, for every cutting of both streams: a young or confirmed entry goes to the client, nothing changes and nothing is forwarded; otherwise the key's entries are dropped and the client gets the 504 page, or the request is forwarded and the client gets what the response comes to |
| GetMachine.AnswerWasFetched | GetHandler.cpp:302-305 | every entry a lookup returns goes back to a fetch of the same key that was not discarded |
| GetMachine.ReplayFidelity | GetHandler.cpp:205-211 | in every run of any number of handlers, bytes served from the cache are the kept text of one earlier fetch of that key, and are what that fetch's client was sent exactly under the condition of KeptIsSent |
| GetMachine.ServedFromCacheIsLatest | GetHandler.cpp:76-83 | whether the origin was asked about it or not, what the cache serves is the latest accepted write of its key since its last clear, as of the lookup |
| GetMachine.OriginIsLastResort | GetHandler.cpp:74-128 | in every run, a client is sent the origin's response or the 504 page only after a lookup that found nothing, or that found a stale entry and was followed by a clear of the key by the same thread; and is sent what the response comes to |
| GetMachine.ServedWithoutContactIsFresh | GetHandler.cpp:71-73 | an answer without contact to the origin is the latest accepted write of its key since its last clear, at an age strictly below its lifetime when it was looked up |
| GetMachine.EntriesAreAdmitted | GetHandler.cpp:282-305 | in every reachable state, with a writer inside or not, every node of the list in memory came from a response that was not discarded, under one of the three storable policies, and fits the object bound |
| GetMachine.ServedWithoutContactHadLifetime | GetHandler.cpp:331-333 | a need-revalidate response none of whose lines set a max-age is never served without contact |
| GetMachine.HandlersProceed | GetHandler.cpp:22-130 | in every run of handlers, while any request or log line is under way, some thread with something under way has a step that carries it on |
| GetOutcomes.EveryLookupIsAnswered | GetHandler.cpp:71-130 | in every run, each lookup that no handler has in hand any more was acted upon as it says: a valid entry was sent as found, a stale one only after the origin confirmed it, and without an entry the client got what the origin had |
| GetOutcomes.EveryFetchIsWritten | GetHandler.cpp:294-305 | in every run, each storable response that no handler has in hand any more was written under its key, stamped between its arrival and the write |
| GetWitness.Complete | Cache.cpp:31-179 | a cache operation left to itself comes to its return, with one event, and a read with the lookup in the contents at its call |
| GetWitness.GetAndStore | GetHandler.cpp:74-130 | a request for a key that is not cached, left to itself, is answered by the origin, and ends with the cache as the policy makes it |
| GetWitness.ServingIsReachable | GetHandler.cpp:71-73 | for every key there is a run in which the cache answers a second request with no contact to the origin, with the bytes the first client was sent |
| GetWitness.DocumentedBoundBreaks | README.md:246 | there is a run of eleven requests after which the list in memory is larger than the documented bound |

## Left out

- CacheList.Cache.ReadFromCache: a call that waits is reported as waiting; how it goes on, and interleaving, are the subject of CacheMachine and the modules on it.
- CacheList.Cache.WriteToCache: as ReadFromCache.
- CacheList.Cache.ClearAllInvalidCache: as ReadFromCache.
- WorkBuffer.SodaMachine.InsertFd: a call that waits is reported as waiting and changes nothing; how it goes on is modelled in BufferMachine.
- WorkBuffer.SodaMachine.RemoveFd: as InsertFd.
- Chunked.EncodedBodyEnds: encodings have no extensions and no trailers; `BodyEnd` skips both without checking their form.
- BufferMachine.Accounting: assumes a positive capacity (the program's is 20) and leaves the counters unbounded; the `int` counters of the source allow fewer than 2^31 insertions.
- GetHandler.GetContentLength: digits are read into an unbounded number, the source's `int` overflows; the same holds for the clock and for response sizes narrowed to `int`.
- GetHandler.GetCacheControlTime: as GetContentLength, for max-age.
- GetHandler.GetETagIfAny: stops at the end of the text; the source reads on past its terminator when no line end follows the field.
- GetHandler.HandleCached: the verdict of the conditional request is a parameter, because the header splice at GetHandler.cpp:142-164 writes past a terminator into an uninitialised buffer and has no defined meaning.
- GetHandler.HandleOrigin: `connected` stands for the outcome of name lookup and connect, and error pages are arbitrary parameters.
- GetHandler.HandleGet: starts after the request has been read and parsed, and takes the two outcomes above as parameters.
- Rio.Socket.Read: read errors and interrupted reads, whose handling depends on `errno` and on an unsigned comparison (Rio.cpp:82-91).
- Rio.Socket.Write: write errors other than interruption; a client that goes away is not modelled.
- GetSpec.KeptIsSent: the uninitialised body buffer is arbitrary bytes fixed before the read, at least as long as the Content-Length.
- CacheRuns.DeadlockFree: progress of some thread only; fairness, and termination of a call while others run, are not modelled.
- Failing semaphore calls, and the start-up race of the log's initialisation.
- The text of the log; its lock is modelled wherever a thread holds another lock, and at arbitrary points outside.
- Memory ordering below one read or assignment per step.
- Eviction by size or recency: the source has none.
- Overflow of fixed-size C buffers: line and body buffers have the sizes of the source, request buffers are not part of this model.
- Request parsing, host and port splitting, the POST handler, error page formatting, identifiers and `printCache`: none of the properties proved here rests on them.
- Sockets, name lookup, signals and process start-up.
