# A verified model of the concurrency, caching, HTTP and algorithm cores

This project models, in Dafny, the parts of the repository that carry real invariants, and proves what they are for.
`dafny verify dfyconfig.toml` checks the whole project.

- `Philosophers` - the dining-philosophers monitor for a ring of any size of at least two. Every access to `states`,
  `Mutex` and `s[]` is a step, and the theorems hold in every state of every interleaving.
- `Starvation` - how long a philosopher can stay hungry: bounded overtaking in rings of two and three, and a fair cycle
  that starves one from four on.
- `ThreadPool` - the bounded-queue thread pool: workers, producers and one caller of `stop` over one mutex and two
  condition variables, with spurious wakeups.
- `WorkerCalls` - the same pool when the tasks themselves call `addTask`.
- `EventLoop` - the functor queue of the event loop and its eventfd: the loop thread and any number of other threads.
- `Options`, `Sequences`, `Decimals` - the shared option type, a fact about sequences, and decimal numbers.
- `Recency`, `LinkedLru`, `FileCache` - what "least recently used" means, and the two caches that must agree with it:
  the raw doubly linked list with sentinels, and the file cache against a file system that changes between calls.
- `HttpNames`, `Query`, `HttpHead`, `HttpServer`, `HttpResponse`, `RequestText` - names compared as C strings without
  case, percent decoding and parameters, the request head as a function of the bytes, the connection objects that run
  it, the response printer, and whole requests written out and read back in any number of pieces.
- `FastCgi` - the records sent to a FastCGI application, a decoder written from sections 3.3, 3.4, 5.1 to 5.3 and 8 of the
  FastCGI Specification 1.0, and the reader of the response (section 5.5 for END_REQUEST).
- `PhpRequest` - the parameters and the body handed to the PHP application.
- `TimerHeap` - the binary heap of timers and what `tick` fires.
- `FibSearch`, `Lcs`, `Primes` - Fibonacci search, the memoised longest common subsequence, and `nextPrime`.

Conventions of the model:

- A protocol is a state machine whose states hold the program counters; fields called history (`posted`, `ran`,
  `pushed`, `taken`, `done`, `late`) are not read by any step.
- Objects whose methods update fields are classes. Each state-changing method is proved against a function of the old
  state, and the lemmas say what that function means.
- A connection buffer is the byte sequence between its low and high marks; reads and writes are complete. The HTTP
  modules use `string` for bytes, so what is proved for all characters holds for bytes.
- A line of a request can be accepted, refused with an error page, or make the parser throw. A throw arises where the
  source builds a string from a null pointer: a `%` with fewer than two characters behind it, and a `?` that comes
  only after the second space of the request line. A refused line leaves the fields it had already set.
- A request object is kept for the whole connection, so the parser is modelled from any earlier headers and
  parameters, to which the new ones are added.
- Parameter maps compare names with `strcasecmp`, so they are keyed by the lower-case name as far as its first NUL.
  Header maps are keyed by the header, which `HttpNames.LookupMeaning` justifies.

Where a property is false of the code, the exact condition is proved:

- `isPrime` is right for every number except 1 and 2, so `nextPrime` is right exactly from 2 on
  (`Primes.AnswerExact`, `Primes.NextPrime`).
- A changed file is noticed exactly when its seconds grew or its nanoseconds did since the cached copy was read; the two
  are not compared as one time (`FileCache.FreeHitIff`), and a file replaced by one with an older time is served stale
  (`FileCache.StaleRun`). The two tests are together exact if stamps only grow (`FileCache.ExpiredExact`).
- A connection sifts from the slot its timer has recorded, which sifting and earlier pushes make stale. When heap order
  survives is exact for every recorded slot and every new time (`TimerHeap.RescheduleIff`), and it is lost in a run that
  connections can make: timers pushed in the order in which they expire, and two of them postponed
  (`TimerHeap.PostponeStale`).
- A timer's callback runs before the pop, so the timer popped is the one fired exactly when the callback pushes none that
  expires earlier (`TimerHeap.TimerHeap.FireAndPush`).
- A hungry philosopher is overtaken at most N - 2 times in rings of two and three (`Starvation.OvertakenAtMost`) and
  without bound in every larger ring (`Starvation.HungerUnbounded`).
- A pool whose tasks add tasks is stuck exactly when every worker sleeps inside `addTask` and no other call can move
  (`WorkerCalls.PoolStuckIff`), and that happens (`WorkerCalls.PoolGetsStuck`).
- The memo of the longest common subsequence saves a cell exactly when its value is above 0, so strings without a common
  character take exponentially many calls (`Lcs.ChildRecursion`, `Lcs.Memoised`).
- A FastCGI length survives exactly below 2^31, a request body exactly from 1 to 65535 bytes; a response of records that
  the reader takes whole is de-framed exactly when no output has more than 8 bytes of padding (`FastCgi.LengthRoundTrip`,
  `FastCgi.BodyRoundTripIff`, `FastCgi.DeframeExact`).
- Padding behind END_REQUEST is read as the next record. A response that ends in such a record is read right exactly when
  the padding, read that way, shows no output and no more than 8 bytes of padding that are really there. Up to 8 bytes
  are always harmless, up to 16 fail on one pattern only, and zero bytes of any number are harmless
  (`FastCgi.LastExact`, `FastCgi.PaddedEndExact`).
- A GET without a query hands the application the query string of the request before it on the connection
  (`PhpRequest.GetReceived`).
- The application is told the length of the decoded body and sent the body as it came; the two agree exactly when the body
  holds neither a `%` nor a NUL (`PhpRequest.ContentLengthExact`).
- Decoding a percent-encoded text gives the whole text exactly when it has no NUL (`Query.DecodeEncoded`); printed
  headers are parsed back exactly when no value holds a carriage return (`HttpResponse.PrinterParserInverse`).

## Model

| member | source | states |
|---|---|---|
| `Philosophers.StepInv` | cpp/philosopher.cpp:29-59 | every step of every philosopher keeps the invariant: the mutex has at most one holder, what each program counter implies about `states` and `s[]`, exclusion, and that a hungry philosopher has an eating neighbour or a pending `test` |
| `Philosophers.RunInv` | cpp/philosopher.cpp:21-59 | the invariant holds in every state of every run, for any ring of at least two |
| `Philosophers.NeighboursNeverBothEat` | cpp/philosopher.cpp:29-59 | neighbours are never both EATING, nor both past `s[i].wait` and not yet in `put_fork`; whoever is there is EATING |
| `Philosophers.SemaphoreMeaning` | cpp/philosopher.cpp:29-48 | `s[i]` is 0 or 1, and 1 exactly when i was granted EATING, the notify is done, and i has not passed its wait |
| `Philosophers.HungryWaitsForEater` | cpp/philosopher.cpp:29-59 | whenever nobody holds Mutex, every HUNGRY philosopher has an EATING neighbour |
| `Philosophers.EaterCanStep` | cpp/philosopher.cpp:39-59 | with Mutex free, an EATING philosopher is never blocked |
| `Philosophers.DeadlockFree` | cpp/philosopher.cpp:29-59 | in every reachable state some philosopher can step |
| `Philosophers.BlockedOnlyByActive` | cpp/philosopher.cpp:29-59 | a blocked philosopher waits for a holder of Mutex that can step, or is HUNGRY beside an EATING neighbour that can step |
| `Starvation.OvertakenAtMost` | cpp/philosopher.cpp:29-59 | in rings of two and three, in every run and over any stretch in which i stays HUNGRY, others begin to eat at most N - 2 times |
| `Starvation.Cycle` | cpp/philosopher.cpp:29-59 | for every ring of four and more, a cycle of steps in which philosopher 1 stays HUNGRY, and everybody takes steps except those who are blocked throughout |
| `Starvation.Stem` | cpp/philosopher.cpp:21-48 | that cycle is reached from the initial state |
| `Starvation.HungerUnbounded` | cpp/philosopher.cpp:29-59 | so for every ring of four and more and every k some run has philosopher 1 HUNGRY while others begin to eat k times |
| `ThreadPool.WorkerInv` | http_server/FixedThreadPool.cpp:39-68 | every worker step, spurious wakeups included, keeps mutual exclusion, conservation, both signal counts, the bound and the stop conditions |
| `ThreadPool.ProducerInv` | http_server/FixedThreadPool.cpp:70-79 | the same for every step of `addTask` |
| `ThreadPool.StopInv` | http_server/FixedThreadPool.cpp:27-37 | the same for every step of `stop` |
| `ThreadPool.RunInv` | http_server/FixedThreadPool.cpp:17-79 | the invariant holds in every state of every run |
| `ThreadPool.NoLostWakeup` | http_server/FixedThreadPool.cpp:49-79 | while running, an unsignalled worker on `_empty` means the queue is no longer than the signalled workers (plus a producer about to signal), and an unsignalled producer on `_full` means queue plus signalled producers reach the limit; nobody is about to signal while the mutex is free |
| `ThreadPool.TakeReturnsTask` | http_server/FixedThreadPool.cpp:49-68 | take waits: while the pool runs, a worker leaving take has a task, and one about to pop finds one |
| `ThreadPool.NobodyBeginsToWait` | http_server/FixedThreadPool.cpp:54-75 | once isRunning is cleared nobody begins to wait on `_empty` or on `_full` |
| `ThreadPool.AtMostOneLateTask` | http_server/FixedThreadPool.cpp:39-47 | counted along the run, each worker starts at most one task after isRunning was cleared |
| `ThreadPool.QueueBounded` | http_server/FixedThreadPool.cpp:73-77 | while running the queue never grows beyond maxQueSize + 1; if it was longer at the start, because tasks were added before, it never grows until it is short enough |
| `ThreadPool.TasksConserved` | http_server/FixedThreadPool.cpp:39-79 | tasks are taken in push order, and every task pushed is in exactly one of queue, held by a worker, or done |
| `ThreadPool.PoolNeverStuck` | http_server/FixedThreadPool.cpp:39-79 | while running, with tasks that do not call `addTask`, if a task is queued or a producer is inside `addTask`, some thread can make progress without a spurious wakeup |
| `ThreadPool.StopDrains` | http_server/FixedThreadPool.cpp:27-47 | after the broadcast no worker waits on `_empty`, each starts at most one task after isRunning was cleared, and until all have exited some thread can make progress |
| `ThreadPool.StopTerminates` | http_server/FixedThreadPool.cpp:27-47 | after the broadcast each worker takes at most seven more steps, in every interleaving |
| `WorkerCalls.PoolRunInv` | http_server/FixedThreadPool.cpp:39-79 | with tasks that call `addTask`, the pool's invariant (exclusion, signals, bound, conservation, stop) still holds in every state of every run |
| `WorkerCalls.PoolStuckIff` | http_server/FixedThreadPool.cpp:39-79 | such a running pool with work left cannot move exactly when the task of every worker sleeps on `_full` inside `addTask` and no other call can move; the queue is then beyond the limit |
| `WorkerCalls.AsleepSteps` | http_server/FixedThreadPool.cpp:54-76 | nothing can happen to such a pool but a spurious wakeup, a call from outside, or stop |
| `WorkerCalls.PoolGetsStuck` | http_server/FixedThreadPool.cpp:39-79 | for every maxQueSize, one task that adds maxQueSize + 2 tasks blocks a pool of one worker |
| `WorkerCalls.StopStuck` | http_server/FixedThreadPool.cpp:27-47 | after the broadcast such a pool moves until every worker has exited or sleeps inside `addTask` |
| `EventLoop.LoopInv` | http_server/eventloop.cpp:32-61 | every step of the loop thread keeps order and wakeup invariants |
| `EventLoop.CallerInv` | http_server/eventloop.cpp:63-94 | every step of a thread in `runInLoop` or `exit` keeps them |
| `EventLoop.PostedOrder` | http_server/eventloop.cpp:53-76 | in every run, ran ++ taken ++ pending is exactly what was posted: each functor at most once and in push order |
| `EventLoop.NeverBlockedOnWork` | http_server/eventloop.cpp:32-94 | the loop never sits in epoll with counter 0 and pending work (or `quit` set) unless a thread is between its push (or `quit = true`) and its eventfd write |
| `EventLoop.SwapTakesAll` | http_server/eventloop.cpp:53-57 | the swap takes everything posted so far |
| `EventLoop.SwapServesAll` | http_server/eventloop.cpp:53-59 | whatever was posted before a swap has run when that round ends, and stays so |
| `EventLoop.CounterBounded` | http_server/eventloop.cpp:80-81 | the eventfd counter never exceeds its maximum |
| `EventLoop.LoopCanStep` | http_server/eventloop.cpp:46-60 | until it has left the loop the loop thread always has a step |
| `EventLoop.ExitedOnlyOnQuit` | http_server/eventloop.cpp:46-60 | in every run the loop is left only once `quit` is set; `exit` sets it and it stays set |
| `EventLoop.EverythingServed` | http_server/eventloop.cpp:44-84 | unless `quit` is set, once the loop thread has taken a number of steps of its own that the state at j determines, everything posted at j has run, in order |
| `EventLoop.QuitEndsLoop` | http_server/eventloop.cpp:86-94 | once `quit` is set the loop makes at most one more swap |
| `EventLoop.ReadableMeansWritten` | http_server/eventloop.cpp:32-36 | the eventfd is readable only if somebody has written to it since it was last read |
| `EventLoop.WakeupHandled` | http_server/eventloop.cpp:32-51 | a written eventfd can be reported and read, after which it is not readable |
| `Recency.TouchKeeps` | prac/LRUCache.h:27-38 | moving a used key to the front keeps the list most recent first |
| `Recency.InsertKeeps` | prac/LRUCache.h:49-76 | putting a new key in front and dropping the last one when full keeps the most recently used keys, no others |
| `LinkedLru.AfterIsLru` | prac/LRUCache.h:23-93 | for capacity >= 1 and any gets and puts, the cache holds the most recently used keys in order of last use, with the value last put for each |
| `LinkedLru.AnswerMeaning` | prac/LRUCache.h:23-41 | a get answers the value last put; -1 for a key used before only if the cache is full of keys used later |
| `LinkedLru.LruCache.constructor` | prac/LRUCache.h:14-21 | two linked sentinels, empty map, size 0 |
| `LinkedLru.LruCache.MoveToFront` | prac/LRUCache.h:28-38 | relinking an inner node to the front keeps next and prev mutually inverse from head to tail and the map exact |
| `LinkedLru.LruCache.Get` | prac/LRUCache.h:23-41 | list, map and size stay those of the abstract cache after the same operations, and the answer is the abstract one |
| `LinkedLru.LruCache.LinkFront` | prac/LRUCache.h:54-58 | links a new node behind the head and leaves the rest of the chain |
| `LinkedLru.LruCache.UnlinkLast` | prac/LRUCache.h:65-67 | unlinks the node before the tail |
| `LinkedLru.LruCache.Put` | prac/LRUCache.h:43-93 | refines the abstract put: overwrite and move to front, insert, or evict the last and insert |
| `FileCache.ExpiredExact` | http_server/LRUCache.cpp:25-28 | if a stamp is unchanged or later, the two-field test says expired exactly when it changed |
| `FileCache.Provenance` | http_server/LRUCache.cpp:34-43 | in every run with file changes of any kind, each cached copy was read at some earlier step and kept since |
| `FileCache.FreeHitIff` | http_server/LRUCache.cpp:22-43 | in every such run, for every step at which the file was what the cached copy holds, a hit is current exactly when the content is what it was at that step or the stamp has grown since in seconds or in nanoseconds |
| `FileCache.HitWasRead` | http_server/LRUCache.cpp:11-43 | every hit has such a step: the one at which its copy was read |
| `FileCache.StaleRun` | http_server/LRUCache.cpp:25-31 | a file set at (5, 7) and replaced at (4, 7) is served as it was |
| `FileCache.HitIsCurrent` | http_server/LRUCache.cpp:11-44 | if every content change moved the stamp forward, a hit returns the current content, and the size reported afterwards is its size |
| `FileCache.ServedIsCurrent` | http_server/LRUCache.cpp:11-75 | get, set on a miss, then get serves the current content of any existing file |
| `FileCache.NextInv` | http_server/LRUCache.cpp:11-75 | gets, sets and file changes keep agreement with the file system and recency order |
| `FileCache.RunInv` | http_server/LRUCache.cpp:11-83 | in every run the cache holds the keys most recently hit or inserted, at most capacity of them, and agrees with the file system |
| `FileCache.RunHitIsCurrent` | http_server/LRUCache.cpp:11-44 | in every run a get hits exactly if the key is cached and the file exists, and then returns the current content |
| `FileCache.RunSize` | http_server/LRUCache.cpp:77-83 | in every run the size reported is the length of the copy a hit finds, and 0 without one |
| `FileCache.SetChangesIff` | http_server/LRUCache.cpp:46-75 | a set changes the cache iff the key is not there; it never refreshes or moves a copy |
| `FileCache.LruCache.GetValue` | http_server/LRUCache.cpp:11-44 | list and map hold the same distinct keys, the node is spliced to the front and refreshed if expired, and the answer is the specified one |
| `FileCache.LruCache.SetValue` | http_server/LRUCache.cpp:46-75 | inserts a missing file in front, evicting the last entry of a full cache; false where the source asserts |
| `FileCache.LruCache.GetSize` | http_server/LRUCache.cpp:77-83 | the stored size, or 0 |
| `HttpNames.LookupMeaning` | http_server/http.cpp:234-241 | a name is found as header h exactly when strcasecmp equates it with the name of h |
| `HttpNames.HeaderRoundTrip` | http_server/http.cpp:139-241 | ConvertStringToHeader undoes ConvertHeaderToString for all 42 headers |
| `HttpNames.MethodMeaning` | http_server/http.cpp:131-137 | a name is found as method m exactly when strcasecmp equates it with the name of m |
| `HttpNames.MethodRoundTrip` | http_server/http.cpp:105-137 | ConvertStringToMethod undoes ConvertMethodToString |
| `HttpNames.FoldMeaning` | http_server/http.h:129-143 | strcasecmp equates exactly the strings that agree, but for the case of letters, up to the first NUL |
| `Query.URLDecode` | http_server/utils.cpp:71-91 | the index loop computes the decoded text, cut at its first NUL, or fails on a cut escape |
| `Query.DigitValue` | http_server/utils.cpp:46-69 | the table of digit values agrees with the hexadecimal digits in both cases |
| `Query.UnescapeEncoded` | http_server/utils.cpp:46-88 | unescaping undoes every percent-encoding, with either case of the digits and any choice of escaped characters |
| `Query.DecodeEncoded` | http_server/utils.cpp:71-91 | the decoder gives the encoded text up to its first NUL, hence the whole text iff it has none |
| `Query.WellFormedDecodes` | http_server/utils.cpp:71-91 | text in which every % has two hexadecimal digits is decoded, to something it is an encoding of |
| `Query.ParseParams` | http_server/HttpServer.cpp:463-480 | the splitting loop adds the pieces between & signs one by one, up to the first that is refused |
| `Query.PiecesJoined` | http_server/HttpServer.cpp:464-476 | splitting undoes joining with & |
| `Query.JoinedPieces` | http_server/HttpServer.cpp:464-476 | joining undoes splitting, for every string |
| `Query.LastWinsMeaning` | http_server/http.cpp:336-339 | the map of a list of pairs: a name has the value of the last pair so named up to case, or its earlier value |
| `Query.QueryDecodes` | http_server/HttpServer.cpp:463-480 | any encoding of any non-empty list of pairs gives the last-wins map of the pairs as C strings |
| `Query.QueryRoundTrip` | http_server/HttpServer.cpp:463-480 | NUL-free pairs come back whole, even when they hold &, = or % |
| `HttpHead.ParseLineStable` | http_server/HttpServer.cpp:499-514 | a line found complete or broken stays so when more bytes arrive |
| `HttpHead.ParseLineMeaning` | http_server/HttpServer.cpp:499-514 | more bytes are awaited, a line is complete or it is broken exactly as the text has no CR with a byte behind it, a CRLF first, or a CR before another byte first |
| `HttpHead.ExtendIsRun` | http_server/HttpServer.cpp:93-150 | the line loop on more bytes equals the loop on all bytes: same state, request, leftover or rejection |
| `HttpHead.ChunkIndependence` | http_server/HttpServer.cpp:93-150 | for every byte string and every cut of it, receiving the pieces in turn gives the outcome of the whole |
| `HttpHead.RunLines` | http_server/HttpServer.cpp:104-141 | accepted lines closed by CRLF are consumed, and the loop goes on behind them |
| `HttpHead.HeadIff` | http_server/HttpServer.cpp:104-141 | the loop completes a head exactly when the bytes are accepted CR-free lines, each closed by CRLF, and then the leftover |
| `HttpHead.LineOfParts` | http_server/HttpServer.cpp:428-497 | the positions the parser finds cut a request line into its method, path, query and rest |
| `HttpHead.PutGot` | http_server/http.cpp:304-314 | a header value put under a known name is got under every name equal to it up to case, and under no other |
| `HttpHead.RequestLineVerdict` | http_server/HttpServer.cpp:428-497 | a line without two spaces is a bad request; every other line can be cut into parts at them, and whether it is accepted, refused or throws is decided by those parts alone |
| `HttpHead.VersionMeaning` | http_server/HttpServer.cpp:484-490 | HTTP/1.1 iff the line ends in 1, HTTP/1.0 iff it ends in 1, any character and 0, and nothing else |
| `HttpHead.HeaderLineVerdict` | http_server/HttpServer.cpp:388-426 | a header line is accepted iff it is blank, which ends the head, or has a known name before its first colon, which then gets what follows less one space; any other is refused and changes nothing |
| `HttpServer.DeliveriesAgree` | http_server/HttpServer.cpp:93-150 | pieces of which only the last completes the head give the reply, request and phase of one delivery of the whole; nothing depends on the cut unless the request is refused |
| `HttpServer.BodyTaken` | http_server/HttpServer.cpp:345-375 | for every request the content is exactly the bytes behind the head and method, url, version and query string are kept; only a posted form changes parameters or can be refused, any other request is served and empties the buffer |
| `HttpServer.ReplyMeaning` | http_server/HttpServer.cpp:93-150 | when a delivery waits, is answered, is refused or throws |
| `HttpServer.HttpRequest.GetHeader` | http_server/http.cpp:285-292 | the value of a known header, entered as empty if missing, else the marker UNKNOW |
| `HttpServer.HttpConnection.ReadTarget` | http_server/HttpServer.cpp:454-482 | url, query string and parameters from the target, with every refusal and what it leaves behind |
| `HttpServer.HttpConnection.ReadRequestLine` | http_server/HttpServer.cpp:428-497 | the request line updates request, phase and buffer as the line function says |
| `HttpServer.HttpConnection.ReadHeaderLine` | http_server/HttpServer.cpp:388-426 | the same for a header line or the blank line |
| `HttpServer.HttpConnection.ReadContent` | http_server/HttpServer.cpp:345-375 | all buffered bytes become the body, a posted form adds parameters, and the connection awaits another request |
| `HttpServer.HttpConnection.OnMessage` | http_server/HttpServer.cpp:93-150 | the parse loop ends, by 2 * dataLen + (1 in the body phase), in the state and with the reply that taking the head line by line and then the body gives |
| `HttpServer.HttpConnection.Receive` | http_server/HttpServer.cpp:93-150 | a piece appended to the buffer and parsed is one delivery |
| `HttpResponse.HttpResponse.ToString` | http_server/http.cpp:428-465 | status line, header lines in map order, blank line and content, and the length |
| `HttpResponse.BlockParsed` | http_server/HttpServer.cpp:388-426 | the printed block of any header map with CR-free values adds exactly those headers, ends in the body phase and leaves exactly the content |
| `HttpResponse.RunKeepsClean` | http_server/HttpServer.cpp:388-426 | the parser never stores a carriage return in a header |
| `HttpResponse.PrinterParserInverse` | http_server/http.cpp:458-462 | parsing the printed block rebuilds the same map and leaves the content iff no value holds a carriage return |
| `HttpResponse.StatusRead` | http_server/http.cpp:433-457 | version and status number are read back from the printed status line, which holds one CRLF, at its end |
| `HttpResponse.ResponseRead` | http_server/http.cpp:428-465 | from everything printed a receiver reads version, status, headers and content |
| `RequestText.QueryEncodes` | http_server/HttpServer.cpp:461-461 | the written query string is itself an encoding of the plain one, so the stored query string is the plain one |
| `RequestText.RequestLineRead` | http_server/HttpServer.cpp:428-497 | method in any case, encoded path, encoded pairs and version are read back from the request line |
| `RequestText.RequestRoundTrip` | http_server/HttpServer.cpp:93-150 | every way of writing a NUL-free message is understood as that message, and its body is left in the buffer |
| `RequestText.ChunkedRoundTrip` | http_server/HttpServer.cpp:93-150 | the same under every cut into pieces |
| `RequestText.ServedAsWritten` | http_server/HttpServer.cpp:93-150 | a message that is not a form, delivered in any pieces of which the last completes the head, is served: method, path, version, query, headers and body are the message's, its pairs are the parameters added, and the buffer is empty |
| `RequestText.FormServed` | http_server/HttpServer.cpp:345-375 | the same for a posted form, whose pairs are added to the parameters after those of the query |
| `FastCgi.FcgiConnection.SendBeginRequest` | http_server/FcgiConnection.cpp:75-93 | appends one BEGIN_REQUEST record for the responder role |
| `FastCgi.FcgiConnection.MakeValueBody` | http_server/FcgiConnection.cpp:141-185 | writes the two lengths, the name and the value at the front of the buffer and returns their total length |
| `FastCgi.FcgiConnection.SendParams` | http_server/FcgiConnection.cpp:187-207 | appends one PARAMS record holding the pair |
| `FastCgi.FcgiConnection.SendEndRequest` | http_server/FcgiConnection.cpp:95-110 | closes the PARAMS stream and flushes |
| `FastCgi.FcgiConnection.SendContentHeader` | http_server/FcgiConnection.cpp:112-139 | one STDIN record, the closing one, and a flush |
| `FastCgi.FcgiConnection.SendRequest` | http_server/HttpServer.cpp:312-332 | the calls in the order the server makes them put exactly the bytes of the request on the wire |
| `FastCgi.LengthRoundTrip` | http_server/FcgiConnection.cpp:146-170 | the one- or four-byte length is decoded as itself iff it is below 2^31 |
| `FastCgi.PairRoundTrip` | http_server/FcgiConnection.cpp:141-185 | a decoder recovers every pair whose lengths are below 2^31 |
| `FastCgi.RecordsRoundTrip` | http_server/FcgiConnection.cpp:75-207 | record framing is undone record by record |
| `FastCgi.RequestRoundTrip` | http_server/FcgiConnection.cpp:75-207 | a decoder recovers request id, role and pairs of every request without body whose pairs fit the buffer |
| `FastCgi.BodyRoundTripIff` | http_server/FcgiConnection.cpp:75-207 | the same with a body, iff the body has 1 to 65535 bytes |
| `FastCgi.Reader.ReadContent` | http_server/FcgiConnection.cpp:42-73 | the read loop computes the de-framing function, reports an overrun iff more than 8 padding bytes are really read, and otherwise consumes all input |
| `FastCgi.DeframeRecord` | http_server/FcgiConnection.cpp:48-72 | what any record that is there in full does to the reader: output is kept, padding beyond 8 bytes overruns, and what is not skipped (padding of END_REQUEST, body of unknown kinds) is read as what follows |
| `FastCgi.DeframeExact` | http_server/FcgiConnection.cpp:42-73 | for any output records, unpadded END_REQUEST records and bare headers of other kinds the reader returns exactly the STDOUT contents iff no output padding exceeds 8 bytes, and otherwise overruns its padding buffer |
| `FastCgi.LastExact` | http_server/FcgiConnection.cpp:42-73 | a response that ends in a padded END_REQUEST or in another record not taken whole is read right iff every output fits and no record seen in the unread bytes has output, or more than 8 bytes of padding that are there to be read |
| `FastCgi.PaddedEndExact` | http_server/FcgiConnection.cpp:67-71 | for END_REQUEST: up to 8 bytes of padding are always harmless; up to 16 iff they are not more than 8 that begin with a STDOUT header announcing content; zero bytes of any number are harmless |
| `FastCgi.PaddingReadAsOutput` | http_server/FcgiConnection.cpp:67-71 | padding of up to 255 bytes that looks like an output record is returned as output behind what was printed |
| `PhpRequest.DecodedLength` | http_server/utils.cpp:71-91 | decoding succeeds and keeps the length iff the text holds neither a percent sign nor a NUL |
| `PhpRequest.ContentLengthExact` | http_server/HttpServer.cpp:308-332 | for a posted request the announced CONTENT_LENGTH is the length of the body sent iff the content holds neither a percent sign nor a NUL |
| `PhpRequest.Forward` | http_server/HttpServer.cpp:308-332 | puts the bytes of the request on the wire, or nothing if decoding the body throws |
| `PhpRequest.GetReceived` | http_server/HttpServer.cpp:308-332 | from the socket to the application: of every GET message, in any pieces, a decoder gets exactly web root and path, protocol, GET and the query text, without a body; a message without a query carries the query string of the request before it |
| `PhpRequest.PostReceived` | http_server/HttpServer.cpp:308-332 | of every POST message of 1 to 65535 bytes it gets exactly web root and path, protocol, POST, length, type and the content; the length is right iff the content holds neither a percent sign nor a NUL |
| `PhpRequest.PostDelivered` | http_server/HttpServer.cpp:308-332 | the same from the socket, for a body that is not a form |
| `PhpRequest.FormDelivered` | http_server/HttpServer.cpp:308-332 | the same from the socket, for a submitted form |
| `PhpRequest.TellsPost` | http_server/HttpServer.cpp:318-332 | every method but GET is announced as POST, and only POST sends a body |
| `Decimals.DecimalNumber` | http_server/HttpServer.cpp:326-326 | the decimal text of a length is read back as that length |
| `TimerHeap.FirstChildMeaning` | http_server/TimerHeap.cpp:60-65 | the child chosen is a child and no child expires earlier |
| `TimerHeap.SiftUpHeap` | http_server/TimerHeap.cpp:26-35 | sifting up repairs a heap whose last moved slot alone is too early |
| `TimerHeap.SiftDownHeap` | http_server/TimerHeap.cpp:55-74 | sifting down repairs a heap whose slot alone is too late |
| `TimerHeap.HeapMin` | http_server/TimerHeap.cpp:76-83 | the top expires no later than any timer |
| `TimerHeap.RepairIff` | http_server/TimerHeap.cpp:55-74 | after one expiry changes, `down` restores heap order iff the parent does not expire later; always if the expiry was raised |
| `TimerHeap.TimerHeap.PushTimer` | http_server/TimerHeap.cpp:18-37 | within capacity, keeps heap order, adds exactly the timer and records its slot; a timer that expires last displaces no other |
| `TimerHeap.TimerHeap.Down` | http_server/TimerHeap.cpp:55-74 | the swap loop computes sifting down and permutes the timers |
| `TimerHeap.RescheduleIff` | http_server/TimerHeap.cpp:55-74 | when heap order survives a change of the time in one slot and sifting down from any slot, the same or another |
| `TimerHeap.TimerHeap.Reschedule` | http_server/HttpConnection.cpp:33-40 | a timer out of the heap is left alone; otherwise expiry and sifting from the recorded slot keep the timers, and heap order under the exact condition for the slot the timer is really in |
| `TimerHeap.PushTwo` | http_server/TimerHeap.cpp:26-36 | two pushes leave the first timer in slot 1 with slot 0 recorded |
| `TimerHeap.PostponeStale` | http_server/HttpConnection.cpp:35-40 | timers pushed at 1, 2, 3, 4, the first postponed to 5 and the second to 6: heap order is lost |
| `TimerHeap.TimerHeap.PopTimer` | http_server/TimerHeap.cpp:39-53 | removes exactly the top, marks it -2 and keeps heap order |
| `TimerHeap.TimerHeap.Tick` | http_server/TimerHeap.cpp:85-101 | with callbacks that leave the heap alone, fires exactly the timers with expire <= cur, in nondecreasing order, each once, marks exactly those -2, and keeps the rest as a heap |
| `TimerHeap.TimerHeap.FireAndPush` | http_server/TimerHeap.cpp:93-99 | with a callback that pushes timers, the timer popped is the fired one iff none of them expires before it; otherwise one of them is dropped unfired and the fired one stays |
| `FibSearch.Fib.constructor` | cpp/structure/m_vector.h:15-20 | the least Fibonacci number that is at least n |
| `FibSearch.Fib.Next` | cpp/structure/m_vector.h:22-22 | f and g stay consecutive Fibonacci numbers, one place up |
| `FibSearch.Fib.Prev` | cpp/structure/m_vector.h:23-23 | the same, one place down |
| `FibSearch.Search` | cpp/structure/m_vector.h:245-265 | on any sorted range, returns a slot holding e, or the end iff e is absent; every probe is in range, and a range no longer than the k-th Fibonacci number takes at most k probes |
| `Lcs.Attained` | sta/algorithms.cpp:16-25 | some common subsequence has the length computed |
| `Lcs.Optimal` | sta/algorithms.cpp:16-25 | no common subsequence is longer |
| `Lcs.ChildRecursion` | sta/algorithms.cpp:27-41 | the memo table always holds -1 or the true value, and the result is the plain recursion's; a call returns at once iff a side is empty or the cell was filled with a value above 0, and without a common character every call of the plain recursion is made |
| `Lcs.PlainCallsExponential` | sta/algorithms.cpp:16-25 | there are at least 2^min(m, n) of these calls |
| `Lcs.Memoised` | sta/algorithms.cpp:43-51 | equals the plain recursion, is attained and is not exceeded; exponentially many calls on strings without a common character |
| `Primes.IsPrime` | cpp/util.cpp:5-19 | the counting loop says true exactly for 1 and for odd numbers with no divisor from 3 up to the square root |
| `Primes.AnswerExact` | cpp/util.cpp:5-19 | that answer is primality for every number except 1 and 2, where it is wrong |
| `Primes.PrimeAbove` | cpp/util.cpp:21-26 | there is a prime above every number, so the search of `nextPrime` ends |
| `Primes.NextPrime` | cpp/util.cpp:21-26 | ends for every n, and returns the least prime above n iff n >= 2 |

## Left out

- Wrap-around of `unsigned int` in `nextPrime` and overflow of the `int` fields of `Fib`: both are modelled over unbounded integers, and the square root is exact.
- Buffer growth and compaction: connection buffers are abstract byte sequences.
- Partial reads and writes of sockets: system calls transfer everything asked for, unless the peer has closed.
- Request bodies over several deliveries: the source takes what is buffered behind the head and ignores Content-Length, and so does the model.
- The printing mutex of the philosophers and the time they spend thinking and eating.
- Producers blocked on `_full` when the pool stops: `stop` does not wake them, and nothing is claimed about them except that a worker whose task is one of them does not exit. Several calls of `start` are not modelled.
- ThreadPool.PoolNeverStuck: tasks that call `addTask` are left to WorkerCalls.PoolStuckIff, because with them the pool can get stuck.
- The case of `runInLoop` on the loop's own thread, which runs the functor at once and touches no shared state.
- LinkedLru.LruCache.Put: capacity 0 is excluded, because the source then follows null pointers; node keys are constants, as no statement changes them after the node is linked.
- FileCache.LruCache.SetValue: capacity 0 is excluded, because the source then pops an empty list.
- TimerHeap.TimerHeap.PushTimer: a full heap is excluded, because the source then writes outside its array.
- TimerHeap.TimerHeap.Tick: callbacks are the list of fired timers, and the clock is a parameter; a callback that pushes is described for one turn of the loop (TimerHeap.TimerHeap.FireAndPush), one that pops is not.
- HttpResponse.HttpResponse.ToString: the order of the map is a parameter, and what is proved holds for every order.
- FastCgi.FcgiConnection.SendParams: pairs that do not fit the 8192-byte buffer are excluded, because the source then writes past it.
- FibSearch.Search: elements are integers, though the source is a template over ordered elements.
- What follows a parsed request: static files, gzip, the choice of PHP by regular expression, error pages, connection timers, logging, and GMT dates.
- PhpRequest.Forward: parameters that do not fit the 8192-byte buffer are excluded, because the source then writes past it.
- Cookies and the scheme of a request, which the parser never sets.
- The sorting, deduplication and other containers, trees, chat room, and the socket, process and signal exercises: easy members or plumbing.
