# A verified model of the streaming read path

This project models the part of the file system that serves a remote file to its readers: the two backing
stores and the `Fetcher`, the staging lifecycle of `fuseFS`, the temp file manager, and the sleep-prevention
handshake. All of it meets at `BackingStore.ReadAt` ("reads len(p) bytes at offset off, or fewer at EOF",
`internal/fetcher/store.go:15-18`). What every read of both stores keeps is the predicate `Reads.ReadOk`, which is
weaker than these words in one point: it allows a short read without an error anywhere. Exactly when a read is
short is stated separately for each store.

`dafny verify dfyconfig.toml` checks the whole project.

## How it is built

| file | what it models |
|---|---|
| `Common.dfy`, `Reads.dfy` | errors, read results, slices and sums; what a read may return, and the mapping of `fuseFS.Read` |
| `TempFileProtocol.dfy` | `TempFileStore` as a step relation: one downloader, any number of `ReadAt` callers and closers; each atomic operation, WaitGroup operation, channel operation and file operation is one step |
| `TempFileSafety.dfy`, `TempFileProgress.dfy`, `TempFileService.dfy` | what every reachable state satisfies, bounds on runs, and what readers, downloader and closers get from each other |
| `ChunkCache.dfy` | the abstract chunk cache, its two eviction orders and what they amount to over any run |
| `ChunkRanges.dfy`, `ChunkRequests.dfy`, `ChunkReads.dfy` | the byte ranges that are requested; the attempts of one fetch; `ReadAt` as a function of what its `getChunk` calls returned |
| `RangeLRUStore.dfy`, `Fetcher.dfy` | the two stores as classes, for one caller at a time |
| `ChunkFetchProtocol.dfy`, `ChunkFetchSafety.dfy`, `ChunkFetchProgress.dfy`, `ChunkFetchService.dfy`, `ChunkFetchRuns.dfy` | `getChunk` and `fetchChunk` with any number of concurrent callers, as a step relation that covers both stores; what callers get and why they fail; runs of one caller alone |
| `Staging.dfy`, `StagingInvariants.dfy`, `StagingService.dfy` | the callbacks of `fuseFS` as steps on a value, what every sequence of callbacks keeps, and what each callback gives, over the fields of the state |
| `FuseFS.dfy` | the same callbacks on mutable objects that share stores by reference, proved to do exactly those steps |
| `TempFileManager.dfy`, `EvictionCallbacks.dfy` | the bounded allocator with eviction by last access; what its callbacks do to the stores of `fuseFS` |
| `SleepHandshake.dfy` | the goroutines that switch sleep prevention on and off, racing with Open and Release |
| `Reconstruction.dfy`, `EndToEnd.dfy` | reading a file from the start through `fuseFS.Read`, in general and over each store |

Two things are modelled twice, and the two models are tied together. `FuseFS` is the imperative form of
`Staging`: every method's postcondition is a function of `Staging` applied to the old state, so the invariants
proved there hold of the objects. The chunked `ReadAt` loops are proved against `ChunkReads`, whose results need
only that each chunk is the one asked for and agrees with the remote file; `ChunkFetchSafety.TransparentReads`
supplies that for callers that compete.

## Assumptions

- Atomics are sequentially consistent; a critical section and a single file or channel operation are one step.
- A range request that succeeds returns exactly the inclusive range asked for (sections 14.1.2 and 15.3.7 of
  RFC 9110). The code also accepts status 200, whose body would be the whole file.
- The declared file size is positive and read offsets are not negative.
- The downloader opens the same file object as the read handle: the manager does not remove the file between
  `os.CreateTemp` and the downloader's `os.OpenFile`.
- An error while the response body is read, other than the end of the body, does not wrap `io.EOF`.
- A context is a flag that may become cancelled at any step.

## Where a natural claim is false

For each there is a run or an input that shows it, and a theorem that says exactly when the claim holds.

- "A read returns len(p) bytes, or fewer at the end." A chunked read whose later chunk fails returns what it has,
  without an error (`ShortReadWitness`), and only then (`ResultOk`, `TransparentReads`). A download whose body is
  shorter than the declared size is taken for complete, because the counter is set to the size at the end of the body
  (`internal/fetcher/store_tempfile.go:204-208`; `ShortBodyWitness`); an error-free read is shorter than asked for
  exactly when the region reaches beyond the body (`FullLengthIff`).
- "A zero from Read is the end of the file." A transport error that wraps `io.EOF` (a connection closed before the
  response) reaches `fuseFS.Read` through `%w`, where `errors.Is` takes it for the end: every non-empty file can read
  as empty, through both stores (`ChunkedEarlyEnd`, `TempFileEarlyEnd`). Reading from the start until a zero is
  complete exactly when that zero is not one of these (`ChunkedReconstructs`), and over a temp file the body is long
  enough (`TempFileReconstructs`).
- "A waiting read is woken when its bytes have arrived." A progress token wakes one reader only, so another may stay
  blocked with its bytes announced (`LostWakeupWitness`). A waiting reader is blocked exactly when its context lives,
  no token is waiting and both channels are open (`WaiterBlockedIff`); with its region published that takes another
  reader that took a token since it last looked (`PublishedWakes`), and it ends with the download
  (`NeverBlockedAfterDone`).
- "Close closes the file handle." A Close whose context expires before the readers drain gives up
  (`TimedOutWitness`), and as `closed` stays set every later Close returns at once. The handle can no longer be closed
  by anything exactly when some Close has timed out (`LeakedIffTimedOut`).
- "RangeLRUStore is an LRU cache", as `README.md:294` and `README.md:506` of the repository say. A hit does not
  promote (`internal/fetcher/store_rangelru.go:192-198`), so it evicts in fetch order (`RangeIsFIFO`, `RangeIsNotLRU`).
  It goes through the states of an LRU cache exactly when every hit falls on the newest chunk
  (`LRUIffHitsAreNewest`). The Go source is what is modelled.
- "A read after a failed fetch tries again." Errors are cached like data (`ErrorAnswersAgain`). In a RangeLRUStore a
  fetched chunk stays the answer exactly until capacity further chunks have been fetched (`FetchedChunkStays`); in a
  Fetcher it stays exactly as long as it is always recently used, so an error that keeps being asked for never ages
  out (`FetcherKeepsErrors`).
- "Without an open handle, sleep is not prevented." The on switch of a short-lived handle may run last
  (`HeldWithoutHandle`). Once all has settled without a handle, prevention is held exactly when its last on switch ran
  after the last handle was gone and its off switch had run (`HeldIffStale`).
- "With an open handle, sleep is prevented." A failed attempt is not repeated (`NotHeldAfterFailure`). Once all has
  settled with a handle open, prevention is held exactly when the latest attempt did not fail
  (`SettledIffNotFailed`).

## Model

| member | source | states |
|---|---|---|
| TempFileSafety.GateSafety | internal/fetcher/store_tempfile.go:353-437 | In every interleaving of any readers, closers and the downloader, the handle is open from a reader's second closing check until its Done; so the nil branch and a read of a closed file are unreachable |
| TempFileSafety.OneTeardown | internal/fetcher/store_tempfile.go:278-330 | At most one closer ever gets past the swap of `closed`, so at most one performs the teardown |
| TempFileSafety.PublishedIsDelivered | internal/fetcher/store_tempfile.go:172-213 | At every step the file is a prefix of the body and holds all bytes the counter announces, except after the end of a body, when the counter is the declared size |
| TempFileSafety.StreamingRead | internal/fetcher/store_tempfile.go:376-456 | Whatever a finished ReadAt raced with, its result is right: without an error exactly the delivered bytes of its region; a clean EOF only at or beyond the end of the file or of the body; every other error with no bytes, or with a prefix after a failing file read |
| TempFileSafety.FullLengthIff | internal/fetcher/store_tempfile.go:380-385 | An error-free read has the length the contract asks for if and only if the body reaches the end of the region (or the buffer is empty) |
| TempFileSafety.ExactRead | internal/fetcher/store_tempfile.go:427-456 | With a body of at least the declared size, an error-free read returns body[off..off+n) with n = min(len(p), size-off) |
| TempFileSafety.ShortBodyWitness | internal/fetcher/store_tempfile.go:204-208 | A reachable state in which a read inside a non-empty file has returned a clean EOF, because the body was empty |
| TempFileSafety.TimedOutCloseLeaksHandle | internal/fetcher/store_tempfile.go:278-322 | After a timed-out Close, in every continuation, the handle is open and every other Close has lost or will lose the swap |
| TempFileSafety.TimeoutNeedsCancel | internal/fetcher/store_tempfile.go:310-322 | A Close times out only if its own context has been cancelled |
| TempFileSafety.TimedOutWitness | internal/fetcher/store_tempfile.go:310-322 | For every file, a reachable state in which a Close has timed out while a reader is between its second check and its Done |
| TempFileSafety.FileReadOk | internal/fetcher/store_tempfile.go:439-456 | The clamped file read with its EOF fix-ups is right whenever the counter has reached the end of the region |
| TempFileSafety.DownloadKeeps | internal/fetcher/store_tempfile.go:129-213 | Every downloader step, with any chunking, torn write or failure, keeps file, counters, error and channels in agreement with the body, and never takes the counter back below the size or its old value |
| TempFileSafety.ReaderStepKeeps | internal/fetcher/store_tempfile.go:353-456 | Every reader step keeps the reader's facts; it is counted in the gate exactly from Add to Done; it gets inside only while `closing` is clear |
| TempFileSafety.CloserStepKeeps | internal/fetcher/store_tempfile.go:270-344 | Every closer step keeps the winner's position in agreement with closed, closing, the cancelled download and the handle; a loser changes nothing; a closer counts as drained only after seeing no reader |
| TempFileProgress.DoneMeansDecided | internal/fetcher/store_tempfile.go:136-213 | On every exit path of the downloader: when doneCh is closed, an error is set or the counter equals the size |
| TempFileProgress.NeverBlockedAfterDone | internal/fetcher/store_tempfile.go:391-425 | Once doneCh is closed, every unfinished reader has an enabled step, whoever consumed the tokens |
| TempFileProgress.NoStrandedWaiter | internal/fetcher/store_tempfile.go:391-425 | In any run after doneCh was closed, a reader takes at most a fixed number of steps, given for each point it may be at, before it returns: at most one more iteration |
| TempFileProgress.ClosedToNewcomers | internal/fetcher/store_tempfile.go:361-374 | In any run after `closing` was set, no reader newly registers or newly gets inside; only those already past the first check touch the counter |
| TempFileProgress.DrainIsBounded | internal/fetcher/store_tempfile.go:282-330 | From the cancelled download on, in any run with any new arrivals, the steps of the downloader, the committed readers and the winning closer are bounded by a ranking that each of them lowers |
| TempFileProgress.DrainNeverStuck | internal/fetcher/store_tempfile.go:292-322 | Until the winner has finished or timed out, one of those steps is enabled without any cancelled context |
| TempFileProgress.FinishedMeansClosed | internal/fetcher/store_tempfile.go:324-344 | A finished Close has cleared the handle, unregistered and removed the file and cancelled the download, and nobody is inside |
| TempFileProgress.LeakedIffTimedOut | internal/fetcher/store_tempfile.go:278-344 | In every reachable state, no continuation, with new Closes or without, closes the handle if and only if some Close has timed out; and that one's context was cancelled |
| TempFileService.PublishedIsServed | internal/fetcher/store_tempfile.go:388-437 | A read whose region is published when it starts or looks at the counter never waits, can always take its next step, returns after at most nine steps of its own, and while no Close has begun does not fail because of the download, a context or a Close; without an error it has exactly its region |
| TempFileService.WhyReadFails | internal/fetcher/store_tempfile.go:361-425 | In any run: ErrClosed only after a Close began; an error of the context only with its own context cancelled, or with the download stopped by its cancelled one; an error of the download only if that very error is recorded; the last two only if the read found its region unpublished |
| TempFileService.FailedFileRead | internal/fetcher/store_tempfile.go:439-456 | A file read that fails after n bytes returns the first n bytes of the region beside the error |
| TempFileService.CancelledReaderLeaves | internal/fetcher/store_tempfile.go:408-424 | A reader with a cancelled context is never blocked and takes at most ten more steps in any run, however many tokens arrive |
| TempFileService.WaiterBlockedIff | internal/fetcher/store_tempfile.go:415-424 | A waiting reader has no step if and only if its context lives, no token is waiting, and both channels are open |
| TempFileService.TokenWakes | internal/fetcher/store_tempfile.go:419-421 | A waiting reader can take a token, which sends it, and only it, back to look at the counter |
| TempFileService.PublishedWakes | internal/fetcher/store_tempfile.go:191-200 | A reader that waits with its region published has a wake-up there or coming, unless another reader took a token since it last looked |
| TempFileService.LostWakeupWitness | internal/fetcher/store_tempfile.go:391-425 | Of every non-empty file, a reachable state in which a reader is blocked although its bytes are announced |
| TempFileService.CounterIsWritten | internal/fetcher/store_tempfile.go:180-192 | When the downloader notifies, judges, polls or reads again, the counter equals the bytes on disk |
| TempFileService.NotifyLeavesToken | internal/fetcher/store_tempfile.go:194-200 | After a notification at least one token is waiting, whether or not the channel was full |
| TempFileService.ExitSignals | internal/fetcher/store_tempfile.go:136-138 | A downloader that has ended has closed both channels |
| TempFileService.DownloadEndsAs | internal/fetcher/store_tempfile.go:129-213 | A download that has ended recorded exactly the first thing that went wrong in the run; if nothing did, it delivered the whole body and announced the size |
| TempFileService.CancelledForAReason | internal/fetcher/store_tempfile.go:165-170 | The error of the context is recorded only after the context was cancelled |
| TempFileService.RemovedAfterCleared | internal/fetcher/store_tempfile.go:324-344 | The file is unregistered and removed, in this order, only after the handle was cleared and all readers had left |
| TempFileService.ClearedWasShut | internal/fetcher/store_tempfile.go:324-330 | In any run, a handle that was cleared had been closed before |
| TempFileService.CloseAwaitsDownloader | internal/fetcher/store_tempfile.go:291-303 | A Close whose context is not cancelled goes past the wait only when the downloader has ended |
| TempFileService.GivesUpOnReadersOnly | internal/fetcher/store_tempfile.go:313-322 | A Close gives up only while it waits for the readers, with its context cancelled |
| TempFileService.ExpiredCloseFinishes | internal/fetcher/store_tempfile.go:298-303 | When the wait for the downloader expires and no reader is left, the Close can finish by its own steps alone |
| ChunkCache.FetcherIsLRU | internal/fetcher/fetcher.go:112-155 | After any gets, `lruOrder` is exactly the newest capacity entries of the unbounded list of offsets by last use |
| ChunkCache.RecencyIsLastUse | internal/fetcher/fetcher.go:237-247 | The offsets behind x in that list are exactly those asked for after x's last use |
| ChunkCache.FetcherResidents | internal/fetcher/fetcher.go:237-258 | A chunk that was asked for is resident if and only if fewer than capacity distinct offsets were asked for since its last use |
| ChunkCache.FetcherHoldsOnlyUsed | internal/fetcher/fetcher.go:112-155 | Nothing is resident that was never asked for |
| ChunkCache.FetcherRunWellFormed | internal/fetcher/fetcher.go:237-258 | Over any gets `lruOrder` holds each cached offset once and nothing else, within the capacity |
| ChunkCache.RangeIsFIFO | internal/fetcher/store_rangelru.go:191-241 | After any gets from any state, `lruOrder` is exactly the last capacity fetched offsets, in fetch order |
| ChunkCache.RangeRunWellFormed | internal/fetcher/store_rangelru.go:307-325 | Over any gets `lruOrder` holds each cached offset once and nothing else, within the capacity |
| ChunkCache.FetchedChunkStays | internal/fetcher/store_rangelru.go:192-241 | From any state and over any gets, a fetched chunk, with data or with an error, is resident and was not fetched again if and only if fewer than capacity further chunks have been fetched; then every get of its offset returns it |
| ChunkCache.FetcherKeepsErrors | internal/fetcher/fetcher.go:112-155 | A chunk that a Fetcher fetched, with data or with an error, is resident all along if and only if fewer than capacity distinct offsets were asked for since its last use all along; then every get of its offset returns it |
| ChunkCache.ErrorAnswersAgain | internal/fetcher/fetcher.go:114-123 | In both stores, a get that would succeed is answered with the error of the get before |
| ChunkCache.RangeIsNotLRU | internal/fetcher/store_rangelru.go:192-198 | One history of four gets after which RangeLRUStore has evicted the chunk just used and Fetcher the other |
| ChunkCache.LRUIffHitsAreNewest | internal/fetcher/store_rangelru.go:191-241 | From any state and over any gets, RangeLRUStore goes through exactly the states of a cache that promotes on a hit if and only if every hit falls on the newest chunk |
| ChunkCache.MoveToEnd | internal/fetcher/store_rangelru.go:308-317 | The loop that both updateLRU functions start with moves, or adds, the offset to the newest end |
| ChunkRanges.RangesTile | internal/fetcher/store_rangelru.go:253-257 | A position lies in the range requested for a key if and only if the key is its chunk start: ranges are disjoint and cover [0,size) |
| ChunkRanges.StartIsKey | internal/fetcher/store_rangelru.go:162-163 | The chunk start of a position in the file is a chunk-aligned key in [0,size) whose range is not empty and holds the position |
| ChunkReads.ResultOk | internal/fetcher/store_rangelru.go:145-188 | Whatever chunks a ReadAt was handed, if each is the one asked for and agrees with the remote file or holds an error, the result keeps the contract; it has all min(len(p), size-off) bytes if and only if no chunk erred |
| ChunkReads.EachChunkOnce | internal/fetcher/store_rangelru.go:162-184 | A read asks first for the chunk that holds off and then each time for the chunk right after the last one |
| ChunkReads.ExtendedFromFile | internal/fetcher/store_rangelru.go:174-184 | One good chunk takes the read at least one byte further, to the end of the chunk or of the buffer, and what was copied is the file's content |
| ChunkReads.CopyFromChunk | internal/fetcher/store_rangelru.go:174-184 | The copy into the buffer writes exactly the chunk's part at the position, at least one byte, and nothing else |
| ChunkRequests.FetchChunk | internal/fetcher/store_rangelru.go:244-278 | fetchChunk of both stores: up to three attempts; the exact inclusive range if one that is made is answered, the last transport error if all fail, and the error of the context otherwise |
| ChunkRequests.AnsweredIff | internal/fetcher/store_rangelru.go:244-278 | A fetch gets its data if and only if it gets a slot and its first, second or third attempt is answered, with no delay before it cut short; all fail if and only if three are made and none is answered |
| ChunkRequests.OpensIff | internal/fetcher/store_rangelru.go:44-82 | A store opens if and only if the size is positive and the HEAD request is answered with 200 and byte ranges; each other case has its own error |
| RangeLRUStores.NewRangeLRUStore | internal/fetcher/store_rangelru.go:44-97 | The four failing exits in their order; otherwise a valid, empty store with the defaults for sizes that are not positive |
| RangeLRUStores.RangeLRUStore.IncRef | internal/fetcher/store_rangelru.go:107-109 | One reference more |
| RangeLRUStores.RangeLRUStore.DecRef | internal/fetcher/store_rangelru.go:112-122 | The release that reaches zero leaves a new, empty cache, also after Close; any other leaves the cache alone |
| RangeLRUStores.RangeLRUStore.CloseWithContext | internal/fetcher/store_rangelru.go:136-142 | Close drops the cache |
| RangeLRUStores.RangeLRUStore.UpdateLRU | internal/fetcher/store_rangelru.go:307-325 | The in-place promotion and eviction loop keep exactly the newest capacity entries |
| RangeLRUStores.RangeLRUStore.GetChunk | internal/fetcher/store_rangelru.go:191-241 | A hit returns what was cached and leaves the order alone, a miss returns and caches what the fetch gave; the chunk is the one asked for and agrees with the remote file or holds an error |
| RangeLRUStores.RangeLRUStore.ReadRounds | internal/fetcher/store_rangelru.go:154-187 | The loop ends; buffer, count and error are the outcome of its gets, each made in order; the rest of the buffer and the cache change exactly as specified |
| RangeLRUStores.RangeLRUStore.ReadAt | internal/fetcher/store_rangelru.go:145-188 | From any valid cache: EOF at or beyond the size, otherwise bytes of remote[off..] under the contract, and all min(len(p), size-off) of them if and only if no chunk erred |
| Fetchers.NewFetcher | internal/fetcher/fetcher.go:39-75 | The four failing exits in their order; otherwise a valid, empty fetcher |
| Fetchers.Fetcher.UpdateLRU | internal/fetcher/fetcher.go:237-247 | The offset is moved, or added, to the newest end |
| Fetchers.Fetcher.EvictOldChunks | internal/fetcher/fetcher.go:249-258 | The loop keeps exactly the newest eight entries of cache and order |
| Fetchers.Fetcher.GetChunk | internal/fetcher/fetcher.go:112-155 | A hit returns what was cached and promotes it, a miss returns and caches what the fetch gave; the chunk is the one asked for and agrees with the remote file or holds an error |
| Fetchers.Fetcher.ReadRounds | internal/fetcher/fetcher.go:82-109 | The loop ends; buffer, count and error are the outcome of its gets, each made in order; read-ahead starts if and only if the buffer was filled before the end of the file |
| Fetchers.Fetcher.ReadAt | internal/fetcher/fetcher.go:77-110 | From any valid cache: EOF at or beyond the size, otherwise bytes of remote[off..] under the contract, and all min(len(buf), size-off) of them if and only if no chunk erred |
| Fetchers.Fetcher.Prefetch | internal/fetcher/fetcher.go:214-235 | The loop with its early exit hands out exactly the offsets of the specification, whatever other callers make of the cache between its rounds |
| Fetchers.ReadAheadIs | internal/fetcher/fetcher.go:214-230 | The k-th next chunk is read ahead if and only if it is among the next n (sixteen in the loop), inside the file and not cached when its round looks |
| Fetchers.ReadAheadOnly | internal/fetcher/fetcher.go:214-230 | Nothing but chunk-aligned offsets after the position and inside the file is read ahead |
| Fetchers.ReadAheadAscends | internal/fetcher/fetcher.go:214-230 | No chunk is handed out twice, and nearer chunks come first |
| Fetchers.Fetcher.Close | internal/fetcher/fetcher.go:260-266 | Close empties cache and order and leaves the fetcher valid |
| ChunkFetchSafety.SingleFlight | internal/fetcher/store_rangelru.go:200-238 | In every reachable state an offset is in `activeReads` if and only if a caller is in its fetch section, and then only one is |
| ChunkFetchSafety.ClosedOnce | internal/fetcher/store_rangelru.go:234-238 | The done channel about to be closed is open, so none is closed twice |
| ChunkFetchSafety.WaitersRemembered | internal/fetcher/store_rangelru.go:200-211 | The channel of every waiter is closed, or it is the registered one of its offset and belongs to the caller that is fetching it |
| ChunkFetchSafety.BoundedConcurrency | internal/fetcher/store_rangelru.go:244-251 | The slots taken equal the callers issuing requests and never exceed the limit |
| ChunkFetchSafety.TransparentChunks | internal/fetcher/store_rangelru.go:191-278 | Under any concurrency, evictions, clears and cancellations, a chunk returned without an error is exactly its range of the remote file; the cache keeps chunk-aligned keys in [0,size) within its capacity |
| ChunkFetchSafety.TransparentReads | internal/fetcher/store_rangelru.go:145-241 | A ReadAt loop fed by competing getChunk calls keeps the contract, and is complete if and only if none of its calls returned an error |
| ChunkFetchSafety.StepData | internal/fetcher/fetcher.go:112-212 | Every caller step keeps the cache in agreement with the remote file and the caller's chunk with its offset |
| ChunkFetchSafety.ShortWaitChains | internal/fetcher/fetcher.go:124-164 | An unfinished caller can move without a cancelled context, or waits for one that can, or for a fetcher that waits for a slot holder that can: chains of at most two |
| ChunkFetchSafety.DeadlockFree | internal/fetcher/store_rangelru.go:200-251 | While some caller has not returned, some caller can move |
| ChunkFetchProgress.CallersFinish | internal/fetcher/fetcher.go:125-131 | A run without new callers contains a bounded number of moves, also with Fetcher callers that start over each time they are woken |
| ChunkFetchService.CachedChunkIsReturned | internal/fetcher/store_rangelru.go:192-217 | A caller that looks for its chunk and finds it, a woken waiter like any other, returns exactly the cached chunk, registers nothing, takes no slot and replaces no chunk |
| ChunkFetchService.MovesAreGets | internal/fetcher/fetcher.go:112-155 | Every move of a concurrent caller treats the cache as the sequential stores do: a hit, with or without promotion, and a stored miss are exactly their get; anything else leaves it alone |
| ChunkFetchService.ErrorIff | internal/fetcher/store_rangelru.go:191-241 | A move makes a caller return an error if and only if it found one cached, was woken with its chunk not in the cache, gave up waiting with its context cancelled, or publishes its own failed fetch |
| ChunkFetchService.WhyChunkFails | internal/fetcher/store_rangelru.go:191-278 | In any run, a call that returned an error made such a move; and if its own fetch failed, three requests of its own were lost, of which it reports the last, or its context was cancelled |
| ChunkFetchService.AnsweredIsReturned | internal/fetcher/store_rangelru.go:268-272 | An answered request becomes the chunk with exactly the requested bytes |
| ChunkFetchService.HeldChunkIsReturned | internal/fetcher/store_rangelru.go:222-240 | What a fetch gave is cached, published and returned unchanged |
| ChunkFetchService.RangeWaiterDoesNotFetch | internal/fetcher/store_rangelru.go:200-217 | In any run, a RangeLRUStore caller that waited for another's fetch makes no request of its own |
| ChunkFetchService.FetcherWaiterStartsOver | internal/fetcher/fetcher.go:125-131 | A Fetcher caller that waits goes on if and only if the fetch is over, whatever its context, and starts again |
| ChunkFetchService.CancelledCanGiveUp | internal/fetcher/store_rangelru.go:206-210 | A caller with a cancelled context can give up wherever it would wait: for another's fetch, for a slot, or for a retry |
| ChunkFetchRuns.FailsAlone | internal/fetcher/store_rangelru.go:244-278 | From every reachable state in which nobody is fetching, a fetch can fail three times; its error is returned and cached |
| ChunkFetchRuns.SucceedsAlone | internal/fetcher/store_rangelru.go:191-241 | From every such state a fetch can succeed; its exact range is returned and cached |
| Staging.EvictAllStep | internal/fs/fs_fuse.go:582-587 | Clearing one more file after clearing a set is clearing the larger set: the walk over the map gives the same state in any order |
| StagingInvariants.CountsAreExact | internal/fs/fs_fuse.go:831-849 | After any callbacks openRef and refCount are the numbers of live handles of the file and of the store; every live handle has an issued number and a staged file, so Release finds it |
| StagingInvariants.StoresAreConserved | internal/fs/fs_fuse.go:402-545 | After any callbacks a store is open if and only if a staged file owns it, only one does, and a closed store with live handles had been evicted by the manager |
| StagingInvariants.NothingLeaks | internal/fs/fs_fuse.go:912-958 | With every tile cleared and every handle released (eviction on Release enabled), nothing is staged and every store is closed |
| StagingInvariants.SingleTileNoGarbage | internal/fs/fs_fuse.go:405-446 | After any callbacks, failing ones included, at most one file has its tile set; with eviction on Release enabled every staged file has its tile or an open handle |
| StagingInvariants.StagingSweeps | internal/fs/fs_fuse.go:407-414 | Even with eviction on Release skipped, after the next StageFile every staged file has its tile or an open handle |
| StagingInvariants.HandlesNeverReused | internal/fs/fs_fuse.go:841-847 | Over any run from any state, a handle that was not live before has a number not issued before |
| StagingInvariants.StageKeeps | internal/fs/fs_fuse.go:402-545 | StageFile keeps the whole invariant on each of its exits, whatever the manager evicts meanwhile |
| StagingInvariants.OpenKeeps | internal/fs/fs_fuse.go:801-866 | Open keeps the whole invariant |
| StagingInvariants.ReleaseKeeps | internal/fs/fs_fuse.go:912-964 | Release keeps the whole invariant, evicting or not |
| StagingService.StagesIff | internal/fs/fs_fuse.go:402-545 | StageFile succeeds if and only if the file is open with a store that is open and not evicted, or the space check (for temp files), the URL and the new store all work out |
| StagingService.StagedIsReady | internal/fs/fs_fuse.go:507-544 | After success the file is visible with a store that is open and not evicted; an open file keeps its name, its references and a usable store, any other is new with the given name; a new store is fresh |
| StagingService.FailedStagesNothing | internal/fs/fs_fuse.go:448-505 | After a failure the file is there if and only if it was open, visible but without a store, and no store was created |
| StagingService.StagingLeavesOthers | internal/fs/fs_fuse.go:407-414 | StageFile takes from other files exactly their tiles, and exactly the files that nobody has open; handles stay |
| StagingService.StagingMarks | internal/fs/fs_fuse.go:448-505 | Exactly the stores still open that the manager evicted for a step that was reached count as evicted |
| StagingService.StagedCanBeOpened | internal/fs/fs_fuse.go:801-855 | After a successful StageFile, Open with the file's name returns the next handle, on its store |
| StagingService.OpensIff | internal/fs/fs_fuse.go:808-832 | Open succeeds if and only if the file is staged under this name with a store that is open and not evicted; no entry if and only if there is no such file; a failure changes nothing |
| StagingService.OpenedHandle | internal/fs/fs_fuse.go:834-849 | A successful Open issues the next handle for the file and its store, counts it on both, and changes nothing else |
| StagingService.ReleasesIff | internal/fs/fs_fuse.go:916-929 | Release succeeds if and only if the handle is live; an unknown one changes nothing |
| StagingService.ReleaseTakesUnused | internal/fs/fs_fuse.go:939-955 | The file leaves at a Release if and only if it has no tile, no other handle, and eviction is not skipped; otherwise it only has one reference less; no other file is touched |
| StagingService.VisibleSurvivesRelease | internal/fs/fs_fuse.go:943-955 | A visible file, or one with another handle, survives a Release with its store, tile and name, and its store stays open |
| StagingService.VisibleStays | internal/fs/fs_fuse.go:801-964 | However often a visible file is opened and released, it stays staged with the same name and store, and the store stays open |
| StagingService.EvictTakesUnused | internal/fs/fs_fuse.go:562-576 | EvictStagedFile takes the file if and only if no live handle maps to it, closing its store; otherwise it only clears the tile |
| StagingService.EvictAllTakesUnused | internal/fs/fs_fuse.go:578-589 | Clearing all tiles leaves exactly the files in use, unchanged but for the tile |
| StagingService.EvictAllClosesUnused | internal/fs/fs_fuse.go:578-589 | It closes exactly the stores of the files that nobody has open |
| FuseFSModel.FuseFS.DoEvictLocked | internal/fs/fs_fuse.go:613-633 | On the shared objects: the entry is gone, its store is closed, nothing else changes |
| FuseFSModel.FuseFS.TryEvictLocked | internal/fs/fs_fuse.go:593-609 | Evicts if and only if both references are zero |
| FuseFSModel.FuseFS.EvictStaged | internal/fs/fs_fuse.go:562-576 | Clears the tile and evicts unless open |
| FuseFSModel.FuseFS.EvictAllStagedFiles | internal/fs/fs_fuse.go:578-589 | The loop over the map, in any order, does to every file at once what the specification says |
| FuseFSModel.FuseFS.EnsureSpaceAvailable | internal/fetcher/store_tempfile.go:111-115 | The manager's callbacks mark exactly the tracked stores whose files it removes |
| FuseFSModel.FuseFS.Restage | internal/fs/fs_fuse.go:421-446 | A file still staged gets its tile back and loses its store if the manager evicted it; the result says whether a store is left |
| FuseFSModel.FuseFS.MakeStore | internal/fs/fs_fuse.go:448-545 | Each failing step leaves what was done before it; success attaches a new open store to the old or new entry |
| FuseFSModel.FuseFS.StageFileCallback | internal/fs/fs_fuse.go:402-545 | The whole callback is exactly the step StageFile on every path |
| FuseFSModel.FuseFS.OpenCallback | internal/fs/fs_fuse.go:801-866 | The whole callback is exactly the step Open: both counters, the new handle, and the two error results |
| FuseFSModel.FuseFS.ReleaseCallback | internal/fs/fs_fuse.go:912-964 | The whole callback is exactly the step Release, including the unknown handle and the eviction |
| TempFileManagers.TempFileManager.Register | internal/fetcher/tempfile_manager.go:93-104 | The registry gains or replaces exactly this file |
| TempFileManagers.TempFileManager.Unregister | internal/fetcher/tempfile_manager.go:107-113 | The registry loses exactly this file |
| TempFileManagers.TempFileManager.GetFileCount | internal/fetcher/tempfile_manager.go:307-311 | The number of tracked files |
| TempFileManagers.TempFileManager.UpdateAccess | internal/fetcher/tempfile_manager.go:116-123 | Only the access time of a tracked file changes |
| TempFileManagers.TempFileManager.CheckSpaceAvailable | internal/fetcher/tempfile_manager.go:149-177 | The summing loop decides exactly whether the file fits into the available bytes, and together with all tracked files into the limit |
| TempFileManagers.TempFileManager.EntriesByLastAccess | internal/fetcher/tempfile_manager.go:203-222 | The snapshot holds each tracked file once, ordered by last access |
| TempFileManagers.TempFileManager.EvictUntilEnough | internal/fetcher/tempfile_manager.go:228-267 | The loop evicts a prefix of the snapshot, with its callbacks and removals, as the specification says |
| TempFileManagers.TempFileManager.EnsureSpaceAvailable | internal/fetcher/tempfile_manager.go:182-304 | Error, remaining registry and the log of callbacks and removals are those of the specification for an order by last access; every entry of the snapshot is still tracked when its turn comes |
| TempFileManagers.TempFileManager.EvictFile | internal/fetcher/tempfile_manager.go:240-260 | The file is forgotten, its callback runs if it has one, and then its removal is tried; the log says whether that worked |
| TempFileManagers.TempFileManager.CleanupAllFiles | internal/fetcher/tempfile_manager.go:315-345 | Every file is forgotten, and the failures are the tracked files that could not be removed |
| TempFileManagers.NeverTooMany | internal/fetcher/tempfile_manager.go:298-300 | "too many temp files" is never reported |
| TempFileManagers.EvictedAreOldest | internal/fetcher/tempfile_manager.go:219-222 | Whatever was evicted was last accessed no later than anything kept |
| TempFileManagers.CalledBackBeforeRemoved | internal/fetcher/tempfile_manager.go:246-253 | The callback of an evicted file comes directly before its removal |
| TempFileManagers.EvictedOnce | internal/fetcher/tempfile_manager.go:228-260 | Each evicted file is removed once, with the result its removal has, and called back once if it has a callback; no other file is |
| TempFileManagers.UsedAddsUp | internal/fetcher/tempfile_manager.go:158-164 | The bytes in use are zero for no file, and each registered file adds its size |
| TempFileManagers.RoomEvictsNothing | internal/fetcher/tempfile_manager.go:182-197 | With fewer than ten files, enough bytes available and the limit kept at the first look, nothing is evicted, whatever the disk says later |
| TempFileManagers.DecidedAtOnceIffRoom | internal/fetcher/tempfile_manager.go:182-197 | The first look alone decides for success if and only if there is that room |
| TempFileManagers.EvictsShortestPrefix | internal/fetcher/tempfile_manager.go:228-241 | A file is evicted only after a look, for each shorter prefix, that found ten files, too few bytes available, or the limit exceeded; unless the disk could not be read, the evicted prefix made room or is everything |
| TempFileManagers.HowItEnds | internal/fetcher/tempfile_manager.go:269-304 | Without room at the first look: the error of statfs if and only if one of the last looks was not answered, too little space if and only if the last one shows it, success if and only if it shows room |
| TempFileManagers.SuccessMeansRoom | internal/fetcher/tempfile_manager.go:269-304 | After success the file fits under the limit beside what is left, and there is room for one more file |
| TempFileManagers.CompleteOnHonestDisk | internal/fetcher/tempfile_manager.go:182-304 | If every removal frees exactly its bytes, the call succeeds if and only if the file would fit with every tracked file removed |
| TempFileManagers.BoundedOverRuns | internal/fetcher/tempfile_manager.go:182-304 | Over any sequence of sequential allocations, releases, accesses and clean-ups, at most ten files are tracked and their sizes stay within the limit |
| EvictionCallbacks.SpaceCheckMarks | internal/fetcher/tempfile_manager.go:228-253 | The callbacks of one space check mark exactly the stores of the evicted prefix by last access, whether or not the removals work |
| SleepHandshake.HeldOrPending | internal/fs/fs_fuse.go:1069-1106 | In every interleaving, with a live handle and before Stop, prevention is held, or an enable is pending, or the latest attempt failed |
| SleepHandshake.SettledIffNotFailed | internal/fs/fs_fuse.go:1069-1106 | Once all goroutines have finished with a handle open, prevention is held if and only if the latest attempt to switch it on did not fail |
| SleepHandshake.StaysHeldWhileOpen | internal/fs/fs_fuse.go:1088-1106 | Once held with no off switch about to act, it stays so while some handle is open, whatever stale off switches run |
| SleepHandshake.SwitchesAreConserved | internal/fs/fs_fuse.go:849-961 | In any run, every first handle has brought about one on switch and every Release one off switch, that has run or is pending |
| SleepHandshake.HeldNeedsSwitch | internal/fs/fs_fuse.go:313-319 | Prevention is held only if an on switch succeeded since the last Stop |
| SleepHandshake.HeldWithoutHandle | internal/fs/fs_fuse.go:960-961 | A run after which prevention is held with no handle open and nothing pending |
| SleepHandshake.HeldIffStale | internal/fs/fs_fuse.go:1069-1106 | Once all has settled without a handle, after any run, prevention is held if and only if its last on switch ran after the last handle was gone and its off switch had run, with nothing released or stopped since |
| SleepHandshake.NotHeldAfterFailure | internal/fs/fs_fuse.go:1078-1082 | A run after which a handle is open, nothing is pending and prevention is not held |
| Reconstruction.OffsetCountsBytes | internal/fs/fs_fuse.go:868-910 | The offset of a client that adds up Read's results is the number of bytes it has got |
| Reads.ReadReports | internal/fs/fs_fuse.go:893-909 | Read never loses bytes that were read; it is negative exactly for an unknown handle or a failure without a byte, and zero exactly without a byte at the end or what passes for it |
| Reconstruction.PrefixSoFar | internal/fs/fs_fuse.go:868-910 | At every moment such a client holds a prefix of the content |
| Reconstruction.ZeroIsTheEnd | internal/fs/fs_fuse.go:893-902 | A zero result is the end of the content, or a failure that wraps io.EOF inside the file |
| Reconstruction.Reconstructs | internal/fs/fs_fuse.go:868-910 | For reads that keep ReadOk: after a zero with no negative result, for any buffer sizes and despite short reads, the client holds exactly the content if and only if that zero was not a failure wrapping io.EOF |
| Reconstruction.ProgressOfReads | internal/fs/fs_fuse.go:868-910 | A client gets to a zero or a failure after at most one call for each byte |
| Reconstruction.TempFileReadOk | internal/fetcher/store_tempfile.go:353-456 | In every interleaving TempFileStore keeps the contract for the delivered body cut at the size, which is complete if and only if the body is long enough |
| EndToEnd.TempFileReconstructs | internal/fetcher/store_tempfile.go:353-456 | A client of a reachable TempFileStore state that read until a zero holds the delivered body cut at the size, unless that zero wraps io.EOF; it holds the declared number of bytes if and only if it does not and the body is long enough |
| EndToEnd.ChunkedReconstructs | internal/fetcher/store_rangelru.go:145-188 | A client of a reachable state of the chunk fetch that read until a zero, against any competing callers and despite short reads, holds exactly the remote file if and only if that zero does not wrap io.EOF |
| EndToEnd.ChunkedEarlyEnd | internal/fetcher/store_rangelru.go:259-278 | Of every file through every chunked store, a reachable state in which the first Read returns zero because three requests ended in io.EOF |
| EndToEnd.TempFileEarlyEnd | internal/fetcher/store_tempfile.go:160-164 | Of every non-empty file through a TempFileStore, a reachable state in which the first Read returns zero because the request ended in io.EOF |
| EndToEnd.ShortReadWitness | internal/fetcher/store_rangelru.go:168-172 | Of every file of more than one chunk, a reachable state with a short error-free read, whose second chunk failed |

## Left out

- TempFileStore and concurrent getChunk are step relations on values rather than classes: their point is the
  interleaving of goroutines, which a sequential class cannot show. Their objects are not shared by reference here.
- HTTP, TLS, OAuth, redirects and job listing: a request is a nondeterministic success with the exact range, or an
  error.
- A range request answered with status 200 and the whole file.
- Wall-clock time: retry delays, the 15 second limit of Read and the refresh of access times inside ReadAt.
- Mounting and unmounting, Getattr, Readdir, the read-only stubs, path parsing (Open takes the id and the name),
  HasActiveUploads, GetStagedFiles and CleanupStaleFiles.
- The native macOS packages, the user interface, logging, the watchdog and configuration.
- The rounding of the 70 % limit (the limit is a natural number), the width of integers, and a TempFileStore or a
  space check for a size that is not positive.
- The run-time misuse panics of sync.WaitGroup: the reader count is an ideal counter.
- Two concurrent callers of EnsureSpaceAvailable, and callbacks of fuseFS that overlap: each callback is one step, so
  the branch in which another caller made a store meanwhile (`internal/fs/fs_fuse.go:508-512`) is unreachable, and so
  is an eviction between Open's lookup and its increments.
- The internal failures of NewTempFileStore (temp file creation) are one failing exit of MakeStore.
- Runs that show a chunk fetched twice, or "chunk fetch failed" after a successful fetch: the step relation contains
  them, and the results hold in spite of them.
- RangeLRUStores.RangeLRUStore.ReadAt: after Close it is modelled where the original returns, at or beyond the size
  and for an empty buffer; elsewhere the original fetches a chunk and then panics on storing it into a nil map.
- RangeLRUStores.RangeLRUStore.GetChunk: requires that the store has not been closed, for the same reason.
- FuseFSModel.FuseFS.EnsureSpaceAvailable: the evicted stores are a parameter, so the results hold for every choice;
  EvictionCallbacks.SpaceCheckMarks says which choice the manager makes.
- TempFileManagers.TempFileManager.EntriesByLastAccess: leaves the order of equal access times open, as sort.Slice
  does.
- TempFileManagers.BoundedOverRuns: an allocation registers its file only after its own space check succeeded, and the
  size of the disk does not change.
- ChunkReads.CopyFromChunk, ChunkRequests.FetchChunk and ChunkCache.MoveToEnd stand for the loops that both chunked
  stores repeat.
- The ReadAt loops are split into GetSomehow, ReadPiece, ReadRound and ReadRounds, which the source has as one body.
- The Status and ModTime fields of staged files, and the paths in fhToPath, which the original only writes and deletes;
  here fhToPath holds the name given to Open.
- A failure of os.Remove at the end of CloseWithContext, which the original reports after everything else is done.
