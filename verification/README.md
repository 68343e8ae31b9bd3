# Verified model of shrinkr's stateful parts

shrinkr is a URL shortener: a redirect looks a short code up in a cache and then in a database,
sends a click event to a log, and a worker inserts the clicks in batches; some routes are
rate-limited with a sliding window. This project models the parts with state that outlives a
call, and proves what they keep over whole runs.

**Click ingest.** `Batcher.dfy` is the size-and-linger batcher. `Ingest.dfy` is the worker as a
step machine: what a poll returns, how a flush or a commit ends, when a timed-out insert finishes
and when the process dies are choices of the environment, and each proof is about all of them.
`IngestInvariants.dfy`, `IngestSafety.dfy` and `IngestLinger.dfy` prove what holds in every
reachable state. `PollLoop.dfy` is the poll loop as a function of what its environment does, over
any number of lifetimes, proved to take only steps of that machine; `ClickConsumer.dfy` is the loop
itself, with its client, repository and batcher as objects, proved to compute that function. A log
is fixed for a run and holds everything a partition ever receives; since a poll may return nothing
at any time, messages that arrive during the run are covered. The click's offset travels with the
event so that properties can name it; the loop never decides anything by it.

**Rate limiter.** `SlidingWindow.dfy` states the limit over the full history of admissions and
proves its bounds; `SlidingExcess.dfy` proves that they are attained, and for which limits the limit
can be passed. `RateLimiter.dfy` is the limiter as it runs, with two counters whose keys expire
(in milliseconds, while the limiter reads whole seconds), and proves that its verdicts are those of
the full history, whenever the store drops expired keys. `CounterKeys.dfy` is about the key strings
and says exactly which clients and routes would share a counter: on the routes that have the limiter
(src/api/v0/__init__.py:8-13) none do, whatever X-Forwarded-For carries.
The estimate is compared after multiplying by the window, so it is exact; a window has at least one
second, as the configuration demands (src/config/rate_limiter.py:12-14).

**URL store.** `Urls.dfy` is the table, `UrlService.dfy` the service in its unit of work with
savepoints, `Api.dfy` the redirect and the handlers over the cache for requests that run one after
the other, and `CacheRaces.dfy` the same requests interleaved step by step; `CacheStaleness.dfy`
says for how long, and exactly when, a deleted code can still be followed.

Where code and documentation differ, the model follows the code:

- The consumer says that the offsets of a failed flush are read again on the next poll
  (src/worker/consumer.py:149). Nothing seeks back, so this is true only after a restart;
  `FailedFlushIsCommittedPast` is the run in which they are lost.
- The consumer says that offsets are committed only after an insert (src/worker/consumer.py:9). The
  commit of a malformed message also passes the clicks buffered before it;
  `MalformedCommitPassesTheBuffer` is that run, and `AtLeastOnceExactly` says when delivery is at
  least once.
- Retry-After names the start of the next window. A client that was rejected in a full window is
  rejected there once more, and admitted one second later (`RecoveryAfterRejection`).
- The limiter says that it avoids the boundary spike. It does at the boundary
  (`NoDoublingAtTheBoundary`); later in a window more than the limit L can be admitted within one
  window's length. With a window of W seconds a stretch of N > L admissions shorter than W exists
  exactly when W * N < W * (L + 1) + L * (W - 2) (`WorstCaseExactly`), so the limit is kept within
  every window's length if and only if W is at most 2 or L is 0 (`KeptExactlyForShortWindows`).
  `SlidingBoundIsTight` has the exact reach for each count and second.
- A deactivated link still redirects (`DeactivationKeepsRedirects`).
- Entries are invalidated on delete, but a redirect in flight can cache the row again
  (`StaleFillOutlivesDelete`). In any state without the code, it is never followed again if and only
  if no live entry of it is cached and no request in flight holds its row
  (`NeverFollowedAgainExactly`), so an invalidation right after its delete ends the redirects exactly
  when nobody holds the row (`InvalidationEndsRedirects`); otherwise `BoundedStaleness` says for how
  long they can go on.

## Model

| member | source | states |
|---|---|---|
| Batching.Batcher.Add | src/worker/batcher.py:22-25 | the item goes last, and only the first item of a buffer starts the timer |
| Batching.Batcher.ShouldFlush | src/worker/batcher.py:27-33 | due exactly when the buffer is non-empty and is full or has lingered |
| Batching.Batcher.Drain | src/worker/batcher.py:35-39 | hands over the whole buffer in order and resets buffer and timer |
| Batching.LingerDeadline | src/worker/batcher.py:22-39 | with checks at most D apart, for every interleaving of adds and checks each item is drained within D or in less than linger + D, and the timer belongs to the oldest item |
| Batching.NoEarlyFlush | src/worker/batcher.py:27-33 | in every interleaving of adds and checks, each batch drained is full or its oldest item had lingered |
| Batching.DrainsInOrder | src/worker/batcher.py:22-39 | over any run, drained items and then the buffer are the added items in order, none lost or repeated |
| IngestInvariants.ClickConservation | src/worker/consumer.py:113-120 | in every state of any run, consumed = malformed + inserted + buffered + failed + in hand + timed out and still running |
| IngestInvariants.OrderAndSize | src/worker/consumer.py:111-124 | submitted batches, then the buffer, are the well-formed polled clicks in order; each batch has 1 to batch-size clicks and the buffer is below that at the loop head |
| IngestInvariants.BoundedDuplication | src/worker/consumer.py:111-157 | a click enters at most one batch of a lifetime and is inserted at most 1 + restarts times |
| IngestInvariants.CommitsMoveForward | src/worker/consumer.py:155-193 | from any state on, committed offsets never decrease and never pass the position |
| IngestInvariants.RowsComeFromTheLog | src/worker/consumer.py:111-157 | in every state of any run, each row is a well-formed click of the log |
| IngestLinger.WorkerLinger | src/worker/consumer.py:111-124 | in the loop of any lifetime the batches submitted are those the batcher drained: each click within D or in less than linger + D of its poll, each batch full or lingered; what the drain on stop submits had waited for less than linger at the last check |
| IngestSafety.LossAccounting | src/worker/consumer.py:110-193 | every well-formed click read past is inserted, buffered, in hand, or was put at risk by a failed, timed-out or interrupted flush, or by a crash after a commit had passed it in the buffer |
| IngestSafety.AtLeastOnceExactly | src/worker/consumer.py:140-193 | all states of a run keep "below committed means inserted" if and only if every commit is made when nothing uninserted lies below it: no failed or unlanded flush, and for a malformed message no buffered click of its partition |
| IngestSafety.AtLeastOnceWhenCautious | src/worker/consumer.py:140-193 | at-least-once holds if no commit follows a failed or still running flush within a lifetime and no malformed message is polled behind a buffered click of its partition |
| IngestSafety.FailedFlushIsCommittedPast | src/worker/consumer.py:147-157 | a run without malformed messages that commits past a click lost by a failed flush |
| IngestSafety.MalformedCommitPassesTheBuffer | src/worker/consumer.py:191-193 | a run without failed flushes in which a crash loses a click that a malformed message's commit had passed |
| IngestSafety.ExactlyOnce | src/worker/consumer.py:111-157 | over any number of lifetimes ended by a clean stop, the rows are exactly the well-formed clicks below the position, each once, and committed equals position |
| Consumer.KafkaConsumer.Poll | src/worker/consumer.py:42-51 | returns the next message of the partition and moves the position past it, or changes nothing |
| Consumer.UrlStatsBulkRepository.InsertMany | src/worker/repository.py:28-43 | for every event of the batch in order one row with its url id, user agent and ip address in those columns is appended, or none; an empty batch does nothing |
| Consumer.ClickConsumer.DecodeOrSkip | src/worker/consumer.py:181-193 | a malformed message is counted and committed past, a well-formed one commits nothing |
| Consumer.ClickConsumer.SubmitFlush | src/worker/consumer.py:130-159 | a batch seen to be inserted is counted and the positions are committed; one that failed or timed out is neither; raises exactly when that commit does |
| Consumer.ClickConsumer.FinishTimedOut | src/worker/consumer.py:161-179 | an insert left running lands as a whole and is counted as inserted, or fails as a whole and is not |
| Consumer.ClickConsumer.PollOnce | src/worker/consumer.py:112-117 | reads the message that is offered: the position moves past it, it is counted, and its click is buffered; a malformed one is counted as such, and raises when its commit does |
| PollLoop.TurnReads | src/worker/consumer.py:112-117 | an iteration moves the position past the message offered, and past nothing else, and takes up its click if it is well formed |
| PollLoop.TurnRaises | src/worker/consumer.py:110-128 | an iteration ends the loop exactly when the commit of a malformed message, or that of a flush, is made and raises |
| PollLoop.ExceptionEndsTheLoop | src/worker/consumer.py:110-128 | after such an iteration no other one happens, and nothing is drained |
| PollLoop.LateTakesEffect | src/worker/consumer.py:161-179 | an insert left running ends as the environment says, and affects nothing else |
| PollLoop.TurnInserts | src/worker/consumer.py:111-179 | an iteration inserts the late batches that land at its three points and then its own batch, exactly if that was due and seen to be inserted |
| PollLoop.StopInserts | src/worker/consumer.py:122-126 | the stop inserts the late batches that land and then what was buffered, exactly if its flush succeeds |
| PollLoop.LoopPosition | src/worker/consumer.py:111-117 | while no commit raises, the position of a partition is that at the start plus the polls of it, up to the end of its log |
| Consumer.ClickConsumer.Iteration | src/worker/consumer.py:111-120 | one pass of the loop is TurnStep, of which TurnReads and TurnRaises say what it reads and how it ends |
| Consumer.ClickConsumer.RunPollLoop | src/worker/consumer.py:103-128 | the whole loop, with the drain on stop and the exit on an exception, ends in LoopResult, of which LoopIsRun, LoopPosition and ExceptionEndsTheLoop speak |
| PollLoop.LoopIsRun | src/worker/consumer.py:103-128 | whatever the environment does, with late inserts ending at any point of an iteration, the loop takes a legal run of the protocol and closes; a clean one if nothing fails |
| PollLoop.LivesAreRun | src/worker/consumer.py:103-128 | any number of lifetimes, each started where the last one ended, are one legal run of the protocol |
| Consumer.ClickConsumer.FinishOrphaned | src/worker/consumer.py:161-179 | an insert that an ended process had left running lands or fails as a whole, and counts for no later process |
| Consumer.StartAfter | src/worker/main.py:42-69 | a new consumer starts at the committed offsets with an empty batcher, over the same rows and with the unfinished inserts still running: the restart of the machine |
| Consumer.RunWorker | src/worker/consumer.py:103-128 | over any number of lifetimes, each row has the columns of a message of the log, and nothing is committed past the position; if nothing fails, each poll of a partition has read its next message, the position is committed, and the rows are, one to one and column by column, the well-formed messages below it |
| SlidingWindow.ServeIsLegal | src/di/rate_limiter.py:36-59 | any requests in time order leave a history in which each admission passed the test |
| SlidingWindow.WindowBound | src/di/rate_limiter.py:36-50 | each fixed window admits at most L |
| SlidingWindow.SlidingBound | src/di/rate_limiter.py:36-59 | a stretch from window k - 1 to e seconds into window k holds N admissions with W * N < W * (L + 1) + P * e, where window k - 1 admitted P |
| SlidingWindow.NoDoublingAtTheBoundary | src/di/rate_limiter.py:75-80 | such a stretch that ends in the first second of a window holds at most L |
| SlidingExcess.BurstIsLegal | src/di/rate_limiter.py:36-59 | the bound is attained: for every P <= L, e < W and c it leaves room for, some history admits P in one window and c more at second e of the next |
| SlidingExcess.SlidingBoundIsTight | src/di/rate_limiter.py:36-59 | a stretch of N admissions that ends e seconds into a window, after P in the one before, exists exactly when P <= L and W * max(N, P + 1) < W * (L + 1) + P * e |
| SlidingExcess.ExcessNeedsCarry | src/di/rate_limiter.py:75-80 | such a stretch can hold more than L exactly when P and e are positive |
| SlidingExcess.WorstCaseExactly | src/di/rate_limiter.py:75-80 | N > L admissions less than W seconds apart are possible exactly when W * N < W * (L + 1) + L * (W - 2) |
| SlidingExcess.KeptExactlyForShortWindows | src/di/rate_limiter.py:75-80 | at most L in every stretch shorter than W, in every history, if and only if W <= 2 or L = 0 |
| SlidingExcess.MoreThanTheLimitLater | src/di/rate_limiter.py:75-80 | an instance: three admissions in four seconds at two for each four |
| SlidingWindow.RecoveryAfterRejection | src/di/rate_limiter.py:44-47 | a rejection changes nothing, asks for 1 to W seconds, and ends at the reset exactly when the window was not full, and after it always |
| SlidingWindow.VerdictsNameNextWindow | src/di/rate_limiter.py:57-59 | every reply, allowed or rejected, has as its reset time the next multiple of the window after its request, and a rejected one asks for a retry then |
| SlidingWindow.RemainingIsSound | src/di/rate_limiter.py:54-59 | after a reply with r remaining the next r requests of the window are admitted whenever they come, and at the same second at most r + 1 |
| CounterKeys.CounterKeyInjective | src/di/rate_limiter.py:130-133 | a key determines its window and what stands before it, for all strings |
| CounterKeys.CollisionsExactly | src/di/rate_limiter.py:122-133 | for all strings, two pairs of client and route are counted together exactly when they are equal or one route is the other behind x and a colon, and the other client ends with that colon and x |
| CounterKeys.ShareCounterExactly | src/di/rate_limiter.py:122-133 | over all clients, two routes can share a counter if and only if one ends with a colon and the other |
| CounterKeys.DistinctTriplesDistinctKeys | src/di/rate_limiter.py:122-133 | on rooted routes without a slash after a colon, as those with the limiter are, keys are equal exactly when client, route and window are, whatever the client string |
| CounterKeys.LimitedRoutesAreServed | src/api/v0/__init__.py:8-13 | the routes that have the limiter start with a slash and have no slash after a colon |
| CounterKeys.SlashInClientCollides | src/di/rate_limiter.py:122-133 | an instance of a shared counter, on a route with a slash after a colon (none is registered) |
| RateLimiter.RateLimiter.ReadCounters | src/di/rate_limiter.py:39-40 | the two reads return the admissions of the previous and current window, expiry notwithstanding |
| RateLimiter.RateLimiter.Admit | src/di/rate_limiter.py:49-52 | the increment, with an expiry on the first one, keeps the counters in agreement with the history |
| RateLimiter.RateLimiter.Script | src/di/rate_limiter.py:31-59 | the script admits, counts and reports as the full history says |
| RateLimiter.RateLimiter.Call | src/di/rate_limiter.py:102-176 | the verdict is that of the full-history limiter and its reset the next multiple of W; an allowed call records one admission, a rejected one nothing and its Retry-After lies in 1 to W |
| RateLimiter.ServeAll | src/di/rate_limiter.py:102-176 | over any calls in time order, and whenever expired keys are dropped, the verdicts equal those of the limiter that keeps every admission, and each names the next multiple of W |
| RateLimiter.LiveCounters | src/di/rate_limiter.py:49-52 | every counter has an expiry, and a live one belongs to the current window or the two before it |
| RateLimiter.AtMostThreeLive | src/di/rate_limiter.py:49-52 | at any time at most three counters of a client and route are live |
| Urls.CreateIsAtomic | src/services/database/url.py:68-100 | creation adds one live row under the first free code, or changes no row, exactly when every code drawn is taken; codes stay unique |
| Urls.DeactivationRows | src/services/database/url.py:162-182 | exactly the live row of the code gets the given time as its mark, every other row stays, and there is a result exactly if there was such a row |
| Urls.ActivationRows | src/services/database/url.py:184-204 | exactly the deactivated row of the code loses its mark; a row that is live already stays and gives no result |
| Urls.RemovalRows | src/services/database/url.py:206-221 | exactly the rows without the code are left, unchanged |
| Urls.DrawnExactly | src/services/database/url.py:109-111 | the codes drawn are those of the shortest prefix of the draws with as many different codes as asked for |
| Urls.ActivateUndoesDeactivate | src/services/database/url.py:162-204 | deactivating works on a live row only and only once, and activating then restores the table |
| UrlService.UnitOfWork.Enter | src/repositories/uow.py:34-38 | the session sees the committed rows |
| UrlService.UnitOfWork.Exit | src/repositories/uow.py:45-54 | the database takes the session's rows on a normal exit and keeps its own when an exception passes |
| UrlService.UnitOfWork.Insert | src/repositories/base.py:79-85 | inserts under the next id, or violates uniqueness exactly when the code is taken, and aborts |
| UrlService.UnitOfWork.InsertMany | src/repositories/base.py:87-95 | one row for each target under its code, or a violation exactly when some code was taken before |
| UrlService.UrlService.GetOne | src/services/database/url.py:29-41 | the row of the code whatever its deleted_at, or NotFound exactly when there is none |
| UrlService.UrlService.Create | src/services/database/url.py:68-100 | the retries under savepoints add up to the atomic creation of CreateIsAtomic |
| UrlService.UrlService.CreateMany | src/services/database/url.py:102-140 | succeeds exactly when one of three sets of codes is free, and has then added one row for each target under exactly the codes of the first free one, which are those first drawn; otherwise the rows are unchanged |
| UrlService.UrlService.MarkAsDeleted | src/services/database/url.py:162-182 | marks exactly the live row of the code, or changes nothing |
| UrlService.UrlService.MarkAsActive | src/services/database/url.py:184-204 | clears the mark of exactly the deactivated row of the code, or changes nothing |
| UrlService.UrlService.Delete | src/services/database/url.py:206-221 | removes exactly the row of the code, or NotFound |
| UrlService.DrawCodes | src/services/database/url.py:109-116 | as many codes as asked for, all distinct: exactly those of the shortest prefix of the draws that has so many |
| Api.UrlCacheRepository.GetByShortCode | src/repositories/url.py:40-54 | a hit exactly while the entry lives |
| Api.UrlCacheRepository.SetShortCode | src/repositories/url.py:56-66 | the entry lives for six hours from now |
| Api.UrlCacheRepository.DeleteShortCode | src/repositories/url.py:68-77 | the entry is gone, the others stay |
| Api.Handlers.RedirectToUrl | src/api/redirect.py:26-64 | from the cache or not, redirects to the target of the row with the code and sends a click with its id, or is not found exactly when no row has the code; a miss caches the row for six hours, and cache and database stay in agreement |
| Api.Handlers.CreateShortUrl | src/api/v0/shortener/url/endpoints.py:85-101 | replies with the code of the one row it added and cached, the first free one, or changes nothing when all are taken; as the service without a cache, and keeps the agreement |
| Api.Handlers.ActivateShortUrl | src/api/v0/shortener/url/endpoints.py:55-77 | clears the mark of the deactivated row with the code and caches it, or is not found and changes nothing; as the service without a cache |
| Api.Handlers.DeactivateShortUrl | src/api/v0/shortener/url/endpoints.py:29-51 | marks the live row with the code and drops its key, or is not found and changes nothing; as the service without a cache |
| Api.Handlers.DeleteShortUrl | src/api/v0/shortener/url/endpoints.py:105-120 | removes the row with the code and drops its key, or is not found and leaves rows and cache alone; as the service without a cache |
| Api.ServeAll | src/api/redirect.py:37-64 | for every sequence of requests and every pattern of expiries and evictions, replies and clicks equal those of the service without a cache, and each redirect goes to a target exactly if its code was created with that target and not deleted since |
| Api.DirectFollowsCreation | src/services/database/url.py:29-221 | the same of the service without a cache, in terms of the requests and replies alone |
| Api.DirectKeepsCodesUnique | src/services/database/url.py:68-221 | no sequence of requests makes two rows share a code or gives an id to another row: a new row has an id never used before, an id keeps its code and target |
| Api.DeactivationKeepsRedirects | src/api/redirect.py:40-41 | activating or deactivating a code changes no redirect and no click |
| Api.DeleteEndsRedirects | src/services/database/url.py:206-221 | a delete ends the redirects of its code and of no other |
| CacheRaces.InterleavedCacheSafety | src/api/redirect.py:37-64 | under every interleaving, each cached or held row is one the database held for that code, and each redirect and click uses a target and id it had together |
| CacheRaces.NeverDeletedNeverMoves | src/api/v0/shortener/url/endpoints.py:40-116 | a code never deleted always redirects to the target, and clicks the id, given at creation |
| CacheRaces.UninterruptedIsDirect | src/api/v0/shortener/url/endpoints.py:29-120 | a request whose steps nothing interrupts changes the database, answers and keeps the agreement as the service without a cache |
| CacheStaleness.BoundedStaleness | src/repositories/url.py:40-66 | once a code is gone and not reissued, and the requests then in flight are done by d, its cache entry is dead at d + 21600 and each redirect of it answered from that state on was answered before then |
| CacheStaleness.StaleAfterDelete | src/api/v0/shortener/url/endpoints.py:115-116 | the bound holds from the delete itself, in every reachable state |
| CacheStaleness.NeverFollowedAgainExactly | src/api/redirect.py:37-42 | in any state without the code, no run that keeps it absent answers a redirect of it if and only if no live entry is cached and no request in flight holds its row |
| CacheStaleness.InvalidationEndsRedirects | src/api/v0/shortener/url/endpoints.py:115-116 | in every reachable state, a delete and its invalidation end the redirects of the code for good exactly when no request in flight holds its row |
| CacheStaleness.StaleFillOutlivesDelete | src/api/redirect.py:37-42 | an interleaving in which a deleted code still redirects 21599 seconds after its delete has finished |

## Left out

- Kafka, Redis and SQLAlchemy beyond the contracts above: one consumer with a fixed assignment, a commit without a message commits the position of every partition, transactions are atomic.
- Rebalancing, thread scheduling and process shutdown (a crash in the middle of an iteration is a step of the machine, not of the loop's methods): the join that blocks the event loop in src/worker/main.py is not modelled, so the claims about a clean stop are about the loop with an event loop that keeps running.
- Decoding: a message is well formed or malformed; the scaling of timestamps and errors other than ValueError are not modelled.
- A flush whose insert fails on the client after the database has committed it; a failed flush is one that inserted nothing.
- The cascade that removes click rows when their url is deleted.
- Floating point in the estimate of the script, clock skew, and the time between reading the clock and evaluating the script.
- Limiters with different windows on the same route, and the switch that turns the limiter off.
- Redis failures in a handler: a request of `Api` completes its cache step, while one of `CacheRaces` may die before it.
- UrlService.UrlService.CreateMany: the codes drawn are an arbitrary finite supply with enough distinct codes, because the drawing loop ends only with probability one; an empty list of targets is not modelled.
- The branch of the redirect for a missing row after the lookup (src/api/redirect.py:46-48) and the id -1 of a row without id (line 53): the lookup raises instead, and database rows have ids.
- Listing, filtering, sorting, bulk update, schemas, configuration, telemetry and the lag gauge.
