# POLKU in Dafny

POLKU is an event hub: messages pass middleware, wait in a ring buffer and are fanned out to
emitters, which may be wrapped for resilience. This project models the parts of its gateway
whose correctness is not visible from one function body, and proves laws about them over every
input, every run and every interleaving.

Code that several threads run at once is a step machine: each atomic access or critical section
is one step, a list of events is one interleaving, and the step function is total, so a theorem
about all event lists is a theorem about all runs. Weak compare-and-exchange may fail for no
reason. Code that one caller runs under a lock is also given in its own imperative form, as
classes and methods with the source's loops, proved against the same specification functions.
Where a class needs a history, it is kept in a ghost field.

| file | models |
|---|---|
| `TokenBucket.dfy` | the two-atomic token bucket, any number of threads |
| `RateLimiter.dfy` | the limiter as a class, and why its calls are runs of the bucket machine |
| `Throttle.dfy` | the map of buckets behind a read-write lock, with eviction |
| `CircuitBreaker.dfy` | gate, success and failure as separate critical sections, requests in flight |
| `Buffers.dfy` | the evicting queue, the ring buffer and the failure buffer |
| `Hub.dfy` | receiver, flusher, shutdown protocol and routed fan-out |
| `Pipeline.dfy` | the hub with the aggregator as its middleware |
| `Dedup.dfy` | the deduplicator against a specification that never forgets |
| `Retry.dfy` | backoff arithmetic over reals and the retry loop |
| `Resilience.dfy` | capture over breaker over retry, as the builder composes them |
| `Xorshift.dfy` | the xorshift64 generator, its lock-free loop, the sampler |
| `Registry.dfy` | the registry's routing index against the hub's filter |
| `Aggregator.dfy` | batching, route, metadata and payload merging |
| `Messages.dfy`, `Machine.dfy` | the message envelope and routing predicate; integers and arithmetic |

## Where the code and its documentation differ

The model follows the code. For each of these the project proves exactly when the documented
behaviour holds:

- A rate above one per nanosecond makes the refill interval zero and the next refill divide by
  zero (`PanicsExactlyOnExcessiveRate`).
- The 64-bit product of a refill wraps in a release build; admissions stay bounded, but a refill
  may credit too little (`RefillIsExactWhen`, `RefillsMergeWhen`, `RefillCanWrap`).
- "Maximum concurrent requests in half-open" is a budget per episode that successes never give
  back; when it is below the success threshold, as it is by default, a breaker that one caller
  tripped never closes again (`RecoversExactlyWhen`, `DefaultsDoNotRecover`, `NeverRecloses`).
- Last accesses in the throttle are relative to each bucket's creation, so eviction is least
  recently used only up to the buckets' ages, and always so only if the limit is at most one
  (`EvictionIsLruUpToAge`, `LruExactlyWhen`, `RecentBucketIsEvicted`); they are cut to 64 bits, so
  even that ends after 2^64 nanoseconds (`LruUpToAgeExactlyWhen`); a source limit of zero still
  keeps one bucket (`LimitHoldsExactlyWhen`).
- The ring buffer's push counter adds the occupancy at every push, and a capacity of zero counts a
  drop that did not happen (`NothingIsLostOrReordered`, `CountersBalanceExactlyWhen`).
- With batch size zero and a non-empty buffer, shutdown never completes (`ExitsExactlyWhen`).
- A clock reading older than a concurrent cleanup can re-admit a duplicate (`AgreesExactlyWhen`,
  `ThreadsAgreeExactlyWhen`, `StaleReadingHappens`).
- Jitter is applied after the delay cap (`MaximumHoldsExactlyWhen`).
- The registry delivers an event as often as it lists a name, the hub once
  (`RegistryMatchesHubExactlyWhen`); a wrapper replaces the name routing looks at
  (`WrappingHidesTheName`).
- Aggregating a broadcast with a targeted message narrows the broadcast
  (`RoutingSurvivesExactlyWhen`), and shutdown does not flush the aggregator
  (`NothingHeldBackExactlyWhen`).

Clocks, jitter, backend answers, message ids and the JSON and text libraries are parameters.

## Model

| member | source | states |
|---|---|---|
| `TokenBucket.ConfigureFacts` | gateway/src/middleware/rate_limiter.rs:38-56 | the capacity is burst x 1000 if that fits in 64 bits and else 2^64 - 1; the refill interval is the whole number of nanoseconds per message, n x rate <= 10^9 < (n + 1) x rate, zero exactly for rates above 10^9, and 2^64 - 1 for rate zero |
| `TokenBucket.FirstIntervalAdmitsTheBurst` | gateway/src/middleware/rate_limiter.rs:38-80 | while all readings lie within the first interval, every interleaving on a fresh bucket admits exactly the first burst of the calls that return |
| `TokenBucket.RateZeroNeverRefills` | gateway/src/middleware/rate_limiter.rs:36-53 | with rate zero every run with readings below 2^64 - 1 admits exactly the burst, never more |
| `TokenBucket.TokensAreConserved` | gateway/src/middleware/rate_limiter.rs:38-146 | in every interleaving the bucket never overfills, and tokens held, owed by threads, handed out and spilled add up exactly to the burst plus the claimed intervals; `lastRefill` is a whole number of intervals and never passes the latest reading |
| `TokenBucket.AdmissionsAreBounded` | gateway/src/middleware/rate_limiter.rs:61-146 | at any moment of any run, admissions are at most burst + latest reading / refill interval, with no assumption on clock order |
| `TokenBucket.AdmissionsByTime` | gateway/src/middleware/rate_limiter.rs:38-146 | if no reading is later than T, admissions are at most burst + T / (10^9 / rate) |
| `TokenBucket.RefusalMeansSpent` | gateway/src/middleware/rate_limiter.rs:61-80 | a call is refused only when tokens handed out, owed and spilled account for all but a fraction of a token of everything granted |
| `TokenBucket.SpillsOnlyWhenFull` | gateway/src/middleware/rate_limiter.rs:113-136 | tokens are lost only into a full bucket or when the 64-bit product wraps |
| `TokenBucket.IntervalsAreClaimedOnce` | gateway/src/middleware/rate_limiter.rs:85-112 | a refill interval has been claimed exactly when `lastRefill` has passed it, and by one exchange only |
| `TokenBucket.LostRacesAreBounded` | gateway/src/middleware/rate_limiter.rs:88-144 | a call's refill loop loses at most now / refill interval exchanges to other threads |
| `TokenBucket.ReturnedCallsCaughtUp` | gateway/src/middleware/rate_limiter.rs:85-146 | in every interleaving, once a call has returned, less than one interval before the reading it took is unclaimed |
| `TokenBucket.SoloCallsFinish` | gateway/src/middleware/rate_limiter.rs:61-146 | from every reachable state, a thread that runs alone returns from its call within seven steps |
| `TokenBucket.PanicsExactlyOnExcessiveRate` | gateway/src/middleware/rate_limiter.rs:39-96 | some interleaving divides by zero if and only if the rate exceeds 10^9 |
| `TokenBucket.WindowLaw` | gateway/src/middleware/rate_limiter.rs:61-146 | from any moment refilled up to t1 with nothing owed, any continuation read within t2 admits at most burst + (t2 - t1) / interval + 1 calls |
| `RateLimiting.RefillIsExactWhen` | gateway/src/middleware/rate_limiter.rs:96-136 | a refill credits every elapsed interval up to capacity if and only if the product fits in 64 bits or its remainder still fills the bucket |
| `RateLimiting.RefillsMergeWhen` | gateway/src/middleware/rate_limiter.rs:85-146 | refilling at t1 and again at t2 equals one refill at t2 if and only if the two wrapped credits do not overflow together or the single refill fills the bucket |
| `RateLimiting.RefillCanWrap` | gateway/src/middleware/rate_limiter.rs:113-121 | a concrete idle time after which the credited amount wraps |
| `RateLimiting.CallsAreARun` | gateway/src/middleware/rate_limiter.rs:61-146 | every sequence of calls is an interleaving of the step machine with the same level and admissions |
| `RateLimiting.CallsWindowLaw` | gateway/src/middleware/rate_limiter.rs:61-146 | the window law for calls of the limiter |
| `RateLimiting.FreshLimiterAdmitsTheBurst` | gateway/src/middleware/rate_limiter.rs:36-80 | a fresh limiter called n times before 10^9 / rate nanoseconds have passed (for rate zero, ever) admits exactly min(n, burst) |
| `RateLimiting.RateLimiter.constructor` | gateway/src/middleware/rate_limiter.rs:38-56 | starts full, with the capacity and interval of the configuration written out in numbers |
| `RateLimiting.RateLimiter.DoRefill` | gateway/src/middleware/rate_limiter.rs:85-146 | the claim loop has the sequential meaning of a refill, however often a weak exchange fails, and fails exactly on a zero interval |
| `RateLimiting.RateLimiter.CreditLoop` | gateway/src/middleware/rate_limiter.rs:119-137 | the credit loop tops the bucket up to capacity |
| `RateLimiting.RateLimiter.Acquire` | gateway/src/middleware/rate_limiter.rs:61-80 | one call refills and takes a token or refuses, as in the sequential meaning |
| `Throttling.MapIsBounded` | gateway/src/middleware/throttle.rs:198-233 | in every run the map holds at most max(1, limit) buckets |
| `Throttling.LimitHoldsExactlyWhen` | gateway/src/middleware/throttle.rs:217-233 | with nobody inside, the map stays within its limit in every run if and only if the limit is at least one (or every call panics): a limit of zero keeps one bucket |
| `Throttling.ResidentBucketIsPrivate` | gateway/src/middleware/throttle.rs:57-227 | in every run a resident bucket equals a private token bucket born when the source got it and run on exactly the steps its own callers took since, each reading the common clock since that birth modulo 2^64; its stored access is the time since its birth at which the caller that stored last had read the clock; the answers callers of the source got are those of its buckets |
| `Throttling.EveryCallCatchesUp` | gateway/src/middleware/throttle.rs:96-166 | in every run, once a call of a resident source has returned, its bucket has been refilled up to the common-clock moment at which the call started: less than one interval of the age modulo 2^64 is unclaimed |
| `Throttling.AdmissionsPerSource` | gateway/src/middleware/throttle.rs:57-245 | callers of a source are answered yes at most (1 + departures of its bucket) x burst + elapsed / interval times, and never when the interval is zero |
| `Throttling.ZeroIntervalAnswersNobody` | gateway/src/middleware/throttle.rs:57-227 | with a zero interval no call of any run is answered and no bucket outlives the call that made it |
| `Throttling.LruExactlyWhen` | gateway/src/middleware/throttle.rs:163-172 | every eviction of every run removes a least recently used bucket on the common clock if and only if the limit is at most one (or every call panics) |
| `Throttling.RecentBucketIsEvicted` | gateway/src/middleware/throttle.rs:236-239 | for every limit of two or more, a run that evicts the bucket created and used at time 2 (stored access 0) and keeps the one used at time 1 (created 0, stored access 1) |
| `Throttling.EvictionIsLruUpToAge` | gateway/src/middleware/throttle.rs:163-245 | in every run of at most 2^64 - 1 nanoseconds an evicted bucket was used, on the common clock, later than another resident one by at most the difference of their ages |
| `Throttling.AccessIsTheLastUse` | gateway/src/middleware/throttle.rs:163-172 | in every run the stored access is the common-clock time of the last use minus the creation time, modulo 2^64 |
| `Throttling.LruUpToAgeExactlyWhen` | gateway/src/middleware/throttle.rs:163-245 | up to a horizon all evictions are least recently used up to age if and only if the horizon is below 2^64 nanoseconds (or at most one source is kept, or every call panics) |
| `Throttling.WrappedBucketIsEvicted` | gateway/src/middleware/throttle.rs:163-172 | for every limit of two or more, a run of 2^64 nanoseconds that evicts the bucket used last and keeps one of the same age used at time 1 |
| `Throttling.BucketMap.EvictLru` | gateway/src/middleware/throttle.rs:230-245 | removes exactly one bucket, with the smallest stored last access |
| `Throttling.BucketMap.GetOrCreate` | gateway/src/middleware/throttle.rs:207-226 | a known source changes nothing; a new one gets a fresh bucket, evicting one if the map is full |
| `Throttling.WriteStepMatchesTheMap` | gateway/src/middleware/throttle.rs:207-226 | the machine's write-lock step changes the map exactly as the in-place code |
| `CircuitBreaker.EveryRunKeepsTheStates` | gateway/src/emit/resilience/circuit_breaker.rs:114-204 | with any number of requests in flight, in terms of what callers saw: when closed, the failure count is the losses in a row, below the threshold; when open, the failure time is that of the latest reported failure; when half-open, successes count the wins in a row of this episode, below the threshold, and probes its admissions, between one and the budget, each succeeded or in flight; the open count is the half-open entries plus one while open; rejections are counted exactly |
| `CircuitBreaker.RequestsAreAdmittedExactlyWhen` | gateway/src/emit/resilience/circuit_breaker.rs:114-150 | in any run a request is admitted always when closed, when open if and only if the reset timeout has passed since the latest reported failure, when half-open if and only if fewer than the maximum were admitted in this episode |
| `CircuitBreaker.ResultsMoveTheState` | gateway/src/emit/resilience/circuit_breaker.rs:153-204 | in any run a result trips the breaker on the threshold-th failure in a row, re-opens it on any half-open failure, closes it on the threshold-th half-open success, and otherwise keeps the state |
| `CircuitBreaker.ProbingIsRateLimited` | gateway/src/emit/resilience/circuit_breaker.rs:114-204 | half-open entries are at least the reset timeout apart, hence at most T / timeout by time T |
| `CircuitBreaker.RecoversWithinThreshold` | gateway/src/emit/resilience/circuit_breaker.rs:114-169 | if the threshold is within the budget, every reachable state with nothing in flight closes within threshold calls, all admitted, the first at least the reset timeout after the latest reported failure |
| `CircuitBreaker.NeverRecloses` | gateway/src/emit/resilience/circuit_breaker.rs:114-204 | otherwise a breaker tripped by one caller never closes again |
| `CircuitBreaker.SpentBudgetIsAbsorbing` | gateway/src/emit/resilience/circuit_breaker.rs:139-148 | half-open with the budget spent and nothing in flight rejects everything forever |
| `CircuitBreaker.RecoversExactlyWhen` | gateway/src/emit/resilience/circuit_breaker.rs:114-204 | a recovered backend always closes the breaker if and only if success threshold <= max(1, half-open budget) |
| `CircuitBreaker.DefaultsDoNotRecover` | gateway/src/emit/resilience/circuit_breaker.rs:38-47 | the default configuration fails that condition |
| `CircuitBreaker.DefaultsInUse` | gateway/src/emit/resilience/circuit_breaker.rs:38-47 | the default breaker opens after five failures, admits again from 30 seconds on, and never closes for one caller |
| `CircuitBreaker.FailingBackendIsSpared` | gateway/src/emit/resilience/circuit_breaker.rs:213-228 | with one caller and a failing backend, requests let through by time T are at most threshold + T / timeout |
| `CircuitBreaker.CircuitBreakerEmitter.ShouldAllowRequest` | gateway/src/emit/resilience/circuit_breaker.rs:114-150 | the gate in place, against its specification |
| `CircuitBreaker.CircuitBreakerEmitter.RecordSuccess` | gateway/src/emit/resilience/circuit_breaker.rs:153-169 | the success record in place |
| `CircuitBreaker.CircuitBreakerEmitter.RecordFailure` | gateway/src/emit/resilience/circuit_breaker.rs:172-204 | the failure record in place |
| `BoundedQueue.PushKeepsTheNewest` | gateway/src/buffer.rs:51-62 | pushing keeps exactly the newest elements that fit, evicts the rest in order, and counts evictions plus the phantom drop of capacity zero |
| `BoundedQueue.PushInParts` | gateway/src/buffer.rs:51-62 | pushing a batch equals pushing its parts, in contents and drops |
| `BoundedQueue.NothingIsLostOrReordered` | gateway/src/buffer.rs:51-87 | over any run and capacity, exits in order followed by contents are what the operations pushed; drained, dropped and pushed as functions of the operations |
| `BoundedQueue.CountersBalanceExactlyWhen` | gateway/src/buffer.rs:55-71 | dropped + drained + cleared + held equals pushed in if and only if the capacity is at least one or nothing was pushed |
| `RingBuffers.RingBuffer.Push` | gateway/src/buffer.rs:51-72 | the push loop and its counters, against the specification |
| `RingBuffers.RingBuffer.Drain` | gateway/src/buffer.rs:77-87 | takes the oldest min(n, len) in order |
| `FailureBuffers.FailureBuffer.Push` | gateway/src/emit/resilience/failure_buffer.rs:87-104 | the same discipline with captured and dropped counters |
| `FailureBuffers.FailureBuffer.Drain` | gateway/src/emit/resilience/failure_buffer.rs:107-111 | takes the oldest min(n, len) in order |
| `FailureBuffers.FailureBuffer.Clear` | gateway/src/emit/resilience/failure_buffer.rs:140-142 | empties the buffer, counters untouched |
| `Hub.EveryRunDelivers` | gateway/src/hub.rs:220-348 | in every interleaving, the messages middleware let through before the channel closed split in order into evicted, drained and buffered, and each emitter has been offered exactly the drained messages routed to it, once and in order |
| `Hub.ArrivalsEvictExactlyWhenFull` | gateway/src/hub.rs:220-236 | in every run an arriving message joins the end of the buffer and evicts the oldest exactly when the buffer is full |
| `Hub.FlusherCatchesUp` | gateway/src/hub.rs:277-347 | from every reachable state, enough flusher steps without arrivals empty the buffer and offer every emitter all its drained messages |
| `Hub.ExitedMeansDelivered` | gateway/src/hub.rs:247-302 | after the flush loop exits the buffer is empty for good and every emitter has had all its drained messages; without evictions these are all the messages middleware let through |
| `Pipeline.EveryMessageIsAccountedFor` | gateway/src/hub.rs:220-259 | with the aggregator as middleware, in every interleaving the received messages are the members of complete groups followed by the remainder held; the aggregates of the groups split in order into evicted, drained and buffered, each emitter offered its own |
| `Pipeline.NothingHeldBackExactlyWhen` | gateway/src/hub.rs:247-259 | after exit without evictions every received message was in an offered aggregate if and only if the number received is a multiple of the batch size |
| `Hub.ShutdownDrainsAndExits` | gateway/src/hub.rs:277-302 | after the flag, at most max(1, ceil(L / batch)) more drains in any continuation, and exit after enough flusher steps |
| `Hub.ExitsExactlyWhen` | gateway/src/hub.rs:277-302 | the flush loop can exit if and only if the batch size is at least one or the buffer was empty |
| `Hub.SelectRouted` | gateway/src/hub.rs:313-317 | the filter loop selects the routed messages in order |
| `Hub.OfferBatch` | gateway/src/hub.rs:311-347 | every emitter gets its routed part whatever the others return |
| `Hub.FlushOnce` | gateway/src/hub.rs:293-347 | one turn of the flush loop over the real buffer |
| `Dedup.AgreesExactlyWhen` | gateway/src/middleware/dedup.rs:79-109 | under any interleaving of lookups and cleanups with any readings, the answers are those of the specification that never forgets (reject iff an acceptance of the id lies less than the ttl before) if and only if no lookup is a stale hit |
| `Dedup.ThreadsAgreeExactlyWhen` | gateway/src/middleware/dedup.rs:79-103 | in every interleaving of any number of threads the answers returned are those of the specification if and only if no lookup is a stale hit |
| `Dedup.CleanupIsUnobservable` | gateway/src/middleware/dedup.rs:79-109 | they agree whenever no lookup reads a clock older than an earlier cleanup |
| `Dedup.StaleReadingReadmits` | gateway/src/middleware/dedup.rs:80-91 | a concrete order of sections in which a stale reading re-admits |
| `Dedup.StaleReadingHappens` | gateway/src/middleware/dedup.rs:79-103 | two threads reach it: an interleaving that admits an id twice within its time-to-live |
| `Dedup.MonotoneCallsAgree` | gateway/src/middleware/dedup.rs:79-103 | with a monotone clock every call is answered as by the specification |
| `Dedup.AcceptedExactlyWhenFresh` | gateway/src/middleware/dedup.rs:79-109 | with a monotone clock a call is accepted if and only if no accepted call for the same id came less than the time-to-live before it |
| `Dedup.CleanupsComeEveryInterval` | gateway/src/middleware/dedup.rs:85-89 | called one at a time, exactly every (interval + 1)-th call cleans up |
| `Dedup.ThreadsCarryTheirCalls` | gateway/src/middleware/dedup.rs:79-91 | in every interleaving a thread works on the id and the clock reading with which its call started |
| `Dedup.MemoryIsBounded` | gateway/src/middleware/dedup.rs:85-101 | for calls one at a time, the map holds at most what the last cleanup left plus the interval plus one |
| `Dedup.MemoryIsBoundedForThreads` | gateway/src/middleware/dedup.rs:79-109 | for any interleaving of n threads, at most what the last cleanup left plus n plus one interval, plus an interval for each thread that has reset the counter and not yet cleaned up; where the 32-bit counter can wrap, two for each of those and one for each thread about to reset |
| `Dedup.Deduplicator.constructor` | gateway/src/middleware/dedup.rs:66-73 | starts empty with a cleanup interval of at least one |
| `Dedup.Deduplicator.CleanUp` | gateway/src/middleware/dedup.rs:106-109 | keeps exactly the entries with now < time + ttl |
| `Dedup.Deduplicator.CheckId` | gateway/src/middleware/dedup.rs:79-103 | one check with its counter and lazy cleanup: new exactly unless an entry with now < time + ttl exists; what the map holds afterwards |
| `Retrying.RetriesAlwaysWait` | gateway/src/emit/resilience/retry.rs:96-113 | only the first attempt has no delay, for every configuration and jitter |
| `Retrying.UnjitteredDelaysGrowToTheCap` | gateway/src/emit/resilience/retry.rs:101-112 | at neutral jitter, delays never decrease and never exceed the maximum |
| `Retrying.DelaysMultiplyBelowTheCap` | gateway/src/emit/resilience/retry.rs:101-104 | below the cap each unjittered delay is the previous one times the multiplier, starting from the initial delay |
| `Retrying.BaseIsTheCappedProduct` | gateway/src/emit/resilience/retry.rs:101-104 | for every attempt the unjittered delay is the smaller of the initial delay multiplied up and the maximum |
| `Retrying.DelayIsExact` | gateway/src/emit/resilience/retry.rs:96-113 | the whole delay: capped product, jitter offset, one microsecond floor, rounding down, 64-bit limit |
| `Retrying.JitterIsSymmetric` | gateway/src/emit/resilience/retry.rs:106-110 | jitter moves a delay by at most the factor either way, and mirrored draws move it by opposite amounts |
| `Retrying.DelayIsBounded` | gateway/src/emit/resilience/retry.rs:101-112 | a jittered delay is at most max(1, maximum x (1 + factor)) |
| `Retrying.MaximumHoldsExactlyWhen` | gateway/src/emit/resilience/retry.rs:104-112 | the maximum holds for every jitter value if and only if the stretched base stays within it |
| `Retrying.AttemptsStopAtFirstSuccess` | gateway/src/emit/resilience/retry.rs:172-216 | Ok exactly when one of the first max_attempts + 1 calls succeeds; stops there; else the last error |
| `Retrying.WaitingIsBounded` | gateway/src/emit/resilience/retry.rs:175-187 | total waiting is at most one bounded delay per retry |
| `Retrying.SleptAddsUp` | gateway/src/emit/resilience/retry.rs:175-187 | the time slept is the sum of the delays of the retries made |
| `Retrying.RetryEmitter.Emit` | gateway/src/emit/resilience/retry.rs:172-216 | the loop makes those attempts; retries grow by calls - 1, recoveries by one exactly on a late success |
| `Resilience.RetryLayer` | gateway/src/emit/resilience/retry.rs:172-216 | the retry wrapper in a stack: attempts, counters and final result |
| `Resilience.BreakerLayer` | gateway/src/emit/resilience/circuit_breaker.rs:213-228 | one gate per emit, one outcome reported exactly when admitted |
| `Resilience.StackMeaning` | gateway/src/emit/resilience/config.rs:102-121 | for every choice of wrappers and fault pattern: Ok iff admitted and one attempt succeeds, the exact backend calls, the error returned; on an error and only then the failure buffer is given one entry per event of the batch in order, or one for its first event with the batch size, each with the error and the inner name |
| `Resilience.CapturedStandsForTheBatch` | gateway/src/emit/resilience/failure_buffer.rs:186-212 | what is stored for a failed batch is the one list with these properties |
| `Resilience.WrappingHidesTheName` | gateway/src/hub.rs:313-317 | a message that lists the wrapped destination reaches it if and only if nothing was wrapped or it also lists the outermost wrapper's name |
| `Resilience.BuildComposesInOrder` | gateway/src/emit/resilience/config.rs:102-121 | exactly the configured wrappers are applied, retry inside the breaker inside capture, each in its initial state |
| `Resilience.CapturesAreAccountedFor` | gateway/src/emit/resilience/failure_buffer.rs:87-229 | over any run of emits, drains and clears, what the failing emits captured is in order what left the buffer and what it holds, and the counters balance exactly with room |
| `Resilience.RunIsOneCaller` | gateway/src/emit/resilience/circuit_breaker.rs:213-228 | a run of the stack is a run of the breaker's single caller, with at most max_attempts + 1 backend calls per admission |
| `Resilience.StackSparesAFailingBackend` | gateway/src/emit/resilience/config.rs:102-121 | backend calls by time T are at most (threshold + T / timeout) x (max_attempts + 1) |
| `Resilience.StackNeverRecloses` | gateway/src/emit/resilience/config.rs:102-121 | a stack whose budget is below the threshold stays locked out once tripped |
| `Resilience.CaptureFailure` | gateway/src/emit/resilience/failure_buffer.rs:186-215 | the error path builds the failed list, entry by entry as described, and pushes it to the real buffer |
| `Xorshift.StepIsABijection` | gateway/src/middleware/sampler.rs:77-80 | the step on 64-bit words has an explicit two-sided inverse |
| `Xorshift.OnlyZeroStepsToZero` | gateway/src/middleware/sampler.rs:77-80 | only zero steps to zero |
| `Xorshift.NextOnShifts` | gateway/src/middleware/sampler.rs:77-80 | the step is the three shifts in order, 13 left, 7 right, 17 left |
| `Xorshift.FirstDraws` | gateway/src/middleware/sampler.rs:77-80 | the first two values drawn from the word 1 |
| `Xorshift.OrbitIsACycle` | gateway/src/emit/resilience/retry.rs:36-51 | the first word of an orbit to repeat is the seed |
| `Xorshift.DrawsAreTheOrbit` | gateway/src/middleware/sampler.rs:71-92 | under every interleaving the values handed out are the successive orbit words, one per returning call |
| `Xorshift.SamplerExtremes` | gateway/src/middleware/sampler.rs:54-97 | in every run threshold zero keeps nothing and the maximum keeps everything |
| `Xorshift.ThresholdsAreInclusive` | gateway/src/middleware/sampler.rs:95-97 | a word equal to the threshold is kept and the next one is not |
| `Xorshift.NextThresholdKeeps` | gateway/src/middleware/sampler.rs:95-97 | the next higher threshold still keeps the boundary word |
| `Xorshift.ThresholdsAreMonotone` | gateway/src/middleware/sampler.rs:95-97 | a higher threshold keeps whatever a lower one does |
| `Xorshift.SamplerSeedIsTheOddOne` | gateway/src/middleware/sampler.rs:54-65 | the state starts as the seed with only its lowest bit changed, to one |
| `Xorshift.Sampler.constructor` | gateway/src/middleware/sampler.rs:54-65 | the seed is made odd, hence non-zero |
| `Xorshift.Sampler.NextRandom` | gateway/src/middleware/sampler.rs:71-92 | one draw advances the state by one step, however often the exchange fails |
| `Xorshift.Sampler.ShouldSample` | gateway/src/middleware/sampler.rs:95-97 | keeps exactly words up to the threshold |
| `Registry.RegistryMatchesHubExactlyWhen` | gateway/src/registry.rs:140-186 | an emitter's multiset of events equals the hub's filter if and only if no event lists its name twice |
| `Registry.OffersFollowTheInput` | gateway/src/registry.rs:140-152 | broadcasts and targeted events keep the input order, a broadcast once and a targeted event as often as it lists the name |
| `Registry.BroadcastsComeFirst` | gateway/src/registry.rs:154-186 | an emitter is called at most twice, never with nothing, and gets the broadcasts followed by its targeted events |
| `Registry.SuccessesAreTheOkCalls` | gateway/src/registry.rs:154-186 | the count is the number of calls that returned Ok |
| `Registry.Index` | gateway/src/registry.rs:141-152 | the loops collect broadcasts and, per name, its targeted events in order with repetition |
| `Registry.EmitToAll` | gateway/src/registry.rs:99-129 | returns the number of calls, one per emitter, that returned Ok |
| `Registry.EmitWithRouting` | gateway/src/registry.rs:140-186 | every emitter is offered the broadcasts then its targeted events, and the result counts exactly the successful calls |
| `Aggregation.RoutesAreTheSortedUnion` | gateway/src/middleware/aggregator.rs:167-170 | merged routes are the strictly sorted union of the members' routes |
| `Aggregation.MergedRoutesAreDetermined` | gateway/src/middleware/aggregator.rs:167-170 | a strictly sorted list of the members' routes is the merged list, whatever algorithm made it |
| `Aggregation.RoutingSurvivesExactlyWhen` | gateway/src/middleware/aggregator.rs:167-179 | the combined message goes exactly where some member would if and only if members are all targeted or all broadcast |
| `Aggregation.CombineEnvelope` | gateway/src/middleware/aggregator.rs:97-181 | id, time, source, type and routes of the aggregate |
| `Aggregation.CombinePayload` | gateway/src/middleware/aggregator.rs:97-147 | the payload of each strategy: last, first, lines that split back exactly when no payload has a newline, or the serialized values |
| `Aggregation.LastMemberWins` | gateway/src/middleware/aggregator.rs:149-157 | the aggregate's metadata: its own count under the count key, otherwise the value of the last member carrying the key, and no other key |
| `Aggregation.DecimalReadsBack` | gateway/src/middleware/aggregator.rs:153-157 | the count is written in decimal and reads back |
| `Aggregation.ConcatSplitsBackExactlyWhen` | gateway/src/middleware/aggregator.rs:131-141 | concatenated payloads split back into the originals if and only if none contains a newline |
| `Aggregation.EveryMessageIsBatchedOnce` | gateway/src/middleware/aggregator.rs:189-216 | in every run batches then held messages are the messages given, in order; processing emits full batches only, flushing shorter non-empty ones |
| `Aggregation.Aggregator.CombineAll` | gateway/src/middleware/aggregator.rs:97-181 | the combination loops, against the merging functions |
| `Aggregation.Aggregator.DoProcess` | gateway/src/middleware/aggregator.rs:205-216 | holds the message or combines a full batch |
| `Aggregation.Aggregator.DoFlush` | gateway/src/middleware/aggregator.rs:189-196 | combines what is held, if anything |

## Left out

- Weak memory orderings: atomics are sequentially consistent.
- 64-bit metric counters (pushed, dropped, drained, open and rejected counts) are unbounded naturals and do not wrap.
- Aggregation.Aggregator.CombineAll: sorts and deduplicates the routes with functions on sequences, as the source calls library routines; `MergedRoutesAreDetermined` makes the choice of algorithm irrelevant. Parsing, decoding and serializing JSON are parameters.
- Retrying.MaximumHoldsExactlyWhen: IEEE rounding, infinities and NaN are not modelled, nor is the exponent's wrap to a negative number past 2^31 attempts; negative multipliers are excluded.
- Conversion of sampling rates and random words to floating point, and statistical claims about the generator.
- gRPC, webhook and stdout emitters, the tonic server, metrics, configuration from the environment, and the one-branch middleware (filter, transform, enricher, validator, router).
- Health and shutdown calls on emitters, which only delegate.
