# Verified model of the gateway's traffic control

This project models, in Dafny, the parts of the API gateway that decide whether a request
passes: the token bucket, the two rate limiters built on it (in memory and in Redis), the
middleware that pushes per-client limits to them, the cache in front of the client store,
the circuit breaker with its retrying transport, and two text transformations (metric labels
and database URLs). `dafny verify dfyconfig.toml` checks everything.

Code that changes state is modelled by classes whose methods are each one critical section
(`TokenBucket`, `MemoryLimiter`, `RedisLimiter`, `CircuitBreaker`, `CachedStore`,
`RateLimitMiddleware`, `Config`) or by a method with the source's loop (`RoundTrip`,
`SanitizePath`). Their contracts equate the new state with a step function on values, and
the theorems are about runs of those step functions: every sequence or interleaving of calls,
of any length.

Conventions. The clock is a parameter of every operation, an integer number of nanoseconds
(milliseconds in the Redis scripts, as there); it is assumed not to step back only where a
contract says so. `float64` and Lua numbers are exact reals, so rounding and Lua's
number-to-string conversion are outside the model. Strings are sequences of runes. A mutex
makes a method one step. Cleanup, cache sweeps and Redis expiry may happen at any step. The
upstream, the client store and the outcome of a push to the limiter are parameters.

Where the repository's words and code differ, the model follows the code: the breaker's
comment promises exponential backoff and the README jitter, while the waits are 50 ms per
attempt (circuit_breaker.go:112); the README calls dynamic limits deduplicated, which holds
with the exceptions below.

What the proofs turned up:

- A breaker can be stuck half-open for good: if its probe leaves on one of the two early
  returns of `RoundTrip`, which record nothing, and no other round trip is in flight, no
  request is ever let through again. That is exactly the set of stuck states
  (`NeverAdmitsAgainIffWedged`, `AbandonedProbeWedges`, `OnlyAbandonmentWedges`).
- A client whose limit falls back to the default keeps being held to its last own limit
  (`LastOwnLimitIsEnforced`).
- Memo and limiter agree exactly until a reset or an eviction drops a remembered limit that
  is not the limiter's default (`MemoIsEnforcedIff`). From then on the client is held to the
  default, because the memo says its limit was pushed, exactly until one of its requests
  resolves to a third limit and pushes it (`ForgottenUntilNextLimit`).
- From the store's answer to the 429, over whole runs and on either backend, a new client's
  request passes exactly if every window of its requests stays within burst + rate * seconds
  (`RequestPassesIff`).
- Client ids `x` and `x:cfg` share a Redis key (`ClientsAreIndependentIff`).
- An invalidation holds in every run exactly if no answer of its key is waiting to be filled
  in when it is made (`InvalidationHoldsIff`); such an answer is served again for a whole time
  to live once it is (`LateFillUndoesInvalidate`).
- A `postgres://` URL whose user is `postgresql` and whose password starts with `//` is not
  parsed back (`PostgresRoundTripIff`).
- Idle eviction can be noticed unless a drained bucket refills within two cleanup intervals
  and one tick (`EvictionIsInvisibleIff`).
- Expiry in Redis is invisible exactly if every override a client may be given fills within
  the time for which a bucket is kept that was last written under the default or under another
  of those overrides (`ExpiryIsInvisibleIff`). Besides arbitrary quick overrides, which fill
  in two seconds and a millisecond, one more is invisible exactly if it is quick too
  (`ExpiryIsInvisibleIffQuick`); alone, it is exactly if it fills in the default's time
  (`ExpiryIsInvisibleIffFillsInDefaultTime`). The middleware's overrides are all quick.
- Greedy admission is optimal for requests of one size and loses to a rival as soon as one
  request may be for more than one token (`GreedyIsNotOptimalForMixedSizes`).

## Model

| member | source | states |
|---|---|---|
| TokenBuckets.TokenBucket.constructor | internal/limiter/token_bucket.go:30-45 | a new bucket is full at its creation instant, for any capacity and rate the source does not panic on |
| TokenBuckets.TokenBucket.Allow | internal/limiter/token_bucket.go:49-51 | one token is granted and taken, or the bucket is only refilled |
| TokenBuckets.TokenBucket.AllowN | internal/limiter/token_bucket.go:55-71 | n > 0 tokens are granted and taken iff capacity and level plus refillRate * elapsed seconds reach n, else none; nothing at all happens for n <= 0 |
| TokenBuckets.TokenBucket.ShowTokens | internal/limiter/token_bucket.go:74-80 | the level rounded down, after a refill that is kept |
| TokenBuckets.TokenBucket.Reset | internal/limiter/token_bucket.go:83-89 | the bucket equals one created at that instant |
| TokenBuckets.TokenBucket.DoRefill | internal/limiter/token_bucket.go:95-114 | refillRate * elapsed seconds are added, up to capacity; no change when the clock has not advanced |
| TokenBuckets.DrainedGrantsIff | internal/limiter/token_bucket.go:55-114 | a drained bucket grants n > 0 after some nanoseconds iff n <= capacity and n <= refillRate * seconds |
| TokenBucketModel.RefillComposes | internal/limiter/token_bucket.go:95-114 | refilling at t1 and then t2 gives the same bucket as refilling at t2 |
| TokenBucketModel.GrantsIffTokens | internal/limiter/token_bucket.go:55-80 | a request for n > 0 succeeds iff n is at most the number of tokens shown at that instant |
| BucketConformance.LevelIsTightestWindow | internal/limiter/token_bucket.go:55-71 | over any run, the level at an instant is the minimum, over all window starts, of burst + rate * length less what the window handed out |
| BucketConformance.AdmitsIffEveryWindowFits | internal/limiter/token_bucket.go:55-71 | a request is admitted iff no window ending with it would exceed burst + rate * length |
| BucketAllowance.NoWindowOverspends | internal/limiter/token_bucket.go:10-14 | no window of any run hands out more than capacity + refillRate * seconds |
| GreedyOptimality.GreedyIsOptimal | internal/limiter/token_bucket.go:49-71 | for requests of one size, no policy on the same bucket has admitted more at any prefix |
| GreedyOptimality.GreedyIsNotOptimalForMixedSizes | internal/limiter/token_bucket.go:55-71 | in every bucket, refusing a request for m tokens admits capacity requests for one where greed admits 1 + capacity - m, so greed loses iff m > 1 |
| BucketLedger.TokensAreConserved | internal/limiter/token_bucket.go:55-114 | for any clock, level + handed out + lost to the clamp = initial level + rate * time recorded, with the level always between 0 and capacity |
| BucketLedger.ObservationIsFree | internal/limiter/token_bucket.go:74-80 | striking every observation from a run changes no answer |
| MemoryLimiters.MemoryLimiter.constructor | internal/ratelimit/memory_limiter.go:29-41 | an empty limiter with any burst and rate; a cleanup interval that is not positive becomes one second |
| MemoryLimiters.MemoryLimiter.GetOrCreateBucket | internal/ratelimit/memory_limiter.go:96-115 | the client's bucket, a new full one only if there was none, stamped as used now |
| MemoryLimiters.MemoryLimiter.ConsumeFetched | internal/ratelimit/memory_limiter.go:49-52 | the second half of AllowN touches the fetched bucket only, even if it has been dropped from the map |
| MemoryLimiters.MemoryLimiter.AllowN | internal/ratelimit/memory_limiter.go:49-52 | fetch, then consume, each at its own clock reading |
| MemoryLimiters.MemoryLimiter.Tokens | internal/ratelimit/memory_limiter.go:55-65 | the bucket's whole tokens, or the burst for a client without one; no bucket is created and no use is stamped |
| MemoryLimiters.MemoryLimiter.Reset | internal/ratelimit/memory_limiter.go:68-73 | the client leaves the map; its bucket object is untouched |
| MemoryLimiters.MemoryLimiter.SetLimit | internal/ratelimit/memory_limiter.go:76-84 | a new full bucket with the given burst and rate replaces the client's |
| MemoryLimiters.MemoryLimiter.DeleteIdle | internal/ratelimit/memory_limiter.go:147-151 | the loop deletes exactly the entries last used before the threshold |
| MemoryLimiters.MemoryLimiter.Cleanup | internal/ratelimit/memory_limiter.go:137-152 | exactly the entries idle for more than two intervals go |
| BucketGenerations.AdmissionsBoundedAcrossGenerations | internal/ratelimit/memory_limiter.go:49-115 | under every interleaving of the atomic steps a client gets at most the sum, over all buckets ever created for it, of burst + rate * age |
| BucketGenerations.IndexIsInjective | internal/ratelimit/memory_limiter.go:96-115 | no two clients are ever led to one bucket |
| IdleEviction.ViewAfter | internal/ratelimit/memory_limiter.go:48-152 | a call changes what its own client can see and nothing of any other client |
| IdleEviction.IndexMirrorsHistory | internal/ratelimit/memory_limiter.go:48-152 | after any run the map holds exactly the clients that took tokens or were given a limit, since reset or two idle intervals, with the time of that last use; looking is no use |
| IdleEviction.EvictingRunsAlike | internal/ratelimit/memory_limiter.go:137-152 | from states a client cannot tell apart, runs with and without eviction answer it alike |
| IdleEviction.EvictionShows | internal/ratelimit/memory_limiter.go:137-152 | otherwise a concrete run gets a different answer because of an eviction |
| IdleEviction.EvictionIsInvisibleIff | internal/ratelimit/memory_limiter.go:137-152 | eviction is invisible in every run iff a drained bucket refills within two intervals and a tick |
| IdleEviction.TwoIntervalsSuffice | internal/ratelimit/memory_limiter.go:144-145 | rate * 2 * interval >= burst is enough |
| RedisLimiters.NewRedisLimiter | internal/ratelimit/redis_limiter.go:143-188 | an error for a burst or rate that is not positive or an unanswered ping, in that order, else an empty limiter with a default key prefix |
| RedisLimiters.RedisLimiter.RunTokenBucketScript | internal/ratelimit/redis_limiter.go:15-68 | the script's answer and the whole hash it leaves, with the override if there is one and the renewed time to live |
| RedisLimiterModel.ScriptGrantsStoredIff | internal/ratelimit/redis_limiter.go:44-67 | with a stored bucket the script grants n iff n <= burst and n <= level + rps * elapsed milliseconds / 1000, a clock that stepped back counting as 0 |
| RedisLimiters.RedisLimiter.AllowN | internal/ratelimit/redis_limiter.go:201-225 | a request for nothing succeeds without the script; any other has the script's answer |
| RedisLimiters.RedisLimiter.Tokens | internal/ratelimit/redis_limiter.go:72-109 | the level rounded down, or the burst for an absent key; nothing is stored |
| RedisLimiters.RedisLimiter.SetLimit | internal/ratelimit/redis_limiter.go:247-250 | the override is stored under its own key, and the bucket is kept |
| RedisLimiters.RedisLimiter.Reset | internal/ratelimit/redis_limiter.go:253-255 | bucket and override are both deleted |
| RedisLedger.ScriptConservesTokens | internal/ratelimit/redis_limiter.go:44-67 | conservation for any server clock, with the sum of its forward steps, which is the net change iff it never stepped back |
| RedisLedger.ScriptGrantsIffShown | internal/ratelimit/redis_limiter.go:50-108 | a request for n > 0 succeeds iff the query script shows at least n at that instant |
| RedisExpiry.ClientsAreIndependentIff | internal/ratelimit/redis_limiter.go:190-192 | calls for one client leave another's state alone, in every database, iff neither id is the other's with ":cfg" |
| RedisExpiry.PrefixesSeparateIff | internal/ratelimit/redis_limiter.go:138-192 | limiters with two key prefixes share no key iff neither prefix begins with the other |
| RedisExpiry.TimeToLiveFills | internal/ratelimit/redis_limiter.go:56 | the time to live is twice burst / rps, rounded up, plus one: at least two seconds, and long enough to fill an empty bucket |
| RedisExpiry.ExpiringRunsAlike | internal/ratelimit/redis_limiter.go:25-67 | from states a client cannot tell apart, runs with and without expiry answer it alike if its overrides all fill while buckets are kept |
| RedisExpiry.SlowOverrideShowsExpiry | internal/ratelimit/redis_limiter.go:25-67 | for any default and overrides of which one does not, a run gets a different answer because of expiry |
| RedisExpiry.ExpiryIsInvisibleIff | internal/ratelimit/redis_limiter.go:25-67 | dropping keys at any moments after their time to live changes no answer, in every run of AllowN, Tokens, SetLimit and Reset with overrides from a given set, iff each of them fills within the time a bucket is kept under the default or any of them |
| RedisExpiry.ExpiryIsInvisible | internal/ratelimit/redis_limiter.go:56 | overrides that fill in two seconds and a tick are enough, whatever the default |
| RedisExpiry.MiddlewareLimitsAreQuick | internal/handler/middleware.go:134 | the middleware's overrides, with burst equal to rate, are such |
| RedisExpiry.ExpiryIsInvisibleIffQuick | internal/ratelimit/redis_limiter.go:56 | with one more override besides all such, expiry is invisible iff that one is such |
| RedisExpiry.ExpiryIsInvisibleIffFillsInDefaultTime | internal/ratelimit/redis_limiter.go:56 | with a single override, iff it fills in the time a bucket is kept under the default |
| BackendAgreement.KeepingRunsAgree | internal/ratelimit/redis_limiter.go:34-108 | without eviction and expiry the two backends answer a client alike, call by call, from any states that agree |
| BackendAgreement.BackendsAgree | internal/ratelimit/memory_limiter.go:49-115 | with the same burst and rate and a millisecond clock, a client without own limit gets the same answers from both backends, under unnoticeable eviction in one and expiry in the other |
| CircuitBreakers.CircuitBreaker.constructor | internal/handler/circuit_breaker.go:31-37 | a new breaker is closed, with no failures |
| CircuitBreakers.CircuitBreaker.Allow | internal/handler/circuit_breaker.go:39-56 | the answer, and the move to half-open after the cooldown |
| CircuitBreakers.CircuitBreaker.RecordResult | internal/handler/circuit_breaker.go:58-73 | success closes; a failure counts, and opens at the threshold or from half-open |
| BreakerHistory.StateMirrorsHistory | internal/handler/circuit_breaker.go:39-73 | closed iff the trailing failures are fewer than the threshold; open since the last record with nothing admitted after it; half-open iff something was |
| BreakerHistory.BreakerRefinesPolicy | internal/handler/circuit_breaker.go:39-73 | for any calls, clock and threshold, the breaker answers as the policy on its history: trailing failures below the threshold (at least 1), or one admission per record once the cooldown has passed |
| BreakerHistory.ProbesAreSpaced | internal/handler/circuit_breaker.go:44-51 | any two admissions from the open state are more than a cooldown apart |
| BreakerHistory.ProbesAreFew | internal/handler/circuit_breaker.go:44-51 | in a span T there are at most 1 + T / (cooldown + 1) of them |
| BreakerHistory.OutageAdmissionsAreFew | internal/handler/circuit_breaker.go:39-73 | once tripped and until a success, the same bound holds for all admissions |
| BreakerProtocol.InvKept | internal/handler/circuit_breaker.go:81-135 | every step of every interleaving of round trips keeps the protocol's invariant |
| BreakerProtocol.HalfOpenHasItsProbe | internal/handler/circuit_breaker.go:43-55 | half-open, the probe that caused it has recorded nothing, and is in flight if no round trip took an early return |
| BreakerProtocol.EpisodeAdmitsOnlyItsProbe | internal/handler/circuit_breaker.go:52-54 | until a result is recorded a half-open breaker admits nothing else and stays half-open |
| BreakerProtocol.ProbeCallsAreFew | internal/handler/circuit_breaker.go:81-135 | in any stretch of a run that spans T, the probes let through in it make at most 3 * (1 + T / (cooldown + 1)) upstream calls |
| BreakerProtocol.NeverAdmitsAgainIffWedged | internal/handler/circuit_breaker.go:43-73 | no continuation admits a request iff the breaker is half-open with no round trip in flight |
| BreakerProtocol.AbandonedProbeWedges | internal/handler/circuit_breaker.go:93-111 | for every threshold and cooldown an early return of the probe reaches that state |
| BreakerProtocol.OnlyAbandonmentWedges | internal/handler/circuit_breaker.go:93-111 | without early returns it is unreachable |
| ResilientTransports.EndsAtFirstGoodElseLast | internal/handler/circuit_breaker.go:107-134 | the loop returns the first attempt below 500, else the last, or stops at the first wait that finds the context done |
| ResilientTransports.BufferBody | internal/handler/circuit_breaker.go:91-101 | the body is read, closed and made replayable with the same bytes |
| ResilientTransports.Attempts | internal/handler/circuit_breaker.go:107-131 | every attempt gets the whole original body; every reply not returned is closed once, the returned one not |
| ResilientTransports.RoundTrip | internal/handler/circuit_breaker.go:81-135 | all of that for one call: GET, HEAD, PUT and DELETE are tried until one attempt is below 500 or three have failed, every other method once; one record, of success iff a status below 500 is returned, on completed calls only |
| BreakerProtocol.StretchMatchesCalls | internal/handler/circuit_breaker.go:39-73 | from any state, a stretch of events moves the breaker as its calls do and lets their probes through |
| RoundTripProtocol.LoopTakesItsSteps | internal/handler/circuit_breaker.go:107-134 | whatever the upstream does, the loop's steps are possible in turn and end the trip as the loop ends, with the one record of a completed call |
| RoundTripProtocol.OthersDoNotHinder | internal/handler/circuit_breaker.go:81-135 | what other round trips do between them changes neither that nor how the trip ends |
| RoundTripProtocol.RoundTripFollowsProtocol | internal/handler/circuit_breaker.go:81-135 | so every admitted round trip, both early returns included, follows the protocol among any others |
| CachedStores.CachedStore.constructor | internal/storage/l1_cached_storage.go:33-45 | an empty cache; a time to live that is not positive becomes one minute |
| CachedStores.CachedStore.GetClientLimit | internal/storage/l1_cached_storage.go:49-83 | an empty key is an error, a live entry answers alone, and anything else is the store's answer, remembered unless it is another error |
| CachedStores.CachedStore.Invalidate | internal/storage/l1_cached_storage.go:86-90 | the entry goes, all others stay |
| CachedStores.CachedStore.Sweep | internal/storage/l1_cached_storage.go:107-114 | the loop deletes exactly the entries past their expiry, and keeps the others as they are |
| CacheRuns.CachedAnswersAreFresh | internal/storage/l1_cached_storage.go:49-83 | under every interleaving and any clock, a cached answer is one the store gave less than the time to live plus that fill's delay ago |
| CacheRuns.CachedAnswersAreYoung | internal/storage/l1_cached_storage.go:49-83 | with fills at most gap late, no cached answer is as old as ttl + gap |
| CacheRuns.InvalidatedUntilStaleFill | internal/storage/l1_cached_storage.go:62-90 | after an invalidation the key is served by the store or from answers given and filled in since, throughout a run, iff no earlier answer is filled in |
| CacheRuns.InvalidationHoldsIff | internal/storage/l1_cached_storage.go:62-90 | that is so in every run iff no storable answer of the key is waiting to be filled in at the invalidation |
| CacheRuns.LateFillUndoesInvalidate | internal/storage/l1_cached_storage.go:62-90 | otherwise its fill serves the old answer for a whole time to live, from any state |
| CacheRuns.CacheIsTransparent | internal/handler/middleware.go:111-124 | in front of an unchanging store the cache changes no resolved limit, after any history |
| CacheRuns.SweepIsInvisible | internal/storage/l1_cached_storage.go:98-117 | sweeping at any moments changes no answer and no decision to ask the store |
| CacheRuns.StoreQueriesAreFew | internal/storage/l1_cached_storage.go:58-80 | undisturbed lookups of one key that span T ask the store at most 1 + T / ttl times |
| ClientLimits.ResolveIsUsable | internal/handler/middleware.go:111-124 | a positive limit in the store's answer is the resolved one; without a store or a key, and for any other answer, the default is |
| LimitSync.StoredLimitIsApplied | internal/handler/middleware.go:67-138 | a positive stored limit l other than the default is enforced after the request as burst l and rate l, and a new client has l - 1 left |
| LimitSync.RateLimitMiddleware.SyncLimitIfNeeded | internal/handler/middleware.go:126-138 | a non-default limit not pushed last is pushed, and remembered if the push works; nothing else changes |
| LimitSync.RateLimitMiddleware.Handle | internal/handler/middleware.go:61-97 | resolve, push, take a token, read what is left, in that order; the limit is the positive stored one or the default, for which nothing is pushed; a limiter that fails lets the request through |
| LimitSync.StepKeepsMatchIff | internal/handler/middleware.go:126-138 | every request and every other call keeps memo and limiter in agreement iff it is not a reset or eviction of a remembered limit that differs from the default |
| LimitSync.MemoIsEnforcedIff | internal/handler/middleware.go:126-138 | on either backend, whatever pushes fail, throughout a run a remembered limit is the burst and rate the limiter enforces, and no memo means the default, iff there is no such reset or eviction |
| LimitSync.PushedOncePerChange | internal/handler/middleware.go:126-138 | if pushes work, their number is the number of changes in the client's non-default limits, the first counted, whatever is evicted |
| LimitSync.LastOwnLimitIsEnforced | internal/handler/middleware.go:126-138 | then, if none is dropped, the limiter enforces the client's last non-default limit, or the default if there was none |
| LimitSync.ResetRestoresDefault | internal/ratelimit/memory_limiter.go:68-73 | after a reset the default applies, in full, on either backend |
| LimitSync.FirstRequestIsHeldToOwnLimit | internal/handler/middleware.go:67-79 | a new client's first request passes and leaves its own limit less one, or the default burst less one |
| LimitSync.ForgottenUntilNextLimit | internal/handler/middleware.go:126-138 | once a remembered limit is dropped the default is enforced iff no request since has pushed a third limit |
| LimitSync.EvictionBreaksMemo | internal/ratelimit/memory_limiter.go:137-152 | after any request that pushes or takes, a cleanup more than two intervals later drops the client's own limit |
| RequestAdmission.DecidesLikeABucket | internal/handler/middleware.go:61-97 | on either backend, while a client's bucket is not dropped, its requests are decided as by one token bucket with the limit in force, whatever other clients do |
| RequestAdmission.RequestPassesIff | internal/handler/middleware.go:61-138 | from a client's first request on, exactly those requests pass that keep every window of its requests within its limit: burst + rate * seconds |
| RequestAdmission.AtOnceTheBurstPasses | internal/handler/middleware.go:70-94 | of such requests at one instant the first burst pass and no other |
| PathSanitizers.SplitPath | internal/metrics/metrics.go:154-171 | the loop computes the nonempty segments |
| PathSanitizers.JoinPath | internal/metrics/metrics.go:173-183 | the loop puts a slash before each part; no parts give "/" |
| PathSanitizers.SanitizePath | internal/metrics/metrics.go:141-152 | the segments with every identifier masked, joined |
| PathSanitizers.SplitUndoesJoin | internal/metrics/metrics.go:154-183 | splitting recovers joined parts that are nonempty and slash-free |
| PathSanitizers.JoinUndoesSplitIff | internal/metrics/metrics.go:154-183 | joining gives the path back iff it is "/" or has single slashes before each segment only |
| PathSanitizers.LabelSegments | internal/metrics/metrics.go:141-152 | a label has the path's segments in order, identifiers masked and all others kept |
| PathSanitizers.SegmentIsMaskedIff | internal/metrics/metrics.go:141-227 | the label of a path and one more segment is the label of the path and "/{id}" iff the segment is a decimal number, 8 to 64 hex digits or a UUID, and else that segment |
| PathSanitizers.LabelsHaveNoIdentifiers | internal/metrics/metrics.go:185-227 | no segment of a label is numeric, a UUID or a hex id |
| PathSanitizers.SanitizingIsIdempotent | internal/metrics/metrics.go:141-152 | sanitising twice is sanitising once |
| PathSanitizers.SameLabelIff | internal/metrics/metrics.go:141-152 | two paths share a label iff their masked segments agree |
| DatabaseUrls.Config.ParseDatabaseUrl | internal/config/config.go:133-172 | all settings after parsing, and none changed on the error path |
| DatabaseUrls.Config.ParseQuery | internal/config/config.go:153-158 | the loop leaves the value of the last sslmode parameter, if any |
| DatabaseUrls.ParsingFailsIff | internal/config/config.go:139-142 | the only error is a URL without "@" after trimming |
| DatabaseUrls.PostgresqlRoundTrip | internal/config/config.go:133-172 | a postgresql:// URL of separator-free settings, with any query parameters, is parsed back into them |
| DatabaseUrls.PostgresRoundTripIff | internal/config/config.go:135-136 | a postgres:// URL is iff its user is not "postgresql" with a password starting "//" |
| DatabaseUrls.BareRoundTripIff | internal/config/config.go:135-136 | a URL without a scheme is iff its user and password do not begin like one |
| DatabaseUrls.ModeRoundTrip | internal/config/config.go:152-158 | all six settings come back from a URL in which sslmode is given, among any other parameters |
| DatabaseUrls.PartialUrlKeepsTheRest | internal/config/config.go:133-172 | with password, port, name or parameters missing, what is there is set and what is not is kept, but the password, which is emptied |
| DatabaseUrls.SignedNumbers | internal/config/config.go:166-168 | a port is read with either sign or none, if it fits 64 bits |
| DatabaseUrls.OnlyNumbersArePorts | internal/config/config.go:166-168 | a port text with anything but digits after an optional sign is no port |

## Left out

- HTTP plumbing: reverse proxy, header rewriting, problem-details bodies, logging and recovery; thin wrappers and I/O.
- The Redis, Postgres and Prometheus clients, pools, health checks, start-up and shutdown; foreign calls.
- Floating-point rounding and Lua number formatting; levels and rates are exact reals.
- Effects of limiter calls that fail (a failed push or take changes nothing here), the 100 ms timeout, and concurrent requests racing on the memo of pushed limits.
- Environment variables, validation of settings, log levels, key masking and request ids; one-branch facts.
- RedisLimiters.RedisLimiter.SetLimit: a burst below 1 or a rate that is not positive is not modelled; the middleware never sets one, and the scripts would divide by the rate.
- LimitSync.RateLimitMiddleware.Handle: the limiter is a value of either backend rather than a shared object behind an interface; response headers and the call of the next handler are not modelled.
- ResilientTransports.RoundTrip: the wrapped transport returns no response with an error, and a supplied GetBody does not fail; waiting is the choice, per attempt, of whether the context was found done.
