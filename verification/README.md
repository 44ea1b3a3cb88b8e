# Verified model of the Redis-backed stores

This project models the stateful core of zerohttp-contrib in Dafny and proves what it
guarantees over whole runs: the three rate-limit algorithms, the lease lock of the
idempotency and storage packages, token revocation, and the way claims travel into a
token and back.

## How it is built

- `Redis.dfy` is an abstract Redis: a map from keys to values with an optional expiry and
  a clock in milliseconds. Commands are functions on the slot of one key; the class `Redis`
  runs them in place. A key set with a TTL of d at time t is absent from t + d on. A TTL that
  is not positive means no expiry for SET and deletion for EXPIRE.
- `TokenBucket*.dfy` hold the Lua script and its properties. Amounts are scaled by the
  window: a stored T stands for T / window tokens, so all arithmetic is exact.
- `FixedWindow.dfy` and `SlidingWindow*.dfy` hold the other two algorithms called one at a
  time; `FixedWindowClients.dfy` and `SlidingWindowClients.dfy` let the separate commands of
  many clients interleave with each other and with the clock. `SlidingAdmissions.dfy` bounds
  what that admits, and `SlidingOvershoot.dfy` shows that the bounds are attained.
- `RateLimitStore.dfy` is the store class: each method issues the commands of the source and
  is proved against the step functions. `StoreRuns.dfy` shows that keys do not interfere, so
  the single-key results hold of every key of a whole store. `StoreLimits.dfy` states the
  limits of the whole store on the callers it lets through, and `StoreAnswers.dfy` what those
  callers are told, in their own numbers.
- `KeySpace.dfy` and `LeaseLock.dfy` are the key names and the lock protocol.
- `Claims.dfy`, `Revocation.dfy`, `TokenClaims.dfy` are claims, the revocation protocol, and
  the claim loop with its reader; `RevokedTokens.dfy` is about revoking the tokens that loop
  makes. `Stores.dfy` holds the idempotency, storage, adapter and
  token store classes.

## What is assumed

- The rate is at least 1 and the window a positive number of milliseconds; results that need
  whole seconds say so (`WholeSeconds`). go-redis sends windows of the other two algorithms in
  whole seconds, so for those a window is meant to be whole seconds throughout.
- A key is absent from the millisecond of its expiry on. A server that still serves it in that
  millisecond moves every statement about the end of a key by one millisecond, among them
  `DeniedUntilKeyEnds`, `BoundAttained` and `WindowAttained`.
- One clock serves Redis and callers in the sequential runs, request times do not go back,
  and they are not before 1970. The interleaved bound on the size of the sliding set needs
  none of this; the one on admissions (`AdmissionBound`) needs the one clock and distinct times.
- Token bucket scripts and single Redis commands are atomic. Commands do not fail, except
  that a key holding a value of another type gives the WRONGTYPE error; the calls then let
  the request through (`FailedOpen`), which is not counted as an admission.
- The lock protocol's callers, the zerohttp middlewares, are not part of this model; what they
  promise is the predicate `Disciplined`.

## Where the code differs from its description

The model follows the code.

- The token bucket is described as accumulating unused tokens. A denial writes
  `last_refill` without `tokens`, so the refill earned up to a denial is lost
  (`RetryAtReset`, `RetryRefused`), and the bucket restarts full when its key expires, because
  EXPIRE runs only on creation (`WindowBound`, `DominatesUnexpiringIffRateOne`).
- The fixed window calls its counter atomic and its reset the end of the current window.
  INCR and EXPIRE NX are two commands (`CrashLocksOut`), and the reset is one window after the
  request (`ResetLate`).
- Revocation is described as lasting for the remaining time until the token expires. A token
  that has already expired is stored with TTL 0, which is no expiry (`Covers`), and a later
  revocation of the same session can end it sooner (`SessionCutShort`).
- The lock is described as always expiring; with a TTL that is not positive it does not
  (`CrashedHolder`).
- The default revocation key joins subject and id with a colon and does not say which claim
  the id is: a jti or sid that reads like another token's exp gives the same key, and so can
  subjects that contain a colon (`MixedKindsCollide`, `SubjectsCollideIff`).
- The sliding window limit of `rate` per window holds for calls one at a time during each of
  which the clock stands still (`OneAtATimeBound`). With k clients whose commands interleave
  with each other or with the clock a window can hold rate + 2k - 1 admissions
  (`AdmissionsAttained`), and rate + 1 with a single one.
- `RequiredClaims`, `ValidateNotBefore` and `KeySelector` are configured but never consulted,
  so no check on them is modelled.

## Model

| member | source | states |
|---|---|---|
| TokenBucket.ReachableBuckets | middleware/ratelimit/store.go:43-63 | in every run, after every request the stored tokens are between 0 and capacity - 1, `last_refill` is the time of that request, and the key expires within its lifetime |
| TokenBucket.LifetimeCoversWindow | middleware/ratelimit/store.go:46 | the key lifetime is the window rounded up to whole seconds |
| TokenBucketBounds.Envelope | middleware/ratelimit/store.go:50-63 | within one key lifetime, n admissions at positions i..j satisfy n * window <= capacity + rate * (time from i to j) |
| TokenBucketBounds.SpanBound | middleware/ratelimit/store.go:43-57 | requests spanning less than a window admit fewer than 3 * rate, across any key expiry |
| TokenBucketBounds.WindowBound | middleware/ratelimit/store.go:43-57 | in every run every half-open interval of one window holds fewer than 3 * rate admissions |
| TokenBucketWorst.BoundAttained | middleware/ratelimit/store.go:43-57 | that bound is attained: for every rate from 2 on and every whole-second window of at least two milliseconds per token, some run admits 3 * rate - 1 requests in one window |
| TokenBucketDominance.Dominance | middleware/ratelimit/store.go:43-63 | at every prefix of every trace the script has admitted no more than an ideal bucket with the same key lifetimes that keeps its refill on denial; its tokens plus its lead cover the script's |
| TokenBucketExpiry.DominatesUnexpiringIffRateOne | middleware/ratelimit/store.go:43-63 | against an ideal bucket that never expires, dominance holds on all traces exactly for rate 1 |
| TokenBucketExpiry.TwoBurstsOvertake | middleware/ratelimit/store.go:43-48 | for every higher rate, two full bursts around the expiry overtake the never-expiring bucket |
| TokenBucketExpiry.IdealEnvelope | middleware/ratelimit/store.go:50-58 | the ideal bucket that never expires obeys the token bucket envelope between any two positions of every trace |
| TokenBucketReplies.DenialReset | middleware/ratelimit/store.go:50-62 | on a live bucket a request is admitted exactly from a due time on, and a denial returns that due time and drops its refill |
| TokenBucketReplies.AdmissionReset | middleware/ratelimit/store.go:44-58 | the reset of an admission is when a lone next request is admitted, except that creating a bucket of several tokens reports the refill time of one token |
| TokenBucketReplies.AdmissionResetLeast | middleware/ratelimit/store.go:50-58 | the reset of an admission on a live bucket is the least time, past or to come, at which the tokens left refill to a whole one |
| TokenBucketReplies.NothingBeforeReset | middleware/ratelimit/store.go:59-62 | while the key lives nothing is admitted before a denial's reset however many requests intervene, and no reset given meanwhile is earlier |
| TokenBucketReplies.ConsecutiveResets | middleware/ratelimit/store.go:59-62 | resets of consecutive denials never move back, and move on by the time between the two requests before them |
| TokenBucketReplies.RetryAtReset | middleware/ratelimit/store.go:50-62 | a lone retry at a denial's reset is admitted if and only if the key has expired or the denied request came at the time of the request before it |
| TokenBucketReplies.RetryAtResetByTokens | middleware/ratelimit/store.go:50-62 | the same condition in terms of the stored and refilled tokens |
| TokenBucketReplies.RetryRefused | middleware/ratelimit/store.go:59-62 | a concrete trace on which the retry at the reset is refused |
| TokenBucketReplies.Progress | middleware/ratelimit/store.go:50-57 | in every run a request at least ceil(window / rate) after the one before it is admitted |
| TokenBucketReplies.NoSoonerProgress | middleware/ratelimit/store.go:50-62 | no shorter gap guarantees an admission: in the run of a full burst and one more request, that one is admitted exactly if the gap is at least ceil(window / rate) |
| TokenBucketStarvation.StarvedIffShortGaps | middleware/ratelimit/store.go:50-62 | after a denial, while the key lives, all requests up to any later one are denied exactly if each came sooner after the one before it than the wait for the tokens the denial left; the first longer gap ends it |
| TokenBucketStarvation.LagBound | middleware/ratelimit/store.go:43-62 | within one key lifetime the script falls behind the ideal bucket that keeps its refill by no more than the refill since the lifetime began, so by fewer than `rate` admissions for whole seconds, and never gets ahead |
| TokenBucketStarvation.LagAttained | middleware/ratelimit/store.go:43-62 | for every rate below the window in milliseconds a client that asks every millisecond makes it fall rate - 1 behind in one window |
| TokenBucketReplies.RemainingExact | middleware/ratelimit/store.go:54-62 | after an admission returning r, of further requests at the same instant exactly the first r are admitted, returning r - 1, ..., 0 |
| FixedWindow.RemainingExact | middleware/ratelimit/store.go:185-204 | after an admission returning r, of further requests in the same key lifetime exactly the first r are admitted, returning r - 1, ..., 0 |
| FixedWindow.LifetimeValues | middleware/ratelimit/store.go:191-204 | a lifetime lasts one window from its first request, admits its first `rate` requests, and they return rate - 1, ..., 0 once each |
| FixedWindow.ResetLate | middleware/ratelimit/store.go:196-201 | the reset is late by the time since the lifetime began, so exact if and only if the request came in the millisecond that created the key |
| FixedWindow.DeniedUntilKeyEnds | middleware/ratelimit/store.go:191-201 | after a denial a request is denied exactly until the key ends |
| FixedWindowClients.NoTtlIffOnePending | middleware/ratelimit/store.go:185-194 | over all interleavings a live key has no TTL exactly when one client sits between INCR returning 1 and EXPIRE NX, and there is never a second one |
| FixedWindowClients.PendingExpiryLands | middleware/ratelimit/store.go:191-194 | a pending EXPIRE NX always lands on the lifetime it was issued for |
| FixedWindowClients.WindowBound | middleware/ratelimit/store.go:185-204 | over all interleavings every half-open interval of one window holds fewer than 2 * rate counted admissions |
| FixedWindow.WindowAttained | middleware/ratelimit/store.go:185-204 | for every rate and every window of at least two milliseconds a sequential run, hence an interleaved one, admits 2 * rate - 1 requests in one window |
| FixedWindowClients.OrdinalsInOrder | middleware/ratelimit/store.go:185-204 | over all interleavings the k-th admission of a lifetime carries the counter value k |
| FixedWindowClients.CrashLocksOut | middleware/ratelimit/store.go:185-194 | after a crash between INCR and EXPIRE NX no lifetime ends and fewer than `rate` requests are ever admitted again |
| FixedWindowClients.CallAlone | middleware/ratelimit/store.go:181-205 | a client's commands with nothing in between are the sequential call |
| FixedWindowClients.SequentialRun | middleware/ratelimit/store.go:181-205 | running the calls one after the other as separate commands gives the slot and the admissions of the sequential trace, with no EXPIRE NX pending |
| FixedWindowClients.SequentialWindowBound | middleware/ratelimit/store.go:181-205 | so every sequential run holds fewer than 2 * rate admissions in any half-open interval of one window |
| SlidingWindow.PruneIsFilter | middleware/ratelimit/store.go:213-214 | repeated pruning and key expiry together leave exactly the full history filtered to the present window |
| SlidingWindow.ReachableWindows | middleware/ratelimit/store.go:210-248 | in every run the sorted set is the full admission history filtered to the window, holds at most `rate` entries, and expires one window after the last admission |
| SlidingReference.Refines | middleware/ratelimit/store.go:210-248 | on every trace of distinct times, decision, `remaining` and reset agree with a limiter that never forgets an admission |
| SlidingReference.RefinesAllTracesIffRateOne | middleware/ratelimit/store.go:234-237 | agreement on all traces, with several requests in one nanosecond, holds exactly for rate 1 |
| SlidingReplies.Spacing | middleware/ratelimit/store.go:210-237 | the (i + rate)-th admission is at least one window after the i-th on the millisecond grid, so more than window - 1 ms in real time |
| SlidingReplies.WindowBound | middleware/ratelimit/store.go:210-237 | every half-open interval of one window on the millisecond grid holds at most `rate` admissions |
| SlidingReplies.ResetExact | middleware/ratelimit/store.go:223-231 | after a denial every request before its reset is denied with the same reset and an unchanged set, and the first one from then on is admitted |
| SlidingReplies.AdmissionReset | middleware/ratelimit/store.go:245-248 | in every run a later call finds an admission still in the pruned set exactly before the millisecond of its reset |
| SlidingReplies.RemainingExact | middleware/ratelimit/store.go:233-248 | after an admission returning r, of further requests at distinct times of that millisecond exactly the first r are admitted, returning r - 1, ..., 0 |
| SlidingWindowClients.OvershootBound | middleware/ratelimit/store.go:213-243 | with k clients interleaving their commands, entries plus clients past the check never exceed rate + k - 1, whatever their request times |
| SlidingWindowClients.SingleClientBound | middleware/ratelimit/store.go:213-243 | with one client the set never exceeds `rate` |
| SlidingWindowClients.CallAlone | middleware/ratelimit/store.go:209-249 | a client's commands with nothing in between give the slot and the admission of the sequential call |
| SlidingWindowClients.SequentialRun | middleware/ratelimit/store.go:209-249 | calls by any clients, one after the other with nothing in between, give the slot and the admissions of the sequential trace |
| SlidingWindowClients.OneAtATimeBound | middleware/ratelimit/store.go:209-249 | so in such runs, the clock standing still during each call, every half-open interval of one window holds at most `rate` admissions |
| SlidingOvershoot.OvershootAttained | middleware/ratelimit/store.go:213-243 | the bound rate + k - 1 is attained for every rate, window and number of clients, as long as the window has a nanosecond for each of these requests, by distinct rising request times read from the clock |
| SlidingAdmissions.AdmissionBound | middleware/ratelimit/store.go:210-243 | with k clients whose distinct request times are read from the clock, over all interleavings every half-open interval of one window holds at most rate + 2k - 1 admissions, counted when ZCARD lets them through |
| SlidingOvershoot.AdmissionsAttained | middleware/ratelimit/store.go:210-243 | that bound is attained, as long as a millisecond has nanoseconds for all clients and the window without its first millisecond (at least one) for rate + k - 1 requests; so one client already gets rate + 1 when the clock moves between its commands |
| SlidingAdmissions.RequestBound | middleware/ratelimit/store.go:210-248 | of the requests called in one window, by their own times, at most rate + 2k - 1 are ever admitted, and k more where the rate and the window in milliseconds are at least 2 |
| SlidingOvershoot.RequestsAttained | middleware/ratelimit/store.go:210-248 | the bound by request times is attained in both cases, with nanoseconds for rate + 2k - 1 requests |
| RateLimitStore.RedisStore.CheckAndRecord | middleware/ratelimit/store.go:141-152 | the call touches only its own key, and leaves and answers there what the dispatched algorithm's step says |
| RateLimitStore.RedisStore.RunScript | middleware/ratelimit/store.go:33-64 | the command sequence of the script is the script's step |
| RateLimitStore.RedisStore.CheckTokenBucket | middleware/ratelimit/store.go:156-177 | the call is the script's step at the caller's milliseconds, and lets the request through on an error |
| RateLimitStore.RedisStore.CheckFixedWindow | middleware/ratelimit/store.go:181-205 | the command sequence is the fixed window step |
| RateLimitStore.RedisStore.CheckSlidingWindow | middleware/ratelimit/store.go:209-249 | the command sequence is the sliding window step |
| RateLimitStore.FailsOpenExactly | middleware/ratelimit/store.go:162-165 | a call fails open exactly when its key holds a value of another type, leaves it alone, and tells its caller rate - 1 and one window; on a key of its own a caller is refused exactly by a denial, and then has nothing left |
| RateLimitStore.KeyOf | middleware/ratelimit/store.go:141-157 | each algorithm's keys by name; an unknown algorithm uses the token bucket's |
| RateLimitStore.TwoClocks | middleware/ratelimit/store.go:191-248 | the server's clock decides only when a key expires: verdict and stored value come from the caller's time |
| StoreRuns.KeysDoNotInterfere | middleware/ratelimit/store.go:141-152 | after any calls for any keys and algorithms a key's slot is what its own calls alone leave |
| StoreRuns.SameVerdictAsAlone | middleware/ratelimit/store.go:141-152 | the verdict of a call in the whole store is the verdict its key alone gives |
| StoreRuns.TakeCall | middleware/ratelimit/store.go:141-152 | a server whose clock reaches the time of a call and then runs CheckAndRecord makes the store's step and gives its answer, so the results about whole stores are about the class |
| StoreLimits.AdmissionsAsAlone | middleware/ratelimit/store.go:141-152 | in every run of the store the callers of a key are told to go on exactly where the key alone admits |
| StoreLimits.StoreTokenBucketLimit | middleware/ratelimit/store.go:156-177 | with any calls for any keys and algorithms in between, fewer than 3 * rate callers of a token bucket key are told to go on in one window |
| StoreLimits.StoreFixedWindowLimit | middleware/ratelimit/store.go:181-205 | likewise fewer than 2 * rate callers of a fixed window key |
| StoreLimits.StoreSlidingWindowLimit | middleware/ratelimit/store.go:209-249 | likewise at most `rate` callers of a sliding window key with distinct request times |
| StoreAnswers.FixedWindowAnswers | middleware/ratelimit/store.go:181-205 | of the callers of a new fixed window key less than one window after its first, whatever other keys do, the first `rate` get (true, rate - 1, ...), ..., (true, 0, ...) and the rest (false, 0, ...), each with a reset one window after its own time |
| StoreAnswers.TokenBucketAnswers | middleware/ratelimit/store.go:156-177 | of the callers of a new token bucket key in its first millisecond the first `rate` get true with rate - 1, ..., 0 and the rest false with 0; the resets, in nanoseconds, are the refill time of one token for the first and the least time of a whole token for the others |
| StoreAnswers.SlidingWindowAnswers | middleware/ratelimit/store.go:209-249 | of the callers of a new sliding window key at distinct times less than one window after its first, the first `rate` get true with rate - 1, ..., 0 and a reset one window later, the rest false with 0 and the millisecond in which the first leaves |
| StoreAnswers.InstantAnswers | middleware/ratelimit/store.go:141-249 | whatever the algorithm, a new key's calls of one millisecond (at distinct times for the sliding window) are let through exactly up to the rate |
| StoreAnswers.Burst | middleware/ratelimit/store.go:141-249 | a server that takes such calls one after the other answers true with rate - 1, ..., 0 left and then false with 0 |
| StoreAnswers.BucketResets | middleware/ratelimit/store.go:156-177 | on a live bucket, in nanoseconds: a refused caller is told the instant from which this call would have been let through, and one let through the instant from which the next one is |
| KeySpace.RateKeysSeparate | middleware/ratelimit/store.go:182 | rate-limit keys differ whenever the algorithm or the caller's key differs |
| KeySpace.KeysSeparate | middleware/idempotency/store.go:88-98 | for every prefix record keys and lock keys are injective, and they meet exactly if the record is named like the lock |
| KeySpace.KeyTexts | middleware/idempotency/store.go:88-98 | the names: prefix, colon and key, the key alone without a prefix, and ":lock" behind for the lock |
| KeySpace.PrefixesMeetIff | middleware/idempotency/store.go:88-93 | two prefixes share a record key exactly if prefix, colon and key read alike in both |
| KeySpace.PrefixesSeparate | middleware/idempotency/store.go:88-98 | stores with different prefixes without colons share neither records nor locks |
| KeySpace.EntriesSeparate | middleware/jwtauth/store.go:66-72 | token and session entries never alias, and each kind is injective |
| LeaseLock.SafeIffObeys | middleware/idempotency/store.go:146-169 | a step keeps mutual exclusion in every obedient future if and only if it does not delete or shorten the lock of someone else's open lease |
| LeaseLock.ObeyingStep | middleware/idempotency/store.go:146-169 | obedient steps keep leases exclusive and every open lease guarded by its lock key to its end |
| LeaseLock.DisobeyingStep | middleware/idempotency/store.go:166-169 | after any other step two clients come to hold one lock by obedient steps alone |
| LeaseLock.MutualExclusion | middleware/idempotency/store.go:146-169 | over all disciplined interleavings at most one client holds an open lease per key, and a lock is free exactly if nobody does |
| LeaseLock.CrashedHolder | middleware/idempotency/store.go:143-152 | whatever disciplined steps the other clients take after a holder has crashed, its lock keeps them out until its TTL has run out, for ever if the TTL is not positive, and from then on is free exactly if nobody holds it |
| LeaseLock.ReleasedByTtl | middleware/idempotency/store.go:143-169 | in the TTL and the clock alone: a lock taken with a TTL and not taken again is free exactly once the TTL has passed or its holder has unlocked, whatever disciplined steps the clients take |
| LeaseLock.StepEffects | middleware/idempotency/store.go:127-169 | an unlocked key is free, a locked one is not and stays as it is, an erased record is gone, and a written one is there until its TTL has passed |
| LeaseLock.OtherKeysUndisturbed | middleware/idempotency/store.go:88-98 | no step on another key changes a key's lock |
| LeaseLock.RecordsUndisturbed | middleware/idempotency/store.go:146-169 | locking and unlocking change no record, except the one named like the lock |
| Stores.IdempotencyStore.Get | middleware/idempotency/store.go:103-123 | returns what the record's key holds |
| Stores.IdempotencyStore.Set | middleware/idempotency/store.go:127-141 | is the protocol's write, and the record is there with its TTL |
| Stores.IdempotencyStore.Lock | middleware/idempotency/store.go:146-162 | succeeds exactly if the lock is free, and is the protocol's lock step |
| Stores.IdempotencyStore.Unlock | middleware/idempotency/store.go:166-169 | is the protocol's unlock step |
| Stores.RedisStorage.Lock | storage/redis.go:116-132 | succeeds exactly if the lock is free, and is the protocol's lock step with the caller's TTL |
| Stores.RedisStorage.Unlock | storage/redis.go:137-140 | is the protocol's unlock step |
| Stores.RedisStorage.Set | storage/redis.go:102-104 | stores the value under the prefixed key; TTL 0 means no expiry |
| Stores.RedisStorage.Delete | storage/redis.go:108-110 | is the protocol's erase step |
| Stores.RedisStorage.Ttl | storage/redis.go:145-155 | the time left rounded to the nearest whole second; 0 for an absent key, a key without expiry, and a key with less than half a second left |
| Stores.LockAgain | middleware/idempotency/store.go:143-162 | a lock that is not given back can be taken again at t exactly if lockTTL is positive and has passed |
| Stores.StorageLockAgain | storage/redis.go:112-132 | the same with the caller's TTL |
| Stores.LockUnlockLock | middleware/idempotency/store.go:146-169 | a lock that is given back can be taken again at once |
| Stores.ReadBack | middleware/idempotency/store.go:103-141 | a record is read back until its TTL has passed, for ever if the TTL is not positive |
| Stores.StorageAdapter.RevokeToken | middleware/jwtauth/store.go:75-77 | writes the token's entry and nothing else |
| Stores.StorageAdapter.RevokeSession | middleware/jwtauth/store.go:80-82 | writes the session's entry and nothing else |
| Stores.StorageAdapter.IsTokenRevoked | middleware/jwtauth/store.go:85-91 | finds the token's entry or passes the error on |
| Stores.StorageAdapter.IsSessionRevoked | middleware/jwtauth/store.go:94-100 | finds the session's entry or passes the error on |
| Stores.TokenStore.Revoke | middleware/jwtauth/token_store.go:311-331 | is one step of the revocation protocol |
| Stores.TokenStore.IsRevoked | middleware/jwtauth/token_store.go:341-366 | answers as the protocol says, and never denies a present entry |
| Stores.RevokeThenAsk | middleware/jwtauth/token_store.go:311-405 | claims revoked now and nothing else written are found revoked at t exactly if t is before their exp, or their exp has been reached, in the exp's own number for each of its types; always without one |
| Revocation.RevokedExactly | middleware/jwtauth/token_store.go:311-405 | after any trace, claims are revoked exactly when the latest revocation of their token entry or of their session entry is still in force |
| Revocation.CoversInNumbers | middleware/jwtauth/token_store.go:385-405 | a revocation with exp s seconds, a float cut to s, or a time of s milliseconds is in force exactly before that time, and for ever if it was made later or without an exp of these types |
| Revocation.RevokedUntilExp | middleware/jwtauth/token_store.go:311-405 | so claims revoked once are revoked exactly until the time their exp names |
| Revocation.EntryTexts | middleware/jwtauth/store.go:66-72 | the names of the two entries; none for an empty token key or an absent, non-string or empty sid |
| RevokedTokens.RevokedUntilTokenExpires | middleware/jwtauth/token_store.go:266-405 | the claims read from a token generated with a positive TTL, revoked before it expires, are revoked exactly until the whole second of its expiry; without a TTL for ever |
| RevokedTokens.PairRevokedTogetherIff | middleware/jwtauth/token_store.go:311-366 | of two tokens generated from the same claims, access and refresh, revoking one revokes the other exactly if the claims have a non-empty jti or sid or both have the same exp in seconds, none counting as 0 |
| RevokedTokens.OtherRevokedIff | middleware/jwtauth/token_store.go:311-366 | revoking one token revokes another exactly if they share their default key or their session |
| Revocation.StaysRevoked | middleware/jwtauth/token_store.go:306-331 | revoked claims stay revoked before their own exp if no later revocation of one of their two entries cuts it short |
| Revocation.SessionCutShort | middleware/jwtauth/token_store.go:322-328 | after any trace, one more revocation of a session decides alone how long the session's tokens not revoked by themselves stay revoked, even where an earlier one would have lasted longer |
| Revocation.SameKeyRevokedTogether | middleware/jwtauth/token_store.go:313-320 | revoking a token revokes every token with the same default key |
| Claims.FormatIntRoundTrip | middleware/jwtauth/config.go:146 | the decimal form of exp loses nothing |
| Claims.FormatIntIsDecimal | middleware/jwtauth/config.go:146 | it is decimal digits, with a minus sign in front if negative |
| Claims.DefaultKeyTexts | middleware/jwtauth/config.go:127-147 | the default key in the claims' own values: subject, colon, and the first of a non-empty jti, a non-empty sid, and the digits of exp, a float cut towards zero and other types read as 0 |
| Claims.SameDefaultKeyIff | middleware/jwtauth/config.go:127-147 | two tokens share a default key exactly if subject, colon and component (jti, else sid, else exp), written together, read alike, whatever kinds the components are of |
| Claims.DefaultKeyWithinSubject | middleware/jwtauth/config.go:127-147 | tokens of one subject share a default key exactly if their components are the same text |
| Claims.SameKindComponents | middleware/jwtauth/config.go:138-146 | components of one kind agree exactly if the jti, sid or exp does |
| Claims.MixedKindsCollide | middleware/jwtauth/config.go:138-146 | for every subject and exp a token with that exp shares its key with one whose jti, and one whose sid, is its digits |
| Claims.SubjectsCollideIff | middleware/jwtauth/config.go:130-137 | two subjects have tokens with one default key exactly if one subject with its colon begins the other's |
| Revocation.DefaultKeyGivesEntry | middleware/jwtauth/token_store.go:313-317 | with the default key every token has its own entry |
| TokenClaims.BuildFromClaims | middleware/jwtauth/token_store.go:198-250 | whatever order the loop takes the claims in, the result is the token they describe |
| TokenClaims.Generate | middleware/jwtauth/token_store.go:188-285 | the whole builder is the described token with the configured issuer, audience, expiry, issue time and type |
| TokenClaims.TokenToMap | middleware/jwtauth/token_store.go:408-446 | whatever order the keys come in, the map holds exactly the token's claims |
| TokenClaims.Validate | middleware/jwtauth/token_store.go:147-174 | issuer first, then membership in the audience, then the claims |
| TokenClaims.GeneratedPasses | middleware/jwtauth/token_store.go:147-170 | a generated token passes the same configuration's checks exactly if the claims leave iss and aud out or name what is asked for |
| TokenClaims.GeneratedAudience | middleware/jwtauth/token_store.go:208-264 | the token's audience is a string as a one-element list, a list as it is, a mixed list's strings, the configured one if absent, and none otherwise; and whom it names |
| TokenClaims.TextsOfAppend | middleware/jwtauth/token_store.go:214-221 | a mixed list keeps its strings in order |
| TokenClaims.TextsOfMembers | middleware/jwtauth/token_store.go:214-221 | and exactly those |
| TokenClaims.GeneratedByClaims | middleware/jwtauth/token_store.go:198-279 | the other registered claims by the claim values: texts only from strings, times from seconds, floats cut towards zero, or times, exp from the TTL alone |
| TokenClaims.RoundTripIffWellTyped | middleware/jwtauth/token_store.go:198-279 | generating again from a generated token's claims gives the same claims up to exp, exactly if iss, aud and iat are well typed where it matters |
| TokenClaims.DefaultKeyKept | middleware/jwtauth/config.go:127-147 | the default revocation key survives the round trip exactly if jti or sid is a non-empty string or exp is unchanged in seconds |
| TokenClaims.ReadBack | middleware/jwtauth/token_store.go:241-279 | exp comes from the TTL only, iat from the caller or the clock, refresh tokens are marked, other private claims are untouched |
| TokenClaims.TextsReadBack | middleware/jwtauth/token_store.go:198-264 | a reader finds sub, jti and iss exactly as given, if they are strings; only a missing issuer is filled in |
| TokenClaims.AudienceReadBack | middleware/jwtauth/token_store.go:208-264 | a reader finds the audience as the list of its strings |
| TokenClaims.NotBeforeReadBack | middleware/jwtauth/token_store.go:232-240 | a reader finds nbf in whole seconds exactly if it is given as a number or a time |

## Left out

- Redis networking, contexts, connection closing, and errors other than a value of another type.
- Floating point and string rounding inside the Lua script, and go-redis's rounding of durations: arithmetic is exact. Integer widths are unbounded.
- Request times that go back, and clocks that differ between servers, in the sequential runs.
- KeepTTL, which go-redis reads into a TTL of exactly minus one nanosecond.
- Signing, parsing, key sets and the expiry check of the JWT library: signing then parsing is the identity on a token's claims.
- JSON encoding of idempotency records: a record is the text stored for it.
- Constructors' defaults and option merging: one-branch facts.
- Time passing inside one call of Revoke, Generate or a sequential limiter call.
- The cache, compression, tracing, logging, Huma and extension packages: wrappers, I/O or configuration.
- SlidingWindowClients.OvershootBound: the reset a denied client reads with a further command is not modelled there; it changes no state.
- LeaseLock.MutualExclusion: who holds a lease is not stored in Redis, so the class methods state only what a step does to the store.
