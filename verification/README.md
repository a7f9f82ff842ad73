# A verified model of the distributed rate limiter

The rate limiter keeps one token bucket per policy scope in Redis, policies and API keys in
Postgres, and two read models in Redis: a projection of the active policies and a cache of
authenticated keys. This project models those four parts in Dafny and proves what they promise
together: how much a bucket admits in a window of time however many clients race on it, that
waiting times are exact, that policy lookup over Redis answers the question about Postgres, and
how long a deactivated key can still be accepted.

| file | part of the program |
|---|---|
| `TokenBucket.dfy`, `RefillLaws.dfy`, `WaitLaws.dfy`, `MachineInts.dfy` | one decision of the bucket, its laws, and the same decision in 64-bit arithmetic |
| `BucketHistory.dfy`, `WindowBound.dfy` | what the hash of a bucket holds, and what a history of commits and expiries admits |
| `ConsumeProtocol.dfy`, `RunHistories.dfy`, `ConsumeGuarantees.dfy` | the WATCH / read / EXEC loop of any number of calls as a step machine, which histories its runs produce, and what every run guarantees |
| `ClockWitnesses.dfy`, `ClockLimits.dfy`, `MachineRuns.dfy` | runs that break the window bound, the exact limits on the clocks within which it is kept, and the same machine with 64-bit decisions |
| `BucketStore.dfy`, `RateLimit.dfy` | the store and the middleware as objects, with the loop as it is written |
| `Scopes.dfy` | scopes and the string keys built from them |
| `PolicyTable.dfy`, `PolicyAgreement.dfy`, `PolicyService.dfy`, `Resolver.dfy` | the policy table with its unique indexes, the projection, the service and the resolver |
| `AuthCache.dfy`, `AuthService.dfy` | authentication through the cache, racing with deactivation |
| `Arithmetic.dfy`, `Text.dfy`, `Wrappers.dfy` | division facts, trimming, `Option` and `Result` |

Where the program changes things in place the model is a class, and each method is tied to a step
function about which the laws are proved. Every state of `BucketStore` is that of a run of
`ConsumeProtocol`, and every state of `APIKeyService` that of a run of `AuthCache`: their methods
are calls in it, with any steps of other clients between. The policy service is tied to
`PolicyTable.Do`. Instants and durations are whole nanoseconds, except in the authentication model,
whose clock counts milliseconds.

## What was found

- **The window bound depends on the clocks, and where it ends is exact.** A request reads its clock
  once, before the retry loop, so commits can be out of order with clocks. When no commit's clock is
  behind an earlier one's by more than a *disorder*, what a window admits is at most the capacity,
  one refill per interval begun in the window and the disorder after it, and the *gifts*: what a
  recreated bucket has, or can be refilled with again, beyond what a refill would have given
  (`WindowBoundWithGifts`). Gifts are zero if and only if every recreating request's clock has
  reached the instant at which the expired bucket was full (`GiftsAreZeroIff`). Call *ahead* how far
  clocks may be ahead of Redis's, and *early* how far the clock of a request that finds its bucket
  expired may be behind Redis's at the expiry, because it is slow or was read before. For an
  interval of whole seconds, every policy, run and window keeps the bound if and only if
  ahead + early is at most the interval less 999,999,999 ns, which is what EXPIRE can cut off, and
  the disorder is counted to the window (`ExactClockLimits`). The runs
  `EarlyRecreationBreaksBound`, `AheadClocksBreakBound` and `OutOfOrderClocksBreakBound` are
  instances with the costs of the routes.
- **A wait reported to a clock behind the refill instant is short** by exactly that lag
  (`ExactRetry`), and a cost above the capacity is given a finite wait although it never succeeds
  (`TooCostlyForever`).
- **Legal policies can overflow a duration.** For a policy row and a cost, machine and integer
  arithmetic agree at every clock and on every state whose token counts fit if and only if a test on
  the policy and the cost holds (`PolicyAgreesIff`); one token per largest interval fails it
  (`LegalPolicyOverflows`). With policies that pass and clocks within 136 years of each other, every
  run is the same in 64 bits (`MachineRunsAgree`). Without it the time to live can wrap to a
  negative duration, the key goes at once, and the bucket admits twice its capacity at one time on
  every clock (`WrappedExpiryBreaksBound`).
- **Two admin calls break the projection.** A successful update keeps agreement if and only if the
  policy is active; a deactivation if and only if no other active policy holds the scope of the
  policy it names. The runs `UpdatingInactiveBreaksAgreement` and `DeactivatingTwiceBreaksAgreement`
  show both.
- **A cache time to live that is not positive never expires**, and then a deactivated key can be
  accepted for ever (`NoTimeToLiveNoBound`).
- The repository's README.md (line 182) says that the summary key is watched too. The code watches
  only the bucket key (`internal/redisstate/bucket_store.go:86`); the model follows the code, and
  the counters are exact all the same (`CountersConserved`).

## Assumptions about Redis, its client and Postgres

- A transaction's commands are applied together or not at all, and EXEC fails exactly when the
  watched key has changed since WATCH. The removal of an expired key is such a change.
- A key can be removed at its deadline and at any later time, and exists until it is removed.
- EXPIRE is sent in whole seconds, cut off toward zero, and at least one for a positive duration;
  with a negative one the key's deadline has passed. SET with a positive duration expires in whole
  milliseconds and no less than one; with any other it never does.
- SCAN returns every key that is present throughout it, in batches, perhaps more than once.
- A write that violates a unique index or names a missing API key changes nothing.
- Go's zero time is the explicit value `ZeroTime`, not an instant of the clock.
- In the authentication model Redis, Postgres and the callers share one clock, and a key is readable
  up to the millisecond in which it expires.

## Model

| member | source | states |
|---|---|---|
| TokenBucket.ValidateConfig | internal/ratelimit/token_bucket.go:67-79 | a policy is refused if and only if its capacity, refill tokens or interval is not positive |
| TokenBucket.Apply | internal/ratelimit/token_bucket.go:36-65 | a decision is made if and only if policy and cost are positive; which error each bad input gives, in order of precedence |
| TokenBucket.DecidesFromClamped | internal/ratelimit/token_bucket.go:81-94 | every state decides as the one with its tokens cut to [0, Capacity] does, and an unset refill instant as one at now |
| TokenBucket.FullAndEmptyDecide | internal/ratelimit/token_bucket.go:48-60 | with the capacity or more in the bucket, as after a lowered policy, every cost within the capacity is allowed at every clock and leaves the rest of the capacity; with nothing or less and no refill since, none is |
| TokenBucket.RefillShape | internal/ratelimit/token_bucket.go:96-116 | refilling adds the tokens of all elapsed intervals, clamped, moves the refill instant along its own grid to the last point not after the clock, and does nothing for a clock behind it |
| RefillLaws.RefillIsTicking | internal/ratelimit/token_bucket.go:96-116 | the lazy refill equals a loop that adds the refill tokens and clamps at every grid instant up to now |
| RefillLaws.RefillComposes | internal/ratelimit/token_bucket.go:96-116 | refilling at t1 and then at t2 is refilling at the later of the two, for all t1 and t2 in either order |
| RefillLaws.DecideKeepsLedger | internal/ratelimit/token_bucket.go:36-65 | one decision conserves tokens: tokens before and refills equal tokens after, admitted cost and tokens lost to clamping |
| RefillLaws.TokenLedger | internal/ratelimit/token_bucket.go:36-116 | for any sequence of clocks, even decreasing, tokens are conserved over the run; the refill instant never decreases, stays on its grid and never passes the clocks seen |
| RefillLaws.BlockedIsInvisible | internal/ratelimit/token_bucket.go:53-58 | no decision at or after a blocked request's clock can tell whether the blocked request was made |
| RefillLaws.BlockedLeaveNoTrace | internal/ratelimit/token_bucket.go:36-65 | in a run with nondecreasing clocks, deleting any set of blocked requests leaves every remaining decision unchanged in all its fields |
| WaitLaws.ReachesTarget | internal/ratelimit/token_bucket.go:96-116 | a bucket below a target within its capacity holds it from one computable grid instant on and not before |
| WaitLaws.NextRefillIsExact | internal/ratelimit/token_bucket.go:140-152 | the time to the next refill is exact for a clock at or after the refill instant, and short by exactly the lag for one behind it |
| WaitLaws.WaitIsExact | internal/ratelimit/token_bucket.go:118-127 | the reported wait, plus the lag, ends at the first grid instant at which the cost is there, and is positive |
| WaitLaws.DecisionShape | internal/ratelimit/token_bucket.go:48-64 | Remaining is the new state's tokens and lies in [0, Capacity]; allowed and blocked are told apart by the tokens; the refill instant is within one interval of the clock or was ahead of it before |
| WaitLaws.ExactRetry | internal/ratelimit/token_bucket.go:118-152 | a blocked request whose cost fits, repeated with no other between, is allowed at t if and only if t is at least now + RetryAfter plus the clock's lag |
| WaitLaws.TooCostlyForever | internal/ratelimit/token_bucket.go:53-58 | a cost above the capacity is blocked at every time from every state, although a finite wait is reported: to the refill instant at which a bucket without a capacity would hold it |
| WaitLaws.HeaderSecondsLeast | internal/middleware/rate_limit.go:147-158 | the header value is the least whole number of seconds that covers the duration |
| WaitLaws.DurationToHeaderSeconds | internal/middleware/rate_limit.go:147-158 | the header is never negative |
| WaitLaws.RetryAfterHeaderIsLeast | internal/middleware/rate_limit.go:122-158 | the request succeeds after h whole seconds if and only if h is at least the header of the wait plus the clock's lag, which is zero for every clock not behind the refill instant: then the Retry-After header is the least that suffices (section 10.2.3 of RFC 9110) |
| WaitLaws.ExactReset | internal/ratelimit/token_bucket.go:129-138 | from its own clock on, the bucket is full exactly from ResetAt on, with the lag added unless it is full already |
| WaitLaws.RetryNotAfterReset | internal/ratelimit/token_bucket.go:118-138 | a blocked request that can succeed is told to retry no later than the reset |
| WaitLaws.TimeToLiveIsResetPlusInterval | internal/ratelimit/token_bucket.go:154-161 | the time to live ends exactly one interval after the reported reset, which is not in the past |
| WaitLaws.ExpireSeconds | internal/redisstate/bucket_store.go:81 | whole seconds of the time to live cut off toward zero, and one for a positive part of a second |
| WaitLaws.SafeExpiry | internal/ratelimit/token_bucket.go:154-161 | for an interval of at least a second: the bucket is full at its earliest expiry if and only if it was full already or the clock's lag is within the interval less the part of a second cut off, and then at every later time |
| WaitLaws.SafeExpiryOfPolicies | internal/middleware/rate_limit.go:97-101 | for the whole-second intervals of policies, that condition is a lag of at most one interval |
| MachineInts.Wrap | internal/ratelimit/token_bucket.go:163-165 | 64-bit wrap-around: the value in range that differs by a multiple of 2^64 |
| MachineInts.TruncDiv | internal/ratelimit/token_bucket.go:102 | division toward zero: the quotient's multiple is the nearest from zero |
| MachineInts.Sub | internal/ratelimit/token_bucket.go:101 | the difference of two instants, or the nearest 64-bit duration |
| MachineInts.MachineAgreesIffDurationsFit | internal/ratelimit/token_bucket.go:96-165 | for one call with token counts that fit, the 64-bit decision equals the unbounded one if and only if the unbounded RetryAfter and BucketTTL fit in 64 bits |
| MachineInts.PolicyAgreesIff | internal/middleware/rate_limit.go:97-102 | for a policy of 32-bit columns and a cost, the decisions are equal at every clock and on every state whose token counts fit, if and only if (ceil(Capacity / RefillTokens) + 1) intervals and ceil(cost / RefillTokens) intervals fit in 64 bits |
| MachineInts.CountsFitForYears | internal/middleware/rate_limit.go:97-102 | the token counts of every such policy fit when the clock is within 136 years of the refill instant |
| MachineInts.MachineRefinesIntegers | internal/ratelimit/token_bucket.go:96-165 | with token counts that fit, which bounds the elapsed time, a bound on capacity, cost, refill and interval under which no duration overflows and the results are equal |
| MachineInts.FreshBucketAgreesIff | internal/middleware/rate_limit.go:97-101 | for a policy of 32-bit columns, the first affordable request on a fresh bucket agrees if and only if the intervals that refill its cost, and one more, fit |
| MachineInts.LegalPolicyOverflows | internal/middleware/rate_limit.go:97-101 | a legal policy for which the first request's time to live overflows |
| BucketHistory.Answer | internal/redisstate/bucket_store.go:66-74 | a call on any stored bucket is answered with a decision if and only if its policy and cost are valid |
| BucketHistory.SaveReloadIsIdentity | internal/redisstate/bucket_store.go:77-80 | once a bucket is stored, cutting its refill instant to milliseconds and reading it back changes nothing |
| BucketHistory.FreshBucketNeverBlocks | internal/redisstate/bucket_store.go:147-152 | a missing bucket admits every cost within the capacity |
| BucketHistory.ExactRetryThroughStore | internal/redisstate/bucket_store.go:66-80 | the exact wait holds for a request repeated against what its own commit left in Redis |
| BucketHistory.SafeExpiryThroughStore | internal/redisstate/bucket_store.go:77-81 | what a commit stored would have refilled to capacity by the earliest expiry it set, so that a fresh bucket adds no tokens, if and only if it was full or the clock was at most one interval behind the refill instant |
| BucketHistory.SameClockStep | internal/redisstate/bucket_store.go:66-80 | a request with the clock of the stored bucket is allowed if and only if the tokens cover it, and stores the rest at the same instant |
| BucketHistory.EqualRequestsAdmitExactly | internal/redisstate/bucket_store_test.go:85-178 | n equal requests with one clock on a bucket that did not exist admit exactly min(n, capacity / cost) and leave the rest |
| WindowBound.CommitStep | internal/redisstate/bucket_store.go:66-80 | a commit's tokens, admitted cost and the refills it takes back are the refilled tokens and its gift; for a clock not behind the bucket's refill instant the grid is never anchored before the refill's, so recreation never brings two refills closer than one interval |
| WindowBound.CommitIsSound | internal/redisstate/bucket_store.go:77-80 | what a commit stores lies within the capacity, with a refill instant not after the latest clock and less than one interval before its own |
| WindowBound.LedgerHolds | internal/redisstate/bucket_store.go:59-98 | over any history with clocks within a disorder: admitted cost and tokens left stay within the capacity, the refills past the window's start, and the gifts |
| WindowBound.WindowBoundWithGifts | internal/redisstate/bucket_store.go:59-98 | the cost admitted by requests with clocks in [t0, t1] is at most Capacity + RefillTokens * ceil((t1 - t0 + disorder) / RefillInterval) and the gifts in or near the window, with expiry, recreation and millisecond truncation; for clocks in order the disorder is 0 |
| WindowBound.GiftIsZeroIff | internal/redisstate/bucket_store.go:147-152 | a recreation gives no tokens if and only if the request's clock has reached the instant at which the expired bucket was full |
| WindowBound.GiftsAreZeroIff | internal/redisstate/bucket_store.go:147-152 | a window of a history is free of gifts if and only if every recreation in it satisfies that |
| WindowBound.FullBeforeDeadline | internal/ratelimit/token_bucket.go:154-161 | in a history with the server's clock in order, every bucket's deadline comes, on the most advanced clock there can be, an interval after the bucket is full, less what EXPIRE cuts off, whatever the order of the requests' clocks |
| WindowBound.RecreationIsFree | internal/redisstate/bucket_store.go:81 | over any history, recreations with clocks behind the deadline by no more than a slack give nothing if slack and skew ahead of the server are within the interval less what EXPIRE cuts off |
| WindowBound.AdmittedWithinWindow | internal/redisstate/bucket_store.go:59-98 | the bound Capacity + RefillTokens * ceil((t1 - t0 + disorder) / RefillInterval) for every window in and near which buckets are recreated only when full |
| ConsumeProtocol.CommitKeyOk | internal/redisstate/bucket_store.go:76-84 | a commit keeps the stored bucket equal to the replay of its key's history, with its deadline |
| ConsumeProtocol.DecideSound | internal/redisstate/bucket_store.go:66-74 | a decision computed inside a watch is the answer to the watched version, and a bad request returns its error without writing |
| ConsumeProtocol.ConflictSound | internal/redisstate/bucket_store.go:90-97 | a failed EXEC is charged to an event after its watch, and either starts the next attempt or gives up at the last |
| ConsumeProtocol.CommitStep | internal/redisstate/bucket_store.go:76-88 | a successful EXEC keeps the invariant: replay, deadlines, one commit per call, and exact counters |
| ConsumeProtocol.ExpireStep | internal/redisstate/bucket_store.go:81 | removing an expired key keeps the invariant of every call in flight |
| ConsumeProtocol.StepKeepsInv | internal/redisstate/bucket_store.go:59-98 | every step of every call, the clock and expiry keeps the invariant |
| ConsumeProtocol.RunKeepsInv | internal/redisstate/bucket_store.go:59-98 | the invariant holds in every reachable state of any number of calls and buckets |
| RunHistories.RunsArePossible | internal/redisstate/bucket_store.go:59-98 | in every run a key's history has valid requests, one commit a call, the server's times in order, and no removal before the deadline set by the commit before it |
| RunHistories.Realize | internal/redisstate/bucket_store.go:59-98 | every such history is that of a run |
| RunHistories.HistoriesOfRuns | internal/redisstate/bucket_store.go:59-98 | so the histories of a key in runs are exactly these |
| ConsumeGuarantees.Serializable | internal/redisstate/bucket_store.go:59-98 | in every run each stored bucket is the sequential replay of its commits and expiries, and each returned decision the answer of its call's own place in that order, after the call began |
| ConsumeGuarantees.CommitsAreAnsweredCalls | internal/redisstate/bucket_store.go:87-97 | every commit belongs to exactly one call, which returned its decision: a call that failed or has not returned has written nothing |
| ConsumeGuarantees.CountersConserved | internal/redisstate/bucket_store.go:76-92 | the allowed and blocked counters equal the numbers of calls answered so, whatever the retries, although the summary key is not watched |
| ConsumeGuarantees.ContentionIsCharged | internal/redisstate/bucket_store.go:90-97 | a call gives up only after 32 failed attempts, each overtaken by an event of its key between its own WATCH and EXEC, in windows that follow one another and the call's begin |
| ConsumeGuarantees.GivingUpTakesEvents | internal/redisstate/bucket_store.go:90-97 | so its key changed at least 32 times during the call |
| ConsumeGuarantees.RacersNeverGiveUp | internal/redisstate/bucket_store.go:64-97 | of up to 32 calls on one bucket that does not expire none exhausts the retry budget |
| ConsumeGuarantees.OvertakenStillDecides | internal/redisstate/bucket_store.go:64-97 | for every request and every number of times up to 31 there is a run in which a call is overtaken that often and returns its decision |
| ConsumeGuarantees.OvertakenGivesUp | internal/redisstate/bucket_store.go:90-97 | and one in which it is overtaken a 32nd time and gives up |
| ConsumeGuarantees.CallsMakeProgress | internal/redisstate/bucket_store.go:64-97 | a call that has not returned can always take its own next step, and returns within 96 of them |
| ConsumeGuarantees.EqualCallsAdmitExactly | internal/redisstate/bucket_store_test.go:85-178 | in every interleaving of equal calls on a new bucket exactly min(n, capacity / cost) commits are allowed and the rest of the capacity is left |
| ConsumeGuarantees.EveryRunWithinBound | internal/redisstate/bucket_store.go:59-98 | in every run, for clocks in any order, as long as the skew of committed clocks ahead of the server and the earliness of recreating requests together are at most the interval less 999,999,999 ns, no window admits more than Capacity + RefillTokens * ceil((t1 - t0 + disorder) / RefillInterval) |
| ConsumeGuarantees.EveryRunOnOneClock | internal/redisstate/bucket_store.go:59-98 | with no disorder, skew or age the bound is Capacity + RefillTokens * ceil((t1 - t0) / RefillInterval) |
| ClockWitnesses.EarlyRecreationBreaksBound | internal/middleware/rate_limit.go:94-104 | a run in which a call in flight across an expiry doubles what one instant admits, with clocks in order and none ahead |
| ClockWitnesses.AheadClocksBreakBound | internal/middleware/rate_limit.go:94-104 | a run in which clocks ahead of the server's do so, in order and with no call in flight across the expiry |
| ClockWitnesses.OutOfOrderClocksBreakBound | internal/middleware/rate_limit.go:94-104 | a run in which only the order of clocks is given up and the bound fails |
| ClockLimits.TooEarlyBreaks | internal/redisstate/bucket_store.go:147-152 | for every whole-second interval, disorder, skew and earliness one nanosecond or more past the limit there is a policy and a run that breaks the bound |
| ClockLimits.UncountedDisorderBreaks | internal/middleware/rate_limit.go:94-104 | counting less than the disorder to the window, whatever the other limits, the bound is broken |
| ClockLimits.ExactClockLimits | internal/redisstate/bucket_store.go:59-98 | for whole-second intervals: every policy, run and window within the limits keeps the bound if and only if the disorder is counted and skew and earliness are at most the interval less 999,999,999 ns |
| MachineRuns.MachineRunsAgree | internal/redisstate/bucket_store.go:59-98 | with policies that pass the test and clocks within 136 years, every run with 64-bit decisions is the run with unbounded ones |
| MachineRuns.EveryMachineRunWithinBound | internal/redisstate/bucket_store.go:59-98 | so the window bound holds in 64-bit arithmetic, within the same limits on skew and earliness |
| MachineRuns.WrappedTimeToLive | internal/ratelimit/token_bucket.go:154-161 | a legal policy whose time to live wraps to a negative duration |
| MachineRuns.WrappedExpiryBreaksBound | internal/redisstate/bucket_store.go:81 | a run with 64-bit decisions in which that bucket admits twice its capacity while every clock shows one time |
| BucketStore.VersionsGrow | internal/redisstate/bucket_store.go:65-86 | whatever clients do, a key whose version is unchanged has not changed at all |
| BucketStore.NothingCommitted | internal/redisstate/bucket_store.go:87-97 | a call that has not begun or has returned an error has written nothing to any key |
| BucketStore.BucketStore.constructor | internal/redisstate/bucket_store.go:52-57 | a new store is empty and allows 32 attempts |
| BucketStore.BucketStore.ExecTransaction | internal/redisstate/bucket_store.go:76-86 | all queued writes if the watched version still holds, otherwise none: the protocol's EXEC step |
| BucketStore.BucketStore.WatchTransaction | internal/redisstate/bucket_store.go:65-86 | one attempt is the protocol's WATCH, read and EXEC steps with the others' between; a decision that commits answers the bucket as it is, a refusal or a failed transaction has written nothing |
| BucketStore.BucketStore.Consume | internal/redisstate/bucket_store.go:59-98 | with any steps of others between its round trips, the loop is one call in a run of the protocol and returns what that call returns; a decision answers the bucket as everything before the commit left it and adds exactly that commit; an error adds nothing; giving up means at least 32 changes of the key during the call |
| Scopes.UUIDText | internal/redisstate/bucket_store.go:179-185 | the text form of a UUID is 36 characters: lower-case hexadecimal digits with dashes after the 8th, 12th, 16th and 20th digit (section 4 of RFC 9562) |
| Scopes.UUIDTextReadsBack | internal/redisstate/bucket_store.go:179-185 | each byte reads back from the two digits at its place, the high one first (section 4 of RFC 9562) |
| Scopes.UUIDTextInjective | internal/redisstate/bucket_store.go:179-185 | different UUIDs have different texts |
| Scopes.KeyTexts | README.md:127-135 | the keys of each family and scope type, spelled out |
| Scopes.ValidScopesAreTheTables | migrations/000001_init_schema.up.sql:35-45 | the scopes that validation accepts are exactly those that the table's three checks let in |
| Scopes.KeysInjective | internal/redisstate/policy_projection.go:134-162 | over valid scopes, keys built under one prefix are equal if and only if the scopes are |
| Scopes.KeyFamiliesDisjoint | internal/redisstate/bucket_store.go:169-193 | policy keys, bucket keys, the summary key and cached API keys never meet |
| Scopes.UnvalidatedKeysCollide | internal/redisstate/policy_projection.go:156-162 | without validation two scopes share a key |
| Text.TrimSpace | internal/policies/service.go:218-226 | only white space is cut off at the ends, and the result neither begins nor ends with any |
| Text.TrimSpaceIsUnique | internal/policies/service.go:218-226 | it is the only string of which both hold |
| Text.SpacesByCodePoint | internal/policies/service.go:218-226 | white space is the 25 code points of Unicode's White_Space property |
| PolicyTable.ValidateCreateInput | internal/policies/service.go:217-268 | an input is accepted, trimmed, if and only if its scope is valid and its amounts positive; exactly when each of the six errors is given |
| PolicyAgreement.DoKeepsTableSound | migrations/000001_init_schema.up.sql:24-66 | every service call keeps the table's constraints: valid scopes, positive amounts, existing API keys, one active policy per scope |
| PolicyAgreement.RunTableSound | migrations/000001_init_schema.up.sql:24-66 | so does every run of calls |
| PolicyAgreement.CreateOutcome | internal/policies/service.go:96-120 | with Redis there or not: exactly when each error is given, that a refusal changes nothing, and that otherwise the table gains exactly the row that the trimmed input says, also when the projection write fails; with Redis the row is returned and projected under its key |
| PolicyAgreement.UpdateOutcome | internal/policies/service.go:154-197 | likewise for an update: exactly when each error is given; it rewrites exactly that row as the trimmed input says, keeps its flag, and moves its entry in the projection |
| PolicyAgreement.DeactivateOutcome | internal/policies/service.go:199-215 | a policy is not found if and only if its row is missing; otherwise exactly that row becomes inactive with its other columns kept, also when the projection write fails; with Redis that row is returned and exactly its key is gone |
| PolicyAgreement.RebuildOutcome | internal/policies/service.go:136-152 | a rebuild never changes the table, and without Redis not the projection |
| PolicyAgreement.AgreementDetermines | internal/redisstate/policy_projection.go:67-93 | the table determines the projection that agrees with it |
| PolicyAgreement.CreateKeepsAgreement | internal/policies/service.go:96-120 | a creation keeps agreement, whether it succeeds or not |
| PolicyAgreement.UpdateKeepsAgreementIff | internal/policies/service.go:154-197 | a successful update keeps agreement if and only if the policy was active |
| PolicyAgreement.DeactivateKeepsAgreementIff | internal/policies/service.go:199-215 | a deactivation keeps agreement if and only if no other active policy holds the scope, which an active policy always satisfies |
| PolicyAgreement.RebuildEstablishesAgreement | internal/policies/service.go:136-152 | a rebuild makes any projection whatever the map from scope key to active row |
| PolicyAgreement.ReplacedContent | internal/redisstate/policy_projection.go:67-93 | after replacing, exactly the items' keys are there, each with an item of its own scope |
| PolicyAgreement.GuardIsExact | internal/policies/service.go:96-215 | a call that Redis answers keeps agreement if and only if it is guarded: an accepted update names an active policy, a deactivation no policy whose scope another active one holds |
| PolicyAgreement.GuardedRunsAgree | internal/policies/service.go:96-215 | after every run of guarded calls the projection is exactly the active part of the table |
| PolicyAgreement.AgreesThroughoutIff | internal/policies/service.go:96-215 | a run whose calls Redis answers agrees at every point if and only if all its calls are guarded |
| PolicyAgreement.RebuildHeals | internal/policies/service.go:136-152 | after any run, with unguarded calls and lost projection writes, a rebuild restores agreement and leaves the table alone |
| PolicyAgreement.EntriesUnderOwnKeys | internal/redisstate/policy_projection.go:28-93 | without any guard each entry still sits under its own key |
| PolicyAgreement.DeactivatingTwiceBreaksAgreement | internal/policies/service.go:199-215 | a run in which deactivating an inactive policy removes another, active one from the projection |
| PolicyAgreement.UpdatingInactiveBreaksAgreement | internal/policies/service.go:154-197 | a run in which updating an inactive policy puts it in the place of an active one |
| PolicyService.PolicyProjectionStore.SyncPolicy | internal/redisstate/policy_projection.go:28-61 | the current key is set and a different previous key deleted, together or not at all |
| PolicyService.PolicyProjectionStore.RemovePolicy | internal/redisstate/policy_projection.go:63-65 | exactly the policy's key is gone |
| PolicyService.PolicyProjectionStore.ProjectionKeys | internal/redisstate/policy_projection.go:114-132 | the keys of all batches and no others |
| PolicyService.PolicyProjectionStore.ReplacePolicies | internal/redisstate/policy_projection.go:67-93 | whatever was projected, only the items are left |
| PolicyService.PolicyProjectionStore.GetProjectedPolicy | internal/redisstate/policy_projection.go:95-112 | the entry under the scope's key, if any |
| PolicyService.PolicyService.Create | internal/policies/service.go:96-120 | the table and projection after the call are those of the creation step, with its result |
| PolicyService.PolicyService.Update | internal/policies/service.go:154-197 | likewise for an update, which keeps the row's flag |
| PolicyService.PolicyService.Deactivate | internal/policies/service.go:199-215 | likewise for a deactivation |
| PolicyService.PolicyService.RebuildProjection | internal/policies/service.go:136-152 | the projection agrees with the table afterwards, whatever it was |
| Resolver.CandidatesAreTheMatches | internal/policies/resolver.go:48-71 | a valid scope matches a request if and only if it is one of the candidates looked up |
| Resolver.CandidatesInOrder | internal/policies/resolver.go:48-71 | the candidates are valid, match the request, and strictly decrease in specificity |
| Resolver.FirstFoundIsFirst | internal/policies/resolver.go:73-89 | the result is the entry of the first candidate that has one, under that candidate's scope |
| Resolver.LookupIsTableQuery | internal/redisstate/policy_projection.go:95-112 | looking a scope up in an agreeing projection finds the active row of that scope, or there is none |
| Resolver.ResolutionRefinesTable | internal/policies/resolver.go:38-90 | whenever the projection agrees, resolution finds a policy if and only if some active row matches, and it is the unique most specific one, under its own scope |
| Resolver.ResolutionAfterGuardedRun | internal/policies/resolver.go:38-90 | so it does after every guarded run of the policy service |
| Resolver.SameBucketIffSameScope | internal/middleware/rate_limit.go:133-139 | two requests share a bucket if and only if they were matched under the same scope |
| Resolver.Resolver.Resolve | internal/policies/resolver.go:38-90 | the loop over candidates returns the first found; no reader, a bad route and an unreadable projection as the code has them |
| RateLimit.ResponseIsConsistent | internal/middleware/rate_limit.go:111-158 | Remaining lies in [0, limit] and survives the audit's 32 bits; a blocked client waits at least a second, and one whose cost fits not past the second of the reset |
| RateLimit.RowConfigs | internal/middleware/rate_limit.go:97-101 | the configurations of policy rows are exactly those of positive 32-bit amounts and whole seconds |
| RateLimit.ToInt32 | internal/middleware/rate_limit.go:117-118 | the 32-bit value that differs by a multiple of 2^32 |
| RateLimit.ResponseKeepsItsWord | internal/middleware/rate_limit.go:111-158 | a blocked client that repeats its request after k whole seconds is forwarded if and only if k is at least the Retry-After it was told, and never if its cost is above the limit; for a clock behind the refill instant the lag is added |
| RateLimit.RemainingIsWhatIsLeft | internal/middleware/rate_limit.go:141-145 | X-RateLimit-Remaining is the largest cost that a further request at the same clock is forwarded with, and X-RateLimit-Limit is the policy's capacity |
| RateLimit.ResetIsWhenFull | internal/middleware/rate_limit.go:141-145 | X-RateLimit-Reset is the whole second in which the bucket fills: a request for the whole capacity is not forwarded before it and is from the next second on |
| RateLimit.EmptiedBucketRefills | internal/middleware/rate_limit.go:94-104 | a new bucket emptied at a clock forwards, k intervals of the policy row later, exactly the costs up to k times the row's refill tokens and its capacity |
| RateLimit.Middleware.EnforceRateLimit | internal/middleware/rate_limit.go:71-129 | the request reaches the bucket if and only if it has a key, a known route, a Redis that answers and a policy, and each other response names what is missing; there it is a call of a run of the protocol, with the policy row's capacity and refill tokens, its seconds as nanoseconds, the route's cost and the clock; a forwarded or blocked response is the answer of the resolved policy's bucket and leaves exactly that commit; every other response has written nothing to any bucket, and at the bucket comes only from an invalid policy or cost or 32 changes of the key; a request is audited if and only if it is blocked and the write succeeds |
| AuthCache.HitIsSound | internal/redisstate/apikey_cache.go:26-42 | a cache hit stands for a key that was active no longer ago than the lifetime and the slowest write |
| AuthCache.WriteCacheKeepsInv | internal/auth/service.go:168-171 | a late backfill, even after a deactivation, keeps that true of the entry it writes |
| AuthCache.RunKeepsInv | internal/auth/service.go:76-174 | the staleness invariant holds in every interleaving of creations, resolutions and deactivations, with cache reads, writes and deletes lost at will |
| AuthCache.BoundedStaleness | internal/auth/service.go:76-174 | with a positive time to live, an accepted key's row was active at some time no earlier than the acceptance less the lifetime less the slowest gap between row access and cache write |
| AuthCache.NoLateAcceptance | internal/auth/service.go:123-174 | so a deactivated key is accepted for at most that long after its deactivation |
| AuthCache.StalenessBoundIsTight | internal/auth/service.go:123-174 | for every positive time to live and every gap a run attains the bound, with nothing lost |
| AuthCache.NoTimeToLiveNoBound | internal/redisstate/apikey_cache.go:44-51 | without a positive time to live a deactivated key can be accepted after any wait |
| AuthService.APIKeyAuthCache.GetByHash | internal/redisstate/apikey_cache.go:26-42 | the entry under the hash while it is readable |
| AuthService.APIKeyAuthCache.SetByHash | internal/redisstate/apikey_cache.go:44-51 | a reader finds the key up to now plus the lifetime, for ever if it is not positive, and no longer; every other hash reads as before, and all do if the write is lost |
| AuthService.APIKeyAuthCache.DeleteByHash | internal/redisstate/apikey_cache.go:53-55 | no reader finds the key any more; every other hash reads as before, and all do if the delete is lost |
| AuthService.APIKeyService.Create | internal/auth/service.go:76-107 | the call succeeds if and only if the name is not blank and id and hash are new; it is then the insert, at the database's time, and the cache write of a run of the interleaving model, with any steps of others between, and a refusal adds nothing |
| AuthService.APIKeyService.Deactivate | internal/auth/service.go:123-144 | an existing key is inactive afterwards from the time of the update, or from the earlier one if it was already, with nothing else of the row changed, even if the cache delete is lost and whatever the others do; a delete that is not lost leaves no entry; a missing key is not found; the call is one of a run of the interleaving model |
| AuthService.APIKeyService.ReadCached | internal/auth/service.go:152-157 | a readable entry is a hit and an acceptance, a failed or empty read a miss |
| AuthService.APIKeyService.QueryRow | internal/auth/service.go:159-166 | an active row of the hash is found and accepted, or there is none |
| AuthService.APIKeyService.Backfill | internal/auth/service.go:168-171 | the cache write is the model's: a reader then finds the key, and a lost write changes nothing and fails nothing |
| AuthService.APIKeyService.ResolveActiveByRawKey | internal/auth/service.go:146-174 | a readable hit is returned without looking further, otherwise an active row of that hash or none exists when the table is read; the call is one of a run of the interleaving model with any steps of others between, and a returned key was active no longer ago than the lifetime and the slowest cache write |

## Left out

- WindowBound.AdmittedWithinWindow: recreation when full is sufficient for the bound and not necessary, since a window can have room for a gift; the exact condition for there being no gift is `GiftsAreZeroIff`. Intervals that are not whole milliseconds, which no policy has, are not covered: the refill instant is cut down to its millisecond at every save.
- ConsumeGuarantees.EveryRunWithinBound: limits the skew and earliness of clocks, which the code does not; `ExactClockLimits` shows that the limit is exact for whole-second intervals.
- ClockLimits.ExactClockLimits: says nothing of counting more than the disorder to the window, which keeps the bound within the limits and may keep it beyond them; the policy that reaches the limit has a capacity of two for a disorder of up to an interval, and more for more.
- WaitLaws.SafeExpiry: intervals below one second, which no policy can have, are not covered.
- BucketHistory.ExactRetryThroughStore: asks for an interval of whole milliseconds; a policy's interval is whole seconds.
- BucketHistory.EqualRequestsAdmitExactly: asks that the clock's part of a millisecond is less than the interval, which every interval of at least a millisecond meets; likewise ConsumeGuarantees.EqualCallsAdmitExactly.
- MachineInts.PolicyAgreesIff: says nothing of states whose token counts do not fit, which takes a clock more than 136 years past the refill instant; instants themselves are not limited to 64 bits.
- BucketStore.BucketStore.Consume: decides in unbounded integers, which are the machine's when `MachineRuns.MachineRunsAgree` says so; network errors, hash fields that do not parse and a cancelled context are not modelled, nor a reply to EXEC that is lost after the commit, in which case the call fails although it has written.
- BucketStore.BucketStore.ExecTransaction: keys have versions instead of Redis's dirty flag on a connection.
- Resolver.Resolver.Resolve: the reads of one resolution see one state of the projection, and one flag says whether they all succeed.
- RateLimit.Middleware.EnforceRateLimit: HTTP routing, response bodies, the wrapped handler and a missing auditor are not modelled; the policy is read at one moment.
- PolicyService.PolicyService.Create: two admin calls at once, or a crash between the table write and the projection write, are not modelled except as a projection write that fails; likewise for Update, Deactivate and RebuildProjection.
- AuthService.APIKeyService.Create: users, key generation and the hash itself are parameters; a hash is any function of the key.
- Bucket snapshots, reading the summary, and the listings of policies and keys read and change nothing.
- JSON encoding of policies and keys is taken to be faithful; timestamps of rows and the last use of a key are not modelled.
- A missing projector or cache (the no-op implementations) is not modelled.
- Audit log contents beyond a blocked request's record, configuration, demo data, CORS, admin authentication and the web interface.
