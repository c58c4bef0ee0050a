# Verification of the like-counting service

A Dafny model of the service's five stateful or text-forming components, with the properties they are
relied on for. `dafny verify dfyconfig.toml` checks the whole project.

- **Rate limiting** (`RateLimit.dfy`). The two Redis scripts, the per-process read lease and the write
  limiter, first as objects updated in place, then as a protocol in which any number of processes and
  requests interleave between three atomic actions: consume a lease, reserve from Redis, insert the
  lease. Tokens are conserved under every interleaving, so all processes together admit at most `limit`
  requests per window; sequentially the limiter decides like a plain counter; a counter lives from the request
  that creates it to its reset; both limiters meet a sliding bound over any span of seconds.
- **Likes store** (`LikesStore.dfy`, `Leaderboard.dfy`, `Pagination.dfy`, on `Ordering.dfy`). The relation,
  its two aggregates, the windowed ranking and keyset pagination. Both aggregates count the relation
  exactly from the migrations on; a status follows the user's writes; the ranking lists the most liked items,
  exact up to one hour, and has one possible answer; a
  filtered walk under concurrent likes and unlikes descends, repeats nothing, misses nothing that stays,
  and is bounded.
- **Count cache** (`CountCache.dfy`, `Coherence.dfy`, `Staleness.dfy`, `Overtaken.dfy`, `SingleFlight.dfy`,
  `Knots.dfy`, `StuckRuns.dfy`, `Deadlocks.dfy`, `Unanswered.dfy`, `FillProgress.dfy`, `BatchLookup.dfy`). The
  local cache, Redis, the database and the published updates. One model has message delivery, eviction, time,
  and fills and HTTP writes split between reading a count and caching it. It proves quiescent agreement and
  bounded staleness (60 s plus the delivery delay, a bound that is reached), and exactly when a gRPC write, an overtaken fill or an overtaken HTTP write breaks them.
  Another model splits every fill at its awaits. It proves who owns an in-flight entry, exactly when batches
  among readers can wait for themselves or for each other for ever (when no order of the keys suits them all),
  exactly when a batch among readers answers without a count, and that runs are finite. The batch handlers have
  the effect of one lookup after the other.
- **Circuit breaker** (`CircuitBreaker.dfy`). The mutex-held state machine with its incrementally pruned
  deque refines a machine that keeps the full history of outcomes, and opens exactly on a run of failures or on
  a window in which most outcomes failed.
- **Texts** (`Encoding.dfy`, `Keys.dfy`, `Formats.dfy`, on `Text.dfy`). UTF-8 and base64 (section 4 of RFC 4648) with
  layouts, round trips and canonicity, the pagination cursor, cache keys, entity tags and `If-None-Match`
  (section 13.1.2 of RFC 9110).

Code that the source updates in place is a class or a method with loops, proved against a specification
function; the properties are lemmas about those functions and about runs of them.

## Where the code does less than one would expect

Each of these has a concrete input or an exact condition in the project.

- With `limit = 2^32 - 1` the rejection test compares a saturated ordinal with the limit and never
  rejects; the admission bound holds for every smaller limit and fails for that one
  (`RateLimit.BoundHoldsIff`). The write limiter admits more than `limit` exactly when more requests arrive in a
  window than the 2^32 - 1 its reply can number, whether the client library refuses a larger reply or wraps it
  (`RateLimit.WriteBoundHoldsIff`).
- A lease keeps the floor it had before its first request, so the second request of a block is told the
  first one's ordinal again (`RateLimit.ServesInOrder`). Tokens are still conserved.
- Without a content type filter the cursor does not tell items of different types apart, and a listing is
  complete exactly when no two rows share instant and id (`Pagination.CompleteIffPositionsDistinct`,
  `Pagination.TiedRowsAreLost`).
- No filter and the legal content type "all" share a cache key and a ranking tag
  (`Keys.CacheKeysAreInjective`, `Keys.TopEtagInjective`).
- Batches can wait for ever. Among readers some run of any given batches gets stuck exactly when no order of the
  keys makes every batch strictly increasing (`StuckRuns.StuckIffNoOrder`): for one batch, when it repeats a key
  (`StuckRuns.OneSticksIffRepeats`); for two of distinct keys, when they list two keys in opposite orders
  (`StuckRuns.PairSticksIffOpposite`). Alone, with no other task, a batch that misses one key twice is never
  answered (`Deadlocks.AloneAnsweredIffDistinct`), and two batches need more than opposite orders to get stuck
  (`Deadlocks.PairAloneDeadlocksIffItCrosses`).
- A batch whose second wait ends leaves the item without a count, which is then reported as 0; among readers that
  can happen exactly when at least two of them ask for the key (`Unanswered.GapIffTwoReaders`).
- Writes over gRPC refresh no local cache: such a write leaves a process wrong exactly when it holds a live
  local count, for exactly as long as that count lives (`Staleness.GrpcWriteSplitsIff`,
  `Staleness.GrpcSplitLastsAsLongAsTheEntry`).
- A fill or an HTTP write that reads a count, is overtaken by other writes and then caches what it read leaves
  Redis wrong exactly when the likes and unlikes of the item that took effect in between do not balance, whatever
  else happens (`Overtaken.LateFillItemIff`, `Overtaken.LateWriteIff`). So two overlapping likes can leave every
  cache behind the database with HTTP writes only (`Overtaken.OverlappingLikesLeaveCachesBehind`). After any fill
  that leaves Redis too high the staleness bound can be lost: a process comes to serve a count the item never had
  (`Overtaken.TooHighFillLosesTheBound`).

## Model

| member | source | states |
|---|---|---|
| RateLimit.WindowKeyIsTheMinute | src/resilience/rate_limit.rs:274-282 | keys are equal iff scope, subject and minute are; the reset is the multiple of 60 exactly retry_after seconds away, 1 <= retry_after <= 60, and equal keys share it |
| RateLimit.RedisCounters.Increment | src/resilience/rate_limit.rs:21-31 | the increment script: reply and new counter, time to live set on first use only, other keys unchanged |
| RateLimit.RedisCounters.Reserve | src/resilience/rate_limit.rs:32-55 | the reserve script: grants min(requested, limit - current), nothing once exhausted; sets the time to live when it creates the counter; other keys unchanged |
| RateLimit.ReadLimiter.TryConsumeReadLease | src/resilience/rate_limit.rs:205-232 | the lease left under the key and the ordinal handed out, with every removal branch |
| RateLimit.ReadLimiter.ConsumeOrReserveReadLease | src/resilience/rate_limit.rs:167-203 | lease first, then reservation and insert; the unadvanced floor; a reply that does not fit u32 is an error |
| RateLimit.FailsIffBeyondU32 | src/resilience/rate_limit.rs:234-252 | the call fails iff there is no usable lease and Redis has counted beyond u32 |
| RateLimit.ArriveConserves | src/resilience/rate_limit.rs:205-232 | consuming from a lease admits exactly one request for the token it spends, never a rejection |
| RateLimit.ReserveConserves | src/resilience/rate_limit.rs:32-55 | a reservation moves its tokens from the counter to the request in flight, or rejects without moving any |
| RateLimit.InsertConserves | src/resilience/rate_limit.rs:187-202 | an insert admits one request, keeps the rest in the lease, and counts an overwritten lease's tokens as lost |
| RateLimit.EveryRunConserves | src/resilience/rate_limit.rs:167-232 | under every interleaving: counter = admitted + in leases + granted but not inserted + lost, counter <= limit, and every lease has the key's reset, so the reset-mismatch branch is unreachable |
| RateLimit.AdmittedWithinLimit | src/resilience/rate_limit.rs:147-159 | all processes together admit at most limit requests per key while Redis keeps it, and at most limit more per loss of the key |
| RateLimit.CounterLivesToTheReset | src/resilience/rate_limit.rs:45-49 | under every interleaving a counter in Redis was created by a request that arrived 1 to 60 s before the reset, has been there since, and its time to live is from that arrival to the reset exactly, whatever was reserved later |
| RateLimit.BoundHoldsIff | src/resilience/rate_limit.rs:147-185 | over all runs on a key that Redis keeps, at most limit requests are admitted, iff limit < 2^32 - 1 |
| RateLimit.RoundsAdmitAll | src/resilience/rate_limit.rs:167-203 | at limit 2^32 - 1, n requests on as many processes are all admitted, whatever n is |
| RateLimit.ExhaustedRejectsIff | src/resilience/rate_limit.rs:181-185 | a request that finds the counter at the limit is rejected, and conservation kept, iff limit < 2^32 - 1 |
| RateLimit.ActionsComposeToTheCall | src/resilience/rate_limit.rs:167-203 | with nothing interleaved the three atomic actions are the whole call and lose no token |
| RateLimit.NextRequest | src/resilience/rate_limit.rs:187-202 | from n sequential requests to n + 1: the next answer and the lease and counter it leaves |
| RateLimit.ServesInOrder | src/resilience/rate_limit.rs:167-232 | every answer of a sequential run: the first of a block is told its ordinal, the others one less, beyond the limit limit + 1 |
| RateLimit.DecidesLikeAPlainCounter | src/resilience/rate_limit.rs:147-159 | request i is admitted iff i <= limit, and an admitted one is told i or i - 1 |
| RateLimit.SlidingBound | src/resilience/rate_limit.rs:274-282 | if each minute's key admits at most limit, any len seconds admit at most (ceil((len - 1) / 60) + 1) * limit |
| RateLimit.ReadLog | src/resilience/rate_limit.rs:120-147 | whatever interleaves on a read key, its admissions fall in its minute and are at most limit |
| RateLimit.ReadSlidingBound | src/resilience/rate_limit.rs:120-149 | the sliding bound for the read limiter |
| RateLimit.WritesAdmitThePrefix | src/resilience/rate_limit.rs:67-103 | while Redis keeps the key, exactly the first limit requests are admitted up to the 2^32 - 1 the reply can number, and more than limit beyond, whether larger replies are refused or wrapped; the key always has a time to live |
| RateLimit.WriteBoundHoldsIff | src/resilience/rate_limit.rs:91-103 | at most limit are admitted iff at most 2^32 - 1 arrive, under either conversion of larger replies |
| RateLimit.WritesWithinLimit | src/resilience/rate_limit.rs:21-31 | each loss of the key lets at most limit more in |
| RateLimit.WriteCounterLivesToTheReset | src/resilience/rate_limit.rs:21-31 | the same for the write limiter: from the first request of the minute to its reset |
| RateLimit.WriteBoundIsReached | src/resilience/rate_limit.rs:21-31 | and some run with n losses of the key admits (n + 1) * limit requests, all of one instant |
| RateLimit.WriteSlidingBound | src/resilience/rate_limit.rs:67-103 | the sliding bound for the write limiter, no minute seeing more requests than its reply can number |
| LikesStore.Database.InsertLikeRow | src/storage/likes_repository.rs:17-78 | the new tables and result: row, total and hourly upserts, or nothing when the row exists |
| LikesStore.Database.DeleteLikeRow | src/storage/likes_repository.rs:80-139 | the new tables and result: both clamped decrements, the hourly one in the hour of the deleted row's liked_at |
| LikesStore.Database.GetLikeCount | src/storage/likes_repository.rs:172-193 | the total, 0 when there is no row |
| LikesStore.Database.GetLikeStatus | src/storage/likes_repository.rs:141-170 | liked iff the user's row exists, and liked_at is its instant, absent otherwise |
| LikesStore.Database.GetLikeCountsBatch | src/storage/likes_repository.rs:195-232 | one entry per requested item, 0 when there is no row |
| LikesStore.Database.GetLikeStatusesBatch | src/storage/likes_repository.rs:234-281 | one status per requested item: liked iff the user's row exists, liked_at its instant |
| LikesStore.WritesMoveTheirCounts | src/storage/likes_repository.rs:17-139 | whatever the tables hold, an effective insert adds one to its total and its hour, an effective delete takes one from both but not below 0, and no other row or count changes |
| LikesStore.StatusFollowsTheWrites | src/storage/likes_repository.rs:141-170 | after any run of writes a user likes an item iff the user's last write of it was no unlike, and liked_at is the instant of the last like that took effect |
| LikesStore.InsertKeepsTotals | src/storage/likes_repository.rs:38-50 | an insert keeps like_counts[c] = number of users liking c |
| LikesStore.InsertKeepsHours | src/storage/likes_repository.rs:52-68 | an insert keeps the hourly counts equal to the likes by hour of liked_at |
| LikesStore.DeleteKeepsTotals | src/storage/likes_repository.rs:103-115 | a delete keeps the totals exact |
| LikesStore.DeleteKeepsHours | src/storage/likes_repository.rs:88-129 | a delete keeps the hourly counts exact |
| LikesStore.ClampsNeverFire | src/storage/likes_repository.rs:104-129 | a row about to be deleted is counted in both aggregates, so neither GREATEST nor the insert of a 0 row ever takes effect |
| LikesStore.UnlikeUndoesLike | src/storage/likes_repository.rs:17-139 | unliking undoes a like: the relation and every count are what they were |
| LikesStore.RelikeMovesTheHour | src/storage/likes_repository.rs:17-139 | liking again changes nothing; unlike and like back keeps totals and moves one like to the new hour |
| LikesStore.BackfillIsConsistent | migrations/20260317133000_add_like_hourly_counts.sql:13-20 | the migration's rows are exactly the likes by hour |
| LikesStore.EveryRunIsConsistent | src/storage/likes_repository.rs:17-139 | every run of inserts and deletes keeps both aggregates exact |
| LikesStore.HourlyRowsAddUp | src/storage/likes_repository.rs:38-68 | the sum of an item's hourly rows is its total |
| LikesStore.FromTheMigrationsOn | migrations/20260317133000_add_like_hourly_counts.sql:13-20 | after the migrations, every run leaves both aggregates exact and in agreement |
| Leaderboard.RankingIsTotal | src/storage/likes_repository.rs:397-416 | (count, type, id) is a strict total order on rows for any strict total collation |
| Leaderboard.WindowSumCountsHours | src/storage/likes_repository.rs:409-415 | the window sum counts the likes whose whole hour starts at now - window or later |
| Leaderboard.WindowExactToOneHour | src/storage/likes_repository.rs:409-415 | it is at least the likes since now - window + 1h and at most those since now - window |
| Leaderboard.CandidatesAreThePositiveItems | src/storage/likes_repository.rs:390-418 | a row is ranked iff its item passes the filter and has that positive count |
| Leaderboard.TopLikesAreDetermined | src/storage/likes_repository.rs:383-436 | the list is the unique top-limit prefix of all positive items, and every row it returns has a true count |
| Leaderboard.RankedByTheirLikes | src/storage/likes_repository.rs:390-418 | an item is ranked by the number of its likes: all, or those of the whole hours in the last 24 h, 7 d or 30 d |
| Leaderboard.TopLikesAreTheMostLiked | src/storage/likes_repository.rs:383-436 | at most limit items, none twice, that pass the filter, with their numbers of likes, never increasing, ties descending by type and then id; a liked item is left out only from a full list, after every item in it |
| Ordering.AscendingIsUnique | src/storage/likes_repository.rs:397-398 | a set has at most one ordered listing under a strict total order |
| Ordering.TopIsThePrefix | src/storage/likes_repository.rs:397-398 | ORDER BY ... LIMIT n has exactly one answer under a strict total order: the first n of the sorted rows |
| Pagination.PageFacts | src/http/user_likes.rs:47-67 | limit + 1 fetched rows give has_more iff more than limit rows lie after the cursor, a descending page of them, and a next cursor behind which all the others lie |
| Pagination.WalkDescends | src/http/user_likes.rs:47-67 | whatever the store does between pages, the rows of a walk go from the latest like to the earliest, likes of one instant descending by id, none twice |
| Pagination.PresentThroughoutIsReturned | src/http/user_likes.rs:47-83 | a row present at every fetch of a finished walk is returned |
| Pagination.WalkIsBounded | src/http/user_likes.rs:56-67 | if new rows are newer than the issued cursors, a walk has at most max(1, ceil(n / limit)) pages |
| Pagination.RowsAreTheLikes | src/storage/likes_repository.rs:290-371 | a row is listed iff the user has that like and its type passes the filter |
| Pagination.FilteredRowsAreDistinct | migrations/20260315120000_init_likes.sql:7 | the primary key makes positions of a filtered listing distinct |
| Pagination.NewRowsAreLate | src/storage/likes_repository.rs:25-36 | any run of writes whose likes are later than a bound adds only rows later than it |
| Pagination.WalkUnderChange | src/http/user_likes.rs:47-83 | a filtered walk with any likes and unlikes between fetches goes from the latest like to the earliest, has at most max(1, ceil(n / limit)) pages, and returns every row present throughout exactly once |
| Pagination.StillWalkIsComplete | src/http/user_likes.rs:47-83 | over a store at rest with distinct positions, a finished walk is the full list, latest first, each row once |
| Pagination.FetchExists | src/storage/likes_repository.rs:283-371 | the listing query always has an answer |
| Pagination.WalkExists | src/http/user_likes.rs:47-83 | following cursors over a store at rest reaches a last page, for every limit >= 1 |
| Pagination.CompleteIffPositionsDistinct | src/http/helpers.rs:131-134 | the listing is complete at every limit iff no two rows share (liked_at, content_id) |
| Pagination.FilteredListingIsComplete | src/storage/likes_repository.rs:290-332 | a listing with a content type filter is complete for every limit: it has exactly the user's likes of that type, latest first |
| Pagination.TiedLikesAreListed | src/storage/likes_repository.rs:355-370 | two likes of one user in one instant, of items of different types under one id, give exactly those two rows |
| Pagination.TiedRowsAreLost | src/storage/likes_repository.rs:333-354 | over those rows, for any id and instant, an unfiltered walk at limit 1 ends, and always without one of them |
| CircuitBreaker.Breaker.PruneOutcomes | src/resilience/circuit_breaker.rs:201-210 | the loop that pops old outcomes off the front |
| CircuitBreaker.Breaker.IsFailureRateThresholdReached | src/resilience/circuit_breaker.rs:212-222 | at least minimum samples, and failures at more than half of the positions |
| CircuitBreaker.Breaker.AllowRequest | src/resilience/circuit_breaker.rs:45-77 | new state and answer: open until open_duration has elapsed, then half-open |
| CircuitBreaker.Breaker.RecordSuccess | src/resilience/circuit_breaker.rs:79-128 | new state: a success resets the run of failures and may still open on the rate; half-open counts up to the threshold |
| CircuitBreaker.Breaker.RecordFailure | src/resilience/circuit_breaker.rs:130-179 | new state: open on the run or the rate, reopen from half-open, nothing when open |
| CircuitBreaker.PruneIsFilter | src/resilience/circuit_breaker.rs:201-210 | on outcomes in clock order, popping from the front leaves exactly those within the window |
| CircuitBreaker.PruneThenPush | src/resilience/circuit_breaker.rs:87-92 | pruning what earlier prunes left, then pushing, gives the window of the whole log |
| CircuitBreaker.ReportRefines | src/resilience/circuit_breaker.rs:79-179 | one report keeps breaker and reference related, and leaves a closed breaker below both thresholds |
| CircuitBreaker.EveryRunRefines | src/resilience/circuit_breaker.rs:79-179 | in every run with a monotone clock the deque is the window of the outcomes since the last close, the counter is the trailing failure run of the full history, it leaves Closed exactly when the rule on the log fires, counters stay below their thresholds and openings are open_duration apart |
| CircuitBreaker.SameAnswers | src/resilience/circuit_breaker.rs:45-77 | breaker and reference let the same requests through |
| CircuitBreaker.TrailingFailuresAre | src/resilience/circuit_breaker.rs:138-150 | the failure count reaches n iff the last n reports failed |
| CircuitBreaker.RecentIsTheEnd | src/resilience/circuit_breaker.rs:201-210 | the window of an ordered log is the log from its first outcome that is no older than failure_window |
| CircuitBreaker.OpensIff | src/resilience/circuit_breaker.rs:79-160 | in every run a report opens the closed breaker iff it completes failure_threshold failures in a row, or at least failure_threshold outcomes since the last close are no older than failure_window and more than half of those failed |
| CircuitBreaker.SuccessesKeepItClosed | src/resilience/circuit_breaker.rs:94-100 | while no outcome in the window failed, a success leaves the breaker closed |
| CircuitBreaker.NothingDuringCoolDown | src/resilience/circuit_breaker.rs:53-74 | no request is let through within open_duration of any opening, whatever late reports arrive |
| CircuitBreaker.ClosesAfterSuccesses | src/resilience/circuit_breaker.rs:112-126 | half-open closes only on the success that completes max(1, success_threshold) of them with no failure between |
| CircuitBreaker.SpacedCount | src/resilience/circuit_breaker.rs:53-77 | openings at least a gap apart: how many fit in a span |
| CircuitBreaker.OpeningsBounded | src/resilience/circuit_breaker.rs:98-100 | any span of length D sees at most D / open_duration + 1 openings |
| CountCache.LocalLikeCountCache.Get | src/app_state.rs:114-132 | a live entry's count; an expired entry is removed |
| CountCache.LocalLikeCountCache.Set | src/app_state.rs:134-140 | the entry and its expiry; other keys unchanged |
| CountCache.LikesUseCases.IncrementCachedLikeCount | src/use_cases.rs:114-131 | a live Redis count grows by one and gets a new time to live; an absent one stays absent |
| CountCache.LikesUseCases.DecrementCachedLikeCount | src/use_cases.rs:133-155 | a live Redis count shrinks by one, not below 0, and gets a new time to live |
| CountCache.LikesUseCases.Like | src/use_cases.rs:34-68 | validation first, then database, Redis only if a row was inserted; the reply's already_existed, liked_at and count are read back after the write |
| CountCache.LikesUseCases.Unlike | src/use_cases.rs:70-100 | the same for unlike, with was_liked |
| CountCache.Instance.CacheLikeCount | src/http/helpers.rs:222-234 | both caches hold the count afterwards |
| CountCache.Instance.Write | src/http/likes.rs:47-76 | the POST and DELETE handlers: all four levels after write, cache refresh and publish to every subscriber |
| CountCache.Instance.GetCachedLikeCount | src/http/helpers.rs:161-177 | local cache, else Redis, whose answer is kept locally |
| CountCache.Instance.ApplyNextUpdate | src/infra/bootstrap.rs:343-352 | the subscriber takes the oldest update and stores it locally |
| Coherence.HttpWriteIsItsHalves | src/http/likes.rs:47-76 | the atomic HTTP write is its two halves, use case and cache refresh with publish, with nothing between |
| Coherence.WriteCounts | src/use_cases.rs:34-100 | whatever Redis holds, a write takes effect iff it changes its row, and changes its item's count alone, by one |
| Coherence.WriteIsExact | src/use_cases.rs:34-155 | a write takes effect iff it changes the row, changes that row and that count only, by one, reports the new count and liked_at, and keeps every live Redis count equal to the database's: the clamp never fires |
| Coherence.RedisFollowsTheWrite | src/use_cases.rs:114-155 | whatever Redis holds, an effective write moves a live Redis count by one, not below 0, and renews its time to live; nothing else in Redis changes |
| Coherence.WriteLivesInBothCaches | src/http/helpers.rs:222-234 | an HTTP write is answered from its process for 60 s and from Redis for the time to live, and no longer |
| Coherence.FillLivesInBothCaches | src/http/likes.rs:308-316 | the same for what a read that both caches miss, or the end of a fill, caches |
| Coherence.HttpWriteCoherent | src/http/likes.rs:57-76 | an HTTP write keeps every process's agreement: its own cache is current and every queue ends with the new count |
| Coherence.GrpcWriteCoherent | src/use_cases.rs:34-100 | a gRPC write keeps the invariant for all items but the one it makes stale |
| Coherence.ReadCoherent | src/http/likes.rs:289-319 | a read keeps the invariant |
| Coherence.StartFillCoherent | src/http/likes.rs:308-310 | a leader's database read keeps the invariant |
| Coherence.StartWriteCoherent | src/http/likes.rs:47-56 | the use-case half of an HTTP write keeps it, its item being stale until published |
| Coherence.EndFillCoherent | src/http/likes.rs:57-76 | caching what was read, and publishing it after a write, keeps it if the writes in between balance |
| Coherence.LatePublishIsStale | src/http/likes.rs:57-76 | publishing late spoils the agreement on no item but its own |
| Coherence.DeliverCoherent | src/http/helpers.rs:263-266 | delivering an update keeps it, also when later updates are still queued |
| Coherence.TickCoherent | src/app_state.rs:118-131 | expiry keeps it |
| Coherence.EveryRunKeeps | src/http/helpers.rs:161-266 | every run: the aggregates are exact, every live Redis count equals the database's, the last queued update or else the live local entry is current, and every cached or queued count was true recently |
| Coherence.QuiescentAgreement | src/infra/bootstrap.rs:334-372 | once a process's queue is empty it reads the database count, which is the number of likers, for every item not written over gRPC since its last HTTP write |
| Coherence.HttpOnlyAgreement | src/http/likes.rs:57-76 | with HTTP writes only, atomic or in halves, once all queues are empty and all writes published every process reads the database count for every item |
| Coherence.BoundedStaleness | src/http/helpers.rs:354-360 | every count a read returns, gRPC writes included, was true less than 60 s plus the delivery delay ago |
| Staleness.LocalAnswersAreRecent | src/http/helpers.rs:354-360 | in every run a count answered from the local cache was stored there less than 60 s before, by a write, read, fill or delivered update of the item at that process |
| Staleness.StalenessBoundIsReached | src/http/helpers.rs:354-360 | and the bound is exact: in some run a read returns a count that was last true 60 s plus the delivery delay, less one microsecond, ago |
| Staleness.GrpcWriteSplitsIff | src/use_cases.rs:34-100 | a gRPC write that takes effect leaves a process that agreed on the item right iff it holds no live local count |
| Staleness.GrpcSplitLastsAsLongAsTheEntry | src/app_state.rs:114-131 | in every run until the item is written again, the process reads the current count iff the entry it held at the write has expired |
| Staleness.LiveEntryIsRightIffBalanced | src/use_cases.rs:34-155 | through any number of gRPC writes, a live local count that was right is right iff as many likes as unlikes took effect since |
| Staleness.GrpcWriteLeavesStaleReads | src/use_cases.rs:34-68 | a process that read an item just before a gRPC write serves the old count for exactly 60 s |
| Overtaken.FillLogsWrites | src/http/likes.rs:308-316 | a pending fill or write logs exactly the likes and unlikes of its item that took effect since its read, in any run |
| Overtaken.EndFillIff | src/http/helpers.rs:222-234 | caching what was read keeps Redis exact iff that log balances, and without publishing keeps the agreement iff it balances, the item is stale, or a later update is queued |
| Overtaken.LateFillIff | src/http/likes.rs:308-316 | the same for a whole fill, from its read over any events in which other items' fills balance to its caching |
| Overtaken.LateFillItemIff | src/http/likes.rs:308-316 | over any events whatever, Redis has the item right after the fill iff as many likes as unlikes of it took effect in between |
| Overtaken.EndWriteIff | src/http/likes.rs:57-76 | caching and publishing puts the item right everywhere, whatever was wrong before, iff the log balances |
| Overtaken.LateWriteIff | src/http/likes.rs:47-76 | an HTTP write over any events between its halves leaves every cache right, once the queues drain, iff as many likes as unlikes of its item took effect in between |
| Overtaken.OverlappingLikesLeaveCachesBehind | src/http/likes.rs:47-76 | two overlapping likes of one item, the first to write publishing last, leave the caches behind the database, from any sound world |
| Overtaken.LateFillLeavesStaleReads | src/http/likes.rs:308-316 | a run in which an HTTP write overtakes a fill ends with both caches at the old count and nothing queued |
| Overtaken.TooHighFillLosesTheBound | src/use_cases.rs:114-131 | after any fill that leaves Redis too high, gRPC likes bring every other process without a live local count to serve a count the history never had |
| Overtaken.LateFillServesACountThatNeverWas | src/use_cases.rs:114-131 | a run of four events that does so from the start |
| Staleness.BatchCountsWereTrue | src/http/batch.rs:35-66 | every count a batch answers was true within the staleness bound |
| SingleFlight.InflightFills.BeginLikeCountFill | src/app_state.rs:81-92 | Follower of the live entry, or Leader of a fresh one |
| SingleFlight.InflightFills.FinishLikeCountFill | src/app_state.rs:94-105 | removes the entry only if it is the caller's own handle, and wakes the waiters |
| SingleFlight.LeadKeeps | src/app_state.rs:88-91 | becoming leader of a free key disturbs nobody's ownership |
| SingleFlight.FinishKeeps | src/app_state.rs:94-105 | finishing any permit, also one another leader finished long ago, removes no other task's entry |
| SingleFlight.StepKeeps | src/http/batch.rs:72-152 | every step of a reader or a batch keeps ownership and removes only its own entries |
| SingleFlight.EveryRunIsOwned | src/http/likes.rs:307-352 | ownership in every interleaving, whatever the lookups find or fail with |
| SingleFlight.OneFillPerKey | src/app_state.rs:81-105 | a key is in flight iff a task holds an unfinished permit for it, at most one does, and only that task's step removes it |
| SingleFlight.WaitsClimb | src/http/batch.rs:72-118 | with increasing batches, a task waiting for one that waits, waits for a lower key |
| SingleFlight.NoWaitCycle | src/http/batch.rs:72-118 | with increasing batches no tasks wait for each other in a ring |
| SingleFlight.UnblockedMoves | src/http/likes.rs:307-352 | a task that is not done and not waiting on an unfinished fill can always step |
| SingleFlight.RunnableLeader | src/http/batch.rs:72-118 | following the waits upward ends at a leader that can run |
| SingleFlight.OrderedNeverStuck | src/http/batch.rs:72-152 | so a run with increasing batches is never stuck, and some waited-for leader can run |
| FillProgress.EffectiveStepSpends | src/http/likes.rs:307-352 | every step that changes something spends some of a finite budget |
| FillProgress.EffectiveStepsAreBounded | src/http/batch.rs:72-152 | every run, of any tasks and lookup results, has at most its budget of effective steps |
| FillProgress.OrderedRunsGetDone | src/http/batch.rs:72-152 | with increasing batches, a run that took its whole budget, or that no step can change any more, has answered every task |
| FillProgress.EveryRunCanGetDone | src/http/batch.rs:72-152 | with increasing batches every run can be continued until all tasks are answered |
| Knots.OrderableIffNoCore | src/http/batch.rs:72-118 | an order of the keys makes every batch strictly increasing iff no set of keys has each of them listed before another of the set |
| Knots.CoreHasKnot | src/http/batch.rs:72-118 | in such a set there are keys with a batch each that lists its key before another of the keys |
| StuckRuns.StuckHasCore | src/http/batch.rs:72-118 | in a stuck state every awaited key is led by a batch that waits for an awaited key it lists later |
| StuckRuns.Passes | src/http/batch.rs:79-88 | with a reader of a key that leads first, a batch passes the key and nothing else changes |
| StuckRuns.KnotLocks | src/http/batch.rs:72-118 | the batches of a knot, with readers for the other keys, come to wait for each other |
| StuckRuns.StaysLocked | src/app_state.rs:94-105 | once they do, no step of any task frees one |
| StuckRuns.StuckIffNoOrder | src/http/batch.rs:72-118 | for any batches, some run of them among readers gets stuck iff no order of the keys makes every batch strictly increasing |
| StuckRuns.OrderableRunsGetDone | src/http/batch.rs:72-152 | with such an order every run among readers is finite, and one that cannot move any more has answered every task |
| StuckRuns.OneSticksIffRepeats | src/http/batch.rs:75-80 | a batch can get stuck among readers iff it repeats a key |
| StuckRuns.PairSticksIffOpposite | src/http/batch.rs:72-118 | two batches of distinct keys can get stuck among readers iff they list two keys in opposite orders |
| Deadlocks.LeadsFreeKeys | src/http/batch.rs:72-78 | a batch's own turns lead any distinct keys nobody leads, and change nothing else |
| Deadlocks.BatchesFinishNothingBeforeQuery | src/http/batch.rs:72-120 | while all batches are before their query nothing is finished, and each holds exactly the keys it came past |
| Deadlocks.NeverPastRepeat | src/http/batch.rs:75-80 | under every schedule and whatever its lookups find, a batch alone never comes past the first repeated key |
| Deadlocks.RepeatedKeyDeadlocks | src/http/batch.rs:75-80 | a batch with a repeated missing key waits for itself |
| Deadlocks.DistinctBatchAloneIsAnswered | src/http/batch.rs:72-152 | a batch alone with distinct missing keys can be answered |
| Deadlocks.AloneAnsweredIffDistinct | src/http/batch.rs:72-152 | a batch alone can be answered under some schedule and lookups iff its missing keys are distinct |
| Deadlocks.PairAloneDeadlocksIffItCrosses | src/http/batch.rs:72-118 | with no other task, two batches of distinct keys can be stuck iff for some i and j the first i keys of one and the first j of the other are disjoint and each's next key is among the other's |
| Deadlocks.OppositeOrdersDeadlock | src/http/batch.rs:72-80 | two batches with two keys in opposite orders can be stuck |
| Unanswered.NeverFollowsTwice | src/http/batch.rs:79-96 | with at most one other task naming a key, a batch that waited for it finds it free on its retry, in every run |
| Unanswered.OneRivalLeavesNoGap | src/http/batch.rs:72-165 | if at most one other task names a key (a reader of it, or a batch of distinct keys), a batch of distinct keys never answers without a count for it |
| Unanswered.TwoReadersLeaveAGap | src/http/batch.rs:90-96 | with two readers of a key some run has the batch answered without a count for it, whatever its other keys and the other tasks |
| Unanswered.GapIffTwoReaders | src/http/batch.rs:72-165 | a batch of distinct keys among readers may answer without a count for a key iff at least two readers ask for it |
| BatchLookup.CachedInTurnIsPointwise | src/http/helpers.rs:161-177 | cached lookups one after the other answer and change each key as one lookup of it alone, however often keys repeat |
| BatchLookup.CountInTurnIsPointwise | src/http/likes.rs:268-319 | the same for counts that fall back to the database |
| BatchLookup.StatusInTurnIsPointwise | src/http/likes.rs:215-266 | the same for statuses, each the live cached one or else liked iff the user's row exists, with its instant |
| BatchLookup.CountHandlers.GatherLocal | src/http/helpers.rs:187-198 | the first loop: local counts by position, the missing positions, expired entries dropped |
| BatchLookup.CountHandlers.ScatterValues | src/http/helpers.rs:204-217 | MGET and the scatter loop: each position has its local or Redis count |
| BatchLookup.CountHandlers.GetCachedLikeCounts | src/http/helpers.rs:179-220 | answers and local cache equal those of single lookups in turn, for any keys, repeated or not |
| BatchLookup.CountHandlers.GetLikeCount | src/http/likes.rs:268-352 | one attempt, the first or one after a wait: the caches, else the database count, which both caches then hold, else a wait for the live leader with nothing else changed |
| BatchLookup.CountHandlers.BeginFills | src/http/batch.rs:72-80 | leads every missing item iff each key is free when its turn comes, else stops at the first that is not, waiting for its leader and leading exactly those before |
| BatchLookup.CountHandlers.FinishFills | src/http/batch.rs:134-152 | every led item is answered, cached in both caches and its permit finished and woken, live or stale; only live permits leave the table |
| BatchLookup.ReleasedRestores | src/app_state.rs:94-105 | finishing what a batch led leaves the in-flight table as it was before |
| BatchLookup.FreeToLeadIff | src/http/batch.rs:72-78 | for items the service accepts, each key is free in its turn iff none is in flight and none is repeated |
| BatchLookup.CountHandlers.GetLikeCountsBatch | src/http/batch.rs:22-168 | a batch of any items is refused as too large, or answers with counts and caches equal to single counts in turn and no fill left behind, iff its missing items are free to lead, or is at its first wait |
| BatchLookup.StatusHandler.GetLikeStatusesBatch | src/http/batch.rs:170-270 | answers and status cache equal those of single status lookups in turn, in request order: the live cached status, else liked iff the user's row exists, with its instant; at most 100 items |
| Encoding.Utf8RoundTrip | src/http/helpers.rs:141-142 | decoding the UTF-8 of any text gives the text |
| Encoding.Utf8Layout | src/http/helpers.rs:131-142 | the bytes of a character: their number, ranges and bits, as section 3 of RFC 3629 lays them out |
| Encoding.Utf8Canonical | src/http/helpers.rs:141-142 | the decoder accepts nothing but what the encoder writes |
| Encoding.Base64RoundTrip | src/http/helpers.rs:131-139 | decoding the base64 of any bytes gives the bytes |
| Encoding.Base64BySixes | src/http/helpers.rs:131-134 | four symbols for three bytes, each the one that table 1 of RFC 4648 gives its own six bits, padding where there are none |
| Encoding.Base64Canonical | src/http/helpers.rs:136-139 | the strict decoder accepts nothing but what the encoder writes |
| Encoding.AsciiBase64Safety | src/http/helpers.rs:131-134 | for ASCII bytes the text contains '+' or '/' iff a third byte of a group ends in 62 or 63 |
| Keys.ContentTypesAreNormal | src/domain.rs:29-50 | accepted content types are normal forms, and exactly the normal forms parse to themselves |
| Keys.ParsedTypeIs | src/domain.rs:29-50 | a content type is accepted iff the text between its first and last character that is not Unicode white space is an ASCII letter followed by letters, digits and underscores, and it is then that text in lower case |
| Keys.CursorRoundTrip | src/http/helpers.rs:131-159 | a row's cursor decodes to it iff liked_at is non-empty without '\|' and content_id is non-empty |
| Keys.CursorCanonical | src/http/helpers.rs:136-159 | an accepted cursor is the one issued for what it decodes to |
| Keys.CursorIsQuerySafe | src/storage/likes_repository.rs:294-296 | over the timestamp and UUID alphabets a cursor has no '+' or '/' |
| Keys.CacheKeysAreInjective | src/http/helpers.rs:78-99 | within and across the three kinds, key texts are equal iff the keys are, up to "all" and no filter |
| Formats.KeyFields | src/http/helpers.rs:78-99 | split at its colons a key is "likes", its kind and its fields in order, "all" standing for no filter |
| Formats.CountEtagFields | src/http/helpers.rs:40-46 | a count tag quotes "count", type, id and count, between colons |
| Formats.TopEtagFields | src/http/helpers.rs:48-65 | a ranking tag quotes the base64 of "top", window and type, and after a bar each item's type, id and count, in order |
| Text.DecimalReads | src/resilience/rate_limit.rs:279 | a number in a key reads as that number, without leading zeros |
| Keys.CountEtagInjective | src/http/helpers.rs:40-46 | count tags are equal iff type, id and count are |
| Keys.ItemsTextInjective | src/http/helpers.rs:54-61 | the item part of the ranking tag determines all items, for any number of them |
| Keys.TopEtagInjective | src/http/helpers.rs:48-65 | ranking tags are equal iff the responses are, up to "all" and no filter |
| Keys.NotModifiedIffListed | src/http/helpers.rs:67-76 | for a client that lists its tags the match succeeds iff the current tag or '*' is listed |
| Keys.CountNotModifiedIffHeld | src/http/likes.rs:361-374 | a client that sends the tags of counts it holds is answered 304 iff one of them is the current body |
| Keys.TopNotModifiedIffHeld | src/http/helpers.rs:48-76 | the same for rankings, up to "all" and no filter |

## Left out

Assumptions of the models:

- Redis is reachable and the database answers: the fail-open branches of both limiters for a failed Redis, and the branches that fall back to the database or skip a refresh when Redis fails, are not part of the cache models (a failed lookup is a branch of the single-flight protocol).
- Transactions and Redis scripts are atomic, `NOW()` is fixed within a transaction, and a replica read sees every committed write.
- In `Coherence` a use case, a read, and a cache refresh with its publish are one atomic step each, at one instant, and subscribers are connected and receive updates in order. Agreement and staleness are about runs whose split fills and writes balance; `Overtaken.LateFillItemIff` and `Overtaken.LateWriteIff` show that this is needed.
- In `SingleFlight` obtaining a Follower permit and registering as a waiter are one step, a task is never cancelled between begin and finish, and cache keys are named by their rank in one order.
- How the Redis client converts a reply above u32 is not part of this model: the write limiter is proved for a client that refuses it and for one that wraps it, and the read counter never exceeds its limit.
- Clocks do not go back. The cache model has one clock for all processes and Redis; the breaker takes its readings as parameters.
- The database's collation is any strict total order on strings, passed as a parameter.

Members whose statement is narrower than the source's reach:

- BatchLookup.CountHandlers.GetLikeCountsBatch: describes the handler up to its answer or its first wait; what follows a wait is in `SingleFlight`.
- RateLimit.AdmittedWithinLimit: requires limit < 2^32 - 1, the exact condition being `RateLimit.BoundHoldsIff`.
- Pagination.WalkUnderChange: is about a content type filter and new likes later than the cursors issued; without a filter `Pagination.CompleteIffPositionsDistinct` gives the condition.

Not modelled:

- Routing, headers, JSON, logging, metrics, configuration, health checks, the event stream and its heartbeats, and the gRPC mapping of errors.
- The profile and content clients: their results are arbitrary reports to the breaker, and content validation is a boolean parameter.
- The caches of statuses under HTTP writes and of rankings: the same pattern as the count cache without a push; batch statuses are modelled.
- The rendering of timestamps: pagination compares instants in microseconds, the cursor codec carries their text.
- Parsing of identifiers: content ids and user ids are texts over the UUID alphabet.
- BIGINT, i64 and u64 overflow: counts and instants are unbounded; u32 saturation in the read limiter is modelled.
- Caches are indexed by the item rather than by the key text, which `Keys.CacheKeysAreInjective` justifies; the breaker's deque is a sequence inside its state value.
- The address a read is charged to (`client_ip`): the subject is a parameter.
