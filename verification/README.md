# Verified model of the destination-management service

A Dafny model of the stateful cores of the service, with the properties they are meant to have.
PostgreSQL appears as tables (maps and sequences) with snapshots and a unique constraint, Redis as
one key store with expiry times, and other clients as interleaved steps or as the outcome of a
flush. `dafny verify dfyconfig.toml` checks everything.

| area | modules |
|---|---|
| stampede-protected cache and its coherence with the table | `CacheKeys`, `CacheClient`, `StampedeCache`, `CacheCalls`, `Staleness`, `StaleRefill`, `SingleFlight` |
| bulk upsert, one call and many at once | `BulkUpsert`, `UpsertProtocol`, `UpsertConflicts` |
| keyset pagination and its cursors | `Keyset`, `EntityPages`, `ClassificationPages`, `ListingOrder`, `Cursor`, `CursorFormat`, `Base64Url`, `Json`, `JsonText` |
| rate limiter | `SlidingWindow`, `RateLimitRaces` |
| maintenance jobs | `BatchScan`, `UnifyJob`, `Country`, `CountryParts`, `NormalizeJob`, `BackfillJob` |
| language-model replies | `JsonRepair`, `ReplyRecovery` |
| rendered descriptions | `ProseMirror`, `DocumentLinks`, `RenderedElements` |
| shared | `Options`, `Text` |

Protocols are lists of labelled steps: `Enabled` says when a step may happen, `Apply` what it does,
`Runs` and `Exec` fold it over a whole run. Code that works in place is a method with its loop, or a
class with the fields it updates, proved against a function or a predicate on the old state.  What
those functions mean is then said once more without naming them: in `CacheCalls`, `ListingOrder`,
`CursorFormat`, `JsonText`, `CountryParts` and `RenderedElements`, and in the lemmas on single rows of
the upsert and the jobs.

Where the code falls short of what one would expect of it, the code is modelled as it is:

- a rollback in bulk upsert discards the updates of rows that existed, and the retry does not
  repeat them (`BulkUpsert.FieldsLandIff`, `BulkUpsert.RollbackLosesUpdates`); the docstring's "ON
  CONFLICT DO UPDATE" is not what the statement does;
- the retry overwrites every column of a row that another client has inserted in the meantime, its
  categories and scores included (`BulkUpsert.OthersColumnsStayIff`,
  `BulkUpsert.RetryErasesColumns`);
- the snapshot is older than the lock, so the call that commits last may leave the other call's
  values in the row (`UpsertProtocol.LastCommitDoesNotWin`);
- a refill between invalidation and commit is served for up to ttl + lag after the commit, and no
  longer (`StaleRefill.StaleHitIff`);
- a listing filtered by category mixes rows of one version with levels of another, because the
  fetch looks the level map up through the cache: `StaleRefill.MixedListing` reaches such a fetch,
  and `StaleRefill.OldLevelsIff` and `StaleRefill.OldLevelsHitIff` say for how long after a commit
  it can be fetched and hit (the source set likewise: `StaleRefill.OldSourcesIff`,
  `StaleRefill.OldSourcesHitIff`); queries that read neither are answered by one version
  (`Staleness.OneVersionHits`);
- the stampede lock stops being exclusive once a caller has lost its lock
  (`SingleFlight.LostLockBreaksSingleFlight`);
- with every source disabled the source filter is left out, so all sources are listed
  (`EntityPages.BaseClauses`); the comment "all enabled = no filter needed" is about another case;
- concurrent requests overshoot the rate limit by up to K - 1 (`RateLimitRaces.OvershootReached`);
- the batch jobs start above the nil UUID, so a row with that id is never reached
  (`UnifyJob.CountsAgreeIff`, `NormalizeJob.NothingLeft`, `BackfillJob.DryRunAgainstRun`);
- the brace matcher counts braces inside strings (`ReplyRecovery.RecoveredIff`), and a reply that
  neither attempt parses ends in a bare `raise` with nothing to re-raise, which is kept apart here
  as `Unparsable`;
- an href is written unescaped, so a double quote in it can break the document: exactly when is
  stated for documents (`DocumentLinks.DocumentRendersIff`) and for one link with any href of at most
  one kind of angle bracket (`ProseMirror.LinkRendersIff`); `ProseMirror.OneQuoteLosesDocument` is a
  failing document;
- text nodes under a code block are not rendered (`ProseMirror.DocumentTextIff`,
  `ProseMirror.CodeBlockChildIsLost`).

The main results, one per core:

1. `Staleness.BoundedStaleness`, `Staleness.HitContents`, `StaleRefill.StaleHitIff`, `StaleRefill.OldLevelsHitIff`, `Staleness.TwoLifetimes`: how old a served answer and each of its parts can be, exactly.
2. `SingleFlight.CalmRunsHold`, `SingleFlight.LostLockBreaksSingleFlight`, `CacheCalls.FallThroughPolledInVain`: when one caller at a time fetches, and when not.
3. `BulkUpsert.Session.BulkUpsert`, `BulkUpsert.FieldsLandIff`, `BulkUpsert.OthersColumnsStayIff`, `BulkUpsert.SecondRunChangesNothing`: one bulk upsert.
4. `UpsertProtocol.ConcurrentUpsertsAreSafe`, `UpsertProtocol.CommitPublishes`, `UpsertConflicts.GiveUpReached`: any number of them at once.
5. `Keyset.LawfulWalks`, `ListingOrder.SearchWalkOrder`, `EntityPages.EntityWalks`, `ClassificationPages.ClassificationWalk`: following cursors is listing.
6. `Cursor.CursorRoundTrip`, `CursorFormat.ObjectOutcome`: cursors are read back, and what else is refused.
7. `SlidingWindow.Limiter.Dispatch`, `RateLimitRaces.SerialIsSlidingWindow`, `RateLimitRaces.OvershootBound`: the rate limiter alone and under concurrency.
8. `UnifyJob.Job.Run`, `UnifyJob.RunSettlesRow`, `NormalizeJob.Resumable`, `BackfillJob.DryRunAgainstRun`: batched jobs equal one pass.
9. `JsonRepair.RepairedReadsLeniently`, `ReplyRecovery.RecoveredIff`: what is made of a language model's reply.
10. `ProseMirror.RenderIsNeutral`, `RenderedElements.DocumentSeen`, `DocumentLinks.DocumentRendersIff`, `ProseMirror.DocumentTextIff`: rendered descriptions.

## Model

| member | source | states |
|---|---|---|
| `Staleness.BoundedStaleness` | src/dmo/services/cache.py:71-124 | in every reachable state, whatever the interleaving of readers, waiters, fall-through fetchers, nested level lookups, invalidations, commits and expiry: a hit read at time t is the query's own answer on committed inputs, with rows current after t - (ttl + lag), a level map at most 60 s + lag and a source set at most 30 s + lag older |
| `Staleness.HitContents` | src/dmo/services/query_api.py:91-341 | the same endpoint by endpoint: what a hit is made of (a stored body without hours, open hours, the level map, a listing by its rows, levels and sources) and how recent each part is, with the lifetimes 1800, 300 and 60 s or the default |
| `CacheCalls.HitAnswers` | src/dmo/services/cache.py:86-117 | a GET that finds live data ends in a hit with that very value: on arrival, at any of the 100 polls of a waiter, and under the lock |
| `CacheCalls.MissGoesOn` | src/dmo/services/cache.py:86-121 | a GET that finds none leads on to the lock, to the next poll, or to the fetch |
| `CacheCalls.LockLaw` | src/dmo/services/cache.py:93-99 | SET NX EX takes the lock for 5 s exactly when no live lock is there; otherwise the caller waits |
| `CacheCalls.WaiterGetsHoldersValue` | src/dmo/services/cache.py:97-122 | from any state: what the lock holder stores, a waiter answers with at its next poll while the entry lives |
| `CacheCalls.FallThroughPolledInVain` | src/dmo/services/cache.py:97-111 | over whole runs: a caller falls through only after 100 polls, and at each of them the key held no live data |
| `CacheCalls.FetchersCheckedTwice` | src/dmo/services/cache.py:93-121 | over whole runs: a caller fetches under the lock only after taking a lock that was free and then finding no live data |
| `CacheCalls.FailureReleases` | src/dmo/services/cache.py:119-124 | a fetch that raises leaves no value, no lock and no answer |
| `CacheCalls.FallThroughFetches` | src/dmo/services/query_api.py:304-336 | a caller that fell through answers with its own fetch and stores it afterwards for the endpoint's lifetime; the open-status lookup has no answer then, and a level map is not stored |
| `CacheCalls.ForgottenSourcesReload` | src/dmo/services/source_filter.py:59-64 | after the copy is cleared the next reader loads the source set of its own version |
| `StaleRefill.StaleHitIff` | src/dmo/services/write.py:215-216 | for a query whose answer a commit changes: a session that itself sees the commit can hit, d ms after it, a value that no committed version from it on has exactly when d < ttl + lag |
| `StaleRefill.OldLevelsIff` | src/dmo/services/search.py:56-65 | a session opened d ms after a commit of the level map can fetch a query on its own rows with the level map from before exactly when the query is filtered by category and d < 60 s + lag |
| `StaleRefill.OldSourcesIff` | src/dmo/services/source_filter.py:26-56 | the same for a worker's source set: exactly when the query reads it and d < 30 s + lag |
| `StaleRefill.MixedListing` | src/dmo/services/search.py:56-65 | the run for every such d: a session on the later version is about to store the listing of its own rows filtered by the earlier version's levels |
| `StaleRefill.OldLevelsHitIff` | src/dmo/services/search.py:56-65 | for a listing that shows the difference: a hit with the level map from before a commit is possible d ms after it exactly when d + 1 < ttl + lag + 60 s + lag |
| `StaleRefill.OldSourcesHitIff` | src/dmo/services/source_filter.py:26-56 | the same for the source set: exactly when d + 1 < ttl + lag + 30 s + lag |
| `Staleness.OneVersionHits` | src/dmo/services/cache.py:71-124 | a hit of a query whose fetch reads neither level map nor source set is what one committed version answers, still current after t - (ttl + lag) |
| `StaleRefill.LateHit` | src/dmo/services/write.py:215-216 | the run for every such d: a reader refills between a writer's invalidation and its commit, storing as late as it may |
| `Staleness.LevelsAreFresh` | src/dmo/services/taxonomy.py:23-44 | the level map that a fetch looks up through the cache is that of a committed version current no more than 60 s + lag before the fetch's session opened |
| `Staleness.CommitReachesHits` | src/dmo/services/write.py:215-216 | once a commit is ttl + lag old every hit has its rows; its level map and its source set follow within LEVELS_TTL + lag and SOURCES_TTL + lag more |
| `Staleness.NoForeignValues` | src/dmo/services/cache.py:97-124 | whatever happens to locks and leases, what is stored under a query's key was the answer to that same query on committed versions, and never a lock |
| `Staleness.NotFoundIsNotCached` | src/dmo/services/query_api.py:293-308 | an entity that no committed version has is not stored as a detail |
| `Staleness.TwoLifetimes` | src/dmo/services/query_api.py:286-341 | the hours of a served detail are blank, as they are whenever the open-status lookup brings nothing, or those of the open-status answer alone, on a version current within 60 s + lag of that read, even when the body is up to 1800 s + lag old |
| `Staleness.DetailShape` | src/dmo/services/query_api.py:293-301 | every detail answer, cached or fetched, carries no hours of its own |
| `Staleness.StepKeepsInv` | src/dmo/services/cache.py:71-124 | every step of every party keeps all cached entries, pending stores and answers attributable to a committed version of bounded age |
| `Staleness.RunKeepsInv` | src/dmo/services/cache.py:71-124 | the same over whole runs; time does not go back and the history of commits is only extended |
| `SingleFlight.CalmRunsHold` | src/dmo/services/cache.py:97-124 | through any run segment without lease overrun and without invalidation of the lock key, at most one caller per query is between its SET NX and its delete, and it holds the live lock |
| `SingleFlight.StepKeepsHeld` | src/dmo/services/cache.py:97-124 | each single calm step keeps every critical caller in possession of its own lock |
| `SingleFlight.ReleaseRemovesOwnLock` | src/dmo/services/cache.py:123-124 | the unconditional delete at the end of a calm segment removes the deleter's own lock |
| `SingleFlight.LostLockBreaksSingleFlight` | src/dmo/services/cache.py:97-124 | from any state in which a caller between SET NX and delete has lost its lock, some continuation puts a second caller there, and the first one's delete would remove the second one's lock |
| `SingleFlight.DisturbanceLosesLock` | src/dmo/services/cache.py:97-124 | a lease overrun, or an invalidation of the lock key, is enough to lose it |
| `SingleFlight.DisturbanceBreaksSingleFlight` | src/dmo/services/cache.py:97-124 | from the initial state, either disturbance leads to two callers in the critical section |
| `CacheClient.Cache.GetOrSet` | src/dmo/services/cache.py:71-124 | run alone: a stored value is returned untouched; a foreign lock costs exactly 5 s and yields nothing; otherwise the fetched value is stored with its lifetime, and the lock is gone whether or not the fetch raised |
| `CacheClient.Cache.DeletePattern` | src/dmo/services/cache.py:64-68 | the scan-and-delete loop removes exactly the keys that match and leaves every other entry as it was |
| `CacheClient.Cache.InvalidateEntity` | src/dmo/services/write.py:28-40 | the purge after a write removes exactly the keys under one of the eight prefixes |
| `CacheKeys.DataKeyInjective` | src/dmo/services/cache.py:33-37 | without a hash collision, two queries with the same data key are the same query |
| `CacheKeys.KeysApart` | src/dmo/services/cache.py:90-91 | a lock key is never a data key, and lock keys of different queries differ |
| `CacheKeys.PatternTakesFamily` | src/dmo/services/write.py:30-40 | an endpoint's pattern takes all its data keys and all its lock keys, and none of another endpoint |
| `CacheKeys.PurgedIff` | src/dmo/services/write.py:28-40 | the purge after an entity write takes data and lock keys of exactly eight endpoints |
| `CacheKeys.RateLimitKeysSurvive` | src/dmo/services/write.py:28-45 | neither purge touches the rate limiter's keys |
| `BulkUpsert.Session.BulkUpsert` | src/dmo/services/write.py:246-469 | last entry per key in first-occurrence order; at most three flushes fail, each a conflict over a batch with a missing key; EntityError exactly when three failed and a key is still missing; otherwise every result slot holds the id of the row that owns its key, and every row is accounted for |
| `BulkUpsert.Deduplicate` | src/dmo/services/write.py:258-274 | the in-place loop yields each key once, with its last entry, in order of first occurrence |
| `BulkUpsert.EntryFor` | src/dmo/services/write.py:258-266 | the entry a batch has for a key is its last one with that key, and is absent only if no entry has the key |
| `BulkUpsert.ApplyKnown` | src/dmo/services/write.py:289-319 | one pass over the batch changes exactly the rows the query found, and reports which entry found which row |
| `BulkUpsert.SortFound` | src/dmo/services/write.py:416-435 | re-checked slots get the id found for them, the others stay pending in order, and no other slot changes |
| `BulkUpsert.Recheck` | src/dmo/services/write.py:401-435 | after a rollback the slots are again partitioned into resolved ones, holding the id of the row that now owns their key, and pending ones; collected locations stay exactly those of resolved slots |
| `BulkUpsert.InsertPending` | src/dmo/services/write.py:386-390 | a successful flush turns each pending slot into a row of its own under a new id and changes nothing else |
| `BulkUpsert.Session.Split` | src/dmo/services/write.py:287-381 | the first split establishes the partition, the staged updates and the collected points |
| `BulkUpsert.Session.Retry` | src/dmo/services/write.py:391-435 | a failed round re-establishes them against the table that the rollback reveals |
| `BulkUpsert.Session.FlushRounds` | src/dmo/services/write.py:381-441 | the retry loop keeps them through every round and stops at a flush that succeeds, at nothing pending, or at the third failure |
| `BulkUpsert.Session.Finish` | src/dmo/services/write.py:443-469 | from any round's partition, resolving ids and setting locations leaves the specified table |
| `BulkUpsert.FirstFlushWritesBatch` | src/dmo/services/write.py:258-379 | when the first flush succeeds: every named key has all fields of its last entry; with both coordinates its location has that longitude and that latitude, and an existing row keeps its coordinate columns; with one missing an existing row keeps its location, a new one has none, and the columns are the entry's; derived columns kept; unnamed keys keep their rows |
| `BulkUpsert.SecondRunChangesNothing` | src/dmo/services/write.py:297-379 | running the same batch again changes no row and returns the same ids |
| `BulkUpsert.LocationsLand` | src/dmo/services/write.py:448-454 | however many flushes failed: a full pair ends up in location, longitude as longitude and latitude as latitude; with one missing a new row has no location and an existing one keeps its own, unless a re-check has overwritten it |
| `BulkUpsert.RetriedRow` | src/dmo/services/write.py:391-435 | after a failed flush: a row that is new or only the re-check found has exactly the entry's columns; one that was there before is as committed but for its location |
| `BulkUpsert.FieldsLandIff` | src/dmo/services/write.py:391-435 | the other fields end up in the row exactly when no flush failed, or the key had no row at the last failing flush, or the row already had them |
| `BulkUpsert.RollbackLosesUpdates` | src/dmo/services/write.py:401-412 | a concrete batch whose update of an existing row is lost because the conflict over the other key rolls it back and the retry never stages it again |
| `BulkUpsert.OthersColumnsStayIff` | src/dmo/services/write.py:416-431 | columns that the request does not carry stay as committed exactly when the row was not found by a re-check, or they were empty; the location too, for an entry without a full pair |
| `BulkUpsert.RetryErasesColumns` | src/dmo/services/write.py:425-429 | a concrete case: the other client's row loses its categories and scores to the retry |
| `BulkUpsert.UnnamedKey` | src/dmo/services/write.py:246-469 | a key the batch does not name keeps its row, or its absence |
| `UpsertProtocol.ConcurrentUpsertsAreSafe` | src/dmo/services/write.py:276-435 | any number of concurrent bulk upserts, any lock-id function: one row per key, no row removed or re-keyed, every row's plain fields whole from one batch entry or never written, and clients with equal lock ids never both between lock and commit or rollback |
| `UpsertProtocol.StepKeepsInv` | src/dmo/services/write.py:276-435 | every single step of every client keeps this, and the committed table only grows |
| `UpsertProtocol.RunKeepsInv` | src/dmo/services/write.py:276-435 | the same from any reachable state over any further run |
| `UpsertProtocol.FailuresSettleKeys` | src/dmo/services/write.py:383-441 | when a call holds the lock and re-checks, its failures and its pending keys together are within the batch, so EntityError takes a batch of at least four keys |
| `UpsertConflicts.GiveUpReached` | src/dmo/services/write.py:381-441 | and four are enough: for every batch of at least four new keys and any lock ids, a run in which others overtake the call three times, so that only giving up is left |
| `UpsertProtocol.CommitPublishes` | src/dmo/services/write.py:304-316 | a commit leaves every key of its last attempt with its entry's fields, except a row whose snapshot already had them, which is not written and keeps what others made of it |
| `UpsertProtocol.LastCommitDoesNotWin` | src/dmo/services/write.py:276-319 | a run of two calls under one lock in which the call that commits last writes nothing, since its snapshot already had its fields, and the row keeps the other call's |
| `Keyset.LawfulWalks` | src/dmo/services/search.py:146-195 | for any endpoint whose cursor condition is its order: following next_cursor until has_more is false yields every matching row exactly once, sorted, in max(1, ceil(n / size)) pages, with the right total and has_more on every page |
| `Keyset.WalkIsListing` | src/dmo/services/search.py:151-195 | the pages of a walk, put together, are the whole sorted listing |
| `Keyset.WalkTotals` | src/dmo/services/search.py:151-182 | a total counted before the cursor condition is the same on every page; counted after it, it is the number of rows from that page on |
| `Keyset.EmptyWalk` | src/dmo/services/search.py:182-195 | nothing to list: one page without rows, total 0, no cursor |
| `Keyset.RowsAfter` | src/dmo/services/search.py:100-113 | the k-th row's cursor leaves exactly the rows after it, in listing order |
| `Keyset.PageIsNext` | src/dmo/services/search.py:84-195 | the request with that cursor is answered with the next page of the listing |
| `Keyset.OrderBySorts` | src/dmo/services/search.py:138-166 | ordering is a sorted permutation of the rows |
| `Keyset.SortedIsUnique` | src/dmo/services/search.py:138-166 | there is only one sorted arrangement of rows the order tells apart, so ORDER BY determines the pages |
| `Keyset.WhereOrderBy` | src/dmo/services/search.py:151-166 | filtering by the cursor and sorting commute |
| `Keyset.CutPage` | src/dmo/services/search.py:161-195 | LIMIT size + 1 and the loop over the kept rows give the first page of the sorted rows, has_more, the next cursor and the total, with no total and no cursor on an empty page |
| `EntityPages.EntityWalks` | src/dmo/services/search.py:81-195 | tiered, ranked and by-name search, nearby and map all walk their listing; ranked search repeats one total, the others count down |
| `ListingOrder.SearchWalkOrder` | src/dmo/services/search.py:31-195 | a search walk lists exactly the active rows of enabled sources (of all, if none is enabled) that match the request, by name and id; or, with a search text, nothing inside the bias radius after something outside it, and within one side the rank falls, ids rising among equals |
| `ListingOrder.NearbyWalkOrder` | src/dmo/services/spatial.py:9-116 | nearby lists exactly the matching rows within the circle, by distance, then id |
| `ListingOrder.MapWalkOrder` | src/dmo/services/spatial.py:119-218 | map lists exactly the matching rows inside the box, by id |
| `ListingOrder.ClassificationWalkOrder` | src/dmo/services/classifications.py:10-113 | the classification listing: exactly the active matching rows, by category, value code and id |
| `ListingOrder.SearchTotals` | src/dmo/services/search.py:151-182 | with a search text every page states the number of rows listed in all; without one, of those not yet listed before it |
| `ListingOrder.NearbyTotals` | src/dmo/services/spatial.py:55-116 | nearby counts down |
| `ListingOrder.MapTotals` | src/dmo/services/spatial.py:164-218 | map counts down |
| `ListingOrder.ClassificationTotals` | src/dmo/services/classifications.py:68-113 | classifications count down |
| `ListingOrder.SearchCursors` | src/dmo/services/search.py:168-188 | what stands in a search row's cursor: its name; or its rank, a zero as 0.0, with 1: or 0: before it in tiered search |
| `ListingOrder.NearbyCursors` | src/dmo/services/spatial.py:80-116 | the distance, a zero as 0 |
| `ListingOrder.MapCursors` | src/dmo/services/spatial.py:186-218 | the id's own text |
| `ListingOrder.InvalidEverywhere` | src/dmo/services/pagination.py:14-32 | a text that is no cursor is refused on all four endpoints, never served as the first page |
| `ListingOrder.RankedSortKey` | src/dmo/services/search.py:86-99 | a ranked cursor that is neither number nor text, or a text without a colon, or a number in tiered search, is refused |
| `ListingOrder.TieredSortKey` | src/dmo/services/search.py:86-99 | one with a colon is read as tier and rank; a tier that is no integer or a rank that is no number is an error nobody catches |
| `ListingOrder.RankedCursor` | src/dmo/services/search.py:84-113 | what becomes of either, also with an integer id |
| `ListingOrder.OtherCursors` | src/dmo/services/spatial.py:55-79 | by-name search, nearby and map: rows for a sort key and an id of the right kind, else an error nobody catches |
| `ListingOrder.PositionOutcome` | src/dmo/services/classifications.py:42-48 | a classification sort key lacking a member is refused; members that are not strings are an error nobody catches |
| `ListingOrder.ClassificationCursor` | src/dmo/services/classifications.py:37-67 | what becomes of it, also with a UUID |
| `EntityPages.SearchIsLawful` | src/dmo/services/search.py:81-113 | the hand-written cursor conditions of search are its orderings, in all three modes |
| `EntityPages.NearbyIsLawful` | src/dmo/services/spatial.py:55-79 | the distance cursor condition is the distance, id order |
| `EntityPages.MapIsLawful` | src/dmo/services/spatial.py:164-185 | the id cursor condition is the id order |
| `EntityPages.RankedRoundTrip` | src/dmo/services/search.py:86-99 | a row's own ranked cursor is read back as its tier and its rank, including the tier:rank text |
| `EntityPages.OtherTieringRefused` | src/dmo/services/search.py:95-97 | a cursor of the other tiering is refused as InvalidCursor, never reinterpreted |
| `EntityPages.SearchOrderIsStrict` | src/dmo/services/search.py:138-142 | the search order is strict and tells all listed rows apart |
| `EntityPages.BaseClauses` | src/dmo/services/search.py:31-66 | the clause list built step by step accepts exactly the active rows that match the request and are of an enabled source, or of any source when none is enabled; unknown categories match all |
| `EntityPages.SearchPage` | src/dmo/services/search.py:15-195 | the request handler answers as the ordered, filtered, cut listing specifies, and passes on cursor errors |
| `EntityPages.NearbyPage` | src/dmo/services/spatial.py:9-116 | likewise for nearby |
| `EntityPages.MapPage` | src/dmo/services/spatial.py:119-218 | likewise for map |
| `ClassificationPages.ClassificationWalk` | src/dmo/services/classifications.py:37-113 | the category, value, id listing is walked completely, each row once, with a total that counts down |
| `ClassificationPages.ClassificationsAreLawful` | src/dmo/services/classifications.py:49-67 | the three-level cursor condition is the listing's order |
| `ClassificationPages.PositionRoundTrip` | src/dmo/services/classifications.py:42-48 | the nested JSON sort key is read back as category and value |
| `ClassificationPages.ClassificationPage` | src/dmo/services/classifications.py:10-113 | the request handler answers as the ordered, filtered, cut listing specifies |
| `Cursor.CursorRoundTrip` | src/dmo/services/pagination.py:8-32 | decode_cursor(encode_cursor(id, sort)) is (id, sort) for every UUID or integer id and every sort key |
| `CursorFormat.WireText` | src/dmo/services/pagination.py:8-11 | a cursor is the URL-safe base64 of {"id": "...", "sort": ...} with the id's text always quoted |
| `CursorFormat.NotBase64` | src/dmo/services/pagination.py:14-22 | text that is not base64 is an invalid cursor |
| `CursorFormat.NotAnObject` | src/dmo/services/pagination.py:14-22 | text that is not a JSON object is an invalid cursor |
| `CursorFormat.ObjectOutcome` | src/dmo/services/pagination.py:14-32 | an object lacking id or sort is an invalid cursor; so is a string id that is neither a canonical UUID nor a decimal integer; with one, or an integer, it is that id with that sort key; the last member of a name counts |
| `Cursor.IdRoundTrip` | src/dmo/services/pagination.py:24-32 | every id's text is read as that id again, and a 32-digit integer never as a UUID |
| `Cursor.UuidRoundTrip` | src/dmo/services/pagination.py:24-27 | a UUID's canonical text is recognised as that UUID |
| `Cursor.IntRoundTrip` | src/dmo/services/pagination.py:24-32 | an integer's text is read as that integer and never as a UUID |
| `Cursor.IdNumberInjective` | src/dmo/services/pagination.py:24-32 | ids of one kind are told apart by their numeric order, so id > cursor_id never confuses two rows |
| `Base64Url.DecodeEncode` | src/dmo/services/pagination.py:11-17 | URL-safe base64 (section 5 of RFC 4648) decodes what it encoded, for every byte string |
| `Base64Url.AlphabetLaw` | src/dmo/services/pagination.py:11-17 | the 64 digits and their order |
| `Base64Url.GroupLayout` | src/dmo/services/pagination.py:11-17 | three bytes and their four digits are the same 24-bit number |
| `Base64Url.TailLayout` | src/dmo/services/pagination.py:11-17 | one or two bytes are filled up with zero bits and padded |
| `Base64Url.DecodeIff` | src/dmo/services/pagination.py:14-22 | exactly the texts of whole groups with at most two = at the end are decoded |
| `Json.LoadsDumps` | src/dmo/services/pagination.py:10-17 | json.loads(json.dumps(v)) is v, for nested values with every character escaped as needed (section 7 of RFC 8259) |
| `Json.EscapeRoundTrip` | src/dmo/services/pagination.py:10-17 | every escaped character, surrogate pairs included, is read back as itself |
| `JsonText.SpaceIff` | src/dmo/admin_scripts/rephrase_from_source.py:254-258 | blank, tab, line feed and carriage return are skipped, and nothing else (section 2 of RFC 8259) |
| `JsonText.ControlCharacter` | src/dmo/admin_scripts/rephrase_from_source.py:254-258 | a control character in a string is refused (section 7), but for the line feed in lenient reading |
| `JsonText.CodeEscape` | src/dmo/admin_scripts/rephrase_from_source.py:254-258 | four hexadecimal digits of either case are that character, half a pair of surrogates is refused |
| `JsonText.LetterEscapes` | src/dmo/admin_scripts/rephrase_from_source.py:254-258 | the escapes of one letter and their meanings |
| `JsonText.NumberIff` | src/dmo/admin_scripts/rephrase_from_source.py:254-258 | numbers are exactly sign, integer without leading zeros, fraction, exponent (section 6) |
| `JsonRepair.RepairedReadsLeniently` | src/dmo/admin_scripts/rephrase_from_source.py:262-296 | for every text: strictly parsing the repaired text gives exactly what a reader that tolerates raw line feeds in strings gives on the original |
| `JsonRepair.TryParseIsLenient` | src/dmo/admin_scripts/rephrase_from_source.py:254-296 | the two attempts together accept exactly those documents, with that value |
| `JsonRepair.RepairNewlines` | src/dmo/admin_scripts/rephrase_from_source.py:262-289 | the scanner loop over flags and buffer computes the specified repair |
| `JsonRepair.RepairClears` | src/dmo/admin_scripts/rephrase_from_source.py:262-289 | rescanning the repaired text meets no raw line feed in a string (save directly after a backslash), and each repaired one costs one character |
| `JsonRepair.RepairIsIdentityIff` | src/dmo/admin_scripts/rephrase_from_source.py:262-289 | the repair changes a text exactly when it has a raw line feed in a string |
| `JsonRepair.RepairIsIdempotent` | src/dmo/admin_scripts/rephrase_from_source.py:262-289 | repairing twice is repairing once |
| `JsonRepair.ClosingIsShortest` | src/dmo/admin_scripts/rephrase_from_source.py:240-249 | the brace matcher stops at the shortest prefix that closes every brace it opened |
| `JsonRepair.ExtractObject` | src/dmo/admin_scripts/rephrase_from_source.py:235-252 | the text from the first brace to the one that closes it, the rest of the text if there is none, or nothing without any brace |
| `JsonRepair.MatchBrace` | src/dmo/admin_scripts/rephrase_from_source.py:239-249 | the counting loop finds how much text closes every brace it opens |
| `JsonRepair.ParseResponse` | src/dmo/admin_scripts/rephrase_from_source.py:225-298 | stripping, fence removal, extraction, first attempt, repair and second attempt together give the specified outcome |
| `JsonRepair.ReplyOutcomes` | src/dmo/admin_scripts/rephrase_from_source.py:235-298 | the outcomes told apart: no brace at all; the extracted text is a lenient document; neither |
| `ReplyRecovery.RecoveredIff` | src/dmo/admin_scripts/rephrase_from_source.py:235-296 | for an object in any layout, after prose without an opening brace: it is recovered exactly when every proper prefix of its text opens more braces than it closes, those in strings included, and either its text closes them all or only space follows; otherwise the reply is unparsable, never a different value |
| `ReplyRecovery.LeadingObject` | src/dmo/admin_scripts/rephrase_from_source.py:235-296 | a reply that begins with an object, in any layout, is recovered exactly when only space follows, whatever its strings hold |
| `ReplyRecovery.ObjectRecovered` | src/dmo/admin_scripts/rephrase_from_source.py:235-296 | an object in any layout whose strings and member names hold no brace is recovered from any prose before and any text after it |
| `ReplyRecovery.ValuePasses` | src/dmo/admin_scripts/rephrase_from_source.py:240-249 | wherever a value without braces in its strings is read, the matcher comes out of it with as many braces open as it went in |
| `ReplyRecovery.WrittenObject` | src/dmo/admin_scripts/rephrase_from_source.py:254-258 | what json.dumps writes, with escaped or raw line feeds, is one of these objects |
| `ReplyRecovery.CutObjectIsLost` | src/dmo/admin_scripts/rephrase_from_source.py:249-258 | no object text, in any layout, still parses when it is cut off before its end |
| `ReplyRecovery.ValueMore` | src/dmo/admin_scripts/rephrase_from_source.py:254-258 | reading a value stops by itself: what follows cannot change it |
| `ReplyRecovery.FencedObjectRecovered` | src/dmo/admin_scripts/rephrase_from_source.py:228-258 | an object in any layout, alone or in a code fence, with or without the language json, on its own line or not, closed after any space or not closed, with any space around, is recovered whatever its strings hold |
| `ReplyRecovery.FenceIsRemoved` | src/dmo/admin_scripts/rephrase_from_source.py:229-231 | any such fence around any text is taken off, and nothing else |
| `ReplyRecovery.UnfencedReply` | src/dmo/admin_scripts/rephrase_from_source.py:228-235 | a stripped text that does not start with three backticks is parsed as it stands |
| `ReplyRecovery.BraceInStringLoses` | src/dmo/admin_scripts/rephrase_from_source.py:240-249 | a concrete object with a closing brace in a string, {"a": "}"} after prose, is unparsable whatever follows |
| `SlidingWindow.Limiter.Dispatch` | src/dmo/middleware/rate_limit.py:44-71 | under a monotone clock a request is admitted exactly when fewer than max_requests were admitted in (now - W, now]; the stored, pruned and expiring state never forgets a member still in the window; the remaining count is exact |
| `SlidingWindow.Limiter.CountRecent` | src/dmo/middleware/rate_limit.py:49-55 | the first pipeline counts exactly the admissions of the window |
| `SlidingWindow.Limiter.Record` | src/dmo/middleware/rate_limit.py:60-64 | the second pipeline adds one admission for its address and none for any other |
| `SlidingWindow.WindowNeverOverfull` | src/dmo/middleware/rate_limit.py:44-64 | no half-open window of length W ever holds more than max_requests admissions |
| `SlidingWindow.RefusedMeansFull` | src/dmo/middleware/rate_limit.py:57-58 | a refusal happens only when the window ending at the request holds exactly max_requests |
| `SlidingWindow.PrunedIsWindow` | src/dmo/middleware/rate_limit.py:49-53 | pruning and the W + 1 key expiry together leave exactly the admissions inside the window |
| `RateLimitRaces.OvershootBound` | src/dmo/middleware/rate_limit.py:49-64 | with at most K requests between count and add at any time, stored members plus admitted-not-yet-added never exceed max_requests - 1 + K |
| `RateLimitRaces.OvershootReached` | src/dmo/middleware/rate_limit.py:49-64 | the bound is exact: some run reaches it for every limit and every K |
| `RateLimitRaces.SerialIsSlidingWindow` | src/dmo/middleware/rate_limit.py:49-64 | requests that do not overlap are admitted exactly as the sliding-window log admits them, and the stored set mirrors its window |
| `RateLimitRaces.ExpiryForgets` | src/dmo/middleware/rate_limit.py:49-64 | once the key is gone the next request is let through |
| `RateLimitRaces.StepKeepsBound` | src/dmo/middleware/rate_limit.py:49-64 | every count, add and expiry keeps it |
| `UnifyJob.Job.Run` | src/dmo/admin_scripts/unify_opentripmap_categories.py:185-216 | whatever the batch size, the loop is one pass over every active row of the source but the nil one; it reports exactly the rows that changed and the rows scanned |
| `UnifyJob.RunSettlesRow` | src/dmo/admin_scripts/unify_opentripmap_categories.py:80-98 | what a run leaves of one row, by its winning mapping (it applies, and every other that does has a lower priority, or the same and a later kind): its category, the parent's slug as top and the category's own slug as leaf; inactive rows, other sources, the nil row, rows without a mapping or whose category has no parent are untouched |
| `UnifyJob.SomeMappingWins` | src/dmo/admin_scripts/unify_opentripmap_categories.py:6-14 | if some mapping applies, one of them wins |
| `UnifyJob.SecondRunUpdatesNothing` | src/dmo/admin_scripts/unify_opentripmap_categories.py:96-97 | a second run changes no row and counts none |
| `UnifyJob.CountsAgreeIff` | src/dmo/admin_scripts/unify_opentripmap_categories.py:19-36 | the live count is the dry-run count exactly when the row with the nil UUID is not due for an update |
| `UnifyJob.Best` | src/dmo/admin_scripts/unify_opentripmap_categories.py:6-14 | the chosen mapping matches the entity and no other matching one comes before it by priority and kind |
| `UnifyJob.BestIsDetermined` | src/dmo/admin_scripts/unify_opentripmap_categories.py:11-13 | the choice does not depend on how the mappings are stored |
| `UnifyJob.UnifiedIsSettled` | src/dmo/admin_scripts/unify_opentripmap_categories.py:95-97 | a row that has been resolved resolves to the same triple and is not due again |
| `UnifyJob.Job.UpdateBatch` | src/dmo/admin_scripts/unify_opentripmap_categories.py:80-98 | the UPDATE resolves the listed rows and counts those that differed |
| `BatchScan.SelectIsBatch` | src/dmo/admin_scripts/unify_opentripmap_categories.py:70-78 | a batch is ascending, lies above last_id and skips nothing between its ends |
| `NormalizeJob.Job.Run` | src/dmo/admin_scripts/normalize_countries.py:109-188 | a run, cut short or not, normalises exactly the wrong rows up to where it got, and the remainder it reports is the number of rows still wrong |
| `NormalizeJob.Resumable` | src/dmo/admin_scripts/normalize_countries.py:146-176 | any sequence of time-cut runs followed by a complete one reaches the table of a single complete run |
| `NormalizeJob.CompleteRow` | src/dmo/admin_scripts/normalize_countries.py:41-47 | a complete run changes exactly the active rows of the source (or of any, for *) whose country is neither empty nor two capital letters, but the nil row; they get their resolution, NULL or two capital letters |
| `NormalizeJob.NothingLeft` | src/dmo/admin_scripts/normalize_countries.py:7-17 | a further run finds nothing but possibly the nil row, and changes nothing |
| `NormalizeJob.Job.BuildMap` | src/dmo/admin_scripts/normalize_countries.py:110-122 | the loop maps every distinct wrong value to its resolution, and its two counters are exact |
| `NormalizeJob.Job.Turn` | src/dmo/admin_scripts/normalize_countries.py:150-176 | one turn of the loop moves the table and the count on together |
| `Country.ResolveIsIdempotent` | src/dmo/admin_scripts/country_data.py:501-523 | resolving an answer again gives the same answer |
| `Country.ResolvedIsIso` | src/dmo/admin_scripts/country_data.py:501-523 | every answer is two capital letters |
| `Country.CandidatesAreParts` | src/dmo/admin_scripts/country_data.py:485-498 | every candidate is a stretch of the text itself |
| `Country.FirstHit` | src/dmo/admin_scripts/country_data.py:514-523 | the answer is that of the earliest candidate the tables know, and None only when they know none |
| `Country.LongestFirst` | src/dmo/admin_scripts/country_data.py:496-498 | the words are ordered from longest to shortest, and none is lost or invented |
| `Country.LongestFirstIsStable` | src/dmo/admin_scripts/country_data.py:496-498 | words of one length keep their order and their number |
| `CountryParts.CodesResolve` | src/dmo/admin_scripts/country_data.py:508-511 | two letters are their own code in capitals; three are looked up in the table of codes and nowhere else |
| `CountryParts.NameResolves` | src/dmo/admin_scripts/country_data.py:513-523 | a whole name that the tables know comes first; native names before folded variants |
| `CountryParts.ParenthesesResolve` | src/dmo/admin_scripts/country_data.py:487-490 | then what the last parentheses hold, then what stands before them |
| `CountryParts.ArticleResolves` | src/dmo/admin_scripts/country_data.py:491-492 | then the name without a trailing article |
| `CountryParts.PiecesResolve` | src/dmo/admin_scripts/country_data.py:493-495 | then the first known piece between separators |
| `CountryParts.SplitJoins` | src/dmo/admin_scripts/country_data.py:493-495 | the pieces hold no separator and, joined by it, are the text |
| `CountryParts.WordsResolve` | src/dmo/admin_scripts/country_data.py:496-498 | at last the longest known word |
| `CountryParts.WordsAre` | src/dmo/admin_scripts/country_data.py:496-498 | words are the longest stretches without space, of more than one character |
| `BackfillJob.Job.Run` | src/dmo/admin_scripts/backfill_classifications_from_kinds.py:108-137 | whatever the batch size, rows are only added, each once and only wanted ones; a complete run adds every missing (entity, non-skipped kind) pair but those of the nil entity; the count is the number of new rows |
| `BackfillJob.RowsAfterRun` | src/dmo/admin_scripts/backfill_classifications_from_kinds.py:7-39 | the rows after a complete run: those there were, and one per listed type of an active entity of the source, except interesting_places and other, and the nil entity |
| `BackfillJob.DryRunAgainstRun` | src/dmo/admin_scripts/backfill_classifications_from_kinds.py:41-54 | the dry-run count is at least what a complete run inserts, with equality exactly when no entity repeats a missing token and the nil entity misses nothing |
| `BackfillJob.DryCountBound` | src/dmo/admin_scripts/backfill_classifications_from_kinds.py:41-54 | the count over token occurrences bounds the number of distinct missing pairs, with equality exactly without repeats |
| `BackfillJob.OccurrencesBound` | src/dmo/admin_scripts/backfill_classifications_from_kinds.py:41-54 | the same for one entity's tokens |
| `BackfillJob.Job.InsertTokens` | src/dmo/admin_scripts/backfill_classifications_from_kinds.py:31-39 | ON CONFLICT DO NOTHING over one entity's tokens adds each wanted row once |
| `BackfillJob.Job.InsertBatch` | src/dmo/admin_scripts/backfill_classifications_from_kinds.py:31-39 | the INSERT over a batch adds exactly the wanted rows that were absent, and counts them |
| `ProseMirror.RenderedDocument` | src/dmo/services/detail.py:98-108 | a document whose hrefs fit their tags closes every tag it opens, and stripping tags and unescaping gives its visible text in document order |
| `ProseMirror.DocumentTextIff` | src/dmo/services/detail.py:73-108 | that text is all its text nodes and code-block texts exactly when none stands under a code block, line break or rule |
| `ProseMirror.CodeBlockChildIsLost` | src/dmo/services/detail.py:91-93 | a code block with its text in a child, the usual shape, is rendered empty |
| `ProseMirror.LinkRendersIff` | src/dmo/services/detail.py:42-66 | a link's text is rendered right exactly when its href fits the tag, for every href that does not hold both angle brackets |
| `ProseMirror.LinkRendersIffQuotesPaired` | src/dmo/services/detail.py:42-66 | for an href without a closing angle bracket: exactly when it has an even number of double quotes |
| `DocumentLinks.DocumentRendersIff` | src/dmo/services/detail.py:42-108 | a whole document, with any marks on any text, hrefs without a closing angle bracket and no empty link text: every tag is closed and exactly its visible text is shown if and only if every rendered href has an even number of double quotes |
| `DocumentLinks.ScanTokens` | src/dmo/services/detail.py:42-108 | a tag with odd quotes swallows all up to the next one; the scanner never shows more than the texts, and shows all of them with nothing left open only if no tag swallowed another |
| `DocumentLinks.EmptyLinksPairUp` | src/dmo/services/detail.py:42-69 | with empty link texts two odd hrefs can hide one another |
| `ProseMirror.ReopenedLinkRenders` | src/dmo/services/detail.py:65-66 | with both angle brackets the text can come out right although the href does not fit |
| `ProseMirror.OneQuoteLosesDocument` | src/dmo/services/detail.py:65-66 | a concrete failing document: one quote in an href, and the link is never closed |
| `ProseMirror.RenderIsNeutral` | src/dmo/services/detail.py:48-95 | wherever it stands, a rendered node adds exactly its visible text, escaped, and leaves any stack of open elements as it was |
| `ProseMirror.ReadTagBody` | src/dmo/services/detail.py:65-66 | an opening tag is read up to its own end exactly when its quotes and angle brackets are in order |
| `ProseMirror.QuotesDecide` | src/dmo/services/detail.py:65-66 | an href without a double quote always fits its tag, one with an odd number of them never does |
| `ProseMirror.AllVisibleIff` | src/dmo/services/detail.py:73-94 | all text of a document is rendered exactly when no code block, line break or rule has text nodes under it |
| `ProseMirror.UnescapeEscape` | src/dmo/services/detail.py:55 | unescaping undoes html.escape |
| `ProseMirror.MarkText` | src/dmo/services/detail.py:54-69 | the loop over the marks nests them innermost first |
| `ProseMirror.SafeHref` | src/dmo/services/detail.py:42-45 | the result is # or the href itself, never one with a dangerous scheme, and a harmless href is kept |
| `ProseMirror.SafeHrefIff` | src/dmo/services/detail.py:39-45 | exactly the hrefs that start, after any space and in any case, with javascript:, data: or vbscript: become #, and empty ones |
| `RenderedElements.DocumentSeen` | src/dmo/services/detail.py:48-108 | read back as HTML, a document whose hrefs fit shows each character inside exactly the elements of its blocks, list items and marks, the first mark innermost, links with their href, and every break and rule in its place |
| `RenderedElements.RenderSeen` | src/dmo/services/detail.py:48-95 | the same for a node wherever it stands |

## Left out

- Staleness.BoundedStaleness: assumes that no session writes to Redis or to its worker's source set later than `lag` after it began, and that all clocks agree; later writes are not steps of the model. A worker's reload of its source set is one step.
- Cursor.CursorRoundTrip: cursors the server did not write are modelled only as far as their answer (InvalidCursor, or an error nobody maps, called Uncaught); base64 characters outside the alphabet, non-ASCII bytes, ids given as JSON floats or booleans, and int() with underscores or spaces are not told apart further.
- Json.LoadsDumps: NaN, Infinity and lone surrogates are not values of the model; a number is its own text.
- EntityPages.SearchIsLawful: trigram similarity, PostGIS distance and collation are open functions; a float is its shortest text, and float() spellings beyond JSON numbers count as errors.
- EntityPages.SearchPage: the projection of rows to list items and the rounding of distances are not modelled.
- BulkUpsert.Session.BulkUpsert: other clients act only at flushes; a change by others between the last flush and the commit, serialization failures, and the cache invalidation before the commit are left to `UpsertProtocol` and `StampedeCache`.
- UpsertProtocol.ConcurrentUpsertsAreSafe: coordinates and location are not part of its rows, a failed flush is a conflict over a key, and whether a row changed since the snapshot is judged by its value rather than its version, which only adds runs.
- CacheClient.Cache.GetOrSet: runs alone by design; interference is in `StampedeCache`.
- SlidingWindow.Limiter.Dispatch: failing open on Redis errors and clock skew between hosts are not modelled; time is an integer.
- JsonRepair.ParseResponse: white space is an open notion; the error objects themselves are not modelled.
- Country.ResolvedIsIso: the tables are arbitrary maps to two capital letters; white space, lower case and folding are open functions.
- NormalizeJob.Job.Run: the time limit is a number of batches; changes by other clients during a run are not modelled (nor in the other jobs).
- BackfillJob.Job.Run: titles, NULL tokens and classifications of other categories are not modelled.
- ProseMirror.RenderIsNeutral: heading levels are integers, JSON nulls and missing keys are their defaults, and Unicode case folding in the scheme test is not modelled.
- Offset-based jobs and scoring; how the set of enabled sources and the level map are computed from their tables.
- update_entity with explicit nulls, and agreement of the coordinate columns with location: the code does not maintain it.
- HTTP routing, authentication, metrics, the admin pages, HTML descriptions cleaned by bleach, language-model and Wikidata clients: no state of their own that these cores depend on.
