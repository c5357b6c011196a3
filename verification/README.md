# Verified model of the VigaBSS back end

A Dafny 4.11 model of the parts of the VigaBSS server whose correctness depends on more than one
function: the tenant connection-pool protocol, the generic CRUD layer, the version-tagged response
cache, four unbounded algorithms (CSV export, GraphQL query limits, CSV import, the IP allowlist), the
request budgets, the stream caps and the default-deny rewrite.

`dafny verify dfyconfig.toml` checks the whole project.

## How the model is laid out

**Tenant pools (`src/config/database.js`).** The server runs on one JavaScript thread: code between two awaits
is atomic, and at every await any other step may run. `TenantProtocol` states this as a state machine over the
registry, the generation counters, the insertion-ordered pool cache, every pool ever created, the request
contexts with their memos, the lookups in flight and the connection requests in flight. `PoolCache` is the value
of the cache and its operations; `TenantPools` and `AcquireCall` are the same operations as classes updated in
place, each method tied to its function; `PoolLifecycle` says what one operation keeps; `TenantRuns`,
`TenantTheorems`, `TenantFreshness`, `TenantIdleness` and `TenantMemo` say what every run keeps; and
`TenantWitnesses` holds two concrete runs that show where the promises end. Two points of the code are kept as
they are:

- A shared-mode answer (`null`) leaves `getTenantPool` before the generation is compared again.
  `AnswerIsFreshIff` gives the exact condition for every answer: it goes back to a registry row that was not
  invalidated since if and only if the snapshot's generation is still current, which is the comparison the
  code makes for pools and leaves out for `null`. `SharedAnswerMayBeStale` is a run with a stale `null`.
- `endTenantPool` marks a pool ended at once but queues `pool.end()` for the next microtask. A caller
  that resolved the pool earlier can be granted a connection in that gap. `ShutdownIsSafe` gives the exact
  condition under which a shutdown meets a borrowed connection, and `ShutdownMayOvertakeACaller` is such a run.

**CRUD (`src/models/BaseModel.js`, `src/controllers/crudController.js`).** `CrudTable` gives the meaning of each
statement on a table of rows, `CrudLaws` which rows it reaches and what it means for the next, `CrudHandlers`
what each request does and answers, `TableStore` the statements as methods, and `TenantIsolation` the
non-interference of tenants over whole request sequences. `RowLocks` interleaves the guard-then-write
transactions under row locks; a guard reads the record and the body, and may rewrite the body.
`LockedTransaction` is one such transaction with a fault possible at every call, down to what happens to the
borrowed connection.

**Response cache (`src/middleware/httpCache.js`).** `HttpCache` interleaves readers, slow stores and mutations
at every await. Keys are the real strings: `QueryKey` models `encodeURIComponent`, the sort and the join, and
proves that the key tells any two different string-valued queries apart. In every run an answer is one to the
request's own organization, resource and parameters (`ServedParametersMatch`). That it also holds every finished
mutation (`ServedCoversBusts`) needs an assumption about the request's own pair alone, and only until it has
read the version: the pair's counter is never set back, neither because its key expires nor by a delayed bust,
and no bust loses its read of it (the Redis wrapper answers a failed `get` with null, which reads as version 0).
`InTurnIsCalm` gives the plain form of it: busts one after the other, no dropped key, no lost read. What the
request itself needs is that its own read of the version is not lost. Each part is needed: from every reachable
state one such event, and nothing else amiss, can lead to a stale answer. `OverlapServesStale` starts anywhere,
`ExpiryServesStale` where an entry of the pair is stored, `LostBustReadServesStale` where it is stored under a
version above 0, `LostVersionServesStale` where it is stored under version 0. A bust is finished when its `set`
has reached the store; a `set` that the store drops is an abandoned bust. `ResponseCache` is the code as
methods.

**Algorithms.** `KeysetExport`, `QueryLimits`, `Csv`, and `IpAddress` with `IpAllowlist` hold the source's loops
as methods, each proved against a function, and the laws of those functions. `Text`, `Decimal` and `Bits` are
the JavaScript string, number and bit operations they share.

**Budgets and guards.** `FixedWindow` proves what any fixed-window counter grants; `EmailBudget` and
`TokenLimiter` show that the two limiters are such counters. `StreamGuard` and `DefaultDeny` hold the stream
caps and the router rewrite.

Where the code and its comments differ, the model follows the code:

- The bulk e-mail budget is called a rolling 24-hour budget; its window is fixed at the first hit. An interval
  in which no window is replaced by the next stays within the limit (`OneWindowIsBounded`), 24 hours stay within
  twice the limit (`RecipientsAreBounded`), and every interval that a window's end falls into can see twice the
  limit (`TwiceIsReached`). The bounds need a store that answers the get of an open record and keeps the set:
  `LateReadOverspends` shows five recipients in a day against a limit of two, and `UnservedOverspends` any
  multiple of the limit at one moment when gets are lost or sets dropped.
- The allowlist is described as off when its text is empty; it is also off when no entry parses
  (`DisabledIff`).
- The file parser skips a line without values; a line always has at least one (`Fields`), so nothing is
  ever skipped, and a quoted line break cuts a record in two (`RowCountIff`).

## Model

| member | source | states |
|---|---|---|
| TenantConfig.NormalizeIsConfigOf | src/config/database.js:174-203 | two rows with one fingerprint give one pool configuration: the fingerprint determines what a cached pool connects to |
| TenantConfig.NormalizeIff | src/config/database.js:174-189 | which registry rows are shared, which give a configuration and which one column by column, and which are errors: an isolated row without host, name or user, or with a password that cannot be decrypted |
| TenantConfig.FingerprintTells | src/config/database.js:191-203 | isolated rows with one fingerprint agree in every column a pool is built from |
| PoolCache.EvictCached | src/config/database.js:298-305 | evicting a cached pool removes exactly its slot, keeps the order of the others and touches no other pool |
| PoolCache.SweepTurn | src/config/database.js:313-316 | one turn of the sweep over the Map, entries deleted under the iterator, evicts a pool with nothing borrowed and a last use further back than the limit, skips any other, and agrees with closing the idle pools of what is left |
| PoolCache.SweepIsExact | src/config/database.js:311-317 | a slot survives the sweep exactly when its pool has a connection out or was used within the limit, or the limit is off; a pool that goes is ended, every other is as it was |
| PoolCache.TrimStep | src/config/database.js:364-368 | one turn of the cap loop drops the oldest slot, which is never the key being served while more than one is cached |
| TenantPools.PoolEntry.OnAcquire | src/config/database.js:274-277 | a grant raises the borrowed count and the last use, and nothing else |
| TenantPools.PoolEntry.OnRelease | src/config/database.js:278-282 | a return lowers the count, never below zero, and ends a retired pool when the last connection comes back |
| TenantPools.PoolEntry.EndTenantPool | src/config/database.js:286-291 | the shutdown is queued once, however often it is asked for |
| TenantPools.PoolEntry.RetireOrEnd | src/config/database.js:300-304 | a pool with connections out is retired, another is ended |
| TenantPools.TenantPools.EvictTenantPool | src/config/database.js:298-305 | the new state is that of PoolCache.Evict: the slot goes only if it still maps to this entry |
| TenantPools.TenantPools.EvictIdleTenantPools | src/config/database.js:311-317 | the loop leaves exactly the slots whose pool has a connection out or whose last use lies within the limit, all of them when the limit is off, and ends the others |
| TenantPools.TenantPools.PickPool | src/config/database.js:334-359 | the cached pool is reused when generation and fingerprint agree, else evicted and replaced by a new one |
| TenantPools.TenantPools.ServePool | src/config/database.js:334-361 | the picked pool is marked used now and re-inserted at the young end |
| TenantPools.TenantPools.EnforceCap | src/config/database.js:364-368 | the loop ends with at most the cap left, the oldest gone first |
| TenantPools.TenantPools.DropStale | src/config/database.js:323-326 | a shared-mode answer evicts the key's pool, if there is one |
| TenantPools.TenantPools.CheckoutPool | src/config/database.js:331-370 | idle sweep, reuse or create, and cap, in that order |
| TenantPools.TenantPools.GetTenantPoolTail | src/config/database.js:319-371 | what getTenantPool does with a resolved snapshot: shared, again, or a pool |
| TenantPools.TenantPools.InvalidateTenantDbConfig | src/config/database.js:383-388 | the generation is raised and the cached pool evicted in one atomic stretch |
| TenantPools.TenantPools.ConnectionAcquired | src/config/database.js:274-277 | the event reaches the entry the Map and the callers share |
| TenantPools.TenantPools.ConnectionReleased | src/config/database.js:278-282 | the event reaches the entry, cached or not |
| AcquireCall.AcquireConnection.TimerFires | src/config/database.js:460-463 | a timeout settles the call with one rejection |
| AcquireCall.AcquireConnection.ConnectionArrives | src/config/database.js:465-472 | a connection that comes too late goes straight back to the pool; another is delivered |
| AcquireCall.AcquireConnection.RequestFails | src/config/database.js:473-478 | a failure is reported unless the call is settled |
| AcquireCall.AcquireConnection.GiveBack | src/config/database.js:492-500 | the caller's connection is released once and counted by its pool |
| PoolLifecycle.Trichotomy | src/config/database.js:271-305 | a pool is exactly one of cached, draining and ended |
| PoolLifecycle.EvictKeeps | src/config/database.js:298-305 | an eviction keeps the life stages of every pool |
| PoolLifecycle.EvictIdleKeeps | src/config/database.js:311-317 | the sweep leaves exactly the slots in use or used within the limit, in their order, and every pool in a legal stage |
| PoolLifecycle.TrimKeeps | src/config/database.js:364-368 | the cap leaves exactly the youngest slots and every pool in a legal stage |
| PoolLifecycle.InvalidateKeeps | src/config/database.js:383-388 | after an invalidation the organization has no cached pool and a higher generation; the others keep theirs |
| PoolLifecycle.CheckoutKeeps | src/config/database.js:331-370 | the pool handed out is the youngest slot, open, and serves exactly the resolved snapshot; size within the cap; order is recency |
| PoolLifecycle.CheckoutReusesIff | src/config/database.js:331-359 | the cached pool is handed out again exactly when it has the snapshot's generation and fingerprint and is in use or was used within the idle limit; otherwise exactly one new pool is created |
| PoolLifecycle.ReleaseKeeps | src/config/database.js:278-282 | returning the last connection of a retired pool ends it, and every stage stays legal |
| TenantTheorems.RunOk | src/config/database.js:205-388 | every reachable state satisfies the whole invariant, and the cache order is the order of last service |
| TenantTheorems.LruOrder | src/config/database.js:331-370 | in every reachable state the insertion order is the order of the last successful lookups, and the size is within TENANT_POOL_MAX |
| TenantTheorems.CachedPoolsAreCurrent | src/config/database.js:328-371 | in every interleaving each cached pool carries its organization's current generation, one pool an organization |
| TenantIdleness.LastUsedIsLastUse | src/config/database.js:274-282 | in every reachable state a pool's lastUsed is the clock of the last step that handed it out, lent a connection of it or took one back |
| TenantIdleness.LookupClosesTheRested | src/config/database.js:331-368 | a lookup that is served closes, of the other organizations' pools, exactly those with nothing borrowed whose last such moment is further back than the idle limit; any other slot goes only from a full cache, and only one served before everything kept |
| TenantTheorems.OneLifeStage | src/config/database.js:271-317 | every pool ever created is exactly one of cached, draining, ended, and its shutdown is queued or run at most once |
| TenantTheorems.IdleOnceEndedStep | src/config/database.js:271-291 | a step leaves an ended pool without borrowed connections if and only if it is not a grant in the gap before the queued shutdown |
| TenantTheorems.ShutdownIsSafe | src/config/database.js:286-291 | when a shutdown runs a connection is borrowed if and only if some request granted in that gap still has it; and it runs once at most |
| TenantTheorems.LateGrantIsExposed | src/config/database.js:286-291 | after every late grant the shutdown may run with the connection out: the exception is real |
| TenantTheorems.BorrowedIsHeld | src/config/database.js:271-284 | a pool's borrowed count is the number of callers that hold, or are about to receive, one of its connections |
| TenantTheorems.RetiredPoolEnds | src/config/database.js:278-282 | a pool that left the cache is ended as soon as its callers have given everything back |
| TenantTheorems.AnsweredOnce | src/config/database.js:447-500 | over all races of grant, failure and timeout a caller is answered exactly once and a granted connection is delivered or returned, never both, never neither |
| TenantTheorems.AnswersAreFinal | src/config/database.js:458-479 | the answer a caller got never changes and no second one follows |
| TenantFreshness.GenCounts | src/config/database.js:383-388 | the generation counts the invalidations between any two states of a run |
| TenantFreshness.SameGenerationIff | src/config/database.js:383-388 | two states have the same generation exactly when no invalidation lies between them |
| TenantFreshness.HandedOutPoolIsFresh | src/config/database.js:231-258 | a pool that is handed out has the configuration of a registry row that was current after the organization's last invalidation |
| TenantFreshness.SnapshotIsFresh | src/config/database.js:216-219 | a snapshot whose generation is current, isolated or shared, is that of a registry row not invalidated since by this process |
| TenantMemo.MemoIsLast | src/config/database.js:224-229 | in every reachable state a context's memo is the last snapshot a lookup of the context's own organization resolved by a read, with the clock of that moment |
| TenantMemo.LookupAsksMemo | src/config/database.js:215-235 | a lookup takes the memo's snapshot, without a read, exactly when the memo is of its organization, of the current generation and not older than the limit; else it reads the registry; without an organization it does neither |
| TenantMemo.LookupAsksAgain | src/config/database.js:328-330 | the same for the lookup that starts over after a generation change |
| TenantMemo.MemoIsYoung | src/config/database.js:215-255 | a lookup resolved without a read of its own answers with a registry row that was read, and remembered at a clock no further back than the limit, at the generation it still has: how stale a change by another process can be |
| TenantFreshness.UnusableRowFails | src/config/database.js:244 | a lookup whose row cannot be used fails and leaves nothing in the memo |
| TenantFreshness.NullMeansShared | src/config/database.js:319-327 | a null answer means that there is no organization id, or that the registry row was absent or shared at the snapshot's generation |
| TenantFreshness.SharedAnswerDropsThePool | src/config/database.js:323-326 | after a null answer no slot has the organization's key, and every other slot is still there |
| TenantFreshness.AnswerIsFreshIff | src/config/database.js:319-330 | every resolved answer, null included, goes back to a registry row at its generation, and the organization was not invalidated since if and only if that generation is still current; a pool is never returned otherwise, a null is |
| TenantFreshness.ReadsAreBounded | src/config/database.js:236-257 | a lookup that overlaps k invalidations of its organization reads the registry at most k + 1 times |
| TenantFreshness.GivingUpTakesThree | src/config/database.js:236-257 | a lookup with a usable row throws TENANT_DB_CONFIG_CHANGED only after three invalidations of its organization since it began |
| TenantWitnesses.SharedAnswerMayBeStale | src/config/database.js:323-327 | a run in which a lookup answers null although the organization was isolated and invalidated before |
| TenantWitnesses.ShutdownMayOvertakeACaller | src/config/database.js:286-291 | a run in which the shutdown runs with a connection borrowed |
| QueryKey.DecodeEncode | src/middleware/httpCache.js:83-87 | encodeURIComponent can be undone |
| QueryKey.SortIncreasing | src/middleware/httpCache.js:83-85 | the sort orders any listing of distinct parameter names strictly |
| QueryKey.QueryStringIdentifies | src/middleware/httpCache.js:83-87 | two string-valued queries share a query string exactly when they carry the same parameters, in whatever order |
| ResponseCache.BuildQueryString | src/middleware/httpCache.js:83-87 | the joined string is the canonical query string |
| ResponseCache.Cache.GetVersion | src/middleware/httpCache.js:42-45 | a missing version, or one whose read is lost, reads as zero |
| ResponseCache.Cache.BustCache | src/middleware/httpCache.js:53-63 | an uninterrupted bust raises exactly its pair's counter, from zero when its read is lost, and does nothing without an organization or a resource or when its set is dropped |
| ResponseCache.Cache.Find | src/middleware/httpCache.js:89-109 | the key read is that of the current version and the canonical query |
| ResponseCache.Cache.Finish | src/middleware/httpCache.js:114-124 | only a 2xx body is stored, under the key the request read |
| ResponseCache.Cache.Respond | src/middleware/httpCache.js:76-126 | a hit answers with the entry of the current version and parameters and leaves the cache alone; a miss stores the handler's 2xx answer under the very key it looked up |
| HttpCacheCoherence.ResponseKeyInjective | src/middleware/httpCache.js:92 | a cache key determines organization, resource, version and query string |
| HttpCacheCoherence.KeyKinds | src/middleware/httpCache.js:43-92 | no response is ever stored under a version key, or the other way round |
| HttpCacheCoherence.RunCoherent | src/middleware/httpCache.js:42-126 | in every interleaving, whatever other pairs do, while one pair is calm no version of it in the store, in a request or in a bust is above its counter, and nothing computed for it under a version is older than a mutation whose bust wrote that version or a lower one |
| HttpCacheCoherence.RunMatched | src/middleware/httpCache.js:76-126 | in every run each response sits under the key of its own pair, version and parameters, and what a request has computed or was served belongs to its pair and parameters |
| HttpCacheCoherence.InTurnIsCalm | src/middleware/httpCache.js:53-63 | busts of a pair one after the other, with no dropped version key and no lost read, never set its counter back, and the counter is the number of finished busts |
| HttpCacheTheorems.ServedCoversBusts | src/middleware/httpCache.js:76-126 | when its own pair was calm until it read the version, a response, cached or not, was computed from a state with every mutation of the pair whose bust had finished by then |
| HttpCacheTheorems.ServedParametersMatch | src/middleware/httpCache.js:83-108 | in every run, whatever expires, overlaps or is lost, a request is never answered with the response to another organization, resource or other parameters |
| HttpCacheTheorems.RepeatIsAHit | src/middleware/httpCache.js:101-118 | in every run a stored response answers each request with the same parameters that reads the same version, until the entry itself is dropped |
| HttpCacheTheorems.LostReadsAreMisses | src/services/cacheService.js:95-103 | a get that the store fails acts as one of an empty store: version 0 for a request or a bust, a miss for an entry |
| HttpCacheTheorems.ExpiryServesStale | src/middleware/httpCache.js:29-57 | every run that ends with an entry of the pair stored goes on, with the drop of its version key as the only step that is not calm, to serve that entry stale |
| HttpCacheTheorems.OverlapServesStale | src/middleware/httpCache.js:53-58 | every run goes on, with one delayed bust that sets the counter back as the only step that is not calm, to a stale answer |
| HttpCacheTheorems.LostVersionServesStale | src/services/cacheService.js:95-103 | every run that ends with an entry stored under version 0 goes on, calm throughout, to serve it to a request whose own version read is lost, although a bust had finished |
| HttpCacheTheorems.LostBustReadServesStale | src/services/cacheService.js:95-103 | every run that ends with an entry stored under a later version goes on, with one bust that loses its read as the only exception, to write that version again and serve the entry stale |
| HttpCacheTheorems.StoredAt | src/middleware/httpCache.js:114-124 | any parameters can be stored under any version in a calm run, so the stale runs start somewhere |
| TableStore.Store.CollectFillable | src/models/BaseModel.js:300-303 | the loop keeps exactly the fillable columns that are present |
| TableStore.Store.CollectConditions | src/models/BaseModel.js:174-179 | the loop binds exactly the allowed filters; the others restrict nothing |
| TableStore.Store.FindById | src/models/BaseModel.js:88-103 | the live row of that id in the bound organization, or none; an error without an organization |
| TableStore.Store.SelectRows | src/models/BaseModel.js:154-196 | exactly the rows of the organization that pass every allowed filter, NULL passing none, and are deleted, live or either as asked |
| TableStore.Store.Count | src/models/BaseModel.js:204-232 | the number of rows the same selection holds |
| TableStore.Store.Create | src/models/BaseModel.js:244-262 | the new row, business dates defaulted, under the supplied id; nothing else changes |
| TableStore.Store.Update | src/models/BaseModel.js:291-330 | the row of the bound organization with the fillable columns written; refused when the body names the organization |
| TableStore.Store.Delete | src/models/BaseModel.js:336-364 | soft or hard, the live row of the bound organization, once |
| TableStore.Store.ForceDelete | src/models/BaseModel.js:369-381 | the row goes, deleted or not, within the bound organization |
| TableStore.Store.Restore | src/models/BaseModel.js:386-404 | only a deleted row of the bound organization comes back |
| CrudLaws.MissingOrgIsRefused | src/models/BaseModel.js:28-42 | no read, selection, update, delete or restore of a scoped table runs without an organization |
| CrudLaws.ReachIff | src/models/BaseModel.js:88-111 | with one, find, update and delete reach exactly the live rows it covers, a forced delete all of them, a restore the deleted ones |
| CrudLaws.ReachesIff | src/models/BaseModel.js:88-103 | a row that a locking fetch finds is there, of the organization and not soft-deleted, and every such row is found |
| CrudLaws.FailureChangesNothing | src/models/BaseModel.js:244-404 | a statement that fails leaves the table as it was |
| CrudLaws.SelectIsExact | src/models/BaseModel.js:154-232 | a selection holds exactly the covered rows that pass every allowed filter, none passing one for NULL, and have the deletion state asked for |
| CrudLaws.CreatedIsFound | src/models/BaseModel.js:244-262 | a created row is found in its organization with the columns sent, dates defaulted, and every other row is as before |
| CrudLaws.UpdatedColumns | src/models/BaseModel.js:291-330 | an update changes exactly the fillable columns it was sent, in one row, and the row read back is the row stored |
| CrudLaws.DeletedIsGone | src/models/BaseModel.js:336-364 | a deleted row is found no more, and a second delete fails without effect |
| CrudLaws.ForceDeletedIsGone | src/models/BaseModel.js:369-381 | a force-deleted row, deleted or live, is gone for good, and no other row is |
| CrudLaws.RestoreUndoesDelete | src/models/BaseModel.js:386-404 | restoring a soft-deleted row gives it back as it was, except for the columns the delete switched off |
| CrudHandlers.PutAsksTheGuard | src/controllers/crudController.js:238-321 | an update is refused with the table unchanged when the body names the organization, the row is not there for the caller or the guard refuses record and body; else the one row carries exactly the fillable columns of what the guard left of the body, and is the answer |
| CrudHandlers.DestroyAsksTheGuard | src/controllers/crudController.js:515-525 | a delete needs the row and its guard; a soft one marks the row and switches its columns off, a hard one removes it, and no other row changes |
| CrudHandlers.DestroyedIsUnseen | src/controllers/crudController.js:371-374 | a deleted row is found by nobody |
| CrudHandlers.GetShowsTheRow | src/controllers/crudController.js:371-374 | the stored row is answered exactly when it is the caller's and not soft-deleted |
| CrudHandlers.UndeleteIff | src/controllers/crudController.js:561-576 | exactly a soft-deleted row of the caller's comes back, changed in the mark alone |
| CrudHandlers.PurgeIff | src/models/BaseModel.js:369-381 | exactly a row of the caller's, deleted or live, is removed |
| CrudHandlers.PostInserts | src/controllers/crudController.js:383-397 | the new row holds the fillable columns of the body with the caller's organization in place of the body's and today in the date columns left out; nothing else changes |
| CrudHandlers.ListIsExact | src/controllers/crudController.js:327-355 | a page is the stretch of the ordered rows that starts at its offset, of own rows that pass the filters and are not deleted, deleted or either as asked; the total is their number, 0 for deleted rows of a model that only hard-deletes |
| CrudHandlers.PageShowsChosen | src/controllers/crudController.js:327-365 | every row on a page is such a row, as it stands |
| CrudHandlers.PagesHoldEachRowOnce | src/models/BaseModel.js:181-195 | whatever column and direction are asked for, the pages of one size hold every such row at exactly one place |
| TenantIsolation.HandleStaysInside | src/controllers/crudController.js:258-268 | whatever a request does, it changes only rows of its own organization, moves none, and what it creates carries that organization, or none where the column is not fillable |
| TenantIsolation.HandleSeesOnlyOwn | src/models/BaseModel.js:88-404 | whatever the answer, it and what is left of the organization's rows depend on those rows and the supplied id alone |
| TenantIsolation.NonInterference | src/controllers/crudController.js:383-396 | in any run mixed with other tenants' requests an organization is answered as if it were alone, and ends with the same rows |
| TenantIsolation.RowsNeverMove | src/models/BaseModel.js:291-298 | over any run a row keeps its organization for as long as it exists |
| TenantIsolation.OthersAreUntouched | src/models/BaseModel.js:88-404 | an organization that makes no request keeps every row and gains none |
| RowLocks.RunLocks | src/controllers/crudController.js:278-293 | in every interleaving a lock holder's row is still the one its guard saw, and it is the only holder |
| RowLocks.GuardHoldsAtWrite | src/controllers/crudController.js:278-293 | the record a committed write replaces is exactly the one its guard approved together with the body, and it ends with exactly the fillable columns the guard left, or deleted as its model deletes; no other row changes |
| RowLocks.DecidesAsTheGuardSays | src/controllers/crudController.js:286 | a fetched request goes on exactly when its guard lets it, with what the guard left of it |
| RowLocks.LockedWriteFindsItsRow | src/controllers/crudController.js:521-525 | a locked update or delete that passed its guard never misses its row |
| RowLocks.InvariantHolds | src/controllers/crudController.js:209-236 | a single-row invariant that guard, body and write together keep holds of every committed row in every reachable state |
| RowLocks.BrokenGuardBreaks | src/controllers/crudController.js:286-290 | any record and body that the guard approves although the write breaks the invariant give a run that breaks it, locks and all |
| RowLocks.InvariantHoldsIff | src/controllers/crudController.js:278-293 | a single-row invariant holds in every run of locked transactions if and only if no approved write on a reachable row breaks it |
| RowLocks.UnlockedGuardIsBypassed | src/controllers/crudController.js:270-276 | without the option, for any body on which the guard tells two rows apart, a run writes to the row the guard refuses |
| LockedTransaction.Database.Attempt | src/controllers/crudController.js:282-298 | begin, fetch, hook, write, after-hook, commit in order: the first that fails decides the error, the table changes only after all |
| LockedTransaction.Database.InLockedTransaction | src/controllers/crudController.js:215-235 | the connection is disposed exactly once on every path, destroyed exactly when the rollback failed and destroy exists, else released |
| LockedTransaction.Database.ApplyUpdate | src/controllers/crudController.js:238-321 | the same for updates; a body that names the organization is refused before a connection is borrowed |
| LockedTransaction.ErrorIsOriginal | src/controllers/crudController.js:278-320 | the caller sees exactly the first failing call of the try block, or the refusal met before it, and the table is untouched; with neither the work is done |
| LockedTransaction.CleanUpIsSilent | src/controllers/crudController.js:226-235 | an error that only rollback, destroy and release throw never reaches the caller, and what they do never changes the outcome |
| LockedTransaction.ChangeNeedsCommit | src/controllers/crudController.js:278-303 | the table changes only by a committed write of the work's own row in the caller's organization, after its guard accepted record and body; an update stores what the guard left of the body |
| LockedTransaction.QuietTransactionIsHandle | src/controllers/crudController.js:278-303 | where nothing throws, update, delete and restore in a transaction leave the table and give the answer of the handler taken as one step |
| KeysetExport.TopIdsAreTheLargest | src/controllers/exportController.js:77-83 | ORDER BY id DESC LIMIT n: descending, from the selection, and nothing larger left out |
| KeysetExport.ExportIsFaithful | src/controllers/exportController.js:74-90 | under arbitrary inserts and deletes between batches ids strictly descend, each line was read from a table in which its row was due (of the organization, with its joined rows, not deleted unless asked for), and a clean end holds every row that stayed due exactly once |
| KeysetExport.QuietExportIsExact | src/controllers/exportController.js:61-97 | without changes a clean export is exactly the due rows, both ways, cell by cell |
| KeysetExport.RestStops | src/controllers/exportController.js:75-96 | why the stream stopped, and how many queries it took: every batch before the last is full |
| KeysetExport.Response.StreamExport | src/controllers/exportController.js:61-97 | the logged count is the number of due rows of the opening table; the loop ends because the last id falls; an early error goes to next(), a later one destroys the response, and never ends it cleanly |
| QueryLimits.MeasuresAppend | src/graphql/limits.js:20-41 | depth, field count and alias count of a selection set from those of its parts |
| QueryLimits.Measure | src/graphql/limits.js:20-41 | the walk adds exactly the depth, fields and aliases of the inlined selection set, restores `seen`, and ends on cyclic fragments too |
| QueryLimits.CheckOperation | src/graphql/limits.js:49-55 | the size errors are exactly the exceeded limits with their figures |
| QueryLimits.SeenOnlyCutsCycles | src/graphql/limits.js:30-38 | where fragments do not reach themselves the record of visited names cuts nothing |
| QueryLimits.AcyclicIsFullyInlined | src/graphql/limits.js:30-38 | in an acyclic document the measured tree is the document with every fragment inlined |
| Csv.Fields | src/controllers/importController.js:53-86 | any line gives between 1 and 200 fields |
| Csv.ParseLine | src/controllers/importController.js:53-86 | the character loop computes that function |
| Csv.LineRoundTrip | src/controllers/importController.js:53-86 | fields written by section 2 of RFC 4180, quoted or plain, are read back: all, or the first 200 |
| Csv.FieldCount | src/controllers/importController.js:53-86 | on any line at all exactly the commas with an even number of quotes before them separate fields, up to 200 |
| Csv.LoneQuoteTakesTheRest | src/controllers/importController.js:72 | a lone quote inside an unquoted field is dropped and the rest of the line, commas included, belongs to that field |
| Csv.ParseCsv | src/controllers/importController.js:27-47 | the row loop with its header, its limit and its trimming |
| Csv.BuildRow | src/controllers/importController.js:39-42 | the column loop, a missing value reading as empty |
| Csv.ColumnsHold | src/controllers/importController.js:39-43 | with distinct headers a row maps each to its trimmed value and holds nothing else |
| Csv.FileRoundTrip | src/controllers/importController.js:27-47 | a written file, LF or CRLF, reads back as its first 10,000 rows of 200 columns |
| Csv.RowCountIff | src/controllers/importController.js:29-46 | as many rows come back as were written if and only if no field holds a line break |
| IpAddress.Ipv4ToInt | src/middleware/ipAllowlist.js:29-40 | the octet loop computes Ipv4 |
| IpAddress.DottedIff | src/middleware/ipAllowlist.js:29-40 | a text parses to x if and only if it is the dotted form of x: parsing and printing are inverse |
| IpAddress.FromHexIsDotted | src/middleware/ipAllowlist.js:59-64 | the shifts and masks turn two hexadecimal groups into the dotted form of the number they spell |
| IpAddress.SpelledIff | src/middleware/ipAllowlist.js:50-66 | exactly the dotted form and the two IPv4-mapped forms (section 2.5.5.2 of RFC 4291), in any case and with any zone id, are read as x |
| Bits.AndHigh | src/middleware/ipAllowlist.js:103-104 | masking with the top bits is rounding down to a multiple |
| IpAllowlist.WrittenParses | src/middleware/ipAllowlist.js:75-112 | every way to write a prefix entry (mapped or dotted, zone id, white space, a length as parseInt reads it) parses to the same network and mask |
| IpAllowlist.EntryIff | src/middleware/ipAllowlist.js:75-112 | an entry parses to an IPv4 network if and only if it is written so, for any text at all |
| IpAllowlist.CoversIff | src/middleware/ipAllowlist.js:143 | an address matches an entry of length p exactly when the two agree after division by 2^(32-p), for p from 0 to 32 (section 3.1 of RFC 4632) |
| IpAllowlist.DisabledIff | src/middleware/ipAllowlist.js:121-125 | the filter is off exactly when no piece of the text parses |
| IpAllowlist.AllowedIff | src/middleware/ipAllowlist.js:121-144 | for any list text an address, however spelled, passes exactly when it agrees with a prefix entry written there, or when no piece of the text parses |
| IpAllowlist.NativeEntryIff | src/middleware/ipAllowlist.js:81-90 | an entry is an IPv6 subnet exactly when Node takes its address for IPv6 and its length is digits up to 128, or left out |
| IpAllowlist.NativeAllowedIff | src/middleware/ipAllowlist.js:134-144 | an address that spells no IPv4 address passes exactly when nothing parses, or when it is IPv6 and lies in the subnet of an IPv6 entry |
| FixedWindow.AtMostTwice | src/middleware/rateLimit.js:461-478 | a counter that overspends no window grants at most twice its limit in any interval of a window's length |
| FixedWindow.AtMostOnce | src/middleware/rateLimit.js:461-478 | and at most its limit in any interval in which no window is replaced by the next |
| EmailBudget.Budget.CheckDailyBudget | src/middleware/rateLimit.js:461-478 | one call; a refusal leaves the budget as it was |
| EmailBudget.RecipientsAreBounded | src/middleware/rateLimit.js:461-478 | over any run of calls that do not overlap, recipients stay within the limit in a window and within twice the limit in any 24 hours |
| EmailBudget.OneWindowIsBounded | src/middleware/rateLimit.js:468-471 | an interval in which no window is replaced by the next, however long, stays within the limit |
| EmailBudget.TwiceIsReached | src/middleware/rateLimit.js:467-472 | for every limit, and every interval that the end of a window falls into, a run of calls served at once spends twice the limit inside it |
| EmailBudget.AllowedIff | src/middleware/rateLimit.js:465-477 | after any such run a call is allowed exactly when its recipients and those granted out of windows still open stay within the limit, and is told exactly what is left |
| EmailBudget.LateReadOverspends | src/middleware/rateLimit.js:464-468 | a run in which a get that comes after the record expired, inside its window, breaks the 24-hour bound |
| EmailBudget.UnservedOverspends | src/middleware/rateLimit.js:464-476 | for every limit and every n, n calls at one moment whose gets are lost, or whose sets are dropped, spend n times the limit out of one window |
| TokenLimiter.Limiter.Pass | src/middleware/rateLimit.js:383-427 | the first pass of a request with an active policy counts it in all four windows, lets it on exactly when none is exceeded, reports the first that is, and fails closed |
| TokenLimiter.Limiter.PassMounts | src/middleware/rateLimit.js:384-388 | a request counts once however many mounts it passes |
| TokenLimiter.CounterIsExact | src/services/cacheService.js:57-67 | a counter holds exactly the hits it took since its window opened |
| TokenLimiter.RequestsAreBounded | src/middleware/rateLimit.js:400-417 | under policies that may change, the requests let through stay within the largest limit in a window, and within twice that in any interval of its length |
| TokenLimiter.AdmittedWithinOwnLimit | src/middleware/rateLimit.js:416-417 | a request is let through only while its window, itself included, stays within the limit of its own policy |
| TokenLimiter.AdmittedIff | src/middleware/rateLimit.js:416-417 | a request whose counters answer is let through exactly when no window holds more hits than its limit, its own included |
| StreamGuard.Guard.Bump | src/middleware/streamGuard.js:23-26 | the count moves by the delta and its key goes when nothing is left |
| StreamGuard.Guard.Open | src/middleware/streamGuard.js:44-49 | admitted exactly when both counts are below their caps, and then both are raised |
| StreamGuard.Guard.Release | src/middleware/streamGuard.js:72-80 | the first of close and finish lowers both counts, the second nothing |
| StreamGuard.CountsAreExact | src/middleware/streamGuard.js:20-84 | in every reachable state a key's count is its number of open admitted streams, within its cap, and stored exactly when not zero |
| StreamGuard.AdmittedIff | src/middleware/streamGuard.js:44-49 | a request is admitted exactly when its principal and its organization have an open stream to spare |
| StreamGuard.EndFreesThePlaces | src/middleware/streamGuard.js:72-80 | the first of close and finish of an open stream lowers the counts of its principal and its organization by one, and no other |
| StreamGuard.AllEndedLeavesNothing | src/middleware/streamGuard.js:72-82 | once every stream has ended the map is empty |
| DefaultDeny.GuardRoute | src/middleware/v1DefaultDeny.js:51-57 | the guard moves to the front, the other handlers keep their order, the method set is as before |
| DefaultDeny.Route.All | src/middleware/v1DefaultDeny.js:54 | a handler added after the rewrite stands behind all others, so a guarded route stays guarded first and once |
| DefaultDeny.ApplyDefaultDeny | src/middleware/v1DefaultDeny.js:49-62 | every unmarked route of the tree, shared sub-routers included, gets the guard in front, all others keep what they hold; where a mark stands for a guard in front, every request to every route of the tree meets the guard first and once |
| DefaultDeny.ApplyTwice | src/middleware/v1DefaultDeny.js:49-62 | a second application changes nothing |
| DefaultDeny.ChainIsInOrder | src/middleware/v1DefaultDeny.js:54-56 | a request runs exactly the handlers that have no method or its own, in the order of the route's stack |
| DefaultDeny.GuardComesFirst | src/middleware/v1DefaultDeny.js:48-57 | for every method a newly guarded route takes the same requests, and each meets the guard first, once, and then what it met before |

## Left out

- MySQL, Redis, the pool library, express-rate-limit and graphql-yoga: their part is stated as steps (a grant, a row lock, an expiry, an atomic increment), with no failure modes beyond those steps.
- Text encoding: strings are sequences of characters; `encodeURIComponent` works on UTF-8 bytes; query values that are arrays or objects are not modelled.
- The SHA-256 fingerprint is taken as injective and decryption as a function that may fail; the TLS flag of a configuration is one boolean.
- `close`, `testTenantConnection`, pool statistics, metrics, the session time-zone pin, logging and the choice between replica, accounting and primary pool in database.js.
- The pool library is assumed to grant nothing once its own shutdown has run, and to end every loan with its release event: connections destroyed while borrowed (crudController.js:226-231, database.js:63-68) and a returned connection handed straight to a queued waiter without either event are not modelled.
- TenantFreshness.HandedOutPoolIsFresh: says nothing of `null` answers, which the code does not re-check; AnswerIsFreshIff does.
- TenantIsolation.NonInterference: a request runs as a whole, ORDER BY is any order that column, direction and selection determine (rows equal in the column included), and the ids the database supplies are an equal input of both runs; unique-key and foreign-key errors are not modelled.
- TenantIsolation.HandleSeesOnlyOwn: hooks are functions of the fetched row and the body, which they may rewrite; hooks that read or write other rows are not modelled.
- RowLocks.InvariantHoldsIff: the same hooks; the organization a request may not name is part of the guard.
- RowLocks.GuardHoldsAtWrite: does not cover restore, whose guard runs before any row is locked.
- LockedTransaction.ChangeNeedsCommit: a commit that throws is taken as not durable, although a server may have committed before the connection broke.
- LockedTransaction covers the transactional paths of update, delete and restore; hooks after the commit and event publication are not part of this model.
- ResponseCache.Cache.BustCache: one uninterrupted call; the interleaved form is in HttpCache.
- A response body is identified with the state it was computed from; a stored JSON null, which reads as a miss, is not modelled.
- KeysetExport: cells are not rendered (the CSV writer and its formula guard are a separate module), and each row has at most one joined row of each kind.
- KeysetExport.ExportIsFaithful: each batch query reads one table state; a client that leaves is noticed before the next query, as in the code.
- QueryLimits: the parser guarantees non-empty selection sets, the model allows empty ones; the `aiDraftReply` count looks at top-level fields only and is left out.
- Csv.RowCountIff: stated below the row limit, above which every file gives 10,000 rows.
- The importers' row-insert functions and their services.
- Native IPv6: which texts are IPv6 and the subnet test are Node's, a parameter of the model assumed to reject dotted IPv4.
- EmailBudget.RecipientsAreBounded: calls do not overlap, the limit does not change, and the store answers the get of a record whose window is open and keeps every set.
- TokenLimiter.RequestsAreBounded: the clock one counter sees does not go back; requests that the store fails are refused.
- The validation of token and organization ids and of the policy row is one outcome, Invalid; the other limiters of rateLimit.js are configurations of express-rate-limit, and `oncePerRequest` is the same flag as in TokenLimiter.Limiter.PassMounts.
- StreamGuard: the expiry timer and the re-check end a stream through its close or finish event; timers themselves are left out.
- DefaultDeny: the table of public routes and the paths routers match are left out; the router tree has no cycle.
- Everything else of the repository: front end, service worker, authentication and permission tables, configuration, dashboards, billing documents.
