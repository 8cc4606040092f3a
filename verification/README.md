# Verification of the CQRS/DDD packages

This project models the parts of the repository where a mistake would be silent: the revision-fenced cache and the
decorators that use it, the idempotency protocol, the materialised permissions, the optimistic versioned writes, the two
object-graph walks, and the canonical encodings that keys are made of. Every statement below is proved for all inputs,
all runs and all interleavings, with no bound on their number or size.

Run `dafny verify dfyconfig.toml` (Dafny 4.11) to check it.

## What is modelled

**The cache.** `Registers` defines what one key of an `IVersionedCache` may do: a token that moves strictly forward
whenever the key is written, invalidated or evicted, and a fill that goes through exactly when its observed token is
still current. `MemoryCaches` and `MikroOrmCaches` are the two adapters as classes; their methods are proved to compute
functions of the adapter's value, and every run of these functions is proved to be a run of the register, for every key.
`MikroOrmStatements` goes below the operations of the second one: its compare-and-set loops interleaved statement by
statement, over a row that is there. `CacheProtocol` is the step system of any number of `FromCache` finds and `Cache`
saves and deletes over one key and one row, with expiry and eviction at any point; one step is one awaited call. Its
theorems are about every run: a find that begins after an eviction returns that write or a later one, a hit never goes
back to an older version, and a deleted row is never served again. `CacheClients` puts the decorators on the adapters
themselves, while time passes and anybody calls them about other keys, and carries these theorems over.
`MemoryCacheLifetimes` is about how long values are served and which entries eviction takes.

**Idempotency.** `Idempotency` is the step system of `IdempotencyBehavior.handle` over one key, with expiry at any
point; the store is its atomic contract, which `MemoryIdempotencyStores` is proved to meet.

**Permissions.** `Permissions` states what the rows of a user are, and proves that rebuilding removes drift, that batches
and duplicates do not matter, and that cascading deletes keep the projection exact. `PermissionRows` says which rows these
are, link by link. `PermissionSeed` proves that the
seed's SQL gives the same rows and positions. `PermissionsProjector` holds the loops of the projector, proved to compute
the same. `Sorting` holds the facts about sorted and filtered sequences that these need. (`Wrappers` and `Finite` hold result
shapes and the termination measure of the graph walks.)

**Versioned writes.** `OptimisticWrites` models the aggregate, the two conditional statements and the decorated save.
`WriteProtocol` is the step system of any number of clients over one row, `WriteRefinement` proves that the former are its
steps with any number of them under way, and `Acknowledgements` is about acknowledgements that arrive out of order.

**Object graphs.** `CloneGraph` models `deepCloneAndFreeze` over a heap of records, arrays, maps, sets and leaves, cyclic
or shared. `Sanitize` models `safeSanitize` in its JSON mode over such a heap, and `SanitizeMarks` says in plain terms what
it writes.

**Encodings.** `JsonTexts` and `StrictJson` model `stableStringify`, `JsonReading` reads its texts by the rules of RFC 8259,
and `StrictJsonResults` says what a value is accepted or rejected for; `CacheKeys` models `cacheKey` and `CacheKeyForms` says
what its keys look like; `KeySegments` models the composite keys, `Uuid` the layout of section 5.7 of RFC 9562, and
`UuidAcceptance` what is accepted as one.

## Results where the code and its promises part

- `CacheProtocol.LostWriteThroughStaysStale`: a write-through that loses its fence leaves the older fill that beat it in
  place, with nothing left in flight. `CacheProtocol.CoherentIffNoWriteThrough` says that a key is always coherent once its
  saves are done if and only if no save writes it through, and `CacheProtocol.HitIsCurrent` that the last commit being
  lost is the only way to a stale hit.
- `Acknowledgements.NextSaveIsRejected`: when two saves of one aggregate are in flight and the earlier acknowledgement
  arrives last, the baseline falls behind the row, and the next save is rejected although nobody else has written. No
  update is lost. `Acknowledgements.NeverFallsIffInOrder` says that a baseline never falls if and only if the saves of its
  aggregate are acknowledged in the order of their versions; whoever awaits each save before calling the next
  (`Acknowledgements.AwaitedBaselineNeverFalls`) has that, and is never rejected while nobody else writes
  (`Acknowledgements.SoleWriterIsNeverRejected`).
- `Idempotency.ExpiryAllowsASecondSuccess`: once a claim may expire, two executions of one key may both succeed.
- `Idempotency.OrphanBlocksUntilExpiry`: a claim that the store made although its call threw has no execution, and keeps
  every other one from starting until it expires.
- `OptimisticWrites.RootEntity.Mutate`: a mutation that throws after its patch leaves the patched fields, as documented.
- `Sanitize.ErrorsAreNotMasked`, `Sanitize.ErrorsHideSecrets`, `Sanitize.ErrorsCloseCycles`: an `Error` passes its name,
  message and stack through, whatever they are and whatever the rules say. A rule about messages does not reach the message,
  a rule about passwords does not reach a password in an object that is the message, and an error that is its own message
  makes the result cyclic. `Sanitize.RulesHoldIffNoErrorIsHit` says that nothing else escapes the rules,
  `Sanitize.FiniteIffNoErrorHoldsCycle` that nothing else makes the result infinite, and `Sanitize.PlainIffErrorsArePlain`
  that nothing else leaves anything in it but JSON values.
- `CacheKeys.ProtoIsIgnored`: a condition named `__proto__` takes no part in a cache key.
- `KeySegments.KeysCollideIff`: the empty list and the list of one empty segment share a key, and no other two lists do.
- `CloneGraph.AliasingIsKept`: everything keeps its sharing in the copy except dates and regular expressions, of which
  every slot that holds one gets its own.

## Model

| member | source | states |
|---|---|---|
| Registers.NoAba | packages/ddd-core/application/ports/cache.port.ts:68-73 | Over any stretch of any run a token never goes down, and it is the same at both ends exactly when nothing touched the key in between; then the value is the first one, unless it expired |
| Registers.FillCommitsIffUntouched | packages/ddd-core/application/ports/cache.port.ts:84-118 | A fill goes through if and only if nothing has touched the key since its token was observed |
| MemoryCaches.MemoryCache.Evict | packages/ddd-core/persistence/cache/memory.cache.ts:82-99 | Over capacity, the expired entries and then the oldest ones go, until the newest that fit are left, and absent keys get the newest token |
| MemoryCaches.MemoryCache.DropExpired | packages/ddd-core/persistence/cache/memory.cache.ts:88-93 | The first loop keeps exactly the unexpired entries, in their order |
| MemoryCaches.MemoryCache.DropOldest | packages/ddd-core/persistence/cache/memory.cache.ts:95-98 | The second loop keeps exactly the newest entries that fit |
| MemoryCaches.MemoryCache.ReadState | packages/ddd-core/persistence/cache/memory.cache.ts:104-122 | Shows the key's register: live value or none, and the entry's or the absence revision |
| MemoryCaches.MemoryCache.Invalidate | packages/ddd-core/persistence/cache/memory.cache.ts:127-139 | Drops the value under a fresh revision, and evicts when the key was absent |
| MemoryCaches.MemoryCache.TryFill | packages/ddd-core/persistence/cache/memory.cache.ts:145-162 | Writes if and only if the observed token is current, and says so |
| MemoryCaches.MemoryCache.Set | packages/ddd-core/persistence/cache/memory.cache.ts:168-183 | Writes unless a live value is newer; an expired value does not count |
| MemoryCaches.MemoryCache.WriteEntry | packages/ddd-core/persistence/cache/memory.cache.ts:185-203 | Stores the value under a fresh revision with its expiry, and evicts; how long it is served is in `WrittenIsServed` |
| MemoryCaches.MemoryCache.Get | packages/ddd-core/persistence/cache/memory.cache.ts:208-216 | Returns the live value, and drops an expired one without a new token |
| MemoryCaches.MemoryCache.Delete | packages/ddd-core/persistence/cache/memory.cache.ts:221-223 | Is an invalidation |
| MemoryCaches.MemoryCache.Clear | packages/ddd-core/persistence/cache/memory.cache.ts:229-232 | Empties the cache and retires every token handed out, absences included |
| MemoryCaches.MemoryCache.Size | packages/ddd-core/persistence/cache/memory.cache.ts:237-239 | The number of entries, never more than the capacity |
| MemoryCaches.EvictedIsConsistent | packages/ddd-core/persistence/cache/memory.cache.ts:82-99 | Eviction brings the cache within its bound and keeps its order and revisions consistent |
| MemoryCaches.CacheRunIsConsistent | packages/ddd-core/persistence/cache/memory.cache.ts:74-99 | In every run the cache never holds more than its bound, and no token is ahead of the counter |
| MemoryCaches.CacheRefinesRegister | packages/ddd-core/persistence/cache/memory.cache.ts:104-216 | Every run of calls on any keys is, seen from any one key, a run of the register |
| MemoryCaches.CacheHasNoAba | packages/ddd-core/persistence/cache/memory.cache.ts:46-56 | Tokens never go down; the same token at two moments means no write, invalidation, clearing or eviction of the key in between, and the same value unless it expired |
| MemoryCaches.PresenceChangesToken | packages/ddd-core/persistence/cache/memory.cache.ts:53-55 | A key that enters or leaves the store gets a new token, whichever call did it |
| MemoryCaches.WrittenIsServed | packages/ddd-core/persistence/cache/memory.cache.ts:185-203 | A written value that is kept is served until its lifetime, or the default one, is over if that is positive, and for good if not |
| MemoryCacheLifetimes.WritesAreKept | packages/ddd-core/persistence/cache/memory.cache.ts:82-99 | A cache with room for one entry at least keeps what it has just written |
| MemoryCacheLifetimes.ServedForItsLifetime | packages/ddd-core/persistence/cache/memory.cache.ts:32-37 | In every run a written value is served, through all calls that do not write, invalidate, clear or evict its key, until its lifetime is over, and not afterwards |
| MemoryCacheLifetimes.EvictionKeepsUnexpired | packages/ddd-core/persistence/cache/memory.cache.ts:88-93 | What eviction keeps is as it was and has not expired |
| MemoryCacheLifetimes.EvictionFillsTheBound | packages/ddd-core/persistence/cache/memory.cache.ts:95-98 | An unexpired entry goes only if the bound is full of others |
| MemoryCacheLifetimes.EvictionTakesTheOldest | packages/ddd-core/persistence/cache/memory.cache.ts:95-98 | Whoever is newer than an entry that stays, and has not expired, stays too |
| MemoryCacheLifetimes.WritesKeepTheOrder | packages/ddd-core/persistence/cache/memory.cache.ts:199-200 | A key that is written again keeps its place, and a new one comes last |
| MikroOrmCaches.MikroOrmCache.ReadState | packages/ddd-mikro-orm/src/cache/mikro-orm.cache.ts:108-134 | Shows the key's register as read from its row |
| MikroOrmCaches.MikroOrmCache.Invalidate | packages/ddd-mikro-orm/src/cache/mikro-orm.cache.ts:140-179 | Undisturbed, the compare-and-set loop ends in its first rounds with the row emptied under the next revision |
| MikroOrmCaches.MikroOrmCache.TryFill | packages/ddd-mikro-orm/src/cache/mikro-orm.cache.ts:185-241 | Undisturbed, writes the row under the next revision if and only if the observed one is current |
| MikroOrmCaches.MikroOrmCache.Set | packages/ddd-mikro-orm/src/cache/mikro-orm.cache.ts:254-308 | Undisturbed, writes under a fresh revision unless a live value is newer, a new row by insert and then update |
| MikroOrmCaches.MikroOrmCache.Get | packages/ddd-mikro-orm/src/cache/mikro-orm.cache.ts:246-249 | Returns the live value |
| MikroOrmCaches.MikroOrmCache.Delete | packages/ddd-mikro-orm/src/cache/mikro-orm.cache.ts:314-316 | Is an invalidation; the row stays |
| MikroOrmCaches.UpdateActs | packages/ddd-mikro-orm/src/cache/mikro-orm.cache.ts:160-174 | One revision-conditioned update of a row that is there is by itself a step of the register |
| MikroOrmCaches.CallActs | packages/ddd-mikro-orm/src/cache/mikro-orm.cache.ts:108-316 | Each operation drives its key as the register allows and leaves the other keys alone |
| MikroOrmCaches.CacheRefinesRegister | packages/ddd-mikro-orm/src/cache/mikro-orm.cache.ts:108-316 | Every run of whole operations is, seen from any one key, a run of the register |
| MikroOrmCaches.ServedUntilItExpires | packages/ddd-mikro-orm/src/cache/mikro-orm.cache.ts:123-125 | In every run a written value is served, through all calls that do not write or invalidate its key, until it expires, and not afterwards |
| MikroOrmStatements.StepKeepsInv | packages/ddd-mikro-orm/src/cache/mikro-orm.cache.ts:160-174 | Every statement keeps, for every loop, that its attempts so far cost as many new revisions, and that an update that can still hit was not outranked by what it replaces |
| MikroOrmStatements.StatementsRefineRegister | packages/ddd-mikro-orm/src/cache/mikro-orm.cache.ts:160-174 | Any interleaving of the statements of any number of invalidations, writes and fills over a row that is there, whatever happens to the other rows of the table, takes the key through a run of its register, each operation at its one update that hits |
| MikroOrmStatements.CommitsAreJustified | packages/ddd-mikro-orm/src/cache/mikro-orm.cache.ts:229-239 | At its update, a fill commits if and only if the revision it observed is current, and a write never replaces a live value that is newer; what commits is what the operation brings |
| MikroOrmStatements.SkipsAreJustified | packages/ddd-mikro-orm/src/cache/mikro-orm.cache.ts:269-288 | An operation gives up without an update exactly when it is a write that a newer live value outranks, or a fill that is late |
| MikroOrmStatements.ExhaustionTakesForeignCommits | packages/ddd-mikro-orm/src/cache/mikro-orm.cache.ts:177-177 | A loop gives up only after at least sixteen commits of others since it began |
| CacheProtocol.FindKeepsInv | packages/ddd-core/persistence/decorators/from-cache.decorator.ts:218-274 | Each call of a find keeps the invariant: a fill that would still go through carries nothing older than the key holds or has settled |
| CacheProtocol.CommitKeepsInv | packages/ddd-core/persistence/decorators/cache.decorator.ts:215-226 | So does the commit of a save or delete |
| CacheProtocol.MaintenanceKeepsInv | packages/ddd-core/persistence/decorators/cache.decorator.ts:227-290 | So do the eviction and the fenced write-through that follow it |
| CacheProtocol.SaveKeepsInv | packages/ddd-core/persistence/decorators/cache.decorator.ts:191-290 | So does every step of a save, the observation before persistence included |
| CacheProtocol.RunKeepsInv | packages/ddd-core/persistence/decorators/from-cache.decorator.ts:218-274 | The invariant holds in every reachable state, and every commit is settled, lost, or about to be one of the two |
| CacheProtocol.ReadAfterSettled | packages/ddd-core/persistence/decorators/from-cache.decorator.ts:218-274 | A find that begins after a commit's eviction or write-through went through returns that commit's row or a later one |
| CacheProtocol.HitIsCurrent | packages/ddd-core/persistence/decorators/cache.decorator.ts:224-290 | With no save between its commit and its cache maintenance, a live value is the current row, unless the last write-through was lost |
| CacheProtocol.HistoryRules | packages/ddd-core/persistence/decorators/cache.decorator.ts:195-213 | For keys of one aggregate the row's versions ascend and a deletion is the last thing that happens |
| CacheProtocol.HitsNeverGoBack | packages/ddd-core/persistence/helpers/cache-version.helper.ts:59-61 | While a key stays a hit, its value comes from ever later commits, its version never goes down, and it is a version the row has had |
| CacheProtocol.NoResurrection | packages/ddd-core/persistence/decorators/cache.decorator.ts:195-198 | After a deletion and its eviction the key is never a hit again, and no later find returns a row |
| CacheProtocol.VersionedWriteThroughNeverSkips | packages/ddd-core/persistence/decorators/cache.decorator.ts:275-285 | The comparison before a write-through never fires for a versioned key |
| CacheProtocol.FindsReadAtMostThrice | packages/ddd-core/persistence/decorators/from-cache.decorator.ts:226-274 | However contended the key is, no find reads the database more than three times |
| CacheProtocol.HitsAreServedAtOnce | packages/ddd-core/persistence/decorators/from-cache.decorator.ts:218-224 | A find that begins on a hit answers with it at once, and any other has yet to read |
| CacheProtocol.FindsAnswerForAReason | packages/ddd-core/persistence/decorators/from-cache.decorator.ts:218-274 | In every run a find answers with what was live when it began, or with the row it has last read, if its fill went through, the row was not to be cached, or it was the third read; with a row of a higher version found live after a lost fill; or, having read no row, with what is live then and otherwise with no row |
| CacheProtocol.AnswersAreNoOlderThanRead | packages/ddd-core/persistence/decorators/from-cache.decorator.ts:263-270 | No find answers with an older version than it has last read itself |
| CacheProtocol.LostFillIsDecided | packages/ddd-core/persistence/decorators/from-cache.decorator.ts:263-274 | After a lost fill a find ends if and only if a newer row is live, which is then the answer, or it was the third read |
| CacheProtocol.FillsAreFenced | packages/ddd-core/persistence/decorators/from-cache.decorator.ts:250-261 | A fill goes through if and only if the token is the one of the find's last look at the key |
| CacheProtocol.SavesMaintainTheKey | packages/ddd-core/persistence/decorators/cache.decorator.ts:256-292 | A save that has committed and is done has evicted the key, unless it is to write its row through; then it has done nothing if it saw a newer value at its beginning, and otherwise written through if the key still had the token that it saw then, and lost if not |
| CacheProtocol.LostWriteThroughStaysStale | packages/ddd-core/persistence/decorators/cache.decorator.ts:273-285 | A run, for every key that is written through, in which a lost write-through leaves an older version cached for good |
| CacheProtocol.CoherentIffNoWriteThrough | packages/ddd-core/persistence/decorators/cache.decorator.ts:259-290 | Whatever the rows do, a key is current in every run whenever no save is between its commit and its maintenance, if and only if no save writes it through |
| CacheClients.OwnCallActs | packages/ddd-core/application/ports/cache.port.ts:100-118 | On either adapter an invalidation forgets the key, and a fill goes through exactly if its token is the current one |
| CacheClients.ForeignCallActs | packages/ddd-core/application/ports/cache.port.ts:84-91 | On either adapter, calls about other keys, reads, invalidations and clearings leave the key as it is or make it forgotten under a new token |
| CacheClients.FillsAreShown | packages/ddd-core/application/ports/cache.port.ts:100-118 | On either adapter a fill that goes through is shown for its lifetime, and no longer, while the entry is there |
| CacheClients.ClientStepIsStep | packages/ddd-core/persistence/decorators/from-cache.decorator.ts:218-274 | A call that a find or save makes on either adapter is a step of the protocol |
| CacheClients.JointRunIsRun | packages/ddd-core/persistence/decorators/cache.decorator.ts:191-290 | Every run of finds and saves over either adapter, with time passing and foreign calls in between, is a run of the protocol |
| CacheClients.AdapterReadAfterSettled | packages/ddd-core/application/ports/cache.port.ts:87-88 | Over either adapter, a find that begins after a commit's eviction or write-through returns that commit's row or a later one |
| CacheClients.AdapterHitIsCurrent | packages/ddd-core/persistence/decorators/cache.decorator.ts:224-290 | Over either adapter, what is served while no save is between its commit and its maintenance is the current row, unless the last write-through was lost |
| CacheClients.AdapterNeverGoesBack | packages/ddd-core/persistence/helpers/cache-version.helper.ts:59-61 | Over either adapter, what is served never goes back while the key stays a hit |
| CacheClients.AdapterNeverResurrects | packages/ddd-core/persistence/decorators/cache.decorator.ts:195-198 | Over either adapter, a key is never served again after a deletion and its eviction |
| Idempotency.HoldsUntilThrown | packages/pipeline-idempotency/src/idempotency.behavior.ts:303-337 | From its start on an execution holds the record until its handler throws, unless the record expires |
| Idempotency.OnlyAFailureLetsAnotherStart | packages/pipeline-idempotency/src/idempotency.behavior.ts:329-337 | Without expiry a second execution starts only after the first one's handler has thrown |
| Idempotency.AtMostOneSuccess | packages/pipeline-idempotency/src/idempotency.behavior.ts:303-392 | In a run without expiry no two executions overlap and at most one succeeds |
| Idempotency.ThrownAsAsked | packages/pipeline-idempotency/src/idempotency.behavior.ts:329-337 | Without expiry an execution holds the record until it has failed with a release asked for |
| Idempotency.FailureReleases | packages/pipeline-idempotency/src/idempotency.behavior.ts:332-335 | A failed request that asks for it has released its claim, unless the store failed to |
| Idempotency.FreeKeyIsClaimed | packages/pipeline-idempotency/src/idempotency.behavior.ts:303-303 | A claim starts the handler if and only if there is no record |
| Idempotency.FailureKeepsTheKey | packages/pipeline-idempotency/src/idempotency.behavior.ts:332-336 | A failed request that does not ask for a release keeps the key until its claim expires, and no other handler starts |
| Idempotency.FailedClaimIsAnswered | packages/pipeline-idempotency/src/idempotency.behavior.ts:304-327 | A failed claim is a reuse, a contention, a replay or a scope conflict, as name, fingerprint, status and scope of the record say; if the record has gone the request claims once more and gives up the second time |
| Idempotency.OutcomesAreTrue | packages/pipeline-idempotency/src/idempotency.behavior.ts:303-392 | What a request is told is what has happened: its handler threw or returned this snapshot, its completion found the claim, did not, or failed, or the store failed before |
| Idempotency.ReplaysAreGenuine | packages/pipeline-idempotency/src/idempotency.behavior.ts:400-467 | Every replayed response is the snapshot of a successful execution with the same request name, and the fingerprint and replay scope where demanded, with expiry at any point |
| Idempotency.OthersRecordsAreLeftAlone | packages/pipeline-idempotency/src/idempotency.behavior.ts:355-390 | No request changes a record that another one owns, even after losing its claim to it |
| Idempotency.OwnedCompletionIsReplayed | packages/pipeline-idempotency/src/idempotency.behavior.ts:360-370 | A successful execution that still owns its claim leaves a record that a matching duplicate is served from |
| Idempotency.OrphanBlocksUntilExpiry | packages/pipeline-idempotency/src/idempotency.behavior.ts:303-303 | After a claim that was made although the call threw, no handler starts until it expires |
| Idempotency.ExpiryLetsAnotherClaim | packages/pipeline-idempotency/src/idempotency.behavior.ts:317-327 | A run in which a claim expires and another request claims the key |
| Idempotency.ExpiryAllowsASecondSuccess | packages/pipeline-idempotency/src/idempotency.behavior.ts:382-392 | A run with expiry in which two executions succeed and the first is told that it lost its claim |
| MemoryIdempotencyStores.MemoryIdempotencyStore.CleanupExpired | packages/pipeline-idempotency/src/stores/memory.store.ts:60-70 | Leaves exactly the live entries and counts the others |
| MemoryIdempotencyStores.MemoryIdempotencyStore.EnsureCapacity | packages/pipeline-idempotency/src/stores/memory.store.ts:79-89 | Fails if and only if the live entries alone fill the store, and drops no live entry |
| MemoryIdempotencyStores.MemoryIdempotencyStore.Get | packages/pipeline-idempotency/src/stores/memory.store.ts:91-94 | Returns the live record of the key |
| MemoryIdempotencyStores.MemoryIdempotencyStore.SetIfAbsent | packages/pipeline-idempotency/src/stores/memory.store.ts:96-103 | Meets the contract of `setIfAbsent` for its key and changes no other key's live record, or fails when the store is full of live records; the record is there for its lifetime and no longer |
| MemoryIdempotencyStores.MemoryIdempotencyStore.CompleteIfOwned | packages/pipeline-idempotency/src/stores/memory.store.ts:105-121 | Meets the contract of `completeIfOwned`; the completed record is there for its lifetime and no longer |
| MemoryIdempotencyStores.MemoryIdempotencyStore.DeleteIfOwned | packages/pipeline-idempotency/src/stores/memory.store.ts:123-129 | Meets the contract of `deleteIfOwned` |
| Permissions.ReadBackIsPartition | api/src/auths/persistence/user-permissions.projector.ts:77-94 | Numbered rows read by (inverted, position) are the stable partition of the expected ones |
| Permissions.RebuiltDoesNotDrift | api/src/auths/persistence/user-permissions.projector.ts:41-58 | After a rebuild none of its users drifts, and no two rules of a user share a position |
| Permissions.RebuildingInRounds | api/src/auths/persistence/user-permissions.projector.ts:42-57 | Rebuilding in two rounds is rebuilding once, wherever the batches split |
| Permissions.CascadesKeepTheProjection | api/src/persistence/schema-ddl.ts:12-33 | If nobody drifts, deleting a role, capability or user with its cascades leaves no remaining user drifted, although positions have gaps |
| Permissions.ExpectedWithoutRole | api/src/persistence/schema-ddl.ts:17-32 | Without a role the expected rows of a user are the old ones without that role's |
| Permissions.ExpectedWithoutCapability | api/src/persistence/schema-ddl.ts:13-32 | Without a capability they are the old ones without that capability's |
| PermissionRows.ExpectedMembers | api/src/auths/persistence/user-permissions.projector.ts:160-205 | A user should have exactly a rule for every capability of every role, every additional and every denied one, with its columns, denied ones inverted |
| PermissionRows.ExpectedAscends | api/src/auths/persistence/user-permissions.projector.ts:179-205 | In the order of role and capability, then additional, then denied ones |
| PermissionSeed.SeedGivesExpectedRows | api/src/persistence/migrations/Migration20260830000000.ts:283-304 | For every content of the source tables the SQL gives each user the rows and positions a rebuild writes |
| PermissionSeed.SeedIsRebuildOfAll | api/src/persistence/migrations/Migration20260830000000.ts:283-304 | The seed fills the empty table as a rebuild of all users does |
| PermissionSeed.RowNumberIsPlace | api/src/persistence/migrations/Migration20260830000000.ts:286-286 | `row_number` over (group, role, capability) counts along the projector's sequence |
| PermissionsProjector.Chunks | api/src/auths/persistence/user-permissions.projector.ts:23-29 | The chunks in order make up the list, none is empty, and none is longer than 500 |
| PermissionsProjector.SortedUnique | api/src/auths/persistence/user-permissions.projector.ts:42-42 | The ids once each, in ascending order |
| PermissionsProjector.ReadBatch | api/src/auths/persistence/user-permissions.projector.ts:120-147 | The queries find every link of the batch and every capability that a link names |
| PermissionsProjector.GroupByRole | api/src/auths/persistence/user-permissions.projector.ts:149-154 | Each role's capability ids, in the order of the links |
| PermissionsProjector.RulesOfUser | api/src/auths/persistence/user-permissions.projector.ts:179-205 | The loops of one user compute the expected rows, in whatever order the database returned the links |
| PermissionsProjector.ExpectedRules | api/src/auths/persistence/user-permissions.projector.ts:116-207 | The expected rows of every user of the batch |
| PermissionsProjector.Rebuild | api/src/auths/persistence/user-permissions.projector.ts:41-58 | Replaces the rules of the given users by the expected ones and nobody else's, fails without a transaction, and does not depend on order or duplicates |
| PermissionsProjector.SortByInvertedIsPartition | api/src/auths/persistence/user-permissions.projector.ts:91-93 | The stable sort by `inverted` is the stable partition |
| PermissionsProjector.UserDrifts | api/src/auths/persistence/user-permissions.projector.ts:89-95 | Compares a user's stored sequence with the partition of the expected one, field by field |
| PermissionsProjector.FindDrift | api/src/auths/persistence/user-permissions.projector.ts:61-98 | Reports exactly the users that drift, in ascending order |
| PermissionsProjector.RebuildThenFindDrift | api/src/auths/persistence/user-permissions.projector.ts:40-98 | After a rebuild of some users, looking for drift among them finds none, and all other users have the rules they had |
| OptimisticWrites.CheckedIffAcceptable | packages/ddd-core/domain/models/root.entity.ts:365-381 | A patch passes its check if and only if every defined key is registered and every value normalizes |
| OptimisticWrites.RefusedForFirstFault | packages/ddd-core/domain/models/root.entity.ts:365-381 | What a patch is refused for is its first entry that is not acceptable |
| OptimisticWrites.PatchedProperty | packages/ddd-core/domain/models/root.entity.ts:347-387 | A property has the normalized value of the last entry that is for it |
| OptimisticWrites.UnpatchedProperty | packages/ddd-core/domain/models/root.entity.ts:347-387 | And is as it was if there is none |
| OptimisticWrites.RootEntity.constructor | packages/ddd-core/domain/models/root.entity.ts:88-100 | A new aggregate has the given version if it is a positive integer, else 1, as version and baseline |
| OptimisticWrites.RootEntity.SetVersion | packages/ddd-core/domain/models/root.entity.ts:254-259 | A loaded version becomes the baseline too; a value that is not positive is ignored |
| OptimisticWrites.RootEntity.AcknowledgePersisted | packages/ddd-core/domain/models/root.entity.ts:315-327 | The baseline becomes the written version, and the version is raised to it if it was lower |
| OptimisticWrites.RootEntity.OnUpdate | packages/ddd-core/domain/models/root.entity.ts:389-393 | The version goes up by one; the baseline stays |
| OptimisticWrites.RootEntity.ApplyPatch | packages/ddd-core/domain/models/root.entity.ts:347-387 | All of the patch or none of it: an unknown key or a value that does not normalize leaves every field as it was |
| OptimisticWrites.RootEntity.Mutate | packages/ddd-core/domain/decorators/apply-mutation.decorator.ts:59-159 | A refused patch changes nothing; what throws after the patch leaves the patched fields at the old version, what throws after the update leaves the new version too, and a success raises it once |
| OptimisticWrites.ExpectOneRow | packages/ddd-mikro-orm/src/concurrency/conditioned-write.ts:31-55 | One row is success; none is a missing row or a version conflict, told apart by a read; more is an error |
| OptimisticWrites.Execute | packages/ddd-mikro-orm/src/concurrency/optimistic-update.ts:68-72 | The statement replaces or deletes the captured row if and only if its version is the captured baseline |
| OptimisticWrites.Finish | packages/ddd-core/persistence/decorators/acknowledge-persisted.decorator.ts:92-98 | One row acknowledges the captured version, whatever the aggregate has become; any other count leaves version and baseline |
| OptimisticWrites.OptimisticUpdate | packages/ddd-mikro-orm/src/concurrency/optimistic-update.ts:59-74 | The row is replaced if and only if its version is the aggregate's baseline, and otherwise nothing changes and the reason is given |
| OptimisticWrites.OptimisticDelete | packages/ddd-mikro-orm/src/concurrency/optimistic-delete.ts:55-71 | The same for a delete |
| OptimisticWrites.Save | packages/ddd-core/persistence/decorators/acknowledge-persisted.decorator.ts:92-98 | The baseline advances to the version captured before the write if the write succeeds, and stays if it is rejected |
| WriteProtocol.RunKeepsInv | packages/ddd-mikro-orm/src/concurrency/optimistic-update.ts:59-74 | In every reachable state the row's history is one chain that every aggregate and every write in flight continues |
| WriteProtocol.NoLostUpdate | packages/ddd-mikro-orm/src/concurrency/optimistic-update.ts:59-74 | In every interleaving, every mutation a committed save put into the row is still there in every later state, and the version counts the mutations |
| WriteProtocol.CommitReplacesWhatWasSeen | packages/ddd-mikro-orm/src/concurrency/optimistic-update.ts:67-72 | A write that commits replaces exactly the row version its aggregate last loaded or wrote; a mutated save raises the version |
| WriteProtocol.RejectionLeavesEverything | packages/ddd-mikro-orm/src/concurrency/conditioned-write.ts:40-53 | A rejected write changes neither the row nor any baseline, and the row is gone or its version has diverged |
| WriteProtocol.BaselinesAreRows | packages/ddd-core/domain/models/root.entity.ts:261-278 | A baseline is always a version the row has had, and the aggregate continues that row |
| WriteProtocol.NothingFollowsADelete | packages/ddd-mikro-orm/src/concurrency/optimistic-delete.ts:55-71 | After a delete no write goes through |
| WriteProtocol.OnlyOneOfTwoRivals | packages/ddd-mikro-orm/src/concurrency/conditioned-write.ts:40-53 | Of two saves of mutated aggregates from the same row only one can commit |
| Acknowledgements.BaselineIsAcknowledgedLast | packages/ddd-core/domain/models/root.entity.ts:315-325 | In every run the baseline is the version acknowledged last; before the first acknowledgement no save is below it |
| Acknowledgements.LowersIffLastIsHigher | packages/ddd-core/persistence/decorators/acknowledge-persisted.decorator.ts:92-98 | An acknowledgement lowers the baseline if and only if the one before it for this aggregate was of a higher version |
| Acknowledgements.NeverFallsIffInOrder | packages/ddd-core/persistence/decorators/acknowledge-persisted.decorator.ts:92-98 | In every run a baseline never goes down if and only if the saves of its aggregate are acknowledged in the order of their versions |
| Acknowledgements.AwaitedBaselineNeverFalls | packages/ddd-core/persistence/decorators/acknowledge-persisted.decorator.ts:92-98 | A client that calls a save or delete only after the earlier ones have returned never sees the baseline fall, whatever other clients do |
| Acknowledgements.SoleWriterIsNeverRejected | packages/ddd-mikro-orm/src/concurrency/conditioned-write.ts:39-53 | If nobody else writes the row and saves are awaited, no write is rejected until the row is deleted |
| Acknowledgements.LateAcknowledgementLowersBaseline | packages/ddd-core/persistence/decorators/acknowledge-persisted.decorator.ts:92-98 | A run in which an acknowledgement that arrives last takes the baseline back behind the row |
| Acknowledgements.NextSaveIsRejected | packages/ddd-mikro-orm/src/concurrency/optimistic-update.ts:67-73 | That run goes on with a rejected save, although nobody else has written and nothing is in flight |
| Acknowledgements.HigherBeforeIsNotEnough | packages/ddd-core/persistence/decorators/acknowledge-persisted.decorator.ts:92-98 | A run in which a save of a higher version was acknowledged before and the acknowledgement still does not lower the baseline |
| WriteRefinement.StatementIsExecute | packages/ddd-mikro-orm/src/concurrency/conditioned-write.ts:22-26 | The version-conditioned statement on the table is the protocol's step on the history |
| WriteRefinement.LoadEntity | packages/ddd-core/domain/models/root.entity.ts:248-259 | Hydrating an aggregate, from its row or from an older snapshot, is the protocol's load, whatever else is under way |
| WriteRefinement.MutateEntity | packages/ddd-core/domain/decorators/apply-mutation.decorator.ts:130-159 | A completed mutation is the protocol's mutation, and a refused patch is no step |
| WriteRefinement.IssueWrite | packages/ddd-mikro-orm/src/concurrency/optimistic-update.ts:66-71 | Calling a save or delete captures version, baseline and fields, which is the protocol's issue |
| WriteRefinement.ExecuteWrite | packages/ddd-mikro-orm/src/concurrency/optimistic-update.ts:67-72 | The statement, whatever has happened since its capture, is the protocol's execution, and hits one row if and only if that writes |
| WriteRefinement.FinishSave | packages/ddd-core/persistence/decorators/acknowledge-persisted.decorator.ts:92-98 | The end of a save, whatever has happened since its statement, is the protocol's acknowledgement if it has written, and no step otherwise |
| CloneGraph.Cloner.Clone | packages/ddd-core/domain/events/root-domain.event.ts:63-129 | Terminates on every graph and keeps the invariant that relates the copies made so far to their originals |
| CloneGraph.Cloner.CopySlots | packages/ddd-core/domain/events/root-domain.event.ts:85-128 | Fills the copy of one object slot by slot, cloning what is inside, and freezes it |
| CloneGraph.DeepCloneAndFreeze | packages/ddd-core/domain/events/root-domain.event.ts:63-129 | The heap only gains frozen objects; `seen` maps exactly the reachable objects, leaves aside, one to one to new copies, node by node; every slot that holds a date or regular expression gets an equal one that is in no other slot; a class instance becomes a plain object |
| CloneGraph.PathsAgree | packages/ddd-core/domain/events/root-domain.event.ts:55-56 | Original and copy have the same paths, and a path ends in the copy of what it ends in in the original |
| CloneGraph.ShapesAgree | packages/ddd-core/domain/events/root-domain.event.ts:79-127 | An object and its copy are of one kind; a record's copy has the same names at the same places and is a plain object unless the record has no prototype |
| CloneGraph.PartsAreCopied | packages/ddd-core/domain/events/root-domain.event.ts:117-125 | Whatever names and places lead to in the original, they lead to its copy in the copy |
| CloneGraph.PartsAreOriginals | packages/ddd-core/domain/events/root-domain.event.ts:117-125 | And the copy has nothing else in it |
| CloneGraph.AliasingIsKept | packages/ddd-core/domain/events/root-domain.event.ts:71-83 | Two paths meet in the copy if and only if they meet in the original and, if what they meet in is a date or regular expression, come to it through the same slot of the same object |
| CloneGraph.CopyIsDetached | packages/ddd-core/domain/events/root-domain.event.ts:55-56 | Everything that can be reached in the copy is new and frozen |
| CloneGraph.KeysStayDistinct | packages/ddd-core/domain/events/root-domain.event.ts:94-110 | No two keys of a copied map, and no two elements of a copied set, collide |
| CloneGraph.SharedLeafIsSplit | packages/ddd-core/domain/events/root-domain.event.ts:75-83 | Two slots of copies, of one object or of two, hold the same date or regular expression only if they are one slot |
| Sanitize.NormalizedIffAlike | packages/safe-stringify/src/safeStringify.ts:106-108 | Two names have one normal form if and only if they differ in nothing but the case of letters, and in `_` and `-` left in or out |
| Sanitize.BuildMatchers | packages/safe-stringify/src/safeStringify.ts:65-104 | The compiled sets hit a property if and only if some rule of the options does, by path if it has a dot and by name if not: exactly if it excludes, and if it is alike if it masks |
| Sanitize.LastEntryWins | packages/safe-stringify/src/safeStringify.ts:229-229 | When a map becomes an object, of the entries whose keys have the same text the last one is the property |
| Sanitize.PropertiesAreEntries | packages/safe-stringify/src/safeStringify.ts:229-229 | Every property of that object is one of the map's entries |
| Sanitize.Sanitizer.SanitizeValue | packages/safe-stringify/src/safeStringify.ts:129-259 | Terminates on every graph, leaves `ancestors` as it was, and returns the sanitized tree |
| Sanitize.Sanitizer.CopyProperties | packages/safe-stringify/src/safeStringify.ts:261-285 | Builds the properties of one object, dropped, masked or sanitized |
| Sanitize.SafeSanitize | packages/safe-stringify/src/safeStringify.ts:304-310 | The sanitized tree under matchers that say what the options say |
| Sanitize.TheRestSurvives | packages/safe-stringify/src/safeStringify.ts:129-285 | What no rule and no cycle cuts off is in the result at the same place |
| Sanitize.EveryPropertyIsDecided | packages/safe-stringify/src/safeStringify.ts:268-285 | A property the walk comes to is absent if excluded, holds exactly the replacement if masked, and is sanitized otherwise |
| Sanitize.LeavesSurvive | packages/safe-stringify/src/safeStringify.ts:135-151 | JSON primitives come out as they are, and an object the walk came through before as `[Circular]` |
| Sanitize.UpIsTheTrail | packages/safe-stringify/src/safeStringify.ts:149-151 | `ancestors` holds exactly the objects on the way from the root, so sharing alone is never taken for a cycle |
| Sanitize.EveryPlaceHasOrigin | packages/safe-stringify/src/safeStringify.ts:129-285 | Everything in the result, at any depth, is what the walk made of something it came to, a masked property, or something that an error it came to passes through |
| Sanitize.WalkHasPlace | packages/safe-stringify/src/safeStringify.ts:129-285 | And everything the walk comes to is in the result, at the same path |
| Sanitize.HitErrorDisobeys | packages/safe-stringify/src/safeStringify.ts:179-179 | What an error shows breaks the rules, there or further down, if and only if a rule hits its name, message or stack, or a property in the graph of one of these |
| Sanitize.RulesHoldIffNoErrorIsHit | packages/safe-stringify/src/safeStringify.ts:170-180 | Every property at any depth of the result obeys the rules if and only if the walk comes to no error that a rule hits in this way |
| Sanitize.NoDeeperThanTheGraph | packages/safe-stringify/src/safeStringify.ts:149-151 | The result nests no deeper than the graph has objects, unless an error the walk comes to passes a cycle through |
| Sanitize.FiniteIffNoErrorHoldsCycle | packages/safe-stringify/src/safeStringify.ts:170-180 | The result is finite, and then no deeper than the graph, if and only if the walk comes to no error whose name, message or stack leads into a cycle |
| Sanitize.PlainIffErrorsArePlain | packages/safe-stringify/src/safeStringify.ts:170-180 | The result has nothing but JSON values and `undefined` in it if and only if the walk comes to no error with an object, a function, a symbol or a big integer for its name, message or stack |
| Sanitize.NothingNamedLeaks | packages/safe-stringify/src/safeStringify.ts:37-42 | Without errors in the graph no excluded property is anywhere in the result, and every property alike to a redaction rule, or at a path alike to it, holds exactly the replacement |
| Sanitize.ErrorsAreNotMasked | packages/safe-stringify/src/safeStringify.ts:179-179 | Every error's message is shown although a rule masks every `message` |
| Sanitize.ErrorsHideSecrets | packages/safe-stringify/src/safeStringify.ts:179-179 | A password that an error's message holds is shown although a rule masks every `password` |
| Sanitize.ErrorsCloseCycles | packages/safe-stringify/src/safeStringify.ts:179-179 | The result for an error that is its own message is not finite |
| SanitizeMarks.PrimitivesBecome | packages/safe-stringify/src/safeStringify.ts:135-147 | What each primitive becomes |
| SanitizeMarks.ObjectsBecome | packages/safe-stringify/src/safeStringify.ts:149-189 | What circular references, dates, regular expressions and binary data become |
| SanitizeMarks.StreamsBecome | packages/safe-stringify/src/safeStringify.ts:192-198 | An object whose `pipe` and `on`, read as properties are, are functions is a stream |
| SanitizeMarks.FilesBecome | packages/safe-stringify/src/safeStringify.ts:200-207 | Any other object with a name and a buffer is shown as a file by its name, and one without a buffer is walked |
| SanitizeMarks.NamelessAreWalked | packages/safe-stringify/src/safeStringify.ts:200-207 | An object without a name is walked |
| SanitizeMarks.PathIsDotted | packages/safe-stringify/src/safeStringify.ts:269-269 | The path that rules are compared with is the names on the way, with dots in between |
| JsonTexts.StringIsUnique | packages/safe-stringify/src/stableStringify.ts:176-176 | A quoted string, surrogates included, can be read back in one way |
| JsonTexts.PrintIsUnique | packages/safe-stringify/src/stableStringify.ts:176-176 | Two JSON trees with the same text are the same tree |
| JsonTexts.SortedIffSame | packages/safe-stringify/src/stableStringify.ts:116-124 | Sorting keys at every depth forgets the order of keys and nothing else |
| JsonTexts.SortedTextIsCanonical | packages/safe-stringify/src/stableStringify.ts:148-150 | Sorted texts are the same if and only if the trees are equal up to the order of keys |
| JsonReading.StringIsSaid | packages/safe-stringify/src/stableStringify.ts:176-176 | A printed string, read by section 7 of RFC 8259, is the string |
| JsonReading.InsideIsWellFormed | packages/safe-stringify/src/stableStringify.ts:176-176 | Lone surrogates are escaped |
| JsonReading.InsideIsShortest | packages/safe-stringify/src/stableStringify.ts:176-176 | Nothing else is escaped that need not be: no well-formed text of the string is shorter |
| JsonReading.PrintSays | packages/safe-stringify/src/stableStringify.ts:176-176 | A printed tree, read by the rules of RFC 8259, is the tree |
| JsonReading.LessTextIff | packages/safe-stringify/src/stableStringify.ts:117-117 | Keys are ordered by their first different code unit, or the shorter first |
| JsonReading.SortedIsInOrder | packages/safe-stringify/src/stableStringify.ts:116-124 | The names of every object of a sorted tree are in ascending order |
| StrictJson.Normalizer.Normalize | packages/safe-stringify/src/stableStringify.ts:46-128 | Terminates on every graph, leaves `ancestors` as it was, and returns the normalized tree or the first error |
| StrictJson.Normalizer.NormalizeItems | packages/safe-stringify/src/stableStringify.ts:105-114 | Normalizes item by item up to the first hole or error |
| StrictJson.Normalizer.NormalizeFields | packages/safe-stringify/src/stableStringify.ts:116-124 | Normalizes the fields in the order of their sorted keys |
| StrictJson.TreeIsUnique | packages/safe-stringify/src/stableStringify.ts:14-26 | A value stands for one tree at most |
| StrictJson.AcceptedIffTree | packages/safe-stringify/src/stableStringify.ts:14-31 | A value is accepted if and only if it unfolds to a finite JSON tree, and then becomes that tree with sorted keys; so sharing is accepted and cycles are not |
| StrictJson.StableStringify | packages/safe-stringify/src/stableStringify.ts:174-183 | The text of the normalized tree, or the reason for rejecting it |
| StrictJson.StableStringifyIsCanonical | packages/safe-stringify/src/stableStringify.ts:144-150 | Two accepted values have the same text if and only if their trees are equal up to the order of keys |
| StrictJsonResults.StableStringifySays | packages/safe-stringify/src/stableStringify.ts:174-183 | The text of an accepted value says its tree, with the names of every object in ascending order |
| StrictJsonResults.RejectedForAReason | packages/safe-stringify/src/stableStringify.ts:46-114 | A value that is rejected for a reason holds something that is to be rejected for it |
| CacheKeys.StripColons | packages/ddd-core/persistence/helpers/cache-key.helper.ts:111-111 | Takes away all trailing colons and nothing else |
| CacheKeys.NormalizeFilterConditions | packages/ddd-core/persistence/helpers/cache-key.helper.ts:43-67 | Rejects functions, symbols and big integers, and keeps the defined conditions in key order |
| CacheKeys.KeptIsDefined | packages/ddd-core/persistence/helpers/cache-key.helper.ts:49-64 | The kept conditions are exactly the defined ones other than `__proto__` |
| CacheKeys.CacheKey | packages/ddd-core/persistence/helpers/cache-key.helper.ts:89-119 | The key, or the first of the errors in the order of the code |
| CacheKeys.DerivedIff | packages/ddd-core/application/tenant-resolver.ts:67-74 | A key is derived if and only if tenant and resource are known and every defined condition stands for a JSON tree |
| CacheKeys.KeysAgreeExactly | packages/ddd-core/persistence/helpers/cache-key.helper.ts:113-118 | If the hash does not collide on the two serialized tuples, two keys are equal if and only if tenant, resource without trailing colons, and defined filter fields agree |
| CacheKeys.ProtoIsIgnored | packages/ddd-core/persistence/helpers/cache-key.helper.ts:47-63 | With and without a condition named `__proto__` the same tuple is serialized |
| CacheKeyForms.KeyHasThisForm | packages/ddd-core/persistence/helpers/cache-key.helper.ts:89-119 | A key is `tenant:resource:v1:hash`, of the tenant and resource of the call and the hash of a text that says tenant, resource and filter |
| CacheKeyForms.ErrorsComeInOrder | packages/ddd-core/persistence/helpers/cache-key.helper.ts:94-113 | A missing tenant is reported before a missing resource, and both before anything about the filter |
| KeySegments.JoinStep | packages/safe-stringify/src/key-segment.ts:47-56 | Segments are separated by colons, and an absent one is written as `\-` |
| KeySegments.EscapeStep | packages/safe-stringify/src/key-segment.ts:34-36 | The two replacements escape one character after the other |
| KeySegments.ParseUndoesJoin | packages/safe-stringify/src/key-segment.ts:38-56 | A reader that splits at unescaped separators recovers every non-empty list of present and absent segments |
| KeySegments.KeysCollideIff | packages/safe-stringify/src/key-segment.ts:38-56 | Two lists share a key if and only if they are the same, or one is empty and the other one empty segment |
| Uuid.Uuidv7 | packages/uuidv7/src/uuidv7.ts:38-69 | Overwrites the buffer in place with time, version and variant, and prints it |
| Uuid.BytesOfTime | packages/uuidv7/src/uuidv7.ts:43-48 | The six divisions and masks are the big-endian bytes of the time |
| Uuid.WithVersion | packages/uuidv7/src/uuidv7.ts:50-51 | The mask sets the high half of the byte to 7 and keeps the low half |
| Uuid.WithVariant | packages/uuidv7/src/uuidv7.ts:53-54 | The mask sets the two highest bits to `10` and keeps the six others |
| Uuid.RandomBitsAreKept | packages/uuidv7/src/uuidv7.ts:50-54 | Version 7, variant `10`, and the other 74 bits are the random ones |
| Uuid.TimeIsReadBack | packages/uuidv7/src/uuidv7.ts:26-26 | The first twelve digits are the time modulo 2^48, so the time itself below that |
| Uuid.GeneratedIsAccepted | packages/uuidv7/src/uuidv7.ts:75-82 | `isUuidV7` accepts every generated identifier, whatever blank space is around it |
| Uuid.TextSortsByTime | packages/uuidv7/src/uuidv7.ts:32-34 | Identifiers of different milliseconds sort as text by their time |
| UuidAcceptance.AcceptedIff | packages/uuidv7/src/uuidv7.ts:75-82 | `isUuidV7` accepts a text if and only if, blank space around it aside, it is that of a version 7 identifier in any case |

## Left out

Deliberately weaker or narrower statements:

- CacheProtocol.ReadAfterSettled: says nothing about a commit whose write-through was skipped or lost; that such a key may stay stale is proved.
- CacheProtocol.HitsNeverGoBack: assumes the default `isNewer` and snapshots that carry a numeric version; barriers, `__gen` and `updatedAt` are not modelled.
- MikroOrmCaches.CacheRefinesRegister: each operation is one undisturbed transaction; `MikroOrmStatements` interleaves statements once the row is there, but not with the insert of a missing row, which takes any row at revision 1 for its own.
- MikroOrmCaches.MikroOrmCache.TryFill: a competing insert between its statements cannot happen here, as the operation is undisturbed.
- CacheClients.JointRunIsRun: nobody but the decorators writes the key itself; other clients may read, invalidate or clear it.
- Uuid.BytesOfTime: of `x & 0xff` it says what it computes, the lowest byte; only the masks of version and variant are on bits.
- CacheKeys.KeysAgreeExactly: speaks of two tuples on which the hash does not collide, since no hash to 64 digits is injective.
- Sanitize.NothingNamedLeaks: letter case is that of ASCII letters; the case mapping of other letters is not modelled.
- Uuid.TimeIsReadBack: times are integers; above 2^53 JavaScript numbers are not.

Not part of this model:

- Failed or swallowed cache maintenance, unversioned adapters, mutation barriers, `serializeFn`, `hydrateFn` and the plain-data test (the protocol lets a find return its row uncached at any time).
- Tokens are numbers here and decimal strings in the code; JSON cloning in and out of the caches is the identity.
- The clock is a parameter, read once in each call; in runs it never goes back.
- The Redis and PostgreSQL idempotency stores, the administrative `set` and `delete`, and the cleanup timer.
- Request-scoped choices of the idempotency behavior that bypass it (scope, no key factory, ttl validation).
- Row locks of a rebuild; ids compare by code unit in the database as in the code (binary collation).
- In the protocol of versioned writes: mutations outside `@ApplyMutation`, and aggregates that are kept although a mutation threw after its patch; and what events are recorded.
- Accessor properties, property attributes and symbol keys in `deepCloneAndFreeze`, own properties of dates and regular expressions, and the overridden mutating methods, which are one `frozen` flag.
- The `clone` mode of `safeSanitize`, getters that throw, extra properties on arrays, maps and sets, and symbols as file names.
- Overridden `toISOString` and `toString` methods of dates and regular expressions, whose results `safeSanitize` returns unwalked whatever they are, and methods of this kind that throw.
- What functions, prototypes, dates, regular expressions and binary data hold when an error passes them through, and what `JSON.stringify` makes of such a result in `safeStringify`.
- `toStrictJsonValue` without sorting, `toJSON` methods that throw or return a new object at each call, negative zero, and object keys that look like array indices, which the engine reorders.
- `cacheKeyTemplate`, and objects that reach a cache key as the prototype set through `__proto__`.
- The audit, dead-letter, rate-limit, feature-flag, tracing and metrics behaviors, refresh-token rotation, and the framework, transport and mapping code: easy control flow or input and output.
