# Verified model of gonio's stateful core

gonio is a Go service skeleton. Most of it is plumbing, but four parts keep state across requests: the product cache
with its singleflight wrapper, the fixed-window rate limiter, the memo of the health endpoint, and the message registry
with its publisher and stream trimmer. This project models those parts, together with product pagination and the choice
of a language from a request header, and proves what they guarantee over whole runs.

`dafny verify dfyconfig.toml` checks everything.

## What is modelled

**Products and their cache.** `Products` and `ProductRepository` are the table: live rows and the tombstones that soft
deletion leaves. `ProductCodec` is the JSON text a record is cached as, character by character, with the escapes of Go's
`encoding/json`. `CacheExpiry` is the jitter. On top of these stand two views of the same code:

- `CacheProtocol` is a step system of any number of readers and writers. A reader looks in the cache, and on a miss joins
  or opens the flight of its key; the flight looks again, queries the repository, and stores the text. A writer commits
  and then deletes the entry. Each operation on a store is one step, any step of another process can come between two
  steps, and every Get, Set, Del and repository operation may fail; a commit may also take effect and be reported as an
  error, after which the code deletes nothing. `CacheRuns` proves what every run keeps.
- `CacheObjects`, `ProductService` and `ProductHandler` are the objects as one caller at a time uses them, with the
  branches of the Go methods; the cached service is proved to refine the one built with a nil cache.

`CacheBridge` joins the two: a reader or a writer that runs through the step system without interruption does what the
service object's methods do.

What holds, in short. Concurrently, the cache is *not* linearizable: a load that a whole write overlaps plants the old
answer after the deletion (`OvertakenSetPlantsStaleEntry`), and a deletion that fails, or is never tried since the
commit was reported as an error, leaves it in place (`MissedDeleteLeavesStaleEntry`). `StaleExactly` says that, of the
steps of the model, nothing else leaves an entry out of date once no writer stands between commit and deletion;
`ConditionalCoherence` that without these events a hit is the current record; `BoundedStaleness` that in every case the
old value is gone one TTL, and a tenth of it or sixty seconds, after the last old load's Set, a bound met to within two
nanoseconds. An answer can be older than its reader's start even where no entry is ever stale, if the reader joins a
flight already under way; `AnswerAge` says exactly when it is. Sequentially, the cached service gives the same replies
as the uncached one whichever Gets and Sets fail, and where a load fails it still answers rightly from a live entry;
what each operation replies and leaves is stated outright by `CachedLookup`, `WriteReplies`, `CreateThenRead` and their
like. Staleness ends, but a patch read through a stale entry writes old fields back for good, and can bring a deleted
product back: `PatchExactly` and `PatchUndoesMissedWrite` say exactly when. And even through a coherent cache two
overlapping patches can lose one (`TwoPatchesLoseOne`); `PatchRuns` says exactly when, in every run.

**Rate limiter.** `RateLimiter` has the Lua script as one atomic run over a store of expiring counters, `Allow`, and the
middleware; `LimiterKeys` the keys; `LimiterRuns` what holds for every sequence of requests on one key: the bound of
2L - 1 in any interval of one window's length, its sharpness, Retry-After, and the history the counter stands for.
`LimiterIsolation` carries this over to the traffic of many clients on many routes, store errors included.

**Health memo.** `HealthMemo` has the two critical sections of the `/health` closure, and every interleaving of requests
whose clock reading and check lie outside them. A late finisher can move the memo back (`LateFinisherMovesBack`);
`MemoNeverMovesBackExactly` and `AnswersAllExactly` say in exactly which runs it does not, and what that buys.

**Messages.** `MessageRegistry` has the registry's map-building loops and the nested loop that registers consumers under
generated names; `StreamTrimmer` the publisher's and the trimmer's length tables, the tick loop, and every interleaving
of publishes and trims, where the store may also drop old messages on append down to the publisher's length. Publisher
and trimmer each ask the registry for its short names; where two topics share one, the two may get different topics, and
`TablesAgreeExactly` says when their caps are sure to be the same.

**Lists and headers.** `Pagination` has the two queries of `List` and `ParsePage`; `AcceptLanguage` the parsing loop.

## How the world is abstracted

- Clocks, random draws, timestamps and faults are parameters; theorems hold for all of them.
- Cache and health times are nanoseconds, limiter times milliseconds of the store's clock. An entry or counter is dead
  from its expiry instant on, so windows are half-open. Limiter windows are measured after the rounding in `Allow`.
- `singleflight.Do` is a table of flights by key: created if absent, joined otherwise, removed after the function returns.
- A write to the database or to a stream works, has no effect, or takes effect and is reported as an error. For a Set, a
  Del and a trim two outcomes suffice, since the code ignores or only logs their errors: one that takes effect and errs
  is one that works.
- The publisher hands its lengths to the stream store, which may use them to drop old messages when one is appended. How
  many it drops is arbitrary, as long as it keeps that many; a length that is not positive sets no bound.
- `Save` puts the full record under its id, and inserts when the id is zero. Prices are whole cents, as the column is
  decimal(10,2). Timestamps are their RFC 3339 text.
- Go's map iteration order is arbitrary: the loops take an arbitrary remaining key, so results hold for every order, and
  for each loop's own.
- In `CacheProtocol` the fields `read`, `stored`, `writes` and `missedDels`, and the versions of texts in flights and
  replies, are bookkeeping: no text, expiry or row depends on them. `EntriesComeFromSets`, `VersionsWereHeld`,
  `AnswerAge` and `MissedDelsHappened` tie them to events of the run.

Where comments or documentation and code disagree, the model follows the code:

- `nullCacheTTL` (`internal/service/product_svc.go:23`) is documented as the shorter life of not-found markers, but is
  never used: markers live as long as records. `setCache` (line 140) is never called.
- `docs/MQ_USAGE.md:456-458` describes trimming as approximate and limited to consumed messages;
  `internal/mq/trimmer.go:47` asks for an exact cut to the newest messages.
- The comment in the Lua script gives the window in seconds (`internal/pkg/ratelimit/ratelimit.go:32`); it is passed in
  milliseconds.

## Model

| member | source | states |
|---|---|---|
| `CacheExpiry.MaxJitter` | internal/pkg/cache/singleflight.go:94-98 | the jitter range lies between nothing and sixty seconds, and is at most a tenth of a positive TTL |
| `CacheExpiry.AddJitter` | internal/pkg/cache/singleflight.go:89-106 | for every draw the stored TTL is at least the one asked for, exceeds it by less than the jitter range, and is positive exactly when the one asked for is |
| `CacheExpiry.JitterExactly` | internal/pkg/cache/singleflight.go:94-105 | for a positive TTL, a positive number of nanoseconds below sixty seconds can be added by some draw if and only if it is a whole number below a tenth of the TTL, rounded down |
| `CacheExpiry.JitterBounds` | internal/pkg/cache/singleflight.go:94-105 | no draw adds more than the lesser of sixty seconds and a tenth of the TTL, nor as much if the TTL is at least ten nanoseconds, and nothing if it is less |
| `CacheExpiry.CacheTtl` | internal/service/product_svc.go:40-51 | a positive configured number is that many seconds, any other is ten minutes |
| `CacheProtocol.InvariantKept` | internal/pkg/cache/singleflight.go:38-70 | every step of every process, failed, or effective and reported as failed, keeps the invariant: table and history of writes agree, flights are exactly the active calls, every text in cache, flight or reply is the one its id held at the version it names, expiries are bounded, and a write that an entry survived has a deletion pending or missed |
| `CacheProtocol.FlightsKept` | internal/pkg/cache/singleflight.go:46-64 | the flight table lists exactly the active calls, so a key never has two |
| `CacheProtocol.WaitersKept` | internal/pkg/cache/singleflight.go:46-69 | whoever joins a flight waits for a call of its own key |
| `CacheProtocol.EntryOrigin` | internal/pkg/cache/singleflight.go:52-63 | after any step an entry is the one that was there and was not deleted, or the one a successful Set has just put, with the loaded text and the jittered expiry |
| `CacheProtocol.SurvivalKept` | internal/service/product_svc.go:109-137 | every write that took effect since an entry was stored still has its deletion to come, or missed it: the deletion failed, or the commit was reported as an error |
| `CacheRuns.RunInvariant` | internal/pkg/cache/singleflight.go:38-70 | every state of every run satisfies the invariant |
| `CacheRuns.VersionsGrow` | internal/service/product_svc.go:109-137 | the version of an id grows between two states exactly if a commit of it takes effect in between |
| `CacheRuns.VersionsWereHeld` | internal/service/product_svc.go:109-137 | each value in the history of writes was what a repository query returned at some instant of the run |
| `CacheRuns.AnswersAuthentic` | internal/service/product_svc.go:75-106 | every answer from a cached or loaded text is one the uncached service would have given at some instant of the run; a product returned carries the id asked for |
| `CacheRuns.AnswerAge` | internal/pkg/cache/singleflight.go:38-70 | every text answered was obtained at one event: the reader's own hit, or the second hit or the query of the flight it waited on; it is older than the record at the reader's start if and only if that was a hit already stale by then, or a commit took effect between that event and the start |
| `CacheRuns.LateJoinerGetsOldAnswer` | internal/pkg/cache/singleflight.go:46-69 | for every product and TTL there is a run without an overtaken Set or a missed Del in which a reader that starts after a whole write is answered with the state before it |
| `CacheRuns.OneLoaderPerKey` | internal/pkg/cache/singleflight.go:46-64 | in every interleaving a key has at most one active call |
| `CacheRuns.FlightSharesOneResult` | internal/pkg/cache/singleflight.go:46-69 | all callers that led or joined a flight receive that flight's one result |
| `CacheRuns.FlightsAdvance` | internal/pkg/cache/singleflight.go:46-64 | each step of a flight, failed or not, strictly lowers the number of steps it has left, and no other step changes it |
| `CacheRuns.WaitersAdvance` | internal/pkg/cache/singleflight.go:46-69 | a waiter can collect, or the call it waits for can take its next step: nobody is stuck |
| `CacheRuns.BoundedStaleness` | internal/pkg/cache/singleflight.go:38-106 | once every load that read an older value is past its Set, no lookup hits an older value from the TTL and the lesser of sixty seconds and a tenth of it later on, whatever fails |
| `CacheRuns.StaleExactly` | internal/service/product_svc.go:75-137 | with no writer between commit and deletion, an entry is out of date if and only if a write overtook its load, or a later write missed its deletion, by a failed Del or by a commit reported as an error |
| `CacheRuns.EntriesComeFromSets` | internal/pkg/cache/singleflight.go:59-63 | every entry was put by a successful Set of the run, with that load's text and version and that Set's expiry |
| `CacheRuns.MissedDelsHappened` | internal/service/product_svc.go:109-157 | a write counts as having missed its deletion exactly if an event of the run was its failed Del, or its commit taking effect and being reported as an error |
| `CacheRuns.ConditionalCoherence` | internal/service/product_svc.go:75-137 | in runs without an overtaken Set and without a missed deletion of the id, whenever no writer of it stands between commit and deletion, a hit encodes exactly the current record or its absence |
| `CacheRuns.NoRedundantLoad` | internal/pkg/cache/singleflight.go:46-64 | between two successful loads of a key lies a failed Set, a successful Del or a failed second Get, or else a whole TTL |
| `CacheRuns.OvertakenSetPlantsStaleEntry` | internal/service/product_svc.go:75-126 | for every product and TTL there is a run in which nothing fails and which ends with a not-found hit for a product the repository holds |
| `CacheRuns.MissedDeleteLeavesStaleEntry` | internal/service/product_svc.go:117-157 | for every product and TTL, both for a failed Del and for an unacknowledged commit, there is a run in which nothing else fails, and whose stale hit lasts to within two nanoseconds of the staleness bound |
| `CacheBridge.SoloReader` | internal/pkg/cache/singleflight.go:38-70 | the steps of a reader that nobody interrupts have the reply and the effect on the store of one GetOrLoad, and no other |
| `CacheBridge.SoloWriter` | internal/service/product_svc.go:109-137 | the steps of a writer that nobody interrupts leave the database and the store that the service's Create, Update or Delete leaves; the history gains a version exactly if that write has an effect, with its deletion missed exactly if the service misses it; and success is reported exactly for an acknowledged effect |
| `ProductCodec.PayloadRoundTrip` | internal/service/product_svc.go:84-106 | decoding the encoded text of any record gives that record |
| `ProductCodec.PayloadIsNotNull` | internal/service/product_svc.go:20 | no encoded record equals the null marker |
| `ProductCodec.TextKeepsAnswer` | internal/service/product_svc.go:75-106 | going through the stored text gives the answer of the direct query, for records and for their absence |
| `ProductCodec.TextInjective` | internal/service/product_svc.go:75-88 | different records, or a record and none, are stored as different texts |
| `ProductCodec.AbsenceIsNull` | internal/service/product_svc.go:20 | the absence of a record is stored as null |
| `ProductCodec.ProductIsSpelled` | internal/model/product.go:4-12 | a record is written as an object with its fields in their order, each under its JSON name |
| `ProductCodec.PlainTextIsQuoted` | internal/service/product_svc.go:84 | a text of plain characters stands between quotes as it is |
| `ProductCodec.EscapesAreSpelled` | internal/service/product_svc.go:84 | quotes, backslashes, controls and the characters HTML would read are escaped as Go does |
| `ProductCodec.CentsAreSpelled` | internal/model/product.go:8 | a price is written with no point if whole, and otherwise without a trailing zero, and with a minus sign if negative |
| `ProductCodec.MembersRoundTrip` | internal/model/product.go:4-12 | members written one after another behind their labels are read back, whatever their texts contain |
| `ProductCodec.TextRoundTrip` | internal/service/product_svc.go:84-101 | every string survives its JSON escaping, whatever follows it |
| `ProductCodec.CentsRoundTrip` | internal/model/product.go:8 | every two-decimal price survives its shortest decimal text |
| `ProductCodec.CacheKeyInjective` | internal/service/product_svc.go:60 | different ids have different cache keys |
| `ProductCodec.CacheKeySpells` | internal/service/product_svc.go:60 | the key is the prefix product: and a numeral of the id |
| `Text.DecimalSpells` | internal/service/product_svc.go:60 | a numeral is spelled by the usual digits, tens before units, without a leading zero |
| `CacheObjects.ExpiringCache.Get` | internal/pkg/cache/singleflight.go:40-43 | a lookup finds a live entry unless it fails; a failure is a miss |
| `CacheObjects.GetOrLoadStep` | internal/pkg/cache/singleflight.go:38-70 | whatever fails, the result is a live entry's or the loader's, and the store stays or only the key changes, to what was loaded, with the jittered expiry |
| `CacheObjects.CacheWithSingleflight.GetOrLoad` | internal/pkg/cache/singleflight.go:38-70 | the method's lookups, load and Set have exactly that step's result and effect |
| `CacheObjects.CacheWithSingleflight.Del` | internal/pkg/cache/singleflight.go:82-85 | the key is gone, or on failure nothing changes |
| `CacheObjects.MockCache.Set` | internal/pkg/cache/mock.go:27-30 | exactly the key changes |
| `CacheObjects.MockCache.Del` | internal/pkg/cache/mock.go:32-37 | the loop removes exactly the listed keys |
| `CacheObjects.MockCache.GetOrLoad` | internal/pkg/cache/mock.go:39-49 | the stored text without a load, or the loader's result, stored unless it is an error |
| `CacheObjects.MockRemembers` | internal/pkg/cache/mock.go:20-49 | what the mock has once returned for a key it keeps returning whatever a later loader would give, an error leaves no trace, and no other key is concerned |
| `CacheObjects.WrapperRefinesMock` | internal/pkg/cache/mock.go:39-49 | on the texts still alive, a GetOrLoad without faults has the mock's result and effect |
| `ProductRepository.WritesKeepValid` | internal/repository/product_repo.go:62-85 | every write keeps rows under their own ids and the next id unused |
| `ProductRepository.WritesAreExact` | internal/repository/product_repo.go:62-85 | a successful write leaves its record, with exactly the ids and timestamps the database fills in, and touches no other row; one that reports an error leaves everything as it was, or exactly what it would have left had it been acknowledged; inserts never reuse an id, tombstones included; a delete succeeds exactly on a live row |
| `ProductRepository.ProductRepo.List` | internal/repository/product_repo.go:29-50 | the live count with the page's rows; nothing is queried after an empty count; either query may fail |
| `ProductRepository.ProductRepo.GetByID` | internal/repository/product_repo.go:53-60 | the live row, or record-not-found, tombstones included |
| `ProductRepository.ProductRepo.Create` | internal/repository/product_repo.go:63-66 | the table afterwards and the record as stored, with its assigned id |
| `ProductRepository.ProductRepo.Update` | internal/repository/product_repo.go:69-72 | the full record is put under its id, or inserted without one |
| `ProductRepository.ProductRepo.Delete` | internal/repository/product_repo.go:75-85 | a live row becomes a tombstone; any other id is record-not-found |
| `ProductService.ProductService.constructor` | internal/service/product_svc.go:40-53 | a positive TTL, and a wrapper exactly if a cache store is given |
| `ProductService.ProductService.Load` | internal/service/product_svc.go:75-89 | the loader gives the encoded record, the null marker for record-not-found, and an error for any other failure |
| `ProductService.ProductService.GetByID` | internal/service/product_svc.go:59-107 | answer and effect of both branches: straight from the repository, or through GetOrLoad, null marker and decoding |
| `ProductService.ProductService.Create` | internal/service/product_svc.go:109-115 | commit, then deletion of the entry under the assigned id |
| `ProductService.ProductService.Update` | internal/service/product_svc.go:117-126 | commit, then deletion of the entry; nothing is deleted if the commit reports an error, even one that took effect |
| `ProductService.ProductService.Delete` | internal/service/product_svc.go:128-137 | soft deletion, then deletion of the entry; nothing is deleted if there is no live row |
| `ProductService.ProductService.DelCache` | internal/service/product_svc.go:150-157 | a failed deletion is swallowed, and a missing cache ignored |
| `ProductService.CachedLookup` | internal/service/product_svc.go:74-106 | from a coherent cache, whichever of the four operations of a lookup fail: an internal error if and only if the load fails and no working Get finds a live entry; else the product if the database holds it, and not found if it holds none |
| `ProductService.PlainLookup` | internal/service/product_svc.go:62-72 | without a cache: an internal error if and only if the query fails; else the product if there is one, and not found if not |
| `ProductService.GarbledEntry` | internal/service/product_svc.go:100-104 | a live entry that is neither null nor decodes is an internal error and stays in place |
| `ProductService.LoadedTextLives` | internal/pkg/cache/singleflight.go:40-64 | a text loaded with a given draw answers later lookups while the database is out of reach for exactly the TTL and the draw |
| `ProductService.WriteReplies` | internal/service/product_svc.go:109-137 | which reply each write gives, exactly: saved, removed, no such product, or internal error |
| `ProductService.WritesForgetOnlyTheirOwn` | internal/service/product_svc.go:109-157 | a write removes the entry of its own id if it succeeds and its deletion works, and no other entry ever |
| `ProductService.CreateThenRead` | internal/service/product_svc.go:109-115 | a Create replies with what it stored: the product given, under an id no row has had and with unset timestamps filled in; and later lookups return exactly that |
| `ProductService.UpdateThenRead` | internal/service/product_svc.go:117-126 | an Update replies with and stores the product given with a fresh update time, and later lookups return exactly that |
| `ProductService.DeleteThenRead` | internal/service/product_svc.go:128-137 | after a Delete that succeeds later lookups answer not found, and a Create under that id fails |
| `ProductService.StepRefines` | internal/service/product_svc.go:59-137 | from a coherent cache, one operation replies as without a cache, leaves the same table, and leaves the cache coherent, whichever Gets and Sets fail and whichever writes the repository refuses |
| `ProductService.SequentialRefinementWithFaults` | internal/service/product_svc.go:59-137 | when loads fail as well, the two services hold the same database at every operation of every sequence, and reply the same but to lookups whose load fails: an internal error without a cache, and with one the right answer if a working Get finds a live entry |
| `ProductService.SequentialRefinement` | internal/service/product_svc.go:59-137 | for every sequence of operations and lapses of time, with failing Gets and Sets and refused writes, but no failing load and no missed deletion, the cached service's replies are those of the service with a nil cache |
| `ProductService.MissedDeletionExactly` | internal/service/product_svc.go:109-157 | after a write whose deletion failed or was never tried, a lookup agrees with the uncached service if and only if there was no live entry or the record did not change; lookups of other ids agree |
| `ProductHandler.ProductHandler.ApplyPatch` | internal/handler/product_handler.go:110-127 | exactly the supplied fields are replaced |
| `ProductHandler.ProductHandler.Update` | internal/handler/product_handler.go:91-134 | a bad id changes nothing; a missing product or a body that does not bind ends without a save; otherwise the patched record goes through the service's Update |
| `ProductHandler.PatchThenRead` | internal/handler/product_handler.go:98-133 | a patch read through the cache and saved changes only the supplied fields and the update time of only that row, and the next lookup, any time later, returns that record |
| `ProductHandler.PatchExactly` | internal/handler/product_handler.go:98-133 | in whatever state the cache is, the record read is stored patched; so only the supplied fields change if and only if the database still holds a record that agrees with it in all others; and a difference takes a live entry that does not hold the database's record |
| `ProductHandler.PatchUndoesMissedWrite` | internal/handler/product_handler.go:98-133 | after a write that missed its deletion under a live entry, a patch stores the record from before that write, patched; the write survives if and only if it left a record and touched supplied fields only; and the cache is coherent again, so the loss is permanent |
| `PatchRuns.PatchInTraffic` | internal/handler/product_handler.go:98-133 | in every run, the commit of a patched answer changes only the supplied fields if and only if the record held then agrees with the answer in all others; the answer is still the current version if and only if it was no stale hit and no commit of the id has taken effect since; and then the record held is the answer |
| `PatchRuns.TwoPatchesLoseOne` | internal/handler/product_handler.go:98-133 | for every product there is a run in which nothing fails and two patches read it through a coherent cache, the first changes the name and the second the description, and in the end the name is the old one |
| `LimiterKeys.BuildKeyInjective` | internal/pkg/ratelimit/ratelimit.go:78-92 | keys of well-formed requests are equal if and only if address, upper-cased method (empty read as GET) and route are, colons in addresses and routes notwithstanding |
| `LimiterKeys.KeySpells` | internal/pkg/ratelimit/ratelimit.go:78-92 | the key of a method in any letter case is the one spelled with the method in upper case, and that of no method the one of GET |
| `RateLimiter.CounterStore.RunLimitScript` | internal/pkg/ratelimit/ratelimit.go:33-52 | the script's commands, run in order, change only the key's counter and return the verdict of the one-step specification |
| `RateLimiter.WindowMs` | internal/pkg/ratelimit/ratelimit.go:62-65 | the window in whole milliseconds, rounded down, and never below one |
| `RateLimiter.RateLimiter.Allow` | internal/pkg/ratelimit/ratelimit.go:55-76 | outcome and counter for each argument error, for a store that fails before or after the script, and for a verdict |
| `RateLimiter.CeilSeconds` | internal/pkg/ratelimit/ratelimit.go:94-106 | a positive whole number of seconds not below the duration, and no smaller one would do |
| `RateLimiter.CeilSecondsIsLeast` | internal/pkg/ratelimit/ratelimit.go:94-106 | every positive whole number of seconds not below the duration is at least that |
| `RateLimiter.RetryAfterSeconds` | internal/pkg/ratelimit/ratelimit.go:94-106 | the header is the decimal text of that least number |
| `RateLimiter.RateLimitMiddleware.Handle` | internal/middleware/ratelimit.go:17-51 | pass, reject with Retry-After, or on an error pass or reject by the rule; only the request's own counter changes |
| `RateLimiter.ErrorsByRule` | internal/middleware/ratelimit.go:30-40 | every limiter error, a limit or window that is not positive included, passes on a fail-open route and is rejected without a Retry-After on a fail-closed one; the counter moves exactly if the script ran |
| `LimiterRuns.ReachableCounters` | internal/pkg/ratelimit/ratelimit.go:38-46 | every stored counter has an expiry, and every reported remaining window is the distance to the expiry of the counter left behind, between one and the window, so the fallback for a negative one is never taken |
| `LimiterRuns.SlidingBound` | internal/pkg/ratelimit/ratelimit.go:33-52 | whatever arrives and however the store fails, a fail-closed route serves at most 2L - 1 requests of a key in any half-open interval of one window's length (L for a window of one millisecond) |
| `LimiterRuns.OpenServesErrorsToo` | internal/middleware/ratelimit.go:30-40 | a fail-open route serves exactly what a fail-closed one does, and the requests for which the limiter errs |
| `LimiterRuns.SlidingBoundFailOpen` | internal/middleware/ratelimit.go:30-49 | a fail-open route exceeds the bound by at most the errors in the interval |
| `LimiterRuns.SlidingBoundAttained` | internal/pkg/ratelimit/ratelimit.go:33-52 | for every limit and window some sequence of requests attains the bound |
| `LimiterRuns.RetryAfterSound` | internal/pkg/ratelimit/ratelimit.go:38-51 | after a denial, however many requests follow and however the store fails, none is admitted before the reported time is up, and the first one from then on is |
| `LimiterRuns.AdmittedAreSpaced` | internal/router/admin/product.go:12-20 | with a limit of one, as the routes have it, admitted requests are at least a window apart |
| `LimiterRuns.AfterIsCounterOf` | internal/pkg/ratelimit/ratelimit.go:38-41 | the stored counter is the number of requests since the current window opened, and its expiry that window's end |
| `LimiterRuns.AdmitsFewerThanLimit` | internal/pkg/ratelimit/ratelimit.go:38-51 | a request is admitted if and only if fewer than the limit have reached the script since its window opened |
| `LimiterIsolation.OthersLeaveCell` | internal/middleware/ratelimit.go:23-30 | a request moves the counter of its own client, method and route, and no other |
| `LimiterIsolation.Isolation` | internal/middleware/ratelimit.go:17-51 | in everybody's traffic, one client's requests on a route are answered, Retry-After included, as by a counter of their own |
| `LimiterIsolation.PassedIsServed` | internal/middleware/ratelimit.go:17-51 | the requests of a client that pass in an interval are those its own counter serves |
| `LimiterIsolation.EveryClientIsLimited` | internal/middleware/ratelimit.go:17-51 | in everybody's traffic no client passes more than the bound on a fail-closed route, or the bound plus its errors on a fail-open one |
| `LimiterIsolation.RetryAfterHolds` | internal/middleware/ratelimit.go:42-49 | in everybody's traffic, after a client is rejected with a Retry-After, none of its requests on the route passes by verdict before the instant the header names to the second above, and the first to reach the store from then on passes, in particular one that waits the header's seconds |
| `HealthMemo.HealthEndpoint.Read` | internal/router/router.go:46-62 | an answer from the memo exactly if it is less than a second older than the request's reading |
| `HealthMemo.HealthEndpoint.Publish` | internal/router/router.go:66-78 | the memo becomes the check's outcome under the request's own reading, and the response repeats it |
| `HealthMemo.InvariantKept` | internal/router/router.go:45-78 | every step of every request keeps each cached answer explained by a completed check |
| `HealthMemo.OwnCheckAnswers` | internal/router/router.go:63-78 | in every interleaving a request that ran its own check answers healthy without the cached flag if and only if the check reported no error, and else unhealthy with its error |
| `HealthMemo.CachedAnswersAreRecent` | internal/router/router.go:46-62 | in every interleaving a cached answer repeats that of a request which published its own check, with the same status and message and the cached flag when healthy, whose reading is later than this request's minus one second; and a nil error is never dereferenced |
| `HealthMemo.PublishedWasChecked` | internal/router/router.go:63-70 | a published outcome is that of a check the same request ran to its end before |
| `HealthMemo.MemoIsLastWrite` | internal/router/router.go:66-70 | the memo is always the outcome published last, under its request's reading |
| `HealthMemo.FirstRequestsCheck` | internal/router/router.go:46-63 | until a check has been published, every request runs a check of its own |
| `HealthMemo.ChecksAreSpaced` | internal/router/router.go:52-66 | a request runs a check of its own only if the last published one began at least a second before its reading; otherwise it answers with that outcome |
| `HealthMemo.MemoNeverMovesBackExactly` | internal/router/router.go:45-70 | in every run the memo's time never moves back if and only if no request publishes after one with a later reading; and if and only if the memo always holds the greatest reading published |
| `HealthMemo.AnswersAllExactly` | internal/router/router.go:46-70 | in exactly those runs the memo is at every instant fresh for just the readings less than a second after some published check began |
| `HealthMemo.ChecksOnlyWhenNeeded` | internal/router/router.go:46-66 | in those runs a request runs a check of its own if and only if no published check began less than a second before its reading |
| `HealthMemo.LateFinisherMovesBack` | internal/router/router.go:45-70 | for any two readings and outcomes, the earlier request can publish last and move the memo back; and a request at any later reading that only the newer outcome covers then runs a check although that outcome had been published |
| `MessageRegistry.Registry.Register` | internal/mq/registry.go:33-47 | the topic's entry is added or replaced, and each key remains its entry's topic |
| `MessageRegistry.Registry.GetAllTopics` | internal/mq/registry.go:50-56 | every topic exactly once |
| `MessageRegistry.Registry.GetShortToTopicMap` | internal/mq/registry.go:59-65 | each short name leads to one of the topics that carry it, and to nothing else |
| `MessageRegistry.Registry.GetTopicToShortMap` | internal/mq/registry.go:68-74 | each topic leads to its own short name |
| `MessageRegistry.Registry.GetHandlers` | internal/mq/registry.go:77-100 | every entry exactly once |
| `MessageRegistry.TablesAreInverse` | internal/mq/registry.go:59-74 | the two tables are mutual inverses if and only if short names are distinct |
| `MessageRegistry.Concurrency` | internal/mq/router.go:57-63 | the configured number if positive, else one |
| `MessageRegistry.HandlerNameInjective` | internal/mq/router.go:75 | generated names coincide only for the same short name and number, underscores and digits in short names notwithstanding |
| `MessageRegistry.RegisterConsumers` | internal/mq/router.go:68-78 | the nested loop registers the whole fan-out exactly if every subscriber of every topic can be created; else the error names the first that cannot |
| `MessageRegistry.NewRouter` | internal/mq/router.go:54-80 | the router's consumers are the fan-out of all registered types in some order |
| `MessageRegistry.FanOutMembers` | internal/mq/router.go:68-78 | a consumer is registered if and only if it is one of the numbered consumers of an entry, in whatever order entries come |
| `MessageRegistry.ConsumersAreNumbered` | internal/mq/router.go:68-77 | the consumers of an entry are registered one after another under its short name, _handler_ and the numerals from 0 |
| `MessageRegistry.EnumerationKeepsNames` | internal/mq/registry.go:77-100 | any enumeration of the types has distinct short names exactly if the types do |
| `MessageRegistry.ConsumerNamesDistinct` | internal/mq/router.go:68-78 | all generated names are distinct if and only if the short names are |
| `MessageRegistry.ConsumersPerTopic` | internal/mq/router.go:57-78 | each topic gets exactly its number of consumers, and the total is their sum |
| `StreamTrimmer.ResolveLimits` | internal/mq/trimmer.go:23-32 | the trimmer's table holds, in whatever order it is built, each topic's configured cap if positive, else a positive default, and no other topic |
| `StreamTrimmer.TrimmerLimits` | internal/mq/trimmer.go:20-32 | the trimmer's table is one built from a table of short names the registry can give |
| `StreamTrimmer.PublisherMaxLens` | internal/mq/publisher.go:33-39 | the publisher's table holds the configured numbers of the known short names as they are |
| `StreamTrimmer.RegistryTablesAreInjective` | internal/mq/registry.go:59-65 | short names of the registry's table lead to different topics |
| `StreamTrimmer.TablesAgreeExactly` | internal/mq/publisher.go:33-39 | trimmer and publisher, each building its table from the registry in its own order, are sure to have the same cap for a registered topic if and only if the trimmer has none for its short name, or no other topic has that short name and its configured number, if any, is positive |
| `StreamTrimmer.TrimmerCapExactly` | internal/mq/trimmer.go:24-31 | the trimmer's cap, in numbers, for a topic alone in its short name: the configured number if positive, else a positive default, else none |
| `StreamTrimmer.Publisher.constructor` | internal/mq/publisher.go:33-46 | the publisher holds a table of configured numbers built from a table of short names the registry can give, and the default |
| `StreamTrimmer.Publisher.Publish` | internal/mq/publisher.go:68-80 | one message is appended under the publisher's length for the topic, its id the request's if there is one; an error means that nothing was, or that the acknowledgement is missing |
| `StreamTrimmer.Broker.XTrimMaxLen` | internal/mq/trimmer.go:47 | one stream is cut to its newest messages, the number removed is returned, and other streams stay |
| `StreamTrimmer.Broker.TrimTick` | internal/mq/trimmer.go:45-56 | after a tick each capped topic whose trim worked holds its newest messages up to the cap, and all others are untouched |
| `StreamTrimmer.StreamsRetain` | internal/mq/trimmer.go:39-58 | in every interleaving of publishes and trims, whatever the store drops on append, a stream is the end of what was published to it, holds the newest messages down to the least cap that has come to bear (all of them if none has), and once trimmed no more than its cap and what came since |
| `StreamTrimmer.CapIsKept` | internal/mq/publisher.go:33-46 | for a registered topic with a positive cap that shares its short name with no other, the cap's worth of newest messages is always there, and after a trim nothing beyond it but what came since, also where the publisher was given a number that sets no bound |
| `StreamTrimmer.StreamsRetainExactly` | internal/mq/trimmer.go:39-58 | if the store drops nothing on append, a stream is exactly the newest part of what was published to it: its cap and what came since the last successful trim |
| `StreamTrimmer.TickInAnyOrder` | internal/mq/trimmer.go:46-55 | the trims of a tick have the same effect in every order of the topics, and a failing one keeps no other from being trimmed |
| `Pagination.RowsAreLiveProducts` | internal/repository/product_repo.go:36-46 | the rows are the live products, each once, in strictly descending id order |
| `Pagination.PagesArePrefix` | internal/repository/product_repo.go:45-46 | the first n pages together are the first n times size rows |
| `Pagination.PagesPartition` | internal/repository/product_repo.go:36-49 | pages up to the page count together are all rows; a page is empty if and only if it comes later |
| `Pagination.ParsePage` | internal/pkg/req/page.go:10-20 | the page is at least 1 and the size between 1 and 100, with the parameters' values where those are in range, and the defaults elsewhere, in particular for texts that are no number or negative |
| `Pagination.AtoiOfDecimal` | internal/pkg/req/page.go:11-12 | a decimal numeral is read as its number |
| `AcceptLanguage.ParseAcceptLanguage` | internal/pkg/i18n/i18n.go:119-146 | the language of the first element whose range, or primary subtag, is supported, or the default if none is |
| `AcceptLanguage.ElementSelects` | internal/pkg/i18n/i18n.go:133-142 | an element selects English if its text, up to a semicolon and between white space, is en or starts with en-, Chinese if it is zh or starts with zh-, letter case aside, and nothing otherwise |
| `AcceptLanguage.EveryElementReads` | internal/pkg/i18n/i18n.go:133 | every element has such a text |
| `AcceptLanguage.HeaderSelects` | internal/pkg/i18n/i18n.go:131-145 | the first element of a header decides if it selects a language and is passed over if not; a header without such an element gives Chinese |
| `AcceptLanguage.SplitIsInverse` | internal/pkg/i18n/i18n.go:132 | the elements joined by commas are the header, and none contains a comma |
| `AcceptLanguage.SplitConcat` | internal/pkg/i18n/i18n.go:132 | the elements of two joined headers are those of the first and then those of the second |
| `AcceptLanguage.JoinedHeaders` | internal/pkg/i18n/i18n.go:131-145 | two headers joined by a comma select what the first selects, or else what the second does |
| `AcceptLanguage.WeightsIgnored` | internal/pkg/i18n/i18n.go:133 | whatever follows a range's first semicolon makes no difference |

## Left out

- ProductCodec.PayloadRoundTrip: the decoder accepts the texts the encoder writes, with the usual liberty in escapes, not every JSON text; unknown members, white space and other member orders never occur in what this service stores.
- ProductCodec.CentsRoundTrip: prices are whole cents; binary floating point, and prices with more decimals before the database rounds them, are not modelled.
- ProductRepository.ProductRepo.List: pages and sizes below one, which ParsePage never yields, would expose how the database layer reads negative offsets.
- ProductRepository.ProductRepo.Create: column defaults, which turn an unset status into 1 on insert, and length limits of columns are not modelled.
- ProductRepository.ProductRepo.Update: the record that comes back differs from the one given only in its update time; hooks of the database layer are not modelled.
- AcceptLanguage.ParseAcceptLanguage: lower-casing is that of ASCII; the supported tags have no other letters.
- LimiterKeys.BuildKeyInjective: upper-casing is that of ASCII, as methods are tokens.
- RateLimiter.RateLimiter.Allow: a script result of the wrong length is a store failure after the script.
- CacheExpiry.AddJitter: integers are unbounded, so the sum of TTL and jitter does not overflow.
- CacheProtocol.InvariantKept: a loader that panics, and a caller whose context is cancelled while it waits, are not modelled; a failure of any operation is. Writers' replies are not part of the step system; `CacheBridge.SoloWriter` speaks of the service's.
- A Set or Del that times out and takes effect only after its caller has gone on.
- Redis's millisecond rounding of TTLs, and clock differences between the service and its stores.
- Transactions carried in a context (`WithTransaction`): every repository call commits on its own.
- The start conditions of the trimmer (driver, interval, an empty table), its ticker and its shutdown.
- The rule by which the stream store decides how many messages it drops on append, and the ids it assigns to them.
- The MySQL driver of publisher and subscriber.
- The Retry, PoisonQueue and Recoverer chain, and Watermill's own check for duplicate handler names.
- Decoding of a message's payload by a registered handler: only the identity of the business function is kept.
- `HealthCheck` itself: its outcome is a parameter.
- Validation and binding of request bodies: a body binds or does not.
- Status codes and texts of responses, logging, translation, authentication, configuration, and start-up, which would add only single-branch facts.
