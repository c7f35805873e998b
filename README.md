# Cache-first service worker, modelled in Dafny

This project models the service worker of a small progressive web app
(`service-worker.js`). The worker keeps one versioned cache, `my-pwa-cache-v1`.
On activation it deletes every other cache. For each intercepted GET request
it answers from the cache storage when it can. Otherwise it asks the network,
and it stores 200 "basic" responses for next time.

The model has three modules:

- `CacheStorage` (`cache_storage.dfy`): the browser's cache storage as a value.
  `Storage` holds the cache names in creation order and each cache's entries.
  It has `keys`, `delete`, `open`, `put` and `match`, where `match` searches
  every cache in order. The class `Caches` is the mutable platform object that
  the worker changes through those operations.
- `ServiceWorker` (`service_worker.dfy`): the version tag `CACHE_NAME` and the
  interception filter `Eligible`. `Decide` is the cache-first decision as a
  function of the storage, the request and the network's answer. `ApplyWrite`
  is the deferred cache write and `Activated` is the activation sweep. The
  class `Worker` has the methods `Activate`, `HandleFetch` and
  `ApplyPendingWrite`, and each is proved against those functions.
- `ServiceWorkerProperties` (`properties.dfy`): the properties of the filter,
  the hit and miss paths, the write's frame, activation, and the lookup after
  activation.

The network is a parameter, `net: NetOutcome`. It is `Ok(response)`,
`NullResponse` (fetch resolved with a falsy value) or `Failure` (fetch
rejected). "The network is not consulted" is stated as "the decision is the
same whatever `net` is". "The storage is not read" is stated as "the decision
is the same whatever the storage is".

The cache write in the source is not awaited. `HandleFetch` therefore only
queues a `Write` in `Worker.pending` and never changes the cache storage.
`ApplyPendingWrite` later runs the oldest queued write, which opens
`CACHE_NAME` (creating it if needed) and puts the entry. The properties about
the stored entry hold "after the pending write is applied".

`caches.match` (service-worker.js:40) searches every cache in creation
order, not only `CACHE_NAME`. `OnlyCurrentMatch` and
`AfterActivationLookupIsCurrent` show that the two agree once activation has
run. On a network failure the handler resolves with `undefined`
(service-worker.js:64-69); the model keeps that as `RespondUndefined`,
separate from `RespondNull` (the network's null response passed through).

## Model

| member | source | states |
|---|---|---|
| CacheStorage.Retain | service-worker.js:18 | the names left are exactly those not removed, in their original relative order (a subsequence), and stay distinct |
| CacheStorage.DeleteCache | service-worker.js:18 | deleting a cache removes it and its entries; every other cache keeps its entries and its place in the order; validity is kept |
| CacheStorage.OpenCache | service-worker.js:57 | opening an existing cache changes nothing; opening a missing one creates it empty, last in the order; no other cache changes |
| CacheStorage.PutEntry | service-worker.js:59 | after put, the cache maps the key to the response; its other keys and all other caches are unchanged; no cache is added or removed |
| CacheStorage.Caches.Keys | service-worker.js:13 | keys() returns the cache names in creation order, each once, exactly the existing caches |
| CacheStorage.Caches.Delete | service-worker.js:18 | the platform object's new state is DeleteCache of the old one; the result says whether the cache existed |
| CacheStorage.Caches.Open | service-worker.js:57 | the platform object's new state is OpenCache of the old one |
| CacheStorage.Caches.Put | service-worker.js:59 | the platform object's new state is PutEntry of the old one |
| CacheStorage.FirstHit | service-worker.js:40-44 | searching the caches in order finds nothing exactly when no listed cache holds the key; what it finds is the entry some listed cache stores under the key |
| CacheStorage.Match | service-worker.js:40 | caches.match finds nothing exactly when no cache holds the key; otherwise it returns the entry of the first cache, in creation order, holding the key |
| CacheStorage.FirstHitNone | service-worker.js:40-44 | match finds nothing exactly when no cache position holds the key (FirstHit's first clause, restated over indices) |
| CacheStorage.FirstHitAt | service-worker.js:40-44 | when cache i is the first, in creation order, to hold the key, match returns that cache's entry |
| CacheStorage.FirstHitSome | service-worker.js:40-44 | whatever match returns is the entry of the first cache holding the key |
| ServiceWorker.Eligible | service-worker.js:30-37 | a request is intercepted exactly when its method is GET and its URL is shorter than, or differs at some position from, "chrome-extension://" |
| ServiceWorker.Cacheable | service-worker.js:50 | only an exact 200 "basic" response is cacheable: a status other than 200, or a type other than "basic" (so also opaque and cors), is not; that a 200 "basic" miss is cached is proved on the handler by MissCachesBasic200 |
| ServiceWorker.Decide | service-worker.js:30-69 | falls through exactly for ineligible requests; a response given is the cached entry or, on a miss, the network's; null and undefined are given exactly on a miss with a null answer or a failure; a write is queued if and only if the request is an eligible miss answered 200 "basic", for the request's key and the response returned |
| ServiceWorker.ApplyWrite | service-worker.js:57-59 | the pending write leaves CACHE_NAME mapping the key to the response; other keys of CACHE_NAME and all other caches are unchanged; CACHE_NAME is created, last, only when it was missing |
| ServiceWorker.Activated | service-worker.js:13-21 | on a valid storage, activation leaves exactly the cache CACHE_NAME with its old entries when it existed, and an empty storage otherwise |
| ServiceWorker.Worker.Activate | service-worker.js:12-23 | listing the cache names and handing them to the deletion callback leaves the storage equal to Activated of the old one, still valid |
| ServiceWorker.Worker.DeleteStale | service-worker.js:14-21 | the loop over the listed names deletes each name other than CACHE_NAME in order; the new storage is the sweep of the old one over those names |
| ServiceWorker.Worker.HandleFetch | service-worker.js:30-69 | the handler answers with the decision's outcome, queues the decision's write if any, and does not change the cache storage |
| ServiceWorker.Worker.ApplyPendingWrite | service-worker.js:57-60 | the oldest queued write is removed from the queue and applied to the storage; with no write queued nothing changes |
| ServiceWorkerProperties.NonGetIgnored | service-worker.js:30-32 | a non-GET request falls through with no write, whatever the storage and the network hold |
| ServiceWorkerProperties.ExtensionIgnored | service-worker.js:34-37 | a chrome-extension:// request falls through with no write, whatever the storage and the network hold |
| ServiceWorkerProperties.EligibleAnswered | service-worker.js:39 | every GET request outside the extension scheme gets an answer from the worker |
| ServiceWorkerProperties.HitServesStored | service-worker.js:40-44 | on a hit the first holding cache's entry is returned, nothing is written, and the answer does not depend on the network |
| ServiceWorkerProperties.HitIsStored | service-worker.js:40-44 | a hit returns a response that some existing cache stores under the request's key, with no write (a corollary of Match's and Decide's contracts) |
| ServiceWorkerProperties.MissCachesBasic200 | service-worker.js:47-62 | on a miss a 200 "basic" response is returned as is with a write queued; after the write CACHE_NAME maps the key to it and the same request then hits it without the network |
| ServiceWorkerProperties.MissNullNotCached | service-worker.js:50-51 | on a miss a null network response is passed back and nothing is written |
| ServiceWorkerProperties.MissUncacheableNotCached | service-worker.js:50-51 | on a miss a response with status other than 200 or type other than "basic" is passed back unchanged and nothing is written |
| ServiceWorkerProperties.MissFailureNoResponse | service-worker.js:64-69 | on a miss with a network failure the handler resolves with undefined and nothing is written |
| ServiceWorker.SweepDeletesVisited | service-worker.js:15-20 | after visiting some names, the sweep has deleted exactly the visited caches other than CACHE_NAME and kept the rest in order |
| ServiceWorkerProperties.ActivateKeepsOnlyCurrent | service-worker.js:13-21 | after activation every cache name is CACHE_NAME, CACHE_NAME keeps its entries, and activation never creates it |
| ServiceWorkerProperties.ActivateIdempotent | service-worker.js:13-21 | activating twice gives the same storage as activating once |
| ServiceWorkerProperties.ActivateDropsOldVersion | service-worker.js:1-21 | with caches my-pwa-cache-v1 and old-cache-v0, only my-pwa-cache-v1 remains, with its entries |
| ServiceWorkerProperties.OnlyCurrentMatch | service-worker.js:40 | when only CACHE_NAME is left, match over all caches equals a lookup in CACHE_NAME alone |
| ServiceWorkerProperties.WritePreservesOnlyCurrent | service-worker.js:57-59 | the pending write adds no cache other than CACHE_NAME |
| ServiceWorkerProperties.AfterActivationLookupIsCurrent | service-worker.js:40 | after activation and any sequence of applied writes, the storage is valid, holds only CACHE_NAME, and match equals the lookup in CACHE_NAME |

## Left out

- Diagnostic `console.log` and `console.error` calls (lines 4, 11, 17, 35, 66): they have no effect on behaviour.
- The install handler's `self.skipWaiting()` (line 7) and the activate handler's `clients.claim()` (line 25): these are host lifecycle and client control, with no state in this model.
- `addEventListener`, `event.waitUntil`, `event.respondWith` and promise scheduling: each handler is a sequential step. The deferred write is a queued step.
- `response.clone()`: responses are immutable values, so the clone is the same value.
- The real `fetch`: the network is the parameter `net`.
- Cache API request matching (headers, `Vary`, query and fragment handling): a request is filed and matched under an abstract key, its URL.
- URL parsing: the extension test is the literal string prefix, as in `startsWith`.
- Failure of the deferred `caches.open`/`cache.put` (lines 57-59), for example a full quota: the source does not observe it; the model's write always succeeds.
- Rejection of `caches.match` (line 40) or `caches.keys()` (line 13): the source does not handle either (the `.catch` at lines 64-69 covers only `fetch`), so a rejected match would give the page a network error and a rejected keys would delete nothing; in the model both always succeed.
- Failure of an individual `caches.delete` during activation: the source does not inspect the results, and the model's deletions always succeed.
- Concurrent fetches racing on the same key: the queue in `Worker.pending` applies writes one at a time, last write wins. Interleavings with cache deletion by other parties are not modelled.
