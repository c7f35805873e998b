/** What the worker guarantees: the filter, the three branches of cache-first
    retrieval, the frame of the deferred cache write, and the garbage
    collection done on activation. */
module ServiceWorkerProperties {
  import opened CacheStorage
  import opened ServiceWorker

  /** Only CACHE_NAME is left in the storage. */
  ghost predicate OnlyCurrent(s: Storage) {
    forall n :: n in s.stores ==> n == CACHE_NAME
  }

  /** A lookup in the cache CACHE_NAME alone. */
  function CurrentLookup(s: Storage, key: RequestKey): Option<Response> {
    if CACHE_NAME in s.stores && key in s.stores[CACHE_NAME] then Some(s.stores[CACHE_NAME][key]) else None
  }

  // ---------------------------------------------------------------------------
  // The interception filter

  /** A request whose method is not GET falls through whatever the storage and
      the network hold: nothing is read, nothing is written. */
  lemma NonGetIgnored(req: Request, s: Storage, net: NetOutcome)
    requires req.verb != "GET"
    ensures Decide(s, req, net) == Decision(Fallthrough, None)
  {
  }

  /** A chrome-extension:// request falls through whatever the storage and the
      network hold. */
  lemma ExtensionIgnored(req: Request, s: Storage, net: NetOutcome)
    requires StartsWith(req.url, EXTENSION_PREFIX)
    ensures Decide(s, req, net) == Decision(Fallthrough, None)
  {
  }

  /** Every GET request outside the extension scheme is answered by the worker. */
  lemma EligibleAnswered(req: Request, s: Storage, net: NetOutcome)
    requires req.verb == "GET" && !StartsWith(req.url, EXTENSION_PREFIX)
    ensures Decide(s, req, net).outcome != Fallthrough
  {
  }

  // ---------------------------------------------------------------------------
  // Cache hit

  /** When some cache holds the request, the entry of the first such cache in
      creation order is returned, nothing is written, and the answer is the
      same whatever the network would have said: it is not asked. */
  lemma {:induction false} HitServesStored(s: Storage, req: Request, net: NetOutcome, other: NetOutcome, i: int)
    requires Eligible(req)
    requires FirstHolder(s.names, s.stores, KeyOf(req), i)
    ensures Decide(s, req, net) == Decision(Respond(s.stores[s.names[i]][KeyOf(req)]), None)
    ensures Decide(s, req, net) == Decide(s, req, other)
  {
    FirstHitAt(s.names, s.stores, KeyOf(req), i);
  }

  /** A hit answers with a response that some cache stores under the request's
      key, and leaves no write behind: a corollary of Match's contract and
      Decide's, stated without the first-holder index. */
  lemma {:induction false} HitIsStored(s: Storage, req: Request, net: NetOutcome)
    requires Eligible(req) && Match(s, KeyOf(req)).Some?
    ensures exists n :: n in s.names && n in s.stores && KeyOf(req) in s.stores[n] &&
                        Decide(s, req, net) == Decision(Respond(s.stores[n][KeyOf(req)]), None)
  {
    FirstHitSome(s.names, s.stores, KeyOf(req));
    var i :| FirstHolder(s.names, s.stores, KeyOf(req), i) &&
             Match(s, KeyOf(req)).value == s.stores[s.names[i]][KeyOf(req)];
    assert s.names[i] in s.names;
  }

  // ---------------------------------------------------------------------------
  // Cache miss

  /** On a miss, a 200 "basic" network response is returned as it is and a
      write of that response under the request's key is left pending. Once the
      write is applied, CACHE_NAME maps the key to the response, and asking
      again is a hit on that response, whatever the network would now say. */
  lemma {:induction false} MissCachesBasic200(s: Storage, req: Request, r: Response, later: NetOutcome)
    requires s.Valid()
    requires Eligible(req) && Match(s, KeyOf(req)).None?
    requires r.status == 200 && r.responseType == "basic"
    ensures Decide(s, req, Ok(r)) == Decision(Respond(r), Some(Write(KeyOf(req), r)))
    ensures var s' := ApplyWrite(s, Write(KeyOf(req), r));
            s'.stores[CACHE_NAME][KeyOf(req)] == r &&
            Match(s', KeyOf(req)) == Some(r) &&
            Decide(s', req, later) == Decision(Respond(r), None)
  {
    var key := KeyOf(req);
    var s' := ApplyWrite(s, Write(key, r));
    FirstHitNone(s.names, s.stores, key);
    // CACHE_NAME is the only cache of s' holding the key
    assert CACHE_NAME in s'.names;
    var c :| 0 <= c < |s'.names| && s'.names[c] == CACHE_NAME;
    assert FirstHolder(s'.names, s'.stores, key, c) by {
      forall j | 0 <= j < c
        ensures !Holds(s'.stores, s'.names[j], key)
      {
        assert s'.names[j] != CACHE_NAME;
        if CACHE_NAME in s.stores {
          assert s'.names[j] == s.names[j];
        } else {
          assert j < |s.names| && s'.names[j] == s.names[j];
        }
      }
    }
    FirstHitAt(s'.names, s'.stores, key, c);
  }

  /** On a miss, a null response is handed back and nothing is written. */
  lemma MissNullNotCached(s: Storage, req: Request)
    requires Eligible(req) && Match(s, KeyOf(req)).None?
    ensures Decide(s, req, NullResponse) == Decision(RespondNull, None)
  {
  }

  /** On a miss, a response whose status is not exactly 200 or whose type is
      not exactly "basic" is handed back unchanged and nothing is written. */
  lemma MissUncacheableNotCached(s: Storage, req: Request, r: Response)
    requires Eligible(req) && Match(s, KeyOf(req)).None?
    requires r.status != 200 || r.responseType != "basic"
    ensures Decide(s, req, Ok(r)) == Decision(Respond(r), None)
  {
  }

  /** On a miss where the network fails, the handler resolves with undefined
      and nothing is written. */
  lemma MissFailureNoResponse(s: Storage, req: Request)
    requires Eligible(req) && Match(s, KeyOf(req)).None?
    ensures Decide(s, req, Failure) == Decision(RespondUndefined, None)
  {
  }

  // ---------------------------------------------------------------------------
  // Activation

  /** After activation every remaining cache is CACHE_NAME; its entries are
      those it had before; activation never creates it. */
  lemma ActivateKeepsOnlyCurrent(s: Storage)
    requires s.Valid()
    ensures Activated(s).Valid()
    ensures OnlyCurrent(Activated(s))
    ensures forall n :: n in Activated(s).names ==> n == CACHE_NAME
    ensures CACHE_NAME in Activated(s).stores <==> CACHE_NAME in s.stores
    ensures CACHE_NAME in s.stores ==> Activated(s).stores[CACHE_NAME] == s.stores[CACHE_NAME]
  {
  }

  /** Activating twice is activating once. */
  lemma ActivateIdempotent(s: Storage)
    requires s.Valid()
    ensures Activated(Activated(s)) == Activated(s)
  {
    ActivateKeepsOnlyCurrent(s);
  }

  /** With the version tag my-pwa-cache-v1 and the caches my-pwa-cache-v1 and
      old-cache-v0, only my-pwa-cache-v1 remains after activation. */
  lemma ActivateDropsOldVersion(current: Store, stale: Store)
    ensures var s := Storage(["my-pwa-cache-v1", "old-cache-v0"],
                             map["my-pwa-cache-v1" := current, "old-cache-v0" := stale]);
            Activated(s) == Storage(["my-pwa-cache-v1"], map["my-pwa-cache-v1" := current])
  {
    var s := Storage(["my-pwa-cache-v1", "old-cache-v0"],
                     map["my-pwa-cache-v1" := current, "old-cache-v0" := stale]);
    assert s.Valid();
  }

  // ---------------------------------------------------------------------------
  // The lookup once only CACHE_NAME is left

  /** match searches every cache, but when only CACHE_NAME is left it agrees
      with a lookup in CACHE_NAME alone. */
  lemma OnlyCurrentMatch(s: Storage, key: RequestKey)
    requires s.Valid() && OnlyCurrent(s)
    ensures Match(s, key) == CurrentLookup(s, key)
  {
    // distinct names that all equal CACHE_NAME: at most one of them
    RetainDisjoint(s.names, {});
    RetainCurrent(s.names, {});
    if s.names != [] {
      assert FirstHit(s.names[1..], s.stores, key) == None;
    }
  }

  /** The pending write keeps a storage reduced to CACHE_NAME so reduced. */
  lemma WritePreservesOnlyCurrent(s: Storage, w: Write)
    requires OnlyCurrent(s)
    ensures OnlyCurrent(ApplyWrite(s, w))
  {
  }

  /** From activation on, through any number of applied writes, the lookup in
      all caches is the lookup in CACHE_NAME. */
  lemma {:induction false} AfterActivationLookupIsCurrent(s: Storage, writes: seq<Write>, key: RequestKey)
    requires s.Valid()
    ensures var t := ApplyWrites(Activated(s), writes);
            t.Valid() && OnlyCurrent(t) && Match(t, key) == CurrentLookup(t, key)
    decreases |writes|
  {
    if writes == [] {
      ActivateKeepsOnlyCurrent(s);
    } else {
      AfterActivationLookupIsCurrent(s, writes[..|writes| - 1], key);
    }
    OnlyCurrentMatch(ApplyWrites(Activated(s), writes), key);
  }

  /** The writes applied in order. */
  function ApplyWrites(s: Storage, writes: seq<Write>): Storage
    decreases |writes|
  {
    if writes == [] then s
    else ApplyWrite(ApplyWrites(s, writes[..|writes| - 1]), writes[|writes| - 1])
  }
}
