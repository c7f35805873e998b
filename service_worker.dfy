/** The worker's own logic: the version tag, the interception filter, the
    cache-first retrieval decision, the garbage collection done on activation,
    and the worker object that drives the cache storage through those steps. */
module ServiceWorker {
  import opened CacheStorage

  /** The version tag: the one cache this version of the worker keeps. */
  const CACHE_NAME: string := "my-pwa-cache-v1"

  /** URL prefix of browser-extension resources, which are never intercepted. */
  const EXTENSION_PREFIX: string := "chrome-extension://"

  /** The parts of a request the worker inspects: its HTTP method (`verb`) and URL. */
  datatype Request = Request(verb: string, url: string)

  /** The key the cache files a request under. */
  function KeyOf(req: Request): RequestKey {
    req.url
  }

  /** What fetch(request) does: resolves with a response, resolves with a null
      (falsy) response, or rejects. */
  datatype NetOutcome = Ok(response: Response) | NullResponse | Failure

  /** What the fetch handler gives the browser. */
  datatype Outcome =
    | Fallthrough                  // respondWith is not called: default handling
    | Respond(response: Response)  // resolves with this response
    | RespondNull                  // resolves with the null response of the network
    | RespondUndefined             // resolves with undefined after a network failure

  /** A cache write that is started but not awaited: put `response` under `key`
      in the cache CACHE_NAME. */
  datatype Write = Write(key: RequestKey, response: Response)

  /** The handler's answer together with the write it leaves pending, if any. */
  datatype Decision = Decision(outcome: Outcome, write: Option<Write>)

  /** String.prototype.startsWith. */
  predicate StartsWith(s: string, prefix: string) {
    |prefix| <= |s| && s[..|prefix|] == prefix
  }

  /** The interception filter: only GET requests outside the extension scheme. */
  predicate Eligible(req: Request)
    ensures Eligible(req) <==>
              req.verb == "GET" &&
              (|req.url| < |EXTENSION_PREFIX| ||
               exists i :: 0 <= i < |EXTENSION_PREFIX| && req.url[i] != EXTENSION_PREFIX[i])
  {
    req.verb == "GET" && !StartsWith(req.url, EXTENSION_PREFIX)
  }

  /** The test a non-null network response must pass to be cached. */
  predicate Cacheable(r: Response)
    ensures r.status != 200 ==> !Cacheable(r)
    ensures r.responseType != "basic" ==> !Cacheable(r)
    ensures Cacheable(r) ==> r.responseType != "opaque" && r.responseType != "cors"
  {
    r.status == 200 && r.responseType == "basic"
  }

  /** The fetch handler, as a function of the storage it searches and of what
      the network answers when it is asked. */
  function Decide(s: Storage, req: Request, net: NetOutcome): (d: Decision)
    ensures d.outcome == Fallthrough <==> !Eligible(req)
    ensures d.outcome.Respond? ==>
              Match(s, KeyOf(req)) == Some(d.outcome.response) ||
              (Match(s, KeyOf(req)).None? && net == Ok(d.outcome.response))
    ensures d.outcome == RespondNull <==>
              Eligible(req) && Match(s, KeyOf(req)).None? && net == NullResponse
    ensures d.outcome == RespondUndefined <==>
              Eligible(req) && Match(s, KeyOf(req)).None? && net == Failure
    ensures d.write.Some? <==>
              Eligible(req) && Match(s, KeyOf(req)).None? && net.Ok? && Cacheable(net.response)
    ensures d.write.Some? ==>
              d.write.value == Write(KeyOf(req), net.response) && d.outcome == Respond(net.response)
  {
    if !Eligible(req) then Decision(Fallthrough, None)
    else
      match Match(s, KeyOf(req))
      case Some(cached) => Decision(Respond(cached), None)
      case None =>
        match net
        case Failure => Decision(RespondUndefined, None)
        case NullResponse => Decision(RespondNull, None)
        case Ok(r) =>
          if Cacheable(r) then Decision(Respond(r), Some(Write(KeyOf(req), r)))
          else Decision(Respond(r), None)
  }

  /** The pending write once it runs: open CACHE_NAME (creating it if need be)
      and put the entry. Only that cache and only that key change. */
  function ApplyWrite(s: Storage, w: Write): (r: Storage)
    ensures s.Valid() ==> r.Valid()
    ensures CACHE_NAME in r.stores && w.key in r.stores[CACHE_NAME]
    ensures r.stores[CACHE_NAME][w.key] == w.response
    ensures CACHE_NAME in s.stores ==> r.names == s.names
    ensures CACHE_NAME !in s.stores ==> r.names == s.names + [CACHE_NAME]
    ensures forall k :: k in r.stores[CACHE_NAME] <==>
              k == w.key || (CACHE_NAME in s.stores && k in s.stores[CACHE_NAME])
    ensures forall k :: CACHE_NAME in s.stores && k in s.stores[CACHE_NAME] && k != w.key ==>
              r.stores[CACHE_NAME][k] == s.stores[CACHE_NAME][k]
    ensures forall n :: n in r.stores <==> n in s.stores || n == CACHE_NAME
    ensures forall n :: n in s.stores && n != CACHE_NAME ==> r.stores[n] == s.stores[n]
  {
    PutEntry(OpenCache(s, CACHE_NAME), CACHE_NAME, w.key, w.response)
  }

  /** One iteration of the activation sweep: delete `name` unless it is the
      current cache. */
  function SweepStep(s: Storage, name: string): Storage {
    if name != CACHE_NAME then DeleteCache(s, name) else s
  }

  /** The activation sweep after visiting the names in `visit`, in order. */
  function Sweep(s: Storage, visit: seq<string>): Storage
    decreases |visit|
  {
    if visit == [] then s
    else SweepStep(Sweep(s, visit[..|visit| - 1]), visit[|visit| - 1])
  }

  /** Visiting one more name is one more sweep step. */
  lemma SweepOneMore(s: Storage, names: seq<string>, i: int)
    requires 0 <= i < |names|
    ensures Sweep(s, names[..i + 1]) == SweepStep(Sweep(s, names[..i]), names[i])
  {
    assert names[..i + 1][..i] == names[..i];
  }

  /** The caches activation deletes after visiting `visit`. */
  function Doomed(visit: seq<string>): (d: set<string>)
    ensures CACHE_NAME !in d
    ensures forall n :: n in d ==> n in visit
  {
    set n | n in visit && n != CACHE_NAME
  }

  lemma {:induction false} RetainDisjoint(ns: seq<string>, gone: set<string>)
    requires forall n :: n in ns ==> n !in gone
    ensures Retain(ns, gone) == ns
    decreases |ns|
  {
    if ns != [] {
      RetainDisjoint(ns[1..], gone);
      assert ns == [ns[0]] + ns[1..];
    }
  }

  lemma {:induction false} RetainTwice(ns: seq<string>, a: set<string>, b: set<string>)
    ensures Retain(Retain(ns, a), b) == Retain(ns, a + b)
    decreases |ns|
  {
    if ns != [] {
      RetainTwice(ns[1..], a, b);
      if ns[0] !in a {
        assert Retain(ns, a) == [ns[0]] + Retain(ns[1..], a);
        assert Retain(ns, a)[1..] == Retain(ns[1..], a);
      }
    }
  }

  /** Of distinct names, removing all but CACHE_NAME leaves CACHE_NAME alone,
      or nothing when it was absent. */
  lemma {:induction false} RetainCurrent(ns: seq<string>, gone: set<string>)
    requires Distinct(ns)
    requires forall n :: n in ns ==> (n in gone <==> n != CACHE_NAME)
    ensures Retain(ns, gone) == if CACHE_NAME in ns then [CACHE_NAME] else []
    decreases |ns|
  {
    if ns != [] {
      assert Distinct(ns[1..]) by {
        forall i, j | 0 <= i < j < |ns| - 1
          ensures ns[1..][i] != ns[1..][j]
        {
          assert ns[1..][i] == ns[i + 1] && ns[1..][j] == ns[j + 1];
        }
      }
      RetainCurrent(ns[1..], gone);
      if ns[0] == CACHE_NAME {
        assert CACHE_NAME !in ns[1..];
      } else {
        assert CACHE_NAME in ns <==> CACHE_NAME in ns[1..];
      }
    }
  }

  /** After visiting `visit` in order, the sweep has deleted exactly the
      visited caches other than CACHE_NAME, keeping the others in order. */
  lemma {:induction false} SweepDeletesVisited(s: Storage, visit: seq<string>)
    ensures Sweep(s, visit) == Storage(Retain(s.names, Doomed(visit)), s.stores - Doomed(visit))
    decreases |visit|
  {
    if visit == [] {
      assert Doomed(visit) == {};
      RetainDisjoint(s.names, {});
      assert s.stores - {} == s.stores;
    } else {
      var prefix, x := visit[..|visit| - 1], visit[|visit| - 1];
      SweepDeletesVisited(s, prefix);
      assert visit == prefix + [x];
      if x != CACHE_NAME {
        RetainTwice(s.names, Doomed(prefix), {x});
        assert Doomed(visit) == Doomed(prefix) + {x};
      } else {
        assert Doomed(visit) == Doomed(prefix);
      }
    }
  }

  /** Sweeping every listed name of a valid storage leaves CACHE_NAME alone,
      with its entries, or nothing when it did not exist. */
  lemma SweepAllNames(s: Storage)
    ensures s.Valid() ==>
              Sweep(s, s.names) == if CACHE_NAME in s.stores
                                   then Storage([CACHE_NAME], map[CACHE_NAME := s.stores[CACHE_NAME]])
                                   else Storage([], map[])
  {
    if s.Valid() {
      var gone := Doomed(s.names);
      SweepDeletesVisited(s, s.names);
      RetainCurrent(s.names, gone);
      StoresWithoutDoomed(s.stores, gone);
    }
  }

  /** Removing every cache but CACHE_NAME keeps CACHE_NAME alone, or nothing. */
  lemma StoresWithoutDoomed(stores: map<string, Store>, gone: set<string>)
    requires forall n :: n in stores ==> (n in gone <==> n != CACHE_NAME)
    ensures stores - gone == if CACHE_NAME in stores then map[CACHE_NAME := stores[CACHE_NAME]] else map[]
  {
    if CACHE_NAME in stores {
      assert (stores - gone).Keys == {CACHE_NAME};
    } else {
      assert (stores - gone).Keys == {};
    }
  }

  /** The storage once activation has swept every cache name it listed:
      exactly the cache CACHE_NAME with its entries, if it existed, and an
      empty storage otherwise. */
  function Activated(s: Storage): (r: Storage)
    ensures s.Valid() ==>
              r == if CACHE_NAME in s.stores
                   then Storage([CACHE_NAME], map[CACHE_NAME := s.stores[CACHE_NAME]])
                   else Storage([], map[])
  {
    SweepAllNames(s);
    Sweep(s, s.names)
  }

  /** The service worker instance. Its cache writes are queued in `pending`
      and applied later by ApplyPendingWrite, as the source does not await them. */
  class Worker {
    const caches: Caches
    var pending: seq<Write>

    constructor (caches: Caches)
      ensures this.caches == caches && pending == []
    {
      this.caches := caches;
      pending := [];
    }

    /** The activate handler: list the cache names and delete every cache
        whose name is not CACHE_NAME. */
    method Activate()
      requires caches.Valid()
      modifies caches
      ensures caches.Valid()
      ensures caches.Value() == Activated(old(caches.Value()))
    {
      var cacheNames := caches.Keys();
      DeleteStale(cacheNames);
    }

    /** The callback given the listed names: walks them in order and deletes
        each one that is not CACHE_NAME. */
    method DeleteStale(cacheNames: seq<string>)
      requires caches.Valid()
      modifies caches
      ensures caches.Valid()
      ensures caches.Value() == Sweep(old(caches.Value()), cacheNames)
    {
      ghost var initial := caches.Value();
      var i := 0;
      while i < |cacheNames|
        invariant 0 <= i <= |cacheNames|
        invariant caches.Valid()
        invariant caches.Value() == Sweep(initial, cacheNames[..i])
      {
        ghost var before := caches.Value();
        var name := cacheNames[i];
        if name != CACHE_NAME {
          var _ := caches.Delete(name);
        }
        assert caches.Value() == SweepStep(before, name);
        SweepOneMore(initial, cacheNames, i);
        assert caches.Value() == Sweep(initial, cacheNames[..i + 1]);
        i := i + 1;
      }
      assert cacheNames[..i] == cacheNames;
    }

    /** The fetch handler: filter, look up in every cache, fall back to the
        network, and queue a write of a cacheable network response. The cache
        storage itself is not changed here. */
    method HandleFetch(req: Request, net: NetOutcome) returns (outcome: Outcome)
      modifies this`pending
      ensures unchanged(caches)
      ensures var d := Decide(caches.Value(), req, net);
              outcome == d.outcome &&
              pending == old(pending) + (if d.write.Some? then [d.write.value] else [])
    {
      if req.verb != "GET" {
        return Fallthrough;
      }
      if StartsWith(req.url, EXTENSION_PREFIX) {
        return Fallthrough;
      }
      var cached := Match(caches.Value(), KeyOf(req));
      if cached.Some? {
        return Respond(cached.value);
      }
      match net {
        case Failure =>
          outcome := RespondUndefined;
        case NullResponse =>
          outcome := RespondNull;
        case Ok(response) =>
          if response.status != 200 || response.responseType != "basic" {
            return Respond(response);
          }
          pending := pending + [Write(KeyOf(req), response)];
          outcome := Respond(response);
      }
    }

    /** Runs the oldest pending cache write, if there is one. */
    method ApplyPendingWrite() returns (applied: bool)
      requires caches.Valid()
      modifies this`pending, caches
      ensures caches.Valid()
      ensures applied <==> old(pending) != []
      ensures !applied ==> pending == old(pending) && caches.Value() == old(caches.Value())
      ensures applied ==> pending == old(pending)[1..] &&
                          caches.Value() == ApplyWrite(old(caches.Value()), old(pending)[0])
    {
      if pending == [] {
        return false;
      }
      var w := pending[0];
      pending := pending[1..];
      caches.Open(CACHE_NAME);
      caches.Put(CACHE_NAME, w.key, w.response);
      applied := true;
    }
  }
}
