/** The browser's cache storage as the worker sees it: an ordered collection of
    named caches, each mapping a request key to a stored response. The
    operations are the four the worker uses: keys, delete, open and put, and
    match over the whole storage. */
module CacheStorage {

  datatype Option<T> = None | Some(value: T)

  /** A response snapshot: its status code, its Fetch type classification
      ("basic", "cors", "opaque", ...) and an identifier standing for the body.
      Responses are immutable values, so a clone is the same value. */
  datatype Response = Response(status: int, responseType: string, body: nat)

  /** Requests are matched by an abstract key (for a GET request, its URL). */
  type RequestKey = string

  /** One named cache. */
  type Store = map<RequestKey, Response>

  predicate Distinct(ns: seq<string>) {
    forall i, j :: 0 <= i < j < |ns| ==> ns[i] != ns[j]
  }

  /** The whole storage: `names` lists the caches in creation order (the order
      in which keys() reports them and match() searches them), `stores` gives
      each cache's entries. */
  datatype Storage = Storage(names: seq<string>, stores: map<string, Store>) {

    /** Every cache is listed exactly once. */
    ghost predicate Valid() {
      Distinct(names) && (forall n :: n in names <==> n in stores)
    }
  }

  /** True when the cache called `name` exists and holds an entry for `key`. */
  predicate Holds(stores: map<string, Store>, name: string, key: RequestKey) {
    name in stores && key in stores[name]
  }

  /** Index `i` is the first cache, in `names` order, holding an entry for `key`. */
  ghost predicate FirstHolder(names: seq<string>, stores: map<string, Store>, key: RequestKey, i: int) {
    0 <= i < |names| && Holds(stores, names[i], key) &&
    forall j :: 0 <= j < i ==> !Holds(stores, names[j], key)
  }

  /** Searches the caches in order and answers with the first entry found. */
  function FirstHit(names: seq<string>, stores: map<string, Store>, key: RequestKey): (r: Option<Response>)
    ensures r.None? <==> forall n :: n in names ==> !Holds(stores, n, key)
    ensures r.Some? ==> exists n :: n in names && Holds(stores, n, key) && r.value == stores[n][key]
    decreases |names|
  {
    if names == [] then None
    else if Holds(stores, names[0], key) then Some(stores[names[0]][key])
    else FirstHit(names[1..], stores, key)
  }

  /** caches.match: the stored response of the first cache holding the key. */
  function Match(s: Storage, key: RequestKey): (r: Option<Response>)
    ensures r.None? <==> forall n :: n in s.names ==> !Holds(s.stores, n, key)
    ensures r.Some? ==> exists i :: FirstHolder(s.names, s.stores, key, i) &&
                                    r.value == s.stores[s.names[i]][key]
  {
    var r := FirstHit(s.names, s.stores, key);
    if r.Some? then FirstHitSome(s.names, s.stores, key); r else r
  }

  /** `sub` can be obtained from `ns` by dropping elements, order kept. */
  ghost predicate IsSubsequence(sub: seq<string>, ns: seq<string>)
    decreases |ns|
  {
    if sub == [] then true
    else if ns == [] then false
    else if sub[0] == ns[0] then IsSubsequence(sub[1..], ns[1..])
    else IsSubsequence(sub, ns[1..])
  }

  /** `ns` without the names in `gone`, order kept. */
  function Retain(ns: seq<string>, gone: set<string>): (r: seq<string>)
    ensures forall n :: n in r <==> n in ns && n !in gone
    ensures Distinct(ns) ==> Distinct(r)
    ensures IsSubsequence(r, ns)
    decreases |ns|
  {
    if ns == [] then []
    else
      var rest := Retain(ns[1..], gone);
      assert Distinct(ns) ==> ns[0] !in ns[1..];
      if ns[0] in gone then rest else [ns[0]] + rest
  }

  /** caches.delete(name): the cache and its entries are gone, every other
      cache is unchanged and keeps its place in the order. */
  function DeleteCache(s: Storage, name: string): (r: Storage)
    ensures s.Valid() ==> r.Valid()
    ensures name !in r.stores && name !in r.names
    ensures r.names == Retain(s.names, {name})
    ensures forall n :: n in r.stores <==> n in s.stores && n != name
    ensures forall n :: n in r.stores ==> r.stores[n] == s.stores[n]
  {
    Storage(Retain(s.names, {name}), s.stores - {name})
  }

  /** caches.open(name): an existing cache is left as it is; a missing one is
      created empty and placed last in the order. */
  function OpenCache(s: Storage, name: string): (r: Storage)
    ensures s.Valid() ==> r.Valid()
    ensures name in r.stores
    ensures name in s.stores ==> r == s
    ensures name !in s.stores ==> r.names == s.names + [name] && r.stores[name] == map[]
    ensures forall n :: n in s.stores ==> n in r.stores && r.stores[n] == s.stores[n]
    ensures forall n :: n in r.stores ==> n in s.stores || n == name
  {
    if name in s.stores then s else Storage(s.names + [name], s.stores[name := map[]])
  }

  /** cache.put(key, response) on the open cache `name`: that cache now maps
      `key` to `response`; its other entries and all other caches are kept. */
  function PutEntry(s: Storage, name: string, key: RequestKey, response: Response): (r: Storage)
    requires name in s.stores
    ensures s.Valid() ==> r.Valid()
    ensures r.names == s.names && r.stores.Keys == s.stores.Keys
    ensures name in r.stores && key in r.stores[name] && r.stores[name][key] == response
    ensures forall k :: k in r.stores[name] <==> k in s.stores[name] || k == key
    ensures forall k :: k in s.stores[name] && k != key ==> r.stores[name][k] == s.stores[name][k]
    ensures forall n :: n in s.stores && n != name ==> r.stores[n] == s.stores[n]
  {
    Storage(s.names, s.stores[name := s.stores[name][key := response]])
  }

  /** The platform object that owns the cache storage; the worker changes it
      only through these methods. */
  class Caches {
    var names: seq<string>
    var stores: map<string, Store>

    function Value(): Storage
      reads this
    {
      Storage(names, stores)
    }

    ghost predicate Valid()
      reads this
    {
      Value().Valid()
    }

    constructor (initial: Storage)
      requires initial.Valid()
      ensures Valid() && Value() == initial
    {
      names := initial.names;
      stores := initial.stores;
    }

    /** caches.keys(): the cache names in creation order. */
    method Keys() returns (ns: seq<string>)
      requires Valid()
      ensures ns == names
      ensures Distinct(ns) && forall n :: n in ns <==> n in stores
    {
      ns := names;
    }

    /** caches.delete(name); `found` says whether such a cache existed. */
    method Delete(name: string) returns (found: bool)
      requires Valid()
      modifies this
      ensures Valid()
      ensures found <==> name in old(stores)
      ensures Value() == DeleteCache(old(Value()), name)
    {
      found := name in stores;
      names := Retain(names, {name});
      stores := stores - {name};
    }

    /** caches.open(name), creating the cache when it does not exist. */
    method Open(name: string)
      requires Valid()
      modifies this
      ensures Valid()
      ensures Value() == OpenCache(old(Value()), name)
    {
      if name !in stores {
        names := names + [name];
        stores := stores[name := map[]];
      }
    }

    /** cache.put(key, response) on the open cache `name`. */
    method Put(name: string, key: RequestKey, response: Response)
      requires Valid() && name in stores
      modifies this
      ensures Valid()
      ensures Value() == PutEntry(old(Value()), name, key, response)
    {
      stores := stores[name := stores[name][key := response]];
    }
  }

  /** When no cache holds the key, match finds nothing, and conversely: the
      first clause of FirstHit's contract, restated over indices for the
      proofs that reason about positions. */
  lemma {:induction false} FirstHitNone(names: seq<string>, stores: map<string, Store>, key: RequestKey)
    ensures FirstHit(names, stores, key).None? <==>
            forall i :: 0 <= i < |names| ==> !Holds(stores, names[i], key)
    decreases |names|
  {
    if names != [] {
      FirstHitNone(names[1..], stores, key);
      assert forall i :: 1 <= i < |names| ==> names[i] == names[1..][i - 1];
    }
  }

  /** Match answers with the entry of the first cache, in order, that holds the key. */
  lemma {:induction false} FirstHitAt(names: seq<string>, stores: map<string, Store>, key: RequestKey, i: int)
    requires FirstHolder(names, stores, key, i)
    ensures FirstHit(names, stores, key) == Some(stores[names[i]][key])
    decreases |names|
  {
    if i > 0 {
      assert !Holds(stores, names[0], key);
      assert FirstHolder(names[1..], stores, key, i - 1) by {
        forall j | 0 <= j < i - 1
          ensures !Holds(stores, names[1..][j], key)
        {
          assert names[1..][j] == names[j + 1];
        }
      }
      FirstHitAt(names[1..], stores, key, i - 1);
    }
  }

  /** Whatever match returns is the entry of the first cache holding the key. */
  lemma {:induction false} FirstHitSome(names: seq<string>, stores: map<string, Store>, key: RequestKey)
    requires FirstHit(names, stores, key).Some?
    ensures exists i :: FirstHolder(names, stores, key, i) &&
                        FirstHit(names, stores, key).value == stores[names[i]][key]
    decreases |names|
  {
    if Holds(stores, names[0], key) {
      assert FirstHolder(names, stores, key, 0);
    } else {
      FirstHitSome(names[1..], stores, key);
      var i :| FirstHolder(names[1..], stores, key, i) &&
               FirstHit(names[1..], stores, key).value == stores[names[1..][i]][key];
      assert FirstHolder(names, stores, key, i + 1) by {
        forall j | 0 <= j < i + 1
          ensures !Holds(stores, names[j], key)
        {
          if j > 0 { assert names[j] == names[1..][j - 1]; }
        }
      }
    }
  }
}
