/**
  The offline cache manager of the QR generator's service worker: the asset
  manifest, and the install, activate and fetch handlers as operations on the
  CacheStorage. Each handler is specified by a function on store values
  (`Installed`, `Activated`, `Resolve`); the `Worker` methods update the storage
  in place and are proved to agree with those functions, and the lemmas below
  state what the handlers promise.
*/
module ServiceWorker {
  import opened Options
  import opened CacheStore

  /** The one cache generation this version of the worker owns. */
  const CACHE_NAME: string := "qr-generator-v1"

  /** The assets cached at install time, in order. */
  const URLS_TO_CACHE: seq<Key> := [
    "./",
    "./index.html",
    "./style.css",
    "./qr-generator.js",
    "./qrcode.min.js",
    "./manifest.json",
    "./icon.jpg"
  ]

  /** What a failed document request falls back to. */
  const OFFLINE_PAGE: Key := "./index.html"

  /** An intercepted request: its key and its destination ("document", "script", "image", ...). */
  datatype Request = Request(url: Key, destination: string)

  /** What the fetch handler settles with: a response (or none), or a rejection. */
  datatype FetchResult = Served(response: Option<Response>) | Rejected(reason: string)

  /** A resolved request: what the page receives, the store afterwards, and whether the network was asked. */
  datatype Resolution = Resolution(result: FetchResult, store: Store, networkUsed: bool)

  // ---------------------------------------------------------------- install

  /** Whether install's `addAll` of the manifest succeeds for this network. */
  predicate InstallSucceeds(net: Key -> NetOutcome) {
    AddAllBatch(URLS_TO_CACHE, net).Some?
  }

  /**
    The store after install: the current cache is opened (created if absent)
    whatever happens, then the manifest batch is added when it succeeds.
  */
  function Installed(s: Store, net: Key -> NetOutcome): (r: Store)
    requires s.Valid()
    ensures r.Valid()
  {
    var withCurrent := Opened(s, CACHE_NAME);
    match AddAllBatch(URLS_TO_CACHE, net)
    case None => withCurrent
    case Some(batch) => PutBatch(withCurrent, CACHE_NAME, batch)
  }

  /** The manifest names no asset twice, so `addAll` does not reject it as a duplicate batch. */
  lemma ManifestDistinct()
    ensures Distinct(URLS_TO_CACHE)
  {
  }

  /** Install succeeds exactly when every manifest asset is fetched and accepted. */
  lemma InstallSucceedsIff(net: Key -> NetOutcome)
    ensures InstallSucceeds(net) <==> forall u :: u in URLS_TO_CACHE ==> AddAllAccepts(net(u))
  {
    ManifestDistinct();
    if forall u :: u in URLS_TO_CACHE ==> AddAllAccepts(net(u)) {
      assert forall i :: 0 <= i < |URLS_TO_CACHE| ==> AddAllAccepts(net(URLS_TO_CACHE[i]));
    }
  }

  /**
    A successful install leaves every manifest asset in the current cache, holding
    the response fetched for it; other entries of that cache and all other caches
    are kept.
  */
  lemma InstallStoresManifest(s: Store, net: Key -> NetOutcome)
    requires s.Valid() && InstallSucceeds(net)
    ensures var r := Installed(s, net);
      && CACHE_NAME in r.caches
      && (forall u :: u in URLS_TO_CACHE ==> u in r.caches[CACHE_NAME] && r.caches[CACHE_NAME][u] == net(u).response.value)
      && (forall k :: k in r.caches[CACHE_NAME] <==> k in URLS_TO_CACHE || (CACHE_NAME in s.caches && k in s.caches[CACHE_NAME]))
      && (CACHE_NAME in s.caches ==>
            forall k :: k in s.caches[CACHE_NAME] && k !in URLS_TO_CACHE ==> r.caches[CACHE_NAME][k] == s.caches[CACHE_NAME][k])
      && (forall n :: n in s.caches && n != CACHE_NAME ==> n in r.caches && r.caches[n] == s.caches[n])
      && r.caches.Keys == s.caches.Keys + {CACHE_NAME}
  {
    var withCurrent := Opened(s, CACHE_NAME);
    var batch := AddAllBatch(URLS_TO_CACHE, net).value;
    assert Installed(s, net) == PutBatch(withCurrent, CACHE_NAME, batch);
  }

  /**
    A failed install adds no manifest entry: the only change is that the current
    cache now exists (empty if it did not exist before).
  */
  lemma InstallFailureAddsNothing(s: Store, net: Key -> NetOutcome)
    requires s.Valid() && !InstallSucceeds(net)
    ensures var r := Installed(s, net);
      && r == Opened(s, CACHE_NAME)
      && (forall n :: n in s.caches ==> n in r.caches && r.caches[n] == s.caches[n])
      && r.caches.Keys == s.caches.Keys + {CACHE_NAME}
      && (CACHE_NAME !in s.caches ==> r.caches[CACHE_NAME] == map[])
  {
  }

  // ---------------------------------------------------------------- activate

  /** The store after activate: the current cache alone, with its entries as they were. */
  function Activated(s: Store): (r: Store)
    requires s.Valid()
    ensures r.Valid()
  {
    if CACHE_NAME in s.caches then
      DistinctSingle(CACHE_NAME);
      Store([CACHE_NAME], map[CACHE_NAME := s.caches[CACHE_NAME]])
    else EmptyStore
  }

  /** After activate no cache other than the current one remains, and its entries are untouched. */
  lemma ActivateKeepsOnlyCurrent(s: Store)
    requires s.Valid()
    ensures var r := Activated(s);
      && (forall n :: n in r.caches <==> n == CACHE_NAME && n in s.caches)
      && (CACHE_NAME in s.caches ==> r.caches[CACHE_NAME] == s.caches[CACHE_NAME])
  {
  }

  /** Activating twice is activating once. */
  lemma ActivateIdempotent(s: Store)
    requires s.Valid()
    ensures Activated(Activated(s)) == Activated(s)
  {
  }

  /** Install followed by activate leaves exactly one generation, the current one. */
  lemma InstallThenActivateLeavesOneGeneration(s: Store, net: Key -> NetOutcome)
    requires s.Valid()
    ensures Activated(Installed(s, net)).names == [CACHE_NAME]
    ensures InstallSucceeds(net) ==> forall u :: u in URLS_TO_CACHE ==> Match(Activated(Installed(s, net)), u).Some?
  {
    if InstallSucceeds(net) {
      InstallStoresManifest(s, net);
      var r := Activated(Installed(s, net));
      forall u | u in URLS_TO_CACHE ensures Match(r, u).Some? {
        assert CACHE_NAME in r.caches && u in r.caches[CACHE_NAME];
      }
    }
  }

  /**
    The store after the activate handler has visited the names `visited`, in
    order: each one other than the current cache is deleted.
  */
  function DeleteStale(s: Store, visited: seq<string>): (r: Store)
    requires s.Valid()
    ensures r.Valid()
    decreases |visited|
  {
    if visited == [] then s
    else
      var before := DeleteStale(s, visited[..|visited| - 1]);
      var name := visited[|visited| - 1];
      if name == CACHE_NAME then before else Deleted(before, name)
  }

  /** Visiting names keeps exactly the caches that are current or not yet visited, with their entries. */
  lemma {:induction false} DeleteStaleKeeps(s: Store, visited: seq<string>)
    requires s.Valid()
    ensures var r := DeleteStale(s, visited);
      && (forall n :: n in r.caches <==> n in s.caches && (n == CACHE_NAME || n !in visited))
      && (forall n :: n in r.caches ==> r.caches[n] == s.caches[n])
    decreases |visited|
  {
    if visited != [] {
      var front := visited[..|visited| - 1];
      DeleteStaleKeeps(s, front);
      assert visited == front + [visited[|visited| - 1]];
    }
  }

  /** A list without repeats whose only member is `name` is `[name]`. */
  lemma DistinctOnly(names: seq<string>, name: string)
    requires Distinct(names) && name in names
    requires forall n :: n in names ==> n == name
    ensures names == [name]
  {
    assert names[0] in names;
    var tail := names[1..];
    HeadIn(tail);
    assert forall n :: n in tail ==> n in names;
    assert tail == [];
    assert names == [names[0]] + tail;
  }

  /** The first element of a non-empty list is one of its members. */
  lemma HeadIn(names: seq<string>)
    ensures names != [] ==> names[0] in names
  {
  }

  /** A valid store that holds the current cache alone, with the entries `s` gave it, is `Activated(s)`. */
  lemma OnlyCurrentIsActivated(s: Store, r: Store)
    requires s.Valid() && r.Valid()
    requires forall n :: n in r.caches <==> n in s.caches && n == CACHE_NAME
    requires forall n :: n in r.caches ==> r.caches[n] == s.caches[n]
    ensures r == Activated(s)
  {
    if CACHE_NAME in s.caches {
      assert r.caches == map[CACHE_NAME := s.caches[CACHE_NAME]];
      DistinctOnly(r.names, CACHE_NAME);
    } else {
      assert r.caches == map[];
      HeadIn(r.names);
    }
  }

  /** Visiting every name of the store, as activate does, leaves the activated store. */
  lemma DeleteStaleAll(s: Store)
    requires s.Valid()
    ensures DeleteStale(s, s.names) == Activated(s)
  {
    DeleteStaleKeeps(s, s.names);
    OnlyCurrentIsActivated(s, DeleteStale(s, s.names));
  }

  // ---------------------------------------------------------------- fetch

  /** Whether a network response is written back: present, status 200 and of type "basic". */
  predicate Cacheable(response: Option<Response>) {
    response.Some? && response.value.status == 200 && response.value.rtype == Basic
  }

  /** What a request settles with when the network fails. */
  function OfflineResult(s: Store, req: Request, reason: string): (r: FetchResult)
    requires s.Valid()
    ensures req.destination == "document" <==> r.Served?
    ensures r.Rejected? ==> r.reason == reason
  {
    if req.destination == "document" then Served(Match(s, OFFLINE_PAGE)) else Rejected(reason)
  }

  /** The cache-first policy for one request; the write-back is done before the result is returned. */
  function Resolve(s: Store, req: Request, net: NetOutcome): (r: Resolution)
    requires s.Valid()
    ensures r.store.Valid()
  {
    match Match(s, req.url)
    case Some(hit) => Resolution(Served(Some(hit)), s, false)
    case None =>
      match net
      case Ok(response) =>
        if Cacheable(response) then
          Resolution(Served(response), PutEntry(Opened(s, CACHE_NAME), CACHE_NAME, req.url, response.value), true)
        else
          Resolution(Served(response), s, true)
      case Failure(reason) => Resolution(OfflineResult(s, req, reason), s, true)
  }

  /** A request stored in any cache is served from that cache; the network is not asked and nothing changes. */
  lemma CacheHitSkipsNetwork(s: Store, req: Request, net: NetOutcome, n: string)
    requires s.Valid() && n in s.caches && req.url in s.caches[n]
    ensures var r := Resolve(s, req, net);
      && !r.networkUsed && r.store == s
      && r.result.Served? && r.result.response.Some?
      && exists m :: m in s.caches && req.url in s.caches[m] && r.result.response.value == s.caches[m][req.url]
  {
  }

  /**
    On a miss, a cacheable response is returned as it is and stored in the current
    cache under the request's key, replacing any earlier entry; no other entry and
    no other cache changes.
  */
  lemma CacheableMissWritesBack(s: Store, req: Request, response: Response)
    requires s.Valid() && Match(s, req.url).None? && Cacheable(Some(response))
    ensures var r := Resolve(s, req, Ok(Some(response)));
      && r.networkUsed && r.result == Served(Some(response))
      && CACHE_NAME in r.store.caches
      && r.store.caches[CACHE_NAME] == (if CACHE_NAME in s.caches then s.caches[CACHE_NAME] else map[])[req.url := response]
      && (forall n :: n in r.store.caches <==> n in s.caches || n == CACHE_NAME)
      && (forall n :: n in s.caches && n != CACHE_NAME ==> r.store.caches[n] == s.caches[n])
  {
  }

  /** On a miss, a response that is absent, not 200 or not "basic" is returned unchanged and nothing is stored. */
  lemma UncacheableMissPassesThrough(s: Store, req: Request, response: Option<Response>)
    requires s.Valid() && Match(s, req.url).None? && !Cacheable(response)
    ensures var r := Resolve(s, req, Ok(response));
      r.networkUsed && r.result == Served(response) && r.store == s
  {
  }

  /**
    On a miss whose fetch fails, a document request gets the stored offline page
    (or nothing, if no cache holds it); any other request is rejected with the
    same reason. The store is unchanged.
  */
  lemma NetworkFailureFallback(s: Store, req: Request, reason: string)
    requires s.Valid() && Match(s, req.url).None?
    ensures var r := Resolve(s, req, Failure(reason));
      && r.networkUsed && r.store == s
      && (req.destination == "document" ==> r.result == Served(Match(s, OFFLINE_PAGE)))
      && (req.destination != "document" ==> r.result == Rejected(reason))
  {
  }

  /**
    Write-back then hit: after a request was written back, the same request is
    served the same response from the cache, whatever the network would do, and
    the store is not changed again.
  */
  lemma WrittenBackIsServedFromCache(s: Store, req: Request, response: Response, later: NetOutcome)
    requires s.Valid() && Match(s, req.url).None? && Cacheable(Some(response))
    ensures var first := Resolve(s, req, Ok(Some(response)));
      && Resolve(first.store, req, later) == Resolution(Served(Some(response)), first.store, false)
  {
    var first := Resolve(s, req, Ok(Some(response)));
    var t := first.store;
    forall n | n in t.caches && req.url in t.caches[n] ensures n == CACHE_NAME {
    }
    assert Match(t, req.url) == Some(response);
  }

  // ---------------------------------------------------------------- the worker

  /** The service worker: the CacheStorage it shares with its successors, and its skip-waiting request. */
  class Worker {
    const storage: CacheStorage
    var skipWaiting: bool

    ghost predicate Valid()
      reads this, storage
    {
      storage.Valid()
    }

    constructor (storage: CacheStorage)
      requires storage.Valid()
      ensures Valid() && this.storage == storage && !skipWaiting
    {
      this.storage := storage;
      skipWaiting := false;
    }

    /**
      The install handler: opens the current cache and adds the manifest. On
      success it asks to skip waiting; a failure is caught and swallowed, so the
      handler completes either way and the store keeps no partial batch.
    */
    method Install(net: Key -> NetOutcome)
      requires Valid()
      modifies this, storage
      ensures Valid()
      ensures storage.State() == Installed(old(storage.State()), net)
      ensures skipWaiting == (old(skipWaiting) || InstallSucceeds(net))
    {
      storage.Open(CACHE_NAME);
      var ok := storage.AddAll(CACHE_NAME, URLS_TO_CACHE, net);
      if ok {
        skipWaiting := true;
      }
    }

    /** The activate handler: deletes every cache whose name is not the current one. */
    method Activate()
      requires Valid()
      modifies storage
      ensures Valid()
      ensures storage.State() == Activated(old(storage.State()))
    {
      ghost var s0 := storage.State();
      var cacheNames := storage.names;
      var i := 0;
      assert cacheNames[..0] == [];
      while i < |cacheNames|
        invariant 0 <= i <= |cacheNames|
        invariant storage.State() == DeleteStale(s0, cacheNames[..i])
      {
        assert cacheNames[..i + 1][..i] == cacheNames[..i];
        if cacheNames[i] != CACHE_NAME {
          var _ := storage.Delete(cacheNames[i]);
        }
        i := i + 1;
      }
      assert cacheNames[..i] == s0.names;
      DeleteStaleAll(s0);
    }

    /**
      The fetch handler: resolves a request cache-first. `networkUsed` tells
      whether the network was asked; `net` is what it would answer.
    */
    method HandleFetch(req: Request, net: NetOutcome) returns (result: FetchResult, networkUsed: bool)
      requires Valid()
      modifies storage
      ensures Valid()
      ensures Resolution(result, storage.State(), networkUsed) == Resolve(old(storage.State()), req, net)
    {
      var cached := storage.MatchKey(req.url);
      if cached.Some? {
        return Served(cached), false;
      }
      networkUsed := true;
      match net
      case Ok(response) =>
        if Cacheable(response) {
          storage.Open(CACHE_NAME);
          storage.Put(CACHE_NAME, req.url, response.value);
        }
        result := Served(response);
      case Failure(reason) =>
        if req.destination == "document" {
          result := Served(storage.MatchKey(OFFLINE_PAGE));
        } else {
          result := Rejected(reason);
        }
    }

    /** The message handler: a message of type "SKIP_WAITING" asks to skip waiting. */
    method HandleMessage(messageType: Option<string>)
      modifies this
      ensures skipWaiting == (old(skipWaiting) || messageType == Some("SKIP_WAITING"))
    {
      if messageType == Some("SKIP_WAITING") {
        skipWaiting := true;
      }
    }
  }
}
