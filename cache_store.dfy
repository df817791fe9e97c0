/**
  The browser's CacheStorage as the service worker sees it: named caches, kept in
  the order they were created, each mapping a request key to a stored response.
  Matching a request is key equality (URL normalisation, `Vary` and the query
  options of the Cache API are not modelled).
*/
module CacheStore {
  import opened Options

  /** A request key: the request's URL as written. */
  type Key = string

  /** The response types of the Fetch Standard, section 2.2.6 ("basic", "cors", ...). */
  datatype ResponseType = Basic | Cors | Default | Error | Opaque | OpaqueRedirect

  /** A response snapshot; its body is opaque bytes. */
  datatype Response = Response(status: int, rtype: ResponseType, body: seq<bv8>)

  /** The value of the whole CacheStorage: cache names in creation order, and their entries. */
  datatype Store = Store(names: seq<string>, caches: map<string, map<Key, Response>>)
  {
    /** Every name is listed once, and the listed names are exactly the existing caches. */
    ghost predicate Valid() {
      && Distinct(names)
      && (forall n :: n in caches <==> n in names)
    }
  }

  const EmptyStore: Store := Store([], map[])

  predicate Holds(caches: map<string, map<Key, Response>>, name: string, key: Key) {
    name in caches && key in caches[name]
  }

  /**
    CacheStorage `match()` (W3C Service Workers, section 5.5.1): the entry for `key`
    in the first cache, in creation order, that has one.
  */
  function FirstHit(names: seq<string>, caches: map<string, map<Key, Response>>, key: Key): (r: Option<Response>)
    ensures r.Some? <==> exists i :: 0 <= i < |names| && Holds(caches, names[i], key)
    ensures r.Some? ==>
      exists i :: 0 <= i < |names| && Holds(caches, names[i], key) && r.value == caches[names[i]][key]
                  && forall j :: 0 <= j < i ==> !Holds(caches, names[j], key)
  {
    if names == [] then None
    else if Holds(caches, names[0], key) then Some(caches[names[0]][key])
    else
      var r := FirstHit(names[1..], caches, key);
      assert forall i :: 1 <= i < |names| ==> names[i] == names[1..][i - 1];
      r
  }

  /** Looking a key up across the whole store. */
  function Match(s: Store, key: Key): (r: Option<Response>)
    requires s.Valid()
    ensures r.Some? <==> exists n :: n in s.caches && key in s.caches[n]
    ensures r.Some? ==> exists n :: n in s.caches && key in s.caches[n] && r.value == s.caches[n][key]
  {
    var r := FirstHit(s.names, s.caches, key);
    assert forall i :: 0 <= i < |s.names| ==> s.names[i] in s.caches;
    r
  }

  /** `caches.open(name)`: the store with a cache of that name, created empty and last if absent. */
  function Opened(s: Store, name: string): (r: Store)
    requires s.Valid()
    ensures r.Valid() && name in r.caches
    ensures name in s.caches ==> r == s
    ensures name !in s.caches ==> r.names == s.names + [name] && r.caches == s.caches[name := map[]]
  {
    if name in s.caches then s
    else
      DistinctAppend(s.names, name);
      Store(s.names + [name], s.caches[name := map[]])
  }

  /** `cache.put(key, response)` on the cache `name`: insert, or replace the snapshot under that key. */
  function PutEntry(s: Store, name: string, key: Key, response: Response): (r: Store)
    requires s.Valid() && name in s.caches
    ensures r.Valid() && r.names == s.names && r.caches.Keys == s.caches.Keys
    ensures r.caches[name] == s.caches[name][key := response]
    ensures forall n :: n in s.caches && n != name ==> r.caches[n] == s.caches[n]
  {
    Store(s.names, s.caches[name := s.caches[name][key := response]])
  }

  /** The names of `names` other than `name`, in their order. */
  function Without(names: seq<string>, name: string): (r: seq<string>)
    ensures forall n :: n in r <==> n in names && n != name
  {
    if names == [] then []
    else (if names[0] == name then [] else [names[0]]) + Without(names[1..], name)
  }

  /** `caches.delete(name)`: the store without that cache; the others keep their order and entries. */
  function Deleted(s: Store, name: string): (r: Store)
    requires s.Valid()
    ensures r.Valid() && name !in r.caches
    ensures forall n :: n in r.caches <==> n in s.caches && n != name
    ensures forall n :: n in r.caches ==> r.caches[n] == s.caches[n]
    ensures forall k :: 0 <= k < |s.names| && s.names[k] == name ==> r.names == s.names[..k] + s.names[k + 1..]
    ensures name !in s.caches ==> r == s
  {
    var w := Without(s.names, name);
    assert Distinct(w) by { DistinctWithout(s.names, name); }
    assert (name !in s.names ==> w == s.names)
      && forall k :: 0 <= k < |s.names| && s.names[k] == name ==> w == s.names[..k] + s.names[k + 1..]
    by { WithoutDistinct(s.names, name); }
    Store(w, s.caches - {name})
  }

  /** Dropping a name that does not occur changes nothing. */
  lemma {:induction false} WithoutAbsent(names: seq<string>, name: string)
    requires name !in names
    ensures Without(names, name) == names
  {
    if names != [] {
      WithoutAbsent(names[1..], name);
      assert Without(names, name) == [names[0]] + names[1..];
    }
  }

  /** Dropping the one occurrence, at `k`, of `name` leaves the others in their order. */
  lemma {:induction false} WithoutAt(names: seq<string>, name: string, k: nat)
    requires Distinct(names) && k < |names| && names[k] == name
    ensures Without(names, name) == names[..k] + names[k + 1..]
  {
    var tail := names[1..];
    if k == 0 {
      WithoutAbsent(tail, name);
      assert Without(names, name) == Without(tail, name);
    } else {
      assert tail[k - 1] == name;
      assert names[0] != name;
      WithoutAt(tail, name, k - 1);
      assert Without(names, name) == [names[0]] + tail[..k - 1] + tail[k..];
      assert names[..k] == [names[0]] + tail[..k - 1];
      assert tail[k..] == names[k + 1..];
    }
  }

  /**
    In a list without repetitions, dropping `name` removes its one occurrence and
    leaves the others in their order; an absent name changes nothing.
  */
  lemma WithoutDistinct(names: seq<string>, name: string)
    requires Distinct(names)
    ensures name !in names ==> Without(names, name) == names
    ensures forall k :: 0 <= k < |names| && names[k] == name ==> Without(names, name) == names[..k] + names[k + 1..]
  {
    if name !in names {
      WithoutAbsent(names, name);
    }
    forall k | 0 <= k < |names| && names[k] == name
      ensures Without(names, name) == names[..k] + names[k + 1..]
    {
      WithoutAt(names, name, k);
    }
  }

  /** No name occurs twice. */
  predicate Distinct(names: seq<string>) {
    names == [] || (names[0] !in names[1..] && Distinct(names[1..]))
  }

  lemma {:induction false} DistinctWithout(names: seq<string>, name: string)
    requires Distinct(names)
    ensures Distinct(Without(names, name))
  {
    if names != [] {
      DistinctWithout(names[1..], name);
      var w := Without(names[1..], name);
      if names[0] == name {
        assert Without(names, name) == w;
      } else {
        var v := [names[0]] + w;
        assert Without(names, name) == v;
        assert names[0] !in names[1..];
        assert v[0] == names[0] && v[1..] == w;
      }
    }
  }

  lemma DistinctSingle(name: string)
    ensures Distinct([name])
  {
    assert [name][1..] == [];
  }

  lemma {:induction false} DistinctAppend(names: seq<string>, name: string)
    requires Distinct(names) && name !in names
    ensures Distinct(names + [name])
  {
    if names == [] {
      assert [name][1..] == [];
    } else {
      assert (names + [name])[1..] == names[1..] + [name];
      DistinctAppend(names[1..], name);
    }
  }

  /**
    What the network gives back for one request: a response (the source also
    allows for none at all) or a rejection of `fetch`, with its reason.
  */
  datatype NetOutcome = Ok(response: Option<Response>) | Failure(reason: string)

  /**
    A fetched response that `addAll` keeps (W3C Service Workers, section 5.4.4):
    there is one, it is not a network error, and its status is ok (200 to 299) and not 206.
  */
  predicate AddAllAccepts(outcome: NetOutcome) {
    && outcome.Ok? && outcome.response.Some?
    && outcome.response.value.rtype != Error
    && 200 <= outcome.response.value.status <= 299
    && outcome.response.value.status != 206
  }

  /** Fetches every URL; the entries to store, or None as soon as one fetch is not accepted. */
  function FetchAll(urls: seq<Key>, net: Key -> NetOutcome): (r: Option<map<Key, Response>>)
    ensures r.Some? <==> forall i :: 0 <= i < |urls| ==> AddAllAccepts(net(urls[i]))
    ensures r.Some? ==> forall u :: u in r.value <==> u in urls
    ensures r.Some? ==> forall u :: u in r.value ==> r.value[u] == net(u).response.value
  {
    if urls == [] then Some(map[])
    else if !AddAllAccepts(net(urls[0])) then None
    else
      match FetchAll(urls[1..], net)
      case None =>
        assert forall i :: 1 <= i < |urls| ==> urls[i] == urls[1..][i - 1];
        None
      case Some(rest) =>
        assert forall i :: 1 <= i < |urls| ==> urls[i] == urls[1..][i - 1];
        assert forall u :: u in urls <==> u == urls[0] || u in urls[1..];
        Some(rest[urls[0] := net(urls[0]).response.value])
  }

  /**
    The batch `addAll` commits: every request fetched and accepted, and no request
    listed twice (a duplicate rejects the batch with an InvalidStateError).
  */
  function AddAllBatch(urls: seq<Key>, net: Key -> NetOutcome): (r: Option<map<Key, Response>>)
    ensures r.Some? <==> Distinct(urls) && forall i :: 0 <= i < |urls| ==> AddAllAccepts(net(urls[i]))
    ensures r.Some? ==> forall u :: u in r.value <==> u in urls
    ensures r.Some? ==> forall u :: u in r.value ==> r.value[u] == net(u).response.value
  {
    if Distinct(urls) then FetchAll(urls, net) else None
  }

  /** The store after `batch` is put into the cache `name`, all entries at once. */
  function PutBatch(s: Store, name: string, batch: map<Key, Response>): (r: Store)
    requires s.Valid() && name in s.caches
    ensures r.Valid() && r.names == s.names && r.caches.Keys == s.caches.Keys
    ensures forall k :: k in r.caches[name] <==> k in batch || k in s.caches[name]
    ensures forall k :: k in batch ==> r.caches[name][k] == batch[k]
    ensures forall k :: k in s.caches[name] && k !in batch ==> r.caches[name][k] == s.caches[name][k]
    ensures forall n :: n in s.caches && n != name ==> r.caches[n] == s.caches[n]
  {
    Store(s.names, s.caches[name := s.caches[name] + batch])
  }

  /**
    The CacheStorage object, updated in place by `open`, `put` and `delete`.
  */
  class CacheStorage {
    var names: seq<string>
    var caches: map<string, map<Key, Response>>

    function State(): Store
      reads this
    {
      Store(names, caches)
    }

    ghost predicate Valid()
      reads this
    {
      State().Valid()
    }

    constructor ()
      ensures Valid() && State() == EmptyStore
    {
      names := [];
      caches := map[];
    }

    function MatchKey(key: Key): (r: Option<Response>)
      reads this
      requires Valid()
      ensures r == Match(State(), key)
    {
      Match(State(), key)
    }

    method Open(name: string)
      requires Valid()
      modifies this
      ensures Valid()
      ensures State() == Opened(old(State()), name)
    {
      if name !in caches {
        DistinctAppend(names, name);
        names := names + [name];
        caches := caches[name := map[]];
      }
    }

    method Put(name: string, key: Key, response: Response)
      requires Valid() && name in caches
      modifies this
      ensures Valid()
      ensures State() == PutEntry(old(State()), name, key, response)
    {
      caches := caches[name := caches[name][key := response]];
    }

    /**
      `cache.addAll(urls)` on the cache `name`: all of the batch is stored, or, when
      the batch is rejected, nothing is and `ok` is false.
    */
    method AddAll(name: string, urls: seq<Key>, net: Key -> NetOutcome) returns (ok: bool)
      requires Valid() && name in caches
      modifies this
      ensures Valid()
      ensures ok == AddAllBatch(urls, net).Some?
      ensures State() == if ok then PutBatch(old(State()), name, AddAllBatch(urls, net).value) else old(State())
    {
      var batch := AddAllBatch(urls, net);
      ok := batch.Some?;
      if ok {
        caches := caches[name := caches[name] + batch.value];
      }
    }

    /** Returns whether a cache of that name existed, as `caches.delete` does. */
    method Delete(name: string) returns (existed: bool)
      requires Valid()
      modifies this
      ensures Valid()
      ensures existed == (name in old(caches))
      ensures State() == Deleted(old(State()), name)
    {
      existed := name in caches;
      DistinctWithout(names, name);
      names := Without(names, name);
      caches := caches - {name};
    }
  }
}
