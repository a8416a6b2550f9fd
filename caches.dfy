/**
 * The origin's `CacheStorage` (the global `caches` object), shared by the page
 * and by its service worker: a list of named caches in creation order, each a
 * map from request URL to stored response.
 */
module Caches {
  import opened Common

  /** A stored HTTP response: its status code and its body. */
  datatype Response = Response(status: int, body: seq<byte>)

  /** One named cache. */
  type Cache = map<string, Response>

  /**
   * `caches.match(url)`: the entry of the first cache, in creation order,
   * that holds `url`.
   */
  function FirstMatch(names: seq<string>, stores: map<string, Cache>, url: string): (r: Option<Response>)
    ensures r.None? <==> forall i :: 0 <= i < |names| && names[i] in stores ==> url !in stores[names[i]]
    ensures r.Some? ==>
      exists i :: (&& 0 <= i < |names| && names[i] in stores && url in stores[names[i]]
                   && stores[names[i]][url] == r.value
                   && (forall j :: 0 <= j < i && names[j] in stores ==> url !in stores[names[j]]))
  {
    if names == [] then None
    else if names[0] in stores && url in stores[names[0]] then Some(stores[names[0]][url])
    else
      var r := FirstMatch(names[1..], stores, url);
      assert forall i :: 1 <= i < |names| ==> names[i] == names[1..][i - 1];
      r
  }

  class CacheStorage {
    /** The cache names in creation order, as `caches.keys()` lists them. */
    var names: seq<string>
    /** The contents of each named cache. */
    var stores: map<string, Cache>

    ghost predicate Valid()
      reads this
    {
      NoDuplicates(names) && forall n :: n in stores <==> n in names
    }

    /** A fresh origin has no caches. */
    constructor ()
      ensures Valid() && names == [] && stores == map[]
    {
      names := [];
      stores := map[];
    }

    /** `caches.keys()`: every cache name, once each. */
    function Keys(): (r: seq<string>)
      reads this
      ensures Valid() ==> NoDuplicates(r) && forall n :: n in r <==> n in stores
    {
      names
    }

    /** `caches.match(url)`: an entry for `url` from one of the caches, if any holds it. */
    function Match(url: string): (r: Option<Response>)
      reads this
      ensures Valid() ==> (r.None? <==> forall n :: n in stores ==> url !in stores[n])
      ensures r.Some? ==> exists n :: n in stores && url in stores[n] && stores[n][url] == r.value
    {
      FirstMatch(names, stores, url)
    }

    /** `cache.match(url)` on the cache opened under `name`. */
    function Lookup(name: string, url: string): (r: Option<Response>)
      reads this
      requires name in stores
      ensures r.Some? <==> url in stores[name]
      ensures Valid() && r.Some? ==> Match(url).Some?
    {
      if url in stores[name] then Some(stores[name][url]) else None
    }

    /** `caches.open(name)`: creates an empty cache under `name` when there is none. */
    method Open(name: string)
      requires Valid()
      modifies this
      ensures Valid() && name in stores
      ensures old(name in stores) ==> names == old(names) && stores == old(stores)
      ensures old(name !in stores) ==> names == old(names) + [name] && stores == old(stores)[name := map[]]
    {
      if name !in stores {
        assert name !in names;
        names := names + [name];
        stores := stores[name := map[]];
      }
    }

    /** `cache.put(url, response)` on the cache opened under `name`; an older entry is replaced. */
    method Put(name: string, url: string, response: Response)
      requires Valid() && name in stores
      modifies this
      ensures Valid() && names == old(names)
      ensures stores == old(stores)[name := old(stores)[name][url := response]]
    {
      stores := stores[name := stores[name][url := response]];
    }

    /** `caches.delete(name)`: answers whether there was such a cache. */
    method Delete(name: string) returns (found: bool)
      requires Valid()
      modifies this
      ensures Valid()
      ensures found == old(name in stores)
      ensures names == Remove(old(names), name)
      ensures stores == old(stores) - {name}
    {
      found := name in stores;
      RemoveNoDuplicates(names, name);
      names := Remove(names, name);
      stores := stores - {name};
    }
  }
}
