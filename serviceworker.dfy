/**
 * The service worker: on install it pre-caches the application shell, on
 * activate it deletes every cache but its own, and on each GET it answers
 * from the caches first while refreshing its own cache from the network
 * (stale-while-revalidate). The promise chains are taken as sequential steps.
 */
module ServiceWorker {
  import opened Common
  import opened Caches

  const CACHE_NAME: string := "oxford-3000-v1"

  const ASSETS_TO_CACHE: seq<string> := [
    "/",
    "/index.html",
    "/index.tsx",
    "/App.tsx",
    "/types.ts",
    "/constants.ts",
    "/metadata.json",
    "https://cdn.tailwindcss.com",
    "https://fonts.googleapis.com/css2?family=Inter:wght@300;400;500;600;700&family=Prompt:wght@300;400;500;600&display=swap"
  ]

  const HTTPS: string := "https://"

  /** The text after `https://` names a host only: it has no path, query or fragment. */
  predicate HostOnly(rest: string) {
    '/' !in rest && '?' !in rest && '#' !in rest
  }

  /**
   * The URL `new Request(u)` names inside the worker, for the two forms the
   * asset list uses: a path from the root is resolved against the origin the
   * worker is served from, and an absolute https URL is kept, its empty path
   * becoming "/".
   */
  function Resolve(origin: string, u: string): (url: string)
    ensures |u| > 0 && u[0] == '/' ==> url == origin + u
    ensures HTTPS <= u ==> u <= url && |url| <= |u| + 1
    ensures HTTPS <= u && HostOnly(u[|HTTPS|..]) ==> url == u + "/"
    ensures HTTPS <= u && !HostOnly(u[|HTTPS|..]) ==> url == u
  {
    if |u| > 0 && u[0] == '/' then origin + u
    else if HTTPS <= u && HostOnly(u[|HTTPS|..]) then u + "/"
    else u
  }

  /** The asset list as the URLs `cache.addAll` fetches and stores them under. */
  function Assets(origin: string): (urls: seq<string>)
    ensures |urls| == |ASSETS_TO_CACHE|
    ensures forall i :: 0 <= i < |urls| ==> urls[i] == Resolve(origin, ASSETS_TO_CACHE[i])
  {
    seq(|ASSETS_TO_CACHE|, i requires 0 <= i < |ASSETS_TO_CACHE| => Resolve(origin, ASSETS_TO_CACHE[i]))
  }

  /** The stylesheet host gains the "/" of its empty path; a page path gains the origin. */
  lemma AssetsResolved(origin: string)
    ensures Assets(origin)[0] == origin + "/"
    ensures Assets(origin)[1] == origin + "/index.html"
    ensures Assets(origin)[7] == "https://cdn.tailwindcss.com/"
  {
    var cdn := ASSETS_TO_CACHE[7];
    assert cdn == "https://cdn.tailwindcss.com";
    assert forall i :: 0 <= i < 8 ==> cdn[i] == HTTPS[i];
    var host := cdn[|HTTPS|..];
    assert forall i :: 0 <= i < |host| ==> host[i] != '/' && host[i] != '?' && host[i] != '#';
  }

  datatype Request = Request(verb: string, url: string)  // `verb` is the HTTP method

  /** What `fetch(request)` settles to: a response, or a rejection. */
  datatype NetResult = NetworkError | Received(response: Response)

  /** What the fetch handler does with one event. */
  datatype FetchOutcome =
    | PassThrough                           // no respondWith: the browser fetches as usual
    | RespondWith(answer: Option<Response>) // None: resolved to undefined, a network error for the page

  /** A response `cache.addAll` accepts: an ok status other than 206. */
  predicate Cacheable(net: NetResult)
    ensures Cacheable(net) ==> net.Received?
  {
    net.Received? && 200 <= net.response.status < 300 && net.response.status != 206
  }

  /**
   * `cachedResponse || fetchedResponse`, where the fetched promise settles to
   * the cached entry when the network fails.
   */
  function ChooseResponse(cached: Option<Response>, net: NetResult): (answer: Option<Response>)
    ensures cached.Some? ==> answer == cached
    ensures cached.None? && net.Received? ==> answer == Some(net.response)
    ensures net.NetworkError? ==> answer == cached
    ensures answer.None? <==> cached.None? && net.NetworkError?
  {
    match cached
    case Some(_) => cached
    case None => if net.Received? then Some(net.response) else cached
  }

  /** The response written back to CACHE_NAME, if any: only a status of exactly 200. */
  function WriteBack(net: NetResult): (stored: Option<Response>)
    ensures stored.Some? <==> net.Received? && net.response.status == 200
    ensures stored.Some? ==> stored.value == net.response
  {
    if net.Received? && net.response.status == 200 then Some(net.response) else None
  }

  /** `cache.addAll(urls)` once every fetch succeeded: each URL stored with its response, the other entries kept. */
  function AddAll(cache: Cache, urls: seq<string>, fetch: string -> NetResult): (r: Cache)
    requires forall u :: u in urls ==> fetch(u).Received?
    ensures r.Keys == cache.Keys + set u | u in urls
    ensures forall u :: u in urls ==> r[u] == fetch(u).response
    ensures forall u :: u in cache && u !in urls ==> r[u] == cache[u]
    decreases |urls|
  {
    if urls == [] then cache
    else
      var last := urls[|urls| - 1];
      assert forall u :: u in urls[..|urls| - 1] ==> u in urls;
      var r := AddAll(cache, urls[..|urls| - 1], fetch)[last := fetch(last).response];
      assert forall u :: u in urls ==> u == last || u in urls[..|urls| - 1];
      r
  }

  /** The cache CACHE_NAME as `caches.open` hands it out: the stored one, or a new empty one. */
  function OwnCache(stores: map<string, Cache>): Cache {
    if CACHE_NAME in stores then stores[CACHE_NAME] else map[]
  }

  /** The checks `cache.addAll(urls)` makes before storing anything: every fetch gave a cacheable response. */
  method AllCacheable(urls: seq<string>, fetch: string -> NetResult) returns (ok: bool)
    ensures ok <==> forall u :: u in urls ==> Cacheable(fetch(u))
  {
    var i := 0;
    while i < |urls|
      invariant 0 <= i <= |urls|
      invariant forall u :: u in urls[..i] ==> Cacheable(fetch(u))
    {
      if !Cacheable(fetch(urls[i])) {
        assert urls[i] in urls;
        return false;
      }
      assert urls[..i + 1] == urls[..i] + [urls[i]];
      i := i + 1;
    }
    assert urls[..i] == urls;
    ok := true;
  }

  /** Storing one more URL extends `addAll` of the URLs before it by that one entry. */
  lemma AddAllStep(cache: Cache, urls: seq<string>, fetch: string -> NetResult, i: nat)
    requires i < |urls| && forall u :: u in urls ==> fetch(u).Received?
    ensures forall u :: u in urls[..i + 1] ==> u in urls
    ensures AddAll(cache, urls[..i + 1], fetch) == AddAll(cache, urls[..i], fetch)[urls[i] := fetch(urls[i]).response]
  {
    assert urls[..i + 1][..i] == urls[..i];
  }

  /** The store step of `cache.addAll(urls)` on the opened cache CACHE_NAME. */
  method PutAll(storage: CacheStorage, urls: seq<string>, fetch: string -> NetResult)
    requires storage.Valid() && CACHE_NAME in storage.stores
    requires forall u :: u in urls ==> fetch(u).Received?
    modifies storage
    ensures storage.Valid() && storage.names == old(storage.names)
    ensures storage.stores == old(storage.stores)[CACHE_NAME := AddAll(old(storage.stores)[CACHE_NAME], urls, fetch)]
  {
    ghost var base := storage.stores[CACHE_NAME];
    var i := 0;
    while i < |urls|
      invariant 0 <= i <= |urls|
      invariant storage.Valid() && storage.names == old(storage.names)
      invariant forall u :: u in urls[..i] ==> u in urls
      invariant storage.stores == old(storage.stores)[CACHE_NAME := AddAll(base, urls[..i], fetch)]
    {
      var url := urls[i];
      AddAllStep(base, urls, fetch, i);
      ghost var stored := AddAll(base, urls[..i], fetch);
      storage.Put(CACHE_NAME, url, fetch(url).response);
      UpdateTwice(old(storage.stores), CACHE_NAME, stored, stored[url := fetch(url).response]);
      i := i + 1;
    }
    assert urls[..i] == urls;
  }

  /** A second replacement of the same cache overrides the first. */
  lemma UpdateTwice(stores: map<string, Cache>, name: string, first: Cache, second: Cache)
    ensures stores[name := first][name := second] == stores[name := second]
  {
  }

  /** Replacing the worker's cache leaves every other cache as it was. */
  lemma UpdateOutside(stores: map<string, Cache>, name: string, cache: Cache)
    ensures stores[name := cache] - {name} == stores - {name}
  {
  }

  /**
   * The install handler. The asset list is resolved against the worker's
   * origin and fetched, keyed by the resolved URLs; `addAll` stores all of it
   * when every fetch gave a cacheable response and nothing otherwise, and the
   * install then fails. `caches.open` has created CACHE_NAME either way.
   */
  method Install(storage: CacheStorage, origin: string, fetch: string -> NetResult) returns (installed: bool)
    requires storage.Valid()
    modifies storage
    ensures storage.Valid() && CACHE_NAME in storage.stores
    ensures installed <==> forall u :: u in Assets(origin) ==> Cacheable(fetch(u))
    ensures installed ==> storage.stores[CACHE_NAME] == AddAll(OwnCache(old(storage.stores)), Assets(origin), fetch)
    ensures installed ==> forall u :: u in Assets(origin) ==> u in storage.stores[CACHE_NAME]
    ensures !installed ==> storage.stores[CACHE_NAME] == OwnCache(old(storage.stores))
    ensures storage.stores - {CACHE_NAME} == old(storage.stores) - {CACHE_NAME}
    ensures storage.names == if CACHE_NAME in old(storage.stores) then old(storage.names)
                             else old(storage.names) + [CACHE_NAME]
  {
    storage.Open(CACHE_NAME);
    assert storage.names == if CACHE_NAME in old(storage.stores) then old(storage.names)
                            else old(storage.names) + [CACHE_NAME];
    ghost var afterOpen := storage.stores;
    assert afterOpen - {CACHE_NAME} == old(storage.stores) - {CACHE_NAME};
    var urls := Assets(origin);
    installed := AllCacheable(urls, fetch);
    if installed {
      assert forall u :: u in urls ==> fetch(u).Received? by {
        forall u | u in urls ensures fetch(u).Received? { assert Cacheable(fetch(u)); }
      }
      PutAll(storage, urls, fetch);
      UpdateOutside(afterOpen, CACHE_NAME, storage.stores[CACHE_NAME]);
    }
  }

  /** The activate handler: every cache whose name is not CACHE_NAME is deleted. */
  method Activate(storage: CacheStorage)
    requires storage.Valid()
    modifies storage
    ensures storage.Valid()
    ensures forall n :: n in storage.names <==> n == CACHE_NAME && n in old(storage.names)
    ensures storage.stores == if CACHE_NAME in old(storage.stores)
      then map[CACHE_NAME := old(storage.stores)[CACHE_NAME]] else map[]
  {
    var stale := Remove(storage.Keys(), CACHE_NAME);
    ghost var deleted: set<string> := {};
    var i := 0;
    while i < |stale|
      invariant 0 <= i <= |stale|
      invariant storage.Valid()
      invariant storage.stores == old(storage.stores) - deleted
      invariant CACHE_NAME !in deleted
      invariant forall k :: 0 <= k < i ==> stale[k] in deleted
    {
      var _ := storage.Delete(stale[i]);
      deleted := deleted + {stale[i]};
      i := i + 1;
    }
    forall n | n in old(storage.names) && n != CACHE_NAME
      ensures n in deleted
    {
      var k :| 0 <= k < |stale| && stale[k] == n;
    }
    OnlyOwnCacheLeft(old(storage.stores), old(storage.names), deleted);
  }

  /** Deleting every name but CACHE_NAME from the caches leaves CACHE_NAME alone. */
  lemma OnlyOwnCacheLeft(stores: map<string, Cache>, names: seq<string>, deleted: set<string>)
    requires forall n :: n in stores <==> n in names
    requires forall n :: n in names && n != CACHE_NAME ==> n in deleted
    requires CACHE_NAME !in deleted
    ensures stores - deleted == if CACHE_NAME in stores then map[CACHE_NAME := stores[CACHE_NAME]] else map[]
  {
    assert (stores - deleted).Keys == if CACHE_NAME in stores then {CACHE_NAME} else {};
  }

  /**
   * The fetch handler. Non-GET requests are left to the browser. For a GET,
   * the caches are consulted, the network is asked in any case, a 200 reply
   * is written to CACHE_NAME under the request's URL, and the answer is the
   * cached entry when there is one and the network's reply otherwise.
   */
  method HandleFetch(storage: CacheStorage, request: Request, net: NetResult) returns (outcome: FetchOutcome)
    requires storage.Valid()
    modifies storage
    ensures storage.Valid()
    ensures request.verb != "GET" ==> outcome == PassThrough
    ensures request.verb == "GET" ==> outcome == RespondWith(ChooseResponse(old(storage.Match(request.url)), net))
    ensures request.verb == "GET" && WriteBack(net).Some?
      ==> storage.stores == old(storage.stores)[CACHE_NAME := OwnCache(old(storage.stores))[request.url := net.response]]
    ensures request.verb == "GET" && WriteBack(net).Some?
      ==> storage.names == if CACHE_NAME in old(storage.stores) then old(storage.names)
                           else old(storage.names) + [CACHE_NAME]
    ensures request.verb != "GET" || WriteBack(net).None?
      ==> storage.names == old(storage.names) && storage.stores == old(storage.stores)
  {
    if request.verb != "GET" {
      return PassThrough;
    }
    var cached := storage.Match(request.url);
    var stored := WriteBack(net);
    if stored.Some? {
      storage.Open(CACHE_NAME);
      storage.Put(CACHE_NAME, request.url, stored.value);
    }
    outcome := RespondWith(ChooseResponse(cached, net));
  }

  /**
   * Stale-while-revalidate: once a GET has been answered by the network with
   * a 200, the same URL is answered from the caches when the network fails.
   */
  method RevisitOffline(storage: CacheStorage, url: string, response: Response)
      returns (first: FetchOutcome, second: FetchOutcome)
    requires storage.Valid() && response.status == 200
    modifies storage
    ensures old(storage.Match(url)).None? ==> first == RespondWith(Some(response))
    ensures second.RespondWith? && second.answer.Some?
  {
    first := HandleFetch(storage, Request("GET", url), Received(response));
    assert CACHE_NAME in storage.names && url in storage.stores[CACHE_NAME];
    second := HandleFetch(storage, Request("GET", url), NetworkError);
  }

  /**
   * After a successful install, a GET for any asset, at the URL the page
   * requests it by, is answered from the worker's cache when the network fails.
   */
  method InstalledShellServedOffline(storage: CacheStorage, origin: string, fetch: string -> NetResult, asset: string)
      returns (installed: bool, outcome: FetchOutcome)
    requires storage.Valid() && asset in ASSETS_TO_CACHE
    modifies storage
    ensures installed ==> outcome.RespondWith? && outcome.answer.Some?
  {
    installed := Install(storage, origin, fetch);
    var url := Resolve(origin, asset);
    assert url in Assets(origin) by {
      var k :| 0 <= k < |ASSETS_TO_CACHE| && ASSETS_TO_CACHE[k] == asset;
      assert Assets(origin)[k] == url;
    }
    outcome := HandleFetch(storage, Request("GET", url), NetworkError);
  }
}
