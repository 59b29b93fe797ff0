/**
 * The portfolio's service worker (sw.js): its configuration constants, the
 * size-bounded dynamic cache, the install and activate lifecycle steps, the
 * per-request routing decision and the SKIP_WAITING message.
 *
 * The routing decision is the pure function `Route`; the class
 * `ServiceWorker` runs the handlers against a `CacheStorage` and records in
 * `log` the effects that leave the worker: network fetches, `skipWaiting`,
 * cache deletions and `clients.claim`.
 */
module ServiceWorker {
  import opened JsBase
  import opened Caches

  const CACHE_VERSION: string := "lp-portfolio-v2.1"
  const STATIC_CACHE: string := CACHE_VERSION + "-static"
  const DYNAMIC_CACHE: string := CACHE_VERSION + "-dynamic"
  const MAX_DYNAMIC_CACHE_SIZE: nat := 50

  const STATIC_ASSETS: seq<string> := [
    "/",
    "/index.html",
    "/css/styles.css",
    "/js/main.js",
    "/js/interactive.js",
    "/js/i18n.js",
    "/manifest.json"
  ]

  /** The prefix `activate` filters on; it is written out on its own, not derived from CACHE_VERSION. */
  const CACHE_PREFIX: string := "lp-portfolio-"

  /** The app shell served to a document request the network cannot answer. */
  const APP_SHELL: string := "/index.html"

  /** The parts of a request the worker looks at; `origin` is the origin of `url`. */
  datatype Request = Request(httpMethod: string, url: string, origin: string, destination: string)

  /** What the page gets from one fetch event. */
  datatype FetchResult =
    | NotIntercepted
      // `respondWith` is not called: the browser performs the request itself
    | Responded(response: Option<Response>)
      // `None`: the promise given to `respondWith` resolved to `undefined`, a network error for the page

  /** A routing decision: the answer, and whether the network response goes into DYNAMIC_CACHE. */
  datatype Decision = Decision(result: FetchResult, store: bool)

  /** Effects that leave the worker, in the order they are issued. */
  datatype Effect =
    | NetworkFetch(url: string)
    | SkipWaitingCalled
    | CacheDeleted(name: string)
    | ClientsClaimed

  /** `event.data` of a message event: `None` when it is falsy; `messageType` is its `type` property. */
  datatype MessageData = MessageData(messageType: Option<string>)

  /** A root-relative path resolved against the worker's origin. */
  function AssetUrl(origin: string, path: string): string {
    origin + path
  }

  /** The URLs `addAll(STATIC_ASSETS)` fetches and stores. */
  function StaticUrls(origin: string): (urls: seq<string>)
    ensures |urls| == |STATIC_ASSETS|
    ensures forall i :: 0 <= i < |urls| ==> StartsWith(urls[i], origin) && urls[i][|origin|..] == STATIC_ASSETS[i]
  {
    seq(|STATIC_ASSETS|, i requires 0 <= i < |STATIC_ASSETS| => AssetUrl(origin, STATIC_ASSETS[i]))
  }

  /** The alternatives of the pattern `/\.(css|js|woff2|woff|ttf)$/`. */
  const CACHEABLE_EXTENSIONS: seq<string> := [".css", ".js", ".woff2", ".woff", ".ttf"]

  /** The test `/\.(css|js|woff2|woff|ttf)$/` on the full request URL. */
  function CacheableCrossOrigin(url: string): (b: bool)
    ensures b <==> exists ext :: ext in CACHEABLE_EXTENSIONS && EndsWith(url, ext)
  {
    || EndsWith(url, ".css")
    || EndsWith(url, ".js")
    || EndsWith(url, ".woff2")
    || EndsWith(url, ".woff")
    || EndsWith(url, ".ttf")
  }

  /** The filter of `activate`: the caches it deletes. */
  function IsStale(name: string): (b: bool)
    // the current caches are never deleted
    ensures b ==> name != STATIC_CACHE && name != DYNAMIC_CACHE
    // nor is any cache outside the `lp-portfolio-` family
    ensures !StartsWith(name, CACHE_PREFIX) ==> !b
  {
    StartsWith(name, CACHE_PREFIX) && name != STATIC_CACHE && name != DYNAMIC_CACHE
  }

  /** The request goes to the network: a GET that no cache answers. */
  predicate NeedsNetwork(req: Request, cached: Option<Response>) {
    req.httpMethod == "GET" && cached.None?
  }

  /**
   * The fetch handler's decision for `req`, given the result of
   * `caches.match(req)` (`cached`), the outcome of the network fetch (`net`,
   * looked at only when `NeedsNetwork`) and the result of
   * `caches.match('/index.html')` (`shell`, looked at only after a failed
   * same-origin document fetch).
   */
  function Route(req: Request, swOrigin: string, cached: Option<Response>, net: NetResult, shell: Option<Response>): (d: Decision)
    // a non-GET request is left to the browser and touches no cache
    ensures req.httpMethod != "GET" ==> d == Decision(NotIntercepted, false)
    // cache first, for both origins
    ensures req.httpMethod == "GET" && cached.Some? ==> d == Decision(Responded(cached), false)
    // a network response is handed to the page unchanged
    ensures NeedsNetwork(req, cached) && net.Ok? ==> d.result == Responded(Some(net.response))
    // only a 200 is stored; a cross-origin one only for an allow-listed extension
    ensures d.store <==> NeedsNetwork(req, cached) && net.Ok? && net.response.status == 200 &&
                         (req.origin == swOrigin || CacheableCrossOrigin(req.url))
    // a failed fetch: the app shell for a same-origin document, nothing otherwise
    ensures NeedsNetwork(req, cached) && net.Fail? ==>
              d.result == Responded(if req.origin == swOrigin && req.destination == "document" then shell else None)
  {
    if req.httpMethod != "GET" then
      Decision(NotIntercepted, false)
    else if req.origin == swOrigin then
      if cached.Some? then Decision(Responded(cached), false)
      else
        match net
        case Ok(resp) => Decision(Responded(Some(resp)), resp.status == 200)
        case Fail => Decision(Responded(if req.destination == "document" then shell else None), false)
    else
      if cached.Some? then Decision(Responded(cached), false)
      else
        match net
        case Ok(resp) => Decision(Responded(Some(resp)), resp.status == 200 && CacheableCrossOrigin(req.url))
        // `.catch(() => cachedResponse)`: the value looked up before the fetch
        case Fail => Decision(Responded(cached), false)
  }

  /** A cache hit is answered without the network: the decision is the same whatever the network would do. */
  lemma HitIgnoresNetwork(req: Request, swOrigin: string, cached: Option<Response>, shell: Option<Response>, n1: NetResult, n2: NetResult)
    requires !NeedsNetwork(req, cached)
    ensures Route(req, swOrigin, cached, n1, shell) == Route(req, swOrigin, cached, n2, shell)
  {
  }

  /** A non-GET request is decided without any cache lookup or network outcome. */
  lemma NonGetIgnoresCaches(req: Request, swOrigin: string, c1: Option<Response>, c2: Option<Response>,
                            n1: NetResult, n2: NetResult, s1: Option<Response>, s2: Option<Response>)
    requires req.httpMethod != "GET"
    ensures Route(req, swOrigin, c1, n1, s1) == Route(req, swOrigin, c2, n2, s2) == Decision(NotIntercepted, false)
  {
  }

  /**
   * The cross-origin `.catch(() => cachedResponse)` can only return the
   * lookup that missed, so a failed cross-origin fetch gives the page no
   * response.
   */
  lemma CrossOriginFailureGivesNothing(req: Request, swOrigin: string, shell: Option<Response>)
    requires req.httpMethod == "GET" && req.origin != swOrigin
    ensures Route(req, swOrigin, None, Fail, shell) == Decision(Responded(None), false)
  {
  }

  /** A 200 `.png` from another origin is returned and not stored. */
  lemma CrossOriginImageNotStored(o: string, resp: Response)
    requires resp.status == 200 && o != "https://cdn.example"
    ensures Route(Request("GET", "https://cdn.example/logo.png", "https://cdn.example", "image"), o, None, Ok(resp), None)
            == Decision(Responded(Some(resp)), false)
  {
    assert !CacheableCrossOrigin("https://cdn.example/logo.png");
  }

  /** A stylesheet whose URL carries a query string does not end in `.css`, so it is not stored. */
  lemma CrossOriginQueryNotStored(o: string, resp: Response)
    requires resp.status == 200 && o != "https://cdn.example"
    ensures Route(Request("GET", "https://cdn.example/a.css?v=2", "https://cdn.example", "style"), o, None, Ok(resp), None)
            == Decision(Responded(Some(resp)), false)
  {
    assert !CacheableCrossOrigin("https://cdn.example/a.css?v=2");
  }

  /** A 200 font from another origin is returned and stored. */
  lemma CrossOriginFontStored(o: string, resp: Response)
    requires resp.status == 200 && o != "https://cdn.example"
    ensures Route(Request("GET", "https://cdn.example/f.woff2", "https://cdn.example", "font"), o, None, Ok(resp), None)
            == Decision(Responded(Some(resp)), true)
  {
    assert CacheableCrossOrigin("https://cdn.example/f.woff2");
  }

  /** The static asset URLs are distinct, so `addAll` does not refuse them as duplicates. */
  lemma StaticUrlsDistinct(origin: string)
    ensures forall i, j :: 0 <= i < j < |STATIC_ASSETS| ==> StaticUrls(origin)[i] != StaticUrls(origin)[j]
  {
    var urls := StaticUrls(origin);
    forall i, j | 0 <= i < j < |STATIC_ASSETS| ensures urls[i] != urls[j] {
      assert urls[i][|origin|..] == STATIC_ASSETS[i];
      assert urls[j][|origin|..] == STATIC_ASSETS[j];
    }
  }

  /** Install succeeds exactly when every static asset is fetched with an accepted status. */
  lemma InstallAcceptsIff(origin: string, network: Network)
    ensures AddAllAccepts(StaticUrls(origin), network) <==>
            forall k :: 0 <= k < |STATIC_ASSETS| ==>
              network(StaticUrls(origin)[k]).Ok? && OkStatus(network(StaticUrls(origin)[k]).response.status)
  {
    StaticUrlsDistinct(origin);
  }

  /**
   * Bumping the version orphans the old caches: the static and dynamic
   * caches of any other `lp-portfolio-` version are deleted by `activate`.
   */
  lemma OtherVersionsAreStale(version: string)
    requires StartsWith(version, CACHE_PREFIX) && version != CACHE_VERSION
    ensures IsStale(version + "-static") && IsStale(version + "-dynamic")
  {
    var s, d := version + "-static", version + "-dynamic";
    assert s[..|CACHE_PREFIX|] == version[..|CACHE_PREFIX|];
    assert d[..|CACHE_PREFIX|] == version[..|CACHE_PREFIX|];
    // equal names would have equal versions in front of the suffix ...
    assert s[..|s| - 7] == version && STATIC_CACHE[..|STATIC_CACHE| - 7] == CACHE_VERSION;
    assert d[..|d| - 8] == version && DYNAMIC_CACHE[..|DYNAMIC_CACHE| - 8] == CACHE_VERSION;
    // ... and a static name differs from a dynamic one seven characters from the end
    assert s[|s| - 7] == '-' && DYNAMIC_CACHE[|DYNAMIC_CACHE| - 7] == 'd';
    assert d[|d| - 7] == 'd' && STATIC_CACHE[|STATIC_CACHE| - 7] == '-';
  }

  /** Caches under any other naming scheme survive `activate`, and so do the current two. */
  lemma ForeignCachesSurvive(name: string)
    ensures !StartsWith(name, CACHE_PREFIX) ==> !IsStale(name)
    ensures !IsStale(STATIC_CACHE) && !IsStale(DYNAMIC_CACHE)
    ensures !IsStale("workbox-precache-v2") && IsStale("lp-portfolio-v2.0-static")
  {
    assert "workbox-precache-v2"[0] != CACHE_PREFIX[0];
    var previous := "lp-portfolio-v2.0-static";
    assert previous[..|CACHE_PREFIX|] == CACHE_PREFIX;
    assert previous[16] != STATIC_CACHE[16] && previous[16] != DYNAMIC_CACHE[16];
  }

  /** After a successful `addAll(STATIC_ASSETS)` the static cache answers every asset URL with its fetched response. */
  lemma StaticCacheHoldsAssets(es: seq<Entry>, origin: string, network: Network)
    requires AddAllAccepts(StaticUrls(origin), network)
    ensures forall k :: 0 <= k < |STATIC_ASSETS| ==>
              Lookup(PutAll(es, Fetched(StaticUrls(origin), network)), StaticUrls(origin)[k])
                == Some(network(StaticUrls(origin)[k]).response)
  {
    var urls := StaticUrls(origin);
    var ps := Fetched(urls, network);
    assert DistinctUrls(ps) by {
      forall i, j | 0 <= i < j < |ps| ensures ps[i].url != ps[j].url {
        assert ps[i].url == urls[i] && ps[j].url == urls[j];
      }
    }
    PutAllStores(es, ps);
    forall k | 0 <= k < |STATIC_ASSETS|
      ensures Lookup(PutAll(es, ps), urls[k]) == Some(network(urls[k]).response)
    {
      assert ps[k] == Entry(urls[k], network(urls[k]).response);
    }
  }

  /** The names `activate` keeps, in their order. */
  function Kept(names: seq<string>): seq<string> {
    if names == [] then []
    else (if IsStale(names[0]) then [] else [names[0]]) + Kept(names[1..])
  }

  /** The deletions `activate` issues, one per stale name, in order. */
  function Deletions(names: seq<string>): seq<Effect> {
    if names == [] then []
    else (if IsStale(names[0]) then [CacheDeleted(names[0])] else []) + Deletions(names[1..])
  }

  /** The cache names among `names` that `activate` deletes. */
  function StaleIn(names: seq<string>): set<string> {
    set n | n in names && IsStale(n)
  }

  /** `activate` keeps exactly the names that are not stale, each once. */
  lemma {:induction false} KeptMembers(names: seq<string>)
    ensures forall n :: n in Kept(names) <==> n in names && !IsStale(n)
    ensures |Kept(names)| <= |names|
  {
    if names != [] {
      KeptMembers(names[1..]);
      assert names == [names[0]] + names[1..];
    }
  }

  /** `activate` issues one deletion for each stale name and nothing else. */
  lemma {:induction false} DeletionsMembers(names: seq<string>)
    ensures forall e :: e in Deletions(names) <==> e.CacheDeleted? && e.name in names && IsStale(e.name)
  {
    if names != [] {
      DeletionsMembers(names[1..]);
      assert names == [names[0]] + names[1..];
    }
  }

  /** One name visited by the activate handler: the kept names advance past it. */
  lemma KeptStep(all: seq<string>, kept: seq<string>, rest: seq<string>)
    requires rest != [] && Kept(all) == kept + Kept(rest)
    ensures IsStale(rest[0]) ==> Kept(all) == kept + Kept(rest[1..])
    ensures !IsStale(rest[0]) ==> Kept(all) == (kept + [rest[0]]) + Kept(rest[1..])
  {
    var k := Kept(rest[1..]);
    if IsStale(rest[0]) {
      assert Kept(rest) == k;
    } else {
      assert Kept(rest) == [rest[0]] + k;
      assert kept + ([rest[0]] + k) == (kept + [rest[0]]) + k;
    }
  }

  /** One name visited by the activate handler: the deletions issued so far advance past it. */
  lemma DeletionsStep(all: seq<string>, rest: seq<string>, logged: seq<Effect>, start: seq<Effect>)
    requires rest != [] && logged + Deletions(rest) == start + Deletions(all)
    ensures IsStale(rest[0]) ==> (logged + [CacheDeleted(rest[0])]) + Deletions(rest[1..]) == start + Deletions(all)
    ensures !IsStale(rest[0]) ==> logged + Deletions(rest[1..]) == start + Deletions(all)
  {
    var d := Deletions(rest[1..]);
    var here: seq<Effect> := if IsStale(rest[0]) then [CacheDeleted(rest[0])] else [];
    assert Deletions(rest) == here + d;
    assert logged + (here + d) == (logged + here) + d;
    if !IsStale(rest[0]) {
      assert logged + here == logged;
    }
  }

  /** One name visited by the activate handler: the names deleted so far advance past it. */
  lemma StaleStep(all: seq<string>, rest: seq<string>, gone: set<string>)
    requires rest != [] && gone + StaleIn(rest) == StaleIn(all)
    ensures IsStale(rest[0]) ==> (gone + {rest[0]}) + StaleIn(rest[1..]) == StaleIn(all)
    ensures !IsStale(rest[0]) ==> gone + StaleIn(rest[1..]) == StaleIn(all)
  {
    assert rest == [rest[0]] + rest[1..];
    if IsStale(rest[0]) {
      assert StaleIn(rest) == {rest[0]} + StaleIn(rest[1..]);
    } else {
      assert StaleIn(rest) == StaleIn(rest[1..]);
    }
  }

  /** Deleting the oldest entry of an over-full cache leaves its trimmed form unchanged. */
  lemma TrimmedDropOldest(es: seq<Entry>, maxSize: nat)
    requires |es| > maxSize && DistinctUrls(es)
    ensures Without(es, es[0].url) == es[1..]
    ensures Trimmed(es[1..], maxSize) == Trimmed(es, maxSize)
  {
    WithoutHead(es);
  }

  lemma UpdateTwice<K, V>(m: map<K, V>, k: K, a: V, b: V)
    ensures m[k := a][k := b] == m[k := b]
  {
  }

  lemma RemoveOneMore<K, V>(m: map<K, V>, gone: set<K>, k: K)
    ensures m - gone - {k} == m - (gone + {k})
  {
  }

  lemma DistinctAround(a: seq<string>, name: string, b: seq<string>, names: seq<string>)
    requires names == a + [name] + b
    requires forall i, j :: 0 <= i < j < |names| ==> names[i] != names[j]
    ensures name !in a && name !in b
  {
    forall k | 0 <= k < |a| ensures a[k] != name {
      assert names[k] == a[k] && names[|a|] == name;
    }
    forall k | 0 <= k < |b| ensures b[k] != name {
      assert names[|a| + 1 + k] == b[k] && names[|a|] == name;
    }
  }

  /** One `NetworkFetch` effect per URL, in order. */
  function FetchEffects(urls: seq<string>): (r: seq<Effect>)
    ensures |r| == |urls| && forall k :: 0 <= k < |urls| ==> r[k] == NetworkFetch(urls[k])
  {
    if urls == [] then [] else [NetworkFetch(urls[0])] + FetchEffects(urls[1..])
  }

  /** The message the page posts to activate a waiting worker at once. */
  function IsSkipWaiting(data: Option<MessageData>): (b: bool)
    ensures b <==> data == Some(MessageData(Some("SKIP_WAITING")))
  {
    data.Some? && data.value.messageType == Some("SKIP_WAITING")
  }

  class ServiceWorker {
    /** `location.origin` of the worker script. */
    const origin: string
    /** The `caches` global. */
    const caches: CacheStorage
    /** Effects issued so far, oldest first. */
    var log: seq<Effect>

    ghost predicate Valid()
      reads this, caches
    {
      caches.Valid()
    }

    constructor (origin: string, caches: CacheStorage)
      requires caches.Valid()
      ensures Valid() && this.origin == origin && this.caches == caches && log == []
    {
      this.origin, this.caches, log := origin, caches, [];
    }

    /**
     * `limitCacheSize(cacheName, maxSize)`: opens the cache, then deletes
     * `keys[0]` for as long as there are more than `maxSize` keys.
     */
    method LimitCacheSize(cacheName: string, maxSize: nat)
      requires Valid()
      modifies caches
      ensures Valid()
      ensures caches.names == Opened(old(caches.names), cacheName)
      ensures caches.store == old(caches.store)[cacheName := Trimmed(old(caches.EntriesOf(cacheName)), maxSize)]
    {
      caches.Open(cacheName);
      ghost var start := caches.store[cacheName];
      ghost var names := caches.names;
      var keys := caches.Keys(cacheName);
      while |keys| > maxSize
        invariant caches.Valid() && cacheName in caches.store
        invariant caches.names == names
        invariant caches.store == old(caches.store)[cacheName := caches.store[cacheName]]
        invariant keys == caches.Keys(cacheName)
        invariant Trimmed(caches.store[cacheName], maxSize) == Trimmed(start, maxSize)
        decreases |keys|
      {
        ghost var es := caches.store[cacheName];
        TrimmedDropOldest(es, maxSize);
        var deleted := caches.DeleteEntry(cacheName, keys[0]);
        UpdateTwice(old(caches.store), cacheName, es, es[1..]);
        keys := caches.Keys(cacheName);
      }
    }

    /** The store branch of the fetch handler: `put` a copy in DYNAMIC_CACHE, then `limitCacheSize`. */
    method StoreInDynamic(url: string, response: Response)
      requires Valid()
      modifies caches
      ensures Valid()
      ensures caches.names == Opened(old(caches.names), DYNAMIC_CACHE)
      ensures caches.store == old(caches.store)[DYNAMIC_CACHE :=
                Trimmed(PutEntry(old(caches.EntriesOf(DYNAMIC_CACHE)), Entry(url, response)), MAX_DYNAMIC_CACHE_SIZE)]
    {
      ghost var store0, before := caches.store, caches.EntriesOf(DYNAMIC_CACHE);
      ghost var stored := PutEntry(before, Entry(url, response));
      caches.Open(DYNAMIC_CACHE);
      assert caches.store == store0[DYNAMIC_CACHE := before];
      caches.Put(DYNAMIC_CACHE, url, response);
      UpdateTwice(store0, DYNAMIC_CACHE, before, stored);
      assert caches.store == store0[DYNAMIC_CACHE := stored];
      ghost var names := caches.names;
      assert DYNAMIC_CACHE in names && Opened(names, DYNAMIC_CACHE) == names;
      LimitCacheSize(DYNAMIC_CACHE, MAX_DYNAMIC_CACHE_SIZE);
      UpdateTwice(store0, DYNAMIC_CACHE, stored, Trimmed(stored, MAX_DYNAMIC_CACHE_SIZE));
    }

    /**
     * The install handler: open STATIC_CACHE, `addAll(STATIC_ASSETS)`, and
     * call `skipWaiting` only if that succeeded. The cache is opened (and so
     * created) even when `addAll` fails, but nothing is written to it then.
     */
    method Install(network: Network) returns (ok: bool)
      requires Valid()
      modifies this, caches
      ensures Valid()
      ensures ok == AddAllAccepts(StaticUrls(origin), network)
      ensures caches.names == Opened(old(caches.names), STATIC_CACHE)
      ensures ok ==> caches.store == old(caches.store)[STATIC_CACHE :=
                       PutAll(old(caches.EntriesOf(STATIC_CACHE)), Fetched(StaticUrls(origin), network))]
      ensures !ok ==> caches.store == old(caches.store)[STATIC_CACHE := old(caches.EntriesOf(STATIC_CACHE))]
      ensures log == old(log) + FetchEffects(StaticUrls(origin)) + if ok then [SkipWaitingCalled] else []
    {
      ok := Precache(STATIC_CACHE, StaticUrls(origin), network);
      if ok {
        log := log + [SkipWaitingCalled];
      }
    }

    /** `caches.open(name)` followed by `cache.addAll(urls)`, with one network fetch logged per URL. */
    method Precache(name: string, urls: seq<string>, network: Network) returns (ok: bool)
      requires Valid()
      modifies this, caches
      ensures Valid()
      ensures ok == AddAllAccepts(urls, network)
      ensures caches.names == Opened(old(caches.names), name)
      ensures ok ==> caches.store == old(caches.store)[name := PutAll(old(caches.EntriesOf(name)), Fetched(urls, network))]
      ensures !ok ==> caches.store == old(caches.store)[name := old(caches.EntriesOf(name))]
      ensures log == old(log) + FetchEffects(urls)
    {
      ghost var store0, before := caches.store, caches.EntriesOf(name);
      caches.Open(name);
      assert caches.store == store0[name := before];
      ok := caches.AddAll(name, urls, network);
      if ok {
        UpdateTwice(store0, name, before, PutAll(before, Fetched(urls, network)));
      }
      log := log + FetchEffects(urls);
    }

    /** One deletion of the activate handler, logged; `name` sits between the names already kept and those still to visit. */
    method DeleteStale(ghost kept: seq<string>, name: string, ghost rest: seq<string>)
      requires caches.Valid() && caches.names == kept + rest && rest != [] && rest[0] == name
      modifies this, caches
      ensures caches.Valid()
      ensures caches.names == kept + rest[1..]
      ensures caches.store == old(caches.store) - {name}
      ensures log == old(log) + [CacheDeleted(name)]
    {
      assert caches.names == kept + [name] + rest[1..];
      DistinctAround(kept, name, rest[1..], caches.names);
      EraseMiddle(kept, name, rest[1..]);
      var deleted := caches.Delete(name);
      log := log + [CacheDeleted(name)];
    }

    /**
     * The activate handler: delete every cache whose name starts with
     * `lp-portfolio-` and is neither STATIC_CACHE nor DYNAMIC_CACHE, then
     * call `clients.claim`.
     */
    method Activate()
      requires Valid()
      modifies this, caches
      ensures Valid()
      ensures caches.names == Kept(old(caches.names))
      ensures caches.store == old(caches.store) - StaleIn(old(caches.names))
      ensures log == old(log) + Deletions(old(caches.names)) + [ClientsClaimed]
    {
      var cacheNames, rest := caches.names, caches.names;
      ghost var store0, log0, kept, gone := caches.store, log, [], {};
      while rest != []
        invariant caches.Valid()
        invariant caches.names == kept + rest
        invariant Kept(cacheNames) == kept + Kept(rest)
        invariant log + Deletions(rest) == log0 + Deletions(cacheNames)
        invariant caches.store == store0 - gone
        invariant gone + StaleIn(rest) == StaleIn(cacheNames)
        decreases |rest|
      {
        var name := rest[0];
        KeptStep(cacheNames, kept, rest);
        DeletionsStep(cacheNames, rest, log, log0);
        StaleStep(cacheNames, rest, gone);
        if IsStale(name) {
          DeleteStale(kept, name, rest);
          RemoveOneMore(store0, gone, name);
          gone := gone + {name};
        } else {
          kept := kept + [name];
        }
        rest := rest[1..];
      }
      assert Kept(rest) == [] && Deletions(rest) == [] && StaleIn(rest) == {};
      assert kept == Kept(cacheNames) && gone == StaleIn(cacheNames);
      assert log == log0 + Deletions(cacheNames);
      log := log + [ClientsClaimed];
    }

    /**
     * The fetch handler, run to completion: the lookup, at most one network
     * fetch, and for a stored response the `put` and `limitCacheSize` that
     * the source starts without waiting for them.
     */
    method HandleFetch(req: Request, network: Network) returns (res: FetchResult)
      requires Valid()
      modifies this, caches
      ensures Valid()
      ensures var cached := old(caches.Match(req.url));
              var d := Route(req, origin, cached, network(req.url), old(caches.Match(AssetUrl(origin, APP_SHELL))));
              && res == d.result
              && log == old(log) + (if NeedsNetwork(req, cached) then [NetworkFetch(req.url)] else [])
              && (d.store ==>
                    && caches.names == Opened(old(caches.names), DYNAMIC_CACHE)
                    && caches.store == old(caches.store)[DYNAMIC_CACHE :=
                         Trimmed(PutEntry(old(caches.EntriesOf(DYNAMIC_CACHE)), Entry(req.url, network(req.url).response)),
                                 MAX_DYNAMIC_CACHE_SIZE)])
              && (!d.store ==> caches.names == old(caches.names) && caches.store == old(caches.store))
    {
      if req.httpMethod != "GET" {
        return NotIntercepted;
      }
      var cached := caches.Match(req.url);
      if cached.Some? {
        return Responded(cached);
      }
      log := log + [NetworkFetch(req.url)];
      var net := network(req.url);
      if req.origin == origin {
        match net
        case Ok(resp) =>
          if resp.status == 200 {
            StoreInDynamic(req.url, resp);
          }
          res := Responded(Some(resp));
        case Fail =>
          if req.destination == "document" {
            var shell := caches.Match(AssetUrl(origin, APP_SHELL));
            res := Responded(shell);
          } else {
            res := Responded(None);
          }
      } else {
        match net
        case Ok(resp) =>
          if resp.status == 200 && CacheableCrossOrigin(req.url) {
            StoreInDynamic(req.url, resp);
          }
          res := Responded(Some(resp));
        case Fail =>
          res := Responded(cached);
      }
    }

    /** The message handler: `skipWaiting` for `{ type: 'SKIP_WAITING' }`, nothing otherwise. */
    method OnMessage(data: Option<MessageData>)
      modifies this
      ensures log == old(log) + if IsSkipWaiting(data) then [SkipWaitingCalled] else []
    {
      if IsSkipWaiting(data) {
        log := log + [SkipWaitingCalled];
      }
    }
  }
}
