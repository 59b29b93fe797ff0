/**
 * The Cache Storage the service worker works on (the `caches` global and
 * the `Cache` objects `caches.open` hands out), reduced to what the worker
 * uses. A cache is the list of its request/response entries in insertion
 * order, the oldest first, as section 5.4 of the W3C Service Workers
 * specification keeps them; `cache.keys()[0]` is therefore the oldest entry.
 * Entries are keyed by the request URL: only GET requests reach the cache.
 */
module Caches {
  import opened JsBase

  /** A response. `clone()` is a value copy, so one record stands for both copies. */
  datatype Response = Response(status: int, body: string)

  /** One request/response pair of a cache. */
  datatype Entry = Entry(url: string, response: Response)

  /** What `fetch(url)` settles to: a response of any status, or a rejection. */
  datatype NetResult = Ok(response: Response) | Fail

  /** The network, as an oracle from URL to outcome. */
  type Network = string -> NetResult

  /** The URLs of the entries, in order: `cache.keys()`. */
  function Urls(es: seq<Entry>): seq<string> {
    seq(|es|, i requires 0 <= i < |es| => es[i].url)
  }

  /** No URL is stored twice: `put` replaces, and `addAll` refuses duplicates. */
  predicate DistinctUrls(es: seq<Entry>) {
    forall i, j :: 0 <= i < j < |es| ==> es[i].url != es[j].url
  }

  lemma UrlsCons(es: seq<Entry>)
    requires es != []
    ensures Urls(es) == [es[0].url] + Urls(es[1..])
  {
  }

  lemma UrlsConcat(a: seq<Entry>, b: seq<Entry>)
    ensures Urls(a + b) == Urls(a) + Urls(b)
  {
  }

  lemma DistinctSuffix(es: seq<Entry>, k: nat)
    requires k <= |es| && DistinctUrls(es)
    ensures DistinctUrls(es[k..])
  {
    forall i, j | 0 <= i < j < |es| - k
      ensures es[k..][i].url != es[k..][j].url
    {
      assert es[k..][i] == es[k + i] && es[k..][j] == es[k + j];
    }
  }

  /** `cache.match(url)`: the response stored under `url`, if any. */
  function Lookup(es: seq<Entry>, url: string): (r: Option<Response>)
    ensures r.Some? <==> url in Urls(es)
    ensures r.Some? ==> Entry(url, r.value) in es
  {
    if es == [] then None
    else
      UrlsCons(es);
      if es[0].url == url then Some(es[0].response) else Lookup(es[1..], url)
  }

  lemma {:induction false} LookupConcat(a: seq<Entry>, b: seq<Entry>, url: string)
    ensures Lookup(a + b, url) == if url in Urls(a) then Lookup(a, url) else Lookup(b, url)
  {
    if a == [] {
      assert a + b == b;
    } else {
      UrlsCons(a);
      assert (a + b)[0] == a[0];
      assert (a + b)[1..] == a[1..] + b;
      if a[0].url != url {
        LookupConcat(a[1..], b, url);
      }
    }
  }

  /** The entries of `es` not stored under `url`, in their order: `cache.delete(url)`. */
  function Without(es: seq<Entry>, url: string): (r: seq<Entry>)
    ensures url !in Urls(r)
    ensures forall e :: e in r <==> e in es && e.url != url
    ensures forall u :: u in Urls(r) ==> u in Urls(es)
    ensures DistinctUrls(es) ==> DistinctUrls(r)
  {
    if es == [] then []
    else
      var rest := Without(es[1..], url);
      UrlsCons(es);
      if es[0].url == url then rest
      else
        var r := [es[0]] + rest;
        UrlsCons(r);
        assert DistinctUrls(es) ==> DistinctUrls(es[1..]) && es[0].url !in Urls(es[1..]);
        r
  }

  /** Deleting a URL keeps the surviving entries in their order: it distributes over concatenation. */
  lemma {:induction false} WithoutConcat(a: seq<Entry>, b: seq<Entry>, url: string)
    ensures Without(a + b, url) == Without(a, url) + Without(b, url)
  {
    if a == [] {
      assert a + b == b;
    } else {
      assert (a + b)[0] == a[0] && (a + b)[1..] == a[1..] + b;
      WithoutConcat(a[1..], b, url);
    }
  }

  lemma {:induction false} WithoutAbsent(es: seq<Entry>, url: string)
    requires url !in Urls(es)
    ensures Without(es, url) == es
  {
    if es != [] {
      UrlsCons(es);
      WithoutAbsent(es[1..], url);
      assert es[0].url != url;
      assert Without(es, url) == [es[0]] + es[1..];
    }
  }

  /** In a cache without duplicate URLs, deleting the first entry's URL drops exactly that entry. */
  lemma WithoutHead(es: seq<Entry>)
    requires es != [] && DistinctUrls(es)
    ensures Without(es, es[0].url) == es[1..]
  {
    UrlsCons(es);
    assert es[0].url !in Urls(es[1..]) by {
      forall j | 0 <= j < |es| - 1 ensures Urls(es[1..])[j] != es[0].url {
        assert es[1..][j] == es[j + 1];
      }
    }
    WithoutAbsent(es[1..], es[0].url);
  }

  lemma {:induction false} LookupWithout(es: seq<Entry>, url: string, u: string)
    requires u != url
    ensures Lookup(Without(es, url), u) == Lookup(es, u)
  {
    if es != [] {
      LookupWithout(es[1..], url, u);
    }
  }

  /**
   * `cache.put(url, response)`: any entry stored under `url` is dropped and
   * the new one is appended as the newest.
   */
  function PutEntry(es: seq<Entry>, e: Entry): (r: seq<Entry>)
    ensures Lookup(r, e.url) == Some(e.response)
    ensures forall u :: u != e.url ==> Lookup(r, u) == Lookup(es, u)
    ensures r[|r| - 1] == e
    ensures DistinctUrls(es) ==> DistinctUrls(r)
  {
    var rest := Without(es, e.url);
    var r := rest + [e];
    LookupConcat(rest, [e], e.url);
    forall u | u != e.url ensures Lookup(r, u) == Lookup(es, u) {
      LookupConcat(rest, [e], u);
      LookupWithout(es, e.url, u);
    }
    UrlsConcat(rest, [e]);
    r
  }

  /** Putting an entry under a URL not yet stored appends it. */
  lemma PutEntryFresh(es: seq<Entry>, e: Entry)
    requires e.url !in Urls(es)
    ensures PutEntry(es, e) == es + [e]
  {
    WithoutAbsent(es, e.url);
  }

  /** The puts of `addAll`, one after another. */
  function PutAll(es: seq<Entry>, ps: seq<Entry>): (r: seq<Entry>)
    ensures DistinctUrls(es) ==> DistinctUrls(r)
    decreases |ps|
  {
    if ps == [] then es else PutAll(PutEntry(es, ps[0]), ps[1..])
  }

  /**
   * After the puts of distinct URLs, each URL holds its own response and
   * every other URL is as before.
   */
  lemma {:induction false} PutAllStores(es: seq<Entry>, ps: seq<Entry>)
    requires DistinctUrls(ps)
    ensures forall k :: 0 <= k < |ps| ==> Lookup(PutAll(es, ps), ps[k].url) == Some(ps[k].response)
    ensures forall u :: u !in Urls(ps) ==> Lookup(PutAll(es, ps), u) == Lookup(es, u)
    decreases |ps|
  {
    if ps != [] {
      var es' := PutEntry(es, ps[0]);
      DistinctSuffix(ps, 1);
      PutAllStores(es', ps[1..]);
      UrlsCons(ps);
      forall k | 0 <= k < |ps| ensures Lookup(PutAll(es, ps), ps[k].url) == Some(ps[k].response) {
        if k > 0 {
          assert ps[1..][k - 1] == ps[k];
        } else {
          assert ps[0].url !in Urls(ps[1..]) by {
            forall j | 0 <= j < |ps| - 1 ensures Urls(ps[1..])[j] != ps[0].url {
              assert ps[1..][j] == ps[j + 1];
            }
          }
        }
      }
    }
  }

  /** The status values `addAll` accepts: an ok status (200 to 299) other than 206. */
  function OkStatus(status: int): (b: bool)
    // a 200, the only status the worker stores, is always accepted
    ensures status == 200 ==> b
    // `response.ok`, but not a partial response
    ensures b ==> 200 <= status <= 299 && status != 206
  {
    200 <= status <= 299 && status != 206
  }

  /**
   * `addAll(urls)` succeeds exactly when every fetch resolves with an
   * accepted status and no URL is listed twice.
   */
  function AddAllAccepts(urls: seq<string>, network: Network): (b: bool)
    ensures b ==> forall i :: 0 <= i < |urls| ==> network(urls[i]).Ok?
    ensures b ==> forall i, j :: 0 <= i < j < |urls| ==> urls[i] != urls[j]
  {
    && (forall i :: 0 <= i < |urls| ==> network(urls[i]).Ok? && OkStatus(network(urls[i]).response.status))
    && (forall i, j :: 0 <= i < j < |urls| ==> urls[i] != urls[j])
  }

  /** The entries `addAll` writes, in the order of `urls`. */
  function Fetched(urls: seq<string>, network: Network): (ps: seq<Entry>)
    requires forall i :: 0 <= i < |urls| ==> network(urls[i]).Ok?
  {
    seq(|urls|, i requires 0 <= i < |urls| => Entry(urls[i], network(urls[i]).response))
  }

  /**
   * What `limitCacheSize` leaves of a cache: while it holds more than
   * `maxSize` entries, the first (oldest) one is deleted.
   */
  function Trimmed<T>(es: seq<T>, maxSize: nat): (r: seq<T>)
    ensures |r| == if |es| > maxSize then maxSize else |es|
  {
    if |es| > maxSize then Trimmed(es[1..], maxSize) else es
  }

  /** The last `n` elements of `s` (all of `s` when it is shorter). */
  function Newest<T>(s: seq<T>, n: nat): (r: seq<T>)
    ensures |r| <= n
  {
    if |s| <= n then s else s[|s| - n..]
  }

  /**
   * Eviction one oldest entry at a time ends with exactly the newest
   * `maxSize` entries in their original order; a cache already within the
   * bound loses nothing.
   */
  lemma {:induction false} TrimmedKeepsNewest<T>(es: seq<T>, maxSize: nat)
    ensures Trimmed(es, maxSize) == Newest(es, maxSize)
    ensures |es| <= maxSize ==> Trimmed(es, maxSize) == es
    ensures |Trimmed(es, maxSize)| == if |es| <= maxSize then |es| else maxSize
  {
    if |es| > maxSize {
      var tail := es[1..];
      TrimmedKeepsNewest(tail, maxSize);
      assert Trimmed(es, maxSize) == Trimmed(tail, maxSize);
      if |tail| > maxSize {
        assert tail[|tail| - maxSize..] == es[|es| - maxSize..];
      } else {
        assert |tail| == maxSize;
        assert tail == es[|es| - maxSize..];
      }
    }
  }

  lemma NewestOfSuffix<T>(s: seq<T>, k: nat, n: nat)
    requires k <= |s| && (k == 0 || |s| - k >= n)
    ensures Newest(s[k..], n) == Newest(s, n)
  {
    if k > 0 {
      assert s[k..][|s| - k - n..] == s[|s| - n..];
    }
  }

  /** Entries put one after another, each put followed by `limitCacheSize`. */
  function InsertBounded(c: seq<Entry>, es: seq<Entry>, maxSize: nat): seq<Entry>
    decreases |es|
  {
    if es == [] then c else InsertBounded(Trimmed(PutEntry(c, es[0]), maxSize), es[1..], maxSize)
  }

  /**
   * Inserting fresh, distinct URLs into a cache within its bound, evicting
   * after each insert, leaves exactly the `maxSize` newest entries: the
   * oldest ones are the ones missing.
   */
  lemma FreshHead(c: seq<Entry>, es: seq<Entry>)
    requires es != [] && DistinctUrls(c + es)
    ensures es[0].url !in Urls(c)
  {
    forall j | 0 <= j < |c| ensures Urls(c)[j] != es[0].url {
      assert (c + es)[j] == c[j] && (c + es)[|c|] == es[0];
    }
  }

  lemma InsertFirst(c: seq<Entry>, es: seq<Entry>, maxSize: nat)
    requires es != [] && es[0].url !in Urls(c)
    ensures InsertBounded(c, es, maxSize) == InsertBounded(Newest(c + [es[0]], maxSize), es[1..], maxSize)
  {
    PutEntryFresh(c, es[0]);
    TrimmedKeepsNewest(c + [es[0]], maxSize);
  }

  lemma NewestThenRest(c: seq<Entry>, es: seq<Entry>, maxSize: nat)
    requires es != [] && DistinctUrls(c + es)
    ensures DistinctUrls(Newest(c + [es[0]], maxSize) + es[1..])
    ensures Newest(Newest(c + [es[0]], maxSize) + es[1..], maxSize) == Newest(c + es, maxSize)
  {
    var x := c + [es[0]];
    var c' := Newest(x, maxSize);
    var k := |x| - |c'|;
    assert c' == x[k..];
    assert x + es[1..] == c + es;
    assert c' + es[1..] == (c + es)[k..];
    DistinctSuffix(c + es, k);
    NewestOfSuffix(c + es, k, maxSize);
  }

  lemma {:induction false} BoundedInsertsKeepNewest(c: seq<Entry>, es: seq<Entry>, maxSize: nat)
    requires DistinctUrls(c + es) && |c| <= maxSize
    ensures InsertBounded(c, es, maxSize) == Newest(c + es, maxSize)
    decreases |es|
  {
    if es == [] {
      assert c + es == c;
    } else {
      FreshHead(c, es);
      InsertFirst(c, es, maxSize);
      NewestThenRest(c, es, maxSize);
      BoundedInsertsKeepNewest(Newest(c + [es[0]], maxSize), es[1..], maxSize);
    }
  }

  /**
   * One insert more than the bound into an empty cache: the first entry is
   * evicted (a miss afterwards) and the others remain in insertion order.
   */
  lemma OverflowEvictsFirst(es: seq<Entry>, maxSize: nat)
    requires DistinctUrls(es) && |es| == maxSize + 1
    ensures InsertBounded([], es, maxSize) == es[1..]
    ensures Lookup(InsertBounded([], es, maxSize), es[0].url) == None
  {
    assert [] + es == es;
    BoundedInsertsKeepNewest([], es, maxSize);
    forall j | 0 <= j < |es| - 1 ensures Urls(es[1..])[j] != es[0].url {
      assert es[1..][j] == es[j + 1];
    }
  }

  /** With bound 2 and inserts A, B, C, only B and C remain, and A is a miss. */
  lemma BoundTwoKeepsLastTwo(a: Entry, b: Entry, c: Entry)
    requires a.url != b.url && a.url != c.url && b.url != c.url
    ensures InsertBounded([], [a, b, c], 2) == [b, c]
    ensures Lookup(InsertBounded([], [a, b, c], 2), a.url) == None
  {
    var es := [a, b, c];
    assert DistinctUrls(es) by {
      assert es[0].url == a.url && es[1].url == b.url && es[2].url == c.url;
    }
    OverflowEvictsFirst(es, 2);
    assert es[1..] == [b, c];
  }

  /** A name as it stands after `caches.open(name)` on the list `names`. */
  function Opened(names: seq<string>, name: string): (r: seq<string>)
    ensures name in r
    ensures |names| <= |r| <= |names| + 1 && r[..|names|] == names
    ensures name in names ==> r == names
  {
    if name in names then names else names + [name]
  }

  /** `names` with `name` taken out, the others in order: `caches.delete(name)`. */
  function Erase(names: seq<string>, name: string): (r: seq<string>)
    ensures forall n :: n in r <==> n in names && n != name
    ensures (forall i, j :: 0 <= i < j < |names| ==> names[i] != names[j]) ==>
            (forall i, j :: 0 <= i < j < |r| ==> r[i] != r[j])
  {
    if names == [] then []
    else
      var rest := Erase(names[1..], name);
      if names[0] == name then rest
      else
        var r := [names[0]] + rest;
        assert (forall i, j :: 0 <= i < j < |names| ==> names[i] != names[j]) ==> names[0] !in names[1..] by {
          assert forall i :: 0 < i < |names| ==> names[i] == names[1..][i - 1];
        }
        assert forall i :: 0 < i < |r| ==> r[i] == rest[i - 1];
        r
  }

  lemma {:induction false} EraseAbsent(names: seq<string>, name: string)
    requires name !in names
    ensures Erase(names, name) == names
  {
    if names != [] {
      EraseAbsent(names[1..], name);
    }
  }

  /** Erasing a name that occurs once, between `a` and `b`, leaves `a + b`. */
  lemma {:induction false} EraseMiddle(a: seq<string>, name: string, b: seq<string>)
    requires name !in a && name !in b
    ensures Erase(a + [name] + b, name) == a + b
  {
    if a == [] {
      assert a + [name] + b == [name] + b;
      assert ([name] + b)[1..] == b;
      EraseAbsent(b, name);
    } else {
      assert (a + [name] + b)[1..] == a[1..] + [name] + b;
      EraseMiddle(a[1..], name, b);
      assert [a[0]] + (a[1..] + b) == a + b;
    }
  }

  /** The first cache, in creation order, that holds `url`: `caches.match(url)`. */
  function MatchIn(names: seq<string>, store: map<string, seq<Entry>>, url: string): (r: Option<Response>)
    requires forall n :: n in names ==> n in store
    ensures r.None? <==> forall k :: 0 <= k < |names| ==> Lookup(store[names[k]], url).None?
    ensures r.Some? ==> exists k :: 0 <= k < |names| && Lookup(store[names[k]], url) == r &&
                                    forall j :: 0 <= j < k ==> Lookup(store[names[j]], url).None?
  {
    if names == [] then None
    else
      match Lookup(store[names[0]], url)
      case Some(resp) => Some(resp)
      case None =>
        var r := MatchIn(names[1..], store, url);
        assert forall k :: 0 < k < |names| ==> names[k] == names[1..][k - 1];
        r
  }

  /** The named caches of one origin. A cache handle is modelled by its name. */
  class CacheStorage {
    /** The cache names in creation order, as `caches.keys()` lists them. */
    var names: seq<string>
    /** The entries of each cache, oldest first. */
    var store: map<string, seq<Entry>>

    ghost predicate Valid()
      reads this
    {
      && (forall i, j :: 0 <= i < j < |names| ==> names[i] != names[j])
      && (forall n :: n in names <==> n in store)
      && (forall n :: n in store ==> DistinctUrls(store[n]))
    }

    constructor ()
      ensures Valid() && names == [] && store == map[]
    {
      names, store := [], map[];
    }

    /** The entries of cache `name`, or none when there is no such cache. */
    function EntriesOf(name: string): seq<Entry>
      reads this
    {
      if name in store then store[name] else []
    }

    /** `caches.open(name)`: an unknown name gets a new, empty cache. */
    method Open(name: string)
      requires Valid()
      modifies this
      ensures Valid()
      ensures names == Opened(old(names), name)
      ensures store == if name in old(store) then old(store) else old(store)[name := []]
    {
      if name !in store {
        names, store := names + [name], store[name := []];
      }
    }

    /** `cache.keys()` of an open cache. */
    function Keys(name: string): (keys: seq<string>)
      reads this
      requires name in store
      ensures |keys| == |store[name]|
      ensures forall k :: 0 <= k < |keys| ==> keys[k] == store[name][k].url
    {
      Urls(store[name])
    }

    /** `caches.match(url)`. */
    function Match(url: string): (r: Option<Response>)
      reads this
      requires Valid()
      ensures r.None? <==> forall k :: 0 <= k < |names| ==> Lookup(store[names[k]], url).None?
      ensures r.Some? ==> exists k :: 0 <= k < |names| && Lookup(store[names[k]], url) == r &&
                                      forall j :: 0 <= j < k ==> Lookup(store[names[j]], url).None?
    {
      MatchIn(names, store, url)
    }

    /** `cache.put(url, response)` on an open cache. */
    method Put(name: string, url: string, response: Response)
      requires Valid() && name in store
      modifies this
      ensures Valid() && names == old(names)
      ensures store == old(store)[name := PutEntry(old(store)[name], Entry(url, response))]
    {
      store := store[name := PutEntry(store[name], Entry(url, response))];
    }

    /** `cache.delete(url)` on an open cache; it reports whether anything was removed. */
    method DeleteEntry(name: string, url: string) returns (deleted: bool)
      requires Valid() && name in store
      modifies this
      ensures Valid() && names == old(names)
      ensures deleted == (url in Urls(old(store)[name]))
      ensures store == old(store)[name := Without(old(store)[name], url)]
    {
      deleted := url in Urls(store[name]);
      store := store[name := Without(store[name], url)];
    }

    /** `cache.addAll(urls)`: every URL fetched and stored, or nothing stored at all. */
    method AddAll(name: string, urls: seq<string>, network: Network) returns (ok: bool)
      requires Valid() && name in store
      modifies this
      ensures Valid() && names == old(names)
      ensures ok == AddAllAccepts(urls, network)
      ensures ok ==> store == old(store)[name := PutAll(old(store)[name], Fetched(urls, network))]
      ensures !ok ==> store == old(store)
    {
      ok := AddAllAccepts(urls, network);
      if ok {
        store := store[name := PutAll(store[name], Fetched(urls, network))];
      }
    }

    /** `caches.delete(name)`: drops a whole cache and reports whether it existed. */
    method Delete(name: string) returns (deleted: bool)
      requires Valid()
      modifies this
      ensures Valid()
      ensures deleted == (name in old(store))
      ensures names == Erase(old(names), name)
      ensures store == old(store) - {name}
    {
      deleted := name in store;
      names, store := Erase(names, name), store - {name};
    }
  }
}
