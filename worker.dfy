/** The service worker of public/sw.js: the cache storage it owns (named stores in creation
    order, each a map from request URL to response) and the event handlers that change it.
    The network is an oracle argument, and a ghost multiset records every URL sent to it. */
module ServiceWorker {
  import opened Text
  import opened Http
  import opened Strategies
  import opened Executors

  const CacheVersion: string := "v1"
  const CachePrefix: string := "blog-cache-"
  const CacheName: string := CachePrefix + CacheVersion
  const OfflineUrl: string := "/offline.html"
  /** The seed list, as paths relative to the worker's origin. */
  const StaticCacheUrls: seq<string> := ["/", "/blog", "/about", "/offline.html", "/favicon.ico"]
  const UpdateCacheTag: string := "update-cache"
  /** The response made up when a non-navigation request cannot be served: status 503. */
  const ServiceUnavailable: Response := Response(503, "Service Unavailable")

  /** A request as the fetch handler sees it; `origin` is the origin parsed from `url`. */
  datatype Request = Request(verb: string, url: string, origin: string, navigate: bool)

  /** What the fetch handler does with a request: leave it to the browser, answer it, or
      answer with nothing (`respondWith(undefined)`, a network error for the page). */
  datatype FetchReply = Unhandled | Reply(resp: Response) | NetworkError

  /** `event.data` of a message event, by its `type`. */
  datatype Message = SkipWaiting | CacheUrls(payload: seq<string>) | OtherMessage

  predicate Distinct(s: seq<string>) {
    forall i, j :: 0 <= i < j < |s| ==> s[i] != s[j]
  }

  /** The entries of a store, or none if it does not exist yet. */
  function StoreOf(stores: map<string, Entries>, name: string): Entries {
    if name in stores then stores[name] else map[]
  }

  // ---- caches.match ----

  /** `caches.match(url)`: the entry of the first store, in creation order, that has one;
      nothing exactly when no store holds the URL. */
  function FirstStored(names: seq<string>, stores: map<string, Entries>, url: string): (r: Option<Response>)
    ensures r.None? <==> forall i :: 0 <= i < |names| && names[i] in stores ==> url !in stores[names[i]]
  {
    if names == [] then None
    else if names[0] in stores && url in stores[names[0]] then Some(stores[names[0]][url])
    else
      assert forall i :: 1 <= i < |names| ==> names[i] == names[1..][i - 1];
      FirstStored(names[1..], stores, url)
  }

  /** What `caches.match` finds comes from the first store, in creation order, that holds
      the URL. */
  lemma {:induction false} FirstStoredSpec(names: seq<string>, stores: map<string, Entries>, url: string)
    ensures FirstStored(names, stores, url).Some? ==>
      exists i :: 0 <= i < |names| && names[i] in stores && url in stores[names[i]] &&
        FirstStored(names, stores, url).value == stores[names[i]][url] &&
        forall j :: 0 <= j < i && names[j] in stores ==> url !in stores[names[j]]
  {
    if names != [] {
      var r := FirstStored(names, stores, url);
      if names[0] in stores && url in stores[names[0]] {
        assert r.value == stores[names[0]][url];
      } else if r.Some? {
        FirstStoredSpec(names[1..], stores, url);
        var i :| 0 <= i < |names[1..]| && names[1..][i] in stores && url in stores[names[1..][i]] &&
          r.value == stores[names[1..][i]][url] &&
          forall j :: 0 <= j < i && names[1..][j] in stores ==> url !in stores[names[1..][j]];
        assert names[i + 1] == names[1..][i];
        assert forall j :: 1 <= j < i + 1 ==> names[j] == names[1..][j - 1];
      }
    }
  }

  // ---- activate ----

  /** A store that activate deletes: one of this blog's stores from another version. */
  predicate IsStale(name: string) {
    StartsWith(name, CachePrefix) && name != CacheName
  }

  /** The names that activate keeps, in their order. */
  function Survivors(names: seq<string>): (r: seq<string>)
    ensures |r| <= |names|
    ensures forall n :: n in r ==> !IsStale(n)
  {
    if names == [] then []
    else if IsStale(names[0]) then Survivors(names[1..])
    else [names[0]] + Survivors(names[1..])
  }

  lemma {:induction false} SurvivorsExactly(names: seq<string>, n: string)
    ensures n in Survivors(names) <==> n in names && !IsStale(n)
  {
    if names != [] {
      SurvivorsExactly(names[1..], n);
      assert names == [names[0]] + names[1..];
    }
  }

  lemma {:induction false} SurvivorsDistinct(names: seq<string>)
    requires Distinct(names)
    ensures Distinct(Survivors(names))
  {
    if names != [] {
      assert Distinct(names[1..]) by {
        forall i, j | 0 <= i < j < |names[1..]| ensures names[1..][i] != names[1..][j] {
          assert names[1..][i] == names[i + 1] && names[1..][j] == names[j + 1];
        }
      }
      SurvivorsDistinct(names[1..]);
      SurvivorsExactly(names[1..], names[0]);
      assert names[0] !in names[1..] by {
        forall i | 0 <= i < |names[1..]| ensures names[1..][i] != names[0] {
          assert names[1..][i] == names[i + 1];
        }
      }
    }
  }

  /** The current store and every store of another application survive; every other store
      of this blog goes. */
  lemma ActivateExample()
    ensures Survivors(["blog-cache-v0", "blog-cache-v1", "other-cache"]) == ["blog-cache-v1", "other-cache"]
  {
    var s := ["blog-cache-v0", "blog-cache-v1", "other-cache"];
    assert s[0][..|CachePrefix|] == CachePrefix && s[0][12] != CacheName[12];
    assert s[1] == CacheName;
    assert !StartsWith(s[2], CachePrefix) by { assert s[2][0] != CachePrefix[0]; }
    assert s[1..][1..][1..] == [];
  }

  /** `names` without `name`. */
  function Without(names: seq<string>, name: string): (r: seq<string>)
    ensures forall n :: n in r <==> n in names && n != name
  {
    if names == [] then []
    else if names[0] == name then Without(names[1..], name)
    else [names[0]] + Without(names[1..], name)
  }

  lemma {:induction false} WithoutAppend(a: seq<string>, b: seq<string>, name: string)
    ensures Without(a + b, name) == Without(a, name) + Without(b, name)
  {
    if a == [] {
      assert a + b == b;
    } else {
      assert (a + b)[1..] == a[1..] + b;
      WithoutAppend(a[1..], b, name);
    }
  }

  lemma {:induction false} WithoutAbsent(a: seq<string>, name: string)
    requires name !in a
    ensures Without(a, name) == a
  {
    if a != [] {
      WithoutAbsent(a[1..], name);
    }
  }

  // ---- install ----

  /** The seed list resolved against the worker's origin. */
  function Seeds(origin: string): (r: seq<string>)
    ensures |r| == |StaticCacheUrls|
    ensures forall i :: 0 <= i < |r| ==> r[i] == origin + StaticCacheUrls[i]
  {
    seq(|StaticCacheUrls|, i requires 0 <= i < |StaticCacheUrls| => origin + StaticCacheUrls[i])
  }

  /** The seed list has no duplicate, so `addAll` cannot reject it for one. */
  lemma SeedsDistinct(origin: string)
    ensures Distinct(Seeds(origin))
  {
    var r := Seeds(origin);
    forall i, j | 0 <= i < j < |r| ensures r[i] != r[j] {
      var n := |origin|;
      assert r[i][n..] == StaticCacheUrls[i];
      assert r[j][n..] == StaticCacheUrls[j];
    }
  }

  /** The entries after `cache.put` of each URL in turn, with the network's response. */
  function PutAll(e: Entries, urls: seq<string>, net: string -> NetResult): (r: Entries)
    requires forall i :: 0 <= i < |urls| ==> FetchedOk(net(urls[i]))
    ensures r.Keys == e.Keys + set u | u in urls
  {
    if urls == [] then e
    else
      var last := urls[|urls| - 1];
      assert FetchedOk(net(last));
      PutAll(e, urls[..|urls| - 1], net)[last := net(last).resp]
  }

  lemma PutAllSnoc(e: Entries, urls: seq<string>, k: nat, net: string -> NetResult)
    requires k < |urls| && forall i :: 0 <= i < |urls| ==> FetchedOk(net(urls[i]))
    ensures PutAll(e, urls[..k + 1], net) == PutAll(e, urls[..k], net)[urls[k] := net(urls[k]).resp]
  {
    assert urls[..k + 1][..k] == urls[..k];
  }

  /** Putting a list adds exactly its URLs, each with its response, and keeps every other
      entry. */
  lemma {:induction false} PutAllSpec(e: Entries, urls: seq<string>, net: string -> NetResult)
    requires forall i :: 0 <= i < |urls| ==> FetchedOk(net(urls[i]))
    ensures PutAll(e, urls, net).Keys == e.Keys + set u | u in urls
    ensures forall u :: u in urls ==> PutAll(e, urls, net)[u] == net(u).resp
    ensures forall u :: u in e && u !in urls ==> PutAll(e, urls, net)[u] == e[u]
  {
    if urls != [] {
      var init := urls[..|urls| - 1];
      PutAllSpec(e, init, net);
      assert urls == init + [urls[|urls| - 1]];
    }
  }

  // ---- updateCache ----

  /** A key `updateCache` fetches again: its URL ends in ".html" or in '/'. */
  predicate IsPageKey(url: string) {
    EndsWith(url, ".html") || EndsWith(url, "/")
  }

  function PageKeysIn(keys: set<string>): set<string> {
    set k | k in keys && IsPageKey(k)
  }

  /** The entries after `updateCache`. */
  function Refreshed(e: Entries, net: string -> NetResult): (r: Entries)
    ensures r.Keys == e.Keys
    ensures OnlyOk(e) ==> OnlyOk(r)
  {
    map k | k in e :: if IsPageKey(k) && FetchedOk(net(k)) then net(k).resp else e[k]
  }

  /** Refreshing adds and removes no key, changes only page keys whose fetch was ok, and
      keeps a store of ok responses so. */
  lemma RefreshedSpec(e: Entries, net: string -> NetResult)
    ensures Refreshed(e, net).Keys == e.Keys
    ensures forall k :: k in e && !(IsPageKey(k) && FetchedOk(net(k))) ==> Refreshed(e, net)[k] == e[k]
    ensures forall k :: k in e && IsPageKey(k) && FetchedOk(net(k)) ==> Refreshed(e, net)[k] == net(k).resp
    ensures OnlyOk(e) ==> OnlyOk(Refreshed(e, net))
  {
  }

  /** A page key without a trailing '/' is not refreshed: `origin + "/blog"` is never page-like. */
  lemma BlogKeyNotRefreshed(origin: string)
    ensures !IsPageKey(origin + "/blog")
  {
    var u := origin + "/blog";
    assert u[|u| - 1] == 'g';
    if EndsWith(u, ".html") { LastChar(u, ".html"); }
    if EndsWith(u, "/") { LastChar(u, "/"); }
  }

  /** The entries once the keys in `done` have been refreshed. */
  function RefreshedOn(e: Entries, net: string -> NetResult, done: set<string>): Entries {
    map u | u in e :: if u in done && IsPageKey(u) && FetchedOk(net(u)) then net(u).resp else e[u]
  }

  /** Refreshing one more key changes its own entry only. */
  lemma RefreshStep(e: Entries, net: string -> NetResult, done: set<string>, k: string)
    requires k in e && k !in done
    ensures var r := RefreshedOn(e, net, done);
      RefreshedOn(e, net, done + {k}) == r[k := if IsPageKey(k) && FetchedOk(net(k)) then net(k).resp else r[k]]
  {
  }

  lemma RefreshedOnAll(e: Entries, net: string -> NetResult)
    ensures RefreshedOn(e, net, {}) == e
    ensures RefreshedOn(e, net, e.Keys) == Refreshed(e, net)
  {
  }

  lemma KeptStores(before: map<string, Entries>, after: map<string, Entries>)
    requires forall n :: n in after <==> n in before && !IsStale(n)
    requires forall n :: n in after ==> after[n] == before[n]
    ensures after == map n | n in before && !IsStale(n) :: before[n]
  {
  }

  lemma UpdateTwice(m: map<string, Entries>, k: string, a: Entries, b: Entries)
    ensures m[k := a][k := b] == m[k := b]
  {
  }

  lemma PageKeysStep(done: set<string>, k: string)
    requires k !in done
    ensures multiset(PageKeysIn(done + {k})) ==
      multiset(PageKeysIn(done)) + (if IsPageKey(k) then multiset{k} else multiset{})
  {
    if IsPageKey(k) {
      assert PageKeysIn(done + {k}) == PageKeysIn(done) + {k};
    } else {
      assert PageKeysIn(done + {k}) == PageKeysIn(done);
    }
  }

  class Worker {
    /** The origin the worker serves. */
    const origin: string
    /** `caches.keys()`: the store names in creation order. */
    var names: seq<string>
    var stores: map<string, Entries>
    /** Every URL this worker has sent to the network, with multiplicity. */
    ghost var fetches: multiset<string>
    /** `self.skipWaiting()` has been called. */
    var skippedWaiting: bool
    /** `self.clients.claim()` has been called. */
    var claimed: bool

    ghost predicate Valid()
      reads this
    {
      && Distinct(names)
      && (forall n :: n in stores <==> n in names)
      && (CacheName in stores ==> OnlyOk(stores[CacheName]))
    }

    /** A worker starting over the stores left by earlier versions. */
    constructor (origin: string, names: seq<string>, stores: map<string, Entries>)
      requires Distinct(names) && (forall n :: n in stores <==> n in names)
      requires CacheName in stores ==> OnlyOk(stores[CacheName])
      ensures Valid()
      ensures this.origin == origin && this.names == names && this.stores == stores
      ensures fetches == multiset{} && !skippedWaiting && !claimed
    {
      this.origin := origin;
      this.names := names;
      this.stores := stores;
      fetches := multiset{};
      skippedWaiting := false;
      claimed := false;
    }

    // ---- Cache storage primitives ----

    /** `caches.open(name)`: creates the store if it does not exist. */
    method Open(name: string)
      requires Valid()
      modifies this`names, this`stores
      ensures Valid() && name in stores
      ensures stores == old(stores)[name := StoreOf(old(stores), name)]
      ensures names == if name in old(stores) then old(names) else old(names) + [name]
    {
      if name !in stores {
        stores := stores[name := map[]];
        names := names + [name];
      } else {
        assert stores == stores[name := stores[name]];
      }
    }

    /** `caches.delete`: the named store and its name go. */
    method Delete(name: string)
      requires Valid()
      modifies this`names, this`stores
      ensures Valid()
      ensures stores == old(stores) - {name} && names == Without(old(names), name)
    {
      stores := stores - {name};
      WithoutDistinct(names, name);
      names := Without(names, name);
    }

    /** `cache.match(request)` on the current store. */
    method Lookup(url: string) returns (hit: Option<Response>)
      requires CacheName in stores
      ensures hit == if url in stores[CacheName] then Some(stores[CacheName][url]) else None
    {
      if url in stores[CacheName] {
        hit := Some(stores[CacheName][url]);
      } else {
        hit := None;
      }
    }

    /** `cache.put(request, response)` on the current store; the worker puts ok responses only. */
    method Put(url: string, resp: Response)
      requires CacheName in stores && resp.IsOk()
      modifies this`stores
      ensures stores == old(stores)[CacheName := old(stores)[CacheName][url := resp]]
    {
      stores := stores[CacheName := stores[CacheName][url := resp]];
    }

    /** `fetch(request)`, answered by the oracle. */
    method Fetch(url: string, net: NetResult) returns (o: Outcome)
      modifies this`fetches
      ensures o == Awaited(net)
      ensures fetches == old(fetches) + multiset{url}
    {
      fetches := fetches + multiset{url};
      o := Awaited(net);
    }

    /** `caches.match(url)` over every store, in creation order. */
    method MatchAll(url: string) returns (hit: Option<Response>)
      ensures hit == FirstStored(names, stores, url)
    {
      var i := 0;
      hit := None;
      while i < |names|
        invariant 0 <= i <= |names|
        invariant FirstStored(names[i..], stores, url) == FirstStored(names, stores, url)
      {
        if names[i] in stores && url in stores[names[i]] {
          hit := Some(stores[names[i]][url]);
          return;
        }
        assert names[i..][1..] == names[i + 1..];
        i := i + 1;
      }
    }

    // ---- The strategies ----

    /** The `cacheOnly` strategy on the current store. */
    method CacheOnly(url: string, net: NetResult) returns (o: Outcome)
      requires Valid() && CacheName in stores
      modifies this`stores, this`fetches
      ensures Valid()
      ensures var st := CacheOnlyStep(old(stores[CacheName]), url, net);
        && o == st.outcome
        && stores == old(stores)[CacheName := st.entries]
        && fetches == old(fetches) + (if st.fetched then multiset{url} else multiset{})
    {
      var cached := Lookup(url);
      if cached.Some? {
        assert stores == stores[CacheName := stores[CacheName]];
        return Served(cached.value);
      }
      o := Fetch(url, net);
      if o.Served? && o.resp.IsOk() {
        Put(url, o.resp);
      } else {
        assert stores == stores[CacheName := stores[CacheName]];
      }
    }

    /** The `cacheFirst` strategy on the current store. */
    method CacheFirst(url: string, net: NetResult) returns (o: Outcome)
      requires Valid() && CacheName in stores
      modifies this`stores, this`fetches
      ensures Valid()
      ensures var st := CacheFirstStep(old(stores[CacheName]), url, net);
        && o == st.outcome
        && stores == old(stores)[CacheName := st.entries]
        && fetches == old(fetches) + (if st.fetched then multiset{url} else multiset{})
    {
      var cached := Lookup(url);
      if cached.Some? {
        assert stores == stores[CacheName := stores[CacheName]];
        return Served(cached.value);
      }
      o := Fetch(url, net);
      if o.Served? && o.resp.IsOk() {
        Put(url, o.resp);
      } else {
        assert stores == stores[CacheName := stores[CacheName]];
      }
    }

    /** The `networkFirst` strategy on the current store. */
    method NetworkFirst(url: string, net: NetResult) returns (o: Outcome)
      requires Valid() && CacheName in stores
      modifies this`stores, this`fetches
      ensures Valid()
      ensures var st := NetworkFirstStep(old(stores[CacheName]), url, net);
        && o == st.outcome
        && stores == old(stores)[CacheName := st.entries]
        && fetches == old(fetches) + multiset{url}
    {
      o := Fetch(url, net);
      if o.Served? {
        if o.resp.IsOk() {
          Put(url, o.resp);
        } else {
          assert stores == stores[CacheName := stores[CacheName]];
        }
        return;
      }
      // The fetch threw: fall back to the store, or rethrow.
      assert stores == stores[CacheName := stores[CacheName]];
      var cached := Lookup(url);
      if cached.Some? {
        o := Served(cached.value);
      }
    }

    /** `staleWhileRevalidate(cache, request)`; the background `cache.put` is run before the
        result is returned. */
    method StaleWhileRevalidate(url: string, net: NetResult) returns (o: Outcome)
      requires Valid() && CacheName in stores
      modifies this`stores, this`fetches
      ensures Valid()
      ensures var st := StaleWhileRevalidateStep(old(stores[CacheName]), url, net);
        && o == st.outcome
        && stores == old(stores)[CacheName := st.entries]
        && fetches == old(fetches) + multiset{url}
    {
      var cached := Lookup(url);
      var fetched := Fetch(url, net);
      if fetched.Served? && fetched.resp.IsOk() {
        Put(url, fetched.resp);
      } else {
        assert stores == stores[CacheName := stores[CacheName]];
      }
      if cached.Some? {
        o := Served(cached.value);
      } else {
        o := fetched;
      }
    }

    /** `handleRequest(request, strategy)`: opens the current store and runs the strategy
        named. */
    method HandleRequest(url: string, strategy: string, net: NetResult) returns (o: Outcome)
      requires Valid()
      modifies this`names, this`stores, this`fetches
      ensures Valid()
      ensures names == if CacheName in old(stores) then old(names) else old(names) + [CacheName]
      ensures var st := Run(strategy, StoreOf(old(stores), CacheName), url, net);
        && o == st.outcome
        && stores == old(stores)[CacheName := st.entries]
        && fetches == old(fetches) + (if st.fetched then multiset{url} else multiset{})
    {
      Open(CacheName);
      ghost var e := stores[CacheName];
      assert e == StoreOf(old(stores), CacheName);
      if strategy == "cacheOnly" {
        assert Run(strategy, e, url, net) == CacheOnlyStep(e, url, net);
        o := CacheOnly(url, net);
      } else if strategy == "cacheFirst" {
        assert Run(strategy, e, url, net) == CacheFirstStep(e, url, net);
        o := CacheFirst(url, net);
      } else if strategy == "networkFirst" {
        assert Run(strategy, e, url, net) == NetworkFirstStep(e, url, net);
        o := NetworkFirst(url, net);
      } else if strategy == "staleWhileRevalidate" {
        assert Run(strategy, e, url, net) == StaleWhileRevalidateStep(e, url, net);
        o := StaleWhileRevalidate(url, net);
      } else {
        assert Run(strategy, e, url, net) == Step(Awaited(net), e, true);
        o := Fetch(url, net);
        assert stores == stores[CacheName := stores[CacheName]];
      }
      UpdateTwice(old(stores), CacheName, e, stores[CacheName]);
    }

    // ---- Event handlers ----

    /** The fetch handler: non-GET and cross-origin requests are left alone; every other
        request is answered by its strategy, and when that fails by the stored offline page
        (navigations) or a 503 response (everything else). */
    method OnFetch(req: Request, net: NetResult) returns (reply: FetchReply)
      requires Valid()
      modifies this`names, this`stores, this`fetches
      ensures Valid()
      ensures req.verb != "GET" || req.origin != origin ==>
        reply == Unhandled && names == old(names) && stores == old(stores) && fetches == old(fetches)
      ensures req.verb == "GET" && req.origin == origin ==>
        var st := Dispatch(GetStrategy(req.url), StoreOf(old(stores), CacheName), req.url, net);
        && stores == old(stores)[CacheName := st.entries]
        && names == (if CacheName in old(stores) then old(names) else old(names) + [CacheName])
        && fetches == old(fetches) + (if st.fetched then multiset{req.url} else multiset{})
        && reply == (if st.outcome.Served? then Reply(st.outcome.resp)
                     else if req.navigate then
                       (match FirstStored(names, stores, origin + OfflineUrl)
                        case Some(page) => Reply(page)
                        case None => NetworkError)
                     else Reply(ServiceUnavailable))
    {
      if req.verb != "GET" {
        return Unhandled;
      }
      if req.origin != origin {
        return Unhandled;
      }
      var strategy := GetStrategy(req.url);
      RunByName(strategy, StoreOf(stores, CacheName), req.url, net);
      var o := HandleRequest(req.url, strategy.Name(), net);
      if o.Served? {
        reply := Reply(o.resp);
      } else if req.navigate {
        var page := MatchAll(origin + OfflineUrl);
        reply := if page.Some? then Reply(page.value) else NetworkError;
      } else {
        reply := Reply(ServiceUnavailable);
      }
    }

    /** The fetches of `cache.addAll(urls)`: every URL is sent to the network, and the
        result says whether every answer was an ok response. */
    method FetchEach(urls: seq<string>, net: string -> NetResult) returns (ok: bool)
      modifies this`fetches
      ensures fetches == old(fetches) + multiset(urls)
      ensures ok <==> forall i :: 0 <= i < |urls| ==> FetchedOk(net(urls[i]))
    {
      var i := 0;
      ok := true;
      while i < |urls|
        invariant 0 <= i <= |urls|
        invariant fetches == old(fetches) + multiset(urls[..i])
        invariant ok <==> forall j :: 0 <= j < i ==> FetchedOk(net(urls[j]))
      {
        var o := Fetch(urls[i], net(urls[i]));
        if !(o.Served? && o.resp.IsOk()) {
          ok := false;
        }
        assert urls[..i + 1] == urls[..i] + [urls[i]];
        i := i + 1;
      }
      assert urls[..i] == urls;
    }

    /** The puts of `cache.addAll(urls)`, once every answer was ok. */
    method PutEach(urls: seq<string>, net: string -> NetResult)
      requires Valid() && CacheName in stores
      requires forall i :: 0 <= i < |urls| ==> FetchedOk(net(urls[i]))
      modifies this`stores
      ensures Valid()
      ensures stores == old(stores)[CacheName := PutAll(old(stores)[CacheName], urls, net)]
    {
      ghost var start := stores[CacheName];
      var k := 0;
      assert urls[..0] == [];
      assert stores == old(stores)[CacheName := start];
      while k < |urls|
        invariant 0 <= k <= |urls|
        invariant Valid() && CacheName in stores
        invariant stores == old(stores)[CacheName := PutAll(start, urls[..k], net)]
      {
        Put(urls[k], net(urls[k]).resp);
        PutAllSnoc(start, urls, k, net);
        UpdateTwice(old(stores), CacheName, PutAll(start, urls[..k], net), PutAll(start, urls[..k + 1], net));
        k := k + 1;
      }
      assert urls[..k] == urls;
    }

    /** `cache.addAll(urls)` on the current store: every URL is fetched, and the responses
        are stored only if every fetch gave an ok response and no URL repeats; otherwise
        the store is left as it was. */
    method AddAll(urls: seq<string>, net: string -> NetResult) returns (ok: bool)
      requires Valid() && CacheName in stores
      modifies this`stores, this`fetches
      ensures Valid()
      ensures fetches == old(fetches) + multiset(urls)
      ensures ok <==> Distinct(urls) && forall i :: 0 <= i < |urls| ==> FetchedOk(net(urls[i]))
      ensures ok ==> stores == old(stores)[CacheName := PutAll(old(stores)[CacheName], urls, net)]
      ensures !ok ==> stores == old(stores)
    {
      ok := FetchEach(urls, net);
      ok := ok && Distinct(urls);
      if ok {
        PutEach(urls, net);
      }
    }

    /** The install handler: the seed list is added to the current store, and waiting is
        skipped once that succeeded. */
    method OnInstall(net: string -> NetResult) returns (ok: bool)
      requires Valid()
      modifies this`names, this`stores, this`fetches, this`skippedWaiting
      ensures Valid()
      ensures names == if CacheName in old(stores) then old(names) else old(names) + [CacheName]
      ensures fetches == old(fetches) + multiset(Seeds(origin))
      ensures ok <==> forall i :: 0 <= i < |StaticCacheUrls| ==> FetchedOk(net(origin + StaticCacheUrls[i]))
      ensures ok ==> stores == old(stores)[CacheName :=
        PutAll(StoreOf(old(stores), CacheName), Seeds(origin), net)]
      ensures !ok ==> stores == old(stores)[CacheName := StoreOf(old(stores), CacheName)]
      ensures skippedWaiting == (old(skippedWaiting) || ok)
    {
      Open(CacheName);
      ghost var e := stores[CacheName];
      SeedsDistinct(origin);
      ok := AddAll(Seeds(origin), net);
      if ok {
        UpdateTwice(old(stores), CacheName, e, stores[CacheName]);
      }
      if ok {
        skippedWaiting := true;
      }
    }

    /** One turn of activate's loop over the names it read: the name at `i` is deleted
        when it is stale. */
    method EvictAt(all: seq<string>, i: nat)
      requires Valid() && Distinct(all) && i < |all|
      requires names == Survivors(all[..i]) + all[i..]
      modifies this`names, this`stores
      ensures Valid()
      ensures names == Survivors(all[..i + 1]) + all[i + 1..]
      ensures stores == if IsStale(all[i]) then old(stores) - {all[i]} else old(stores)
    {
      SurvivorsStep(all, i);
      if IsStale(all[i]) {
        DeleteStep(all, i);
        Delete(all[i]);
      } else {
        assert all[i..] == [all[i]] + all[i + 1..];
      }
    }

    /** The activate handler: every stale store is deleted, then the worker claims its
        clients. */
    method Activate()
      requires Valid()
      modifies this`names, this`stores, this`claimed
      ensures Valid()
      ensures names == Survivors(old(names))
      ensures stores == map n | n in old(stores) && !IsStale(n) :: old(stores)[n]
      ensures claimed
    {
      var all := names;
      var i := 0;
      assert all[..0] == [];
      while i < |all|
        invariant 0 <= i <= |all|
        invariant Valid() && Distinct(all)
        invariant names == Survivors(all[..i]) + all[i..]
        invariant forall n :: n in stores ==> n in old(stores) && stores[n] == old(stores)[n]
      {
        EvictAt(all, i);
        i := i + 1;
      }
      assert all[..i] == all && all[i..] == [];
      forall n ensures n in stores <==> n in old(stores) && !IsStale(n) {
        SurvivorsExactly(all, n);
      }
      KeptStores(old(stores), stores);
      claimed := true;
    }

    /** The message handler: `SKIP_WAITING` skips waiting, `CACHE_URLS` adds its payload to
        the current store, anything else is ignored. */
    method OnMessage(msg: Message, net: string -> NetResult)
      requires Valid()
      modifies this`names, this`stores, this`fetches, this`skippedWaiting
      ensures Valid()
      ensures msg.SkipWaiting? ==> skippedWaiting && names == old(names) && stores == old(stores) && fetches == old(fetches)
      ensures msg.OtherMessage? ==>
        skippedWaiting == old(skippedWaiting) && names == old(names) && stores == old(stores) && fetches == old(fetches)
      ensures msg.CacheUrls? ==>
        var added := Distinct(msg.payload) && forall i :: 0 <= i < |msg.payload| ==> FetchedOk(net(msg.payload[i]));
        && skippedWaiting == old(skippedWaiting)
        && names == (if CacheName in old(stores) then old(names) else old(names) + [CacheName])
        && fetches == old(fetches) + multiset(msg.payload)
        && stores == old(stores)[CacheName :=
             if added then PutAll(StoreOf(old(stores), CacheName), msg.payload, net) else StoreOf(old(stores), CacheName)]
    {
      match msg
      case SkipWaiting =>
        skippedWaiting := true;
      case CacheUrls(urls) =>
        Open(CacheName);
        ghost var e := stores[CacheName];
        var ok := AddAll(urls, net);
        if ok {
          UpdateTwice(old(stores), CacheName, e, stores[CacheName]);
        }
      case OtherMessage =>
    }

    /** The callback `updateCache` maps over one key: a page key is fetched again and its
        entry replaced when the answer is ok; a failure is swallowed. */
    method RefreshKey(url: string, net: NetResult)
      requires CacheName in stores && url in stores[CacheName]
      modifies this`stores, this`fetches
      ensures stores == old(stores)[CacheName := old(stores)[CacheName][url :=
        if IsPageKey(url) && FetchedOk(net) then net.resp else old(stores)[CacheName][url]]]
      ensures fetches == old(fetches) + (if IsPageKey(url) then multiset{url} else multiset{})
    {
      if IsPageKey(url) {
        var o := Fetch(url, net);
        if o.Served? && o.resp.IsOk() {
          Put(url, o.resp);
          return;
        }
      }
      assert stores[CacheName][url := stores[CacheName][url]] == stores[CacheName];
      assert stores == stores[CacheName := stores[CacheName]];
    }

    /** `updateCache()`: every page-like key of the current store is fetched again and its
        entry replaced when the answer is ok; failures leave the entry and do not stop the
        other keys. */
    method UpdateCache(net: string -> NetResult)
      requires Valid()
      modifies this`names, this`stores, this`fetches
      ensures Valid()
      ensures names == if CacheName in old(stores) then old(names) else old(names) + [CacheName]
      ensures stores == old(stores)[CacheName := Refreshed(StoreOf(old(stores), CacheName), net)]
      ensures fetches == old(fetches) + multiset(PageKeysIn(StoreOf(old(stores), CacheName).Keys))
    {
      Open(CacheName);
      RefreshAll(net);
    }

    /** The loop of `updateCache` over the keys of the opened store. */
    method RefreshAll(net: string -> NetResult)
      requires Valid() && CacheName in stores
      modifies this`stores, this`fetches
      ensures Valid()
      ensures stores == old(stores)[CacheName := Refreshed(old(stores)[CacheName], net)]
      ensures fetches == old(fetches) + multiset(PageKeysIn(old(stores)[CacheName].Keys))
    {
      var e := stores[CacheName];
      RefreshKeys(e, net);
      assert stores.Keys == old(stores).Keys;
    }

    /** The loop of `updateCache` over the keys of `e`, the current store's entries. */
    method RefreshKeys(e: Entries, net: string -> NetResult)
      requires CacheName in stores && stores[CacheName] == e
      modifies this`stores, this`fetches
      ensures stores == old(stores)[CacheName := Refreshed(e, net)]
      ensures fetches == old(fetches) + multiset(PageKeysIn(e.Keys))
    {
      var todo := e.Keys;
      ghost var done: set<string> := {};
      RefreshedOnAll(e, net);
      while todo != {}
        invariant stores == old(stores)[CacheName := RefreshedOn(e, net, done)]
        invariant todo <= e.Keys && done == e.Keys - todo
        invariant fetches == old(fetches) + multiset(PageKeysIn(done))
        decreases todo
      {
        var k :| k in todo;
        RefreshNext(e, net, old(stores), old(fetches), done, k);
        todo := todo - {k};
        done := done + {k};
      }
      assert done == e.Keys;
    }

    /** One turn of the loop of `updateCache`: key `k` joins the refreshed keys, and it is
        sent to the network exactly when it is page-like. */
    method RefreshNext(e: Entries, net: string -> NetResult, ghost base: map<string, Entries>,
                       ghost before: multiset<string>, ghost done: set<string>, k: string)
      requires stores == base[CacheName := RefreshedOn(e, net, done)]
      requires fetches == before + multiset(PageKeysIn(done))
      requires k in e && k !in done
      modifies this`stores, this`fetches
      ensures stores == base[CacheName := RefreshedOn(e, net, done + {k})]
      ensures fetches == before + multiset(PageKeysIn(done + {k}))
    {
      RefreshStep(e, net, done, k);
      PageKeysStep(done, k);
      RefreshKey(k, net(k));
      UpdateTwice(base, CacheName, RefreshedOn(e, net, done), RefreshedOn(e, net, done + {k}));
    }

    /** The periodic sync handler: the "update-cache" tag runs `updateCache`. */
    method OnPeriodicSync(tag: string, net: string -> NetResult)
      requires Valid()
      modifies this`names, this`stores, this`fetches
      ensures Valid()
      ensures tag != UpdateCacheTag ==> names == old(names) && stores == old(stores) && fetches == old(fetches)
      ensures tag == UpdateCacheTag ==>
        && names == (if CacheName in old(stores) then old(names) else old(names) + [CacheName])
        && stores == old(stores)[CacheName := Refreshed(StoreOf(old(stores), CacheName), net)]
        && fetches == old(fetches) + multiset(PageKeysIn(StoreOf(old(stores), CacheName).Keys))
    {
      if tag == UpdateCacheTag {
        UpdateCache(net);
      }
    }
  }

  lemma WithoutDistinct(names: seq<string>, name: string)
    requires Distinct(names)
    ensures Distinct(Without(names, name))
  {
    if names != [] {
      assert Distinct(names[1..]) by {
        forall i, j | 0 <= i < j < |names[1..]| ensures names[1..][i] != names[1..][j] {
          assert names[1..][i] == names[i + 1] && names[1..][j] == names[j + 1];
        }
      }
      WithoutDistinct(names[1..], name);
      assert names[0] !in names[1..] by {
        forall i | 0 <= i < |names[1..]| ensures names[1..][i] != names[0] {
          assert names[1..][i] == names[i + 1];
        }
      }
    }
  }

  /** Activate's loop keeps `Survivors(all[..i]) + all[i..]` as one more name is seen. */
  lemma SurvivorsStep(all: seq<string>, i: nat)
    requires i < |all|
    ensures Survivors(all[..i + 1]) == Survivors(all[..i]) + (if IsStale(all[i]) then [] else [all[i]])
  {
    SurvivorsSnoc(all[..i], all[i]);
    assert all[..i + 1] == all[..i] + [all[i]];
  }

  lemma {:induction false} SurvivorsSnoc(s: seq<string>, x: string)
    ensures Survivors(s + [x]) == Survivors(s) + (if IsStale(x) then [] else [x])
  {
    if s == [] {
      assert [] + [x] == [x];
      assert [x][1..] == [];
    } else {
      assert (s + [x])[1..] == s[1..] + [x];
      SurvivorsSnoc(s[1..], x);
    }
  }

  /** Deleting the next stale name from `Survivors(all[..i]) + all[i..]` leaves the rest. */
  lemma DeleteStep(all: seq<string>, i: nat)
    requires Distinct(all) && i < |all| && IsStale(all[i])
    ensures Without(Survivors(all[..i]) + all[i..], all[i]) == Survivors(all[..i]) + all[i + 1..]
  {
    var x, pre, post := all[i], Survivors(all[..i]), all[i + 1..];
    NotElsewhere(all, i);
    SurvivorsExactly(all[..i], x);
    WithoutAbsent(pre, x);
    assert all[i..] == [x] + post;
    WithoutHead(x, post);
    WithoutAppend(pre, [x] + post, x);
  }

  /** Deleting a name from a list it heads, and does not occur in after, leaves the rest. */
  lemma WithoutHead(x: string, rest: seq<string>)
    requires x !in rest
    ensures Without([x] + rest, x) == rest
  {
    assert ([x] + rest)[1..] == rest;
    WithoutAbsent(rest, x);
  }

  /** In a list without duplicates, an element occurs neither before nor after its place. */
  lemma NotElsewhere(all: seq<string>, i: nat)
    requires Distinct(all) && i < |all|
    ensures all[i] !in all[..i] && all[i] !in all[i + 1..]
  {
    var head, tail := all[..i], all[i + 1..];
    forall j | 0 <= j < |head| ensures head[j] != all[i] {
      assert head[j] == all[j];
    }
    forall j | 0 <= j < |tail| ensures tail[j] != all[i] {
      assert tail[j] == all[i + 1 + j];
    }
  }
}
