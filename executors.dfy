/** The four strategy functions of public/sw.js (`cacheOnly`, `cacheFirst`, `networkFirst`
    and `staleWhileRevalidate`) as functions of one cache store's entries, the request URL
    and what the network gives for that URL. The worker's methods are proved against them. */
module Executors {
  import opened Http
  import opened Strategies

  /** One cache store: the URL of each stored request and its response. */
  type Entries = map<string, Response>

  /** One run of a strategy: what it settles to, the store's entries after it, and whether
      it sent the request to the network. */
  datatype Step = Step(outcome: Outcome, entries: Entries, fetched: bool)

  /** Every stored response has a 2xx status. */
  predicate OnlyOk(e: Entries) {
    forall u :: u in e ==> e[u].IsOk()
  }

  /** The store after a network answer: the response is put under the URL only when its
      status is 2xx. */
  function StoreIfOk(e: Entries, url: string, net: NetResult): Entries {
    if FetchedOk(net) then e[url := net.resp] else e
  }

  /** `cacheOnly`, in the shape of its code: a stored response is returned without going to
      the network; on a miss the fetch is awaited, so a failure is thrown, and an answer is
      returned whatever its status, after being stored when ok. */
  function CacheOnlyStep(e: Entries, url: string, net: NetResult): (r: Step)
    ensures r.fetched <==> url !in e
    ensures r.outcome.Thrown? <==> url !in e && net.Fail?
    ensures r.outcome.Served? ==> r.outcome.resp == if url in e then e[url] else net.resp
    ensures r.entries == if url !in e && FetchedOk(net) then e[url := net.resp] else e
  {
    if url in e then Step(Served(e[url]), e, false)
    else
      match net
      case Fail => Step(Thrown, e, true)
      case Ok(resp) => Step(Served(resp), if resp.IsOk() then e[url := resp] else e, true)
  }

  /** `cacheFirst`: a stored response is returned without going to the network; otherwise
      the network's answer is awaited and stored when ok. */
  function CacheFirstStep(e: Entries, url: string, net: NetResult): (r: Step)
    ensures r.fetched <==> url !in e
    ensures r.outcome.Thrown? <==> url !in e && net.Fail?
    ensures r.outcome.Served? ==> r.outcome.resp == if url in e then e[url] else net.resp
    ensures r.entries == if url !in e && FetchedOk(net) then e[url := net.resp] else e
  {
    if url in e then Step(Served(e[url]), e, false)
    else Step(Awaited(net), StoreIfOk(e, url, net), true)
  }

  /** `networkFirst`: the network's response, of any status, is returned (and stored when
      ok); the store is read only when the fetch throws, and a miss rethrows. */
  function NetworkFirstStep(e: Entries, url: string, net: NetResult): (r: Step)
    ensures r.fetched
    ensures r.outcome.Thrown? <==> net.Fail? && url !in e
    ensures net.Ok? ==> r.outcome == Served(net.resp)
    ensures net.Fail? && url in e ==> r.outcome == Served(e[url])
    ensures r.entries == if FetchedOk(net) then e[url := net.resp] else e
  {
    match net
    case Ok(resp) => Step(Served(resp), StoreIfOk(e, url, net), true)
    case Fail => Step(if url in e then Served(e[url]) else Thrown, e, true)
  }

  /** `staleWhileRevalidate`: the store is read first, the request always goes to the
      network and an ok answer replaces the entry; a stored response is returned, and
      otherwise the network's answer. */
  function StaleWhileRevalidateStep(e: Entries, url: string, net: NetResult): (r: Step)
    ensures r.fetched
    ensures r.outcome.Thrown? <==> net.Fail? && url !in e
    ensures url in e ==> r.outcome == Served(e[url])
    ensures url !in e && net.Ok? ==> r.outcome == Served(net.resp)
    ensures r.entries == if FetchedOk(net) then e[url := net.resp] else e
  {
    Step(if url in e then Served(e[url]) else Awaited(net), StoreIfOk(e, url, net), true)
  }

  /** The executor for a classified strategy. */
  function Dispatch(s: StrategyId, e: Entries, url: string, net: NetResult): Step {
    match s
    case CacheOnly => CacheOnlyStep(e, url, net)
    case CacheFirst => CacheFirstStep(e, url, net)
    case NetworkFirst => NetworkFirstStep(e, url, net)
    case StaleWhileRevalidate => StaleWhileRevalidateStep(e, url, net)
  }

  /** The `switch (strategy)` of `handleRequest`, on the strategy's name; an unknown name
      would fall through to a plain `fetch(request)`. */
  function Run(strategy: string, e: Entries, url: string, net: NetResult): (r: Step)
    ensures forall s: StrategyId :: strategy == s.Name() ==> r == Dispatch(s, e, url, net)
    ensures (forall s: StrategyId :: strategy != s.Name()) ==> r == Step(Awaited(net), e, true)
  {
    assert CacheOnly.Name() == "cacheOnly" && CacheFirst.Name() == "cacheFirst";
    assert NetworkFirst.Name() == "networkFirst";
    assert StaleWhileRevalidate.Name() == "staleWhileRevalidate";
    if strategy == "cacheOnly" then CacheOnlyStep(e, url, net)
    else if strategy == "cacheFirst" then CacheFirstStep(e, url, net)
    else if strategy == "networkFirst" then NetworkFirstStep(e, url, net)
    else if strategy == "staleWhileRevalidate" then StaleWhileRevalidateStep(e, url, net)
    else Step(Awaited(net), e, true)
  }

  // ---- What all four strategies share ----

  /** Every name `getStrategy` can return selects its own executor: the `default` branch of
      `handleRequest` is never taken. */
  lemma RunByName(s: StrategyId, e: Entries, url: string, net: NetResult)
    ensures Run(s.Name(), e, url, net) == Dispatch(s, e, url, net)
  {
  }

  /** A strategy fails exactly when the network fails and nothing is stored for the URL. */
  lemma ThrownExactly(s: StrategyId, e: Entries, url: string, net: NetResult)
    ensures Dispatch(s, e, url, net).outcome.Thrown? <==> net.Fail? && url !in e
  {
  }

  /** A response served is the stored one or the network's. */
  lemma ServedFromStoreOrNetwork(s: StrategyId, e: Entries, url: string, net: NetResult)
    ensures var o := Dispatch(s, e, url, net).outcome;
      o.Served? ==> (url in e && o.resp == e[url]) || (net.Ok? && o.resp == net.resp)
  {
  }

  /** Only the entry for the requested URL can change, and only to the network's ok answer;
      no entry is ever removed. */
  lemma OnlyRequestedEntryChanges(s: StrategyId, e: Entries, url: string, net: NetResult)
    ensures var r := Dispatch(s, e, url, net).entries;
      && (r.Keys == e.Keys || (FetchedOk(net) && r.Keys == e.Keys + {url}))
      && (forall u :: u in e && u != url ==> r[u] == e[u])
      && (url in r && (url !in e || r[url] != e[url]) ==> FetchedOk(net) && r[url] == net.resp)
  {
  }

  /** No strategy stores a response whose status is not 2xx. */
  lemma StoresOnlyOk(s: StrategyId, e: Entries, url: string, net: NetResult)
    requires OnlyOk(e)
    ensures OnlyOk(Dispatch(s, e, url, net).entries)
  {
  }

  // ---- cacheOnly and cacheFirst ----

  /** The two cache-first groups behave identically: `cacheOnly` is `cacheFirst` on every
      store, URL and network answer. */
  lemma CacheOnlyIsCacheFirst(e: Entries, url: string, net: NetResult)
    ensures CacheOnlyStep(e, url, net) == CacheFirstStep(e, url, net)
  {
    if url !in e && net.Ok? {
      assert StoreIfOk(e, url, net) == if net.resp.IsOk() then e[url := net.resp] else e;
    }
  }

  /** A cache-first strategy goes to the network exactly on a miss, and a hit leaves the
      store as it was. */
  lemma CacheFirstFetchesOnMiss(s: StrategyId, e: Entries, url: string, net: NetResult)
    requires s == CacheOnly || s == CacheFirst
    ensures var r := Dispatch(s, e, url, net);
      && (r.fetched <==> url !in e)
      && (url in e ==> r.outcome == Served(e[url]) && r.entries == e)
      && (url !in e ==> r.outcome == Awaited(net))
  {
  }

  /** After a miss whose fetch was ok, the next request for the URL is a hit served without
      the network, whatever the network would say then. */
  lemma CacheFirstSecondRequestHits(e: Entries, url: string, net1: NetResult, net2: NetResult)
    requires url !in e && FetchedOk(net1)
    ensures var first := CacheFirstStep(e, url, net1);
      var second := CacheFirstStep(first.entries, url, net2);
      && first.outcome == Served(net1.resp) && first.fetched
      && second.outcome == Served(net1.resp) && !second.fetched
      && second.entries == first.entries
  {
  }

  /** A miss with a failing or non-ok fetch leaves the store as it was. */
  lemma CacheFirstMissNotStored(e: Entries, url: string, net: NetResult)
    requires url !in e && !FetchedOk(net)
    ensures CacheFirstStep(e, url, net).entries == e
    ensures url !in CacheFirstStep(e, url, net).entries
  {
  }

  // ---- networkFirst ----

  /** While the network answers, the store is never consulted: the answer is served,
      whatever is stored, and it is stored exactly when ok. */
  lemma NetworkFirstOnline(e1: Entries, e2: Entries, url: string, net: NetResult)
    requires net.Ok?
    ensures NetworkFirstStep(e1, url, net).outcome == Served(net.resp)
    ensures NetworkFirstStep(e1, url, net).outcome == NetworkFirstStep(e2, url, net).outcome
    ensures NetworkFirstStep(e1, url, net).entries == (if net.resp.IsOk() then e1[url := net.resp] else e1)
  {
  }

  /** An error status such as 500 is passed through without touching the store, even when a
      good response is stored. */
  lemma NetworkFirstPassesErrors(e: Entries, url: string, status: int, body: string)
    requires !(200 <= status <= 299)
    ensures var r := NetworkFirstStep(e, url, Ok(Response(status, body)));
      r.outcome == Served(Response(status, body)) && r.entries == e
  {
  }

  /** Offline, the store is the fallback and a miss rethrows. */
  lemma NetworkFirstOffline(e: Entries, url: string)
    ensures var r := NetworkFirstStep(e, url, Fail);
      && r.entries == e && r.fetched
      && (url in e ==> r.outcome == Served(e[url]))
      && (url !in e ==> r.outcome == Thrown)
  {
  }

  // ---- staleWhileRevalidate ----

  /** The request goes to the network even on a hit, and the stored response is what is
      served. */
  lemma StaleWhileRevalidateAlwaysFetches(e: Entries, url: string, net: NetResult)
    ensures StaleWhileRevalidateStep(e, url, net).fetched
    ensures url in e ==> StaleWhileRevalidateStep(e, url, net).outcome == Served(e[url])
    ensures url !in e ==> StaleWhileRevalidateStep(e, url, net).outcome == Awaited(net)
  {
  }

  /** A stale entry is served once, and the fresh ok answer fetched meanwhile is served the
      next time. */
  lemma StaleThenFresh(e: Entries, url: string, newer: Response, net2: NetResult)
    requires url in e && newer.IsOk()
    ensures var first := StaleWhileRevalidateStep(e, url, Ok(newer));
      var second := StaleWhileRevalidateStep(first.entries, url, net2);
      && first.outcome == Served(e[url])
      && first.entries == e[url := newer]
      && second.outcome == Served(newer)
  {
  }
}
