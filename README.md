# A verified model of a blog's service worker and its string helpers

This project models the two pieces of logic in a small Astro blog:

- **The service worker** (`public/sw.js`), which has several parts:
  - **The request classifier.** `getStrategy` picks one of four caching strategies for a request. It takes the first group of an ordered table whose URL patterns match the full request URL, and falls back to `networkFirst`.
  - **The four strategy executors.** `cacheOnly`, `cacheFirst`, `networkFirst` and `staleWhileRevalidate` each read and write the current cache store (`blog-cache-v1`) and consult the network.
  - **The fetch, install, activate, message and periodic-sync handlers,** including `updateCache`.
- **Two string helpers** (`src/lib/utils.ts`). `slugify` turns a title into a URL segment. `readingTime` counts words and converts them into minutes at 200 words a minute.

Modules:

- `Text` (`text.dfy`) holds character classes and trimming. White space is JavaScript's `\s` set, and word characters are `[A-Za-z0-9_]`.
- `Http` (`http.dfy`) holds responses, whose `ok` means a 2xx status. It also holds what one `fetch` gives: `Ok(response)` of any status, or `Fail` when the fetch rejects.
- `Strategies` (`strategies.dfy`) holds the strategy table. Each regular expression is written as a string predicate. It also defines `GetStrategy`, plus a hand-written reading of each group, proved equal to the table search.
- `Executors` (`executors.dfy`) defines each strategy as a function from the store's entries, the URL and the network's answer to the outcome, the new entries and whether the network was consulted. These functions are the specification of the worker's methods.
- `ServiceWorker` (`worker.dfy`) holds the class `Worker` and the functions that specify its handlers.
  - The class has the cache storage: `names`, the store names in creation order, and `stores`, mapping each name to its entries.
  - It also has the origin, the `skipWaiting` and `clients.claim` flags, and a ghost multiset of every URL sent to the network.
  - Each handler and strategy is a method. Its `ensures` gives the whole new state in terms of the functions of `Executors` and `ServiceWorker`. The properties are proved about those functions.
- `Slugify` (`slugify.dfy`) has one function per `.replace` of the chain. `WordChars`, the word characters of a text in their order, is the reference for what the chain keeps, and the slug shape (`IsSlug`) for what it produces.
- `ReadingTime` (`reading_time.dfy`) follows the source's trim, blank, split and filter count. A reference count of word-character runs is proved equal to it.

In two places the code does less than its own comments describe, and the model follows the code:

- The third group is commented as immutable, never-updated assets (public/sw.js:34-37), including hashed assets under `/assets/`. But a content-hashed script or style sheet whose URL ends in `.js` or `.css` never reaches that group. The `.js` and `.css` rules of the second group are tried first, so these files get `cacheFirst` (`Strategies.ScriptIsCacheFirst`, `Strategies.AstroScriptIsCacheFirst`). A hashed URL with a query string after the extension, such as `.../assets/app.0123abcd.js?v=2`, fails those suffix rules and can reach the third group.
- `updateCache` is commented as updating the HTML pages (public/sw.js:262), and `/blog` is a page the worker stores at install. But only keys ending in `.html` or `/` are refreshed, and a stored key such as `https://host/blog` is neither (`ServiceWorker.BlogKeyNotRefreshed`).

Two further points follow from the code:

- The patterns are tested against the full `request.url`, as `getStrategy` does. The anchored page patterns (`^\/$`, `^\/blog\/?$` and so on) therefore match only a string that starts with `/`. An absolute URL is a page only by its `.html` suffix (`Strategies.AnchoredPatternsNeedPath`). It still gets `networkFirst` through the default, unless a later group matches it.
- Cache keys are full URLs. The install seed list is resolved against the worker's origin, and the offline page is looked up as origin + `/offline.html`.

## Model

| member | source | states |
|---|---|---|
| `Text.Trim` | src/lib/utils.ts:13 | the trimmed text neither starts nor ends with white space |
| `Text.TrimIsSlice` | src/lib/utils.ts:13 | `trim` keeps one contiguous slice of its input and drops only white space before and after it |
| `Text.TrimKeeps` | src/lib/utils.ts:13 | a text with no white space at either end is unchanged by `trim` |
| `Text.Lower` | src/lib/utils.ts:12 | lower-casing one character turns an upper-case letter into the lower-case letter at the same place in the alphabet and keeps every other character |
| `Http.Awaited` | public/sw.js:160-166 | awaiting a fetch throws exactly when the fetch failed, and otherwise gives the network's response unchanged, whatever its status |
| `Strategies.FirstMatch` | public/sw.js:118-122 | the rule found has a matching pattern and none before it has one; it is past the end only when no rule matches |
| `Strategies.PageGroup` | public/sw.js:19-25 | the five page patterns match exactly the URLs ending in `.html`, the whole URLs `/`, `/blog`, `/blog/`, `/about` and `/about/`, and the one-segment paths under `/blog/` |
| `Strategies.StaticAssetGroup` | public/sw.js:27-33 | the asset patterns match exactly the URLs ending in `.css`, `.js`, `.woff`, `.woff2`, `.ttf` or `.otf` |
| `Strategies.ImmutableGroup` | public/sw.js:35-38 | the immutable patterns match exactly the URLs containing `/_astro/` or a hashed name after `/assets/` |
| `Strategies.ImageGroup` | public/sw.js:40-42 | the image pattern matches exactly the URLs ending in one of the seven image extensions |
| `Strategies.GetStrategy` | public/sw.js:115-126 | the strategy is that of the first group, in table order, that matches the URL (pages, then assets, then immutable files, then images), and `networkFirst` when none does |
| `Strategies.HtmlIsNetworkFirst` | public/sw.js:17-43 | every URL ending in `.html` gets `networkFirst`, whatever else it matches |
| `Strategies.AstroScriptIsCacheFirst` | public/sw.js:27-38 | a `.js` or `.css` URL containing `/_astro/` gets `cacheFirst`, not `cacheOnly` |
| `Strategies.AstroImageIsCacheOnly` | public/sw.js:35-42 | a `.png` URL containing `/_astro/` gets `cacheOnly`, not `staleWhileRevalidate` |
| `Strategies.AnchoredPatternsNeedPath` | public/sw.js:116-119 | for a URL that does not start with `/`, the page group matches exactly when it ends in `.html` |
| `Strategies.HashedAssetShape` | public/sw.js:37 | every URL of the form host, `/assets/`, name, `.`, eight lower-case hex digits, `.`, rest matches the hashed-asset pattern |
| `Strategies.HashedScriptMatchesHashPattern` | public/sw.js:37 | `https://blog.example/assets/app.0123abcd.js` matches the hashed-asset pattern |
| `Strategies.ScriptIsCacheFirst` | public/sw.js:17-43 | every URL that does not start with `/` and ends in `.js` or `.css` gets `cacheFirst`, whatever else it matches, hashed names included |
| `Strategies.HashedScriptIsCacheFirst` | public/sw.js:27-38 | that hashed script nevertheless gets `cacheFirst`, because the `.js` rule comes first |
| `Executors.CacheOnlyStep` | public/sw.js:151-167 | `cacheOnly` goes to the network exactly on a miss, fails exactly on a miss whose fetch fails, serves the stored entry or else the network's answer, and stores that answer exactly when it is ok on a miss |
| `Executors.CacheFirstStep` | public/sw.js:170-185 | `cacheFirst` goes to the network exactly on a miss, fails exactly on a miss whose fetch fails, serves the stored entry or else the network's answer, and stores that answer exactly when it is ok on a miss |
| `Executors.NetworkFirstStep` | public/sw.js:188-210 | `networkFirst` always goes to the network, serves its answer of any status, falls back to the stored entry only when the fetch throws, fails exactly when that also misses, and stores the answer exactly when it is ok |
| `Executors.StaleWhileRevalidateStep` | public/sw.js:213-232 | `staleWhileRevalidate` always goes to the network, serves the stored entry on a hit and the network's answer on a miss, fails exactly on a miss whose fetch fails, and stores the answer exactly when it is ok |
| `Executors.Run` | public/sw.js:132-147 | the switch on the strategy's name runs that strategy's executor for each of the four names, and for any other name a plain fetch that leaves the store as it was |
| `Executors.RunByName` | public/sw.js:132-147 | for every strategy `getStrategy` can return, `handleRequest`'s switch runs that strategy's executor, so its `default` branch is never taken |
| `Executors.ThrownExactly` | public/sw.js:151-232 | every strategy fails exactly when the network fails and nothing is stored for the URL |
| `Executors.ServedFromStoreOrNetwork` | public/sw.js:151-232 | a response served is the stored entry for the URL or the network's response |
| `Executors.OnlyRequestedEntryChanges` | public/sw.js:151-232 | no strategy removes an entry or touches another URL's entry, and a new or changed entry is the network's ok response |
| `Executors.StoresOnlyOk` | public/sw.js:151-232 | a store of ok responses stays one after any strategy |
| `Executors.CacheOnlyIsCacheFirst` | public/sw.js:151-185 | `cacheOnly`, written in the shape of its own code, gives the same outcome, store and network use as `cacheFirst` on every input |
| `Executors.CacheFirstFetchesOnMiss` | public/sw.js:170-185 | a cache-first strategy consults the network exactly on a miss; a hit serves the entry and leaves the store; a miss passes the network's answer on |
| `Executors.CacheFirstSecondRequestHits` | public/sw.js:170-185 | after a miss whose fetch was ok, the next request for the URL is served the same response without the network |
| `Executors.CacheFirstMissNotStored` | public/sw.js:178-184 | a miss whose fetch failed or was not ok leaves the store as it was, still without the URL |
| `Executors.NetworkFirstOnline` | public/sw.js:189-198 | while the network answers, its response is served whatever is stored, and it is stored exactly when ok |
| `Executors.NetworkFirstPassesErrors` | public/sw.js:190-198 | a non-2xx response is served as it is and the store is left unchanged |
| `Executors.NetworkFirstOffline` | public/sw.js:199-209 | when the fetch throws, the stored entry is served, or the failure is rethrown on a miss, and the store is left unchanged |
| `Executors.StaleWhileRevalidateAlwaysFetches` | public/sw.js:213-232 | the network is consulted even on a hit; a hit serves the stored entry and a miss passes the network's answer on |
| `Executors.StaleThenFresh` | public/sw.js:213-232 | a stale entry is served once while the ok answer replaces it, and the next request is served the fresh answer |
| `ServiceWorker.FirstStored` | public/sw.js:106 | `caches.match` finds nothing exactly when no store holds the URL |
| `ServiceWorker.FirstStoredSpec` | public/sw.js:106 | what `caches.match` finds is the entry of the first store, in creation order, that holds the URL |
| `ServiceWorker.Survivors` | public/sw.js:71-73 | the names activate keeps are no more than there were, and none of them has the `blog-cache-` prefix without being `blog-cache-v1` |
| `ServiceWorker.SurvivorsExactly` | public/sw.js:71-77 | a store name survives activation exactly when it existed and either lacks the `blog-cache-` prefix or is `blog-cache-v1` |
| `ServiceWorker.SurvivorsDistinct` | public/sw.js:71-77 | the surviving names stay free of duplicates |
| `ServiceWorker.ActivateExample` | public/sw.js:72-73 | of `blog-cache-v0`, `blog-cache-v1` and `other-cache`, the last two survive, in that order |
| `ServiceWorker.Without` | public/sw.js:76 | deleting a name removes exactly that name from the list of store names |
| `ServiceWorker.Seeds` | public/sw.js:7-14 | the seed list has the five paths, each resolved against the worker's origin, in order |
| `ServiceWorker.SeedsDistinct` | public/sw.js:7-14 | the resolved seed URLs are pairwise different, so `addAll` cannot reject them as duplicates |
| `ServiceWorker.PutAll` | public/sw.js:53 | storing a list of ok responses leaves the store with exactly its old keys and the listed URLs |
| `ServiceWorker.PutAllSpec` | public/sw.js:53 | storing a list of responses adds exactly its URLs, each with its own response, and keeps every other entry |
| `ServiceWorker.Refreshed` | public/sw.js:263-271 | the store after `updateCache` has the same keys as before, and holds only ok responses when it did before |
| `ServiceWorker.RefreshedSpec` | public/sw.js:263-271 | `updateCache` adds and removes no key, replaces exactly the page-like keys whose fetch was ok, and keeps a store of ok responses so |
| `ServiceWorker.BlogKeyNotRefreshed` | public/sw.js:264 | a key ending in `/blog` is never page-like, so it is not refreshed |
| `ServiceWorker.Worker.Open` | public/sw.js:130 | `caches.open` creates the store, empty and last in creation order, only when it is missing, and changes nothing else |
| `ServiceWorker.Worker.Delete` | public/sw.js:76 | `caches.delete` removes exactly the named store and its name |
| `ServiceWorker.Worker.Lookup` | public/sw.js:152 | `cache.match` gives the current store's entry for the URL, or nothing |
| `ServiceWorker.Worker.Put` | public/sw.js:163 | `cache.put` sets the URL's entry in the current store and changes nothing else |
| `ServiceWorker.Worker.Fetch` | public/sw.js:160 | the outcome is awaiting the network's answer, and the URL is recorded as sent once |
| `ServiceWorker.Worker.MatchAll` | public/sw.js:106 | the loop finds the entry that `caches.match` specifies: the first store in creation order holding the URL |
| `ServiceWorker.Worker.CacheOnly` | public/sw.js:151-167 | outcome, new store and network use are those of the `cacheOnly` specification, and the store invariant holds |
| `ServiceWorker.Worker.CacheFirst` | public/sw.js:170-185 | outcome, new store and network use are those of the cache-first specification, and the store invariant holds |
| `ServiceWorker.Worker.NetworkFirst` | public/sw.js:188-210 | outcome and new store are those of the network-first specification, and the URL is always sent to the network |
| `ServiceWorker.Worker.StaleWhileRevalidate` | public/sw.js:213-232 | outcome and new store are those of the stale-while-revalidate specification, and the URL is always sent to the network |
| `ServiceWorker.Worker.HandleRequest` | public/sw.js:129-148 | the current store is opened, and then the strategy named, or a plain fetch for an unknown name, decides outcome, store and network use |
| `ServiceWorker.Worker.OnFetch` | public/sw.js:89-112 | non-GET and cross-origin requests are left alone with nothing changed; otherwise the classified strategy's response is sent, and on failure a navigation gets the stored offline page (or a network error if none is stored) and any other request a 503 response |
| `ServiceWorker.Worker.FetchEach` | public/sw.js:53 | every URL of the list is sent to the network once, and the result is whether every answer was an ok response |
| `ServiceWorker.Worker.PutEach` | public/sw.js:53 | the loop stores each URL's response in turn, giving the entries the putting specification describes |
| `ServiceWorker.Worker.AddAll` | public/sw.js:53 | every URL is fetched; the responses are all stored exactly when every answer is ok and no URL repeats, and otherwise the store is unchanged |
| `ServiceWorker.Worker.OnInstall` | public/sw.js:46-61 | the current store is opened and the five seed URLs fetched; they are all stored, and waiting is skipped, exactly when every answer is ok |
| `ServiceWorker.Worker.EvictAt` | public/sw.js:71-77 | one turn of activation deletes the name looked at exactly when it is stale |
| `ServiceWorker.Worker.Activate` | public/sw.js:64-86 | the names kept are the survivors in their order; the stores kept are exactly the non-stale ones with their entries unchanged; the clients are claimed |
| `ServiceWorker.Worker.OnMessage` | public/sw.js:235-248 | `SKIP_WAITING` only skips waiting; `CACHE_URLS` opens the current store and adds the payload as `addAll` does, all or nothing; any other message changes nothing |
| `ServiceWorker.Worker.RefreshKey` | public/sw.js:265-270 | a page-like key is fetched again and its entry replaced when the answer is ok; any other key is neither fetched nor changed |
| `ServiceWorker.Worker.RefreshKeys` | public/sw.js:265-271 | the loop over the store's keys leaves the refreshed store, and sends exactly the page-like keys to the network, once each, whatever order the keys are visited in |
| `ServiceWorker.Worker.RefreshNext` | public/sw.js:265-270 | one more key joins the refreshed keys: the store becomes the one refreshed on the larger key set, and the keys sent to the network grow by that key exactly when it is page-like |
| `ServiceWorker.Worker.RefreshAll` | public/sw.js:263-273 | after the loop the current store is the refreshed store, and exactly the page-like keys were sent to the network, once each |
| `ServiceWorker.Worker.UpdateCache` | public/sw.js:258-273 | the current store is opened and replaced by its refreshed form, each page-like key is fetched once, and the other stores are unchanged |
| `ServiceWorker.Worker.OnPeriodicSync` | public/sw.js:251-256 | the `update-cache` tag runs `updateCache`, and any other tag changes nothing |
| `Slugify.LowerAll` | src/lib/utils.ts:12 | the lower-cased text has the same length, no upper-case letter, and at each place the lower-cased character of the input |
| `Slugify.DashSpaces` | src/lib/utils.ts:14 | after replacing white-space runs with dashes, no white space is left, and no upper-case letter is introduced |
| `Slugify.KeepWordsAndDashes` | src/lib/utils.ts:15 | only word characters and dashes are left, every word character of the input is kept in order, as many dashes are kept as there were, and no upper-case letter is introduced |
| `Slugify.KeepWordsAndDashesAppend` | src/lib/utils.ts:15 | dropping characters works one character at a time, so it distributes over concatenation |
| `Slugify.CollapseDashes` | src/lib/utils.ts:16 | no two dashes are adjacent, every character other than a dash is kept in order, the first character is kept, and a text of slug characters stays one |
| `Slugify.CollapseDashRun` | src/lib/utils.ts:16 | a run of dashes between two characters other than dashes becomes exactly one dash, and the two sides collapse separately |
| `Slugify.TrimLeadingDashes` | src/lib/utils.ts:17 | the result is a suffix of the input, only dashes were dropped, and it does not start with a dash |
| `Slugify.TrimTrailingDashes` | src/lib/utils.ts:18 | the result is a prefix of the input, only dashes were dropped, and it does not end with a dash |
| `Slugify.TrimDashesIsSlug` | src/lib/utils.ts:17-18 | trimming the dashes at both ends of a text of slug characters without a double dash gives a slug |
| `Slugify.Slugify` | src/lib/utils.ts:9-19 | every result holds only `a-z`, `0-9`, `_` and `-`, neither starts nor ends with `-`, and holds no `--` |
| `Slugify.SlugifyKeepsSlugs` | src/lib/utils.ts:9-19 | a text that is already a slug comes out unchanged |
| `Slugify.SlugifyIdempotent` | src/lib/utils.ts:9-19 | slugifying twice gives what slugifying once gives |
| `Slugify.SlugifyKeepsWords` | src/lib/utils.ts:9-19 | every word character of the input survives, lower-cased and in its order: the chain removes only white space, punctuation and dashes |
| `Slugify.DashedJoin` | src/lib/utils.ts:12-14 | two slugs around a run of white space are lowered, trimmed and dashed into the two slugs joined by one dash |
| `Slugify.SlugsJoinedByOneDash` | src/lib/utils.ts:13-14 | a run of white space between two slugs becomes exactly one dash |
| `Slugify.SpaceRunBecomesOneDash` | src/lib/utils.ts:12-14 | a run of white space between two words of word characters, in any case, becomes exactly one dash, and both words are lower-cased |
| `Slugify.HelloWorld` | src/lib/utils.ts:12-14 | `Hello   World` gives `hello-world` |
| `Slugify.DashRunBecomesOneDash` | src/lib/utils.ts:12-16 | a run of dashes between two words of word characters, in any case, becomes exactly one dash, and both words are lower-cased |
| `ReadingTime.BlankPunctuation` | src/lib/utils.ts:25 | blanking punctuation keeps the length of the text |
| `ReadingTime.SplitOnSpaces` | src/lib/utils.ts:26 | the split has at least one piece, and its first piece is empty exactly when the text is empty or starts with white space |
| `ReadingTime.RunsOfTrim` | src/lib/utils.ts:24 | trimming the content adds and removes no run of word characters |
| `ReadingTime.RunsOfBlankPunctuation` | src/lib/utils.ts:25 | blanking punctuation adds and removes no run of word characters |
| `ReadingTime.SplitCountsRuns` | src/lib/utils.ts:26-27 | on text of word characters and white space, the non-empty pieces of the split are as many as the runs of word characters |
| `ReadingTime.CountNonEmpty` | src/lib/utils.ts:27 | the count of non-empty pieces is at most the number of pieces, and zero exactly when every piece is empty |
| `ReadingTime.WordCountIsRuns` | src/lib/utils.ts:23-27 | trimming, blanking punctuation, splitting on white space and counting the non-empty pieces gives the number of maximal runs of word characters in the content |
| `ReadingTime.WordCount` | src/lib/utils.ts:23-27 | the word count is the number of maximal runs of word characters in the content |
| `ReadingTime.ApostropheSeparatesWords` | src/lib/utils.ts:25 | `don't` counts as two words |
| `ReadingTime.BlankHasNoWords` | src/lib/utils.ts:23-27 | text of white space only holds no word |
| `ReadingTime.Minutes` | src/lib/utils.ts:29 | the minutes are the ceiling of words / 200: none for no words, and otherwise `200*(m-1) < words <= 200*m` |
| `ReadingTime.Decimal` | src/lib/utils.ts:30 | the decimal form is a non-empty string of digits without a leading zero |
| `ReadingTime.DecimalRoundTrip` | src/lib/utils.ts:30 | reading the decimal form back gives the number |
| `ReadingTime.DecimalInjective` | src/lib/utils.ts:30 | different numbers have different decimal forms |
| `ReadingTime.ReadingText` | src/lib/utils.ts:30 | the one-minute special case writes what the general case would: the text is always the minutes in decimal followed by ` min read` |
| `ReadingTime.OneMinuteText` | src/lib/utils.ts:30 | the text is `1 min read` exactly when the estimate is one minute |
| `ReadingTime.ReadingTimeOf` | src/lib/utils.ts:21-37 | the estimate counts the word-character runs, takes the ceiling of words / 200 as minutes, and writes the minutes in decimal before ` min read` |
| `ReadingTime.BlankContent` | src/lib/utils.ts:21-37 | empty or blank content gives 0 words, 0 minutes and `0 min read` |

## Left out

- `formatDate` (src/lib/utils.ts:1-7) is not modelled. It delegates to the locale-dependent `toLocaleDateString`.
- The RSS page and `astro.config.mjs` are not part of this model. They are library calls and static configuration with no logic.
- Logging, `event.waitUntil` and `event.respondWith` are not modelled. `self.skipWaiting()` and `self.clients.claim()` become two boolean flags of the worker.
- Concurrency is not modelled. Each handler runs to completion before the next starts.
  - The `Promise.all` fan-outs of activate and `updateCache` run one name or key at a time.
  - Interleavings between concurrent requests or events are out of scope.
- `ServiceWorker.Worker.StaleWhileRevalidate`: the background `cache.put` (public/sw.js:220) is not awaited in the source, so it may finish after the response is returned or fail silently. The model applies it before the method returns.
- `ServiceWorker.Worker.RefreshAll`: `cache.keys()` returns the keys in insertion order. The model visits them in an arbitrary order. The resulting store does not depend on the order, because each key's update touches only its own entry.
- URL parsing is not modelled:
  - a request carries its URL string and its parsed origin;
  - relative URLs are resolved by prefixing the worker's origin (the seed list and the offline page);
  - a `CACHE_URLS` payload is taken as a list of absolute URLs, and a payload that is not a list is not modelled.
- Regular expressions are not interpreted in general. Each pattern of the table is written out as the string predicate it denotes.
- Response bodies, headers and `clone()` are not modelled. A response is its status and an opaque body, and `ok` is a 2xx status.
- `ServiceWorker.Worker.AddAll`: the platform's `addAll` is modelled as all or nothing. It rejects, storing nothing, when a fetch fails, a response is not ok, or two requests have the same URL. The platform's further checks are not modelled: on the request's method and scheme, on `Vary: *`, and on a 206 status (next lines).
- `ServiceWorker.Worker.Put`: status 206 (Partial Content) is `ok`, but the platform's `cache.put` throws on a 206 response. The model stores it like any other 2xx response. In the source, a 206 answer then fails the strategy:
  - in `cacheOnly` and `cacheFirst` on a miss (public/sw.js:163, 181), the request ends in the offline page or the 503 reply of public/sw.js:103-110, where the model stores and serves the 206 response;
  - in `networkFirst` (public/sw.js:195) the failed `put` leads to the catch branch, which serves the stored entry or, on a miss, ends in that same reply, where the model stores and serves the 206 response;
  - in `staleWhileRevalidate` (public/sw.js:220) the unawaited `put` fails silently, and the store is left as it was.
- `ServiceWorker.Worker.AddAll`: a 206 answer makes the platform's `addAll` (public/sw.js:53) reject and store nothing, where the model stores every answer when all are 2xx.
- Other failures of the cache storage itself (`caches.open`, `cache.put` or `caches.delete` rejecting, quota errors) are not modelled.
- `Text.Lower`: `toLowerCase` is modelled for the ASCII letters only. Other characters are left unchanged.
- White space is modelled as the full `\s` set. Word characters are `[A-Za-z0-9_]`, which is `\w` without the `u` flag.
- `ReadingTime.Minutes`: the source divides with floating point and rounds up with `Math.ceil`. The model uses exact integer ceiling division, which agrees with it for every word count below 2^53.
