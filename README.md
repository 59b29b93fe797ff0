# Portfolio service worker, article translations and page widgets in Dafny

This project models three parts of a personal portfolio site and proves properties of the model.

- **The service worker** (`sw.js`) keeps a versioned static cache of the app shell and a dynamic cache that is evicted down to 50 entries after each store (with put and eviction run in sequence, as the scheduling line under "Left out" says). Its `install` step precaches the static assets with the all-or-nothing `addAll`. Its `activate` step deletes every `lp-portfolio-` cache other than the current static and dynamic caches, and then claims the clients. Its `fetch` handler answers GET requests cache-first:
  - a same-origin 200 is stored in the dynamic cache;
  - a cross-origin 200 is stored only when its URL ends in `.css`, `.js`, `.woff2`, `.woff` or `.ttf`;
  - a failed same-origin document request gets the cached `/index.html`.
- **The article translation layer** (`js/blog-article.js`). `BlogArticleI18n` looks a dotted key up in nested dictionaries with `t`. `setLanguage` takes a language only when its dictionaries exist. `applyTranslations` overwrites an element's text, placeholder or title only with a truthy translation.
- **The page widgets** (`js/interactive.js`):
  - the dark/light theme switch;
  - the exclusive skill accordion;
  - the rotating, typed hero subtitle;
  - the blog card search.

Modules, one per file:

- `JsBase` (`js_base.dfy`) holds the JavaScript string built-ins the scripts use: `startsWith`, `includes`, `toLowerCase`, `trim` and `split`. `EndsWith` stands for the `$`-anchored regular expression test of `sw.js`. It also holds `Option`, which stands for `undefined`.
- `Caches` (`caches.dfy`) is the Cache Storage API. A cache is a list of URL/response entries, oldest first; section 5.4 of the W3C Service Workers specification keeps a cache in this order. `CacheStorage` is a class over a `names` sequence and a `store` map.
- `ServiceWorker` (`service_worker.dfy`):
  - the constants of `sw.js`;
  - the pure routing decision `Route`;
  - the class `ServiceWorker`, whose handlers change the `CacheStorage` and append to `log` the effects that leave the worker: fetches, `skipWaiting`, cache deletions and `clients.claim`.
- `BlogArticle` (`blog_article.dfy`):
  - the translation tree;
  - the lookup `t`, as the loop method `T` and as the recursive `Walk`;
  - the "only if truthy" element rewrite;
  - the class `BlogArticleI18n`.
- `Interactive` (`interactive.dfy`) holds the classes `ThemeSwitcher`, `SkillBars` (an `array<bool>` of `active` flags), `TypingEffect` and `BlogSearch`.

Two behaviours are modelled exactly as the code has them:

- `activate` deletes only caches whose name starts with `lp-portfolio-` and is neither current name. `ForeignCachesSurvive` proves that other caches are kept.
- The cross-origin `.catch(() => cachedResponse)` can only return the lookup that already missed. So a failed cross-origin fetch gives the page no response (`CrossOriginFailureGivesNothing`).

## Model

| member | source | states |
|---|---|---|
| JsBase.Includes | js/interactive.js:551-554 | `s.includes(sub)` is true exactly when `sub` occurs at some index of `s`. |
| JsBase.StartsWith | sw.js:39 | `name.startsWith(prefix)` holds exactly when `prefix` occurs at index 0. |
| JsBase.EndsWith | sw.js:79 | `suffix$` matches exactly when `suffix` occurs at the last possible index of the URL. |
| JsBase.ToLowerCase | js/interactive.js:538 | Lowering keeps the length and maps every character by the ASCII case rule. |
| JsBase.LowerIdempotent | js/interactive.js:538 | Lowering a lowered string changes nothing. |
| JsBase.IncludesInEmpty | js/interactive.js:546-554 | Only the empty term occurs in the `''` that a missing key contributes. |
| JsBase.Trim | js/interactive.js:538 | `trim()` gives the slice of `s` between its leading and its trailing whitespace. It is empty exactly when the input is all whitespace, and otherwise it starts and ends with a non-whitespace character. |
| JsBase.TrimStart | js/interactive.js:538 | The result is a suffix of `s`, with only whitespace removed in front of it, and it does not start with whitespace. |
| JsBase.TrimEnd | js/interactive.js:538 | The result is a prefix of `s`, with only whitespace removed after it, and it does not end with whitespace. |
| JsBase.Split | js/blog-article.js:45 | `split('.')` gives at least one part, and no part contains the separator. |
| JsBase.JoinSplit | js/blog-article.js:45 | Joining the parts of a split with the separator gives back the path. |
| JsBase.SplitJoin | js/blog-article.js:45 | Splitting a join of dot-free segments gives back exactly those segments. |
| Caches.Lookup | sw.js:54-57 | `cache.match(url)` finds a response exactly when the URL is stored, and then the response is the one stored with it. |
| Caches.Without | sw.js:20 | `cache.delete(url)` keeps exactly the entries under other URLs and never introduces duplicates. |
| Caches.WithoutConcat | sw.js:20 | `cache.delete(url)` keeps the surviving entries in their order: deleting from a concatenation deletes from each part. |
| Caches.LookupWithout | sw.js:20 | Deleting one URL does not change the lookup of any other URL. |
| Caches.PutEntry | sw.js:62 | After `cache.put`, the URL answers with the new response as the newest entry, and every other URL answers as before. |
| Caches.PutAll | sw.js:29 | The puts of `addAll` keep every URL stored at most once. |
| Caches.PutAllStores | sw.js:29 | After the puts of `addAll`, each fetched URL answers with its own response and every other URL answers as before. |
| Caches.OkStatus | sw.js:29 | `addAll` accepts a response only with an ok (2xx) status that is not 206, and it always accepts a 200. |
| Caches.AddAllAccepts | sw.js:29 | An accepted `addAll` had every fetch succeed and no URL listed twice. |
| Caches.Trimmed | sw.js:16-24 | Evicting the oldest entry while more than `maxSize` remain leaves `maxSize` entries, or all of them when there were no more. |
| Caches.TrimmedKeepsNewest | sw.js:16-24 | Evicting the oldest entry while more than `maxSize` remain leaves exactly the newest `maxSize` entries, in order; a cache within the bound loses nothing; the result has at most `maxSize` entries. |
| Caches.BoundedInsertsKeepNewest | sw.js:16-24 | Putting fresh, distinct URLs with an eviction after each put leaves exactly the newest `maxSize` entries of all inserted ones. |
| Caches.OverflowEvictsFirst | sw.js:19-20 | One put more than the bound into an empty cache evicts the first entry, which then misses, and keeps the rest in order. |
| Caches.BoundTwoKeepsLastTwo | sw.js:19-20 | With bound 2 and the inserts A, B, C, only B and C remain, and A is a miss. |
| Caches.Erase | sw.js:40 | `caches.delete(name)` keeps exactly the other names and keeps them distinct. |
| Caches.EraseMiddle | sw.js:40 | Deleting a name that occurs once leaves the names around it in order. |
| Caches.MatchIn | sw.js:54 | `caches.match` answers from the first cache, in creation order, that holds the URL, and misses exactly when no cache holds it. |
| Caches.CacheStorage.Open | sw.js:17 | `caches.open` creates an empty cache for an unknown name and changes nothing for a known one. |
| Caches.Opened | sw.js:17 | Opening a name keeps the earlier names as a prefix, in order, adds at most one name, and leaves a list that already holds the name unchanged. |
| Caches.CacheStorage.Keys | sw.js:18 | `cache.keys()` lists the URL of every entry, oldest first. |
| Caches.CacheStorage.Match | sw.js:54 | `caches.match(url)` misses exactly when no cache holds the URL; a hit is the response of the first cache, in creation order, that holds it. |
| Caches.CacheStorage.Put | sw.js:62 | `cache.put` replaces just the named cache by its `PutEntry` and keeps the storage valid. |
| Caches.CacheStorage.DeleteEntry | sw.js:20 | `cache.delete(url)` reports whether the URL was stored and removes just its entry. |
| Caches.CacheStorage.AddAll | sw.js:29 | `addAll` stores every fetched response when every fetch is accepted and no URL repeats, and stores nothing otherwise. |
| Caches.CacheStorage.Delete | sw.js:40 | `caches.delete(name)` reports whether the cache existed and removes it from the names and the store. |
| ServiceWorker.StaticUrls | sw.js:6-14 | There is one URL per static asset, in the order of `STATIC_ASSETS`, and each is the worker's origin followed by the asset's path. |
| ServiceWorker.StaticUrlsDistinct | sw.js:6-14 | The static asset URLs are pairwise distinct, so `addAll` never refuses them as duplicates. |
| ServiceWorker.CacheableCrossOrigin | sw.js:79 | The cross-origin storage test holds exactly when the URL ends with one of `.css`, `.js`, `.woff2`, `.woff` or `.ttf`. |
| ServiceWorker.IsStale | sw.js:39 | A stale name is never a current cache name, and a name without the `lp-portfolio-` prefix is never stale. |
| ServiceWorker.IsSkipWaiting | sw.js:94 | The check holds exactly for a message whose data is `{type: 'SKIP_WAITING'}`. |
| ServiceWorker.Route | sw.js:46-91 | A non-GET is not intercepted. A hit is answered from the cache for either origin. A network response is passed on unchanged. A response is stored exactly when it is a 200 with no hit, either same-origin or with an allow-listed extension. A failed fetch gives the app shell for a same-origin document and nothing otherwise. |
| ServiceWorker.HitIgnoresNetwork | sw.js:54-78 | When the request does not go to the network, the decision is the same whatever the network would answer. |
| ServiceWorker.NonGetIgnoresCaches | sw.js:50 | A non-GET request is decided without any cache or network input and is not intercepted. |
| ServiceWorker.CrossOriginFailureGivesNothing | sw.js:77-87 | A failed cross-origin fetch gives the page no response. |
| ServiceWorker.CrossOriginImageNotStored | sw.js:79 | A cross-origin 200 `.png` is returned but not stored. |
| ServiceWorker.CrossOriginQueryNotStored | sw.js:79 | A stylesheet URL with a query string fails the `$`-anchored test and is not stored. |
| ServiceWorker.CrossOriginFontStored | sw.js:79-84 | A cross-origin 200 `.woff2` is returned and stored. |
| ServiceWorker.InstallAcceptsIff | sw.js:29 | Install succeeds exactly when every static asset is fetched with an accepted status. |
| ServiceWorker.StaticCacheHoldsAssets | sw.js:27-31 | After a successful `addAll`, the static cache answers every asset URL with its fetched response. |
| ServiceWorker.OtherVersionsAreStale | sw.js:39 | The static and dynamic caches of any other `lp-portfolio-` version are deleted by `activate`. |
| ServiceWorker.ForeignCachesSurvive | sw.js:39 | Names without the prefix survive `activate`, and so do the current static and dynamic caches. |
| ServiceWorker.KeptMembers | sw.js:38-40 | The names `activate` keeps are exactly the names that are not stale. |
| ServiceWorker.DeletionsMembers | sw.js:38-40 | `activate` deletes every stale name and nothing else. |
| ServiceWorker.FetchEffects | sw.js:29 | `addAll` issues one fetch per URL, in order. |
| ServiceWorker.ServiceWorker.Precache | sw.js:28-29 | The named cache is opened, gains every fetched entry when `addAll` accepts and is unchanged otherwise, and one fetch is logged per URL. |
| ServiceWorker.ServiceWorker.DeleteStale | sw.js:40 | One `caches.delete(name)` removes exactly that name and its entries and logs the deletion. |
| ServiceWorker.ServiceWorker.LimitCacheSize | sw.js:16-24 | The loop that deletes `keys[0]` leaves the named cache `Trimmed` to `maxSize`, and every other cache untouched. |
| ServiceWorker.ServiceWorker.StoreInDynamic | sw.js:61-63 | The put into the dynamic cache, followed by eviction, leaves that cache as the put entry list `Trimmed` to 50 entries. |
| ServiceWorker.ServiceWorker.Install | sw.js:26-32 | The static cache is opened. It gains every fetched asset when `addAll` accepts and is unchanged otherwise. Each asset is fetched once. `skipWaiting` follows only a successful `addAll`. |
| ServiceWorker.ServiceWorker.Activate | sw.js:34-44 | Exactly the stale caches are deleted, in creation order. The other names are kept in their order. `clients.claim` is issued after every deletion. |
| ServiceWorker.ServiceWorker.HandleFetch | sw.js:46-91 | The handler answers as `Route` decides. It fetches only when there is no hit. It stores into the dynamic cache, with eviction, exactly when `Route` says so, and leaves the caches unchanged otherwise. |
| ServiceWorker.ServiceWorker.OnMessage | sw.js:93-97 | `skipWaiting` is called exactly for the `SKIP_WAITING` message. |
| BlogArticle.Child | js/blog-article.js:46-50 | A property access on a present key gives the value stored under it, and a missing key gives `undefined`. |
| BlogArticle.Truthy | js/blog-article.js:65 | Only a found value can be truthy, and an object always is. |
| BlogArticle.Walk | js/blog-article.js:48-56 | A `null` stays `null`, and a value is reached through a non-empty path only from an object. |
| BlogArticle.Resolve | js/blog-article.js:44-57 | `t(path)` is not `null` only when the current language has an object of dictionaries. |
| BlogArticle.InitialLanguage | js/blog-article.js:5 | The stored preference, when there is a non-empty one, and `'it'` otherwise. |
| BlogArticle.ToText | js/blog-article.js:67-69 | A string translation is written as itself, an object as `"[object Object]"`, and a truthy translation is never written as `''`. |
| BlogArticle.WalkAppend | js/blog-article.js:45-55 | Walking `a + b` is walking `a`, then `b`: one key per segment, in order. |
| BlogArticle.ResolveSegments | js/blog-article.js:44-57 | `t` on dot-free segments joined by dots descends from `translations[lang]` along exactly those segments. |
| BlogArticle.ResolveTwoLevels | js/blog-article.js:44-57 | `t("a.b")` is `translations[lang][a][b]` whenever `translations[lang]` and its `a` are objects and the second holds `b`. |
| BlogArticle.DeadEndGivesNull | js/blog-article.js:49-53 | A value that is missing or not an object, met while keys remain, gives `null`. |
| BlogArticle.MissingLastKeyIsUndefined | js/blog-article.js:50-56 | When the segments before the last key lead to an object that lacks it, `t` gives `undefined`, not `null`, for a path of any length. |
| BlogArticle.UnknownLanguageResolvesToNull | js/blog-article.js:46-53 | For a language without dictionaries, every path gives `null`. |
| BlogArticle.Translation | js/blog-article.js:62-65 | There is a text to write exactly when the element has a key and `t(key)` is truthy; the text is then non-empty. |
| BlogArticle.Write | js/blog-article.js:66-88 | A write sets just the property its attribute names, `innerHTML` for `data-i18n-html` elements, and keeps the keys. |
| BlogArticle.LocalizedOverwritesOnlyTruthy | js/blog-article.js:59-90 | Each property is overwritten exactly when its key's translation is truthy, and then with that translation. Keys are never touched. |
| BlogArticle.LocalizedIdempotent | js/blog-article.js:59-90 | Translating twice gives what translating once gave. |
| BlogArticle.UnknownLanguageChangesNoElement | js/blog-article.js:59-90 | For a language without dictionaries, no element changes. |
| BlogArticle.BlogArticleI18n.constructor | js/blog-article.js:4-28 | The language is the initial one and the dictionaries are `window.translations` or empty. Every element is translated, the document language is set, and a selector shows the language. |
| BlogArticle.BlogArticleI18n.GetCurrentLang | js/blog-article.js:96-98 | `getCurrentLang()` returns the current language. |
| BlogArticle.BlogArticleI18n.T | js/blog-article.js:44-57 | The loop's result is `Walk` from `translations[currentLang]` along the split path. |
| BlogArticle.BlogArticleI18n.TranslateAll | js/blog-article.js:61-90 | One pass rewrites each element independently, by the truthy rule, and leaves the rest of the state alone. |
| BlogArticle.Pass | js/blog-article.js:61-90 | One selector pass never changes an element's keys or HTML flag, touches only its own property, and leaves the element as it was when the translation is not truthy. |
| BlogArticle.Localized | js/blog-article.js:61-90 | The three passes keep an element's `data-i18n*` keys and HTML flag. |
| BlogArticle.BlogArticleI18n.ApplyTranslations | js/blog-article.js:59-94 | Every element ends up `Localized` for the current language, and the document language is the current one. |
| BlogArticle.BlogArticleI18n.OnLanguageChanged | js/blog-article.js:15-18 | The event's language is taken with no membership check, and the page is translated into it. |
| BlogArticle.BlogArticleI18n.SetLanguage | js/blog-article.js:30-42 | A language with truthy dictionaries is taken: it is stored, the page is translated, the document language is set, one `languageChanged` is dispatched, and afterwards `getCurrentLang()` returns it. Any other language changes nothing. |
| BlogArticle.BlogArticleI18n.OnSelectorChange | js/blog-article.js:24-26 | The selector holds the chosen value, and everything `setLanguage(value)` does follows: for a language with truthy dictionaries it is stored, the page is translated, the document language is set and one event is dispatched; any other value changes nothing else. |
| Interactive.InitialTheme | js/interactive.js:234 | The stored theme, when there is a non-empty one, and `'dark'` otherwise. |
| Interactive.Toggled | js/interactive.js:246 | The result is dark or light, and it is light exactly when the theme was dark. |
| Interactive.IconFor | js/interactive.js:255-262 | The icon is the moon or the sun, and it is the moon exactly for the dark theme. |
| Interactive.ToggleTwice | js/interactive.js:246 | Two toggles from dark or light restore the original theme. |
| Interactive.ToggleFromOther | js/interactive.js:246 | From any other stored value, the first toggle gives dark and the second gives light. |
| Interactive.ThemeSwitcher.constructor | js/interactive.js:230-243 | The initial theme is shown by the `data-theme` attribute, the icon and the `light-mode` class. |
| Interactive.ThemeSwitcher.Toggle | js/interactive.js:245-270 | A click switches the theme, persists it under `theme`, and keeps the attribute, icon and class in step with it. |
| Interactive.Expanded | js/interactive.js:346-361 | A click on the active category leaves none active; a click on an inactive one makes exactly it active. The number of categories is kept. |
| Interactive.SkillBars.constructor | js/interactive.js:333-336 | The flags are the `active` classes the page already has. |
| Interactive.ExpandedAtMostOne | js/interactive.js:351-355 | After any click at most one category is active. |
| Interactive.ExpandedTwice | js/interactive.js:348-356 | Two clicks on the same category: if it was open, it ends open and alone; if it was closed, every category ends closed. |
| Interactive.SkillBars.ExpandSkillDetails | js/interactive.js:346-361 | The clearing loop, then opening the clicked category when it was closed, leaves the flags as `Expanded`. |
| Interactive.NextIndex | js/interactive.js:406 | The index after a step is below the number of titles. |
| Interactive.NextIndexWraps | js/interactive.js:406 | A step moves to the next title, and from the last title back to the first. |
| Interactive.IndexAfterWraps | js/interactive.js:406 | With the titles unchanged, `n <= count` steps move `n` titles on, wrapping at most once. |
| Interactive.RotationVisitsAll | js/interactive.js:387-407 | From the first title, the rotation shows every title in order and then returns to the first. |
| Interactive.TypingEffect.constructor | js/interactive.js:368-375 | The four default titles, starting at the first. |
| Interactive.TypingEffect.TypeAndDelete | js/interactive.js:388-402 | One cycle shows the prefixes of the current title of lengths 0 up to its length, then its length down to 0. |
| Interactive.TypingEffect.Advance | js/interactive.js:406 | The index becomes `(i + 1) % titles.length` and stays in range. |
| Interactive.TypingEffect.UpdateTitles | js/interactive.js:414-418 | Only a non-empty array replaces the titles, and the index is never reset. |
| Interactive.TitlesAfter | js/interactive.js:414-418 | A run of `updateTitles` calls on non-empty titles leaves non-empty titles. |
| Interactive.Accepted | js/interactive.js:415 | `updateTitles` takes its argument exactly when it is a non-empty array. |
| Interactive.TitlesAfterLastAccepted | js/interactive.js:414-418 | After a run of updates the titles are the last non-empty array of the run. |
| Interactive.TitlesAfterNoneAccepted | js/interactive.js:414-418 | A run of updates without a non-empty array keeps the titles. |
| Interactive.TypingEffect.Cycle | js/interactive.js:387-407 | A turn shows the prefixes of the title it started with, typed and then deleted. The titles become those left by the updates that arrive during its sleeps (`TitlesAfter`). The index becomes `NextIndex` of the old index, taken modulo the new number of titles, so it stays on an existing title. |
| Interactive.LoweredText | js/interactive.js:541-547 | A missing or empty key gives `''`. A translation that is not a string throws a `TypeError` from `toLowerCase`. Otherwise the lowered translation is used. |
| Interactive.SearchTerm | js/interactive.js:538 | The search term is empty exactly when the input is all whitespace. |
| Interactive.MatchesSearch | js/interactive.js:551-554 | The match holds exactly when the term is empty or occurs at some index of the title, the description or the tags. |
| Interactive.CardVerdict | js/interactive.js:540-561 | A card throws exactly when its title or description translation is not a string. Otherwise it is shown (`''`) exactly when the term is empty or occurs in the lowered title, description or tags, and hidden (`'none'`) otherwise. |
| Interactive.Searched | js/interactive.js:556-561 | The search changes only a card's `display`, setting it to the verdict's value, and leaves a throwing card as it was. |
| Interactive.BlankSearchShowsAll | js/interactive.js:538-551 | A blank or whitespace-only search shows every card that does not throw. |
| Interactive.SearchIgnoresCase | js/interactive.js:538 | The search term does not depend on the case of the input. |
| Interactive.BareCardShowsOnlyForEmptyTerm | js/interactive.js:541-554 | A card with no keys and no tags is shown exactly for the empty term. |
| Interactive.TagMatchShows | js/interactive.js:543-558 | A term that occurs in the lowered tags shows the card. |
| Interactive.BlogSearch.ForEachCard | js/interactive.js:540-562 | `forEach` sets each card's display from the callback and stops at the first throw; the cards from there on keep their display. |
| Interactive.BlogSearch.ApplySearch | js/interactive.js:537-563 | Every card before the first throwing one has its `CardVerdict` display; the throwing card and those after it are unchanged. |

## Left out

- The real network, `Response` streams, bodies and headers: the network is an oracle parameter from URL to `Ok(response)` or `Fail`, and `clone()` is a value copy.
- URL parsing: a request carries its `url` and `origin` as given fields, and static asset paths are resolved by prefixing the worker's origin.
- Promise scheduling and concurrency between fetch events: each handler runs to completion. The un-awaited `cache.put` and the fire-and-forget `limitCacheSize` run as put, then evict. `activate`'s deletions run one after another, in the order `caches.keys()` lists the names, rather than through `Promise.all`.
- `event.waitUntil` and `event.respondWith`: the fetch handler returns its answer, and `skipWaiting` and `clients.claim` are entries in the effect log.
- The behaviour of a waiting worker and of controlled clients after `skipWaiting` and `clients.claim`: that is browser lifecycle, not this code.
- The message handler beyond its command check.
- JsBase.ToLowerCase: it maps only `A` to `Z`, because full Unicode case mapping is a table outside the code.
- `localStorage`: it is a `map` field, with no persistence or quota.
- Properties a dictionary inherits from its prototype, such as `t('constructor')`: dictionaries are plain maps.
- Other listeners of `languageChanged`: `dispatched` records each event, and only this object's own listener is run.
- The DOM beyond the fields the code writes:
  - `querySelectorAll` is the element list in document order;
  - an element's `data-*` attributes are fields.
- The early returns of `ThemeSwitcher`, `TypingEffect` and `BlogSearch` when their element is missing: the classes model a page that has the element.
- Visual effects and timing: `animateThemeChange`, the scale transform of a clicked skill category, and the sleeps between typed frames. A frame sequence stands for the text shown over time.
- Interactive.TypingEffect.UpdateTitles: the element type of the array is not checked, as `Array.isArray` does not check it either; titles are strings.
- Interactive.BlogSearch.ApplySearch: `window.i18n.t` belongs to the page's global translation object, which is not part of this model. It is the parameter `tr`, `None` where it gives anything but a string.
- `LanguageSelector`, particles, cursor, tilt, parallax and scroll reveal: they delegate to code not shown here, or are floating-point visual effects.
- ServiceWorker.ServiceWorker.Install: it states the new static cache as `PutAll` of the fetched entries; the per-asset answers are the separate lemma `StaticCacheHoldsAssets`.
- Failures of the Cache Storage calls: `caches.open`, `caches.keys`, `caches.match`, `caches.delete`, `cache.put`, `cache.keys`, `cache.delete` and `cache.addAll` always succeed here, apart from `addAll`'s status and duplicate checks. In the code a rejected `caches.open(DYNAMIC_CACHE)` after a same-origin 200 (sw.js:61) falls into the `.catch`, so the page would get the app shell or nothing. A rejected `caches.keys` or `caches.delete` in `activate` (sw.js:36-42) rejects the chain, so `clients.claim` is never called, while `Activate` always logs it. A rejected call inside `limitCacheSize` stops the eviction. `addAll` can also fail on storage quota.
- Interactive.TypingEffect.TypeAndDelete: frames are counted in Unicode scalar values, a Dafny `char`, while `length` and `substring` count UTF-16 code units; a title with a character outside the Basic Multilingual Plane shows more frames in the code.
- Interactive.TypingEffect.UpdateTitles: the code keeps a reference to the caller's array, so a caller that later empties it makes `% this.titles.length` give `NaN`. The model copies the titles as a value, so later changes to the caller's array are not seen.
- Caches.Lookup: the request URL is compared whole, fragment included, and a stored response's `Vary` header is not honoured. The Cache API's request matching ignores the fragment, so in the code a same-origin GET of `/#about` is answered from the cached `/`, where the model misses, fetches and stores a second entry.
