# sitemap-generator: a verified model of the crawler core

This project models the core of `sitemap-generator`, a Go tool that crawls one
website from a seed URL and writes a sitemap. It covers four pieces of
`main.go`:

- the URL normaliser `normalizeURL`, which maps a URL to the key used for
  deduplication;
- the same-host depth-first crawler `crawl`/`visitLinks`, which updates a
  shared `visited` map and an append-only `urls` slice;
- the driver in `main`, which crawls the seed and then each additional URL
  with one shared state;
- the mapping of the output list to the `UrlSet` document in `writeSitemap`.

The network, the HTML parser and the URL parser are replaced by oracles
(Dafny function values) held in a `Web` record:

- `fetch` maps a key to `FetchError` or to `Response(status, contentType, doc)`.
  `doc` is `None` when the body does not parse.
- `resolve(base, href)` stands for `base.Parse(href)`. It returns `None` on a
  parse error.
- `universe` is a finite set of keys. The assumption `Closed` says every
  resolved link is well formed (`WellFormed`: a scheme without `:`, a host
  without `/`, a path that is empty or starts with `/`, as Go's `net/url`
  produces for a resolved reference) and has the empty key or a key in
  `universe`. This is the
  finiteness bound that makes the crawl terminate. The running program has no
  such bound.

Files and modules:

- `Wrappers.dfy`: `Option`.
- `Strings.dfy`: `strings.TrimSuffix` and `strings.Contains`.
- `Urls.dfy`: the `Url` record and `NormalizeUrl`.
- `Html.dfy`: the parsed tree `Node` and the first-`href` rule of `<a>` elements.
- `CrawlSpec.dfy`: the crawler as functions from the state before a call to the
  state after it, plus the lemmas about them.
- `Crawling.dfy`: the class `Crawler` with fields `visited` and `urls`. Its
  methods `Crawl`, `VisitLinks`, `VisitChildren` and `FollowAnchor` update those fields in place
  with the source's loops, including the early `break` of the attribute loop.
  Each method is proved to produce exactly the state given by the matching
  `CrawlSpec` function. `Generate` is the driver of `main`.
- `Sitemap.dfy`: the `UrlSet` document built by `writeSitemap`.
- `Scenarios.dfy`: a concrete three-link site whose crawl order is proved.

In the Go source, one `visitLinks` function holds both the attribute loop and
the sibling loop. In the model, the attribute loop is the method
`Crawler.FollowAnchor` and the sibling loop is `Crawler.VisitChildren`;
`Crawler.VisitLinks` calls the first, then the second. The sibling
chain `FirstChild`/`NextSibling` is modelled as the sequence `children`.

Points where a reader might expect other behaviour, and what the code does:

- A URL with a query is not merged with its query-free form: main.go:175-176
  returns `""` for it, so it is never crawled.
- Only one trailing `/` is removed, although the comment at main.go:179 says
  "slashes": main.go:180 is a single `strings.TrimSuffix`. So a key produced
  from a path ending in `//` ends in `/`, and such a key is not a fixed point
  of the normaliser (`SlashKeyNotFixedPoint`).
- Only status 200 exactly is followed, not every 2xx status: main.go:99
  compares with `http.StatusOK`.

## Model

| member | source | states |
|---|---|---|
| `Strings.TrimSuffix` | main.go:180 | when `s` ends with the suffix, the result followed by the suffix is `s`; otherwise the result is `s` |
| `Strings.Contains` | main.go:106 | a string that starts with `sub` contains it, and a string that contains `sub` is at least as long as `sub` |
| `Strings.ContainsIff` | main.go:106 | `Contains(s, sub)` holds exactly when `sub` occurs in `s` at some offset |
| `Urls.NormalizeUrl` | main.go:173-182 | the key is `""` exactly when the raw query is non-empty; with an empty query the key starts with `scheme + ":/"`, and it equals `scheme://host+path`, minus one final `/` if that string ends in `/` |
| `Urls.HostOfKeyIsHost` | main.go:173-182 | for a well-formed URL without a query, the host read back from its key (after the first `:` and `//`, up to the next `/`) is the URL's host, port included, so URLs on different hosts never share a key |
| `Urls.TrailingSlashIgnored` | main.go:178-180 | for a URL without a query and without a final `/`, adding one `/` to the path changes neither key, and the key is `scheme://host+path` |
| `Urls.OnlyOneSlashRemoved` | main.go:179-180 | a path ending in `//` gives the key `scheme://host+path` followed by `/`, which still ends in `/` |
| `Urls.KeyIsFixedPoint` | main.go:173-182 | a key without a final `/`, re-read as a query-free URL, normalises to itself |
| `Urls.SlashKeyNotFixedPoint` | main.go:179-180 | a key that ends in `/`, re-read as a URL, loses one more `/` when normalised again |
| `Html.HrefIndex` | main.go:126-140 | the index where the attribute loop stops is the first attribute whose key is `href`, or the list's length when there is none |
| `Html.Href` | main.go:125-140 | a node offers a link exactly when it is an `a` element with some `href` attribute, and the link is the value of the first such attribute |
| `CrawlSpec.FollowedLink` | main.go:125-130 | a node yields a link exactly when its first `href` resolves and the resolved host equals the host of `base`; the link yielded is the resolution of that first `href` against `base` |
| `CrawlSpec.Record` | main.go:87-88 | recording appends exactly the key to the output and marks it visited; recording a fresh key keeps the invariant |
| `CrawlSpec.DeadEnd` | main.go:90-119 | a fetch leaves links to follow exactly when it returns a response with status 200, a `Content-Type` in which `text/html` occurs at some offset, and a body that parses |
| `CrawlSpec.Crawl` | main.go:77-122 | extends the state (visited grows, old output is a prefix, the appended keys are distinct, fresh, and exactly the newly visited keys); when `u` is well formed, every appended key is on the host of `u`; an ignored or already-visited key leaves the state unchanged; a fresh key is appended first; on a fetch error, a status other than 200, a non-`text/html` type or a parse failure, only that key is recorded |
| `CrawlSpec.RecordFresh` | main.go:79-88 | recording a fresh key extends the state by that key alone, on the host of a well-formed `u`, and lowers the termination measure |
| `CrawlSpec.KeyOnOneHost` | main.go:129 | a key on host `h` reads back to `h` and is on no other host, so the `Host` comparison of main.go:129, port included, carries over to keys |
| `CrawlSpec.FollowLink` | main.go:125-141 | following a node's own link extends the state, with appended keys only on the host of `base` |
| `CrawlSpec.VisitLinks` | main.go:124-145 | extends the state, and every appended key is on the host of `base` |
| `CrawlSpec.VisitChildren` | main.go:142-144 | visiting siblings in order extends the state, and every appended key is on the host of `base` |
| `CrawlSpec.ExtendsKeepsInv` | main.go:79-88 | an extended state keeps the invariant: no duplicate output, and the visited set equals the set of output keys |
| `CrawlSpec.CrawlKeepsInv` | main.go:77-122 | `crawl` preserves the invariant |
| `CrawlSpec.VisitLinksKeepsInv` | main.go:124-145 | `visitLinks` preserves the invariant |
| `CrawlSpec.LinksOnHost` | main.go:129 | every link followed anywhere in a tree is on the host of `base` |
| `CrawlSpec.VisitLinksIsCrawlAll` | main.go:124-145 | `visitLinks` on a tree equals crawling, one after another, the tree's followed links in depth-first pre-order (document order); the freshness test at line 131 changes nothing |
| `CrawlSpec.VisitChildrenIsCrawlAll` | main.go:142-144 | visiting a list of siblings equals crawling the concatenation of their link lists in order |
| `CrawlSpec.CrawlVisitsKey` | main.go:79-88 | after a crawl of a URL with a non-empty key, that key is visited |
| `CrawlSpec.CrawlAllVisits` | main.go:124-145 | after crawling a list of URLs one after another, the key of every URL in the list is visited, unless it is empty |
| `CrawlSpec.CrawlFollowsLinks` | main.go:121-145 | when a fresh key's page is an HTML document, every link `visitLinks` follows in it has its key visited once `crawl` returns |
| `CrawlSpec.CrawlExtra` | main.go:65-72 | the loop over additional URLs extends the state |
| `CrawlSpec.CrawlExtraStep` | main.go:65-72 | one turn of the loop: an additional URL that does not resolve leaves the state as it is, one that resolves is crawled with the shared state |
| `CrawlSpec.CrawlExtraVisits` | main.go:65-72 | after the loop, every additional URL that resolves to a URL with a non-empty key has that key visited |
| `CrawlSpec.CrawlExtraSkips` | main.go:66-69 | when no additional URL resolves, the loop leaves the state unchanged |
| `CrawlSpec.Run` | main.go:58-72 | a whole run extends the empty state and the state after the seed's crawl; with no additional URLs it is the seed's crawl |
| `CrawlSpec.RunOutput` | main.go:58-72 | a whole run outputs no key twice, its output keys are exactly the visited keys, and the output starts with the seed's key unless the seed is ignored |
| `CrawlSpec.CrawlExtraOnHosts` | main.go:65-72 | the additional URLs only add keys on the hosts of those additional URLs that resolve, and each added key reads back to one of those hosts |
| `CrawlSpec.RunOnHosts` | main.go:58-72 | for a well-formed seed, every output key is the key of a well-formed URL on the seed's host or on the host of an additional URL that resolves, and reads back to one of those hosts |
| `CrawlSpec.RunVisitsSeedAndExtras` | main.go:60-71 | a whole run visits the seed's key, unless empty, and the key of every additional URL that resolves, unless empty |
| `CrawlSpec.RunOnSeedHost` | main.go:58-72 | for a well-formed seed and no additional URLs, every output key is the key of a well-formed URL on the seed's host and reads back to exactly that host |
| `Crawling.Crawler.constructor` | main.go:58-59 | the crawler starts with an empty visited set and empty output, and satisfies its invariant |
| `Crawling.Crawler.Crawl` | main.go:77-122 | the in-place `crawl` keeps the invariant and leaves the state that `CrawlSpec.Crawl` gives for the old state |
| `Crawling.Crawler.VisitLinks` | main.go:124-145 | the in-place `visitLinks` keeps the invariant and leaves the state that `CrawlSpec.VisitLinks` gives |
| `Crawling.Crawler.VisitChildren` | main.go:142-144 | the in-place sibling loop keeps the invariant and leaves the state that `CrawlSpec.VisitChildren` gives |
| `Crawling.Crawler.FollowAnchor` | main.go:125-141 | the attribute loop with its `break` leaves the state that `CrawlSpec.FollowLink` gives |
| `Crawling.Generate` | main.go:47-74 | no sitemap when the domain is empty or does not parse; otherwise the sitemap lists the output of the whole run in order, and that output has no duplicates |
| `Sitemap.BuildUrlSet` | main.go:147-151 | the document has the sitemaps.org 0.9 namespace and one entry per key, holding that key, in the same order |
| `Scenarios.DiscoveryOrder` | main.go:77-145 | a seed linking to `/a`, `/b?x=1` and `/a/` outputs exactly `https://ex.com` then `https://ex.com/a` |

## Left out

- `http.Get`, response headers and body, and `defer resp.Body.Close()` are network I/O. They are replaced by the `fetch` oracle, which is keyed by the normalised URL, as the call at main.go:90 is. Redirects that the HTTP client follows are not modelled. The oracle always returns, so the termination result rests on every `http.Get` returning. Go's default HTTP client has no timeout, so a server that stalls blocks the real crawl forever; the model does not cover that case.
- `html.Parse` is a foreign parser. The model keeps only its output tree, or `None` on failure.
- `url.Parse(*domain)` and `baseURL.Parse(...)` are library calls. They are the oracles `parse` and `resolve`.
- Flag parsing (`flag.*`, `urlList.String`, `urlList.Set`) is not modelled. `Generate` takes the domain string and the list of additional URLs as parameters.
- All printing is not modelled: the `verbose` diagnostics and the error messages for an empty domain, an invalid domain or an invalid additional URL. Printing does not affect results.
- The XML encoding, the 2-space indentation and the creation of `sitemap.xml` in `writeSitemap` are serialisation and file I/O. Only the list-to-`UrlSet` mapping is modelled.
- Termination uses the assumption `Closed` together with `InScope` of the seed, because keys must lie in a finite `universe`. On a site with infinitely many distinct same-host keys, the Go program can run forever; the model does not cover that case.
- RunOnHosts and RunOnSeedHost require a well-formed seed. `url.Parse` of a domain given without a scheme, such as `example.com`, yields host `""` and path `example.com`, which is not well formed, and for such a seed the model makes no statement about hosts. Every resolved link is well formed by the assumption `Closed`, which matches what `base.Parse` returns but is not proved of Go's `net/url`.
