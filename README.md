# Web crawler of the Go tour, modelled in Dafny

This project models the concurrent web crawler exercise of the Go tour
(`crawler/crawler.go`). The program crawls a link graph from a seed URL down
to a fixed depth. It fetches pages through a `Fetcher`, skips URLs it has
already claimed, and collects the bodies of the pages it fetched in a shared
`FetcherCache`.

The model is sequential. Each `go Crawl(...)` of the source becomes a plain
recursive call, and the children of a page are crawled in the order the page
lists them. That is one of the interleavings the Go program can run.

- `string_order.dfy` (module `StringOrder`): Go's `<` on strings, and
  `sort.Strings` as an insertion sort. It is proved to return a sorted
  permutation of its input.
- `fetcher.dfy` (module `Fetcher`): `fakeFetcher.Fetch` as a lookup in a
  `map<Url, Page>` passed in explicitly, and the canned table of the
  exercise.
- `cache.dfy` (module `Cache`): the class `FetcherCache` with the fields
  `f` (found URL to body) and `c` (claimed URLs), and its methods
  `HasFetch`, `AddFetch`, `AddFound` and `Sort`.
- `crawler.dfy` (module `Crawler`): `Crawl` as a recursive method on the
  cache with `decreases depth`. It is proved equal to the functions
  `Visit`/`VisitAll`, which give the cache a crawl ends with. The lemmas
  about those functions prove the properties of the crawl. `CrawlGoTour`
  is `main` without its printing.

A few modelling decisions:

- `c` is a Go `map[string]bool` whose values are always `true`, so it is
  modelled as a `set<Url>`.
- The cache carries a ghost field `fetched`: the URLs handed to the
  fetcher, in call order. This is the sequence the fetcher's
  `Fetching ...` log line would show. It exists so that "no URL is fetched
  twice" can be stated.
- The Go `depth` is an `int` and stays one, so negative depths are covered.

Two things the program suggests it does, it does not do. The model follows
the code in both:

- The method name `Sort` and the sorted `keys` slice suggest that the
  results come out ordered by URL. `Sort` does
  sort the keys (lines 44-48), but it then copies the pairs into a new Go
  map, which has no order, and `String` iterates that map. The model proves
  that `Sort` returns exactly `f` (`Cache.FetcherCache.Sort`). The ordering
  exists only in the intermediate `keys` slice (`Cache.FetcherCache.SortedKeys`).
- The exercise suggests that a crawl reaches every URL within the depth.
  The code skips any URL that is already claimed, even when it was
  claimed with fewer levels left. Only the soundness half of the depth bound
  holds: every claimed URL lies within the depth (`Crawler.VisitWithinDepth`).
  `Crawler.FirstClaimWins` shows a graph where a URL within the depth is
  never claimed.

Termination of `Crawl` is proved by its `decreases depth` clause: every
recursive call gets `depth - 1`, and nothing recurses once `depth <= 0`.

## Model

| member | source | states |
|---|---|---|
| `Fetcher.Fetch` | crawler/crawler.go:117-123 | A hit returns exactly the table's body and links. A miss returns the not-found error for the requested URL. |
| `Fetcher.GoTourFetches` | crawler/crawler.go:126-157 | On the canned table, the root, `pkg/`, `pkg/fmt/` and `pkg/os/` return their bodies and links, and `cmd/` is not found. |
| `Cache.FetcherCache.constructor` | crawler/crawler.go:88-94 | The cache starts with no claimed URLs and no found pages. |
| `Cache.FetcherCache.HasFetch` | crawler/crawler.go:23-28 | Returns true iff the URL is claimed. It changes nothing. |
| `Cache.FetcherCache.AddFetch` | crawler/crawler.go:30-34 | The URL becomes claimed and no other claim changes. Claiming an already claimed URL changes nothing, so the method is idempotent. `f` is unchanged. |
| `Cache.FetcherCache.AddFound` | crawler/crawler.go:36-40 | Sets `f[url]` to the body, overwriting any earlier body. Every other entry of `f` and all of `c` are unchanged. |
| `Cache.FetcherCache.SortedKeys` | crawler/crawler.go:44-48 | The `keys` slice holds every key of `f` exactly once, in strictly ascending order. Its length is `len(f)`, whatever order the map was iterated in. |
| `Cache.FetcherCache.Sort` | crawler/crawler.go:42-54 | The returned map has exactly the key/value pairs of `f`, so the order is lost. |
| `StringOrder.Less` | crawler/crawler.go:48 | Go's `<` on strings, which `sort.Strings` sorts by: lexicographic by character, a proper prefix first. Its order properties are the `Less*` lemmas below. |
| `StringOrder.Insert` | crawler/crawler.go:48 | One step of the sort: the result is the input with `x` added (the same multiset plus `x`). |
| `StringOrder.SortStrings` | crawler/crawler.go:48 | `sort.Strings` returns a permutation of its input (the same multiset). |
| `StringOrder.SortStringsSorted` | crawler/crawler.go:48 | The result of `sort.Strings` is in non-descending order under Go's string `<`. |
| `StringOrder.LessTotal` | crawler/crawler.go:48 | Go's string `<` orders any two different strings one way or the other. |
| `StringOrder.LessTransitive` | crawler/crawler.go:48 | Go's string `<` is transitive. |
| `StringOrder.AscendingUnique` | crawler/crawler.go:44-48 | Two ascending sequences with the same elements are equal. So the sorted `keys` do not depend on the map's iteration order. |
| `Cache.FetcherCache.LogFetch` | crawler/crawler.go:118 | Appends the URL to the ghost log of fetcher calls and changes neither `c` nor `f`. |
| `Crawler.Claim` | crawler/crawler.go:73-74 | `AddFetch(url)` followed by the fetcher call, on a snapshot: `url` joins `c` and the fetch log. |
| `Crawler.Record` | crawler/crawler.go:78 | `AddFound(url, body)` on a snapshot: sets `f[url]` to the body. |
| `Crawler.Visit` | crawler/crawler.go:66-84 | The cache a crawl of `url` ends with. A crawl only adds claims, and with `depth > 0` the URL ends up claimed even when its fetch fails. |
| `Crawler.VisitAll` | crawler/crawler.go:80-83 | The cache after crawling a page's links in order. It only adds claims, and with `depth > 0` every link ends up claimed, so a failing sibling does not stop the others. |
| `Crawler.LinksFound` | crawler/crawler.go:75-83 | Failure isolation: from a consistent cache with a level left, every link the fetcher has is found, whichever siblings fail. |
| `Crawler.Crawl` | crawler/crawler.go:66-84 | The cache ends in the state `Visit` gives for the start state. With `depth <= 0` or an already claimed URL, nothing changes and the fetcher is not called. |
| `Crawler.ClaimConsistent` | crawler/crawler.go:73-77 | Claiming an unknown URL and failing to fetch it records nothing in `f` and keeps the cache invariant. |
| `Crawler.ClaimRecordConsistent` | crawler/crawler.go:73-78 | Claiming a URL, fetching it and recording its body keeps the cache invariant. |
| `Crawler.VisitConsistent` | crawler/crawler.go:69-83 | A crawl preserves the invariant: keys(f) is a subset of c; a claimed URL is in `f` iff the fetcher has it, with the fetcher's body; the claimed URLs are exactly the fetched ones, each fetched once. The crawl only adds claims and fetches. |
| `Crawler.VisitAllConsistent` | crawler/crawler.go:80-83 | Crawling a page's links in order preserves the same invariant and only adds claims and fetches. |
| `Crawler.VisitWithinDepth` | crawler/crawler.go:69-83 | Every URL a crawl newly claims is reachable from the seed in fewer than `depth` link hops. Each hop leaves a page the fetcher has. |
| `Crawler.VisitAllWithinDepth` | crawler/crawler.go:80-83 | Every URL newly claimed while crawling a link list is within `depth - 1` hops of one of those links. |
| `Crawler.FetchesOnce` | crawler/crawler.go:69-74 | The fetcher calls a crawl makes are pairwise different. They are exactly the URLs it newly claims, and none of them was claimed before. |
| `Crawler.CrawlFromEmpty` | crawler/crawler.go:66-84 | From an empty cache: found is a subset of claimed, with the fetcher's bodies. Every claimed URL the fetcher has is found, so a failure removes only its own page. Everything claimed is within the depth. Depth `<= 0` yields an empty result. With `depth > 0` the seed is claimed, and with `depth >= 2` every link of the seed's page that the fetcher has is found. |
| `Crawler.FirstClaimWins` | crawler/crawler.go:69-73 | On a concrete graph, a URL two hops from the seed is never claimed by a depth-3 crawl. So completeness within the depth does not hold. |
| `Crawler.GoTourOutcome` | crawler/crawler.go:126-157 | From the root with depth 4, the canned table gives claims {root, pkg, cmd, fmt, os}, fetch order root, pkg, cmd, fmt, os, and `f` = {root, pkg, fmt, os} with their bodies. |
| `Crawler.CrawlGoTour` | crawler/crawler.go:86-101 | `main`'s crawl returns exactly the four pages with their bodies, and `cmd/` is absent. |

## Left out

- Concurrency: the mutexes `fm` and `cm`, the `sync.WaitGroup` `w`, and the `go` statements (crawler/crawler.go:13, 17, 20, 67, 81-82, 96-98). The crawl is sequential, with children in link order.
- `Crawler.FetchesOnce`: holds only for the sequential model. Under goroutines, `HasFetch` followed by `AddFetch` (crawler/crawler.go:69-73) is not atomic, so two tasks can both see a URL as unclaimed and fetch it twice. The model cannot express that race.
- `String` and the `Printf` in `main` (crawler/crawler.go:56-62, 99): output formatting. `String` iterates a Go map, so its order is unspecified.
- The `Fetching %s` log line of `Fetch` (crawler/crawler.go:118): I/O. The ghost `fetched` sequence records the same calls.
- `StringOrder.Less`: Go strings are byte strings; the model's strings are sequences of Unicode characters, so only strings that are valid UTF-8 are covered. For those, comparing characters orders them as Go's byte comparison does.
- The text of the error from `fmt.Errorf` (crawler/crawler.go:122): the model keeps only the URL it names.
- The `Fetcher` interface's other possible implementations: the model takes any table, not a network fetch.
- deadlock/deadlock.go, waitgroup/waitgroup.go and spinner/spinner.go: concurrency and terminal demonstrations with no state logic.
