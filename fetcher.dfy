/** The fetch port of the crawler (the `Fetcher` interface at
    crawler/crawler.go:111-115) and its one implementation, `fakeFetcher`: a
    fixed table from URL to page. The log line the Go code prints on every
    call and the text of its error value are not modelled. */
module Fetcher {

  type Url = string

  /** One table entry (`fakeResult`): the page body and the URLs it links to. */
  datatype Page = Page(body: string, urls: seq<Url>)

  /** A `fakeFetcher`: the canned pages, keyed by URL. */
  type Table = map<Url, Page>

  /** What one call of `Fetch` returns: the body and the links of the page,
      or the "not found" error for the URL that was asked for. */
  datatype Response = Ok(body: string, urls: seq<Url>) | NotFound(url: Url)

  /** `fakeFetcher.Fetch`: a hit returns the table's body and links, a miss
      returns an error naming the URL. */
  function Fetch(table: Table, url: Url): (r: Response)
    ensures r.Ok? <==> url in table
    ensures r.Ok? ==> Page(r.body, r.urls) == table[url]
    ensures r.NotFound? ==> r.url == url
  {
    if url in table then Ok(table[url].body, table[url].urls) else NotFound(url)
  }

  const Root: Url := "https://golang.org/"
  const Pkg: Url := "https://golang.org/pkg/"
  const Cmd: Url := "https://golang.org/cmd/"
  const Fmt: Url := "https://golang.org/pkg/fmt/"
  const Os: Url := "https://golang.org/pkg/os/"

  /** The populated `fetcher` of the Go tour exercise. `Cmd` is linked to
      but has no page of its own. */
  const GoTour: Table := map[
    Root := Page("The Go Programming Language", [Pkg, Cmd]),
    Pkg := Page("Packages", [Root, Cmd, Fmt, Os]),
    Fmt := Page("Package fmt", [Root, Pkg]),
    Os := Page("Package os", [Root, Pkg])
  ]

  /** The five URLs of the exercise are pairwise different. */
  lemma UrlsDistinct()
    ensures Root != Pkg && Root != Cmd && Root != Fmt && Root != Os
    ensures Pkg != Cmd && Pkg != Fmt && Pkg != Os
    ensures Cmd != Fmt && Cmd != Os && Fmt != Os
  {
  }

  /** Fetching from the canned table: the four pages are found with their
      bodies and links, and `Cmd` is not found. */
  lemma GoTourFetches()
    ensures Fetch(GoTour, Root) == Ok("The Go Programming Language", [Pkg, Cmd])
    ensures Fetch(GoTour, Pkg) == Ok("Packages", [Root, Cmd, Fmt, Os])
    ensures Fetch(GoTour, Fmt) == Ok("Package fmt", [Root, Pkg])
    ensures Fetch(GoTour, Os) == Ok("Package os", [Root, Pkg])
    ensures Fetch(GoTour, Cmd) == NotFound(Cmd)
  {
  }
}
