/** `Crawl` (crawler/crawler.go:64-84) and the `main` that drives it
    (crawler/crawler.go:86-101).

    The Go code starts every child crawl in a goroutine of its own and waits
    on a WaitGroup. Here the children are crawled one after the other, in
    the order the page lists them: one of the interleavings the Go program
    may run. `Visit` and `VisitAll` give the outcome of a crawl as a
    function of the cache it starts from; the method `Crawl` is proved to
    reach exactly that outcome, and the lemmas state what the outcome
    satisfies. */
module Crawler {
  import opened Fetcher
  import opened Cache

  /** `AddFetch(url)` followed by the call of the fetcher. */
  function Claim(st: Snapshot, url: Url): Snapshot
  {
    st.(c := st.c + {url}, fetched := st.fetched + [url])
  }

  /** `AddFound(url, body)`. */
  function Record(st: Snapshot, url: Url, body: string): Snapshot
  {
    st.(f := st.f[url := body])
  }

  /** The cache after crawling `url` with `depth` levels left. A crawl
      only adds claims, and with a level left it claims `url`, whether or
      not the fetch then fails. */
  function Visit(table: Table, url: Url, depth: int, st: Snapshot): (r: Snapshot)
    ensures st.c <= r.c
    ensures depth > 0 ==> url in r.c
    decreases depth, 0, 0
  {
    if depth <= 0 || url in st.c then st
    else
      match Fetch(table, url)
      case NotFound(_) => Claim(st, url)
      case Ok(body, urls) => VisitAll(table, urls, depth - 1, Record(Claim(st, url), url, body))
  }

  /** The cache after crawling each of `urls`, in order, with `depth`
      levels left. With a level left every link ends up claimed: a link
      whose fetch fails does not stop its siblings. */
  function VisitAll(table: Table, urls: seq<Url>, depth: int, st: Snapshot): (r: Snapshot)
    ensures st.c <= r.c
    ensures depth > 0 ==> forall u :: u in urls ==> u in r.c
    decreases depth, 1, |urls|
  {
    if urls == [] then st
    else Visit(table, urls[|urls| - 1], depth, VisitAll(table, urls[..|urls| - 1], depth, st))
  }

  /** What holds of every cache a crawl builds from the empty one:
      - every found URL was claimed (keys(f) is a subset of c);
      - a claimed URL is found exactly when the table has it, and then with
        the table's body, so a failed fetch leaves no entry;
      - the claimed URLs are exactly the URLs handed to the fetcher, and no
        URL was handed to it twice. */
  ghost predicate Consistent(table: Table, st: Snapshot)
  {
    && (forall u :: u in st.f ==> u in st.c)
    && (forall u :: u in st.c ==> (u in st.f <==> u in table))
    && (forall u :: u in st.f ==> u in table && st.f[u] == table[u].body)
    && (forall u :: u in st.c <==> u in st.fetched)
    && (forall i, j :: 0 <= i < j < |st.fetched| ==> st.fetched[i] != st.fetched[j])
  }

  /** `r` is `st` with more URLs claimed and more fetches logged. */
  ghost predicate Grows(st: Snapshot, r: Snapshot)
  {
    st.c <= r.c && |st.fetched| <= |r.fetched| && r.fetched[..|st.fetched|] == st.fetched
  }

  /** `to` can be reached from `from` by following at most `n` links, each
      out of a page the table has. */
  ghost predicate Within(table: Table, from: Url, to: Url, n: nat)
    decreases n
  {
    || from == to
    || (n > 0 && from in table &&
        exists i :: 0 <= i < |table[from].urls| && Within(table, table[from].urls[i], to, n - 1))
  }

  lemma ConsistentEmpty(table: Table)
    ensures Consistent(table, Empty)
  {
  }

  lemma GrowsTransitive(a: Snapshot, b: Snapshot, c: Snapshot)
    requires Grows(a, b) && Grows(b, c)
    ensures Grows(a, c)
  {
  }

  /** Claiming a URL the table lacks keeps the cache consistent. */
  lemma ClaimConsistent(table: Table, st: Snapshot, url: Url)
    requires Consistent(table, st) && url !in st.c && url !in table
    ensures Consistent(table, Claim(st, url)) && Grows(st, Claim(st, url))
  {
  }

  /** Claiming a URL the table has and recording its body keeps the cache
      consistent. */
  lemma ClaimRecordConsistent(table: Table, st: Snapshot, url: Url)
    requires Consistent(table, st) && url !in st.c && url in table
    ensures var r := Record(Claim(st, url), url, table[url].body);
      Consistent(table, r) && Grows(st, r)
  {
  }

  /** A crawl keeps the cache consistent, and only adds to it. */
  lemma {:induction false} VisitConsistent(table: Table, url: Url, depth: int, st: Snapshot)
    requires Consistent(table, st)
    ensures Consistent(table, Visit(table, url, depth, st))
    ensures Grows(st, Visit(table, url, depth, st))
    decreases depth, 0, 0
  {
    if depth > 0 && url !in st.c {
      match Fetch(table, url)
      case NotFound(_) =>
        ClaimConsistent(table, st, url);
      case Ok(body, urls) =>
        var found := Record(Claim(st, url), url, body);
        ClaimRecordConsistent(table, st, url);
        VisitAllConsistent(table, urls, depth - 1, found);
        GrowsTransitive(st, found, VisitAll(table, urls, depth - 1, found));
    }
  }

  lemma {:induction false} VisitAllConsistent(table: Table, urls: seq<Url>, depth: int, st: Snapshot)
    requires Consistent(table, st)
    ensures Consistent(table, VisitAll(table, urls, depth, st))
    ensures Grows(st, VisitAll(table, urls, depth, st))
    decreases depth, 1, |urls|
  {
    if urls != [] {
      var mid := VisitAll(table, urls[..|urls| - 1], depth, st);
      VisitAllConsistent(table, urls[..|urls| - 1], depth, st);
      VisitConsistent(table, urls[|urls| - 1], depth, mid);
      GrowsTransitive(st, mid, Visit(table, urls[|urls| - 1], depth, mid));
    }
  }

  /** The depth bound: every URL a crawl claims is `url` itself or lies
      fewer than `depth` links away from it. */
  lemma {:induction false} VisitWithinDepth(table: Table, url: Url, depth: int, st: Snapshot)
    ensures forall u :: u in Visit(table, url, depth, st).c && u !in st.c ==>
      depth > 0 && Within(table, url, u, depth - 1)
    decreases depth, 0, 0
  {
    if depth > 0 && url !in st.c {
      match Fetch(table, url)
      case NotFound(_) =>
      case Ok(body, urls) =>
        var found := Record(Claim(st, url), url, body);
        VisitAllWithinDepth(table, urls, depth - 1, found);
        forall u | u in VisitAll(table, urls, depth - 1, found).c && u !in st.c
          ensures Within(table, url, u, depth - 1)
        {
          if u != url {
            var i :| 0 <= i < |urls| && Within(table, urls[i], u, depth - 2);
            assert table[url].urls[i] == urls[i];
          }
        }
    }
  }

  lemma {:induction false} VisitAllWithinDepth(table: Table, urls: seq<Url>, depth: int, st: Snapshot)
    ensures forall u :: u in VisitAll(table, urls, depth, st).c && u !in st.c ==>
      depth > 0 && exists i :: 0 <= i < |urls| && Within(table, urls[i], u, depth - 1)
    decreases depth, 1, |urls|
  {
    if urls != [] {
      var init, last := urls[..|urls| - 1], urls[|urls| - 1];
      var mid := VisitAll(table, init, depth, st);
      VisitAllWithinDepth(table, init, depth, st);
      VisitWithinDepth(table, last, depth, mid);
      forall u | u in Visit(table, last, depth, mid).c && u !in st.c
        ensures depth > 0 && exists i :: 0 <= i < |urls| && Within(table, urls[i], u, depth - 1)
      {
        if u in mid.c {
          var i :| 0 <= i < |init| && Within(table, init[i], u, depth - 1);
          assert urls[i] == init[i];
        } else {
          assert urls[|urls| - 1] == last;
        }
      }
    }
  }

  /** Each URL is handed to the fetcher at most once: the fetches a crawl
      makes are all different, and they are exactly the URLs it claims,
      none of which was claimed before. */
  lemma FetchesOnce(table: Table, url: Url, depth: int, st: Snapshot)
    requires Consistent(table, st)
    ensures |st.fetched| <= |Visit(table, url, depth, st).fetched|
    ensures var r := Visit(table, url, depth, st);
      var calls := r.fetched[|st.fetched|..];
      && (forall i, j :: 0 <= i < j < |calls| ==> calls[i] != calls[j])
      && (forall u :: u in calls <==> u in r.c && u !in st.c)
  {
    var r := Visit(table, url, depth, st);
    VisitConsistent(table, url, depth, st);
    var n := |st.fetched|;
    var calls := r.fetched[n..];
    assert r.fetched == st.fetched + calls;
    forall u
      ensures u in calls <==> u in r.c && u !in st.c
    {
      if u in calls {
        var k :| 0 <= k < |calls| && calls[k] == u;
        assert r.fetched[n + k] == u;
        forall m | 0 <= m < n
          ensures st.fetched[m] != u
        {
          assert r.fetched[m] == st.fetched[m];
        }
      }
      if u in r.c && u !in st.c {
        assert u in r.fetched;
        var k :| 0 <= k < |r.fetched| && r.fetched[k] == u;
        assert forall m :: 0 <= m < n ==> r.fetched[m] == st.fetched[m] && st.fetched[m] != u;
        assert calls[k - n] == u;
      }
    }
  }

  /** Failure isolation: crawling a page's links with a level left finds
      every link the table has, whichever of its siblings fail to fetch. */
  lemma LinksFound(table: Table, urls: seq<Url>, depth: int, st: Snapshot)
    requires Consistent(table, st) && depth > 0
    ensures forall u :: u in urls && u in table ==> u in VisitAll(table, urls, depth, st).f
  {
    VisitAllConsistent(table, urls, depth, st);
  }

  /** A whole crawl from the empty cache, as `main` starts it: every found
      URL was claimed and carries the table's body; every claimed URL the
      table has was found, so a failed fetch costs only its own page; every
      claimed URL lies fewer than `depth` links from the seed; depth 0 or
      less finds nothing; with a level left the seed is claimed, and with
      two every link of the seed's page that the table has is found. */
  lemma CrawlFromEmpty(table: Table, seed: Url, depth: int)
    ensures var r := Visit(table, seed, depth, Empty);
      && (forall u :: u in r.f ==> u in r.c)
      && (forall u :: u in r.f ==> u in table && r.f[u] == table[u].body)
      && (forall u :: u in r.c && u in table ==> u in r.f)
      && (forall u :: u in r.c ==> depth > 0 && Within(table, seed, u, depth - 1))
      && (depth <= 0 ==> r.f == map[] && r.c == {})
      && (depth > 0 ==> seed in r.c)
      && (depth >= 2 && seed in table ==> forall u :: u in table[seed].urls && u in table ==> u in r.f)
  {
    ConsistentEmpty(table);
    VisitConsistent(table, seed, depth, Empty);
    VisitWithinDepth(table, seed, depth, Empty);
    if depth >= 2 && seed in table {
      var found := Record(Claim(Empty, seed), seed, table[seed].body);
      ClaimRecordConsistent(table, Empty, seed);
      LinksFound(table, table[seed].urls, depth - 1, found);
    }
  }

  /** `Crawl` (crawler/crawler.go:66-84) with the child goroutines run one
      after the other. It stops at depth 0 and on a URL already claimed;
      otherwise it claims the URL, fetches it, and on success records the
      body and crawls each link one level deeper. */
  method Crawl(url: Url, depth: int, fc: FetcherCache, table: Table)
    modifies fc
    ensures fc.State() == Visit(table, url, depth, old(fc.State()))
    ensures depth <= 0 || url in old(fc.c) ==> fc.State() == old(fc.State())
    decreases depth
  {
    if depth <= 0 {
      return;
    }
    var seen := fc.HasFetch(url);
    if seen {
      return;
    }
    fc.AddFetch(url);
    var response := Fetch(table, url);
    fc.LogFetch(url);
    if response.NotFound? {
      return;
    }
    fc.AddFound(url, response.body);
    ghost var start := fc.State();
    var urls := response.urls;
    for i := 0 to |urls|
      invariant fc.State() == VisitAll(table, urls[..i], depth - 1, start)
    {
      assert urls[..i + 1][..i] == urls[..i];
      Crawl(urls[i], depth - 1, fc, table);
    }
    assert urls[..|urls|] == urls;
  }

  /** On the canned table, `fmt/` and `os/` link only back to the root and
      `pkg/`; once those are claimed, crawling those links does nothing. */
  lemma BackLinksStop(st: Snapshot)
    requires Root in st.c && Pkg in st.c
    ensures VisitAll(GoTour, [Root, Pkg], 1, st) == st
  {
    assert [Root, Pkg][..1] == [Root] && [Root][..0] == [];
    assert VisitAll(GoTour, [Root], 1, st) == st;
  }

  /** Crawling `fmt/` or `os/` with two levels left, once the root and
      `pkg/` are claimed, claims and records that one page. */
  lemma LeafVisit(url: Url, st: Snapshot)
    requires url == Fmt || url == Os
    requires url !in st.c && Root in st.c && Pkg in st.c
    ensures url in GoTour
    ensures Visit(GoTour, url, 2, st) == Record(Claim(st, url), url, GoTour[url].body)
  {
    UrlsDistinct();
    GoTourFetches();
    BackLinksStop(Record(Claim(st, url), url, GoTour[url].body));
  }

  /** The cache `main` ends with: the four pages of the exercise with their
      bodies. `Cmd` was claimed and fetched, but the fetch failed. */
  lemma GoTourOutcome()
    ensures Visit(GoTour, Root, 4, Empty) == Snapshot(
      {Root, Pkg, Cmd, Fmt, Os},
      map[Root := "The Go Programming Language", Pkg := "Packages",
          Fmt := "Package fmt", Os := "Package os"],
      [Root, Pkg, Cmd, Fmt, Os])
  {
    UrlsDistinct();
    GoTourFetches();
    var s1 := Record(Claim(Empty, Root), Root, "The Go Programming Language");
    var s2 := Record(Claim(s1, Pkg), Pkg, "Packages");
    var s3 := Claim(s2, Cmd);
    var s4 := Record(Claim(s3, Fmt), Fmt, "Package fmt");
    var s5 := Record(Claim(s4, Os), Os, "Package os");
    // The links of pkg/, with two levels left: the root is claimed, cmd/
    // fails, fmt/ and os/ are found.
    var pkgLinks := [Root, Cmd, Fmt, Os];
    assert pkgLinks[..3] == [Root, Cmd, Fmt] && pkgLinks[..3][..2] == [Root, Cmd];
    assert pkgLinks[..3][..2][..1] == [Root];
    assert VisitAll(GoTour, [Root], 2, s2) == s2;
    assert VisitAll(GoTour, [Root, Cmd], 2, s2) == s3;
    LeafVisit(Fmt, s3);
    assert VisitAll(GoTour, [Root, Cmd, Fmt], 2, s2) == s4;
    LeafVisit(Os, s4);
    assert VisitAll(GoTour, pkgLinks, 2, s2) == s5;
    // The links of the root, with three levels left: cmd/ is already
    // claimed when its turn comes.
    assert Visit(GoTour, Pkg, 3, s1) == s5;
    assert [Pkg, Cmd][..1] == [Pkg] && [Pkg][..0] == [];
    assert VisitAll(GoTour, [Pkg], 3, s1) == s5;
    assert VisitAll(GoTour, [Pkg, Cmd], 3, s1) == s5;
    assert s5.fetched == [Root, Pkg, Cmd, Fmt, Os];
  }

  /** `main` (crawler/crawler.go:86-101) without the printing: crawl the
      exercise's table from the root with depth 4 and return what `Sort`
      returns: a map of the found pages, without an order. */
  method CrawlGoTour() returns (found: map<Url, string>)
    ensures found == map[Root := "The Go Programming Language", Pkg := "Packages",
                         Fmt := "Package fmt", Os := "Package os"]
    ensures Cmd !in found
  {
    var fc := new FetcherCache();
    Crawl(Root, 4, fc, GoTour);
    GoTourOutcome();
    UrlsDistinct();
    found := fc.Sort();
  }

  /** The depth bound holds only one way. A URL first reached along a long
      path is claimed with few levels left and is skipped when a shorter
      path reaches it later, so pages within the depth can be missed: here
      "x" is two links from "s" (s, b, x), and the crawl with depth 3 never
      claims it, because "b" was first reached through "a". */
  lemma FirstClaimWins()
    ensures var table := map["s" := Page("", ["a", "b"]), "a" := Page("", ["b"]), "b" := Page("", ["x"])];
      && Within(table, "s", "x", 2)
      && "x" !in Visit(table, "s", 3, Empty).c
  {
    var table := map["s" := Page("", ["a", "b"]), "a" := Page("", ["b"]), "b" := Page("", ["x"])];
    assert Within(table, "x", "x", 0);
    assert table["b"].urls[0] == "x";
    assert Within(table, "b", "x", 1);
    assert table["s"].urls[1] == "b";
    var s1 := Snapshot({"s"}, map["s" := ""], ["s"]);
    var s2 := Snapshot({"s", "a"}, s1.f["a" := ""], ["s", "a"]);
    var s3 := Snapshot({"s", "a", "b"}, s2.f["b" := ""], ["s", "a", "b"]);
    assert VisitAll(table, ["x"], 0, s3) == s3;
    assert Visit(table, "b", 1, s2) == s3;
    assert VisitAll(table, ["b"], 1, s2) == s3;
    assert Visit(table, "a", 2, s1) == s3;
    assert ["a", "b"][..1] == ["a"];
    assert VisitAll(table, ["a", "b"], 2, s1) == s3;
  }
}
