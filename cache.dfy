/** `FetcherCache` (crawler/crawler.go:9-54): the crawler's shared state.

    The Go struct holds two maps, each behind its own mutex, and a
    WaitGroup. The mutexes and the WaitGroup only serve concurrency and are
    not modelled; the crawl is modelled sequentially. The claim map `c` is a
    `map[string]bool` whose values are always `true`, so only its key set
    carries information and it is modelled as a set. */
module Cache {
  import opened Fetcher
  import opened StringOrder

  /** The whole state of a cache as a value: the claimed URLs `c`, the
      found bodies `f`, and the URLs handed to the fetcher so far, in call
      order. */
  datatype Snapshot = Snapshot(c: set<Url>, f: map<Url, string>, fetched: seq<Url>)

  const Empty := Snapshot({}, map[], [])

  class FetcherCache {
    /** Found URLs and their bodies. */
    var f: map<Url, string>
    /** URLs claimed for fetching. */
    var c: set<Url>
    /** Every URL passed to the fetcher, in call order (what the fetcher's
        "Fetching" log line would show). */
    ghost var fetched: seq<Url>

    ghost function State(): Snapshot
      reads this
    {
      Snapshot(c, f, fetched)
    }

    /** The empty cache `main` builds (crawler/crawler.go:88-94). */
    constructor ()
      ensures State() == Empty
    {
      f := map[];
      c := {};
      fetched := [];
    }

    /** Whether `url` has been claimed; changes nothing. */
    method HasFetch(url: Url) returns (ok: bool)
      ensures ok <==> url in c
    {
      ok := url in c;
    }

    /** Claims `url`. Claiming an already claimed URL changes nothing. */
    method AddFetch(url: Url)
      modifies this
      ensures c == old(c) + {url}
      ensures url in old(c) ==> c == old(c)
      ensures f == old(f) && fetched == old(fetched)
    {
      c := c + {url};
    }

    /** Logs one call of the fetcher. */
    ghost method LogFetch(url: Url)
      modifies this
      ensures fetched == old(fetched) + [url]
      ensures c == old(c) && f == old(f)
    {
      fetched := fetched + [url];
    }

    /** Records `body` for `url`, replacing any earlier body. */
    method AddFound(url: Url, body: string)
      modifies this
      ensures f == old(f)[url := body]
      ensures url in f && f[url] == body
      ensures forall u :: u in old(f) && u != url ==> u in f && f[u] == old(f)[u]
      ensures c == old(c) && fetched == old(fetched)
    {
      f := f[url := body];
    }

    /** The `keys` slice of `Sort` (crawler/crawler.go:44-48): the keys of
        `f` gathered in the map's iteration order, whatever it is, then put
        in order by `sort.Strings`. The result holds every key once, in
        ascending order, whatever order the map was iterated in. */
    method SortedKeys() returns (keys: seq<Url>)
      ensures Ascending(keys)
      ensures forall k :: k in keys <==> k in f
      ensures |keys| == |f|
    {
      keys := [];
      var rest := f.Keys;
      while rest != {}
        invariant rest <= f.Keys
        invariant forall k :: k in keys <==> k in f && k !in rest
        invariant NoDuplicates(keys)
        invariant |keys| + |rest| == |f|
        decreases |rest|
      {
        var k :| k in rest;
        keys := keys + [k];
        rest := rest - {k};
      }
      var unsorted := keys;
      keys := SortStrings(unsorted);
      SortStringsSorted(unsorted);
      SortedDistinctAscending(keys);
      assert forall k :: k in keys <==> k in multiset(unsorted);
    }

    /** `Sort` (crawler/crawler.go:42-54): copies `f` into a new map in
        ascending key order. A map has no order, so the result is exactly
        `f`: the ordering is lost. */
    method Sort() returns (sorted: map<Url, string>)
      ensures sorted == f
    {
      sorted := map[];
      var keys := SortedKeys();
      for i := 0 to |keys|
        invariant forall k :: k in sorted <==> k in keys[..i]
        invariant forall k :: k in sorted ==> k in f && sorted[k] == f[k]
      {
        sorted := sorted[keys[i] := f[keys[i]]];
      }
      assert keys[..|keys|] == keys;
      assert sorted.Keys == f.Keys;
    }
  }
}
