/** The add-on's request path (index.js:28-73): `fetchImdbIds` in front of the
    process-wide cache, and the catalog handler that calls it. */
module Addon {
  import opened Outcomes
  import TitleIds
  import Catalog

  const MOVIE_CHART_URL: string := "https://www.imdb.com/chart/moviemeter/"
  const TV_CHART_URL: string := "https://www.imdb.com/chart/tvmeter/"
  const KEY_PREFIX: string := "ids:"

  /** Why loading a chart page rejects: a transport error, the 15-second timeout, a
      status outside 2xx, or a body that cannot be loaded as HTML. */
  datatype FetchError = NetworkError | TimedOut | BadStatus(status: int) | Unparsable

  /** What the GET of a URL and the parsing of its body yield together: the `href`s
      of the page's anchors in document order, or a rejection. */
  datatype Response = Page(hrefs: seq<string>) | Failed(error: FetchError)

  /** One call of `fetchImdbIds`: what it settles to, and the cache it leaves. */
  datatype Fetched = Fetched(result: Result<seq<string>, FetchError>, after: map<string, seq<string>>)

  /** The cache key `ids:<kind>`; the kind can be read back from it. */
  function CacheKey(kind: string): (key: string)
    ensures |key| == |KEY_PREFIX| + |kind|
    ensures key[..|KEY_PREFIX|] == KEY_PREFIX && key[|KEY_PREFIX|..] == kind
  {
    KEY_PREFIX + kind
  }

  /** The chart requested for a kind: moviemeter for "movie", tvmeter otherwise. */
  function ChartUrl(kind: string): (url: string)
    ensures url == MOVIE_CHART_URL <==> kind == "movie"
    ensures url == TV_CHART_URL <==> kind != "movie"
  {
    assert MOVIE_CHART_URL[27] != TV_CHART_URL[27];
    if kind == "movie" then MOVIE_CHART_URL else TV_CHART_URL
  }

  /** `fetchImdbIds(kind)` against `cache`, the network answering every URL. A hit
      returns the stored list (a stored empty list is a hit too); a miss returns the
      extraction of the kind's chart, or the chart's rejection. Whatever list is
      returned is what the key holds afterwards, and no other key changes. */
  function Fetch(cache: map<string, seq<string>>, kind: string, network: string -> Response): (r: Fetched)
    ensures CacheKey(kind) in cache ==> r.result == Ok(cache[CacheKey(kind)])
    ensures CacheKey(kind) !in cache ==>
      match network(ChartUrl(kind))
      case Page(hrefs) => r.result == Ok(TitleIds.IdList(hrefs))
      case Failed(e) => r.result == Err(e)
    ensures r.result.Ok? ==> r.after == cache[CacheKey(kind) := r.result.value]
    ensures r.result.Err? ==> r.after == cache
  {
    var key := CacheKey(kind);
    if key in cache then Fetched(Ok(cache[key]), cache)
    else
      match network(ChartUrl(kind))
      case Page(hrefs) =>
        var list := TitleIds.IdList(hrefs);
        Fetched(Ok(list), cache[key := list])
      case Failed(e) => Fetched(Err(e), cache)
  }

  /** The running add-on: the NodeCache shared by all requests, holding the entries
      fetchImdbIds writes. */
  class ImdbAddon {
    var cache: map<string, seq<string>>

    /** Every cached list is one a chart could yield. */
    ghost predicate Valid()
      reads this
    {
      forall key :: key in cache ==> TitleIds.WellFormedList(cache[key])
    }

    constructor ()
      ensures Valid() && cache == map[]
    {
      cache := map[];
    }

    /** `fetchImdbIds(kind)`: serve the cached list, or fetch the chart, extract its
        identifiers, cache and return them. `requested` is the URL fetched, if any. */
    method FetchImdbIds(kind: string, network: string -> Response)
      returns (ids: Result<seq<string>, FetchError>, requested: Option<string>)
      requires Valid()
      modifies this
      ensures Valid()
      ensures ids == Fetch(old(cache), kind, network).result
      ensures cache == Fetch(old(cache), kind, network).after
      ensures requested == if CacheKey(kind) in old(cache) then None else Some(ChartUrl(kind))
      ensures ids.Ok? ==> TitleIds.WellFormedList(ids.value)
    {
      var key := CacheKey(kind);
      if key in cache {
        return Ok(cache[key]), None;
      }
      var url := ChartUrl(kind);
      requested := Some(url);
      match network(url)
      case Failed(e) =>
        ids := Err(e);
      case Page(hrefs) =>
        var list := TitleIds.ExtractIds(hrefs);
        TitleIds.IdListWellFormed(hrefs);
        cache := cache[key := list];
        ids := Ok(list);
    }

    /** The catalog handler: the metas of the kind's list, or none when fetching
        rejects; the error never escapes. */
    method HandleCatalog(kind: string, network: string -> Response) returns (response: Catalog.CatalogResponse)
      requires Valid()
      modifies this
      ensures Valid()
      ensures response == Catalog.Respond(kind, Fetch(old(cache), kind, network).result)
      ensures cache == Fetch(old(cache), kind, network).after
      ensures |response.metas| <= TitleIds.MAX_IDS
      ensures forall i, j :: 0 <= i < j < |response.metas| ==> response.metas[i].id != response.metas[j].id
    {
      var ids, _ := FetchImdbIds(kind, network);
      match ids
      case Ok(list) =>
        Catalog.MetaIdsDistinct(kind, list);
        response := Catalog.CatalogResponse(Catalog.MetasFor(kind, list));
      case Err(_) =>
        response := Catalog.CatalogResponse([]);
    }

    /** NodeCache dropping an entry once its six-hour TTL has elapsed (index.js:8-9).
        When that happens is the library's timing and is not modelled; the model only
        admits that any entry may disappear between requests. */
    method Expire(key: string)
      requires Valid()
      modifies this
      ensures Valid()
      ensures cache == old(cache) - {key}
    {
      cache := cache - {key};
    }
  }

  // ---------------------------------------------------------------------------
  // The cache in front of the chart fetch

  /** Distinct kinds use distinct cache keys. */
  lemma CacheKeyInjective(a: string, b: string)
    requires CacheKey(a) == CacheKey(b)
    ensures a == b
  {
    assert CacheKey(a)[|KEY_PREFIX|..] == CacheKey(b)[|KEY_PREFIX|..];
  }

  /** On a hit the stored list is returned unchanged, the cache is left as it was,
      and the network is never consulted: any two networks give the same. */
  lemma HitIgnoresNetwork(cache: map<string, seq<string>>, kind: string, n1: string -> Response, n2: string -> Response)
    requires CacheKey(kind) in cache
    ensures Fetch(cache, kind, n1) == Fetch(cache, kind, n2) == Fetched(Ok(cache[CacheKey(kind)]), cache)
  {
  }

  /** A fetched list is the capped, ordered, duplicate-free extraction of the chart. */
  lemma MissReturnsExtraction(cache: map<string, seq<string>>, kind: string, network: string -> Response)
    requires CacheKey(kind) !in cache && network(ChartUrl(kind)).Page?
    ensures Fetch(cache, kind, network).result == Ok(TitleIds.IdList(network(ChartUrl(kind)).hrefs))
    ensures TitleIds.WellFormedList(Fetch(cache, kind, network).result.value)
  {
    TitleIds.IdListWellFormed(network(ChartUrl(kind)).hrefs);
  }

  /** While the entry written by a successful call has not expired, calling again
      for the same kind is a hit: it returns the same list whatever the network does
      and writes nothing. */
  lemma RepeatIsServedFromCache(cache: map<string, seq<string>>, kind: string, n1: string -> Response, n2: string -> Response)
    requires Fetch(cache, kind, n1).result.Ok?
    ensures var first := Fetch(cache, kind, n1);
      Fetch(first.after, kind, n2) == first
  {
  }

  /** Once the entry has expired, the next call fetches the chart again. */
  lemma ExpiredEntryIsRefetched(cache: map<string, seq<string>>, kind: string, network: string -> Response)
    ensures var r := Fetch(cache - {CacheKey(kind)}, kind, network);
      match network(ChartUrl(kind))
      case Page(hrefs) => r.result == Ok(TitleIds.IdList(hrefs))
      case Failed(e) => r.result == Err(e)
  {
  }

  /** A call leaves every other key as it found it. */
  lemma FetchKeepsOtherKeys(cache: map<string, seq<string>>, kind: string, network: string -> Response, key: string)
    requires key != CacheKey(kind)
    ensures key in Fetch(cache, kind, network).after <==> key in cache
    ensures key in cache ==> Fetch(cache, kind, network).after[key] == cache[key]
  {
  }

  /** Different kinds have different keys. */
  lemma DistinctKeys(kind: string, other: string)
    requires kind != other
    ensures CacheKey(kind) != CacheKey(other)
  {
    assert CacheKey(kind)[|KEY_PREFIX|..] != CacheKey(other)[|KEY_PREFIX|..];
  }

  /** A call for one kind does not change what a later call for another kind returns. */
  lemma OtherKindsUnaffected(cache: map<string, seq<string>>, kind: string, other: string, n1: string -> Response, n2: string -> Response)
    requires kind != other
    ensures Fetch(Fetch(cache, kind, n1).after, other, n2).result == Fetch(cache, other, n2).result
  {
    DistinctKeys(kind, other);
    FetchKeepsOtherKeys(cache, kind, n1, CacheKey(other));
  }

  /** `cache` after storing `r`'s list, if any, under `key`. */
  function Stored(cache: map<string, seq<string>>, key: string, r: Result<seq<string>, FetchError>): map<string, seq<string>>
  {
    if r.Ok? then cache[key := r.value] else cache
  }

  lemma StoresCommute(cache: map<string, seq<string>>, k1: string, r1: Result<seq<string>, FetchError>, k2: string, r2: Result<seq<string>, FetchError>)
    requires k1 != k2
    ensures Stored(Stored(cache, k1, r1), k2, r2) == Stored(Stored(cache, k2, r2), k1, r1)
  {
  }

  /** Calls for two different kinds leave the same cache in either order. */
  lemma CallsForDifferentKindsCommute(cache: map<string, seq<string>>, kind: string, other: string, n1: string -> Response, n2: string -> Response)
    requires kind != other
    ensures Fetch(Fetch(cache, kind, n1).after, other, n2).after == Fetch(Fetch(cache, other, n2).after, kind, n1).after
  {
    var k1, k2 := CacheKey(kind), CacheKey(other);
    DistinctKeys(kind, other);
    var f1, f2 := Fetch(cache, kind, n1), Fetch(cache, other, n2);
    OtherKindsUnaffected(cache, kind, other, n1, n2);
    OtherKindsUnaffected(cache, other, kind, n2, n1);
    var g1, g2 := Fetch(f1.after, other, n2), Fetch(f2.after, kind, n1);
    assert f1.after == Stored(cache, k1, f1.result) && f2.after == Stored(cache, k2, f2.result);
    assert g1.after == Stored(f1.after, k2, f2.result);
    assert g2.after == Stored(f2.after, k1, f1.result);
    StoresCommute(cache, k1, f1.result, k2, f2.result);
  }

  // ---------------------------------------------------------------------------
  // The handler

  /** A rejected chart fetch yields an empty catalog, not an error. */
  lemma FailedFetchGivesEmptyCatalog(cache: map<string, seq<string>>, kind: string, network: string -> Response)
    requires CacheKey(kind) !in cache && network(ChartUrl(kind)).Failed?
    ensures Catalog.Respond(kind, Fetch(cache, kind, network).result).metas == []
  {
  }

  /** A catalog lists the kind's identifiers one item each, in order. */
  lemma CatalogListsFetchedIds(cache: map<string, seq<string>>, kind: string, network: string -> Response)
    requires Fetch(cache, kind, network).result.Ok?
    ensures Catalog.IdsOf(Catalog.Respond(kind, Fetch(cache, kind, network).result).metas)
      == Fetch(cache, kind, network).result.value
  {
    Catalog.IdsOfMetasFor(kind, Fetch(cache, kind, network).result.value);
  }

  /** With an empty cache, a movie chart linking tt0000001, tt0000002 and
      tt0000001 again is served as two items, "IMDb Movie #1" and "IMDb Movie #2". */
  lemma RepeatedLinkCatalogExample(network: string -> Response)
    requires network(MOVIE_CHART_URL) == Page(["/title/tt0000001/", "/title/tt0000002/", "/title/tt0000001/"])
    ensures Catalog.Respond("movie", Fetch(map[], "movie", network).result).metas
      == [Catalog.Meta("tt0000001", "movie", "IMDb Movie #1", "poster"),
          Catalog.Meta("tt0000002", "movie", "IMDb Movie #2", "poster")]
  {
    TitleIds.RepeatedLinkExample();
    Catalog.MovieMetasExample("tt0000001", "tt0000002");
  }
}
