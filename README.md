# IMDb Popular add-on: a Dafny model of its request path

The add-on serves two catalogs, IMDb's most popular movies and most popular TV titles, to a
media-browsing client. For each catalog request it needs the list of title identifiers on an
IMDb popularity chart. `fetchImdbIds(kind)` looks the list up in a process-wide cache under
`ids:<kind>`. On a miss it downloads the chart: moviemeter for `"movie"`, tvmeter for every
other kind. From the page it keeps the anchors whose `href` starts with `/title/tt`, applies the
pattern `/\/title\/(tt\d+)/` to each href, and adds the captured identifier to an
insertion-ordered `Set`. It then keeps the first 100 identifiers, caches that list and returns
it. The catalog handler turns the list into items: item `i` has the identifier, the requested
type, the name `IMDb Movie #<i+1>` or `IMDb TV #<i+1>`, and poster shape `"poster"`. When
anything throws, the handler answers with an empty list instead.

Modules:

- `Outcomes` (outcomes.dfy): `Option` and `Result` (a settled promise).
- `Decimal` (decimal.dfy): how `${i + 1}` renders a position, and how to read it back.
- `TitleIds` (title_ids.dfy): the selector, the regular expression, the ordered `Set`, the
  cap, the `.each` callback as the method `EachAnchor` and the loop around it as the method
  `ExtractIds`.
- `Catalog` (catalog.dfy): items, positional names, and the handler's try/catch.
- `Addon` (addon.dfy): the class `ImdbAddon`. Its field `cache` is the NodeCache. Its methods
  are `FetchImdbIds`, `HandleCatalog` and `Expire` (an entry's TTL running out). Beside it is
  the function `Fetch`, which states what one call returns and leaves in the cache, and
  lemmas about it.

The page is given as the `href` attributes of its anchors, in document order. The selector
`a[href^="/title/tt"]` is applied in the model as `Selected`. The network is a parameter
`network: string -> Response`. It gives, for each URL, either the anchors of the parsed page
or a rejection (transport error, timeout, bad status, a body cheerio cannot load).
`FetchImdbIds` also returns the URL it requested, or `None` on a cache hit. That is how the
model states that a hit does no fetch.

What the code does, in the terms used below:

- The cache key is `ids:` followed by the request's type, for example `ids:movie` (index.js:29).
- Every list is cut to its first 100 identifiers (index.js:54).
- Item names read `IMDb Movie #<n>` for type `"movie"` and `IMDb TV #<n>` for every other
  type, which also reads the tvmeter chart (index.js:33-35, 65).

## Model

| member | source | states |
|---|---|---|
| Decimal.FromNat | index.js:65 | the rendering of a position is a non-empty string of digits with no leading zero unless the number is 0 |
| Decimal.ValueOfFromNat | index.js:65 | reading a rendered number back gives the number |
| Decimal.FromNatInjective | index.js:65 | distinct positions render differently |
| Decimal.CanonicalIsFromNat | index.js:65 | a digit string without a leading zero is the rendering of its value, so the canonical rendering is unique |
| TitleIds.Selected | index.js:48 | the selector `a[href^="/title/tt"]` keeps exactly the hrefs that start with `/title/tt` |
| TitleIds.MatchesAt | index.js:50 | the pattern matches at `p` exactly when `/title/tt` sits at `p` and a digit follows it |
| TitleIds.Leftmost | index.js:50 | `p` is the first position at which the pattern matches |
| TitleIds.DigitRun | index.js:50 | greedy `\d+`: a substring of digits starting at `i` that cannot be extended |
| TitleIds.Capture | index.js:50 | capture group 1 of a match is a title identifier, appears in the href right after `/title/`, and ends where the digits end |
| TitleIds.FindMatch | index.js:50 | returns the first match position at or after `from`, or reports that none exists |
| TitleIds.TitleMatch | index.js:50 | absent exactly when the pattern matches nowhere in the href; otherwise the capture of the leftmost match, a title identifier |
| TitleIds.CaptureOf | index.js:49-51 | what one anchor adds: at most one identifier |
| TitleIds.CaptureOfExactly | index.js:48-51 | an anchor adds an identifier if and only if it is selected and its leftmost match captures that identifier |
| TitleIds.Captures | index.js:48-52 | the captures of all anchors in document order, repetitions included; never more than one per anchor |
| TitleIds.Dedup | index.js:46-51 | the insertion-ordered `Set` after adding a sequence; never longer than what was added |
| TitleIds.Truncate | index.js:54 | `slice(0, 100)`: a prefix of at most 100 elements, shorter only when the input is |
| TitleIds.IdList | index.js:45-54 | the list a fresh chart yields, the capped Set of the captures: at most 100 entries and at most one per anchor |
| TitleIds.EachAnchor | index.js:48-51 | the `.each` callback keeps the Set equal to the ordered Set of the captures of the anchors seen so far, this one included |
| TitleIds.ExtractIds | index.js:45-54 | the loop builds exactly `IdList(hrefs)`: the capped ordered Set of the captures of the selected anchors |
| TitleIds.TitleLinkCapture | index.js:48-51 | a selected link `/title/tt` + seven digits + `/` adds `tt` + those digits |
| TitleIds.DedupNoDuplicates | index.js:46-51 | the ordered Set holds no element twice |
| TitleIds.DedupSameElements | index.js:46-51 | the ordered Set holds exactly the elements added to it |
| TitleIds.FirstOccurrenceOrdered | index.js:46-51 | the order a JavaScript `Set` iterates in: every listed element occurs in the input, and elements are listed by increasing first position |
| TitleIds.DedupFirstOccurrenceOrder | index.js:46-51 | the ordered Set lists elements in the order of their first addition |
| TitleIds.DedupIgnoresRepeats | index.js:48-51 | adding elements already present changes nothing |
| TitleIds.DedupPrefix | index.js:48-51 | later additions never reorder or remove elements already listed |
| TitleIds.CapturesAppend | index.js:48-52 | the captures of two runs of anchors are the captures of each, concatenated |
| TitleIds.CapturesExactly | index.js:48-51 | an identifier is captured if and only if some selected href matches and yields it |
| TitleIds.CapturesAreIds | index.js:50-51 | every captured text is `tt` followed by one or more digits |
| TitleIds.DistinctCardinality | index.js:46 | a sequence without repetitions has as many distinct elements as positions, so the Set's size is its length |
| TitleIds.IdListIsCappedSet | index.js:54 | the result is a prefix of the ordered Set and its length is the smaller of 100 and the number of distinct identifiers captured |
| TitleIds.IdListWellFormed | index.js:46-54 | the result has distinct title identifiers, at most 100 of them |
| TitleIds.IdListProvenance | index.js:48-51 | every listed identifier was captured from a selected href that matches the pattern |
| TitleIds.IdListOmitsOnlyWhenFull | index.js:54 | a captured identifier can be missing from the result only when the result holds 100 |
| TitleIds.IdListFirstOccurrenceOrder | index.js:46-54 | the result keeps the order of first occurrence on the page |
| TitleIds.IdListIgnoresLaterRepeats | index.js:48-54 | later anchors that only repeat identifiers already seen leave the result unchanged |
| TitleIds.DropsOut | index.js:48-52 | an anchor that adds nothing can be removed from any position of the page without changing the result |
| TitleIds.NoMatchContributesNothing | index.js:49-51 | an href with no digit after any `/title/tt` contributes nothing, wherever it appears |
| TitleIds.UnselectedContributesNothing | index.js:48 | an anchor outside the selector contributes nothing |
| TitleIds.RepeatedLink | index.js:45-54 | links to two distinct identifiers `x`, `y` and `x` again give `[x, y]` |
| TitleIds.RepeatedLinkExample | index.js:45-54 | links to tt0000001, tt0000002, tt0000001 give `[tt0000001, tt0000002]` |
| Catalog.KindLabel | index.js:65 | the label is `Movie` exactly for type `"movie"`, and `TV` otherwise |
| Catalog.NamePrefix | index.js:65 | the text before the number is `IMDb Movie #` exactly for type `"movie"`, and `IMDb TV #` otherwise |
| Catalog.DisplayName | index.js:65 | the name is the kind's prefix followed by digits that read back as the position, with no leading zero |
| Catalog.MetasFor | index.js:62-67 | one item per identifier, same order, carrying the identifier, the requested type and `posterShape: "poster"` |
| Catalog.Respond | index.js:60-72 | a rejected fetch gives no items; a fulfilled one gives one item per identifier |
| Catalog.IdsOfMetasFor | index.js:62-67 | the items carry back exactly the identifier list |
| Catalog.MetaNameIsPosition | index.js:65 | the name of item `i` is `IMDb Movie #` or `IMDb TV #` followed by digits without a leading zero whose value is `i + 1` |
| Catalog.MetaNameIsCanonical | index.js:65 | the name of item `i` is the kind's prefix followed by exactly the decimal rendering of `i + 1` |
| Catalog.MetaNamesDistinct | index.js:62-67 | no two items of one reply share a name |
| Catalog.MetaIdsDistinct | index.js:62-67 | distinct identifiers give items with distinct ids |
| Catalog.MovieMetasExample | index.js:62-67 | two movie identifiers become `IMDb Movie #1` and `IMDb Movie #2` |
| Addon.CacheKey | index.js:29 | the key is `ids:` followed by the kind, so the kind can be read back |
| Addon.ChartUrl | index.js:33-35 | the moviemeter chart exactly for `"movie"`, the tvmeter chart for every other kind |
| Addon.Fetch | index.js:28-57 | one call of `fetchImdbIds`: a hit returns the stored list; a miss returns the extraction of the kind's chart or its rejection; a returned list is what the key holds afterwards, and a rejection leaves the cache as it was |
| Addon.CacheKeyInjective | index.js:29 | distinct kinds use distinct cache keys |
| Addon.ImdbAddon.Valid | index.js:54-55 | every cached list is one a chart can yield: distinct title identifiers, at most 100 |
| Addon.ImdbAddon.constructor | index.js:9 | the cache starts empty |
| Addon.ImdbAddon.FetchImdbIds | index.js:28-57 | returns what `Fetch` returns and leaves the cache `Fetch` leaves; requests no URL on a hit and the kind's chart on a miss; the cache keeps holding only well-formed lists |
| Addon.ImdbAddon.HandleCatalog | index.js:59-73 | replies `Respond` of the fetch outcome, never an error; at most 100 items with distinct ids |
| Addon.ImdbAddon.Expire | index.js:8-9 | an entry whose TTL ran out is removed and nothing else changes; the cached lists stay well-formed |
| Addon.HitIgnoresNetwork | index.js:29-31 | on a hit the stored list (even an empty one) is returned unchanged, the cache is untouched, and the network's answer does not matter |
| Addon.MissReturnsExtraction | index.js:33-56 | a fetched list is the extraction of the kind's chart, and is well-formed |
| Addon.RepeatIsServedFromCache | index.js:29-56 | while the entry a successful call wrote has not expired, a second call for the same kind is a hit that returns the same list whatever the network does |
| Addon.ExpiredEntryIsRefetched | index.js:29-56 | once the kind's entry is gone, the next call fetches the chart again and returns its extraction or its rejection |
| Addon.FetchKeepsOtherKeys | index.js:55 | a call writes only its own key; every other key keeps its presence and its list |
| Addon.OtherKindsUnaffected | index.js:29-56 | a call for one kind does not change what a later call for another kind returns |
| Addon.CallsForDifferentKindsCommute | index.js:29-56 | calls for two different kinds leave the same cache in either order |
| Addon.FailedFetchGivesEmptyCatalog | index.js:69-72 | a rejected chart fetch on a miss yields an empty catalog |
| Addon.CatalogListsFetchedIds | index.js:61-68 | the catalog's items carry exactly the fetched identifiers, in order |
| Addon.RepeatedLinkCatalogExample | index.js:28-73 | with an empty cache, a movie chart linking tt0000001, tt0000002, tt0000001 is served as `IMDb Movie #1` and `IMDb Movie #2` |

## Left out

- The HTTP GET (axios), its headers and its 15-second timeout (index.js:37-43). This is network I/O, so it is the parameter `network`, and a timeout is one of its failures.
- HTML parsing and CSS selection (cheerio, index.js:45, 48). The page is the sequence of its anchors' hrefs. The prefix test of the selector is modelled. A body cheerio cannot load is the failure `Unparsable`. Anchors without an `href` are not in the sequence, so the `|| ""` fallback never applies.
- Cache timing: the six-hour TTL and the 120-second sweep (index.js:8-9). When an entry lapses is library timing. `Expire` removes an entry, and `ExpiredEntryIsRefetched` states what the next call then does.
- Addon.RepeatIsServedFromCache: holds only while the entry written by the first call has not expired (NodeCache `stdTTL` of 6 hours, index.js:8-9, 30); once `Expire` has removed it, `ExpiredEntryIsRefetched` applies instead.
- NodeCache's cloning of stored values. Lists are values in the model, so it makes no difference.
- The manifest, the add-on builder, `serveHTTP` and the port from the environment (index.js:11-26, 75-76). This is protocol and bootstrap plumbing.
- `console.error` and `console.log` (index.js:70, 76).
- Asynchronous scheduling. Calls are sequential in the model, so two concurrent misses that both fetch and write are not modelled.
