/** The catalog handler's construction of display items from an identifier list
    (index.js:59-72). */
module Catalog {
  import opened Outcomes
  import Decimal

  const POSTER_SHAPE: string := "poster"

  /** One catalog item as the handler returns it. */
  datatype Meta = Meta(id: string, kind: string, name: string, posterShape: string)

  /** The handler's reply `{ metas }`. */
  datatype CatalogResponse = CatalogResponse(metas: seq<Meta>)

  /** "Movie" for the movie type, "TV" for every other type. */
  function KindLabel(kind: string): (word: string)
    ensures word == "Movie" <==> kind == "movie"
    ensures word == "Movie" || word == "TV"
  {
    if kind == "movie" then "Movie" else "TV"
  }

  /** The fixed part of a positional name, "IMDb Movie #" or "IMDb TV #". */
  function NamePrefix(kind: string): (prefix: string)
    ensures prefix == "IMDb Movie #" <==> kind == "movie"
    ensures prefix == "IMDb Movie #" || prefix == "IMDb TV #"
  {
    "IMDb " + KindLabel(kind) + " #"
  }

  /** The positional name of the item at (1-based) `position`: the prefix of its
      kind followed by the canonical decimal text of the position (digits that read
      back as it, with no leading zero). */
  function DisplayName(kind: string, position: nat): (name: string)
    ensures |NamePrefix(kind)| < |name| && name[..|NamePrefix(kind)|] == NamePrefix(kind)
    ensures Decimal.AllDigits(name[|NamePrefix(kind)|..])
    ensures Decimal.Value(name[|NamePrefix(kind)|..]) == position
    ensures name[|NamePrefix(kind)|] == '0' ==> |name| == |NamePrefix(kind)| + 1
  {
    var digits := Decimal.FromNat(position);
    Decimal.ValueOfFromNat(position);
    assert (NamePrefix(kind) + digits)[|NamePrefix(kind)|..] == digits;
    NamePrefix(kind) + digits
  }

  /** `ids.map((imdbId, i) => ({ id, type, name, posterShape }))`: one item per
      identifier, in the same order, of the requested type, showing posters. */
  function MetasFor(kind: string, ids: seq<string>): (metas: seq<Meta>)
    ensures |metas| == |ids|
    ensures forall i :: 0 <= i < |ids| ==>
      metas[i].id == ids[i] && metas[i].kind == kind && metas[i].posterShape == POSTER_SHAPE
  {
    seq(|ids|, i requires 0 <= i < |ids| => Meta(ids[i], kind, DisplayName(kind, i + 1), POSTER_SHAPE))
  }

  /** The try/catch of the handler: the metas of the fetched list, or no metas at
      all when fetching rejected. */
  function Respond<E>(kind: string, fetched: Result<seq<string>, E>): (response: CatalogResponse)
    ensures fetched.Err? ==> response.metas == []
    ensures fetched.Ok? ==> |response.metas| == |fetched.value|
  {
    match fetched
    case Ok(ids) => CatalogResponse(MetasFor(kind, ids))
    case Err(_) => CatalogResponse([])
  }

  /** The identifiers of a list of items. */
  function IdsOf(metas: seq<Meta>): (ids: seq<string>)
    ensures |ids| == |metas|
  {
    seq(|metas|, i requires 0 <= i < |metas| => metas[i].id)
  }

  /** Mapping identifiers to items loses none of them: the items carry back
      exactly the identifier list. */
  lemma IdsOfMetasFor(kind: string, ids: seq<string>)
    ensures IdsOf(MetasFor(kind, ids)) == ids
  {
  }

  /** The name of item `i` is the kind's prefix followed by the number `i + 1`. */
  lemma MetaNameIsPosition(kind: string, ids: seq<string>, i: nat)
    requires i < |ids|
    ensures var name := MetasFor(kind, ids)[i].name;
      |NamePrefix(kind)| < |name| && name[..|NamePrefix(kind)|] == NamePrefix(kind) &&
      Decimal.AllDigits(name[|NamePrefix(kind)|..]) &&
      Decimal.Value(name[|NamePrefix(kind)|..]) == i + 1 && name[|NamePrefix(kind)|] != '0'
  {
  }

  /** The name of item `i` is exactly the prefix followed by `${i + 1}`. */
  lemma MetaNameIsCanonical(kind: string, ids: seq<string>, i: nat)
    requires i < |ids|
    ensures MetasFor(kind, ids)[i].name == NamePrefix(kind) + Decimal.FromNat(i + 1)
  {
    var name := MetasFor(kind, ids)[i].name;
    MetaNameIsPosition(kind, ids, i);
    Decimal.CanonicalIsFromNat(name[|NamePrefix(kind)|..], i + 1);
    assert name == name[..|NamePrefix(kind)|] + name[|NamePrefix(kind)|..];
  }

  /** No two items of one reply share a name. */
  lemma MetaNamesDistinct(kind: string, ids: seq<string>, i: nat, j: nat)
    requires i < j < |ids|
    ensures MetasFor(kind, ids)[i].name != MetasFor(kind, ids)[j].name
  {
    MetaNameIsPosition(kind, ids, i);
    MetaNameIsPosition(kind, ids, j);
  }

  /** A reply without duplicates in its identifier list has distinct item ids. */
  lemma MetaIdsDistinct(kind: string, ids: seq<string>)
    requires forall i, j :: 0 <= i < j < |ids| ==> ids[i] != ids[j]
    ensures forall i, j :: 0 <= i < j < |ids| ==> MetasFor(kind, ids)[i].id != MetasFor(kind, ids)[j].id
  {
  }

  /** Two movie identifiers become "IMDb Movie #1" and "IMDb Movie #2". */
  lemma MovieMetasExample(x: string, y: string)
    ensures MetasFor("movie", [x, y])
      == [Meta(x, "movie", "IMDb Movie #1", POSTER_SHAPE), Meta(y, "movie", "IMDb Movie #2", POSTER_SHAPE)]
  {
    assert Decimal.FromNat(1) == "1" && Decimal.FromNat(2) == "2";
    assert DisplayName("movie", 1) == "IMDb Movie #1";
    assert DisplayName("movie", 2) == "IMDb Movie #2";
  }
}
