/** An optional value: a field the catalog may leave out, or a result that may be missing. */
module Optional {
  datatype Option<T> = None | Some(value: T)
}

/**
 * One catalog record as the table shows it: an identifier and the display
 * columns of the row (title, origin, artist, inscriptions, start and end year).
 */
module Artworks {
  import opened Optional

  datatype Artwork = Artwork(
    id: int,
    title: string,
    placeOfOrigin: Option<string>,
    artistDisplay: Option<string>,
    inscriptions: Option<string>,
    dateStart: Option<int>,
    dateEnd: Option<int>)

  /** The identifiers of the records of one page. */
  function PageIds(arts: seq<Artwork>): (ids: set<int>)
    decreases |arts|
  {
    if arts == [] then {} else PageIds(arts[..|arts| - 1]) + {arts[|arts| - 1].id}
  }

  /** An identifier is on the page exactly when some record of the page carries it. */
  lemma {:induction false} PageIdsIff(arts: seq<Artwork>, id: int)
    ensures id in PageIds(arts) <==> exists k :: 0 <= k < |arts| && arts[k].id == id
    decreases |arts|
  {
    if arts != [] {
      var init := arts[..|arts| - 1];
      PageIdsIff(init, id);
      assert forall k :: 0 <= k < |init| ==> init[k] == arts[k];
    }
  }

  /** No two records of the page share an identifier. */
  ghost predicate DistinctIds(arts: seq<Artwork>)
  {
    forall j, k :: 0 <= j < k < |arts| ==> arts[j].id != arts[k].id
  }

  /** `arts[k]` is the last record of the page that carries its identifier. */
  ghost predicate IsLastWithId(arts: seq<Artwork>, k: int)
  {
    0 <= k < |arts| && forall j :: k < j < |arts| ==> arts[j].id != arts[k].id
  }
}
