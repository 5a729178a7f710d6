/**
 * `watchVideo`: a clicked id is resolved against the catalog first and the
 * uploaded videos second; an uploaded video opens the in-session player
 * with its related list.
 */
module Lookup {
  import opened Wrappers
  import opened Upload
  import Catalog

  /** What a click on a video asks the browser to do. */
  datatype WatchAction =
    | Navigate(url: string)
    | OpenPlayer(video: UploadedVideo, related: seq<Catalog.CatalogVideo>)
    | NoAction

  function CatalogId(v: Catalog.CatalogVideo): string { v.id }

  function UploadedId(v: UploadedVideo): string { v.id }

  /** `find(v => v.id === id)`, as the index of the first element with that id. */
  function FirstIndex<T>(xs: seq<T>, idOf: T -> string, id: string): (r: Option<nat>)
    ensures r.Some? ==> r.value < |xs| && idOf(xs[r.value]) == id
    ensures r.Some? ==> forall j :: 0 <= j < r.value ==> idOf(xs[j]) != id
    ensures r.None? ==> forall j :: 0 <= j < |xs| ==> idOf(xs[j]) != id
  {
    if xs == [] then None
    else if idOf(xs[0]) == id then Some(0)
    else match FirstIndex(xs[1..], idOf, id)
      case Some(k) => Some(k + 1)
      case None => None
  }

  /**
   * A catalog id navigates to that entry's page; otherwise the first
   * uploaded video with the id opens in the player; otherwise nothing happens.
   */
  function WatchVideo(id: string, uploaded: seq<UploadedVideo>): (r: WatchAction)
    ensures r.Navigate? <==> exists k :: 0 <= k < |Catalog.Videos| && Catalog.Videos[k].id == id
    ensures r.Navigate? ==>
      exists k :: 0 <= k < |Catalog.Videos| && Catalog.Videos[k].id == id && r.url == Catalog.Videos[k].url
    ensures r.OpenPlayer? ==>
      exists i :: 0 <= i < |uploaded| && r.video == uploaded[i] && uploaded[i].id == id
        && forall j :: 0 <= j < i ==> uploaded[j].id != id
    ensures r.OpenPlayer? ==> r.related == Catalog.Related(id)
    ensures r.NoAction? <==>
      (forall k :: 0 <= k < |Catalog.Videos| ==> Catalog.Videos[k].id != id)
      && (forall i :: 0 <= i < |uploaded| ==> uploaded[i].id != id)
  {
    match FirstIndex(Catalog.Videos, CatalogId, id)
    case Some(k) => Navigate(Catalog.Videos[k].url)
    case None =>
      match FirstIndex(uploaded, UploadedId, id)
      case Some(i) => OpenPlayer(uploaded[i], Catalog.Related(uploaded[i].id))
      case None => NoAction
  }

  /** A catalog id wins even when an uploaded video carries the same id. */
  lemma CatalogTakesPrecedence(uploaded: seq<UploadedVideo>, k: nat)
    requires k < |Catalog.Videos|
    ensures WatchVideo(Catalog.Videos[k].id, uploaded) == Navigate(Catalog.Videos[k].url)
  {
    Catalog.CatalogIds();
  }

  /**
   * A freshly uploaded video, put in front of the list, opens in the player
   * with the whole catalog, in seed order, as its related list.
   */
  lemma NewUploadOpensInPlayer(v: UploadedVideo, now: nat, older: seq<UploadedVideo>)
    requires v.id == GeneratedId(now)
    ensures WatchVideo(v.id, [v] + older) == OpenPlayer(v, Catalog.Videos)
  {
    GeneratedIdNotInCatalog(now);
    Catalog.RelatedIsCatalogMinusCurrent(v.id);
  }
}
