/**
 * The fixed catalog of external videos (`originalVideos`) and the
 * related-videos selection the in-session player draws from it.
 */
module Catalog {

  datatype CatalogVideo = CatalogVideo(id: string, url: string, title: string, duration: string)

  /** The nine entries, in seed order. */
  const Videos: seq<CatalogVideo> := [
    CatalogVideo("1st", "https://www.youtube.com/watch?v=8zzwUypZiF8",
      "Iyer and Rahul Show Class In Series Opener | HIGHLIGHTS | 1st T20 - BLACKCAPS v India, 2020", "10:43"),
    CatalogVideo("2nd", "https://www.youtube.com/watch?v=YBk6szEz3Fw",
      "KL Rahul Masterclass | HIGHLIGHTS | 2nd T20 - BLACKCAPS v India, 2020", "8:25"),
    CatalogVideo("3rd", "https://www.youtube.com/watch?v=8zzwUypZiF8",
      "Williamson 95 off 48, Sharma Heroics | FULL HIGHLIGHTS | BLACKCAPS v India - 3rd T20, 2020", "9:34"),
    CatalogVideo("3rd1", "https://www.youtube.com/watch?v=YBk6szEz3Fw",
      "Sharma Stars In Thriller | SUPER OVER REPLAY | BLACKCAPS v India - 3rd T20, 2020", "12:18"),
    CatalogVideo("4th", "https://www.youtube.com/watch?v=8zzwUypZiF8",
      "India Win Another Super Over Thriller | FULL HIGHLIGHTS | BLACKCAPS v India - 4th T20, 2020", "11:45"),
    CatalogVideo("5th", "https://www.youtube.com/watch?v=YBk6szEz3Fw",
      "Bumrah Magic In Series Finale | FULL HIGHLIGHTS | BLACKCAPS v India - 5th T20, 2020", "12:56"),
    CatalogVideo("odi2", "https://www.youtube.com/watch?v=8zzwUypZiF8",
      "Jamieson Shines On Debut, Jadeja Fightback | FULL HIGHLIGHTS | BLACKCAPS v India - 2nd ODI, 2020", "6:36"),
    CatalogVideo("hq720", "https://www.youtube.com/watch?v=YBk6szEz3Fw",
      "Record Breaking Chase! | FULL HIGHLIGHTS | BLACKCAPS v India - 1st ODI, 2020", "5:34"),
    CatalogVideo("odi3", "https://www.youtube.com/watch?v=8zzwUypZiF8",
      "De Grandhomme 58* off 28 in Finale | FULL HIGHLIGHTS | BLACKCAPS v India - 3rd ODI, 2020", "8:57")
  ]

  /** Every catalog id is one of the nine seeded ids, and no two entries share one. */
  lemma CatalogIds()
    ensures |Videos| == 9
    ensures forall k :: 0 <= k < |Videos| ==>
      Videos[k].id in ["1st", "2nd", "3rd", "3rd1", "4th", "5th", "odi2", "hq720", "odi3"]
    ensures forall i, j :: 0 <= i < j < |Videos| ==> Videos[i].id != Videos[j].id
  {
    var ids := ["1st", "2nd", "3rd", "3rd1", "4th", "5th", "odi2", "hq720", "odi3"];
    assert forall k :: 0 <= k < 9 ==> Videos[k].id == ids[k];
    assert forall i, j :: 0 <= i < j < 9 ==> ids[i] != ids[j] by {
      forall i, j | 0 <= i < j < 9 ensures ids[i] != ids[j] {
        assert ids[i][0] != ids[j][0] || |ids[i]| != |ids[j]| || ids[i][1] != ids[j][1] || ids[i][3] != ids[j][3];
      }
    }
  }

  /** `filter(v => v.id !== id)`: the entries of `vs` whose id differs, in their order. */
  function WithoutId(vs: seq<CatalogVideo>, id: string): (r: seq<CatalogVideo>)
    ensures |r| <= |vs|
  {
    if vs == [] then []
    else if vs[0].id != id then [vs[0]] + WithoutId(vs[1..], id)
    else WithoutId(vs[1..], id)
  }

  /** The filter keeps exactly the entries whose id differs. */
  lemma {:induction false} WithoutIdMembers(vs: seq<CatalogVideo>, id: string)
    ensures forall v :: v in WithoutId(vs, id) <==> v in vs && v.id != id
  {
    if vs != [] {
      WithoutIdMembers(vs[1..], id);
      assert vs == [vs[0]] + vs[1..];
    }
  }

  /** Filtering by an id that does not occur keeps the whole list. */
  lemma {:induction false} WithoutAbsentId(vs: seq<CatalogVideo>, id: string)
    requires forall k :: 0 <= k < |vs| ==> vs[k].id != id
    ensures WithoutId(vs, id) == vs
  {
    if vs != [] {
      WithoutAbsentId(vs[1..], id);
    }
  }

  /** Filtering by an id that occurs once, at `k`, removes exactly that entry and keeps the order of the rest. */
  lemma {:induction false} WithoutUniqueId(vs: seq<CatalogVideo>, id: string, k: nat)
    requires k < |vs| && vs[k].id == id
    requires forall j :: 0 <= j < |vs| && j != k ==> vs[j].id != id
    ensures WithoutId(vs, id) == vs[..k] + vs[k + 1..]
  {
    if k == 0 {
      WithoutAbsentId(vs[1..], id);
    } else {
      WithoutUniqueId(vs[1..], id, k - 1);
      assert vs[1..][..k - 1] == vs[1..k];
      assert vs[1..][k..] == vs[k + 1..];
      calc {
        WithoutId(vs, id);
        [vs[0]] + WithoutId(vs[1..], id);
        [vs[0]] + (vs[1..k] + vs[k + 1..]);
        { assert [vs[0]] + vs[1..k] == vs[..k]; }
        vs[..k] + vs[k + 1..];
      }
    }
  }

  /** `slice(0, n)`: the first `n` elements, or all of them when there are fewer. */
  function Take<T>(s: seq<T>, n: nat): (r: seq<T>)
    ensures |r| <= n && |r| <= |s|
    ensures r == s[..|r|]
    ensures |s| <= n ==> r == s
    ensures |s| > n ==> |r| == n
  {
    if |s| <= n then s else s[..n]
  }

  /** The player's related list: catalog entries with a different id, at most the first ten. */
  function Related(currentId: string): (r: seq<CatalogVideo>)
    ensures |r| <= 10
    ensures forall v :: v in r ==> v in Videos && v.id != currentId
  {
    WithoutIdMembers(Videos, currentId);
    Take(WithoutId(Videos, currentId), 10)
  }

  /**
   * The cap of ten never bites on a nine-entry catalog: the related list is
   * the catalog with the entry of the current id (if any) cut out, in catalog order.
   */
  lemma RelatedIsCatalogMinusCurrent(currentId: string)
    ensures forall k :: 0 <= k < |Videos| && Videos[k].id == currentId ==>
      Related(currentId) == Videos[..k] + Videos[k + 1..]
    ensures (forall k :: 0 <= k < |Videos| ==> Videos[k].id != currentId) ==>
      Related(currentId) == Videos
  {
    CatalogIds();
    forall k | 0 <= k < |Videos| && Videos[k].id == currentId
      ensures Related(currentId) == Videos[..k] + Videos[k + 1..]
    {
      WithoutUniqueId(Videos, currentId, k);
    }
    if forall k :: 0 <= k < |Videos| ==> Videos[k].id != currentId {
      WithoutAbsentId(Videos, currentId);
    }
  }
}
