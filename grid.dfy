/**
 * `updateVideoGrid`: the content container rebuilt from posts, uploaded
 * videos and the catalog. Each card is a descriptor of what the markup
 * shows and of the handler its buttons are bound to, not the markup itself.
 */
module Grid {
  import opened Posts
  import opened Upload
  import Catalog

  datatype GridItem =
      /** A post card; its edit and delete buttons call the handlers with `index`. */
    | PostCard(index: nat, content: string, timestamp: string, likes: nat, comments: nat)
      /** An uploaded video card; a click calls `watchVideo(watchId)`. */
    | UploadCard(watchId: string, thumbnail: string, duration: string, title: string,
                 channel: string, views: string, timestamp: string)
      /** A catalog card; a click opens `openUrl` in a new tab. */
    | CatalogCard(openUrl: string, image: string, duration: string, title: string,
                  channel: string, stats: string)

  /** One card per post, in list order, each bound to its own index. */
  function PostCards(posts: seq<Post>): (r: seq<GridItem>)
    ensures |r| == |posts|
    ensures forall i :: 0 <= i < |r| ==> r[i].PostCard? && r[i].index == i && r[i].content == posts[i].content
  {
    seq(|posts|, i requires 0 <= i < |posts| =>
      PostCard(i, posts[i].content, posts[i].timestamp, posts[i].likes, posts[i].comments))
  }

  function UploadCardOf(v: UploadedVideo): GridItem {
    UploadCard(v.id, v.thumbnail, v.duration, v.title, v.channel, v.views, v.timestamp)
  }

  /** One card per uploaded video, in list order, each opening its own id. */
  function UploadCards(videos: seq<UploadedVideo>): (r: seq<GridItem>)
    ensures |r| == |videos|
    ensures forall j :: 0 <= j < |r| ==> r[j].UploadCard? && r[j].watchId == videos[j].id
  {
    seq(|videos|, i requires 0 <= i < |videos| => UploadCardOf(videos[i]))
  }

  function CatalogCardOf(v: Catalog.CatalogVideo): GridItem {
    CatalogCard(v.url, v.id + ".webp", v.duration, v.title, "NZC Cricket", "50M Views \U{2022} 3 years ago")
  }

  /** One card per catalog entry, in seed order, each opening its entry's URL. */
  function CatalogCards(): (r: seq<GridItem>)
    ensures |r| == |Catalog.Videos|
    ensures forall k :: 0 <= k < |r| ==> r[k].CatalogCard? && r[k].openUrl == Catalog.Videos[k].url
  {
    seq(|Catalog.Videos|, k requires 0 <= k < |Catalog.Videos| => CatalogCardOf(Catalog.Videos[k]))
  }

  /** The whole container: posts, then uploaded videos, then the catalog. */
  function Render(posts: seq<Post>, videos: seq<UploadedVideo>): (r: seq<GridItem>)
    ensures |r| == |posts| + |videos| + |Catalog.Videos|
  {
    PostCards(posts) + UploadCards(videos) + CatalogCards()
  }

  /**
   * Every post in list order, each bound to its own index, then every
   * uploaded video in list order, then the nine catalog entries in seed
   * order; nothing else is shown.
   */
  lemma RenderLayout(posts: seq<Post>, videos: seq<UploadedVideo>)
    ensures var r := Render(posts, videos);
      && |r| == |posts| + |videos| + 9
      && (forall i :: 0 <= i < |posts| ==>
            r[i].PostCard? && r[i].index == i && r[i].content == posts[i].content
            && r[i].timestamp == posts[i].timestamp
            && r[i].likes == posts[i].likes && r[i].comments == posts[i].comments)
      && (forall j :: 0 <= j < |videos| ==>
            r[|posts| + j] == UploadCardOf(videos[j]) && r[|posts| + j].watchId == videos[j].id)
      && (forall k :: 0 <= k < 9 ==>
            r[|posts| + |videos| + k].CatalogCard?
            && r[|posts| + |videos| + k].openUrl == Catalog.Videos[k].url
            && r[|posts| + |videos| + k].title == Catalog.Videos[k].title
            && r[|posts| + |videos| + k] == CatalogCardOf(Catalog.Videos[k]))
  {
    var pc, uc, cc := PostCards(posts), UploadCards(videos), CatalogCards();
    var r := Render(posts, videos);
    assert r == pc + uc + cc;
    assert forall i :: 0 <= i < |posts| ==> r[i] == pc[i];
    assert forall j :: 0 <= j < |videos| ==> r[|posts| + j] == uc[j];
    assert forall k :: 0 <= k < 9 ==> r[|posts| + |videos| + k] == cc[k];
  }

  /**
   * After a post is put in front, every older post's card moves down one
   * place and its buttons are bound to its old index plus one.
   */
  lemma PrependShiftsBindings(p: Post, posts: seq<Post>, videos: seq<UploadedVideo>)
    ensures Render([p] + posts, videos)[0].PostCard? && Render([p] + posts, videos)[0].index == 0
    ensures Render([p] + posts, videos)[0].content == p.content
    ensures forall i :: 0 <= i < |posts| ==>
      Render([p] + posts, videos)[i + 1].index == Render(posts, videos)[i].index + 1
      && Render([p] + posts, videos)[i + 1].content == Render(posts, videos)[i].content
    ensures Render([p] + posts, videos)[|posts| + 1..] == Render(posts, videos)[|posts|..]
  {
    RenderLayout(posts, videos);
    RenderLayout([p] + posts, videos);
    var before := Render(posts, videos);
    var after := Render([p] + posts, videos);
    assert after[|posts| + 1..] == UploadCards(videos) + CatalogCards();
    assert before[|posts|..] == UploadCards(videos) + CatalogCards();
  }
}
