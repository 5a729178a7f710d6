/**
 * The page's content store: the two module-level lists `userPosts` and
 * `userVideos`, the operations that change them, and the video grid they are
 * re-rendered into after every change.
 */
module Store {
  import opened Wrappers
  import opened Text
  import opened Posts
  import opened Upload
  import opened Grid
  import Catalog

  /** How a click on the edit dialog's Update button ends. */
  datatype EditOutcome =
    | EditApplied
      /** The text was blank: the page shows "Please write something to post". */
    | BlankText
      /** No post at that index any more: the handler fails on the missing entry. */
    | MissingPost

  class ContentStore {
    /** `userPosts`, newest first. */
    var posts: seq<Post>
    /** `userVideos`, newest first. */
    var videos: seq<UploadedVideo>
    /** What the grid container shows: `None` while it still holds the page's initial markup. */
    var grid: Option<seq<GridItem>>

    /** Once rendered, the grid shows exactly the current posts, uploads and catalog. */
    ghost predicate Valid()
      reads this
    {
      grid.Some? ==> grid.value == Render(posts, videos)
    }

    /** A page session starts with both lists empty and the grid not yet rebuilt. */
    constructor ()
      ensures Valid()
      ensures posts == [] && videos == [] && grid == None
    {
      posts := [];
      videos := [];
      grid := None;
    }

    /** `updateVideoGrid`: replace the container's contents with a fresh render; the lists are untouched. */
    method UpdateVideoGrid()
      modifies this`grid
      ensures grid == Some(Render(posts, videos))
      ensures Valid()
    {
      grid := Some(Render(posts, videos));
    }

    /**
     * The Post button of the create dialog: a text that is not blank becomes a
     * new post in front of the others (untrimmed, "Just now", no likes, no
     * comments); a blank text changes nothing.
     */
    method CreatePost(text: string) returns (posted: bool)
      requires Valid()
      modifies this
      ensures Valid()
      ensures posted <==> !AllSpace(text)
      ensures posted ==> posts == [NewPost(text)] + old(posts) && grid == Some(Render(posts, videos))
      ensures !posted ==> posts == old(posts) && grid == old(grid)
      ensures videos == old(videos)
    {
      if !IsBlank(text) {
        posts := [NewPost(text)] + posts;
        UpdateVideoGrid();
        posted := true;
      } else {
        posted := false;
      }
    }

    /**
     * The Update button of the edit dialog opened for `index`: a blank text is
     * refused; otherwise the post at `index`, if there still is one, gets the
     * trimmed text and the edited timestamp, and no other post changes.
     */
    method EditPost(index: int, text: string) returns (outcome: EditOutcome)
      requires Valid()
      modifies this
      ensures Valid()
      ensures outcome == if AllSpace(text) then BlankText
                         else if 0 <= index < |old(posts)| then EditApplied
                         else MissingPost
      ensures outcome == EditApplied ==>
        && |posts| == |old(posts)|
        && posts[index] == Edited(old(posts)[index], text)
        && (forall j :: 0 <= j < |posts| && j != index ==> posts[j] == old(posts)[j])
        && grid == Some(Render(posts, videos))
      ensures outcome != EditApplied ==> posts == old(posts) && grid == old(grid)
      ensures videos == old(videos)
    {
      if IsBlank(text) {
        outcome := BlankText;
      } else if 0 <= index < |posts| {
        posts := posts[index := Edited(posts[index], text)];
        UpdateVideoGrid();
        outcome := EditApplied;
      } else {
        outcome := MissingPost;
      }
    }

    /**
     * `deletePost(index)`: without confirmation nothing changes; with it the
     * list loses the entry `splice(index, 1)` picks and the grid is rebuilt.
     */
    method DeletePost(index: int, confirmed: bool)
      requires Valid()
      modifies this
      ensures Valid()
      ensures !confirmed ==> posts == old(posts) && grid == old(grid)
      ensures confirmed ==> posts == SpliceOne(old(posts), index) && grid == Some(Render(posts, videos))
      ensures confirmed && 0 <= index < |old(posts)| ==>
        posts == old(posts)[..index] + old(posts)[index + 1..] && |posts| == |old(posts)| - 1
      ensures videos == old(videos)
    {
      if confirmed {
        if 0 <= index < |posts| {
          SpliceOneAt(posts, index);
        }
        posts := SpliceOne(posts, index);
        UpdateVideoGrid();
      }
    }

    /**
     * The end of a simulated upload: the record for the file goes in front of
     * the uploaded videos and the grid is rebuilt.
     */
    method FinishUpload(now: nat, fileName: string, thumbnail: string, seconds: nat, videoUrl: string)
      requires Valid()
      modifies this
      ensures Valid()
      ensures videos == [UploadRecord(now, fileName, thumbnail, seconds, videoUrl)] + old(videos)
      ensures posts == old(posts)
      ensures grid == Some(Render(posts, videos))
    {
      videos := [UploadRecord(now, fileName, thumbnail, seconds, videoUrl)] + videos;
      UpdateVideoGrid();
    }
  }
}
