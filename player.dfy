/**
 * The like, dislike and subscribe buttons of the in-session player. Their
 * state lives only as long as the player view and is never written back to
 * the uploaded-video list.
 */
module Player {

  /** The button flags and the like counter the player shows. */
  datatype PlayerState = PlayerState(liked: bool, disliked: bool, likeCount: int, subscribed: bool)

  /** A freshly opened player: nothing active, the counter at 0, not subscribed. */
  const Opened: PlayerState := PlayerState(false, false, 0, false)

  /** Like: unless already liked, becomes liked, clears the dislike and counts one more like. */
  function Like(s: PlayerState): (r: PlayerState)
    ensures r.liked && r.subscribed == s.subscribed
    ensures !s.liked ==> !r.disliked && r.likeCount == s.likeCount + 1
    ensures s.liked ==> r == s
    ensures Consistent(s) ==> Consistent(r) && !r.disliked
  {
    if !s.liked then s.(liked := true, disliked := false, likeCount := s.likeCount + 1) else s
  }

  /**
   * Dislike as the handler is written: the like flag is cleared before it is
   * tested, so the test never holds and the counter is never decremented.
   */
  function DislikeAsWritten(s: PlayerState): (r: PlayerState)
    ensures r.disliked && r.subscribed == s.subscribed
    ensures r.likeCount == s.likeCount
    ensures !s.disliked ==> !r.liked
    ensures s.disliked ==> r == s
  {
    if !s.disliked then
      var t := s.(disliked := true, liked := false);
      if t.liked then t.(likeCount := t.likeCount - 1) else t
    else s
  }

  /** Dislike as intended: a like that was active is taken back from the counter. */
  function Dislike(s: PlayerState): (r: PlayerState)
    ensures r.disliked && r.subscribed == s.subscribed
    ensures !s.disliked ==> !r.liked && r.likeCount == (if s.liked then s.likeCount - 1 else s.likeCount)
    ensures s.disliked ==> r == s
    ensures Consistent(s) ==> Consistent(r) && !r.liked
  {
    if !s.disliked then
      s.(disliked := true, liked := false, likeCount := if s.liked then s.likeCount - 1 else s.likeCount)
    else s
  }

  /** Subscribe flips between subscribed and not. */
  function ToggleSubscribe(s: PlayerState): (r: PlayerState)
    ensures r.subscribed == !s.subscribed
    ensures r.liked == s.liked && r.disliked == s.disliked && r.likeCount == s.likeCount
  {
    s.(subscribed := !s.subscribed)
  }

  /** The subscribe button's caption. */
  function SubscribeLabel(s: PlayerState): string {
    if s.subscribed then "Subscribed" else "Subscribe"
  }

  datatype Click = LikeClick | DislikeClick | SubscribeClick

  function Step(s: PlayerState, c: Click): PlayerState {
    match c
    case LikeClick => Like(s)
    case DislikeClick => Dislike(s)
    case SubscribeClick => ToggleSubscribe(s)
  }

  function StepAsWritten(s: PlayerState, c: Click): PlayerState {
    match c
    case LikeClick => Like(s)
    case DislikeClick => DislikeAsWritten(s)
    case SubscribeClick => ToggleSubscribe(s)
  }

  /** The state after a series of clicks, first click first. */
  function Run(s: PlayerState, clicks: seq<Click>): PlayerState
    decreases |clicks|
  {
    if clicks == [] then s else Run(Step(s, clicks[0]), clicks[1..])
  }

  function RunAsWritten(s: PlayerState, clicks: seq<Click>): PlayerState
    decreases |clicks|
  {
    if clicks == [] then s else RunAsWritten(StepAsWritten(s, clicks[0]), clicks[1..])
  }

  /** At most one of like and dislike is active, and the counter shows whether like is. */
  predicate Consistent(s: PlayerState) {
    !(s.liked && s.disliked) && s.likeCount == (if s.liked then 1 else 0)
  }

  /** Liking twice is liking once. */
  lemma LikeIdempotent(s: PlayerState)
    ensures Like(Like(s)) == Like(s)
    ensures Like(s).liked && (s.liked || !Like(s).disliked)
  {
  }

  /** Two subscribe clicks undo each other, and the caption follows the flag. */
  lemma SubscribeTwiceRestores(s: PlayerState)
    ensures ToggleSubscribe(ToggleSubscribe(s)) == s
    ensures SubscribeLabel(ToggleSubscribe(s)) != SubscribeLabel(s)
  {
  }

  /** With the intended dislike, every series of clicks keeps the buttons and the counter consistent. */
  lemma {:induction false} RunKeepsConsistent(s: PlayerState, clicks: seq<Click>)
    requires Consistent(s)
    ensures Consistent(Run(s, clicks))
    decreases |clicks|
  {
    if clicks != [] {
      RunKeepsConsistent(Step(s, clicks[0]), clicks[1..]);
    }
  }

  /** As written, no series of clicks ever lowers the like counter. */
  lemma {:induction false} AsWrittenNeverDecrements(s: PlayerState, clicks: seq<Click>)
    ensures RunAsWritten(s, clicks).likeCount >= s.likeCount
    decreases |clicks|
  {
    if clicks != [] {
      AsWrittenNeverDecrements(StepAsWritten(s, clicks[0]), clicks[1..]);
    }
  }

  /** As written, like, dislike, like leaves one active like but a counter of two. */
  lemma AsWrittenCounterDrifts()
    ensures RunAsWritten(Opened, [LikeClick, DislikeClick, LikeClick]).liked
    ensures RunAsWritten(Opened, [LikeClick, DislikeClick, LikeClick]).likeCount == 2
    ensures !Consistent(RunAsWritten(Opened, [LikeClick, DislikeClick, LikeClick]))
  {
    var clicks := [LikeClick, DislikeClick, LikeClick];
    assert clicks[1..] == [DislikeClick, LikeClick];
    assert clicks[1..][1..] == [LikeClick];
    assert [LikeClick][1..] == [];
  }

  /** The player's buttons, as a view object whose flags each click updates in place. */
  class PlayerView {
    var liked: bool
    var disliked: bool
    var likeCount: int
    var subscribed: bool

    function State(): PlayerState
      reads this
    {
      PlayerState(liked, disliked, likeCount, subscribed)
    }

    ghost predicate Valid()
      reads this
    {
      Consistent(State())
    }

    constructor ()
      ensures State() == Opened && Valid()
    {
      liked, disliked, likeCount, subscribed := false, false, 0, false;
    }

    method ClickLike()
      requires Valid()
      modifies this
      ensures State() == Like(old(State())) && Valid()
    {
      if !liked {
        liked := true;
        disliked := false;
        likeCount := likeCount + 1;
      }
    }

    /**
     * The dislike button with the corrected handler: an active like is taken
     * back from the counter. The page's own handler never decrements (see
     * `DislikeAsWritten` and `AsWrittenCounterDrifts`).
     */
    method ClickDislike()
      requires Valid()
      modifies this
      ensures State() == Dislike(old(State())) && Valid()
    {
      if !disliked {
        disliked := true;
        if liked {
          likeCount := likeCount - 1;
        }
        liked := false;
      }
    }

    method ClickSubscribe()
      requires Valid()
      modifies this
      ensures State() == ToggleSubscribe(old(State())) && Valid()
    {
      subscribed := !subscribed;
    }
  }
}
