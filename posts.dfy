/**
 * The user's text posts (`userPosts` entries) and the list surgery the
 * create, edit and delete handlers perform on them.
 */
module Posts {
  import opened Text

  /** A post has no identity beyond its position in the list. */
  datatype Post = Post(content: string, timestamp: string, likes: nat, comments: nat)

  /** The post the create handler builds: the text as typed, untrimmed, with fresh counters. */
  function NewPost(text: string): (p: Post)
    ensures p.content == text && p.timestamp == "Just now"
    ensures p.likes == 0 && p.comments == 0
  {
    Post(text, "Just now", 0, 0)
  }

  /** The post after the edit handler rewrote it: trimmed text, edited timestamp, counters kept. */
  function Edited(p: Post, text: string): (q: Post)
    ensures q.content == Trim(text) && q.timestamp == "Edited \U{2022} Just now"
    ensures q.likes == p.likes && q.comments == p.comments
  {
    p.(content := Trim(text), timestamp := "Edited \U{2022} Just now")
  }

  /**
   * Where `splice(start, 1)` starts on a list of length `len`: a negative
   * start counts back from the end (but not past the front), a start past
   * the end is clamped to the end.
   */
  function SpliceStart(start: int, len: nat): (k: nat)
    ensures k <= len
    ensures 0 <= start <= len ==> k == start
    ensures start < 0 && len + start >= 0 ==> k == len + start
    ensures len + start < 0 ==> k == 0
    ensures start > len ==> k == len
  {
    if start < 0 then (if len + start < 0 then 0 else len + start)
    else if start > len then len
    else start
  }

  /** `splice(start, 1)`: remove the element at the normalised start, if there is one. */
  function SpliceOne<T>(s: seq<T>, start: int): (r: seq<T>)
    ensures SpliceStart(start, |s|) < |s| ==> |r| == |s| - 1
    ensures SpliceStart(start, |s|) == |s| ==> r == s
  {
    var k := SpliceStart(start, |s|);
    if k < |s| then s[..k] + s[k + 1..] else s
  }

  /**
   * Removing at a valid index drops exactly that element: one shorter, the
   * elements before it in place, the elements after it shifted down by one.
   */
  lemma SpliceOneAt<T>(s: seq<T>, i: int)
    requires 0 <= i < |s|
    ensures SpliceOne(s, i) == s[..i] + s[i + 1..]
    ensures |SpliceOne(s, i)| == |s| - 1
    ensures forall j :: 0 <= j < i ==> SpliceOne(s, i)[j] == s[j]
    ensures forall j :: i <= j < |s| - 1 ==> SpliceOne(s, i)[j] == s[j + 1]
    ensures multiset(SpliceOne(s, i)) + multiset{s[i]} == multiset(s)
  {
    assert s == s[..i] + [s[i]] + s[i + 1..];
  }

  /** An index at or past the end removes nothing. */
  lemma SplicePastEnd<T>(s: seq<T>, i: int)
    requires i >= |s|
    ensures SpliceOne(s, i) == s
  {
  }

  /** A negative index beyond the front of a non-empty list removes the first element. */
  lemma SpliceBeforeFront<T>(s: seq<T>, i: int)
    requires s != [] && i < -|s|
    ensures SpliceOne(s, i) == s[1..]
  {
  }

  /** A negative index `-m` with `m <= |s|` removes the `m`-th element from the end. */
  lemma SpliceFromEnd<T>(s: seq<T>, i: int)
    requires -|s| <= i < 0
    ensures SpliceOne(s, i) == s[..|s| + i] + s[|s| + i + 1..]
  {
  }
}
