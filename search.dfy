/**
 * `performSearch`: which of the video previews stay visible for the text in
 * the search bar. The previews are those present when the page loaded.
 */
module Search {
  import opened Text

  /** The two texts of a preview the search looks at. */
  datatype Preview = Preview(title: string, channel: string)

  /** The search text as compared: trimmed, then lower-cased. */
  function SearchText(raw: string): (q: string)
    ensures |q| <= |raw|
    ensures q == [] <==> AllSpace(raw)
  {
    TrimEmptyIff(raw);
    ToLower(Trim(raw))
  }

  /** The search text occurs somewhere in the lower-cased title or the lower-cased channel. */
  predicate Matches(searchText: string, p: Preview): (b: bool)
    ensures b <==> ((exists k :: OccursAt(ToLower(p.title), searchText, k))
                    || (exists k :: OccursAt(ToLower(p.channel), searchText, k)))
  {
    IncludesIff(ToLower(p.title), searchText);
    IncludesIff(ToLower(p.channel), searchText);
    Includes(ToLower(p.title), searchText) || Includes(ToLower(p.channel), searchText)
  }

  /** For each preview, whether it is displayed after the search. */
  function Visibility(raw: string, previews: seq<Preview>): (shown: seq<bool>)
    ensures |shown| == |previews|
    ensures forall i :: 0 <= i < |previews| ==>
      (shown[i] <==> AllSpace(raw) || Matches(SearchText(raw), previews[i]))
  {
    var q := SearchText(raw);
    if q == [] then seq(|previews|, _ => true)
    else seq(|previews|, i requires 0 <= i < |previews| => Matches(q, previews[i]))
  }

  /** A blank search (empty or whitespace only) shows every preview. */
  lemma BlankSearchShowsAll(raw: string, previews: seq<Preview>)
    requires AllSpace(raw)
    ensures forall i :: 0 <= i < |previews| ==> Visibility(raw, previews)[i]
  {
    TrimEmptyIff(raw);
  }

  /**
   * Otherwise a preview is shown exactly when the lower-cased trimmed search
   * text occurs somewhere in its lower-cased title or lower-cased channel.
   */
  lemma VisibleIff(raw: string, previews: seq<Preview>, i: nat)
    requires !AllSpace(raw) && i < |previews|
    ensures Visibility(raw, previews)[i] <==>
      (exists k :: OccursAt(ToLower(previews[i].title), SearchText(raw), k))
      || (exists k :: OccursAt(ToLower(previews[i].channel), SearchText(raw), k))
  {
    TrimEmptyIff(raw);
    assert |SearchText(raw)| == |Trim(raw)|;
    IncludesIff(ToLower(previews[i].title), SearchText(raw));
    IncludesIff(ToLower(previews[i].channel), SearchText(raw));
  }

  /**
   * The case of a preview's title and channel does not matter: two previews
   * whose texts differ only in the case of ASCII letters are shown or hidden together.
   */
  lemma SearchIgnoresPreviewCase(raw: string, p: Preview, q: Preview)
    requires SameUpToCase(p.title, q.title) && SameUpToCase(p.channel, q.channel)
    ensures Visibility(raw, [p])[0] == Visibility(raw, [q])[0]
  {
    SameUpToCaseLower(p.title, q.title);
    SameUpToCaseLower(p.channel, q.channel);
  }

  /** The case of the typed text does not matter. */
  lemma SearchIgnoresQueryCase(raw: string, previews: seq<Preview>)
    ensures Visibility(ToLower(raw), previews) == Visibility(raw, previews)
  {
    TrimLowerCommute(raw);
    ToLowerIdempotent(Trim(raw));
    assert SearchText(ToLower(raw)) == SearchText(raw);
  }
}
