# Video-site mock: content store, grid, lookup, search and player buttons

This project models the client-side logic of a single-page video-site mock.

The page keeps two module-level lists, `userPosts` (text posts) and `userVideos`
(uploaded videos), both newest first. The create, edit and delete handlers change
these lists, and so does the completion step of the simulated upload. After every
change `updateVideoGrid` rebuilds the video grid. The grid shows:

1. every post, whose edit and delete buttons are bound to its list index;
2. every uploaded video;
3. the nine fixed catalog entries (`originalVideos`).

A click on an uploaded-video card goes through `watchVideo`. There a catalog id
would navigate to the entry's page, and an uploaded id opens the in-session player.
The player shows a related list drawn from the catalog and has like, dislike and
subscribe buttons. A click on a catalog card opens its URL in a new tab without
going through `watchVideo`. The search bar filters the
video previews present at page load by a case-insensitive substring match.

Modules:

- `Text`: the string semantics the handlers rely on. This covers `trim` with the
  ECMAScript whitespace set, ASCII `toLowerCase`, `includes`, decimal rendering of
  naturals and `padStart`.
- `Catalog`: the nine catalog entries and the related-videos filter.
- `Posts`: the post record and `splice(i, 1)`, including its negative-index and
  past-the-end behaviour.
- `Upload`: the `M:SS` duration, the regex that strips the file extension, the
  time-based id and the record added on completion.
- `Grid`: `updateVideoGrid`. Its output is a sequence of card descriptors (what
  each card shows and what its buttons are bound to), not markup.
- `Lookup`: `watchVideo`. The browser's navigation is returned as a `WatchAction`
  value.
- `Search`: `performSearch`. It gives one visibility flag per preview.
- `Store`: the class `ContentStore`. Its `seq` fields are the two lists and the
  grid's current contents. Its methods are the handlers, and every method keeps
  the grid equal to the render of the lists once it has been rebuilt.
- `Player`: the three player buttons. They are pure step functions plus a
  `PlayerView` class whose click methods update its flags in place.

Effects are parameters:

- The clock reading `Date.now()` is the parameter `now`.
- The answer to `confirm` is the parameter `confirmed`.
- The thumbnail data URL and the object URL of the file are parameters.
- `alert` becomes an `EditOutcome` or a `false` result.

## Model

| member | source | states |
|---|---|---|
| Store.ContentStore.constructor | script.js:196-197 | Both lists start empty, and the grid has not been rebuilt yet. |
| Store.ContentStore.Valid | script.js:551-621 | The store's invariant: once the grid has been rebuilt, it shows exactly `Render` of the current posts and videos. Every handler that changes a list rebuilds it. |
| Store.ContentStore.UpdateVideoGrid | script.js:551-621 | The grid becomes the render of the current lists, and the lists are untouched. Rebuilding twice with no change in between gives the same grid. |
| Store.ContentStore.CreatePost | script.js:471-488 | A post is added exactly when the text is not all whitespace. The new post goes in front of the older ones, which keep their order. Its content is the untrimmed text, with "Just now", no likes and no comments. The grid is rebuilt. A blank text changes neither the lists nor the grid. |
| Posts.NewPost | script.js:474-479 | The new post carries the text as typed, "Just now", 0 likes and 0 comments. |
| Store.ContentStore.EditPost | script.js:238-247 | Blank text is refused first. Otherwise a valid index gets the edited post, and every other post, the video list and, on refusal, the grid stay as they were. The outcome says which case applied. |
| Posts.Edited | script.js:239-241 | The edited post's content is the trimmed text and its timestamp is "Edited • Just now". Its likes and comments are kept. |
| Text.IsBlank | script.js:472 | The text's trim is empty exactly when every character of the text is ECMAScript whitespace. |
| Text.TrimStart | script.js:240 | The result is no longer than the input and does not start with whitespace. |
| Text.TrimEnd | script.js:240 | The result is no longer than the input and does not end with whitespace. |
| Text.Trim | script.js:240 | `trim()` is no longer than its input and neither starts nor ends with whitespace. |
| Text.TrimEmptyIff | script.js:239 | The trim is empty if and only if the whole text is whitespace, in both directions. |
| Text.TrimStartSpec | script.js:240 | Trimming the front removes a prefix made only of whitespace and leaves a suffix that is empty or starts with a non-space. |
| Text.TrimEndSpec | script.js:240 | Trimming the back removes a suffix made only of whitespace and leaves a prefix that is empty or ends with a non-space. |
| Text.TrimIsSlice | script.js:240 | The trimmed text is a contiguous slice of the original. Only whitespace lies on either side of it, and its ends are not whitespace. |
| Store.ContentStore.DeletePost | script.js:200-205 | An unconfirmed delete changes nothing. A confirmed delete removes the entry that `splice(index, 1)` picks and rebuilds the grid. For a valid index the result is the list without that entry, one shorter, in the same order. Videos are untouched. |
| Posts.SpliceStart | script.js:202 | `splice`'s start normalisation. A start in range is kept. A negative start counts back from the end, but not past the front. A start past the end is clamped to the length. |
| Posts.SpliceOne | script.js:202 | `splice(start, 1)` removes one element when the normalised start is inside the list, which makes it one shorter. It changes nothing when the start lands at the end. |
| Posts.SpliceOneAt | script.js:202 | At a valid index, `splice(i, 1)` gives the list without element `i`. Earlier elements stay in place and later ones shift down by one. The multiset loses exactly that element. |
| Posts.SplicePastEnd | script.js:202 | An index at or past the end removes nothing. |
| Posts.SpliceFromEnd | script.js:202 | A negative index `-m`, with `m` at most the length, removes the `m`-th element from the end. |
| Posts.SpliceBeforeFront | script.js:202 | A negative index reaching past the front of a non-empty list removes the first element. |
| Store.ContentStore.FinishUpload | script.js:357-369 | The upload record goes in front of the uploaded videos, the posts are untouched and the grid is rebuilt. |
| Upload.UploadRecord | script.js:357-366 | The record's id is "v_" followed by the clock reading. Its title is the file name without its extension, and its duration text is exactly `FormatDuration` of the given seconds, which parses back to them. It has "0 views", "Just now" and "Your Channel", plus the given thumbnail and URL. |
| Upload.FormatDuration | script.js:351-354 | Whole seconds rendered as minutes, a colon and the zero-padded seconds. Its meaning is given by `FormatDurationShape` and `DurationRoundTrip`; it carries no contract of its own. |
| Upload.FormatDurationShape | script.js:351-354 | The duration text is the decimal minutes (seconds / 60), a colon, and exactly two digits worth seconds % 60, which is below 60. |
| Upload.SecondsField | script.js:353-354 | The padded seconds field is always two digits and is worth the seconds it renders. |
| Upload.DurationRoundTrip | script.js:351-354 | Reading the `M:SS` text back gives the original whole seconds, so formatting loses nothing. |
| Upload.FormatDurationExamples | script.js:354 | 125 s shows as "2:05", 59 s as "0:59" and 600 s as "10:00". |
| Text.PadStart | script.js:354 | The padded text is as long as the larger of the width and the original. The original text is its suffix, and everything before it is the pad character. |
| Text.Decimal | script.js:358 | `String(n)` is at least one decimal digit, and exactly one when `n < 10`. `DecimalNoLeadingZero` and `DecimalRoundTrip` pin the digits. |
| Text.DecimalNoLeadingZero | script.js:358 | The digits start with `0` exactly when the number is 0, so there is no leading zero. |
| Text.DecimalRoundTrip | script.js:358 | The decimal digits of a natural number read back as that number. |
| Text.DecimalInjective | script.js:358 | Different naturals have different decimal renderings. |
| Upload.GeneratedId | script.js:358 | The id is "v_" followed by decimal digits that read back as the clock reading. |
| Upload.GeneratedIdsDistinct | script.js:358 | Uploads finished at different milliseconds get different ids. |
| Upload.GeneratedIdNotInCatalog | script.js:358 | A generated id never equals a catalog id. |
| Upload.StripExtension | script.js:359 | If the name ends in a dot followed by one or more characters, none of them a dot or a slash, the title is the name cut at that dot. Otherwise the title is the whole name. |
| Upload.ExtensionStart | script.js:359 | The backward scan finds the position where the pattern's match begins, or reports that there is none. |
| Upload.ExtensionUnique | script.js:359 | At most one position can begin the matched suffix. |
| Upload.StripExtensionExamples | script.js:359 | The titles are: "clip.mp4" to "clip", "archive.tar.gz" to "archive.tar", "noext", "a.b/c" and "trailing." kept whole, and ".hidden" to "". |
| Grid.PostCards | script.js:555-581 | One card per post, in list order. Card `i` shows post `i`'s content and its edit and delete buttons are bound to index `i`. |
| Grid.UploadCards | script.js:584-599 | One card per uploaded video, in list order. Card `j` calls `watchVideo` with video `j`'s id. |
| Grid.CatalogCards | script.js:602-617 | One card per catalog entry, in seed order. Card `k` opens entry `k`'s URL. |
| Grid.Render | script.js:619-620 | The container's contents are the post cards, then the upload cards, then the catalog cards. Its length is posts + videos + catalog size. `RenderLayout` gives the position of every card. |
| Grid.RenderLayout | script.js:555-620 | The grid has one card per post, per uploaded video and per catalog entry, in that order, and its length is posts + videos + 9. The post card at position `i` shows post `i` and is bound to index `i`. Upload card `j` is video `j`'s whole card and opens its own id. Catalog card `k` is entry `k`'s whole card: its URL, its `id.webp` image, its duration and title, "NZC Cricket" and "50M Views • 3 years ago". |
| Grid.PrependShiftsBindings | script.js:565-568 | After a post is put in front, the new post is bound to index 0. Every older post's card moves down one place and is bound to its old index plus one. The rest of the grid is unchanged. |
| Catalog.CatalogIds | script.js:493-548 | The catalog has nine entries with the seeded ids, and no two entries share an id. |
| Catalog.WithoutId | script.js:775 | `filter(v => v.id !== id)` is never longer than the list. `WithoutIdMembers` gives its members. When the id occurs at most once, as in the catalog, `WithoutAbsentId` and `WithoutUniqueId` give its exact value. |
| Catalog.WithoutIdMembers | script.js:775 | The filter keeps exactly the entries whose id differs from the current one. |
| Catalog.WithoutAbsentId | script.js:775 | Filtering by an id that does not occur keeps the whole list. |
| Catalog.WithoutUniqueId | script.js:775 | Filtering by an id that occurs once removes exactly that entry and keeps the order of the rest. |
| Catalog.Take | script.js:776 | `slice(0, n)` is a prefix of the list. It has exactly `n` elements when the list is longer, and it is the whole list otherwise. |
| Catalog.Related | script.js:774-776 | The related list has at most ten entries, each a catalog entry with a different id. |
| Catalog.RelatedIsCatalogMinusCurrent | script.js:774-776 | The related list is the catalog in seed order with the current entry cut out, or the whole catalog when the id is not a catalog id. |
| Lookup.FirstIndex | script.js:633 | `find` returns the first element with the id, or reports that no element has it. |
| Lookup.WatchVideo | script.js:624-638 | Navigation happens exactly when the id is a catalog id, to that entry's URL. Otherwise the first uploaded video with the id opens in the player with the related list for that id. Nothing happens exactly when neither list has the id. |
| Lookup.CatalogTakesPrecedence | script.js:626-630 | A catalog id navigates to its entry even when an uploaded video carries the same id. |
| Lookup.NewUploadOpensInPlayer | script.js:633-637 | A freshly uploaded video opens in the player, and its related list is the whole catalog. |
| Search.SearchText | script.js:16 | The compared text is no longer than the raw input, and it is empty exactly when the input is all whitespace. |
| Search.Matches | script.js:28-32 | A preview matches exactly when the search text occurs at some position of its lower-cased title or of its lower-cased channel. |
| Search.Visibility | script.js:15-37 | One flag per preview. Preview `i` is shown exactly when the query is blank or preview `i` matches the search text. |
| Search.BlankSearchShowsAll | script.js:16-24 | A query that is empty after trimming shows every preview. |
| Search.VisibleIff | script.js:26-37 | Otherwise a preview is shown if and only if the trimmed, lower-cased query occurs at some position in its lower-cased title or its lower-cased channel. |
| Search.SearchIgnoresPreviewCase | script.js:28-32 | Two previews whose title and channel differ only in the case of ASCII letters are shown or hidden together, whatever the query. |
| Search.SearchIgnoresQueryCase | script.js:16 | The case of the typed query does not change which previews are shown. |
| Text.TrimLowerCommute | script.js:16 | Trimming and lower-casing commute. |
| Text.ToLower | script.js:28 | `toLowerCase` keeps the length. |
| Text.ToLowerSpec | script.js:28 | Every upper-case ASCII letter becomes the same letter in lower case. No upper-case ASCII letter survives, and every other character is kept. |
| Text.SameUpToCaseLower | script.js:28 | Two texts that differ only in the case of ASCII letters lower-case to the same text. |
| Text.ToLowerIdempotent | script.js:28 | Lower-casing twice is lower-casing once. |
| Text.Includes | script.js:32 | A needle that is found is no longer than the text, and the empty needle is always found. `IncludesIff` gives the exact meaning. |
| Text.IncludesIff | script.js:32 | `includes` holds exactly when the needle occurs at some position of the text. |
| Player.PlayerView.constructor | script.js:665 | A new player shows no like, no dislike, a counter of 0 and "Subscribe". |
| Player.PlayerView.ClickLike | script.js:729-736 | A like click on an inactive like button activates it, clears the dislike and adds one to the counter. Otherwise nothing changes. The buttons stay consistent. |
| Player.PlayerView.ClickDislike | script.js:738-747 | A dislike click activates the dislike, clears the like and takes back an active like from the counter (the corrected behaviour, see Findings). The buttons stay consistent. |
| Player.PlayerView.ClickSubscribe | script.js:750-758 | A subscribe click flips the subscribed state. |
| Player.Like | script.js:729-736 | From any state, including the inconsistent ones the page as written reaches: an inactive like becomes active, dislike is cleared and the counter goes up by one. An active like makes the click a no-op. The subscription is untouched, and a consistent state stays consistent. |
| Player.DislikeAsWritten | script.js:738-747 | The page's dislike handler. An inactive dislike becomes active and like is cleared, but the like counter never changes, even when a like was active. A second dislike is a no-op. |
| Player.Dislike | script.js:738-747 | The corrected dislike. An inactive dislike becomes active, like is cleared, and the counter goes down by one when like was active. A second dislike is a no-op, and a consistent state stays consistent. |
| Player.ToggleSubscribe | script.js:750-758 | The subscribed flag flips, and the like and dislike flags and the counter are untouched. |
| Player.LikeIdempotent | script.js:729-736 | A second like click changes nothing. After a like click like is active, and dislike is off unless like was already active. |
| Player.SubscribeTwiceRestores | script.js:750-758 | Two subscribe clicks restore the state, and the caption changes on every click. |
| Player.RunKeepsConsistent | script.js:729-747 | With the corrected dislike, no series of clicks activates both like and dislike, and the counter always says whether like is active. |
| Player.AsWrittenNeverDecrements | script.js:738-747 | With the dislike handler as written, no series of clicks ever lowers the like counter. |
| Player.AsWrittenCounterDrifts | script.js:738-747 | With the handler as written, like, dislike, like leaves one active like but a counter of 2. |

## Left out

- Modal construction, the template markup, styles, the hamburger menu and popup wiring are left out. The grid is modelled as card descriptors. The interpolation into HTML without escaping is not modelled.
- Speech recognition, camera and microphone capture, and drag-and-drop or file-input events are left out. They are browser device and I/O interfaces.
- Thumbnail capture through a video element and a canvas, and `URL.createObjectURL`, are left out. Their results are the parameters `thumbnail` and `videoUrl`.
- The simulated progress (`setInterval`, `setTimeout`, `Math.random`) is left out. Only the completion step, `FinishUpload`, is modelled.
- `Date.now()` is the parameter `now`. Two uploads finished in the same millisecond get the same id, and the lookup then opens the newest of them.
- `window.location.href` and `window.open` are left out. They are returned as `WatchAction` values, and the catalog cards carry their URL.
- `confirm` is the boolean parameter of `DeletePost`. `alert` is the `BlankText` outcome or a `false` result.
- Upload.UploadRecord: the duration is taken as whole seconds. The floating-point `video.duration` and its `Math.floor` are the caller's concern, and NaN or infinite durations are not modelled.
- Text.Decimal: natural numbers are rendered as plain decimal digits. JavaScript's `String(n)` gives that form for a Number only below 10^21 (above it, exponent notation) and is exact only below 2^53. Millisecond clock readings and video durations stay far below both bounds.
- Text.ToLower: only ASCII letters are lower-cased. Full Unicode case mapping, and strings as UTF-16 code units, are not modelled.
- Store.ContentStore.EditPost: the edit dialog reads `userPosts[index]` when it opens (script.js:208). For an index with no post it throws before any dialog exists. The model folds every missing-index case into the `MissingPost` outcome, with no change.
- Search.VisibleIff: the previews are a given list. In the page they are the elements captured once at load (script.js:13), so posts and uploads added later are never searched.
- Catalog.Related: only the selection is modelled. The related cards show `video.channel`, which catalog entries do not have (script.js:786), so in the page they read "undefined".
- The player's state lives only in the view. Likes are never written back to the uploaded-video list, and the comment box and "show more" toggle are not modelled.

## Findings

| source | as written | input that shows it | evidently intended | confidence | as-written member | corrected member |
|---|---|---|---|---|---|---|
| script.js:738-747 | The dislike handler removes `active` from the like button and then tests whether like is `active`, so the decrement never runs. | Like, dislike, like on a fresh player: one active like, counter 2. | A dislike that replaces an active like takes one off the counter. | not executed | Player.AsWrittenCounterDrifts | Player.RunKeepsConsistent |
