# Feed state engine of the prompts viewer

This project is a Dafny model of the feed page's state engine in
`promptScoller/script.js`, together with the search and render rules of the
smaller gallery page in `promp-ts/script.js`. It also proves properties of the
model.

The feed page loads a list of image prompts and shuffles it once. It then
shows a view of that list: everything, a search, a category, or the saved
items. It also keeps two id sets, liked and saved. Both sets live in the
`appState` record and are written through to `localStorage`. The model has
these parts:

- `Views.Keep` is `Array.prototype.filter`. It is proved to be exactly the
  order-preserving sub-list of the elements that satisfy the predicate. The
  proof is `Views.KeepIffSelection`, which uses an index witness and holds
  in both directions.
- `IdSets` models a JavaScript `Set` of ids as a sequence without
  repetitions, kept in insertion order. That order is what `[...set]` writes
  to storage.
- `Storage` models `localStorage` as a map. An id list is stored as `Ids`
  and a plain string as `Text`.
- `Shuffle.ShuffleArray` is the in-place Fisher–Yates loop over an `array`.
  Each random index is a nondeterministic choice of `0 <= j <= i`. The method
  is proved against the specification function `Shuffle.Shuffled`. That
  function is proved to give a permutation, and every permutation is proved
  reachable.
- `Uuid.Generate` is the template substitution of `generateUUID`. The
  31 random nibbles are a parameter. Its output is proved to have exactly
  the version-4 layout of section 4.4 of RFC 4122, and every string with that
  layout is proved to be producible.
- `Feed.FeedPage` is a class that holds `appState`:
  - the search box text, the container contents, the swipe hint and the
    storage map;
  - one method per handler.

  Its invariant `Valid` says:
  - the in-memory sets are exactly what storage holds;
  - cards agree with the sets whenever no two cards share an id;
  - the swipe hint is armed only while the onboarding flag is unset.
- `Gallery.Page` models the gallery page:
  - the master list;
  - the null-safe search;
  - the render loop, which skips items with no image URL;
  - `loadImages`.

In these places the page behaves in ways a reader might not expect; the
model follows the code:

- **Stored sets.** A stored set is read with
  `new Set(JSON.parse(v) || [])` at `promptScoller/script.js:48-49`. A
  missing key and a stored falsy value (`null`, `false`, `0`, `""`) give the
  empty set. A stored JSON string gives the set of its characters. Any other
  text that is not an array makes `JSON.parse` or `new Set` throw.
  `Storage.LoadIdSet` returns `None` for those. The `Feed.FeedPage`
  constructor requires both reads to succeed.
- **Like counts.** A like changes only the count shown on the clicked card.
  `image.likes` in `allImages` is never updated. The next render shows the
  fetched count again.
- **Saved view after a save toggle.** A save toggle while the saved view is
  showing renders the saved items again. It does not assign
  `appState.filteredImages`.
- **Empty fetch.** A fetch that succeeds with an empty list renders nothing:
  the container keeps what it showed.
- **Order of the like steps.** The like handler writes storage after the
  remote call returns. Each handler is modelled as one atomic step.

## Model

| member | source | states |
|---|---|---|
| Text.LowerChar | promptScoller/script.js:310 | `toLowerCase` on one character never yields an upper-case ASCII letter and changes only upper-case letters |
| Text.Lower | promptScoller/script.js:310 | lower-casing keeps the length and maps every character by `LowerChar` |
| Text.LowerCharIff | promptScoller/script.js:310 | two characters lower alike exactly when they are equal or an upper-case ASCII letter and its lower-case partner |
| Text.LowerEqualIff | promptScoller/script.js:313-314 | two strings lower alike exactly when they have the same length and agree position by position up to ASCII case, so the filters ignore case |
| Text.LowerIdempotent | promptScoller/script.js:330 | lower-casing an already lower-cased term changes nothing, as `handleDropdownFilter` lower-cases titles and terms alike |
| Text.Leading | promptScoller/script.js:306 | the count of leading characters `trim()` cuts: all of them are white space, and the character after them is not |
| Text.Trailing | promptScoller/script.js:306 | the count of trailing characters `trim()` cuts: all of them are white space, and the character before them is not |
| Text.Trim | promptScoller/script.js:306 | `trim()` returns a slice of the input whose two ends are not white space, with only white space cut on either side |
| Text.MarginsCut | promptScoller/script.js:306 | cutting both white-space margins leaves a slice with non-white-space ends and cuts nothing else |
| Text.ContainsIff | promptScoller/script.js:313 | `includes` holds exactly when the term occurs at some position of the string |
| Text.ContainsEmpty | promptScoller/script.js:313 | every string includes the empty term |
| Text.ContainsInEmpty | promp-ts/script.js:131-133 | the empty string includes only the empty term |
| Text.TrimIdempotent | promptScoller/script.js:306 | trimming the written-back value again changes nothing |
| Text.TrimAllSpace | promptScoller/script.js:306 | an all-white-space input trims to the empty string |
| Text.LowerKeepsSpace | promp-ts/script.js:127 | lower-casing neither creates nor removes white space |
| Text.LowerAllSpace | promp-ts/script.js:127 | lower-casing an all-white-space input leaves it all white space, so the gallery's `toLowerCase().trim()` also gives the empty term |
| Views.Keep | promptScoller/script.js:311-315 | `filter` returns no more elements than its input, and only elements of the input that satisfy the predicate |
| Views.KeepSelects | promptScoller/script.js:311-315 | the filter result is selected, in order, at exactly the positions whose element satisfies the predicate |
| Views.SelectionSnoc | promptScoller/script.js:311-315 | a selection of a list extends to the list with one more element, taking the element exactly when it satisfies the predicate |
| Views.SelectionOfEmpty | promptScoller/script.js:311-315 | the only selection from the empty list is empty |
| Views.SelectionDropSelected | promptScoller/script.js:311-315 | a selection whose list ends in a selected element ends in that element, and the rest is a selection of the shorter list |
| Views.SelectionDropUnselected | promptScoller/script.js:311-315 | a selection of a list ending in an unselected element is a selection of the shorter list |
| Views.SelectionIsKeep | promptScoller/script.js:311-315 | any order-preserving selection of exactly the satisfying elements equals the filter result |
| Views.SelectedLastIsKeep | promptScoller/script.js:311-315 | the same, for a list whose last element is selected |
| Views.KeepIffSelection | promptScoller/script.js:311-315 | a list is the order-preserving sub-list of the satisfying elements if and only if it is the filter result |
| Views.KeepSelection | promptScoller/script.js:311-315 | the filter result is the order-preserving selection of the satisfying elements and holds exactly those elements |
| Views.KeepMembers | promptScoller/script.js:344-346 | an element is in the filter result exactly when it is in the input and satisfies the predicate |
| Views.KeepAll | promptScoller/script.js:358 | a predicate true of every element keeps the whole list in order |
| Views.KeepNone | promptScoller/script.js:123-125 | a predicate true of no element keeps nothing |
| Views.KeepSnoc | promp-ts/script.js:55-57 | filtering a list extended by one element extends the result by that element exactly when it satisfies the predicate |
| Views.KeepCongruent | promptScoller/script.js:344-346 | predicates that agree on the list's elements keep the same sub-list |
| Views.KeepDistinct | promptScoller/script.js:277-279 | filtering a list without repeated elements keeps it without repeats |
| IdSets.Add | promptScoller/script.js:235 | `set.add` gives the old members plus the new one and keeps the set free of repeats |
| IdSets.Delete | promptScoller/script.js:229 | `set.delete` gives the old members minus the deleted one and keeps the set free of repeats |
| IdSets.Toggle | promptScoller/script.js:228-240 | a toggle flips the membership of its id and of no other id, and keeps the set free of repeats |
| IdSets.ToggleTwice | promptScoller/script.js:228-240 | toggling the same id twice restores the members, and restores the exact sequence when the id started absent |
| IdSets.FromList | promptScoller/script.js:48-49 | `new Set(list)` has no repeats and exactly the list's members |
| IdSets.FromListDistinct | promptScoller/script.js:48-49 | reading back a list without repeats gives the same list in the same order |
| Storage.LoadIdSet | promptScoller/script.js:48-49 | a missing key reads as the empty set; a stored array reads as a set of its members without repeats; every set read has no repeats |
| Storage.StringLiteral | promptScoller/script.js:48-49 | a recognised JSON string literal is its contents between two quotes, with no quote or backslash inside |
| Storage.LoadStoredText | promptScoller/script.js:48-49 | a stored text reads as a set exactly when it is a falsy value or a string literal; falsy reads as the empty set, a string as the set of its characters |
| Storage.StoredFalsyIsEmpty | promptScoller/script.js:48-49 | a stored `null` or `0` reads as the empty set, while a stored `true` stops the script |
| Storage.KeysDistinct | promptScoller/script.js:48-49 | the four storage keys are different strings |
| Storage.ReloadAfterWrite | promptScoller/script.js:241-244 | a set written to storage reads back as exactly that set |
| Storage.WriteLeavesOthers | promptScoller/script.js:271-274 | writing one key changes neither the set read nor the flag seen under any other key |
| Shuffle.Swap | promptScoller/script.js:388 | the destructuring swap exchanges the two cells and leaves every other cell alone |
| Shuffle.SwapPermutes | promptScoller/script.js:388 | a swap permutes the contents |
| Shuffle.ApplyPermutes | promptScoller/script.js:386-389 | any run of the loop's swaps keeps the length and permutes the contents |
| Shuffle.DrawsTail | promptScoller/script.js:386-387 | after the first swap, the remaining draws are legal for the next lower position |
| Shuffle.DrawsInit | promptScoller/script.js:386-387 | legal draws stay legal without the last one, which is at most its position |
| Shuffle.ApplySnoc | promptScoller/script.js:386-389 | one more iteration is one more swap at position `n - 1 - (iterations so far)` |
| Shuffle.SwapAppend | promptScoller/script.js:388 | a swap inside a prefix leaves what follows the prefix alone |
| Shuffle.ApplyAppend | promptScoller/script.js:386-389 | a run of swaps inside a prefix leaves what follows the prefix alone |
| Shuffle.ApplyFrame | promptScoller/script.js:386-389 | the swaps at positions up to `top` leave every cell above `top` untouched |
| Shuffle.ShuffledPermutes | promptScoller/script.js:385-391 | the shuffle of a list is a permutation of it |
| Shuffle.ShuffledFirstSwap | promptScoller/script.js:386-389 | the first swap fixes the last cell, and the rest of the run shuffles the cells before it |
| Shuffle.DropSameLast | promptScoller/script.js:385-391 | permutations of each other that end in the same element stay permutations without it |
| Shuffle.OntoSmall | promptScoller/script.js:385-391 | a list of at most one element is its only permutation, reached with no draws |
| Shuffle.LastSource | promptScoller/script.js:385-391 | the last element of a permutation sits at some position of the input |
| Shuffle.DrawsFor | promptScoller/script.js:385-391 | for every permutation of the input there are legal draws whose shuffle is that permutation |
| Shuffle.ShuffleOnto | promptScoller/script.js:385-391 | every permutation of the input is the outcome of some choice of random indices |
| Shuffle.ShuffleArray | promptScoller/script.js:385-391 | `shuffleArray` returns the same array, whose new contents are the shuffle of the old under legal draws, so the same multiset |
| Uuid.Variant | promptScoller/script.js:9 | the variant digit, the draw with its two high bits forced to `10`, lies in 8..11 |
| Uuid.PlaceholdersAppend | promptScoller/script.js:8 | placeholders in a concatenation add up |
| Uuid.TemplatePlaceholders | promptScoller/script.js:8 | the template has 31 placeholders, so one call takes 31 random draws |
| Uuid.GroupPlaceholders | promptScoller/script.js:8 | placeholder counts of the template's five groups |
| Uuid.FillMatches | promptScoller/script.js:8-11 | whatever the draws, the replacement yields a string the template describes |
| Uuid.HexValue | promptScoller/script.js:10 | the value of a hex digit is the one `toString(16)` prints as that digit |
| Uuid.VariantDigit | promptScoller/script.js:9 | a digit in `8`..`b` is its own variant digit |
| Uuid.Draws | promptScoller/script.js:8-11 | a string the template describes determines one draw per placeholder |
| Uuid.FillDraws | promptScoller/script.js:8-11 | filling the template with those draws gives back the string |
| Uuid.TemplateShape | promptScoller/script.js:8 | a string fits the template exactly when it has the random-UUID layout |
| Uuid.TemplateAt | promptScoller/script.js:8 | the template character at each of the 36 positions |
| Uuid.GenerateShape | promptScoller/script.js:7-12 | `generateUUID` returns 36 characters: dashes at 8, 13, 18 and 23, `4` at 14, one of `89ab` at 19, lower-case hex elsewhere |
| Uuid.GenerateOnto | promptScoller/script.js:7-12 | every string with that layout can be generated |
| Feed.SearchViewSelects | promptScoller/script.js:310-315 | the search result is the order-preserving sub-list of `allImages` whose lower-cased title or description contains the term, and nothing else |
| Feed.CategoryViewSelects | promptScoller/script.js:329-331 | the category result is the order-preserving sub-list whose lower-cased title alone contains the lower-cased term |
| Feed.SavedViewSelects | promptScoller/script.js:344-346 | the saved view is the order-preserving sub-list whose id is in the saved set |
| Feed.EmptySearchIsAll | promptScoller/script.js:305-316 | an empty or all-white-space search shows all of `allImages` in order, the list `handleClearFilter` shows |
| Feed.SearchStable | promptScoller/script.js:306-310 | searching the trimmed text written back into the box shows the same list |
| Feed.NoMatchIsEmpty | promptScoller/script.js:311-316 | a term that no title or description contains gives the empty list and the "No images found." placeholder |
| Feed.SavedViewMembersOnly | promptScoller/script.js:344-346 | the saved view depends only on the set's members, not on its order |
| Feed.UnsaveLastEmptiesSavedView | promptScoller/script.js:276-281 | unsaving the last saved item in the list leaves the saved view empty, so the placeholder is rendered |
| Feed.Render | promptScoller/script.js:123-134 | an empty list renders only the placeholder; otherwise there is one card per image in order, showing its like count, with liked/saved flags equal to set membership |
| Feed.RenderDistinct | promptScoller/script.js:128-132 | a list without repeated ids renders cards without repeated ids |
| Feed.NextLikeCount | promptScoller/script.js:228-236 | liking adds one; unliking subtracts one but never goes below 0 |
| Feed.LikeThenUnlike | promptScoller/script.js:228-236 | like then unlike restores the count exactly when it was not negative |
| Feed.UnlikeThenLike | promptScoller/script.js:228-236 | unlike then like restores the count exactly when it was positive |
| Feed.LikeClickTwice | promptScoller/script.js:221-244 | a like then an unlike restore both the liked set and the count |
| Feed.SaveSurvivesReload | promptScoller/script.js:266-274 | after a save, the set read back at the next start is the old set with the id appended |
| Feed.TrackVisitor | promptScoller/script.js:31-35 | a stored id is kept unchanged; otherwise a new id with the UUID layout is stored, and no other key changes |
| Feed.TrackVisitorOnce | promptScoller/script.js:31-35 | generate once, reuse forever: a second run leaves storage as the first left it |
| Feed.FlipKeepsAgreement | promptScoller/script.js:226 | flipping one card's flags to follow a one-id change in the sets keeps all cards in agreement with the sets |
| Feed.FeedPage.constructor | promptScoller/script.js:45-51 | the initial `appState`: empty lists, not the saved view, and the two sets read from storage |
| Feed.FeedPage.Paint | promptScoller/script.js:119-205 | the container shows `Render` of the list; the hint is on the first card exactly when there is a card and the onboarding flag is unset, and each hint arms one more listener |
| Feed.FeedPage.HandleFilter | promptScoller/script.js:305-320 | the box holds the trimmed text, the saved view is off, `filteredImages` is the search view, and it is rendered |
| Feed.FeedPage.HandleDropdownFilter | promptScoller/script.js:322-338 | a missing or empty term changes nothing; otherwise the box is cleared, the saved view is off, and the category view is stored and rendered |
| Feed.FeedPage.HandleSavedBtnClick | promptScoller/script.js:340-353 | the box is cleared, the saved view is on, and the saved view of the set is stored and rendered |
| Feed.FeedPage.HandleClearFilter | promptScoller/script.js:355-365 | the box is cleared, the saved view is off, and all of `allImages` is stored and rendered in order |
| Feed.FeedPage.ToggleLike | promptScoller/script.js:220-245 | only the clicked id's membership in the liked set flips; only the clicked card's heart and count change; the new set is stored; `allImages` and the saved set are untouched |
| Feed.FeedPage.StoreLiked | promptScoller/script.js:241-244 | the liked set is replaced and written through to storage under `likedItems` |
| Feed.FeedPage.StoreSaved | promptScoller/script.js:271-274 | the saved set is replaced and written through to storage under `savedItems` |
| Feed.FeedPage.FlipSaved | promptScoller/script.js:257-274 | only the clicked id's membership in the saved set flips, only the clicked card's bookmark changes, and the new set is stored |
| Feed.FeedPage.ToggleSave | promptScoller/script.js:256-283 | as `FlipSaved`; in the saved view, the saved view of the new set is then rendered and `filteredImages` stays as it was |
| Feed.FeedPage.StopAnimation | promptScoller/script.js:191-197 | the first gesture after the hint removes it, sets the onboarding flag and detaches every listener; with none attached nothing changes |
| Feed.FeedPage.RunTracker | promptScoller/script.js:30-37 | storage becomes `TrackVisitor` of the old storage, and nothing else changes |
| Feed.FeedPage.Start | promptScoller/script.js:456-461 | `allImages` becomes a shuffle of the fetched list; a non-empty list is copied to `filteredImages` and rendered; an empty one leaves the container alone |
| Feed.FeedPage.Init | promptScoller/script.js:406-472 | the tracker runs; a failed fetch shows the load-failure message, drops the swipe hint and continues with the empty list; then the steps of `Start`, with one more hint armed exactly when the shuffled list renders a hinted card |
| Gallery.OrElse | promp-ts/script.js:66 | the logical-or fallback gives the string when it is present and non-empty, and the fallback otherwise |
| Gallery.CardsOf | promp-ts/script.js:59-107 | one card per item, in order |
| Gallery.Rendered | promp-ts/script.js:46-57 | an empty list renders only the placeholder; otherwise the cards of the order-preserving sub-list of items that have an image URL |
| Gallery.RenderStep | promp-ts/script.js:55-57 | each loop step appends the item's card exactly when the item has an image URL |
| Gallery.NoImageNoPlaceholder | promp-ts/script.js:49-57 | a non-empty list with no image URLs renders no card and no placeholder |
| Gallery.SearchView | promp-ts/script.js:130-134 | the search result is the order-preserving sub-list whose title or description contains the term, a missing field counting as empty |
| Gallery.BlankSearchKeepsAll | promp-ts/script.js:127-133 | an empty or all-white-space input keeps every item in order |
| Gallery.MissingFieldsMatch | promp-ts/script.js:131-132 | an item without a title matches only through its description or the empty term; without either field, only the empty term |
| Gallery.Page.constructor | promp-ts/script.js:43 | the master list starts empty |
| Gallery.Page.Render | promp-ts/script.js:46-108 | the render loop leaves `Rendered` of its input on the page and does not touch the master list |
| Gallery.Page.Search | promp-ts/script.js:126-138 | the search renders the search view and never changes the master list |
| Gallery.Page.LoadImages | promp-ts/script.js:112-123 | a successful load replaces the master list and renders it; a failed one shows the message and keeps the master list |

## Left out

- **Network.** The remote like and unlike calls are not modelled: their
  results are discarded. `trackView` is not modelled either. The fetch is a
  parameter: a list, or `None` for failure.
- **The gallery page's tracker.** `promp-ts/script.js:29-33` repeats the
  visitor-id rule of the feed page. `Feed.TrackVisitor` covers that rule.
- **Asynchronous interleaving.** Overlapping clicks during an `await` are
  not modelled. Each handler is one atomic step.
- **DOM presentation.** This covers icon classes, the filter button's label,
  dropdown, menu, panel and modal state, `scrollTop`, toasts and event
  listener wiring. The model keeps the abstract card records and a count of
  attached hint listeners.
- **Like-count text.** The shown like count is a number on the card. The
  `parseInt` of the span text is not modelled.
- **Copy, share and deep links.** Clipboard, share, copy and the deep-link
  scroll with `history.replaceState` are browser effects. The deep-link
  scroll only runs when `allImages` is not empty.
- **Stored JSON.** JSON text is not modelled in general. Stored values are `Ids` lists or
  `Text` strings.
- **Non-array gallery response.** A gallery fetch whose JSON parses to
  something other than an array is not modelled: `Gallery.Page.LoadImages`
  takes a list or a failure.
- Storage.LoadIdSet: recognises falsy values only in the spellings `null`,
  `false`, `0` and `""`, and string literals only without escapes or
  surrounding white space. Other spellings of the same values (`-0`, `0.0`,
  ` null`, `"\u0041"`) are read as texts that stop the script, while the
  browser would accept them.
- Text.LowerChar: lower-cases ASCII letters only, not the full Unicode
  mapping of `toLowerCase`.
- **Missing feed-page fields.** A missing title or description on the feed page would make
  `toLowerCase` throw. An item without `afterImage` would make `renderImages`
  throw at `promptScoller/script.js:140`, after the cards before it were
  appended and before `animateFirstImage` runs. The model makes the title,
  the description and `afterImage.url` required strings, so neither throw is
  modelled.
- Shuffle.ShuffleArray: the random draws are nondeterministic choices. Their
  distribution, which is uniform in the source, is not modelled.
